/**
 The rate halving of internal/scheduler/scheduler.go: `shouldSkipTick` runs on the collector,
 `engageThrottle` on the sender, over two atomic fields. First each method as one step, then single
 atomic operations as steps. Times are wall-clock nanoseconds. The methods are in `SchedulerLoops`.
 */
module Throttle {
  const THROTTLE_DURATION := 60_000_000_000

  /** throttleUntilNs and throttleSkipNext. */
  datatype Gate = Gate(until: int, skipNext: bool)

  const OPEN := Gate(0, false)

  /** shouldSkipTick: the new state, and whether the tick is skipped. */
  function Tick(g: Gate, now: nat): (Gate, bool) {
    if g.until == 0 then (g, false)
    else if now >= g.until then (OPEN, false)
    else (g.(skipNext := !g.skipNext), g.skipNext)
  }

  function Engage(g: Gate, now: nat): Gate {
    Gate(now + THROTTLE_DURATION, if g.until == 0 then false else g.skipNext)
  }

  // ---------- each method as one step ----------

  datatype Event = Ticked(now: nat) | Engaged(now: nat)

  /** The state after a run of events, and the verdict on every tick of it. */
  function Play(g: Gate, events: seq<Event>): (Gate, seq<bool>)
    decreases |events|
  {
    if events == [] then (g, [])
    else
      match events[0]
      case Ticked(now) =>
        var (next, skip) := Tick(g, now);
        var (end, verdicts) := Play(next, events[1..]);
        (end, [skip] + verdicts)
      case Engaged(now) => Play(Engage(g, now), events[1..])
  }

  lemma {:induction false} PlayOneMore(g: Gate, events: seq<Event>, e: Event)
    ensures var (h, verdicts) := Play(g, events);
            Play(g, events + [e]) == match e case Ticked(now) => (Tick(h, now).0, verdicts + [Tick(h, now).1])
                                             case Engaged(now) => (Engage(h, now), verdicts)
    decreases |events|
  {
    if events == [] {
      assert [] + [e] == [e] && [e][1..] == [];
      assert e.Ticked? ==> [Tick(g, e.now).1] + [] == [] + [Tick(g, e.now).1];
    } else {
      var next := match events[0] case Ticked(now) => Tick(g, now).0 case Engaged(now) => Engage(g, now);
      PlayOneMore(next, events[1..], e);
      assert (events + [e])[1..] == events[1..] + [e];
      if events[0].Ticked? && e.Ticked? {
        var (h, rest) := Play(next, events[1..]);
        var first, last := Tick(g, events[0].now).1, Tick(h, e.now).1;
        assert [first] + (rest + [last]) == [first] + rest + [last];
      }
    }
  }

  /** Every tick finds a window that is open and has not expired. */
  predicate Throttled(g: Gate, events: seq<Event>)
    decreases |events|
  {
    events == []
    || match events[0]
       case Ticked(now) => 0 < g.until && now < g.until && Throttled(Tick(g, now).0, events[1..])
       case Engaged(now) => Throttled(Engage(g, now), events[1..])
  }

  function Skips(verdicts: seq<bool>): nat {
    if verdicts == [] then 0 else (if verdicts[0] then 1 else 0) + Skips(verdicts[1..])
  }

  /** Inside a window, whatever the re-engagements: scrape, skip, scrape, skip, ..., so that exactly
      floor(n/2) of the first n ticks are skipped. */
  lemma HalfOfTheTicksAreSkipped(now: nat, events: seq<Event>, n: nat)
    requires Throttled(Engage(OPEN, now), events)
    requires n <= |Play(Engage(OPEN, now), events).1|
    ensures var verdicts := Play(Engage(OPEN, now), events).1;
            && Alternating(verdicts, false)
            && Skips(verdicts[..n]) == n / 2
  {
    Alternates(Engage(OPEN, now), events);
    CountOdd(Play(Engage(OPEN, now), events).1[..n], 0);
  }

  ghost predicate Alternating(verdicts: seq<bool>, skipFirst: bool) {
    forall k :: 0 <= k < |verdicts| ==> verdicts[k] == ((k % 2 == 1) != skipFirst)
  }

  lemma {:induction false} Alternates(g: Gate, events: seq<Event>)
    requires g.until > 0 && Throttled(g, events)
    ensures Alternating(Play(g, events).1, g.skipNext)
    decreases |events|
  {
    if events != [] {
      var next := match events[0] case Ticked(now) => Tick(g, now).0 case Engaged(now) => Engage(g, now);
      Alternates(next, events[1..]);
    }
  }

  lemma {:induction false} CountOdd(verdicts: seq<bool>, first: nat)
    requires Alternating(verdicts, first % 2 == 1)
    ensures Skips(verdicts) == (first + |verdicts|) / 2 - first / 2
  {
    if verdicts != [] {
      CountOdd(verdicts[1..], first + 1);
    }
  }

  /** Ticks and engagements within a minute of an engagement at `now`. */
  ghost predicate WithinTheMinute(events: seq<Event>, now: nat) {
    forall e :: e in events ==>
      match e
      case Ticked(n) => now <= n < now + 60_000_000_000
      case Engaged(n) => now <= n
  }

  /** A window lasts a minute: whatever came before the engagement, all ticks of that minute find it
      open; and the first tick after it finds it expired, unless there was another engagement. */
  lemma WindowLastsAMinute(g: Gate, now: nat, events: seq<Event>, late: nat)
    requires WithinTheMinute(events, now)
    ensures Throttled(Engage(g, now), events)
    ensures late >= now + 60_000_000_000 && (forall e :: e in events ==> e.Ticked?) ==>
              Tick(Play(Engage(g, now), events).0, late) == (OPEN, false)
  {
    OpenForAMinute(Engage(g, now), now, events);
    if forall e :: e in events ==> e.Ticked? { DeadlineStays(Engage(g, now), now, events); }
  }

  lemma {:induction false} OpenForAMinute(g: Gate, now: nat, events: seq<Event>)
    requires WithinTheMinute(events, now) && g.until >= now + 60_000_000_000
    ensures Throttled(g, events)
    decreases |events|
  {
    if events != [] {
      assert events[0] in events && forall e :: e in events[1..] ==> e in events;
      var next := match events[0] case Ticked(n) => Tick(g, n).0 case Engaged(n) => Engage(g, n);
      OpenForAMinute(next, now, events[1..]);
    }
  }

  lemma {:induction false} DeadlineStays(g: Gate, now: nat, events: seq<Event>)
    requires WithinTheMinute(events, now) && g.until == now + 60_000_000_000
    requires forall e :: e in events ==> e.Ticked?
    ensures Play(g, events).0.until == now + 60_000_000_000
    decreases |events|
  {
    if events != [] {
      assert events[0] in events && forall e :: e in events[1..] ==> e in events;
      DeadlineStays(Tick(g, events[0].now).0, now, events[1..]);
    }
  }

  /** After any run, a closed window leaves no trace: an expired or never opened one is the initial
      state, so every window starts with a scrape. */
  lemma ExpiryRestoresTheStart(events: seq<Event>, now: nat)
    ensures var g := Play(OPEN, events).0;
            && (g.until == 0 ==> g == OPEN)
            && (now >= g.until ==> Tick(g, now) == (OPEN, false))
  {
    ClosedIsOpen(OPEN, events);
  }

  lemma {:induction false} ClosedIsOpen(g: Gate, events: seq<Event>)
    requires g.until >= 0 && (g.until == 0 ==> g == OPEN)
    ensures var h := Play(g, events).0; h.until >= 0 && (h.until == 0 ==> h == OPEN)
    decreases |events|
  {
    if events != [] {
      var next := match events[0] case Ticked(now) => Tick(g, now).0 case Engaged(now) => Engage(g, now);
      ClosedIsOpen(next, events[1..]);
    }
  }

  // ---------- single atomic operations as steps ----------

  /** Where shouldSkipTick stands between two operations. */
  datatype TickPc = Idle | Comparing(until: int) | ClearingUntil | ClearingSkip | LoadingSkip | StoringSkip(skip: bool)

  datatype EngagePc = Calm | ResettingSkip

  datatype Shared = Shared(gate: Gate, tick: TickPc, engage: EngagePc, verdicts: seq<bool>)

  const START := Shared(OPEN, Idle, Calm, [])

  datatype Op = TickOp(now: nat) | EngageOp(now: nat)

  function Atomic(s: Shared, op: Op): Shared {
    match op
    case TickOp(now) => (
      match s.tick
      case Idle =>
        if s.gate.until == 0 then s.(verdicts := s.verdicts + [false]) else s.(tick := Comparing(s.gate.until))
      case Comparing(until) => s.(tick := if now >= until then ClearingUntil else LoadingSkip)
      case ClearingUntil => s.(tick := ClearingSkip, gate := s.gate.(until := 0))
      case ClearingSkip => s.(tick := Idle, gate := s.gate.(skipNext := false), verdicts := s.verdicts + [false])
      case LoadingSkip => s.(tick := StoringSkip(s.gate.skipNext))
      case StoringSkip(skip) => s.(tick := Idle, gate := s.gate.(skipNext := !skip), verdicts := s.verdicts + [skip]))
    case EngageOp(now) =>
      match s.engage
      case Calm => s.(engage := if s.gate.until == 0 then ResettingSkip else Calm,
                      gate := s.gate.(until := now + THROTTLE_DURATION))
      case ResettingSkip => s.(engage := Calm, gate := s.gate.(skipNext := false))
  }

  function Interleave(s: Shared, ops: seq<Op>): Shared
    decreases |ops|
  {
    if ops == [] then s else Interleave(Atomic(s, ops[0]), ops[1..])
  }

  ghost predicate NoTwoSkips(verdicts: seq<bool>) {
    forall k :: 0 < k < |verdicts| ==> !(verdicts[k - 1] && verdicts[k])
  }

  /** A tick that skipped leaves throttleSkipNext false, and engageThrottle never sets it. */
  ghost predicate AfterSkip(s: Shared) {
    && NoTwoSkips(s.verdicts)
    && (s.verdicts != [] && s.verdicts[|s.verdicts| - 1] ==> !s.gate.skipNext && s.tick != StoringSkip(true))
  }

  /** Under every interleaving of the atomic operations, no two consecutive ticks are both skipped. */
  lemma {:induction false} NeverSkipsTwice(s: Shared, ops: seq<Op>)
    requires AfterSkip(s)
    ensures AfterSkip(Interleave(s, ops))
    decreases |ops|
  {
    if ops != [] {
      NeverSkipsTwice(Atomic(s, ops[0]), ops[1..]);
    }
  }

  lemma NoTwoConsecutiveSkips(ops: seq<Op>)
    ensures NoTwoSkips(Interleave(START, ops).verdicts)
  {
    NeverSkipsTwice(START, ops);
  }

  /** The operations of one tick, undisturbed, do what the method does. */
  lemma UndisturbedTick(s: Shared, now: nat)
    requires s.tick == Idle
    ensures var steps := if s.gate.until == 0 then 1 else 4;
            var (g, skip) := Tick(s.gate, now);
            Interleave(s, seq(steps, _ => TickOp(now))) == s.(gate := g, verdicts := s.verdicts + [skip])
  {
    var s1 := Atomic(s, TickOp(now));
    var s2, ops := Atomic(s1, TickOp(now)), seq(4, _ => TickOp(now));
    var s3 := Atomic(s2, TickOp(now));
    var s4 := Atomic(s3, TickOp(now));
    assert Interleave(s4, ops[4..]) == s4;
    assert Interleave(s3, ops[3..]) == s4;
    assert Interleave(s2, ops[2..]) == s4;
    assert Interleave(s1, ops[1..]) == s4;
    assert Interleave(s1, [TickOp(now)][1..]) == s1;
  }

  lemma UndisturbedEngage(s: Shared, now: nat)
    requires s.engage == Calm
    ensures var steps := if s.gate.until == 0 then 2 else 1;
            Interleave(s, seq(steps, _ => EngageOp(now))) == s.(gate := Engage(s.gate, now))
  {
    var s1 := Atomic(s, EngageOp(now));
    var s2, ops := Atomic(s1, EngageOp(now)), seq(2, _ => EngageOp(now));
    assert Interleave(s2, ops[2..]) == s2;
    assert Interleave(s1, ops[1..]) == s2;
    assert Interleave(s1, [EngageOp(now)][1..]) == s1;
  }

  /** What happens within a minute of an engagement at `now`: ticks before its deadline, and possibly
      more engagements. */
  ghost predicate Timely(ops: seq<Op>, now: nat) {
    forall op :: op in ops ==>
      match op
      case TickOp(n) => now <= n < now + THROTTLE_DURATION
      case EngageOp(n) => now <= n
  }

  /** A tick has found an earlier deadline expired, or will, and has not cleared the field yet. */
  predicate AboutToClear(s: Shared, now: nat) {
    s.tick.ClearingUntil? || (s.tick.Comparing? && s.tick.until < now + THROTTLE_DURATION)
  }

  /** An engagement lasts its minute under every interleaving, if and only if no tick is about to
      clear the field when it happens. */
  lemma EngagementLastsIff(s: Shared, now: nat)
    requires s.engage.Calm?
    ensures (forall ops :: Timely(ops, now) ==>
               Interleave(Atomic(s, EngageOp(now)), ops).gate.until >= now + THROTTLE_DURATION)
        <==> !AboutToClear(s, now)
  {
    var t := Atomic(s, EngageOp(now));
    if AboutToClear(s, now) {
      var ops := Clearing(t, now);
      assert Timely(ops, now) && Interleave(t, ops).gate.until == 0;
    } else {
      forall ops | Timely(ops, now)
        ensures Interleave(t, ops).gate.until >= now + THROTTLE_DURATION
      {
        WindowStays(t, ops, now);
      }
    }
  }

  /** The ticks that clear the field. */
  lemma Clearing(t: Shared, now: nat) returns (ops: seq<Op>)
    requires AboutToClear(t, now)
    ensures Timely(ops, now) && Interleave(t, ops).gate.until == 0
  {
    if t.tick.ClearingUntil? {
      ops := [TickOp(now)];
      assert Interleave(Atomic(t, ops[0]), ops[1..]) == Atomic(t, ops[0]);
    } else {
      var late := if t.tick.until > now then t.tick.until else now;
      ops := [TickOp(late), TickOp(late)];
      var u := Atomic(t, ops[0]);
      var v := Atomic(u, ops[1]);
      assert Interleave(v, ops[2..]) == v;
      assert Interleave(u, ops[1..]) == v;
    }
  }

  lemma {:induction false} WindowStays(t: Shared, ops: seq<Op>, now: nat)
    requires Timely(ops, now) && t.gate.until >= now + THROTTLE_DURATION && !AboutToClear(t, now)
    ensures Interleave(t, ops).gate.until >= now + THROTTLE_DURATION
    decreases |ops|
  {
    if ops != [] {
      assert ops[0] in ops && forall op :: op in ops[1..] ==> op in ops;
      WindowStays(Atomic(t, ops[0]), ops[1..], now);
    }
  }

  /** It does happen that an engagement is lost: from the start, after a first engagement has expired,
      a second one falls between the comparison of a tick and its store. */
  lemma EngagementCanBeLost(now: nat)
    requires now >= THROTTLE_DURATION
    ensures var first := EngageOp(now - THROTTLE_DURATION);
            var ops := [first, first, TickOp(now), TickOp(now), EngageOp(now), TickOp(now), TickOp(now)];
            Interleave(START, ops) == Shared(OPEN, Idle, Calm, [false])
  {
    var first := EngageOp(now - THROTTLE_DURATION);
    var ops := [first, first, TickOp(now), TickOp(now), EngageOp(now), TickOp(now), TickOp(now)];
    var s1 := Atomic(START, ops[0]);
    var s2 := Atomic(s1, ops[1]);
    var s3 := Atomic(s2, ops[2]);
    var s4 := Atomic(s3, ops[3]);
    var s5 := Atomic(s4, ops[4]);
    var s6 := Atomic(s5, ops[5]);
    var s7 := Atomic(s6, ops[6]);
    assert Interleave(s7, ops[7..]) == s7;
    assert Interleave(s6, ops[6..]) == s7;
    assert Interleave(s5, ops[5..]) == s7;
    assert Interleave(s4, ops[4..]) == s7;
    assert Interleave(s3, ops[3..]) == s7;
    assert Interleave(s2, ops[2..]) == s7;
    assert Interleave(s1, ops[1..]) == s7;
  }
}
