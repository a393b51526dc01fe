/**
 `collectLoop`, `scrapeOnce`, `sendLoop`, `sleepWithJitter`, `shouldSkipTick` and `engageThrottle` of
 internal/scheduler/scheduler.go in the form they are written in, on the array-backed Buffer. Each
 loop is proved to be a schedule of the step system in `Pipeline` in which only its own goroutine
 moves, so what is proved about schedules there holds of this code. While a loop runs here, nothing
 else moves: it stops where it would wait for another goroutine.
 */
module SchedulerLoops {
  import opened Wrappers
  import opened Sinks
  import opened Backoff
  import opened Pipeline
  import PipelineSafety
  import opened BatchBuffer
  import Int64
  import Throttle

  /** A tick that collectLoop takes: the time, and how many samples a scrape would return. */
  datatype TickEvent = TickEvent(now: nat, samples: nat)

  /** An answer of the sink, and the time at which it came. */
  datatype Reply = Reply(outcome: Outcome, now: nat)

  function TicksOf(ticks: seq<TickEvent>): seq<Throttle.Event> {
    if ticks == [] then [] else TicksOf(Init(ticks)) + [Throttle.Ticked(Last(ticks).now)]
  }

  /** How sendLoop ends, or where it waits for the others. */
  datatype Ending = Nil | Fatal | StillBlocked {
    function Pc(): SenderPc {
      match this
      case Nil => Done
      case Fatal => Recording
      case StillBlocked => Blocked
    }
  }

  predicate ByCollector(moves: seq<Move>) {
    forall m :: m in moves ==> m.Collector?
  }

  predicate BySender(moves: seq<Move>) {
    forall m :: m in moves ==> m.Sender?
  }

  function ScrapeMoves(samples: nat): seq<Move> {
    if samples == 0 then [Collector(ScrapeDone(0))]
    else [Collector(ScrapeDone(samples)), Collector(Append), Collector(Signal)]
  }

  predicate CallsForThrottle(r: Reply) {
    r.outcome.Accepted? && r.outcome.droppedQuota > 0
  }

  /** The engagements of the throttle that these answers call for. */
  function EngagementsOf(replies: seq<Reply>): seq<Throttle.Event> {
    if replies == [] then []
    else EngagementsOf(Init(replies)) +
         if CallsForThrottle(Last(replies)) then [Throttle.Engaged(Last(replies).now)] else []
  }

  /** A batch is named by its position in the order of pushes. */
  class Scheduler {
    const buf: Buffer<nat>
    var nextBatch: nat
    var scrapesOK: nat
    var batchesSent: nat
    var batchesFailed: nat
    var throttleUntilNs: int
    var throttleSkipNext: bool
    var collectCancelled: bool   // collectCtx
    var sendCancelled: bool      // sendCtx
    var shutdownClosed: bool     // shutdownSend

    function Gate(): Throttle.Gate
      reads this`throttleUntilNs, this`throttleSkipNext
    {
      Throttle.Gate(throttleUntilNs, throttleSkipNext)
    }

    ghost predicate Mirrors(cfg: Config, s: State)
      reads this, buf, buf.slots
    {
      && buf.Valid() && cfg.Valid() && buf.cap == cfg.capacity
      && s.q == Queue(buf.Contents(), buf.dropped, buf.notify, nextBatch)
      && s.count == Counters(scrapesOK, batchesSent, batchesFailed)
      && s.flags.collectCancelled == collectCancelled
      && s.flags.sendCancelled == sendCancelled
      && s.flags.shutdownClosed == shutdownClosed
    }

    constructor (cap: nat)
      requires 1 <= cap
      ensures fresh(buf) && fresh(buf.slots)
      ensures Gate() == Throttle.OPEN
      ensures forall drain :: Mirrors(Config(cap, drain), Initial())
    {
      buf := new Buffer(cap, 0);
      nextBatch, scrapesOK, batchesSent, batchesFailed := 0, 0, 0, 0;
      throttleUntilNs, throttleSkipNext := 0, false;
      collectCancelled, sendCancelled, shutdownClosed := false, false, false;
    }

    // ---------- the throttle ----------

    method ShouldSkipTick(now: nat) returns (skip: bool)
      modifies this`throttleUntilNs, this`throttleSkipNext
      ensures (Gate(), skip) == Throttle.Tick(old(Gate()), now)
    {
      var until := throttleUntilNs;
      if until == 0 {
        return false;
      }
      if now >= until {
        throttleUntilNs := 0;
        throttleSkipNext := false;
        return false;
      }
      skip := throttleSkipNext;
      throttleSkipNext := !skip;
    }

    method EngageThrottle(now: nat)
      modifies this`throttleUntilNs, this`throttleSkipNext
      ensures Gate() == Throttle.Engage(old(Gate()), now)
    {
      var before := throttleUntilNs;
      throttleUntilNs := now + Throttle.THROTTLE_DURATION;
      if before == 0 {
        throttleSkipNext := false;
      }
    }

    // ---------- the collector ----------

    /** `samples` is how many samples the scrape returned. */
    method ScrapeOnce(samples: nat, ghost cfg: Config, ghost s: State, ghost before: seq<Move>, ghost u: State)
      returns (ghost moves: seq<Move>, ghost t: State)
      requires Mirrors(cfg, u) && Exec(cfg, s, before) == Some(u)
      requires u.collector.Scraping?
      modifies this`scrapesOK, this`nextBatch, buf, buf.slots
      ensures Mirrors(cfg, t) && Exec(cfg, s, moves) == Some(t)
      ensures moves == before + ScrapeMoves(samples)
      ensures buf.slots == old(buf.slots)
      ensures t == u.(collector := Ticking, q := t.q, count := t.count)
      ensures t.q == if samples == 0 then u.q else u.q.Push(cfg.capacity).(notify := true)
      ensures t.q.pushed == u.q.pushed + if samples == 0 then 0 else 1
      ensures t.count == u.count.(scrapesOK := u.count.scrapesOK + if samples == 0 then 0 else 1)
    {
      if samples == 0 {
        moves, t := CollectorTakes(cfg, s, before, u, ScrapeDone(0));
        return;
      }
      scrapesOK := scrapesOK + 1;
      var overflow := buf.Push(nextBatch);
      nextBatch := nextBatch + 1;
      moves, t := CollectorPushes(cfg, s, before, u, samples);
    }

    /** One tick of collectLoop. */
    method TakeTick(tick: TickEvent, ghost cfg: Config, ghost s: State, ghost before: seq<Move>, ghost u: State)
      returns (ghost moves: seq<Move>, ghost t: State)
      requires Mirrors(cfg, u) && Exec(cfg, s, before) == Some(u) && ByCollector(before)
      requires u.collector.Ticking?
      modifies this`scrapesOK, this`nextBatch, this`throttleUntilNs, this`throttleSkipNext, buf, buf.slots
      ensures Mirrors(cfg, t) && Exec(cfg, s, moves) == Some(t) && ByCollector(moves)
      ensures buf.slots == old(buf.slots)
      ensures t == u.(q := t.q, count := t.count, seen := t.seen)
      ensures var (gate, skip) := Throttle.Tick(old(Gate()), tick.now);
              && Gate() == gate && t.seen == u.seen.(ticks := u.seen.ticks + [skip])
              && t.q.pushed == u.q.pushed + (if skip || tick.samples == 0 then 0 else 1)
              && t.count == u.count.(scrapesOK := u.count.scrapesOK + if skip || tick.samples == 0 then 0 else 1)
    {
      var skip := ShouldSkipTick(tick.now);
      moves, t := CollectorTakes(cfg, s, before, u, Tick(skip));
      if !skip {
        moves, t := ScrapeOnce(tick.samples, cfg, s, moves, t);
        assert ByCollector(ScrapeMoves(tick.samples));
      }
    }

    /** The loop of collectLoop, for as many ticks as come. Each scrape that is not skipped and not empty
        brings one batch. */
    method TakeTicks(ticks: seq<TickEvent>, ghost cfg: Config, ghost s: State, ghost before: seq<Move>, ghost u: State)
      returns (ghost verdicts: seq<bool>, ghost moves: seq<Move>, ghost t: State)
      requires Mirrors(cfg, u) && Exec(cfg, s, before) == Some(u) && ByCollector(before)
      requires u.collector.Ticking?
      modifies this`scrapesOK, this`nextBatch, this`throttleUntilNs, this`throttleSkipNext, buf, buf.slots
      ensures Mirrors(cfg, t) && Exec(cfg, s, moves) == Some(t) && ByCollector(moves)
      ensures (Gate(), verdicts) == Throttle.Play(old(Gate()), TicksOf(ticks)) && |verdicts| == |ticks|
      ensures var batches := |set i | 0 <= i < |ticks| && !verdicts[i] && ticks[i].samples > 0|;
              && t == u.(q := t.q, count := u.count.(scrapesOK := u.count.scrapesOK + batches),
                         seen := u.seen.(ticks := u.seen.ticks + verdicts))
              && t.q.pushed == u.q.pushed + batches
    {
      moves, t, verdicts := before, u, [];
      ghost var batches := 0;
      for i := 0 to |ticks|
        invariant Mirrors(cfg, t) && buf.slots == old(buf.slots)
        invariant Exec(cfg, s, moves) == Some(t) && ByCollector(moves)
        invariant (Gate(), verdicts) == Throttle.Play(old(Gate()), TicksOf(ticks[..i])) && |verdicts| == i
        invariant t == u.(q := t.q, count := u.count.(scrapesOK := u.count.scrapesOK + batches),
                          seen := u.seen.(ticks := u.seen.ticks + verdicts))
        invariant t.q.pushed == u.q.pushed + batches && batches == |Scraped(ticks, verdicts)|
      {
        ghost var skip := Throttle.Tick(Gate(), ticks[i].now).1;
        OneMoreTick(old(Gate()), ticks, i);
        OneMoreScrape(ticks, verdicts, skip);
        batches := batches + if skip || ticks[i].samples == 0 then 0 else 1;
        moves, t := TakeTick(ticks[i], cfg, s, moves, t);
        assert u.seen.ticks + (verdicts + [skip]) == u.seen.ticks + verdicts + [skip];
        verdicts := verdicts + [skip];
      }
      assert ticks[..|ticks|] == ticks;
      assert Scraped(ticks, verdicts) == set i | 0 <= i < |ticks| && !verdicts[i] && ticks[i].samples > 0;
    }

    /** The first scrape, and then the ticks that come; after them the select takes ctx.Done, if the
        context is cancelled, and waits otherwise. */
    method CollectLoop(first: nat, ticks: seq<TickEvent>, ghost cfg: Config, ghost s: State)
      returns (ghost verdicts: seq<bool>, ghost moves: seq<Move>, ghost t: State)
      requires Mirrors(cfg, s) && s.collector.Scraping?
      modifies this`scrapesOK, this`nextBatch, this`throttleUntilNs, this`throttleSkipNext, buf, buf.slots
      ensures Mirrors(cfg, t) && Exec(cfg, s, moves) == Some(t) && ByCollector(moves)
      ensures (Gate(), verdicts) == Throttle.Play(old(Gate()), TicksOf(ticks)) && |verdicts| == |ticks|
      ensures var batches := (if first == 0 then 0 else 1)
                             + |set i | 0 <= i < |ticks| && !verdicts[i] && ticks[i].samples > 0|;
              && t == s.(collector := if collectCancelled then Stopped else Ticking, q := t.q,
                         count := s.count.(scrapesOK := s.count.scrapesOK + batches),
                         seen := s.seen.(ticks := s.seen.ticks + verdicts))
              && t.q.pushed == s.q.pushed + batches
    {
      moves, t := Start(cfg, s);
      moves, t := ScrapeOnce(first, cfg, s, moves, t);
      assert ByCollector(ScrapeMoves(first));
      verdicts, moves, t := TakeTicks(ticks, cfg, s, moves, t);
      if collectCancelled {
        moves, t := CollectorTakes(cfg, s, moves, t, Stop);
      }
    }

    // ---------- the sender ----------

    /** sendLoop on an empty buffer: the select takes any case that is ready, and waits if none is. */
    method AwaitData(ghost cfg: Config, ghost s: State, ghost before: seq<Move>, ghost u: State)
      returns (ending: Option<Ending>, ghost moves: seq<Move>, ghost t: State)
      requires Mirrors(cfg, u) && Exec(cfg, s, before) == Some(u) && BySender(before)
      requires u.sender.Blocked? && u.q.items == []
      modifies buf`notify
      ensures Mirrors(cfg, t) && Exec(cfg, s, moves) == Some(t) && BySender(moves)
      ensures t == u.(sender := if ending.None? then CheckCtx else ending.value.Pc(), q := t.q)
      ensures buf.notify == (ending.Some? && old(buf.notify))
      ensures ending.None? ==> old(buf.notify)
      ensures ending == Some(Nil) ==> sendCancelled || shutdownClosed
      ensures ending == Some(StillBlocked) <==> !sendCancelled && !shutdownClosed && !old(buf.notify)
      ensures ending != Some(Fatal)
    {
      moves, t := before, u;
      if
      case sendCancelled =>
        moves, t := SenderTakes(cfg, s, moves, t, OnCancel);
        ending := Some(Nil);
      case shutdownClosed =>
        moves, t := SenderTakes(cfg, s, moves, t, OnShutdown);
        var again := buf.Peek();
        moves, t := SenderTakes(cfg, s, moves, t, Advance);
        assert again.None?;
        ending := Some(Nil);
      case buf.notify =>
        buf.notify := false;
        moves, t := SenderTakes(cfg, s, moves, t, OnNotify);
        ending := None;
      case !sendCancelled && !shutdownClosed && !buf.notify =>
        ending := Some(StillBlocked);
    }

    /** sendLoop after a Send that returned nil. */
    method AfterDelivery(ghost cfg: Config, ghost s: State, ghost before: seq<Move>, ghost u: State)
      returns (ghost moves: seq<Move>, ghost t: State)
      requires Mirrors(cfg, u) && Exec(cfg, s, before) == Some(u) && BySender(before)
      requires u.sender.Popping? && u.q.items != []
      modifies this`batchesSent, buf`len, buf`calls, buf.slots
      ensures Mirrors(cfg, t) && Exec(cfg, s, moves) == Some(t) && BySender(moves)
      ensures t == u.(sender := CheckCtx, q := u.q.(items := u.q.items[1..]), count := t.count, backoff := 0)
      ensures t.count == u.count.(batchesSent := u.count.batchesSent + 1)
      ensures buf.slots == old(buf.slots) && buf.len == old(buf.len) - 1
    {
      var popped := buf.Pop();
      batchesSent := batchesSent + 1;
      moves, t := SenderPopsAndCounts(cfg, s, before, u);
    }

    /** sleepWithJitter, up to the timer; a cancelled context may cut the sleep short. */
    method SleepWithJitter(base: int, fullJitter: bool) returns (sleep: int)
      requires base <= MAX_SEND_BACKOFF
      ensures if base <= 0 then sleep == 0 else CanSleep(base, fullJitter, sleep)
    {
      if base <= 0 {
        return 0;
      }
      var draw: int;
      if fullJitter {
        draw :| 0 <= draw < Int64.Wrap(base + 1);
        sleep := draw;
      } else {
        var half := base / 2;
        draw :| 0 <= draw < Int64.Wrap(half + 1);
        sleep := Int64.Wrap(half + draw);
      }
      assert Sleep(base, fullJitter, draw) == sleep;
    }

    /** sendLoop after a refusal that is not fatal. */
    method AfterRefusal(backoff: int, failure: Option<int>, ghost cfg: Config,
                        ghost s: State, ghost before: seq<Move>, ghost u: State)
      returns (longer: int, slept: int, ghost moves: seq<Move>, ghost t: State)
      requires Mirrors(cfg, u) && Exec(cfg, s, before) == Some(u) && BySender(before)
      requires u.sender == Failing(failure) && u.backoff == backoff
      requires 0 <= backoff <= MAX_SEND_BACKOFF
      modifies this`batchesFailed
      ensures Mirrors(cfg, t) && Exec(cfg, s, moves) == Some(t) && BySender(moves)
      ensures t == u.(sender := CheckCtx, count := t.count, backoff := longer)
      ensures t.count == u.count.(batchesFailed := u.count.batchesFailed + 1)
      ensures MIN_SEND_BACKOFF <= longer <= MAX_SEND_BACKOFF
      ensures CanSleep(longer, failure.None?, slept)
    {
      moves, t := before, u;
      batchesFailed := batchesFailed + 1;
      longer := NextBackoff(backoff);
      if failure.Some? {
        if failure.value > longer {
          longer := failure.value;
        }
        if longer > MAX_SEND_BACKOFF {
          longer := MAX_SEND_BACKOFF;
        }
      }
      assert longer == AfterFailure(backoff, failure);
      moves, t := SenderTakes(cfg, s, moves, t, Advance);
      slept := SleepWithJitter(longer, failure.None?);
      moves, t := SenderTakes(cfg, s, moves, t, Advance);
    }

    /** sendLoop from the call of Send on. */
    method SendHead(reply: Reply, backoff: int, ghost cfg: Config,
                    ghost s: State, ghost before: seq<Move>, ghost u: State)
      returns (fatal: bool, next: int, ghost moves: seq<Move>, ghost t: State)
      requires Mirrors(cfg, u) && Exec(cfg, s, before) == Some(u) && BySender(before)
      requires u.q.items != [] && u.sender == Starting(u.q.items[0]) && u.backoff == backoff
      requires 0 <= backoff <= MAX_SEND_BACKOFF
      modifies this`batchesSent, this`batchesFailed, this`throttleUntilNs, this`throttleSkipNext
      modifies buf`len, buf`calls, buf.slots
      ensures Mirrors(cfg, t) && Exec(cfg, s, moves) == Some(t) && BySender(moves)
      ensures t.flags == u.flags && t.collector == u.collector
      ensures t.seen.log == u.seen.log + [Attempt(u.q.items[0], reply.outcome)]
      ensures t.q == if reply.outcome.Accepted? then u.q.(items := u.q.items[1..]) else u.q
      ensures t.count == Counted(u.count, reply.outcome)
      ensures fatal == reply.outcome.Fatal() && t.sender == if fatal then Recording else CheckCtx
      ensures 0 <= next <= MAX_SEND_BACKOFF && (!fatal ==> t.backoff == next)
      ensures buf.slots == old(buf.slots)
      ensures buf.len == if reply.outcome.Accepted? then old(buf.len) - 1 else old(buf.len)
      ensures Gate() == if reply.outcome.Accepted? && reply.outcome.droppedQuota > 0
                        then Throttle.Engage(old(Gate()), reply.now) else old(Gate())
    {
      fatal, next := false, 0;
      moves, t := SenderTakes(cfg, s, before, u, Advance);
      moves, t := SenderTakes(cfg, s, moves, t, Answer(reply.outcome));
      if reply.outcome.Accepted? {
        moves, t := AfterDelivery(cfg, s, moves, t);
        if reply.outcome.droppedQuota > 0 {
          EngageThrottle(reply.now);
        }
      } else if reply.outcome.err.wrapsFatal {
        fatal := true;
      } else {
        var slept;
        next, slept, moves, t := AfterRefusal(backoff, reply.outcome.err.retryAfter, cfg, s, moves, t);
      }
    }

    /** One round of sendLoop. With `ending`, the loop ends or waits; without, it goes on. */
    method SendRound(reply: Reply, backoff: int, ghost cfg: Config,
                     ghost s: State, ghost before: seq<Move>, ghost u: State)
      returns (ending: Option<Ending>, sent: bool, next: int, ghost moves: seq<Move>, ghost t: State)
      requires Mirrors(cfg, u) && Exec(cfg, s, before) == Some(u) && BySender(before)
      requires u.sender.CheckCtx? && u.backoff == backoff && 0 <= backoff <= MAX_SEND_BACKOFF
      modifies this`batchesSent, this`batchesFailed, this`throttleUntilNs, this`throttleSkipNext, buf, buf.slots
      ensures Mirrors(cfg, t) && Exec(cfg, s, moves) == Some(t) && BySender(moves)
      ensures buf.slots == old(buf.slots) && t.flags == u.flags && t.collector == u.collector
      ensures t.sender == if ending.None? then CheckCtx else ending.value.Pc()
      ensures ending.None? ==> t.backoff == next && 0 <= next <= MAX_SEND_BACKOFF
      ensures sent <==> !u.flags.sendCancelled && u.q.items != []
      ensures t.seen.log == if sent then u.seen.log + [Attempt(u.q.items[0], reply.outcome)] else u.seen.log
      ensures t.q.items == if sent && reply.outcome.Accepted? then u.q.items[1..] else u.q.items
      ensures t.count == if sent then Counted(u.count, reply.outcome) else u.count
      ensures ending == Some(Fatal) <==> sent && reply.outcome.Fatal()
      ensures ending == Some(StillBlocked) ==> !t.q.notify && !u.flags.sendCancelled && !u.flags.shutdownClosed
      ensures ending.None? && !sent ==> u.q.notify && !t.q.notify
      ensures sent && ending.Some? ==> ending == Some(Fatal)
      ensures Gate() == if sent && reply.outcome.Accepted? && reply.outcome.droppedQuota > 0
                        then Throttle.Engage(old(Gate()), reply.now) else old(Gate())
    {
      sent, next := false, backoff;
      moves, t := SenderTakes(cfg, s, before, u, Advance);
      if sendCancelled {
        return Some(Nil), sent, next, moves, t;
      }
      var head := buf.Peek();
      moves, t := SenderTakes(cfg, s, moves, t, Advance);
      if head.None? {
        ending, moves, t := AwaitData(cfg, s, moves, t);
        return;
      }
      sent := true;
      var fatal;
      fatal, next, moves, t := SendHead(reply, backoff, cfg, s, moves, t);
      ending := if fatal then Some(Fatal) else None;
    }

    /** `replies` is what the sink will answer; after that it accepts everything. The log of the sends
        is the list of these answers, used in order up to the one at which the loop ends, if it is
        fatal. What is delivered leaves the buffer from its head, and nothing else does. The loop comes
        to an end or to a wait; if it is neither cancelled nor killed, the buffer is empty then. */
    method SendLoop(replies: seq<Reply>, ghost cfg: Config, ghost s: State)
      returns (ending: Ending, used: nat, ghost moves: seq<Move>, ghost t: State)
      requires Mirrors(cfg, s) && s.sender.CheckCtx? && s.backoff == 0
      modifies this`batchesSent, this`batchesFailed, this`throttleUntilNs, this`throttleSkipNext, buf, buf.slots
      ensures Mirrors(cfg, t) && Exec(cfg, s, moves) == Some(t) && BySender(moves)
      ensures t.sender == ending.Pc() && t.flags == s.flags && t.collector == s.collector
      ensures ending.StillBlocked? ==> !t.q.notify && !s.flags.sendCancelled && !s.flags.shutdownClosed
      ensures !ending.Fatal? && !s.flags.sendCancelled ==> t.q.items == []
      ensures t.Delivered() + t.q.items == s.Delivered() + s.q.items
      ensures Answered(s.seen.log, t.seen.log, replies, used, ending.Fatal?)
      ensures Gate() == Throttle.Play(old(Gate()), EngagementsOf(replies[..used])).0
    {
      var end: Option<Ending>, backoff := None, 0;
      used := 0;
      moves, t := Start(cfg, s);
      while end.None?
        invariant Mirrors(cfg, t) && buf.slots == old(buf.slots)
        invariant Exec(cfg, s, moves) == Some(t) && BySender(moves)
        invariant t.sender == if end.None? then CheckCtx else end.value.Pc()
        invariant end.None? ==> t.backoff == backoff && 0 <= backoff <= MAX_SEND_BACKOFF
        invariant end == Some(StillBlocked) ==> !t.q.notify && !s.flags.sendCancelled && !s.flags.shutdownClosed
        invariant end == Some(Nil) || end == Some(StillBlocked) ==> s.flags.sendCancelled || t.q.items == []
        invariant t.flags == s.flags && t.collector == s.collector
        invariant Answered(s.seen.log, t.seen.log, replies, used, end == Some(Fatal))
        invariant Gate() == Throttle.Play(old(Gate()), EngagementsOf(replies[..used])).0
        invariant t.Delivered() + t.q.items == s.Delivered() + s.q.items
        decreases end.None?, |replies| - used, |t.q.items|, t.q.notify
      {
        ghost var log, items := t.seen.log, t.q.items;
        var reply := if used < |replies| then replies[used] else Reply(Accepted(0), 0);
        var sent;
        end, sent, backoff, moves, t := SendRound(reply, backoff, cfg, s, moves, t);
        if sent {
          AnswersGrow(old(Gate()), s.seen.log, log, items, reply, replies, used);
          used := Min(used + 1, |replies|);
        }
      }
      ending := end.value;
    }
  }

  lemma OneMoreTick(g: Throttle.Gate, ticks: seq<TickEvent>, i: nat)
    requires i < |ticks|
    ensures var (h, verdicts) := Throttle.Play(g, TicksOf(ticks[..i]));
            var (next, skip) := Throttle.Tick(h, ticks[i].now);
            Throttle.Play(g, TicksOf(ticks[..i + 1])) == (next, verdicts + [skip])
  {
    assert Init(ticks[..i + 1]) == ticks[..i];
    Throttle.PlayOneMore(g, TicksOf(ticks[..i]), Throttle.Ticked(ticks[i].now));
  }

  /** Since `before` the log grew by the answers, in their order; only the last may be fatal. */
  ghost predicate Answered(before: seq<Attempt>, log: seq<Attempt>, replies: seq<Reply>, used: nat, fatal: bool) {
    && before <= log && used <= |replies|
    && used == Min(|log| - |before|, |replies|)
    && (forall k :: 0 <= k < used ==> log[|before| + k].outcome == replies[k].outcome)
    && (forall k :: |before| + |replies| <= k < |log| ==> log[k].outcome == Accepted(0))
    && (fatal <==> used > 0 && replies[used - 1].outcome.Fatal())
    && (forall k :: 0 <= k < used - 1 ==> !replies[k].outcome.Fatal())
  }

  lemma AnswersGrow(g: Throttle.Gate, before: seq<Attempt>, log: seq<Attempt>, items: seq<nat>, reply: Reply,
                    replies: seq<Reply>, used: nat)
    requires Answered(before, log, replies, used, false) && items != []
    requires reply == if used < |replies| then replies[used] else Reply(Accepted(0), 0)
    ensures var a := Attempt(items[0], reply.outcome);
            && Answered(before, log + [a], replies, Min(used + 1, |replies|), reply.outcome.Fatal())
            && DeliveredBy(log + [a]) + (if reply.outcome.Accepted? then items[1..] else items)
               == DeliveredBy(log) + items
    ensures Throttle.Play(g, EngagementsOf(replies[..Min(used + 1, |replies|)])).0 ==
            var h := Throttle.Play(g, EngagementsOf(replies[..used])).0;
            if reply.outcome.Accepted? && reply.outcome.droppedQuota > 0 then Throttle.Engage(h, reply.now) else h
  {
    HeadIsDelivered(log, items, reply.outcome);
    if used < |replies| { OneMoreReply(g, replies, used); }
  }

  /** Delivered or still buffered: what an accepted head leaves behind is the same in total. */
  lemma HeadIsDelivered(log: seq<Attempt>, items: seq<nat>, outcome: Outcome)
    requires items != []
    ensures DeliveredBy(log + [Attempt(items[0], outcome)]) + (if outcome.Accepted? then items[1..] else items)
         == DeliveredBy(log) + items
  {
    Snoc(log, Attempt(items[0], outcome));
    HeadMoves(DeliveredBy(log), items);
  }

  lemma HeadMoves(delivered: seq<nat>, items: seq<nat>)
    requires items != []
    ensures delivered + [items[0]] + items[1..] == delivered + items
    ensures delivered + [] == delivered
  {
  }

  /** What one answer adds to the counters. */
  function Counted(c: Counters, outcome: Outcome): Counters {
    match outcome
    case Accepted(_) => c.(batchesSent := c.batchesSent + 1)
    case Refused(err) => if err.wrapsFatal then c else c.(batchesFailed := c.batchesFailed + 1)
  }

  /** Which of the ticks with a verdict bring a batch. */
  ghost function Scraped(ticks: seq<TickEvent>, verdicts: seq<bool>): set<int> {
    set i | 0 <= i < |ticks| && i < |verdicts| && !verdicts[i] && ticks[i].samples > 0
  }

  lemma OneMoreScrape(ticks: seq<TickEvent>, verdicts: seq<bool>, skip: bool)
    requires |verdicts| < |ticks|
    ensures |Scraped(ticks, verdicts + [skip])|
         == |Scraped(ticks, verdicts)| + if skip || ticks[|verdicts|].samples == 0 then 0 else 1
  {
    var i := |verdicts|;
    assert Scraped(ticks, verdicts + [skip])
        == Scraped(ticks, verdicts) + if skip || ticks[i].samples == 0 then {} else {i};
  }

  lemma OneMoreReply(g: Throttle.Gate, replies: seq<Reply>, used: nat)
    requires used < |replies|
    ensures var h := Throttle.Play(g, EngagementsOf(replies[..used])).0;
            var r := replies[used];
            Throttle.Play(g, EngagementsOf(replies[..used + 1])).0 ==
            if r.outcome.Accepted? && r.outcome.droppedQuota > 0 then Throttle.Engage(h, r.now) else h
  {
    var before := EngagementsOf(replies[..used]);
    assert Init(replies[..used + 1]) == replies[..used];
    assert before + [] == before;
    Throttle.PlayOneMore(g, before, Throttle.Engaged(replies[used].now));
  }

  lemma Start(cfg: Config, s: State) returns (moves: seq<Move>, t: State)
    requires cfg.Valid()
    ensures t == s && moves == [] && Exec(cfg, s, moves) == Some(t)
  {
    moves, t := [], s;
  }

  /** One more move of the schedule. */
  lemma Then(cfg: Config, s: State, moves: seq<Move>, u: State, m: Move) returns (longer: seq<Move>, t: State)
    requires cfg.Valid() && Exec(cfg, s, moves) == Some(u) && Step(cfg, u, m).Some?
    ensures Some(t) == Step(cfg, u, m) == Exec(cfg, s, longer)
    ensures longer == moves + [m]
  {
    PipelineSafety.ExecSnoc(cfg, s, moves, u, m);
    longer, t := moves + [m], Step(cfg, u, m).value;
  }

  lemma SenderTakes(cfg: Config, s: State, moves: seq<Move>, u: State, m: SenderMove)
    returns (longer: seq<Move>, t: State)
    requires cfg.Valid() && Exec(cfg, s, moves) == Some(u) && SenderStep(u, m).Some? && BySender(moves)
    ensures Some(t) == SenderStep(u, m) == Exec(cfg, s, longer)
    ensures BySender(longer)
  {
    longer, t := Then(cfg, s, moves, u, Sender(m));
  }

  /** Pop, and the counter. */
  lemma SenderPopsAndCounts(cfg: Config, s: State, moves: seq<Move>, u: State)
    returns (longer: seq<Move>, t: State)
    requires cfg.Valid() && Exec(cfg, s, moves) == Some(u) && BySender(moves)
    requires u.sender.Popping? && u.q.items != []
    ensures Exec(cfg, s, longer) == Some(t) && BySender(longer)
    ensures t == u.(sender := CheckCtx, q := u.q.(items := u.q.items[1..]),
                    count := u.count.(batchesSent := u.count.batchesSent + 1), backoff := 0)
  {
    longer, t := SenderTakes(cfg, s, moves, u, Advance);
    longer, t := SenderTakes(cfg, s, longer, t, Advance);
  }

  lemma CollectorTakes(cfg: Config, s: State, moves: seq<Move>, u: State, m: CollectorMove)
    returns (longer: seq<Move>, t: State)
    requires cfg.Valid() && Exec(cfg, s, moves) == Some(u) && CollectorStep(cfg, u, m).Some?
    ensures Some(t) == CollectorStep(cfg, u, m) == Exec(cfg, s, longer)
    ensures longer == moves + [Collector(m)]
  {
    longer, t := Then(cfg, s, moves, u, Collector(m));
  }

  /** A scrape with samples, and its Push. */
  lemma CollectorPushes(cfg: Config, s: State, moves: seq<Move>, u: State, samples: nat)
    returns (longer: seq<Move>, t: State)
    requires cfg.Valid() && Exec(cfg, s, moves) == Some(u) && u.collector.Scraping? && samples > 0
    ensures Exec(cfg, s, longer) == Some(t) && longer == moves + ScrapeMoves(samples)
    ensures t == u.(collector := Ticking, q := u.q.Push(cfg.capacity).(notify := true),
                    count := u.count.(scrapesOK := u.count.scrapesOK + 1))
  {
    longer, t := CollectorTakes(cfg, s, moves, u, ScrapeDone(samples));
    longer, t := CollectorTakes(cfg, s, longer, t, Append);
    longer, t := CollectorTakes(cfg, s, longer, t, Signal);
  }
}
