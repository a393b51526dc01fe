/**
 The retry delays of the send loop (internal/scheduler/scheduler.go). Durations are nanoseconds.
 A failure is `None` for a plain error and `Some(delay)` for a 429 that carries a delay.
 */
module Backoff {
  import opened Wrappers
  import Int64

  const SECOND := 1_000_000_000
  const MIN_SEND_BACKOFF := SECOND
  const MAX_SEND_BACKOFF := 300 * SECOND

  function Min(a: int, b: int): int {
    if a < b then a else b
  }

  function NextBackoff(prev: int): int {
    if prev <= 0 then MIN_SEND_BACKOFF
    else
      var next := Int64.Wrap(prev * 2);
      if next > MAX_SEND_BACKOFF then MAX_SEND_BACKOFF
      else if next < MIN_SEND_BACKOFF then MIN_SEND_BACKOFF
      else next
  }

  /** The value of `backoff` after one more failed Send. */
  function AfterFailure(prev: int, failure: Option<int>): int {
    var next := NextBackoff(prev);
    match failure
    case None => next
    case Some(delay) => Min(if delay > next then delay else next, MAX_SEND_BACKOFF)
  }

  /** The value of `backoff` after an unbroken streak of failures. */
  function BackoffAfter(failures: seq<Option<int>>): int {
    if failures == [] then 0
    else AfterFailure(BackoffAfter(failures[..|failures| - 1]), failures[|failures| - 1])
  }

  function Pow2(n: nat): (p: nat)
    ensures p >= 1
  {
    if n == 0 then 1 else 2 * Pow2(n - 1)
  }

  /** What the i-th failure of a streak asks for at the end of it: its delay, doubled at every
      later failure. Every streak also asks for one second, doubled at every failure but the first. */
  function Demand(failures: seq<Option<int>>, i: nat): int
    requires i < |failures|
  {
    var exponential := if i == 0 then MIN_SEND_BACKOFF else 0;
    var delay := match failures[i] case None => exponential
                                   case Some(d) => if d > exponential then d else exponential;
    delay * Pow2(|failures| - 1 - i)
  }

  lemma DemandDoubles(failures: seq<Option<int>>, i: nat)
    requires i < |failures| - 1
    ensures Demand(failures, i) == 2 * Demand(failures[..|failures| - 1], i)
  {
    var p := Pow2(|failures| - 2 - i);
    assert Pow2(|failures| - 1 - i) == 2 * p;
    assert failures[..|failures| - 1][i] == failures[i];
  }

  /** b is the largest demand of the streak, cut at five minutes. */
  ghost predicate IsLargestDemand(failures: seq<Option<int>>, b: int) {
    && (forall i :: 0 <= i < |failures| ==> Min(Demand(failures, i), MAX_SEND_BACKOFF) <= b)
    && (exists i :: 0 <= i < |failures| && Min(Demand(failures, i), MAX_SEND_BACKOFF) == b)
  }

  lemma FirstDemand(failures: seq<Option<int>>)
    requires |failures| == 1
    ensures IsLargestDemand(failures, AfterFailure(0, failures[0]))
    ensures MIN_SEND_BACKOFF <= AfterFailure(0, failures[0]) <= MAX_SEND_BACKOFF
  {
    assert Pow2(0) == 1;
    assert Min(Demand(failures, 0), MAX_SEND_BACKOFF) == AfterFailure(0, failures[0]);
  }

  lemma NextDemand(failures: seq<Option<int>>, prev: int)
    requires |failures| > 1 && MIN_SEND_BACKOFF <= prev <= MAX_SEND_BACKOFF
    requires IsLargestDemand(failures[..|failures| - 1], prev)
    ensures IsLargestDemand(failures, AfterFailure(prev, failures[|failures| - 1]))
  {
    var n := |failures| - 1;
    var init, b := failures[..n], AfterFailure(prev, failures[n]);
    assert Pow2(0) == 1;
    assert Demand(failures, n) == match failures[n] case None => 0 case Some(d) => if d > 0 then d else 0;
    Doubling(prev, failures[n]);
    forall i | 0 <= i < |failures|
      ensures Min(Demand(failures, i), MAX_SEND_BACKOFF) <= b
    {
      if i < n { DemandDoubles(failures, i); }
    }
    var j :| 0 <= j < |init| && Min(Demand(init, j), MAX_SEND_BACKOFF) == prev;
    DemandDoubles(failures, j);
    assert Min(Demand(failures, j), MAX_SEND_BACKOFF) == b || Min(Demand(failures, n), MAX_SEND_BACKOFF) == b;
  }

  /** In range, nothing wraps around. */
  lemma Doubling(prev: int, failure: Option<int>)
    requires MIN_SEND_BACKOFF <= prev <= MAX_SEND_BACKOFF
    ensures NextBackoff(prev) == Min(2 * prev, MAX_SEND_BACKOFF)
    ensures prev <= AfterFailure(prev, failure) <= MAX_SEND_BACKOFF
  {
    Int64.InRange(prev * 2);
  }

  /** Exactly: the back-off of a streak is its largest demand, cut at five minutes. In particular
      it never overflows, stays in [1s, 300s], and never falls during the streak. */
  lemma {:induction false} BackoffIsLargestDemand(failures: seq<Option<int>>)
    requires failures != []
    ensures MIN_SEND_BACKOFF <= BackoffAfter(failures) <= MAX_SEND_BACKOFF
    ensures IsLargestDemand(failures, BackoffAfter(failures))
    ensures BackoffAfter(failures[..|failures| - 1]) <= BackoffAfter(failures)
  {
    var init, last := failures[..|failures| - 1], failures[|failures| - 1];
    if init == [] {
      FirstDemand(failures);
    } else {
      BackoffIsLargestDemand(init);
      Doubling(BackoffAfter(init), last);
      NextDemand(failures, BackoffAfter(init));
    }
  }

  /** k plain failures in a row: exactly min(2^(k-1), 300) seconds. */
  lemma {:induction false} PlainStreak(k: nat)
    requires 1 <= k
    ensures BackoffAfter(seq(k, _ => None)) == Min(Pow2(k - 1) * 1_000_000_000, 300_000_000_000)
  {
    var failures: seq<Option<int>> := seq(k, _ => None);
    assert failures[..k - 1] == seq(k - 1, _ => None);
    if k > 1 {
      PlainStreak(k - 1);
      Doubling(Min(Pow2(k - 2) * 1_000_000_000, 300_000_000_000), None);
    }
  }

  lemma {:induction false} Pow2Grows(n: nat)
    requires n >= 9
    ensures Pow2(n) >= 512
  {
    if n > 9 {
      Pow2Grows(n - 1);
    } else {
      assert Pow2(3) == 8 && Pow2(6) == 64;
    }
  }

  /** In figures: 1s after the first failure, 2s after the second, and 300s from the tenth on. */
  lemma PlainStreakInFigures(k: nat)
    requires 1 <= k
    ensures k == 1 ==> BackoffAfter(seq(k, _ => None)) == 1_000_000_000
    ensures k == 2 ==> BackoffAfter(seq(k, _ => None)) == 2_000_000_000
    ensures k >= 10 ==> BackoffAfter(seq(k, _ => None)) == 300_000_000_000
  {
    PlainStreak(k);
    assert Pow2(0) == 1 && Pow2(1) == 2;
    if k >= 10 { Pow2Grows(k - 1); }
  }

  // ---------- sleepWithJitter ----------

  /** The exclusive upper bound handed to rand.Int64N, which panics unless it is positive. */
  function DrawBound(base: int, fullJitter: bool): int {
    if fullJitter then Int64.Wrap(base + 1) else Int64.Wrap(base / 2 + 1)
  }

  function Sleep(base: int, fullJitter: bool, draw: int): int {
    if base <= 0 then 0
    else if fullJitter then draw
    else Int64.Wrap(base / 2 + draw)
  }

  ghost predicate CanSleep(base: int, fullJitter: bool, t: int) {
    exists draw :: 0 <= draw < DrawBound(base, fullJitter) && Sleep(base, fullJitter, draw) == t
  }

  /** After any streak the draw is legal, and the possible sleeps are exactly [0, b] after a plain
      failure and [floor(b/2), 2*floor(b/2)] after a 429. */
  lemma SleepRange(failures: seq<Option<int>>, fullJitter: bool)
    requires failures != []
    ensures var b := BackoffAfter(failures);
            && DrawBound(b, fullJitter) > 0
            && forall t :: CanSleep(b, fullJitter, t) <==>
                 if fullJitter then 0 <= t <= b else b / 2 <= t <= 2 * (b / 2)
  {
    BackoffIsLargestDemand(failures);
    SleepRangeOf(BackoffAfter(failures), fullJitter);
  }

  lemma SleepRangeOf(b: int, fullJitter: bool)
    requires MIN_SEND_BACKOFF <= b <= MAX_SEND_BACKOFF
    ensures DrawBound(b, fullJitter) > 0
    ensures forall t :: CanSleep(b, fullJitter, t) <==> if fullJitter then 0 <= t <= b else b / 2 <= t <= 2 * (b / 2)
  {
    SleepIff(b, fullJitter, 0);
    forall t
      ensures CanSleep(b, fullJitter, t) <==> if fullJitter then 0 <= t <= b else b / 2 <= t <= 2 * (b / 2)
    {
      SleepIff(b, fullJitter, t);
    }
  }

  lemma SleepIff(b: int, fullJitter: bool, t: int)
    requires MIN_SEND_BACKOFF <= b <= MAX_SEND_BACKOFF
    ensures DrawBound(b, fullJitter) > 0
    ensures CanSleep(b, fullJitter, t) <==> if fullJitter then 0 <= t <= b else b / 2 <= t <= 2 * (b / 2)
  {
    var offset := if fullJitter then 0 else b / 2;
    assert DrawBound(b, fullJitter) == if fullJitter then b + 1 else b / 2 + 1;
    forall draw | 0 <= draw < DrawBound(b, fullJitter)
      ensures Sleep(b, fullJitter, draw) == offset + draw
    {
      Int64.InRange(offset + draw);
    }
    if offset <= t < offset + DrawBound(b, fullJitter) {
      assert Sleep(b, fullJitter, t - offset) == t;
    }
  }

  /** What is guaranteed after a 429: half of its delay, counted up to five minutes. */
  lemma HalfOfTheDelay(failures: seq<Option<int>>, delay: int, t: int)
    requires failures != [] && failures[|failures| - 1] == Some(delay)
    requires CanSleep(BackoffAfter(failures), false, t)
    ensures t >= Min(delay, MAX_SEND_BACKOFF) / 2
  {
    BackoffIsLargestDemand(failures);
    SleepRange(failures, false);
  }

  /** The server's delay is a guaranteed floor of the wait exactly when the exponential back-off
      already is at least twice as long; the comment on RetryAfterError promises it always. */
  lemma RetryAfterIsFloor(before: seq<Option<int>>, delay: int)
    requires delay > 0
    ensures (forall t :: CanSleep(BackoffAfter(before + [Some(delay)]), false, t) ==> t >= delay)
              <==> 2 * delay <= NextBackoff(BackoffAfter(before))
  {
    var failures := before + [Some(delay)];
    assert failures[..|failures| - 1] == before;
    var b := BackoffAfter(failures);
    SleepRange(failures, false);
    assert CanSleep(b, false, b / 2);
    if before != [] { BackoffIsLargestDemand(before); }
  }

  /** A 429 that asks for ten minutes may be retried after two and a half. */
  lemma RetryAfterIsNotFloor()
    ensures CanSleep(BackoffAfter([Some(600 * SECOND)]), false, 150 * SECOND)
  {
    assert BackoffAfter([Some(600 * SECOND)][..0]) == 0;
    SleepRange([Some(600 * SECOND)], false);
  }
}
