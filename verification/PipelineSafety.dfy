/** What holds in every reachable state of the pipeline. */
module PipelineSafety {
  import opened Wrappers
  import opened Sinks
  import opened Backoff
  import opened Pipeline
  import opened PipelineInvariants

  // ---------- conservation ----------

  /** Pushed, but neither waiting nor delivered. */
  ghost function Missing(s: State): set<nat> {
    set i: nat | i < s.q.pushed && i !in s.q.items && i !in s.Delivered()
  }

  /** The overflow counter is exact in every state, except between a nil Send whose batch was
      evicted during the Send and the Pop after it: there it is one too high. Nothing is delivered
      twice or out of order. */
  lemma EveryBatchIsAccountedFor(cfg: Config, s: State)
    requires cfg.Valid() && Reachable(cfg, s)
    ensures Increasing(s.Delivered())
    ensures |Missing(s)| == s.q.dropped - (if s.sender.Popping? && s.sender.batch < s.q.Head() then 1 else 0)
  {
    ReachableInv(cfg, s);
    var delivered, head := s.Delivered(), s.q.Head();
    var gone := if s.sender.Popping? && s.sender.batch >= head then Init(delivered) else delivered;
    forall i: nat
      ensures i in s.q.items <==> head <= i < s.q.pushed
    {
      if head <= i < s.q.pushed { assert s.q.items[i - head] == i; }
    }
    forall i: nat | i < head
      ensures i in gone <==> i in delivered
    {
      if i in delivered && gone != delivered { assert i in Init(delivered) + [Last(delivered)]; }
    }
    assert Missing(s) == Gaps(gone, head);
    CountGaps(gone, head);
  }

  ghost function Gaps(s: seq<nat>, n: nat): set<nat> {
    set i: nat | i < n && i !in s
  }

  lemma {:induction false} CountGaps(s: seq<nat>, n: nat)
    requires Increasing(s) && forall k :: 0 <= k < |s| ==> s[k] < n
    ensures |Gaps(s, n)| == n - |s|
  {
    if n == 0 {
      assert Gaps(s, n) == {};
    } else if s != [] && Last(s) == n - 1 {
      assert s == Init(s) + [n - 1];
      assert Gaps(s, n) == Gaps(Init(s), n - 1);
      CountGaps(Init(s), n - 1);
    } else {
      forall k | 0 <= k < |s|
        ensures s[k] < n - 1
      {
        assert k == |s| - 1 || s[k] < Last(s);
      }
      assert Gaps(s, n) == Gaps(s, n - 1) + {n - 1};
      CountGaps(s, n - 1);
    }
  }

  /** On every exit path of Run the counters add up, to each other and to what an observer has seen.
      After drain.complete the buffer is empty if and only if no Send was fatal. */
  lemma CountersAddUpAtExit(cfg: Config, s: State)
    requires cfg.Valid() && Reachable(cfg, s)
    requires s.run.Returned?
    ensures s.count.scrapesOK == s.count.batchesSent + s.q.dropped + |s.q.items|
    ensures s.count.scrapesOK == s.q.pushed && s.count.batchesSent == |s.Delivered()|
    ensures s.count.batchesFailed == Retries(s.seen.log)
    ensures s.run.drained ==> (s.q.items == [] <==> !HasFatal(s.seen.log))
  {
    ReachableInv(cfg, s);
  }

  // ---------- eviction under a Send ----------

  /** The batch that Pop removes is the one that was sent exactly when the overflow counter has not
      moved since the Peek. */
  lemma PopRemovesTheSentBatch(cfg: Config, s: State)
    requires cfg.Valid() && Reachable(cfg, s)
    requires s.sender.Popping?
    ensures s.q.items != []
    ensures s.q.items[0] == s.sender.batch <==> s.q.dropped == s.seen.droppedAtPeek
  {
    ReachableInv(cfg, s);
  }

  /** Is the newest batch waiting or delivered? */
  ghost predicate NewestIsSafe(s: State) {
    s.q.pushed > 0 ==> s.q.pushed - 1 in s.q.items || s.q.pushed - 1 in s.Delivered()
  }

  /** The freshest data always wins, whatever is evicted during a Send, if and only if the buffer
      has room for two batches. */
  lemma NewestAlwaysSafeIff(cfg: Config)
    requires cfg.Valid()
    ensures (forall s :: Reachable(cfg, s) ==> NewestIsSafe(s)) <==> cfg.capacity >= 2
  {
    if cfg.capacity >= 2 {
      forall s | Reachable(cfg, s)
        ensures NewestIsSafe(s)
      {
        ReachableInv(cfg, s);
        if s.q.items != [] { assert Last(s.q.items) == s.q.pushed - 1; }
      }
    } else {
      assert cfg.capacity == 1;
      var s := EvictedInFlight(cfg);
      assert Reachable(cfg, s) && !NewestIsSafe(s);
    }
  }

  /** Push 0, peek it, send it. */
  lemma FirstInFlight(cfg: Config) returns (s: State)
    requires cfg.Valid()
    ensures Reachable(cfg, s)
    ensures s == Initial().(collector := Ticking, sender := InFlight(0), q := Queue([0], 0, true, 1),
                            count := Counters(1, 0, 0), seen := s.seen)
    ensures s.seen.log == []
  {
    s := Initial();
    assert Exec(cfg, s, []) == Some(s);
    s := After(cfg, s, Collector(ScrapeDone(1)));
    s := After(cfg, s, Collector(Append));
    s := After(cfg, s, Collector(Signal));
    s := After(cfg, s, Sender(Advance));
    s := After(cfg, s, Sender(Advance));
    s := After(cfg, s, Sender(Advance));
  }

  /** While 0 is in flight, push 1, which evicts it. */
  lemma SecondEvictsFirst(cfg: Config) returns (s: State)
    requires cfg.capacity == 1
    ensures Reachable(cfg, s)
    ensures s == Initial().(collector := Ticking, sender := InFlight(0), q := Queue([1], 1, true, 2),
                            count := Counters(2, 0, 0), seen := s.seen)
    ensures s.seen.log == []
  {
    s := FirstInFlight(cfg);
    s := After(cfg, s, Collector(Tick(false)));
    s := After(cfg, s, Collector(ScrapeDone(1)));
    s := After(cfg, s, Collector(Append));
    s := After(cfg, s, Collector(Signal));
  }

  /** With capacity one the newest batch can be lost unsent: 1 evicts 0, whose Send succeeds; Pop
      removes 1. */
  lemma EvictedInFlight(cfg: Config) returns (s: State)
    requires cfg.capacity == 1
    ensures Reachable(cfg, s)
    ensures s.q.pushed == 2 && s.q.items == [] && s.Delivered() == [0] && s.q.dropped == 1
  {
    s := SecondEvictsFirst(cfg);
    s := After(cfg, s, Sender(Answer(Accepted(0))));
    FirstDelivered(s);
    s := After(cfg, s, Sender(Advance));
  }

  lemma FirstDelivered(s: State)
    requires s.seen.log == [] + [Attempt(0, Accepted(0))]
    ensures s.Delivered() == [0]
  {
    Snoc([], Attempt(0, Accepted(0)));
    assert DeliveredBy([]) == [];
  }

  lemma After(cfg: Config, s: State, m: Move) returns (t: State)
    requires cfg.Valid() && Reachable(cfg, s) && Step(cfg, s, m).Some?
    ensures t == Step(cfg, s, m).value && Reachable(cfg, t)
  {
    t := Step(cfg, s, m).value;
    var moves :| Exec(cfg, Initial(), moves) == Some(s);
    ExecSnoc(cfg, Initial(), moves, s, m);
    assert Exec(cfg, Initial(), moves + [m]) == Some(t);
  }

  lemma {:induction false} ExecSnoc(cfg: Config, s: State, moves: seq<Move>, t: State, m: Move)
    requires cfg.Valid() && Exec(cfg, s, moves) == Some(t)
    ensures Exec(cfg, s, moves + [m]) == Step(cfg, t, m)
    decreases |moves|
  {
    if moves == [] {
      var last := Step(cfg, s, m);
      assert last.Some? ==> Exec(cfg, last.value, []) == last;
    } else {
      ExecSnoc(cfg, Step(cfg, s, moves[0]).value, moves[1..], t, m);
      assert (moves + [m])[1..] == moves[1..] + [m];
    }
  }

  // ---------- wakeups and shutdown ----------

  /** A sender blocked on a non-empty buffer has a token, or the collector is about to leave one;
      after shutdown it can always go on. */
  lemma NoWakeupIsLost(cfg: Config, s: State)
    requires cfg.Valid() && Reachable(cfg, s)
    requires s.sender.Blocked?
    ensures s.q.items != [] ==>
              || Step(cfg, s, Sender(OnNotify)).Some?
              || (s.collector.Signalling? && Step(cfg, Step(cfg, s, Collector(Signal)).value, Sender(OnNotify)).Some?)
    ensures s.flags.shutdownClosed ==> Step(cfg, s, Sender(OnShutdown)).Some?
    ensures s.flags.sendCancelled ==> Step(cfg, s, Sender(OnCancel)).Some?
  {
    ReachableInv(cfg, s);
  }

  /** A move of the agent itself: no signal, no timer of the drain. */
  ghost predicate CanMove(cfg: Config, s: State)
    requires cfg.Valid()
  {
    exists m :: m != Sigterm && m != Run(Deadline) && Step(cfg, s, m).Some? && Step(cfg, s, m) != Some(s)
  }

  function CollectorMoveOf(s: State): Move {
    match s.collector
    case Scraping => Collector(ScrapeDone(0))
    case Appending => Collector(Append)
    case Signalling => Collector(Signal)
    case _ => Collector(Stop)
  }

  function SenderMoveOf(s: State): Move {
    match s.sender
    case Blocked => Sender(if s.flags.sendCancelled then OnCancel else OnShutdown)
    case InFlight(_) => Sender(Answer(Accepted(0)))
    case _ => Sender(Advance)
  }

  /** Once shutdown has begun, no state before Run's return is a deadlock. */
  lemma ShutdownNeverSticks(cfg: Config, s: State)
    requires cfg.Valid() && Reachable(cfg, s)
    requires s.flags.collectCancelled && !s.run.Returned?
    ensures CanMove(cfg, s)
  {
    ReachableInv(cfg, s);
    var m := match s.run
      case JoinCollector => if s.collector.Stopped? then Run(Proceed) else CollectorMoveOf(s)
      case Draining => if s.flags.doneClosed then Run(Proceed) else if s.sender.Done? then Bridge else SenderMoveOf(s)
      case AwaitDone => if s.flags.doneClosed then Run(Proceed) else if s.sender.Done? then Bridge else SenderMoveOf(s)
      case JoinSender => if s.sender.Done? then Run(Proceed) else SenderMoveOf(s)
      case _ => Run(Proceed);
    assert Step(cfg, s, m).Some? && Step(cfg, s, m) != Some(s);
  }

  /** Run returns an error if and only if some Send returned a fatal one; both loops have ended. */
  lemma RunReportsFatal(cfg: Config, s: State)
    requires cfg.Valid() && Reachable(cfg, s)
    requires s.run.Returned?
    ensures s.run.fatal <==>
              exists a :: a in s.seen.log && a.outcome.Refused? && a.outcome.err.wrapsFatal
    ensures s.collector.Stopped? && s.sender.Done?
  {
    ReachableInv(cfg, s);
    if HasFatal(s.seen.log) {
      var k :| 0 <= k < |s.seen.log| && s.seen.log[k].outcome.Fatal();
      assert s.seen.log[k] in s.seen.log;
    }
    if a :| a in s.seen.log && a.outcome.Fatal() {
      var k :| 0 <= k < |s.seen.log| && s.seen.log[k] == a;
      assert s.seen.log[k].outcome.Fatal();
    }
  }

  // ---------- the trace of answers ----------

  /** Without overflow the answers split, batch by batch in push order, into refusals and one
      acceptance. */
  lemma AnswersComeInBlocks(cfg: Config, s: State)
    requires cfg.Valid() && Reachable(cfg, s)
    requires s.q.dropped == 0
    ensures InBlocks(s.seen.log, 0)
  {
    ReachableInv(cfg, s);
  }

  /** How long the sender may sleep after its last answer: the kind of jitter depends on whether that
      one was a 429. */
  ghost predicate MaySleep(s: State, t: int) {
    && s.seen.log != []
    && Last(s.seen.log).outcome.Refused?
    && CanSleep(s.backoff, Last(s.seen.log).outcome.err.retryAfter.None?, t)
  }

  /** A sleeping sender sleeps by the failures since its last success, and by nothing else. */
  lemma SleepFollowsTheStreak(cfg: Config, s: State)
    requires cfg.Valid() && Reachable(cfg, s)
    requires s.sender.Sleeping?
    ensures Streak(s.seen.log) != [] && s.backoff == BackoffAfter(Streak(s.seen.log))
    ensures MIN_SEND_BACKOFF <= s.backoff <= MAX_SEND_BACKOFF
    ensures forall t :: MaySleep(s, t) <==>
              if Last(Streak(s.seen.log)).None? then 0 <= t <= s.backoff else s.backoff / 2 <= t <= 2 * (s.backoff / 2)
  {
    ReachableInv(cfg, s);
    BackoffIsLargestDemand(Streak(s.seen.log));
    assert Last(Streak(s.seen.log)) == Last(s.seen.log).outcome.err.retryAfter;
    SleepRange(Streak(s.seen.log), Last(Streak(s.seen.log)).None?);
  }
}
