/** What every step of the pipeline keeps. */
module PipelineInvariants {
  import opened Wrappers
  import opened Sinks
  import opened Backoff
  import opened Pipeline
  import BatchBuffer

  ghost predicate Increasing(s: seq<nat>) {
    forall i, j :: 0 <= i < j < |s| ==> s[i] < s[j]
  }

  /** The buffer is the newest stretch of what was pushed. */
  ghost predicate Suffix(cfg: Config, q: Queue) {
    && |q.items| <= cfg.capacity
    && |q.items| <= q.pushed
    && forall k :: 0 <= k < |q.items| ==> q.items[k] == q.Head() + k
  }

  /** Where every pushed batch went, with the corrections for the steps half done. */
  ghost predicate Accounting(cfg: Config, s: State) {
    Tally(cfg, s, |s.Delivered()|, Retries(s.seen.log))
  }

  ghost predicate Tally(cfg: Config, s: State, delivered: nat, retries: nat) {
    && Suffix(cfg, s.q)
    && s.q.Head() + (if s.sender.Popping? then 1 else 0) == s.q.dropped + delivered
    && delivered == s.count.batchesSent + (if s.sender.Popping? || s.sender.Counting? then 1 else 0)
    && s.count.scrapesOK == s.q.pushed + (if s.collector.Appending? then 1 else 0)
    && retries == s.count.batchesFailed + (if s.sender.Failing? then 1 else 0)
  }

  /** The batch in the sender's hands may have been evicted, but then the buffer is full. */
  ghost predicate Held(cfg: Config, s: State) {
    s.Holding() ==>
      && s.q.items != []
      && s.seen.droppedAtPeek <= s.q.dropped
      && s.q.Head() == s.sender.batch + (s.q.dropped - s.seen.droppedAtPeek)
      && (s.seen.droppedAtPeek < s.q.dropped ==> |s.q.items| == cfg.capacity)
  }

  ghost predicate DeliveryOrder(s: State) {
    InOrder(s, s.Delivered())
  }

  ghost predicate InOrder(s: State, delivered: seq<nat>) {
    && Increasing(delivered)
    && (s.sender.Popping? ==> delivered != [] && Last(delivered) == s.sender.batch)
    && (!s.sender.Popping? ==>
          forall k :: 0 <= k < |delivered| ==> delivered[k] < if s.Holding() then s.sender.batch else s.q.Head())
  }

  /** With room for two, an empty buffer has delivered the newest batch. */
  ghost predicate NewestKept(cfg: Config, s: State) {
    cfg.capacity >= 2 && s.q.items == [] && s.q.pushed > 0 ==> s.q.pushed - 1 in s.Delivered()
  }

  ghost predicate NoLostWakeup(s: State) {
    s.sender.Blocked? && s.q.items != [] ==> s.q.notify || s.collector.Signalling?
  }

  /** How far the three goroutines can be apart. */
  ghost predicate Control(cfg: Config, s: State) {
    && (s.collector.Stopped? ==> s.flags.collectCancelled)
    && (!s.run.AwaitShutdown? ==> s.flags.collectCancelled)
    && (!s.run.AwaitShutdown? && !s.run.JoinCollector? ==> s.collector.Stopped?)
    && (s.run.Draining? || s.run.Expired? || s.run.AwaitDone? ==> s.flags.shutdownClosed)
    && (s.run.Closing? ==> cfg.drain)
    && (s.flags.shutdownClosed ==> s.run.Draining? || s.run.Expired? || s.run.AwaitDone? || s.run.Returned?)
    && (s.run.Returned? && s.run.drained ==> s.flags.shutdownClosed)
    && (s.flags.shutdownClosed ==> cfg.drain && s.collector.Stopped?)
    && (s.flags.doneClosed ==> s.flags.shutdownClosed && s.sender.Done?)
    && (s.run.AwaitDone? || s.run.JoinSender? ==> s.flags.sendCancelled)
    && (s.run.Returned? ==> s.sender.Done? && s.run.fatal == s.flags.fatalErr)
  }

  /** A fatal answer, its record and the two cancellations happen in this order. */
  ghost predicate FatalPath(s: State) {
    && (HasFatal(s.seen.log) <==> s.flags.fatalErr || s.sender.Recording?)
    && (s.sender.Recording? ==> !s.flags.fatalErr)
    && (s.flags.fatalErr ==> s.sender.CancellingCollect? || s.sender.CancellingSend? || s.sender.Done?)
    && (s.sender.CancellingCollect? || s.sender.CancellingSend? ==> s.flags.fatalErr)
    && (s.flags.fatalErr && !s.sender.CancellingCollect? ==> s.flags.collectCancelled)
    && (s.flags.fatalErr && s.sender.Done? ==> s.flags.sendCancelled)
  }

  /** A sender that ended on its own, neither cancelled nor killed, left nothing behind. */
  ghost predicate CleanExit(s: State) {
    && (s.flags.sendCancelled && !(s.flags.fatalErr && s.sender.Done?) ==>
          s.run.AwaitDone? || s.run.JoinSender? || (s.run.Returned? && !s.run.drained))
    && (s.sender.Rechecking? ==> s.flags.shutdownClosed)
    && (s.sender.Done? && !s.flags.sendCancelled ==> s.flags.shutdownClosed && s.q.items == [])
    && (s.run.Returned? && s.run.drained ==> s.run.fatal || s.q.items == [])
  }

  /** A fatal answer is about a buffered batch, and nothing is popped after it. */
  ghost predicate FatalLeavesBatch(s: State) {
    s.sender.Recording? || s.flags.fatalErr ==> s.q.items != []
  }

  ghost predicate LogShape(s: State) {
    s.q.dropped == 0 ==> InBlocks(s.seen.log, 0)
  }

  ghost predicate BackoffFollowsLog(s: State) {
    BackoffIs(s, Streak(s.seen.log))
  }

  ghost predicate BackoffIs(s: State, streak: seq<Option<int>>) {
    match s.sender
    case Failing(f) => streak != [] && Last(streak) == f && s.backoff == BackoffAfter(Init(streak))
    case Popping(_) => streak == []
    case Counting => streak == []
    case Sleeping => streak != [] && s.backoff == BackoffAfter(streak)
    case Recording => true
    case CancellingCollect => true
    case CancellingSend => true
    case Done => true
    case _ => s.backoff == BackoffAfter(streak)
  }

  ghost predicate Inv(cfg: Config, s: State) {
    && Accounting(cfg, s)
    && Held(cfg, s)
    && DeliveryOrder(s)
    && NewestKept(cfg, s)
    && NoLostWakeup(s)
    && Control(cfg, s)
    && FatalPath(s)
    && CleanExit(s)
    && FatalLeavesBatch(s)
    && LogShape(s)
    && BackoffFollowsLog(s)
  }

  predicate IsAnswer(m: Move) { m.Sender? && m.s.Answer? }

  /** Only an answer touches the log, and it appends one attempt. */
  lemma LogGrows(cfg: Config, s: State, m: Move, t: State)
    requires cfg.Valid() && Step(cfg, s, m) == Some(t)
    ensures if !IsAnswer(m) then t.seen.log == s.seen.log
            else
              var a := Attempt(s.sender.batch, m.s.outcome);
              && s.sender.InFlight?
              && t == AnswerStep(s, a.outcome)
              && t.seen.log == s.seen.log + [a]
              && t.Delivered() == s.Delivered() + (if a.outcome.Accepted? then [a.batch] else [])
              && Streak(t.seen.log) ==
                   (if a.outcome.Retriable() then Streak(s.seen.log) + [a.outcome.err.retryAfter] else [])
              && Retries(t.seen.log) == Retries(s.seen.log) + (if a.outcome.Retriable() then 1 else 0)
              && (HasFatal(t.seen.log) <==> HasFatal(s.seen.log) || a.outcome.Fatal())
  {
    if IsAnswer(m) { Snoc(s.seen.log, Attempt(s.sender.batch, m.s.outcome)); }
  }

  lemma SuffixKept(cfg: Config, q: Queue)
    requires cfg.Valid() && Suffix(cfg, q)
    ensures Suffix(cfg, q.Push(cfg.capacity))
    ensures Suffix(cfg, q.(items := BatchBuffer.Popped(q.items)))
  {
  }

  lemma TallyKept(cfg: Config, s: State, m: Move, t: State, delivered: nat, retries: nat)
    requires cfg.Valid() && Step(cfg, s, m) == Some(t)
    requires Tally(cfg, s, delivered, retries) && Held(cfg, s)
    ensures if IsAnswer(m)
            then Tally(cfg, t, if m.s.outcome.Accepted? then delivered + 1 else delivered,
                               if m.s.outcome.Retriable() then retries + 1 else retries)
            else Tally(cfg, t, delivered, retries)
  {
    SuffixKept(cfg, s.q);
  }

  lemma AccountingKept(cfg: Config, s: State, m: Move, t: State)
    requires cfg.Valid() && Step(cfg, s, m) == Some(t)
    requires Accounting(cfg, s) && Held(cfg, s)
    ensures Accounting(cfg, t)
  {
    LogGrows(cfg, s, m, t);
    TallyKept(cfg, s, m, t, |s.Delivered()|, Retries(s.seen.log));
  }

  lemma HeldKept(cfg: Config, s: State, m: Move, t: State)
    requires cfg.Valid() && Step(cfg, s, m) == Some(t)
    requires Accounting(cfg, s) && Held(cfg, s)
    ensures Held(cfg, t)
  {
  }

  lemma InOrderKept(cfg: Config, s: State, m: Move, t: State, delivered: seq<nat>)
    requires cfg.Valid() && Step(cfg, s, m) == Some(t)
    requires Suffix(cfg, s.q) && Held(cfg, s) && InOrder(s, delivered)
    ensures InOrder(t, if IsAnswer(m) && m.s.outcome.Accepted? then delivered + [s.sender.batch] else delivered)
  {
  }

  lemma DeliveryOrderKept(cfg: Config, s: State, m: Move, t: State)
    requires cfg.Valid() && Step(cfg, s, m) == Some(t)
    requires Accounting(cfg, s) && Held(cfg, s) && DeliveryOrder(s)
    ensures DeliveryOrder(t)
  {
    LogGrows(cfg, s, m, t);
    InOrderKept(cfg, s, m, t, s.Delivered());
  }

  lemma NewestKeptKept(cfg: Config, s: State, m: Move, t: State)
    requires cfg.Valid() && Step(cfg, s, m) == Some(t)
    requires Accounting(cfg, s) && Held(cfg, s) && DeliveryOrder(s) && NewestKept(cfg, s)
    ensures NewestKept(cfg, t)
  {
    LogGrows(cfg, s, m, t);
  }

  lemma NoLostWakeupKept(cfg: Config, s: State, m: Move, t: State)
    requires cfg.Valid() && Step(cfg, s, m) == Some(t)
    requires NoLostWakeup(s)
    ensures NoLostWakeup(t)
  {
  }

  lemma ControlKept(cfg: Config, s: State, m: Move, t: State)
    requires cfg.Valid() && Step(cfg, s, m) == Some(t)
    requires Control(cfg, s) && FatalPath(s)
    ensures Control(cfg, t)
  {
  }

  lemma FatalPathKept(cfg: Config, s: State, m: Move, t: State)
    requires cfg.Valid() && Step(cfg, s, m) == Some(t)
    requires FatalPath(s)
    ensures FatalPath(t)
  {
    LogGrows(cfg, s, m, t);
  }

  lemma CleanExitKept(cfg: Config, s: State, m: Move, t: State)
    requires cfg.Valid() && Step(cfg, s, m) == Some(t)
    requires Control(cfg, s) && FatalPath(s) && CleanExit(s)
    ensures CleanExit(t)
  {
  }

  lemma FatalLeavesBatchKept(cfg: Config, s: State, m: Move, t: State)
    requires cfg.Valid() && Step(cfg, s, m) == Some(t)
    requires Held(cfg, s) && FatalPath(s) && FatalLeavesBatch(s)
    ensures FatalLeavesBatch(t)
  {
  }

  lemma LogShapeKept(cfg: Config, s: State, m: Move, t: State)
    requires cfg.Valid() && Step(cfg, s, m) == Some(t)
    requires Accounting(cfg, s) && Held(cfg, s) && FatalPath(s) && LogShape(s)
    ensures LogShape(t)
  {
    if IsAnswer(m) && s.q.dropped == 0 {
      BlocksGrow(s.seen.log, 0, Attempt(s.sender.batch, m.s.outcome));
    }
  }

  lemma BackoffIsKept(cfg: Config, s: State, m: Move, t: State, streak: seq<Option<int>>)
    requires cfg.Valid() && Step(cfg, s, m) == Some(t)
    requires BackoffIs(s, streak)
    ensures BackoffIs(t, if !IsAnswer(m) then streak
                         else if m.s.outcome.Retriable() then streak + [m.s.outcome.err.retryAfter]
                         else [])
  {
    if IsAnswer(m) && m.s.outcome.Retriable() {
      assert Init(streak + [m.s.outcome.err.retryAfter]) == streak;
    } else if s.sender.Failing? {
      assert BackoffAfter(streak) == AfterFailure(BackoffAfter(Init(streak)), Last(streak));
    }
  }

  lemma BackoffKept(cfg: Config, s: State, m: Move, t: State)
    requires cfg.Valid() && Step(cfg, s, m) == Some(t)
    requires BackoffFollowsLog(s)
    ensures BackoffFollowsLog(t)
  {
    LogGrows(cfg, s, m, t);
    BackoffIsKept(cfg, s, m, t, Streak(s.seen.log));
  }

  lemma StepKeepsInv(cfg: Config, s: State, m: Move, t: State)
    requires cfg.Valid() && Step(cfg, s, m) == Some(t)
    requires Inv(cfg, s)
    ensures Inv(cfg, t)
  {
    AccountingKept(cfg, s, m, t);
    HeldKept(cfg, s, m, t);
    DeliveryOrderKept(cfg, s, m, t);
    NewestKeptKept(cfg, s, m, t);
    NoLostWakeupKept(cfg, s, m, t);
    ControlKept(cfg, s, m, t);
    FatalPathKept(cfg, s, m, t);
    CleanExitKept(cfg, s, m, t);
    FatalLeavesBatchKept(cfg, s, m, t);
    LogShapeKept(cfg, s, m, t);
    BackoffKept(cfg, s, m, t);
  }

  lemma {:induction false} RunKeepsInv(cfg: Config, s: State, moves: seq<Move>, t: State)
    requires cfg.Valid() && Exec(cfg, s, moves) == Some(t)
    requires Inv(cfg, s)
    ensures Inv(cfg, t)
    decreases |moves|
  {
    if moves != [] {
      var u := Step(cfg, s, moves[0]).value;
      StepKeepsInv(cfg, s, moves[0], u);
      RunKeepsInv(cfg, u, moves[1..], t);
    }
  }

  lemma ReachableInv(cfg: Config, s: State)
    requires cfg.Valid() && Reachable(cfg, s)
    ensures Inv(cfg, s)
  {
    var moves :| Exec(cfg, Initial(), moves) == Some(s);
    RunKeepsInv(cfg, Initial(), moves, s);
  }
}
