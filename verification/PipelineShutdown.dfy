/** How the pipeline ends: a cancelled sender stops, Run returns, and what a drain delivers. */
module PipelineShutdown {
  import opened Wrappers
  import opened Sinks
  import opened Pipeline
  import opened PipelineInvariants
  import opened PipelineSafety
  import BatchBuffer

  function SenderMoves(moves: seq<Move>): nat {
    if moves == [] then 0 else (if moves[0].Sender? then 1 else 0) + SenderMoves(moves[1..])
  }

  /** How many Sends were refused, but not fatally, along a schedule. */
  function Refusals(moves: seq<Move>): nat {
    if moves == [] then 0 else (if IsRefusal(moves[0]) then 1 else 0) + Refusals(moves[1..])
  }

  predicate IsRefusal(m: Move) { IsAnswer(m) && m.s.outcome.Retriable() }

  // ---------- a cancelled sender ----------

  /** How many steps a sender takes at most once sendCtx is cancelled. */
  function StepsLeft(pc: SenderPc): nat {
    match pc
    case Peeking => 6
    case Starting(_) => 5
    case InFlight(_) => 4
    case Blocked => 3
    case Popping(_) => 3
    case Failing(_) => 3
    case Recording => 3
    case Rechecking => 2
    case Counting => 2
    case Sleeping => 2
    case CancellingCollect => 2
    case CheckCtx => 1
    case CancellingSend => 1
    case Done => 0
  }

  ghost predicate SenderCanMove(s: State) {
    exists m :: SenderStep(s, m).Some?
  }

  lemma SenderGoesOn(s: State)
    requires s.flags.sendCancelled || s.flags.shutdownClosed
    ensures s.sender.Done? || SenderCanMove(s)
  {
    var m := match s.sender
      case Blocked => if s.flags.sendCancelled then OnCancel else OnShutdown
      case InFlight(_) => Answer(Accepted(0))
      case _ => Advance;
    assert s.sender.Done? || SenderStep(s, m).Some?;
  }

  function SendsLeft(pc: SenderPc): nat {
    if pc.Peeking? || pc.Starting? then 1 else 0
  }

  lemma CancelledSenderSpends(s: State, m: SenderMove)
    requires s.flags.sendCancelled && SenderStep(s, m).Some?
    ensures StepsLeft(SenderStep(s, m).value.sender) < StepsLeft(s.sender)
  {
  }

  lemma CancelledSenderSends(s: State, m: SenderMove)
    requires s.flags.sendCancelled && SenderStep(s, m).Some?
    ensures var t := SenderStep(s, m).value;
            && t.flags.sendCancelled
            && t.seen.sendsStarted + SendsLeft(t.sender) <= s.seen.sendsStarted + SendsLeft(s.sender)
  {
  }

  lemma CancelledStep(cfg: Config, s: State, m: Move, t: State)
    requires cfg.Valid() && Step(cfg, s, m) == Some(t)
    requires s.flags.sendCancelled
    ensures t.flags.sendCancelled
    ensures (if m.Sender? then 1 else 0) + StepsLeft(t.sender) <= StepsLeft(s.sender)
    ensures t.seen.sendsStarted + SendsLeft(t.sender) <= s.seen.sendsStarted + SendsLeft(s.sender)
  {
    if m.Sender? {
      CancelledSenderSpends(s, m.s);
      CancelledSenderSends(s, m.s);
    }
  }

  /** After sendCtx is cancelled, under any schedule of everything else: at most six more steps of
      the sender, at most one more Send, and a sender that is not done can step. */
  lemma {:induction false} CancelledSenderStops(cfg: Config, s: State, moves: seq<Move>, t: State)
    requires cfg.Valid() && Exec(cfg, s, moves) == Some(t)
    requires s.flags.sendCancelled
    ensures t.flags.sendCancelled
    ensures SenderMoves(moves) + StepsLeft(t.sender) <= StepsLeft(s.sender) <= 6
    ensures t.seen.sendsStarted + SendsLeft(t.sender) <= s.seen.sendsStarted + SendsLeft(s.sender)
    ensures t.sender.Done? || SenderCanMove(t)
    decreases |moves|
  {
    if moves == [] {
      SenderGoesOn(t);
    } else {
      var u := Step(cfg, s, moves[0]).value;
      CancelledStep(cfg, s, moves[0], u);
      CancelledSenderStops(cfg, u, moves[1..], t);
    }
  }

  // ---------- termination of the drain ----------

  /** A bound on the sender's steps when nothing is pushed any more and no Send is refused. */
  function Potential(s: State): nat {
    var queue := 6 * |s.q.items| + if s.q.notify then 3 else 0;
    match s.sender
    case Blocked => queue + if s.q.items == [] then 2 else 6
    case Rechecking => queue + if s.q.items == [] then 1 else 5
    case CheckCtx => queue + 4
    case Peeking => queue + 3
    case Starting(_) => queue + 2
    case InFlight(_) => queue + 1
    case Popping(_) => queue
    case Counting => queue + 5
    case Failing(_) => queue + 6
    case Sleeping => queue + 5
    case Recording => 3
    case CancellingCollect => 2
    case CancellingSend => 1
    case Done => 0
  }

  lemma SenderSpendsPotential(s: State, m: SenderMove)
    requires SenderStep(s, m).Some? && (s.Holding() ==> s.q.items != [])
    ensures Potential(SenderStep(s, m).value) < Potential(s) + if IsRefusal(Sender(m)) then 6 else 0
  {
  }

  lemma PotentialFalls(cfg: Config, s: State, m: Move, t: State)
    requires cfg.Valid() && Step(cfg, s, m) == Some(t)
    requires s.collector.Stopped? && Held(cfg, s)
    ensures t.collector.Stopped? && (s.flags.shutdownClosed ==> t.flags.shutdownClosed)
    ensures (if m.Sender? then 1 else 0) + Potential(t) <= Potential(s) + if IsRefusal(m) then 6 else 0
  {
    if m.Sender? {
      SenderSpendsPotential(s, m.s);
    } else {
      assert t.sender == s.sender && t.q == s.q;
    }
  }

  lemma {:induction false} PotentialBoundsRun(cfg: Config, s: State, moves: seq<Move>, t: State)
    requires cfg.Valid() && Inv(cfg, s) && Exec(cfg, s, moves) == Some(t)
    requires s.collector.Stopped?
    ensures SenderMoves(moves) + Potential(t) <= Potential(s) + 6 * Refusals(moves)
    ensures Inv(cfg, t) && (s.flags.shutdownClosed ==> t.flags.shutdownClosed)
    decreases |moves|
  {
    if moves != [] {
      var u := Step(cfg, s, moves[0]).value;
      PotentialFalls(cfg, s, moves[0], u);
      StepKeepsInv(cfg, s, moves[0], u);
      PotentialBoundsRun(cfg, u, moves[1..], t);
    }
  }

  /** With or without the deadline: from the close of shutdownSend on, the sender's steps are bounded
      by what is buffered and by the number of refusals, and it can step until it is done. So it
      ends under any sink that refuses finitely often. */
  lemma DrainEnds(cfg: Config, s: State, moves: seq<Move>, t: State)
    requires cfg.Valid() && Reachable(cfg, s) && Exec(cfg, s, moves) == Some(t)
    requires s.flags.shutdownClosed
    ensures SenderMoves(moves) <= 6 * |s.q.items| + 9 + 6 * Refusals(moves)
    ensures t.sender.Done? || SenderCanMove(t)
  {
    ReachableInv(cfg, s);
    PotentialBoundsRun(cfg, s, moves, t);
    SenderGoesOn(t);
  }

  // ---------- the return of Run ----------

  /** How many steps Run takes at most. */
  function RunStepsLeft(pc: RunPc): nat {
    match pc
    case AwaitShutdown => 7
    case JoinCollector => 6
    case ReadFatal => 5
    case Closing => 4
    case Draining => 3
    case Expired => 2
    case CutOff => 2
    case AwaitDone => 1
    case JoinSender => 1
    case Returned(_, _) => 0
  }

  function AgentPotential(s: State): nat {
    Potential(s) + RunStepsLeft(s.run) + if s.flags.doneClosed then 0 else 1
  }

  /** How many moves of a schedule change the state. */
  function Changes(cfg: Config, s: State, moves: seq<Move>): nat
    requires cfg.Valid()
    decreases |moves|
  {
    if moves == [] then 0
    else
      match Step(cfg, s, moves[0])
      case None => 0
      case Some(u) => (if u != s then 1 else 0) + Changes(cfg, u, moves[1..])
  }

  lemma RunSpendsPotential(cfg: Config, s: State, m: RunMove)
    requires RunStep(cfg, s, m).Some?
    ensures var t := RunStep(cfg, s, m).value;
            && RunStepsLeft(t.run) < RunStepsLeft(s.run)
            && Potential(t) == Potential(s)
            && t.flags.doneClosed == s.flags.doneClosed
  {
  }

  lemma AgentPotentialFalls(cfg: Config, s: State, m: Move, t: State)
    requires cfg.Valid() && Step(cfg, s, m) == Some(t)
    requires s.collector.Stopped? && Held(cfg, s) && Control(cfg, s)
    ensures t.collector.Stopped?
    ensures (if t != s then 1 else 0) + AgentPotential(t) <= AgentPotential(s) + if IsRefusal(m) then 6 else 0
  {
    match m
    case Sender(x) =>
      SenderSpendsPotential(s, x);
      assert t.run == s.run && t.flags.doneClosed == s.flags.doneClosed;
    case Run(r) => RunSpendsPotential(cfg, s, r);
    case Sigterm => assert t == s;
    case Bridge => assert t.sender == s.sender && t.q == s.q && t.run == s.run;
    case Collector(_) =>
  }

  lemma {:induction false} AgentPotentialBoundsRun(cfg: Config, s: State, moves: seq<Move>, t: State)
    requires cfg.Valid() && Reachable(cfg, s) && Exec(cfg, s, moves) == Some(t)
    requires s.collector.Stopped?
    ensures Changes(cfg, s, moves) + AgentPotential(t) <= AgentPotential(s) + 6 * Refusals(moves)
    ensures Reachable(cfg, t) && t.collector.Stopped?
    decreases |moves|
  {
    if moves != [] {
      ReachableInv(cfg, s);
      var u := After(cfg, s, moves[0]);
      AgentPotentialFalls(cfg, s, moves[0], u);
      AgentPotentialBoundsRun(cfg, u, moves[1..], t);
    }
  }

  /** From the end of the collector on, with or without a drain, deadline or fatal answer: the moves
      of the whole agent that change anything are bounded by what is buffered and by the number of
      refusals, and there is always one to make until Run has returned. So Run returns under any sink
      that refuses finitely often. */
  lemma RunReturns(cfg: Config, s: State, moves: seq<Move>, t: State)
    requires cfg.Valid() && Reachable(cfg, s) && Exec(cfg, s, moves) == Some(t)
    requires s.collector.Stopped?
    ensures Changes(cfg, s, moves) <= 6 * |s.q.items| + 17 + 6 * Refusals(moves)
    ensures t.run.Returned? || CanMove(cfg, t)
  {
    AgentPotentialBoundsRun(cfg, s, moves, t);
    ReachableInv(cfg, t);
    if !t.run.Returned? { ShutdownNeverSticks(cfg, t); }
  }

  // ---------- when there is a drain, and when it is cut ----------

  /** Run has looked at fatalErr. */
  predicate Decided(s: State) {
    !s.run.AwaitShutdown? && !s.run.JoinCollector? && !s.run.ReadFatal?
  }

  lemma {:induction false} DecisionStands(cfg: Config, s: State, moves: seq<Move>, t: State)
    requires cfg.Valid() && Exec(cfg, s, moves) == Some(t) && Decided(s)
    ensures Decided(t)
    ensures t.run.Closing? || t.flags.shutdownClosed <==> s.run.Closing? || s.flags.shutdownClosed
    decreases |moves|
  {
    if moves != [] {
      DecisionStands(cfg, Step(cfg, s, moves[0]).value, moves[1..], t);
    }
  }

  /** Run drains if and only if a drain is configured and no fatal error is recorded when it looks;
      without a drain it never returns through drain.complete. */
  lemma DrainsUnlessFatal(cfg: Config, s: State, moves: seq<Move>, t: State)
    requires cfg.Valid() && Reachable(cfg, s) && Exec(cfg, s, [Run(Proceed)] + moves) == Some(t)
    requires s.run.ReadFatal? && t.run.Returned?
    ensures t.flags.shutdownClosed <==> cfg.drain && !s.flags.fatalErr
    ensures t.run.drained ==> cfg.drain && !s.flags.fatalErr
  {
    assert ([Run(Proceed)] + moves)[0] == Run(Proceed) && ([Run(Proceed)] + moves)[1..] == moves;
    ReachableInv(cfg, s);
    var u := After(cfg, s, Run(Proceed));
    DecisionStands(cfg, u, moves, t);
    ReachableInv(cfg, u);
    RunKeepsInv(cfg, u, moves, t);
  }

  /** A fatal error is recorded, and Run has not looked yet or has skipped the drain. */
  predicate Unwinding(s: State) {
    && s.flags.fatalErr && !s.flags.shutdownClosed
    && (s.sender.CancellingCollect? || s.sender.CancellingSend? || s.sender.Done?)
    && (!Decided(s) || s.run.CutOff? || s.run.JoinSender? || s.run == Returned(true, false))
  }

  /** A fatal error recorded before Run looks: nothing more is sent, nothing is drained, and Run can only
      return the error. */
  lemma FatalSkipsDrain(cfg: Config, s: State, moves: seq<Move>, t: State)
    requires cfg.Valid() && Reachable(cfg, s) && Exec(cfg, s, moves) == Some(t)
    requires s.flags.fatalErr && (s.run.AwaitShutdown? || s.run.JoinCollector? || s.run.ReadFatal?)
    ensures t.seen.log == s.seen.log && !t.flags.shutdownClosed
    ensures t.run.Returned? ==> t.run == Returned(true, false)
  {
    ReachableInv(cfg, s);
    UnwindingGoesOn(cfg, s, moves, t);
  }

  lemma {:induction false} UnwindingGoesOn(cfg: Config, s: State, moves: seq<Move>, t: State)
    requires cfg.Valid() && Exec(cfg, s, moves) == Some(t) && Unwinding(s)
    ensures Unwinding(t) && t.seen.log == s.seen.log
    decreases |moves|
  {
    if moves != [] {
      UnwindingGoesOn(cfg, Step(cfg, s, moves[0]).value, moves[1..], t);
    }
  }

  function CancelledPotential(s: State): nat {
    StepsLeft(s.sender) + RunStepsLeft(s.run) + if s.flags.doneClosed then 0 else 1
  }

  lemma CancelledPotentialFalls(cfg: Config, s: State, m: Move, t: State)
    requires cfg.Valid() && Step(cfg, s, m) == Some(t)
    requires s.collector.Stopped? && s.flags.collectCancelled && s.flags.sendCancelled
    ensures t.collector.Stopped? && t.flags.collectCancelled && t.flags.sendCancelled
    ensures (if t != s then 1 else 0) + CancelledPotential(t) <= CancelledPotential(s)
  {
    match m
    case Sender(x) =>
      CancelledSenderSpends(s, x);
      assert t.run == s.run && t.flags.doneClosed == s.flags.doneClosed;
    case Run(r) => RunSpendsPotential(cfg, s, r);
    case Sigterm => assert t == s;
    case Bridge => assert t.sender == s.sender && t.run == s.run;
    case Collector(_) =>
  }

  lemma {:induction false} CancelledPotentialBoundsRun(cfg: Config, s: State, moves: seq<Move>, t: State)
    requires cfg.Valid() && Reachable(cfg, s) && Exec(cfg, s, moves) == Some(t)
    requires s.collector.Stopped? && s.flags.sendCancelled
    ensures Changes(cfg, s, moves) + CancelledPotential(t) <= CancelledPotential(s)
    ensures Reachable(cfg, t)
    decreases |moves|
  {
    if moves != [] {
      ReachableInv(cfg, s);
      var u := After(cfg, s, moves[0]);
      CancelledPotentialFalls(cfg, s, moves[0], u);
      CancelledPotentialBoundsRun(cfg, u, moves[1..], t);
    }
  }

  /** The drain is bounded: its deadline can always fire, and once Run has acted on it, at most eight
      moves of the agent change anything, whatever the sink answers and however much is buffered. */
  lemma DeadlineCutsDrain(cfg: Config, s: State, u: State, moves: seq<Move>, t: State)
    requires cfg.Valid() && Reachable(cfg, s) && s.run.Draining?
    requires u == s.(run := AwaitDone, flags := s.flags.(sendCancelled := true))
    requires Exec(cfg, u, moves) == Some(t)
    ensures Exec(cfg, s, [Run(Deadline), Run(Proceed)]) == Some(u)
    ensures Changes(cfg, u, moves) <= 8
    ensures t.run.Returned? || CanMove(cfg, t)
  {
    var v := After(cfg, s, Run(Deadline));
    var w := After(cfg, v, Run(Proceed));
    assert w == u;
    ReachableInv(cfg, u);
    assert [Run(Deadline), Run(Proceed)][1..] == [Run(Proceed)] && [Run(Proceed)][1..] == [];
    assert Exec(cfg, u, []) == Some(u);
    assert Exec(cfg, v, [Run(Proceed)]) == Some(u);
    CancelledPotentialBoundsRun(cfg, u, moves, t);
    ReachableInv(cfg, t);
    if !t.run.Returned? { ShutdownNeverSticks(cfg, t); }
  }

  // ---------- what the drain delivers ----------

  /** The batch in the sender's hands has been evicted, and its Send has not returned. */
  predicate Stale(s: State) {
    (s.sender.Starting? || s.sender.InFlight?) && s.q.items != [] && s.sender.batch != s.q.items[0]
  }

  /** What the sender still has to deliver, if the Send under way is about the head. */
  function Pending(s: State): seq<nat> {
    if s.sender.Popping? then BatchBuffer.Popped(s.q.items) else s.q.items
  }

  /** What will have been delivered when the buffer is empty. */
  function Outlook(s: State): seq<nat> {
    s.Delivered() + Pending(s)
  }

  /** The same when the Send under way succeeds although its batch has been evicted. */
  function OutlookAfterRace(s: State): seq<nat>
    requires s.sender.Starting? || s.sender.InFlight?
  {
    s.Delivered() + [s.sender.batch] + BatchBuffer.Popped(s.q.items)
  }

  /** Did the Send that was under way in s return nil, as seen from the later log? */
  predicate NextAccepted(s: State, log: seq<Attempt>) {
    |s.seen.log| < |log| && log[|s.seen.log|].outcome.Accepted?
  }

  /** No push, no answer: what is pending stays pending. */
  lemma PendingKept(cfg: Config, s: State, m: Move, t: State)
    requires cfg.Valid() && Held(cfg, s) && Step(cfg, s, m) == Some(t)
    requires s.collector.Stopped?
    ensures t.collector.Stopped?
    ensures !IsAnswer(m) ==> Pending(t) == Pending(s)
    ensures !IsAnswer(m) && !s.sender.Popping? ==> t.q.items == s.q.items
    ensures Stale(t) ==> !IsAnswer(m) && Stale(s) && t.sender.batch == s.sender.batch
    ensures Stale(s) && !IsAnswer(m) ==> Stale(t)
  {
  }

  lemma OutlookAnswer(cfg: Config, s: State, m: Move, t: State)
    requires cfg.Valid() && Accounting(cfg, s) && Held(cfg, s) && Step(cfg, s, m) == Some(t)
    requires IsAnswer(m)
    ensures if Stale(s) && m.s.outcome.Accepted? then Outlook(t) == OutlookAfterRace(s) else Outlook(t) == Outlook(s)
  {
    LogGrows(cfg, s, m, t);
    var delivered, rest := s.Delivered(), BatchBuffer.Popped(s.q.items);
    if m.s.outcome.Accepted? {
      assert Outlook(t) == delivered + [s.sender.batch] + rest;
      assert s.q.items == [s.q.items[0]] + rest;
      assert delivered + ([s.q.items[0]] + rest) == delivered + [s.q.items[0]] + rest;
    } else {
      assert delivered + [] == delivered;
    }
  }

  lemma OutlookStep(cfg: Config, s: State, m: Move, t: State)
    requires cfg.Valid() && Inv(cfg, s) && Step(cfg, s, m) == Some(t)
    requires s.collector.Stopped?
    ensures t.collector.Stopped? && s.seen.log <= t.seen.log
    ensures if Stale(s) && NextAccepted(s, t.seen.log) then Outlook(t) == OutlookAfterRace(s)
            else Outlook(t) == Outlook(s)
    ensures if Stale(t) then Stale(s) && t.seen.log == s.seen.log && OutlookAfterRace(t) == OutlookAfterRace(s)
            else Stale(s) ==> |s.seen.log| < |t.seen.log|
  {
    LogGrows(cfg, s, m, t);
    PendingKept(cfg, s, m, t);
    if IsAnswer(m) { OutlookAnswer(cfg, s, m, t); }
  }

  lemma {:induction false} OutlookRun(cfg: Config, s: State, moves: seq<Move>, t: State)
    requires cfg.Valid() && Inv(cfg, s) && Exec(cfg, s, moves) == Some(t)
    requires s.collector.Stopped?
    ensures t.collector.Stopped? && s.seen.log <= t.seen.log && Inv(cfg, t)
    ensures if Stale(s) && NextAccepted(s, t.seen.log) then Outlook(t) == OutlookAfterRace(s)
            else Outlook(t) == Outlook(s)
    decreases |moves|
  {
    if moves != [] {
      var u := Step(cfg, s, moves[0]).value;
      OutlookStep(cfg, s, moves[0], u);
      StepKeepsInv(cfg, s, moves[0], u);
      OutlookRun(cfg, u, moves[1..], t);
    }
  }

  /** The batch that was just delivered had been evicted before: Pop will remove another one. */
  predicate StalePop(s: State) {
    s.sender.Popping? && s.q.items != [] && s.sender.batch != s.q.items[0]
  }

  /** The batches that wait for delivery. The head waits no longer if it is the one just delivered. */
  function Waiting(s: State): seq<nat> {
    if s.sender.Popping? && !StalePop(s) then BatchBuffer.Popped(s.q.items) else s.q.items
  }

  /** A batch will be popped unsent: the one in the sender's hands was evicted while it was sent. */
  predicate LosesHead(s: State, log: seq<Attempt>) {
    StalePop(s) || (Stale(s) && NextAccepted(s, log))
  }

  /** When the sender ends by itself after the collector, the buffer is empty. It has then delivered
      exactly the waiting batches, in order, if and only if no batch was evicted while its Send was
      under way and then succeeded; otherwise exactly the head of the buffer is lost. */
  lemma DrainDelivers(cfg: Config, s: State, moves: seq<Move>, t: State)
    requires cfg.Valid() && Reachable(cfg, s) && Exec(cfg, s, moves) == Some(t)
    requires s.collector.Stopped?
    requires t.sender.Done? && !t.flags.sendCancelled
    ensures t.q.items == []
    ensures t.Delivered() == s.Delivered() + Waiting(s) <==> !LosesHead(s, t.seen.log)
    ensures LosesHead(s, t.seen.log) ==>
              && s.q.items != []
              && t.Delivered() == s.Delivered() + (if StalePop(s) then [] else [s.sender.batch]) + s.q.items[1..]
  {
    ReachableInv(cfg, s);
    OutlookRun(cfg, s, moves, t);
    assert t.Delivered() + [] == t.Delivered();
    if StalePop(s) {
      assert s.Delivered() + [] == s.Delivered();
      assert |t.Delivered()| < |s.Delivered() + Waiting(s)|;
    }
    if Stale(s) {
      var k := |s.Delivered()|;
      assert (s.Delivered() + [s.sender.batch] + s.q.items[1..])[k] == s.sender.batch;
      assert (s.Delivered() + Waiting(s))[k] == s.q.items[0];
    }
  }

  // ---------- a drain that loses a batch, and one that leaves a batch ----------

  /** SIGTERM, the end of the collector, and the start of the drain. */
  lemma DrainBegins(cfg: Config, s: State) returns (t: State)
    requires cfg.Valid() && cfg.drain && Reachable(cfg, s)
    requires s.collector.Ticking? && s.run.AwaitShutdown? && s.flags == Flags(false, false, false, false, false)
    ensures Reachable(cfg, t)
    ensures t == s.(collector := Stopped, run := Draining, flags := Flags(true, false, true, false, false))
  {
    t := After(cfg, s, Sigterm);
    t := After(cfg, t, Collector(Stop));
    t := After(cfg, t, Run(Proceed));
    t := After(cfg, t, Run(Proceed));
    t := After(cfg, t, Run(Proceed));
    t := After(cfg, t, Run(Proceed));
  }

  /** The sender has ended, and Run takes the channel `done`. */
  lemma DrainCompletes(cfg: Config, s: State) returns (t: State)
    requires cfg.Valid() && Reachable(cfg, s)
    requires s.sender.Done? && s.run.Draining? && s.flags.shutdownClosed
    ensures Reachable(cfg, t)
    ensures t == s.(run := Returned(s.flags.fatalErr, true), flags := s.flags.(doneClosed := true))
  {
    t := After(cfg, s, Bridge);
    t := After(cfg, t, Run(Proceed));
  }

  /** A graceful drain can lose a batch: `sending` and `popping` are the two kinds of states in which
      LosesHead holds, and Run returns nil through drain.complete with batch 1 neither delivered nor
      buffered; the one counted overflow was that of batch 0, which has been delivered. */
  lemma DrainCanLoseABatch(cfg: Config) returns (sending: State, popping: State, t: State)
    requires cfg.capacity == 1 && cfg.drain
    ensures Reachable(cfg, sending) && sending.run.Draining? && Stale(sending) && sending.q.items == [1]
    ensures Reachable(cfg, popping) && popping.run.Draining? && StalePop(popping) && popping.q.items == [1]
    ensures Reachable(cfg, t) && t.run == Returned(false, true) && t.q.items == []
    ensures t.q.pushed == 2 && t.Delivered() == [0] && t.q.dropped == 1
  {
    var s := SecondEvictsFirst(cfg);
    sending := DrainBegins(cfg, s);
    popping := After(cfg, sending, Sender(Answer(Accepted(0))));
    FirstDelivered(popping);
    t := LastPopAndExit(cfg, popping);
    t := DrainCompletes(cfg, t);
  }

  lemma LastPopAndExit(cfg: Config, s: State) returns (t: State)
    requires cfg.Valid() && Reachable(cfg, s)
    requires s.sender.Popping? && |s.q.items| == 1 && s.flags.shutdownClosed && !s.flags.sendCancelled
    ensures Reachable(cfg, t)
    ensures t == s.(sender := Done, q := s.q.(items := []), backoff := 0,
                    count := s.count.(batchesSent := s.count.batchesSent + 1))
  {
    t := After(cfg, s, Sender(Advance));
    t := After(cfg, t, Sender(Advance));
    t := After(cfg, t, Sender(Advance));
    t := After(cfg, t, Sender(Advance));
    t := After(cfg, t, Sender(OnShutdown));
    t := After(cfg, t, Sender(Advance));
  }

  /** drain.complete can be reached with a batch left: the sender died of a fatal answer. */
  lemma FatalDrainLeavesABatch(cfg: Config, err: SendError) returns (t: State)
    requires cfg.Valid() && cfg.drain && err.wrapsFatal
    ensures Reachable(cfg, t) && t.run == Returned(true, true) && t.q.items == [0]
  {
    t := FirstInFlight(cfg);
    t := DrainBegins(cfg, t);
    t := After(cfg, t, Sender(Answer(Refused(err))));
    t := After(cfg, t, Sender(Advance));
    t := After(cfg, t, Sender(Advance));
    t := After(cfg, t, Sender(Advance));
    t := DrainCompletes(cfg, t);
  }
}
