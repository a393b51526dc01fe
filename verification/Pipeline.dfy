/**
 The scheduler of internal/scheduler/scheduler.go as a concurrent step system.

 Four goroutines share the buffer, the one-slot notify channel, the shutdown channel, two contexts
 and the counters: the collector (`collectLoop`), the sender (`sendLoop` and the goroutine around
 it), `Run` itself, and the goroutine that turns the sender's WaitGroup into the channel `done`.
 A step is one critical section, one channel operation, one atomic counter update, or the start or
 the end of a Send. A `select` may take any case that is ready. Timers may fire at any moment; the
 scrape, the sink and the throttle answer as they like.
 */
module Pipeline {
  import opened Wrappers
  import opened Sinks
  import opened Backoff
  import BatchBuffer

  /** `drain` says that drainTimeout is positive. */
  datatype Config = Config(capacity: nat, drain: bool) {
    predicate Valid() { 1 <= capacity }
  }

  const DEFAULT_BUFFER_BATCHES := 5
  const DEFAULT_DRAIN_TIMEOUT := 5 * SECOND

  /** The defaults that `New` fills in. The comment on Options says that zero disables the drain; it
      does not. */
  function ConfigOf(bufferBatches: int, drainTimeout: int): (cfg: Config)
    ensures cfg.Valid()
    ensures cfg.capacity == if bufferBatches > 0 then bufferBatches else 5
    ensures cfg.drain <==> drainTimeout >= 0
  {
    var cap := if bufferBatches <= 0 then DEFAULT_BUFFER_BATCHES else bufferBatches;
    var timeout := if drainTimeout == 0 then DEFAULT_DRAIN_TIMEOUT else drainTimeout;
    var clamped := if timeout < 0 then 0 else timeout;
    Config(cap, clamped > 0)
  }

  datatype CollectorPc =
    | Scraping      // in Registry.Scrape
    | Appending     // ScrapesOK counted, Push not begun
    | Signalling    // in Push, between the critical section and the notify
    | Ticking       // in the select of collectLoop
    | Stopped

  datatype SenderPc =
    | CheckCtx
    | Peeking
    | Blocked                     // in the select on an empty buffer
    | Rechecking                  // woken by shutdownSend
    | Starting(batch: nat)        // peeked, Send not called yet
    | InFlight(batch: nat)
    | Popping(batch: nat)         // Send returned nil, Pop not called yet
    | Counting                    // popped, BatchesSent not counted yet
    | Failing(failure: Option<int>)
    | Sleeping
    | Recording                   // sendLoop returned a fatal error, fatalErr not set yet
    | CancellingCollect
    | CancellingSend
    | Done

  datatype RunPc =
    | AwaitShutdown               // <-collectCtx.Done()
    | JoinCollector
    | ReadFatal
    | Closing                     // about to close shutdownSend
    | Draining                    // in the select of drainAndStop
    | Expired                     // the drain deadline fired
    | AwaitDone
    | CutOff                      // no drain: about to cancel sendCtx
    | JoinSender
    | Returned(fatal: bool, drained: bool)   // drained: through drain.complete

  /** buffer.go, and the number of batches pushed so far. */
  datatype Queue = Queue(items: seq<nat>, dropped: nat, notify: bool, pushed: nat) {
    /** Where in the order of pushes the buffer starts. */
    function Head(): int { pushed - |items| }

    function Push(cap: nat): Queue
      requires 1 <= cap
    {
      this.(items := BatchBuffer.Pushed(items, pushed, cap),
            dropped := dropped + (if |items| >= cap then 1 else 0),
            pushed := pushed + 1)
    }
  }

  /** The two contexts, the two channels that get closed, and fatalErr != nil. */
  datatype Flags = Flags(collectCancelled: bool, sendCancelled: bool,
                         shutdownClosed: bool, doneClosed: bool, fatalErr: bool)

  datatype Counters = Counters(scrapesOK: nat, batchesSent: nat, batchesFailed: nat)

  /** What an observer has seen of the sender: the answers, the calls of Send, and the overflow
      counter at the latest Peek that found a batch; and of the collector: was each tick skipped? */
  datatype History = History(log: seq<Attempt>, sendsStarted: nat, droppedAtPeek: nat, ticks: seq<bool>)

  datatype State = State(
    collector: CollectorPc,
    sender: SenderPc,
    run: RunPc,
    q: Queue,
    flags: Flags,
    count: Counters,
    backoff: int,
    seen: History)
  {
    /** The batches for which Send returned nil, in order. */
    function Delivered(): seq<nat> { DeliveredBy(seen.log) }

    predicate Holding() { sender.Starting? || sender.InFlight? || sender.Popping? }
  }

  function Initial(): State {
    State(Scraping, CheckCtx, AwaitShutdown,
          Queue([], 0, false, 0), Flags(false, false, false, false, false), Counters(0, 0, 0), 0, History([], 0, 0, []))
  }

  datatype CollectorMove = ScrapeDone(samples: nat) | Append | Signal | Tick(skip: bool) | Stop

  /** `Advance` is the only move of a program point without a choice. */
  datatype SenderMove = Advance | OnCancel | OnShutdown | OnNotify | Answer(outcome: Outcome)

  datatype RunMove = Proceed | Deadline

  datatype Move =
    | Sigterm
    | Collector(c: CollectorMove)
    | Sender(s: SenderMove)
    | Run(r: RunMove)
    | Bridge

  function CollectorStep(cfg: Config, s: State, m: CollectorMove): Option<State>
    requires cfg.Valid()
  {
    match m
    case ScrapeDone(n) =>
      if !s.collector.Scraping? then None
      else if n == 0 then Some(s.(collector := Ticking))
      else Some(s.(collector := Appending, count := s.count.(scrapesOK := s.count.scrapesOK + 1)))
    case Append =>
      if !s.collector.Appending? then None
      else Some(s.(collector := Signalling, q := s.q.Push(cfg.capacity)))
    case Signal =>
      if !s.collector.Signalling? then None
      else Some(s.(collector := Ticking, q := s.q.(notify := true)))
    case Tick(skip) =>
      if !s.collector.Ticking? then None
      else Some(s.(collector := if skip then Ticking else Scraping, seen := s.seen.(ticks := s.seen.ticks + [skip])))
    case Stop =>
      if !s.collector.Ticking? || !s.flags.collectCancelled then None
      else Some(s.(collector := Stopped))
  }

  /** The select of sendLoop on an empty buffer. */
  function WakeStep(s: State, m: SenderMove): Option<State>
    requires s.sender.Blocked?
  {
    match m
    case OnCancel => if s.flags.sendCancelled then Some(s.(sender := Done)) else None
    case OnShutdown => if s.flags.shutdownClosed then Some(s.(sender := Rechecking)) else None
    case OnNotify => if s.q.notify then Some(s.(sender := CheckCtx, q := s.q.(notify := false))) else None
    case _ => None
  }

  /** Send returns. */
  function AnswerStep(s: State, outcome: Outcome): State
    requires s.sender.InFlight?
  {
    var b := s.sender.batch;
    s.(seen := s.seen.(log := s.seen.log + [Attempt(b, outcome)]),
       sender := if outcome.Accepted? then Popping(b)
                 else if outcome.Fatal() then Recording
                 else Failing(outcome.err.retryAfter))
  }

  /** The program points of sendLoop, and of the goroutine around it, that have one way to go on. */
  function AdvanceStep(s: State): Option<State> {
    match s.sender
    case CheckCtx => Some(s.(sender := if s.flags.sendCancelled then Done else Peeking))
    case Peeking =>
      Some(if s.q.items == [] then s.(sender := Blocked)
           else s.(sender := Starting(s.q.items[0]), seen := s.seen.(droppedAtPeek := s.q.dropped)))
    case Rechecking => Some(s.(sender := if s.q.items == [] then Done else CheckCtx))
    case Starting(b) => Some(s.(sender := InFlight(b), seen := s.seen.(sendsStarted := s.seen.sendsStarted + 1)))
    case Popping(b) => Some(s.(sender := Counting, q := s.q.(items := BatchBuffer.Popped(s.q.items))))
    case Counting =>
      Some(s.(sender := CheckCtx, count := s.count.(batchesSent := s.count.batchesSent + 1), backoff := 0))
    case Failing(f) =>
      Some(s.(sender := Sleeping, count := s.count.(batchesFailed := s.count.batchesFailed + 1),
              backoff := AfterFailure(s.backoff, f)))
    case Sleeping => Some(s.(sender := CheckCtx))
    case Recording => Some(s.(sender := CancellingCollect, flags := s.flags.(fatalErr := true)))
    case CancellingCollect => Some(s.(sender := CancellingSend, flags := s.flags.(collectCancelled := true)))
    case CancellingSend => Some(s.(sender := Done, flags := s.flags.(sendCancelled := true)))
    case _ => None
  }

  function SenderStep(s: State, m: SenderMove): Option<State> {
    if s.sender.Blocked? then WakeStep(s, m)
    else if s.sender.InFlight? then (if m.Answer? then Some(AnswerStep(s, m.outcome)) else None)
    else if m.Advance? then AdvanceStep(s)
    else None
  }

  function RunStep(cfg: Config, s: State, m: RunMove): Option<State> {
    match s.run
    case AwaitShutdown => if m.Proceed? && s.flags.collectCancelled then Some(s.(run := JoinCollector)) else None
    case JoinCollector => if m.Proceed? && s.collector.Stopped? then Some(s.(run := ReadFatal)) else None
    case ReadFatal =>
      if m.Proceed? then Some(s.(run := if !s.flags.fatalErr && cfg.drain then Closing else CutOff)) else None
    case Closing =>
      if m.Proceed? then Some(s.(run := Draining, flags := s.flags.(shutdownClosed := true))) else None
    case Draining =>
      if m.Deadline? then Some(s.(run := Expired))
      else if s.flags.doneClosed then Some(s.(run := Returned(s.flags.fatalErr, true))) else None
    case Expired => if m.Proceed? then Some(s.(run := AwaitDone, flags := s.flags.(sendCancelled := true))) else None
    case AwaitDone =>
      if m.Proceed? && s.flags.doneClosed then Some(s.(run := Returned(s.flags.fatalErr, false))) else None
    case CutOff => if m.Proceed? then Some(s.(run := JoinSender, flags := s.flags.(sendCancelled := true))) else None
    case JoinSender =>
      if m.Proceed? && s.sender.Done? then Some(s.(run := Returned(s.flags.fatalErr, false))) else None
    case Returned(_, _) => None
  }

  /** `None` when the move is not enabled. */
  function Step(cfg: Config, s: State, m: Move): Option<State>
    requires cfg.Valid()
  {
    match m
    case Sigterm => Some(s.(flags := s.flags.(collectCancelled := true)))
    case Collector(c) => CollectorStep(cfg, s, c)
    case Sender(x) => SenderStep(s, x)
    case Run(r) => RunStep(cfg, s, r)
    case Bridge =>
      if s.flags.shutdownClosed && s.sender.Done? then Some(s.(flags := s.flags.(doneClosed := true))) else None
  }

  /** The state after a schedule, if every move of it is enabled when its turn comes. */
  function Exec(cfg: Config, s: State, moves: seq<Move>): Option<State>
    requires cfg.Valid()
    decreases |moves|
  {
    if moves == [] then Some(s)
    else
      match Step(cfg, s, moves[0])
      case None => None
      case Some(t) => Exec(cfg, t, moves[1..])
  }

  ghost predicate Reachable(cfg: Config, s: State)
    requires cfg.Valid()
  {
    exists moves :: Exec(cfg, Initial(), moves) == Some(s)
  }
}
