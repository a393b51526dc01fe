/** What a sink may answer (internal/scheduler/sink.go), and histories of its answers. */
module Sinks {
  import opened Wrappers

  /** What sendLoop asks of an error: does it wrap ErrFatal, and does it wrap a RetryAfterError? */
  datatype SendError = SendError(wrapsFatal: bool, retryAfter: Option<int>)

  datatype Outcome = Accepted(droppedQuota: int) | Refused(err: SendError) {
    /** ErrFatal is tested before RetryAfterError, so it wins when an error wraps both. */
    predicate Fatal() { Refused? && err.wrapsFatal }

    predicate Retriable() { Refused? && !err.wrapsFatal }
  }

  /** One Send that returned. A batch is named by its position in the order of pushes. */
  datatype Attempt = Attempt(batch: nat, outcome: Outcome)

  function Last<T>(s: seq<T>): T
    requires s != []
  {
    s[|s| - 1]
  }

  function Init<T>(s: seq<T>): seq<T>
    requires s != []
  {
    s[..|s| - 1]
  }

  /** The batches for which Send returned nil, in order. */
  function DeliveredBy(log: seq<Attempt>): seq<nat> {
    if log == [] then []
    else DeliveredBy(Init(log)) + if Last(log).outcome.Accepted? then [Last(log).batch] else []
  }

  /** The retriable failures since the last accepted batch. */
  function Streak(log: seq<Attempt>): seq<Option<int>> {
    if log == [] || !Last(log).outcome.Retriable() then []
    else Streak(Init(log)) + [Last(log).outcome.err.retryAfter]
  }

  function Retries(log: seq<Attempt>): nat {
    if log == [] then 0
    else Retries(Init(log)) + if Last(log).outcome.Retriable() then 1 else 0
  }

  ghost predicate HasFatal(log: seq<Attempt>) {
    exists k :: 0 <= k < |log| && log[k].outcome.Fatal()
  }

  /** The grammar of a log without losses: for each batch from `first` on, any number of retriable
      refusals and then one acceptance; the last block may be open, or closed by a fatal refusal. */
  predicate InBlocks(log: seq<Attempt>, first: nat) {
    log == []
    || (&& log[0].batch == first
        && if log[0].outcome.Accepted? then InBlocks(log[1..], first + 1)
           else if log[0].outcome.Retriable() then InBlocks(log[1..], first)
           else |log| == 1)
  }

  /** How each history function grows with one more attempt. */
  lemma Snoc(log: seq<Attempt>, a: Attempt)
    ensures Init(log + [a]) == log && Last(log + [a]) == a
    ensures DeliveredBy(log + [a]) == DeliveredBy(log) + if a.outcome.Accepted? then [a.batch] else []
    ensures Streak(log + [a]) == if a.outcome.Retriable() then Streak(log) + [a.outcome.err.retryAfter] else []
    ensures Retries(log + [a]) == Retries(log) + if a.outcome.Retriable() then 1 else 0
    ensures HasFatal(log + [a]) <==> HasFatal(log) || a.outcome.Fatal()
  {
    var longer := log + [a];
    assert Init(longer) == log && Last(longer) == a;
    if HasFatal(log) {
      var k :| 0 <= k < |log| && log[k].outcome.Fatal();
      assert longer[k].outcome.Fatal();
    }
    if a.outcome.Fatal() {
      assert longer[|log|].outcome.Fatal();
    }
  }

  lemma {:induction false} BlocksGrow(log: seq<Attempt>, first: nat, a: Attempt)
    requires InBlocks(log, first) && !HasFatal(log)
    requires a.batch == first + |DeliveredBy(log)|
    ensures InBlocks(log + [a], first)
  {
    if log != [] {
      assert log[0] in log;
      var rest := log[1..];
      forall k | 0 <= k < |rest|
        ensures !rest[k].outcome.Fatal()
      {
        assert rest[k] == log[k + 1];
      }
      DeliveredCons(log);
      BlocksGrow(rest, if log[0].outcome.Accepted? then first + 1 else first, a);
      assert (log + [a])[1..] == rest + [a];
    }
  }

  lemma {:induction false} DeliveredCons(log: seq<Attempt>)
    requires log != []
    ensures DeliveredBy(log) == (if log[0].outcome.Accepted? then [log[0].batch] else []) + DeliveredBy(log[1..])
  {
    if |log| > 1 {
      DeliveredCons(Init(log));
      assert Init(log)[1..] == Init(log[1..]);
    }
  }
}
