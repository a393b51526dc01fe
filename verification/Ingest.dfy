/**
 How the HTTP sink classifies what came back from one POST (internal/ingest/http.go), and what that
 makes of the scheduler's trace of sends.
 */
module Ingest {
  import opened Wrappers
  import opened Sinks
  import opened Text
  import Backoff
  import Int64
  import opened Pipeline
  import opened PipelineSafety

  /** The body of a 200, once read. */
  datatype Body = Blank | NotJson | Json(droppedQuota: int)

  /** Everything one call of Send can meet. `httpDate` is what http.ParseTime makes of the
      Retry-After header, minus the current time. */
  datatype Exchange =
    | MarshalError
    | RequestError
    | TransportError
    | Response(status: int, body: Body, retryAfter: string, httpDate: Option<int>)

  const DEFAULT_RETRY_AFTER := 5 * Backoff.SECOND

  /** Nanoseconds; the product of int64 durations wraps around. */
  function ParseRetryAfter(header: string, httpDate: Option<int>): int {
    var v := TrimSpace(header);
    if v == "" then 0
    else
      match Atoi(v)
      case Some(secs) => if secs <= 0 then 0 else Int64.Wrap(secs * Backoff.SECOND)
      case None =>
        match httpDate
        case Some(d) => if d <= 0 then 0 else d
        case None => 0
  }

  function HandleTooMany(header: string, httpDate: Option<int>): int {
    var delay := ParseRetryAfter(header, httpDate);
    if delay <= 0 then DEFAULT_RETRY_AFTER else delay
  }

  function HandleOK(body: Body): Outcome {
    match body
    case Json(quota) => Accepted(quota)
    case _ => Accepted(0)
  }

  const PLAIN_ERROR := Refused(SendError(false, None))

  function Send(x: Exchange): Outcome {
    match x
    case MarshalError => Accepted(0)
    case RequestError => PLAIN_ERROR
    case TransportError => PLAIN_ERROR
    case Response(status, body, retryAfter, httpDate) =>
      if status == 200 then HandleOK(body)
      else if status == 404 then Refused(SendError(true, None))
      else if status == 429 then Refused(SendError(false, Some(HandleTooMany(retryAfter, httpDate))))
      else if status >= 500 then PLAIN_ERROR
      else if status >= 400 then Accepted(0)
      else if 200 <= status < 300 then Accepted(0)
      else PLAIN_ERROR
  }

  // ---------- Retry-After ----------

  /** The largest number of seconds that an int64 of nanoseconds can hold. */
  const MAX_SECONDS := 9_223_372_036

  lemma DeltaParsed(left: string, secs: nat, right: string, httpDate: Option<int>)
    requires Text.Blank(left) && Text.Blank(right) && secs <= Int64.MAX
    ensures ParseRetryAfter(left + Itoa(secs) + right, httpDate)
         == if secs == 0 then 0 else Int64.Wrap(secs * Backoff.SECOND)
  {
    var s := Itoa(secs);
    AtoiOfItoa(secs);
    assert Trimmed(s) by { assert s[0] in s && s[|s| - 1] in s; }
    TrimPadded(left, s, right);
  }

  /** A delta-seconds header, with any blanks around it, is taken at its word exactly when it is
      between 1 and MAX_SECONDS; whatever it says, the delay is positive. */
  lemma DeltaSeconds(left: string, secs: nat, right: string, httpDate: Option<int>)
    requires Text.Blank(left) && Text.Blank(right)
    requires secs <= Int64.MAX
    ensures HandleTooMany(left + Itoa(secs) + right, httpDate) == secs * Backoff.SECOND <==> 1 <= secs <= MAX_SECONDS
    ensures 0 < HandleTooMany(left + Itoa(secs) + right, httpDate) <= Int64.MAX
  {
    DeltaParsed(left, secs, right, httpDate);
    if 1 <= secs <= MAX_SECONDS { Int64.InRange(secs * Backoff.SECOND); }
  }

  /** What every Retry-After header comes to. A blank one, a number that is not positive, and what is
      neither a number nor a date in the future give five seconds, not the minimal back-off that the
      comment on RetryAfterError announces; a date in the future is taken at its word, and so is a
      positive number, up to the wrap-around of its product with a second. */
  lemma EveryRetryAfter(header: string, httpDate: Option<int>)
    ensures var v, delay := TrimSpace(header), HandleTooMany(header, httpDate);
            if v == "" then delay == 5_000_000_000
            else if Atoi(v).Some? then
              var wrapped := Int64.Wrap(Atoi(v).value * 1_000_000_000);
              delay == if Atoi(v).value > 0 && wrapped > 0 then wrapped else 5_000_000_000
            else delay == if httpDate.Some? && httpDate.value > 0 then httpDate.value else 5_000_000_000
    ensures Text.Blank(header) ==> HandleTooMany(header, httpDate) == 5_000_000_000 != Backoff.MIN_SEND_BACKOFF
    ensures HandleTooMany(header, httpDate) > 0
  {
    if Text.Blank(header) {
      TrimPadded(header, "", "");
      assert header + "" + "" == header;
    }
  }

  // ---------- the trace on the wire ----------

  /** The server, or the sink for it, took responsibility for the batch. */
  predicate Settles(x: Exchange) {
    || x.MarshalError?
    || (x.Response? && (200 <= x.status <= 299 || (400 <= x.status <= 499 && x.status !in {404, 429})))
  }

  predicate Revokes(x: Exchange) { x.Response? && x.status == 404 }

  datatype Post = Post(batch: nat, answer: Exchange)

  /** For each batch from `first` on: any number of exchanges that settle nothing, then one that
      settles it; the last block may be open, or closed by a 404. */
  predicate PostsInBlocks(posts: seq<Post>, first: nat) {
    posts == []
    || (&& posts[0].batch == first
        && if Settles(posts[0].answer) then PostsInBlocks(posts[1..], first + 1)
           else if Revokes(posts[0].answer) then |posts| == 1
           else PostsInBlocks(posts[1..], first))
  }

  /** The scheduler's log is what the sink made of these posts. */
  ghost predicate Explains(posts: seq<Post>, log: seq<Attempt>) {
    |posts| == |log|
    && forall k :: 0 <= k < |log| ==> log[k] == Attempt(posts[k].batch, Send(posts[k].answer))
  }

  /** In any run without overflow, under any schedule, the posts come batch by batch in push order. */
  lemma PostsComeInBlocks(cfg: Config, s: State, posts: seq<Post>)
    requires cfg.Valid() && Reachable(cfg, s) && s.q.dropped == 0
    requires Explains(posts, s.seen.log)
    ensures PostsInBlocks(posts, 0)
  {
    AnswersComeInBlocks(cfg, s);
    BlocksOnTheWire(posts, s.seen.log, 0);
  }

  lemma {:induction false} BlocksOnTheWire(posts: seq<Post>, log: seq<Attempt>, first: nat)
    requires Explains(posts, log) && InBlocks(log, first)
    ensures PostsInBlocks(posts, first)
  {
    if posts != [] {
      var x := posts[0].answer;
      assert log[0] == Attempt(posts[0].batch, Send(x));
      assert Explains(posts[1..], log[1..]);
      if !Revokes(x) {
        BlocksOnTheWire(posts[1..], log[1..], if Settles(x) then first + 1 else first);
      }
    }
  }

  /** Run returns an error if and only if some post was answered with 404. */
  lemma OnlyA404StopsTheAgent(cfg: Config, s: State, posts: seq<Post>)
    requires cfg.Valid() && Reachable(cfg, s) && s.run.Returned?
    requires Explains(posts, s.seen.log)
    ensures s.run.fatal <==>
              exists k :: 0 <= k < |posts| && posts[k].answer.Response? && posts[k].answer.status == 404
  {
    RunReportsFatal(cfg, s);
    if s.run.fatal {
      var a :| a in s.seen.log && a.outcome.Fatal();
      var k :| 0 <= k < |s.seen.log| && s.seen.log[k] == a;
      assert s.seen.log[k] == Attempt(posts[k].batch, Send(posts[k].answer));
      StatusTable(posts[k].answer);
    }
    forall k | 0 <= k < |posts| && Revokes(posts[k].answer)
      ensures s.run.fatal
    {
      assert s.seen.log[k] in s.seen.log && s.seen.log[k].outcome.Fatal();
    }
  }

  /** The status table, for every exchange: 2xx and the 4xx other than 404 and 429 are accepted, and so
      is a batch that cannot be marshalled; 404 is fatal; a 429 carries a positive delay, five seconds
      if its header is blank; anything else is a plain error. */
  lemma StatusTable(x: Exchange)
    ensures Send(x).Accepted? <==>
              || x.MarshalError?
              || (x.Response? && 200 <= x.status <= 299)
              || (x.Response? && 400 <= x.status <= 499 && x.status != 404 && x.status != 429)
    ensures Send(x) == Refused(SendError(true, None)) <==> x.Response? && x.status == 404
    ensures forall d :: Send(x) == Refused(SendError(false, Some(d))) <==>
              x.Response? && x.status == 429 && d == HandleTooMany(x.retryAfter, x.httpDate)
    ensures x.Response? && x.status == 429 ==>
              var d := HandleTooMany(x.retryAfter, x.httpDate);
              d > 0 && (Text.Blank(x.retryAfter) ==> d == 5_000_000_000)
    ensures Send(x) == Refused(SendError(false, None)) <==>
              || x.RequestError? || x.TransportError?
              || (x.Response? && (x.status < 200 || 300 <= x.status <= 399 || x.status >= 500))
    ensures forall quota :: quota != 0 ==>
              (Send(x) == Accepted(quota) <==> x.Response? && x.status == 200 && x.body == Json(quota))
  {
    if x.Response? { EveryRetryAfter(x.retryAfter, x.httpDate); }
  }

  // ---------- how long the sender sleeps ----------

  lemma DelayIsHalfKept(cfg: Config, s: State, delay: int, t: int)
    requires cfg.Valid() && Reachable(cfg, s) && s.sender.Sleeping?
    requires s.seen.log != [] && Last(s.seen.log).outcome == Refused(SendError(false, Some(delay)))
    requires MaySleep(s, t)
    ensures t >= Backoff.Min(delay, Backoff.MAX_SEND_BACKOFF) / 2
  {
    SleepFollowsTheStreak(cfg, s);
    assert Last(Streak(s.seen.log)) == Some(delay);
    Backoff.HalfOfTheDelay(Streak(s.seen.log), delay, t);
  }

  /** After any 429, under any schedule and whatever failed before, the sender sleeps at least half of
      the delay that the sink made of it; a delay above five minutes counts as five minutes. */
  lemma RateLimitIsHalfKept(cfg: Config, s: State, posts: seq<Post>, t: int)
    requires cfg.Valid() && Reachable(cfg, s) && s.sender.Sleeping?
    requires posts != [] && Explains(posts, s.seen.log)
    requires Last(posts).answer.Response? && Last(posts).answer.status == 429
    requires MaySleep(s, t)
    ensures var x := Last(posts).answer;
            t >= Backoff.Min(HandleTooMany(x.retryAfter, x.httpDate), Backoff.MAX_SEND_BACKOFF) / 2
  {
    var x := Last(posts).answer;
    assert Last(s.seen.log) == Attempt(Last(posts).batch, Send(x));
    DelayIsHalfKept(cfg, s, HandleTooMany(x.retryAfter, x.httpDate), t);
  }

  /** Nothing settled, nothing fatal, and no 429: a network error, a 5xx, or a status without a row. */
  predicate FailsPlainly(x: Exchange) {
    !Settles(x) && !Revokes(x) && !(x.Response? && x.status == 429)
  }

  /** The last k posts failed plainly, and the one before them, if there is one, settled its batch. */
  ghost predicate Outage(posts: seq<Post>, k: nat) {
    && 1 <= k <= |posts|
    && (forall i :: |posts| - k <= i < |posts| ==> FailsPlainly(posts[i].answer))
    && (k < |posts| ==> Settles(posts[|posts| - k - 1].answer))
  }

  /** After a plain failure any sleep up to the back-off is possible, however short, and no other; and k
      of them in a row make that back-off min(2^(k-1), 300) seconds, whatever happened before. */
  lemma OutageSleeps(cfg: Config, s: State, posts: seq<Post>)
    requires cfg.Valid() && Reachable(cfg, s) && s.sender.Sleeping?
    requires posts != [] && Explains(posts, s.seen.log) && FailsPlainly(Last(posts).answer)
    ensures forall t :: MaySleep(s, t) <==> 0 <= t <= s.backoff
    ensures forall k: nat :: Outage(posts, k) ==>
              s.backoff == Backoff.Min(Backoff.Pow2(k - 1) * 1_000_000_000, 300_000_000_000)
  {
    SleepFollowsTheStreak(cfg, s);
    assert Last(s.seen.log) == Attempt(Last(posts).batch, Send(Last(posts).answer));
    forall k: nat | Outage(posts, k)
      ensures s.backoff == Backoff.Min(Backoff.Pow2(k - 1) * 1_000_000_000, 300_000_000_000)
    {
      OutageStreak(posts, s.seen.log, k);
      Backoff.PlainStreak(k);
    }
  }

  lemma {:induction false} OutageStreak(posts: seq<Post>, log: seq<Attempt>, k: nat)
    requires Outage(posts, k) && Explains(posts, log)
    ensures Streak(log) == seq(k, _ => None)
  {
    var n := |posts| - 1;
    assert log[n] == Attempt(posts[n].batch, Send(posts[n].answer));
    assert Explains(Init(posts), Init(log));
    if k > 1 {
      OutageStreak(Init(posts), Init(log), k - 1);
    } else if n > 0 {
      assert Settles(posts[n - 1].answer) && Last(Init(log)).outcome.Accepted?;
    }
  }
}
