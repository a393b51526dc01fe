/** The update check and its de-duplication (internal/updater/updater.go). */
module Updater {
  import opened Wrappers
  import opened Semver
  import BatchBuffer
  import Text

  /** What the server answers: `None` stands for every failure to get and decode a 200. */
  type Reply = Option<string>

  /** fetch: a blank version is a failure too. */
  function Fetched(reply: Reply): Reply {
    if reply.Some? && Text.TrimSpace(reply.value) == "" then None else reply
  }

  /** The reply announces a release newer than the running version. */
  predicate Announces(current: Version, reply: Reply) {
    var tag := Fetched(reply);
    tag.Some? && Parse(tag.value).Ok? && IsNewer(current, Parse(tag.value).value)
  }

  /** The raw tags of the replies that announce something, in order. */
  function NewerTags(current: Version, replies: seq<Reply>): seq<string> {
    if replies == [] then []
    else NewerTags(current, replies[..|replies| - 1])
         + if Announces(current, replies[|replies| - 1]) then [replies[|replies| - 1].value] else []
  }

  /** Without the entries that repeat the entry before them. */
  function Dedup(tags: seq<string>): seq<string> {
    if |tags| < 2 then tags
    else Dedup(tags[..|tags| - 1])
         + if tags[|tags| - 1] == tags[|tags| - 2] then [] else [tags[|tags| - 1]]
  }

  lemma TagsGrow(current: Version, replies: seq<Reply>, reply: Reply)
    ensures NewerTags(current, replies + [reply])
         == NewerTags(current, replies) + if Announces(current, reply) then [reply.value] else []
  {
    assert (replies + [reply])[..|replies|] == replies;
  }

  lemma LinesGrow(tags: seq<string>, tag: string)
    ensures Dedup(tags + [tag]) == Dedup(tags) + if tags != [] && tags[|tags| - 1] == tag then [] else [tag]
  {
    assert (tags + [tag])[..|tags|] == tags;
  }

  class Updater {
    const currentRaw: string
    const running: Result<Version, VersionError>   // Err: canCheck is false
    var lastSeenLatest: string
    var lines: seq<string>                          // latest_version of each update.available line
    ghost var answered: seq<Reply>                  // the replies checked so far

    /** The log and the de-duplication state are a function of the replies. */
    ghost predicate Valid()
      reads this
    {
      if running.Err? then lines == []
      else
        var tags := NewerTags(running.value, answered);
        && lines == Dedup(tags)
        && lastSeenLatest == if tags == [] then "" else tags[|tags| - 1]
    }

    constructor (currentVersion: string)
      ensures Valid() && answered == []
      ensures currentRaw == currentVersion && running == Parse(currentVersion)
    {
      currentRaw := currentVersion;
      running := Parse(currentVersion);
      lastSeenLatest, lines, answered := "", [], [];
    }

    /** The de-duplication, given the tags announced so far. */
    method Note(tag: string, ghost tags: seq<string>)
      requires tag != "" && lines == Dedup(tags)
      requires lastSeenLatest == if tags == [] then "" else tags[|tags| - 1]
      modifies this`lines, this`lastSeenLatest
      ensures lines == Dedup(tags + [tag]) && lastSeenLatest == tag
    {
      LinesGrow(tags, tag);
      var first := lastSeenLatest != tag;
      lastSeenLatest := tag;
      if !first {
        return;
      }
      lines := lines + [tag];
    }

    /** Is there a release to announce? */
    method Newer(reply: Reply) returns (news: bool)
      requires running.Ok?
      ensures news == Announces(running.value, reply)
      ensures news ==> reply.value != ""
    {
      if reply.None? || Text.TrimSpace(reply.value) == "" {
        return false;
      }
      var latest := Parse(reply.value);
      if latest.Err? {
        return false;
      }
      return IsNewer(running.value, latest.value);
    }

    method CheckOnce(reply: Reply)
      requires Valid() && running.Ok?
      modifies this
      ensures Valid() && answered == old(answered) + [reply]
      ensures if && reply.Some? && Parse(reply.value).Ok? && IsNewer(running.value, Parse(reply.value).value)
                 && old(lastSeenLatest) != reply.value
              then lines == old(lines) + [reply.value] && lastSeenLatest == reply.value
              else lines == old(lines) && lastSeenLatest == old(lastSeenLatest)
    {
      AnnouncesIff(running.value, reply);
      ghost var tags := NewerTags(running.value, answered);
      TagsGrow(running.value, answered, reply);
      var news := Newer(reply);
      answered := answered + [reply];
      if news {
        Note(reply.value, tags);
      } else {
        assert tags + [] == tags;
      }
    }

    /** One check per tick of the timer, until the context ends; none if the running version does
        not parse. */
    method Run(replies: seq<Reply>)
      requires Valid()
      modifies this
      ensures Valid()
      ensures answered == old(answered) + if running.Ok? then replies else []
    {
      if running.Err? {
        return;
      }
      for i := 0 to |replies|
        invariant Valid() && answered == old(answered) + replies[..i]
      {
        CheckOnce(replies[i]);
      }
      assert replies[..|replies|] == replies;
    }
  }

  ghost predicate NoAdjacentRepeats(tags: seq<string>) {
    forall i :: 0 < i < |tags| ==> tags[i - 1] != tags[i]
  }

  /** Exactly when a reply adds a line, and which: when it carries a version that parses and is newer than
      the running one, and the last line is not the same. So the lines are determined for every run of
      replies, and keep their order. */
  lemma LinesStep(current: Version, replies: seq<Reply>, r: Reply)
    ensures var before, after := Dedup(NewerTags(current, replies)), Dedup(NewerTags(current, replies + [r]));
            if && r.Some? && Parse(r.value).Ok? && IsNewer(current, Parse(r.value).value)
               && (before == [] || before[|before| - 1] != r.value)
            then after == before + [r.value]
            else after == before
  {
    AnnouncesIff(current, r);
    TagsGrow(current, replies, r);
    DedupStep(NewerTags(current, replies), Announces(current, r), if r.Some? then r.value else "");
  }

  lemma AnnouncesIff(current: Version, r: Reply)
    ensures Announces(current, r) <==> r.Some? && Parse(r.value).Ok? && IsNewer(current, Parse(r.value).value)
  {
  }

  lemma DedupStep(tags: seq<string>, announced: bool, tag: string)
    ensures var before, after := Dedup(tags), Dedup(tags + if announced then [tag] else []);
            if announced && (before == [] || before[|before| - 1] != tag) then after == before + [tag]
            else after == before
  {
    DedupKeeps(tags);
    if announced {
      LinesGrow(tags, tag);
    } else {
      assert tags + [] == tags;
    }
  }

  /** Every line names a release strictly newer than the running one, announced by some reply; the lines
      come in the order of the replies; no line repeats the one before it; and every reply with a
      newer release has its line. */
  lemma {:induction false} LinesAreNews(current: Version, replies: seq<Reply>)
    ensures var lines := Dedup(NewerTags(current, replies));
            && NoAdjacentRepeats(lines)
            && BatchBuffer.Subsequence(Announced(lines), replies)
            && (forall tag :: tag in lines ==>
                  Some(tag) in replies && Parse(tag).Ok? && IsNewer(current, Parse(tag).value))
            && (forall r :: r in replies && r.Some? && Parse(r.value).Ok? && IsNewer(current, Parse(r.value).value) ==>
                  r.value in lines)
  {
    var tags := NewerTags(current, replies);
    DedupKeeps(tags);
    TagsAreAnnounced(current, replies);
    LinesKeepOrder(current, replies);
  }

  /** The replies that carry these tags. */
  function Announced(tags: seq<string>): seq<Reply> {
    seq(|tags|, i requires 0 <= i < |tags| => Some(tags[i]))
  }

  lemma OrderStep(before: seq<string>, after: seq<string>, init: seq<Reply>, r: Reply)
    requires BatchBuffer.Subsequence(Announced(before), init)
    requires after == before || (r.Some? && after == before + [r.value])
    ensures BatchBuffer.Subsequence(Announced(after), init + [r])
  {
    if after == before {
      BatchBuffer.SubsequenceGrows(Announced(before), init, r);
    } else {
      BatchBuffer.SubsequenceSnoc(Announced(before), init, r);
      assert Announced(before + [r.value]) == Announced(before) + [r];
    }
  }

  lemma {:induction false} LinesKeepOrder(current: Version, replies: seq<Reply>)
    ensures BatchBuffer.Subsequence(Announced(Dedup(NewerTags(current, replies))), replies)
  {
    if replies != [] {
      var init, r := replies[..|replies| - 1], replies[|replies| - 1];
      LinesKeepOrder(current, init);
      assert replies == init + [r];
      LinesStep(current, init, r);
      OrderStep(Dedup(NewerTags(current, init)), Dedup(NewerTags(current, replies)), init, r);
    }
  }

  lemma {:induction false} DedupKeeps(tags: seq<string>)
    ensures NoAdjacentRepeats(Dedup(tags))
    ensures forall t :: t in Dedup(tags) <==> t in tags
    ensures tags != [] ==> Dedup(tags) != [] && Dedup(tags)[|Dedup(tags)| - 1] == tags[|tags| - 1]
  {
    if |tags| >= 2 {
      var init := tags[..|tags| - 1];
      DedupKeeps(init);
      assert tags == init + [tags[|tags| - 1]];
    }
  }

  lemma {:induction false} TagsAreAnnounced(current: Version, replies: seq<Reply>)
    ensures forall t :: t in NewerTags(current, replies) <==> Some(t) in replies && Announces(current, Some(t))
  {
    if replies != [] {
      var init, last := replies[..|replies| - 1], replies[|replies| - 1];
      TagsAreAnnounced(current, init);
      assert replies == init + [last];
    }
  }
}
