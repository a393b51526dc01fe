/**
 One scrape (internal/collector/registry.go): concatenate what the collectors returned, keep the
 allowed names, merge the static labels. The filter overwrites the array it reads, and several
 samples may share one mutable label map, as the disk and net collectors make them do.
 */
module Registry {
  import opened Wrappers
  import BatchBuffer

  type Labels = map<string, string>

  class LabelMap {
    var m: Labels

    constructor (m: Labels)
      ensures this.m == m
    {
      this.m := m;
    }
  }

  /** The value is only ever copied. */
  datatype Sample = Sample(name: string, value: real, labels: LabelMap?)

  /** What one collector returned: samples, and possibly an error besides. */
  datatype Collected = Collected(collector: string, samples: seq<Sample>, err: Option<string>)

  function Concat(results: seq<Collected>): (all: seq<Sample>)
    ensures forall s :: s in all ==> exists i :: 0 <= i < |results| && s in results[i].samples
  {
    if results == [] then [] else Concat(results[..|results| - 1]) + results[|results| - 1].samples
  }

  function Errors(results: seq<Collected>): seq<(string, string)> {
    if results == [] then []
    else
      var last := results[|results| - 1];
      Errors(results[..|results| - 1]) + if last.err.Some? then [(last.collector, last.err.value)] else []
  }

  /** How many samples the first n collectors returned. */
  function SamplesBefore(results: seq<Collected>, n: nat): nat
    requires n <= |results|
  {
    if n == 0 then 0 else SamplesBefore(results, n - 1) + |results[n - 1].samples|
  }

  /** How many of the first n collectors reported an error. */
  function ErrorsBefore(results: seq<Collected>, n: nat): nat
    requires n <= |results|
  {
    if n == 0 then 0 else ErrorsBefore(results, n - 1) + if results[n - 1].err.Some? then 1 else 0
  }

  /** Every collector's samples stand in the order of the collectors, also those of a collector that
      reported an error besides; and nothing else is there. */
  lemma {:induction false} ConcatAt(results: seq<Collected>, n: nat)
    requires n <= |results|
    ensures |Concat(results)| == SamplesBefore(results, |results|)
    ensures n < |results| ==>
              && SamplesBefore(results, n) + |results[n].samples| <= |Concat(results)|
              && Concat(results)[SamplesBefore(results, n)..SamplesBefore(results, n) + |results[n].samples|]
                 == results[n].samples
  {
    if results != [] {
      var init, last := results[..|results| - 1], results[|results| - 1];
      SamplesPrefix(results, |init|);
      ConcatAt(init, if n < |init| then n else 0);
      if n < |init| {
        SamplesPrefix(results, n);
        assert init[n] == results[n];
        BlockStays(Concat(init), last.samples, SamplesBefore(init, n), |results[n].samples|);
      } else {
        BlockAdded(Concat(init), last.samples);
      }
    }
  }

  lemma BlockStays<T>(s: seq<T>, more: seq<T>, at: nat, len: nat)
    requires at + len <= |s|
    ensures (s + more)[at..at + len] == s[at..at + len]
  {
  }

  lemma BlockAdded<T>(s: seq<T>, more: seq<T>)
    ensures (s + more)[|s|..|s| + |more|] == more
  {
  }

  lemma {:induction false} SamplesPrefix(results: seq<Collected>, n: nat)
    requires n < |results|
    ensures SamplesBefore(results[..|results| - 1], n) == SamplesBefore(results, n)
  {
    if n > 0 { SamplesPrefix(results, n - 1); }
  }

  /** Every error is reported once, with its collector, in the order of the collectors. */
  lemma {:induction false} ErrorsAt(results: seq<Collected>, n: nat)
    requires n <= |results|
    ensures |Errors(results)| == ErrorsBefore(results, |results|)
    ensures n < |results| && results[n].err.Some? ==>
              && ErrorsBefore(results, n) < |Errors(results)|
              && Errors(results)[ErrorsBefore(results, n)] == (results[n].collector, results[n].err.value)
  {
    if results != [] {
      var init := results[..|results| - 1];
      ErrorsPrefix(results, |init|);
      ErrorsAt(init, if n < |init| then n else 0);
      if n < |init| {
        ErrorsPrefix(results, n);
        assert init[n] == results[n];
      }
    }
  }

  lemma {:induction false} ErrorsPrefix(results: seq<Collected>, n: nat)
    requires n < |results|
    ensures ErrorsBefore(results[..|results| - 1], n) == ErrorsBefore(results, n)
  {
    if n > 0 { ErrorsPrefix(results, n - 1); }
  }

  /** The samples whose names are allowed, in order; an empty allowlist allows everything. */
  function Kept(samples: seq<Sample>, allowlist: set<string>): (kept: seq<Sample>)
    ensures forall s :: s in kept ==> s in samples
  {
    if allowlist == {} then samples
    else if samples == [] then []
    else
      var last := samples[|samples| - 1];
      Kept(samples[..|samples| - 1], allowlist) + if last.name in allowlist then [last] else []
  }

  /** Filtering drops exactly the samples whose names are not allowed, and keeps order and multiplicity;
      with the empty allowlist, the default, it drops nothing. */
  lemma KeptIsFilter(samples: seq<Sample>, allowlist: set<string>, x: Sample)
    ensures BatchBuffer.Subsequence(Kept(samples, allowlist), samples)
    ensures multiset(Kept(samples, allowlist))[x] ==
            if allowlist == {} || x.name in allowlist then multiset(samples)[x] else 0
    ensures allowlist == {} ==> Kept(samples, allowlist) == samples
  {
    KeptInOrder(samples, allowlist);
    KeptCounts(samples, allowlist, x);
  }

  lemma {:induction false} KeptInOrder(samples: seq<Sample>, allowlist: set<string>)
    ensures BatchBuffer.Subsequence(Kept(samples, allowlist), samples)
  {
    if allowlist == {} {
      BatchBuffer.SubsequenceOfItself(samples);
    } else if samples != [] {
      var init, last := samples[..|samples| - 1], samples[|samples| - 1];
      var kept := Kept(init, allowlist);
      KeptInOrder(init, allowlist);
      assert samples == init + [last];
      if last.name in allowlist {
        BatchBuffer.SubsequenceSnoc(kept, init, last);
      } else {
        BatchBuffer.SubsequenceGrows(kept, init, last);
        assert kept + [] == kept;
      }
    }
  }

  lemma {:induction false} KeptCounts(samples: seq<Sample>, allowlist: set<string>, x: Sample)
    ensures multiset(Kept(samples, allowlist))[x] ==
            if allowlist == {} || x.name in allowlist then multiset(samples)[x] else 0
  {
    if allowlist != {} && samples != [] {
      KeptCounts(samples[..|samples| - 1], allowlist, x);
      assert samples == samples[..|samples| - 1] + [samples[|samples| - 1]];
    }
  }

  /** The labels a sample has on the wire; `None` is Go's nil map. */
  ghost function LabelsOf(s: Sample): Option<Labels>
    reads if s.labels == null then {} else {s.labels}
  {
    if s.labels == null then None else Some(s.labels.m)
  }

  ghost function Maps(samples: seq<Sample>): set<LabelMap> {
    set s | s in samples && s.labels != null :: s.labels
  }

  ghost function LabelsAt(samples: seq<Sample>, i: nat): Option<Labels>
    requires i < |samples|
    reads Maps(samples)
  {
    LabelsOf(samples[i])
  }

  /** A sample's own labels win over the static ones. */
  function Merged(fixed: Labels, own: Option<Labels>): Option<Labels> {
    if fixed == map[] then own
    else Some(fixed + match own case Some(m) => m case None => map[])
  }

  /** Each label of both is there, the sample's own value where both have one. Without static labels
      nothing changes; in particular a nil map stays nil. */
  lemma MergedPrefersOwn(fixed: Labels, own: Option<Labels>, k: string)
    ensures Merged(fixed, own) == None <==> fixed == map[] && own == None
    ensures fixed == map[] ==> Merged(fixed, own) == own
    ensures var mine := if own.Some? then own.value else map[];
            var all := if Merged(fixed, own).Some? then Merged(fixed, own).value else map[];
            && (k in all <==> k in fixed || k in mine)
            && (k in mine ==> all[k] == mine[k])
            && (k in fixed && k !in mine ==> all[k] == fixed[k])
  {
  }

  class Registry {
    const labels: Labels
    const allowlist: set<string>

    constructor (labels: Labels, allowlist: seq<string>)
      ensures this.labels == labels && this.allowlist == set n | n in allowlist
    {
      this.labels := labels;
      this.allowlist := set n | n in allowlist;
    }

    /** `out := samples[:0]`, in the array of the first n samples. */
    method ApplyAllowlist(backing: array<Sample>, n: nat) returns (kept: nat)
      requires n <= backing.Length
      modifies backing
      ensures kept <= n
      ensures backing[..kept] == Kept(old(backing[..n]), allowlist)
      ensures backing[kept..] == old(backing[kept..])
    {
      if allowlist == {} {
        return n;
      }
      kept := 0;
      for i := 0 to n
        invariant kept <= i
        invariant backing[..kept] == Kept(old(backing[..i]), allowlist)
        invariant backing[kept..] == old(backing[kept..])
      {
        var s := backing[i];
        assert s == old(backing[i]) by { assert backing[kept..][i - kept] == old(backing[kept..])[i - kept]; }
        assert old(backing[..i + 1])[..i] == old(backing[..i]);
        if s.name in allowlist {
          backing[kept] := s;
          kept := kept + 1;
        }
      }
    }

    /** The inner loop, in whatever order the keys come. */
    method MergeInto(own: LabelMap)
      modifies own
      ensures own.m == labels + old(own.m)
    {
      var todo := labels.Keys;
      while todo != {}
        invariant todo <= labels.Keys
        invariant own.m == (labels - todo) + old(own.m)
      {
        var k :| k in todo;
        if k !in own.m {
          own.m := own.m[k := labels[k]];
        }
        todo := todo - {k};
      }
      assert labels - {} == labels;
    }

    /** One round of the outer loop: a nil map is made first. */
    method Label(s: Sample) returns (t: Sample)
      modifies if s.labels == null then {} else {s.labels}
      ensures t == s.(labels := t.labels) && t.labels != null
      ensures if s.labels == null then fresh(t.labels) else t.labels == s.labels
      ensures t.labels.m == labels + if s.labels == null then map[] else old(s.labels.m)
    {
      t := s;
      if s.labels == null {
        var empty := new LabelMap(map[]);
        t := s.(labels := empty);
      }
      MergeInto(t.labels);
    }

    method ApplyStaticLabels(backing: array<Sample>, n: nat)
      requires n <= backing.Length
      modifies backing, Maps(backing[..n])
      ensures backing[n..] == old(backing[n..])
      ensures forall i :: 0 <= i < n ==>
                && backing[i].name == old(backing[i].name)
                && backing[i].value == old(backing[i].value)
                && LabelsOf(backing[i]) == Merged(labels, old(LabelsOf(backing[i])))
    {
      if labels == map[] {
        return;
      }
      ghost var all := backing[..n];
      ghost var was := map m | m in Maps(all) :: m.m;
      LabelAll(backing, n, was);
      forall i | 0 <= i < n
        ensures LabelsOf(backing[i]) == Merged(labels, old(LabelsOf(backing[i])))
      {
        assert all[i].labels == null ==> labels + map[] == labels;
      }
    }

    /** The outer loop; `was` is what the label maps hold at first. */
    method LabelAll(backing: array<Sample>, n: nat, ghost was: map<LabelMap, Labels>)
      requires n <= backing.Length
      requires forall m :: m in was ==> allocated(m) && m.m == was[m]
      requires forall i :: 0 <= i < n && backing[i].labels != null ==> backing[i].labels in was
      modifies backing, was.Keys
      ensures backing[n..] == old(backing[n..])
      ensures forall i :: 0 <= i < n ==> Labelled(backing[i], old(backing[i]), was)
    {
      for i := 0 to n
        invariant forall j :: i <= j < backing.Length ==> backing[j] == old(backing[j])
        invariant forall m :: m in was ==> m.m == was[m] || m.m == labels + was[m]
        invariant forall j :: 0 <= j < i ==> Labelled(backing[j], old(backing[j]), was)
      {
        LabelSlot(backing, i, was);
      }
    }

    method LabelSlot(backing: array<Sample>, i: nat, ghost was: map<LabelMap, Labels>)
      requires i < backing.Length
      requires var own := backing[i].labels;
               own == null || (own in was && (own.m == was[own] || own.m == labels + was[own]))
      requires forall m :: m in was ==> allocated(m)
      modifies backing, if backing[i].labels == null then {} else {backing[i].labels}
      ensures forall j :: 0 <= j < backing.Length && j != i ==> backing[j] == old(backing[j])
      ensures Labelled(backing[i], old(backing[i]), was)
      ensures old(backing[i]).labels == null ==> fresh(backing[i].labels)
    {
      var t := Label(backing[i]);
      backing[i] := t;
    }

    /** t is s with the static labels, given what the label maps were at first. */
    ghost predicate Labelled(t: Sample, s: Sample, was: map<LabelMap, Labels>)
      reads if t.labels == null then {} else {t.labels}
    {
      && t == s.(labels := t.labels)
      && t.labels != null
      && if s.labels == null then t.labels !in was && t.labels.m == labels
         else t.labels == s.labels && s.labels in was && t.labels.m == labels + was[s.labels]
    }

    /** The loop over the collectors. */
    method Collect(results: seq<Collected>) returns (all: seq<Sample>, errs: seq<(string, string)>)
      ensures all == Concat(results) && errs == Errors(results)
    {
      all, errs := [], [];
      for i := 0 to |results|
        invariant all == Concat(results[..i]) && errs == Errors(results[..i])
      {
        assert results[..i + 1][..i] == results[..i];
        var c := results[i];
        if c.err.Some? {
          errs := errs + [(c.collector, c.err.value)];
        }
        all := all + c.samples;
      }
      assert results[..|results|] == results;
    }

    /** The result is the pure pipeline, in spite of the shared array and the shared maps. */
    method Scrape(results: seq<Collected>) returns (metrics: seq<Sample>, errs: seq<(string, string)>)
      modifies Maps(Concat(results))
      ensures errs == Errors(results)
      ensures var kept := Kept(Concat(results), allowlist);
              && |metrics| == |kept|
              && forall i :: 0 <= i < |kept| ==>
                   && metrics[i].name == kept[i].name
                   && metrics[i].value == kept[i].value
                   && LabelsOf(metrics[i]) == Merged(labels, old(LabelsAt(Kept(Concat(results), allowlist), i)))
    {
      var all;
      all, errs := Collect(results);
      var backing := new Sample[|all|](i requires 0 <= i < |all| => all[i]);
      assert backing[..|all|] == all;
      var n := ApplyAllowlist(backing, |all|);
      ghost var kept := backing[..n];
      ApplyStaticLabels(backing, n);
      metrics := backing[..n];
      forall i | 0 <= i < n
        ensures LabelsOf(metrics[i]) == Merged(labels, old(LabelsAt(Kept(Concat(results), allowlist), i)))
      {
        assert metrics[i] == backing[i] && kept[i] in Concat(results);
      }
    }
  }
}
