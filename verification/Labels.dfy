/** The parsers of VIGIL_LABELS and VIGIL_METRICS_ALLOWLIST (internal/config/load.go). */
module Labels {
  import opened Wrappers
  import opened Text
  import BatchBuffer

  datatype LabelError = NotKeyValue(pair: string) | EmptyKey(pair: string)

  type Parsed = Result<map<string, string>, LabelError>

  /** What one comma-separated entry does to the map built so far. */
  function AddPair(entry: string, out: map<string, string>): Parsed {
    var pair := TrimSpace(entry);
    if pair == "" then Ok(out)
    else
      var eq := IndexOf(pair, '=');
      if eq <= 0 then Err(NotKeyValue(pair))
      else
        var k, v := TrimSpace(pair[..eq]), TrimSpace(pair[eq + 1..]);
        if k == "" then Err(EmptyKey(pair)) else Ok(out[k := v])
  }

  function AddPairs(entries: seq<string>, out: map<string, string>): Parsed {
    if entries == [] then Ok(out)
    else
      match AddPair(entries[0], out)
      case Err(e) => Err(e)
      case Ok(more) => AddPairs(entries[1..], more)
  }

  function Parse(s: string): Parsed {
    AddPairs(Split(s, ','), map[])
  }

  lemma AddPairsAt(entries: seq<string>, i: nat, out: map<string, string>)
    requires i < |entries|
    ensures AddPairs(entries[i..], out) ==
            match AddPair(entries[i], out)
            case Err(e) => Err(e)
            case Ok(more) => AddPairs(entries[i + 1..], more)
  {
    assert entries[i..][1..] == entries[i + 1..];
  }

  method ParseLabelsString(s: string) returns (r: Parsed)
    ensures r == Parse(s)
  {
    var out: map<string, string> := map[];
    var entries := Split(s, ',');
    for i := 0 to |entries|
      invariant Parse(s) == AddPairs(entries[i..], out)
    {
      AddPairsAt(entries, i, out);
      var pair := TrimSpace(entries[i]);
      if pair == "" {
        continue;
      }
      var eq := IndexOf(pair, '=');
      if eq <= 0 {
        return Err(NotKeyValue(pair));
      }
      var k := TrimSpace(pair[..eq]);
      var v := TrimSpace(pair[eq + 1..]);
      if k == "" {
        return Err(EmptyKey(pair));
      }
      out := out[k := v];
    }
    return Ok(out);
  }

  // ---------- printing ----------

  ghost predicate ValidKey(k: string) {
    k != "" && Trimmed(k) && ',' !in k && '=' !in k
  }

  ghost predicate ValidValue(v: string) {
    Trimmed(v) && ',' !in v
  }

  /** One entry as an operator may write it: only blanks, or key=value with blanks around both. */
  datatype Entry =
    | Nothing(blanks: string)
    | Pair(left: string, key: string, beforeEq: string, afterEq: string, value: string, right: string)
  {
    ghost predicate Valid() {
      match this
      case Nothing(blanks) => Blank(blanks)
      case Pair(l, k, b, a, v, r) => Blank(l) && Blank(b) && Blank(a) && Blank(r) && ValidKey(k) && ValidValue(v)
    }

    function Print(): string {
      match this
      case Nothing(blanks) => blanks
      case Pair(l, k, b, a, v, r) => l + k + b + "=" + a + v + r
    }
  }

  function PrintAll(entries: seq<Entry>): seq<string> {
    if entries == [] then [] else [entries[0].Print()] + PrintAll(entries[1..])
  }

  /** The map an operator means: the last duplicate of a key wins. */
  function Meaning(entries: seq<Entry>, start: map<string, string>): map<string, string> {
    if entries == [] then start
    else Meaning(entries[1..], if entries[0].Pair? then start[entries[0].key := entries[0].value] else start)
  }

  lemma NoComma(e: Entry)
    requires e.Valid()
    ensures ',' !in e.Print()
  {
    assert !IsSpace(',');
  }

  /** A trimmed key=value text is taken apart at its first '='. */
  lemma TakenApart(key: string, b: string, a: string, value: string)
    requires Blank(b) && Blank(a) && ValidKey(key) && ValidValue(value)
    ensures var pair := key + b + ['='] + (a + value);
            && IndexOf(pair, '=') == |key + b| > 0
            && TrimSpace(pair[..|key + b|]) == key
            && TrimSpace(pair[|key + b| + 1..]) == value
  {
    assert !IsSpace('=');
    var pair := key + b + ['='] + (a + value);
    FirstIndex(key + b, '=', a + value);
    TrimPadded("", key, b);
    assert "" + key + b == pair[..|key + b|];
    TrimPadded(a, value, "");
    assert a + value + "" == pair[|key + b| + 1..];
  }

  lemma PairIsAdded(e: Entry, out: map<string, string>)
    requires e.Valid()
    ensures AddPair(e.Print(), out) == Ok(if e.Pair? then out[e.key := e.value] else out)
  {
    match e
    case Nothing(blanks) =>
      TrimPadded(blanks, "", "");
      assert blanks + "" + "" == blanks;
    case Pair(l, k, b, a, v, r) =>
      // when the value is empty, the blanks after the '=' are padding of the whole entry
      var inner, pad := if v == "" then "" else a, if v == "" then a + r else r;
      var pair := k + b + ['='] + (inner + v);
      assert e.Print() == l + pair + pad;
      assert Trimmed(pair) by { assert !IsSpace('='); }
      TrimPadded(l, pair, pad);
      TakenApart(k, b, inner, v);
  }

  lemma {:induction false} PairsAreAdded(entries: seq<Entry>, out: map<string, string>)
    requires forall e :: e in entries ==> e.Valid()
    ensures AddPairs(PrintAll(entries), out) == Ok(Meaning(entries, out))
    ensures |PrintAll(entries)| == |entries|
    ensures forall p :: p in PrintAll(entries) ==> ',' !in p
    decreases |entries|
  {
    if entries != [] {
      PairIsAdded(entries[0], out);
      NoComma(entries[0]);
      PairsAreAdded(entries[1..], if entries[0].Pair? then out[entries[0].key := entries[0].value] else out);
      assert PrintAll(entries)[1..] == PrintAll(entries[1..]);
    }
  }

  /** The i-th entry is the last one with the key k. */
  ghost predicate IsLast(entries: seq<Entry>, i: int, k: string) {
    && 0 <= i < |entries|
    && entries[i].Pair? && entries[i].key == k
    && forall j :: i < j < |entries| && entries[j].Pair? ==> entries[j].key != k
  }

  lemma {:induction false} MeaningSnoc(entries: seq<Entry>, e: Entry, start: map<string, string>)
    ensures Meaning(entries + [e], start)
         == if e.Pair? then Meaning(entries, start)[e.key := e.value] else Meaning(entries, start)
    decreases |entries|
  {
    if entries == [] {
      assert entries + [e] == [e] && [e][1..] == [];
    } else {
      assert (entries + [e])[1..] == entries[1..] + [e];
      MeaningSnoc(entries[1..], e, if entries[0].Pair? then start[entries[0].key := entries[0].value] else start);
    }
  }

  lemma LastBefore(init: seq<Entry>, e: Entry, i: int, k: string)
    requires !(e.Pair? && e.key == k)
    ensures IsLast(init + [e], i, k) <==> IsLast(init, i, k)
  {
    var entries := init + [e];
    assert forall j :: 0 <= j < |init| ==> entries[j] == init[j];
    if IsLast(entries, i, k) {
      assert i < |init|;
      forall j | i < j < |init| && init[j].Pair?
        ensures init[j].key != k
      {
        assert entries[j].key != k;
      }
    }
  }

  /** A key has the value of its last entry, and there are no other keys. */
  lemma {:induction false} LastDuplicateWins(entries: seq<Entry>, k: string)
    ensures k in Meaning(entries, map[]) <==> exists i :: IsLast(entries, i, k)
    ensures forall i :: IsLast(entries, i, k) ==> Meaning(entries, map[])[k] == entries[i].value
  {
    if entries != [] {
      var n := |entries| - 1;
      var init, e := entries[..n], entries[n];
      assert entries == init + [e];
      MeaningSnoc(init, e, map[]);
      LastDuplicateWins(init, k);
      if e.Pair? && e.key == k {
        assert IsLast(entries, n, k) && forall i :: IsLast(entries, i, k) ==> i == n;
      } else {
        forall i
          ensures IsLast(entries, i, k) <==> IsLast(init, i, k)
        {
          LastBefore(init, e, i, k);
        }
      }
    }
  }

  /** Parsing undoes printing, whatever the padding, the empty entries and the duplicates. */
  lemma ParseOfPrint(entries: seq<Entry>)
    requires forall e :: e in entries ==> e.Valid()
    ensures Parse(Join(PrintAll(entries), ',')) == Ok(Meaning(entries, map[]))
  {
    PairsAreAdded(entries, map[]);
    if entries == [] {
      assert IndexOf("", ',') < 0 && AddPair("", map[]) == Ok(map[]);
      assert Split("", ',')[1..] == [];
    } else {
      SplitOfJoin(PrintAll(entries), ',');
    }
  }

  // ---------- every result can be printed ----------

  /** `entries` lists each binding of `m` once, without padding. */
  ghost predicate Enumerates(entries: seq<Entry>, m: map<string, string>) {
    && (forall i :: 0 <= i < |entries| ==>
          var e := entries[i];
          e.Pair? && e == Pair("", e.key, "", "", e.value, "") && e.key in m && m[e.key] == e.value)
    && (forall i, j :: 0 <= i < j < |entries| ==> entries[i].key != entries[j].key)
    && (forall k :: k in m ==> exists i :: 0 <= i < |entries| && entries[i].key == k)
  }

  ghost predicate Printable(m: map<string, string>) {
    forall k :: k in m ==> ValidKey(k) && ValidValue(m[k])
  }

  lemma RestIsEnumerated(entries: seq<Entry>, m: map<string, string>)
    requires entries != [] && Enumerates(entries, m)
    ensures Enumerates(entries[1..], m - {entries[0].key})
  {
    var e, others := entries[0], entries[1..];
    forall k | k in m && k != e.key
      ensures exists i :: 0 <= i < |others| && others[i].key == k
    {
      var i :| 0 <= i < |entries| && entries[i].key == k;
      assert others[i - 1].key == k;
    }
  }

  lemma MoveBinding(m: map<string, string>, done: map<string, string>, k: string)
    requires k in m && done.Keys !! m.Keys
    ensures done[k := m[k]].Keys !! (m - {k}).Keys
    ensures done[k := m[k]] + (m - {k}) == done + m
  {
  }

  lemma {:induction false} MeaningOfEnumeration(entries: seq<Entry>, m: map<string, string>, done: map<string, string>)
    requires Enumerates(entries, m) && done.Keys !! m.Keys
    ensures Meaning(entries, done) == done + m
    decreases |entries|
  {
    if entries == [] {
      assert m.Keys == {};
      assert done + m == done;
    } else {
      var e := entries[0];
      assert e.Pair? && e.key in m && m[e.key] == e.value;
      RestIsEnumerated(entries, m);
      MoveBinding(m, done, e.key);
      MeaningOfEnumeration(entries[1..], m - {e.key}, done[e.key := e.value]);
    }
  }

  lemma TrimKeepsChars(s: string)
    ensures Trimmed(TrimSpace(s)) && forall c :: c in TrimSpace(s) ==> c in s
    ensures s != "" && !IsSpace(s[0]) ==> TrimSpace(s) != ""
  {
    var l, r := TrimSplits(s);
    if TrimSpace(s) == "" && s != "" {
      assert s[0] in l || s[0] in r;
    }
  }

  /** An entry is blank, or has a '=' after its first character. */
  predicate Acceptable(entry: string) {
    var pair := TrimSpace(entry);
    pair == "" || ('=' in pair && pair[0] != '=')
  }

  /** What a successful entry adds is a valid key and a valid value, and the check for an empty key
      never fires: a pair that passed the first check starts with a character that is no blank. */
  lemma PairResult(entry: string, out: map<string, string>)
    requires ',' !in entry && Printable(out)
    ensures match AddPair(entry, out)
            case Ok(more) => Printable(more)
            case Err(e) => e == NotKeyValue(TrimSpace(entry))
    ensures AddPair(entry, out).Ok? <==> Acceptable(entry)
  {
    var pair := TrimSpace(entry);
    var eq := IndexOf(pair, '=');
    TrimKeepsChars(entry);
    if eq > 0 {
      TrimKeepsChars(pair[..eq]);
      TrimKeepsChars(pair[eq + 1..]);
      assert pair[..eq][0] == pair[0];
    }
  }

  /** The i-th entry is the first that is not acceptable. */
  predicate FirstBad(entries: seq<string>, i: int) {
    0 <= i < |entries| && !Acceptable(entries[i]) && forall j :: 0 <= j < i ==> Acceptable(entries[j])
  }

  lemma {:induction false} PairsResult(entries: seq<string>, out: map<string, string>)
    requires Printable(out) && forall p :: p in entries ==> ',' !in p
    ensures match AddPairs(entries, out)
            case Ok(m) => Printable(m)
            case Err(e) => exists i :: FirstBad(entries, i) && e == NotKeyValue(TrimSpace(entries[i]))
    ensures AddPairs(entries, out).Ok? <==> forall p :: p in entries ==> Acceptable(p)
    decreases |entries|
  {
    if entries != [] {
      PairResult(entries[0], out);
      assert entries == [entries[0]] + entries[1..];
      match AddPair(entries[0], out)
      case Ok(more) =>
        PairsResult(entries[1..], more);
        if i :| FirstBad(entries[1..], i) && AddPairs(entries, out) == Err(NotKeyValue(TrimSpace(entries[1..][i]))) {
          assert FirstBad(entries, i + 1);
        }
      case Err(_) => assert FirstBad(entries, 0) && entries[0] in entries;
    }
  }

  /** Exactly which strings are accepted. The error names the first entry that is not acceptable, and the
      one for an empty key is never reported. */
  lemma ParseAccepts(s: string)
    ensures Parse(s).Ok? <==> forall p :: p in Split(s, ',') ==> Acceptable(p)
    ensures Parse(s).Err? ==>
              exists i :: FirstBad(Split(s, ','), i) && Parse(s) == Err(NotKeyValue(TrimSpace(Split(s, ',')[i])))
  {
    JoinOfSplit(s, ',');
    PairsResult(Split(s, ','), map[]);
  }

  /** s is what an operator wrote for these entries. */
  ghost predicate Writes(entries: seq<Entry>, s: string) {
    (forall e :: e in entries ==> e.Valid()) && Join(PrintAll(entries), ',') == s
  }

  /** The accepted strings are exactly the printed lists of entries, and each means what its entries mean. */
  lemma AcceptedIsWritten(s: string)
    ensures Parse(s).Ok? <==> exists entries :: Writes(entries, s)
    ensures forall entries :: Writes(entries, s) ==> Parse(s) == Ok(Meaning(entries, map[]))
  {
    forall entries | Writes(entries, s)
      ensures Parse(s) == Ok(Meaning(entries, map[]))
    {
      ParseOfPrint(entries);
    }
    if Parse(s).Ok? {
      ParseAccepts(s);
      JoinOfSplit(s, ',');
      var entries := EntriesOf(Split(s, ','));
      assert Writes(entries, s);
    }
  }

  lemma {:induction false} EntriesOf(parts: seq<string>) returns (entries: seq<Entry>)
    requires forall p :: p in parts ==> Acceptable(p) && ',' !in p
    ensures (forall e :: e in entries ==> e.Valid()) && PrintAll(entries) == parts
  {
    if parts == [] {
      entries := [];
    } else {
      assert parts == [parts[0]] + parts[1..];
      var e := EntryOf(parts[0]);
      var others := EntriesOf(parts[1..]);
      entries := [e] + others;
    }
  }

  lemma StartsBlank(blanks: string, more: string)
    requires Blank(blanks) && blanks != ""
    ensures IsSpace((blanks + more)[0])
  {
    assert blanks[0] in blanks;
  }

  /** The text before the '=', taken apart. */
  lemma KeyOf(text: string) returns (key: string, b: string)
    requires text != "" && !IsSpace(text[0]) && ',' !in text && '=' !in text
    ensures ValidKey(key) && Blank(b) && text == key + b
  {
    TrimKeepsChars(text);
    var l, r := TrimSplits(text);
    if l != "" { StartsBlank(l, TrimSpace(text) + r); }
    key, b := TrimSpace(text), r;
  }

  /** The text after it. */
  lemma ValueOf(text: string) returns (a: string, value: string, b: string)
    requires ',' !in text
    ensures ValidValue(value) && Blank(a) && Blank(b) && text == a + value + b
  {
    TrimKeepsChars(text);
    a, b := TrimSplits(text);
    value := TrimSpace(text);
  }

  /** An acceptable entry, taken apart. */
  lemma EntryOf(text: string) returns (e: Entry)
    requires Acceptable(text) && ',' !in text
    ensures e.Valid() && e.Print() == text
  {
    TrimKeepsChars(text);
    var l, r := TrimSplits(text);
    var pair := TrimSpace(text);
    if pair == "" {
      e := Nothing(text);
    } else {
      var eq := IndexOf(pair, '=');
      var key, b := KeyOf(pair[..eq]);
      var a, v, vr := ValueOf(pair[eq + 1..]);
      assert pair == pair[..eq] + "=" + pair[eq + 1..];
      e := Pair(l, key, b, a, v, vr + r);
      PiecesJoin(l, key, b, a, v, vr, r);
    }
  }

  lemma PiecesJoin(l: string, k: string, b: string, a: string, v: string, vr: string, r: string)
    ensures l + (k + b + "=" + (a + v + vr)) + r == l + k + b + "=" + a + v + (vr + r)
  {
  }

  /** Every result survives being printed, in any order, and parsed again. */
  lemma ResultsRoundTrip(s: string, entries: seq<Entry>)
    ensures Parse(s).Ok? && Enumerates(entries, Parse(s).value) ==> Parse(Join(PrintAll(entries), ',')) == Parse(s)
  {
    JoinOfSplit(s, ',');
    PairsResult(Split(s, ','), map[]);
    if Parse(s).Ok? && Enumerates(entries, Parse(s).value) {
      ParseOfEnumeration(entries, Parse(s).value);
    }
  }

  lemma ParseOfEnumeration(entries: seq<Entry>, m: map<string, string>)
    requires Printable(m) && Enumerates(entries, m)
    ensures Parse(Join(PrintAll(entries), ',')) == Ok(m)
  {
    forall e | e in entries
      ensures e.Valid()
    {
      var i :| 0 <= i < |entries| && entries[i] == e;
      assert ValidKey(e.key) && ValidValue(m[e.key]);
    }
    ParseOfPrint(entries);
    MeaningOfEnumeration(entries, m, map[]);
    assert map[] + m == m;
  }

  // ---------- parseCSVList ----------

  function NonEmptyTrimmed(parts: seq<string>): seq<string> {
    if parts == [] then []
    else (if TrimSpace(parts[0]) == "" then [] else [TrimSpace(parts[0])]) + NonEmptyTrimmed(parts[1..])
  }

  function ParseCSV(s: string): seq<string> {
    NonEmptyTrimmed(Split(s, ','))
  }

  lemma NonEmptyTrimmedAt(parts: seq<string>, i: nat)
    requires i < |parts|
    ensures NonEmptyTrimmed(parts[i..]) ==
            (if TrimSpace(parts[i]) == "" then [] else [TrimSpace(parts[i])]) + NonEmptyTrimmed(parts[i + 1..])
  {
    assert parts[i..][1..] == parts[i + 1..];
  }

  method ParseCSVList(s: string) returns (out: seq<string>)
    ensures out == ParseCSV(s)
  {
    var parts := Split(s, ',');
    out := [];
    for i := 0 to |parts|
      invariant out + NonEmptyTrimmed(parts[i..]) == ParseCSV(s)
    {
      NonEmptyTrimmedAt(parts, i);
      var p := TrimSpace(parts[i]);
      if p == "" {
        continue;
      }
      out := out + [p];
    }
  }

  /** Exactly the non-empty trimmed parts, in order and as often as they occur. */
  lemma CSVIsFilter(s: string, x: string)
    ensures BatchBuffer.Subsequence(ParseCSV(s), AllTrimmed(Split(s, ',')))
    ensures multiset(ParseCSV(s))[x] == if x == "" then 0 else multiset(AllTrimmed(Split(s, ',')))[x]
  {
    FilterInOrder(Split(s, ','));
    FilterCounts(Split(s, ','), x);
  }

  function AllTrimmed(parts: seq<string>): seq<string> {
    seq(|parts|, i requires 0 <= i < |parts| => TrimSpace(parts[i]))
  }

  lemma AllTrimmedCons(parts: seq<string>)
    requires parts != []
    ensures AllTrimmed(parts) == [TrimSpace(parts[0])] + AllTrimmed(parts[1..])
  {
  }

  lemma {:induction false} FilterInOrder(parts: seq<string>)
    ensures BatchBuffer.Subsequence(NonEmptyTrimmed(parts), AllTrimmed(parts))
  {
    if parts != [] {
      FilterInOrder(parts[1..]);
      AllTrimmedCons(parts);
      var kept := NonEmptyTrimmed(parts[1..]);
      BatchBuffer.SubsequenceCons(kept, AllTrimmed(parts[1..]), TrimSpace(parts[0]));
      assert [] + kept == kept;
    }
  }

  lemma CountCons(first: string, others: seq<string>, x: string)
    ensures multiset([first] + others)[x] == multiset(others)[x] + if x == first then 1 else 0
  {
  }

  lemma {:induction false} FilterCounts(parts: seq<string>, x: string)
    ensures multiset(NonEmptyTrimmed(parts))[x] == if x == "" then 0 else multiset(AllTrimmed(parts))[x]
  {
    if parts != [] {
      var first, kept := TrimSpace(parts[0]), NonEmptyTrimmed(parts[1..]);
      FilterCounts(parts[1..], x);
      AllTrimmedCons(parts);
      CountCons(first, AllTrimmed(parts[1..]), x);
      CountCons(first, kept, x);
      assert [] + kept == kept;
    }
  }

  ghost predicate CleanList(items: seq<string>) {
    forall p :: p in items ==> p != "" && Trimmed(p) && ',' !in p
  }

  lemma {:induction false} TrimmedIsClean(parts: seq<string>)
    requires forall p :: p in parts ==> ',' !in p
    ensures CleanList(NonEmptyTrimmed(parts))
    ensures CleanList(parts) ==> NonEmptyTrimmed(parts) == parts
  {
    if parts != [] {
      TrimmedIsClean(parts[1..]);
      var l, r := TrimSplits(parts[0]);
      assert forall c :: c in TrimSpace(parts[0]) ==> c in parts[0];
      if CleanList(parts) {
        TrimPadded("", parts[0], "");
        assert "" + parts[0] + "" == parts[0] && parts == [parts[0]] + parts[1..];
      }
    }
  }

  /** The parser returns clean lists, and it recovers every clean list from its joined form. So
      parsing, joining and parsing again changes nothing. */
  lemma CSVRoundTrip(s: string, items: seq<string>)
    ensures CleanList(ParseCSV(s))
    ensures CleanList(items) ==> ParseCSV(Join(items, ',')) == items
    ensures ParseCSV(Join(ParseCSV(s), ',')) == ParseCSV(s)
  {
    JoinOfSplit(s, ',');
    TrimmedIsClean(Split(s, ','));
    CleanListRecovered(ParseCSV(s));
    if CleanList(items) { CleanListRecovered(items); }
  }

  lemma CleanListRecovered(items: seq<string>)
    requires CleanList(items)
    ensures ParseCSV(Join(items, ',')) == items
  {
    if items == [] {
      assert Split("", ',')[1..] == [];
    } else {
      SplitOfJoin(items, ',');
      TrimmedIsClean(items);
    }
  }
}
