/** Exactly which texts parseSemver (internal/updater/semver.go) accepts, and what each means. */
module VersionSyntax {
  import opened Wrappers
  import opened Semver
  import opened Text

  /** A version as someone may write it: blanks, "v", three numbers, a pre-release and metadata. */
  datatype Spelling = Spelling(
    left: string,
    v: bool,
    major: string,
    minor: string,
    patch: string,
    pre: string,
    meta: Option<string>,
    right: string)
  {
    /** The numbers are digits whose value fits in 64 bits; a pre-release may end in a blank only when
        metadata follows it. */
    ghost predicate Valid() {
      && Blank(left) && Blank(right)
      && Segment(major) && Segment(minor) && Segment(patch)
      && '+' !in pre
      && (meta.None? ==> !EndsInBlank(pre))
    }

    function Triple(): string { major + "." + (minor + "." + patch) }

    function Core(): string { Triple() + if pre == "" then "" else "-" + pre }

    function Body(): string { (if v then "v" else "") + Core() }

    function Text(): string {
      left + Body() + match meta case Some(m) => "+" + m + right
                                 case None => right
    }

    function Meaning(): Version
      requires Digits(major) && Digits(minor) && Digits(patch)
    {
      Version(DigitsValue(major), DigitsValue(minor), DigitsValue(patch), pre)
    }
  }

  ghost predicate Spells(w: Spelling, s: string, v: Version) {
    w.Valid() && w.Text() == s && w.Meaning() == v
  }

  lemma SegmentValue(s: string)
    requires Segment(s)
    ensures Digits(s) && Atoi(s) == Some(DigitsValue(s)) && IsDigit(s[0]) && IsDigit(s[|s| - 1])
  {
    assert s[0] in s && s[|s| - 1] in s;
  }

  lemma TripleShape(w: Spelling)
    requires w.Valid()
    ensures var t := w.Triple();
            t != "" && IsDigit(t[0]) && IsDigit(t[|t| - 1]) && forall c :: c in t ==> IsDigit(c) || c == '.'
  {
    SegmentValue(w.major);
    SegmentValue(w.patch);
  }

  lemma CoreShape(triple: string, pre: string)
    requires triple != "" && IsDigit(triple[0]) && '+' !in pre
    requires forall c :: c in triple ==> IsDigit(c) || c == '.'
    ensures var core := triple + if pre == "" then "" else "-" + pre;
            core != "" && IsDigit(core[0]) && '+' !in core
  {
  }

  lemma CoreIsTripleAndPre(triple: string, pre: string)
    requires '-' !in triple
    ensures ParseCore(triple + if pre == "" then "" else "-" + pre) == ParseTriple(triple, pre)
  {
    CoreSplitsAtDash(triple, pre);
    assert triple + "" == triple;
    assert triple + ("-" + pre) == triple + "-" + pre;
  }

  lemma CoreIsParsed(w: Spelling)
    requires w.Valid()
    ensures w.Core() != "" && IsDigit(w.Core()[0]) && '+' !in w.Core()
    ensures ParseCore(w.Core()) == Ok(w.Meaning())
  {
    TripleShape(w);
    CoreShape(w.Triple(), w.pre);
    CoreIsTripleAndPre(w.Triple(), w.pre);
    SegmentValue(w.major);
    SegmentValue(w.minor);
    SegmentValue(w.patch);
    DottedParses(w.major, w.minor, w.patch, w.pre);
  }

  lemma AfterV(v: bool, core: string)
    requires core != "" && IsDigit(core[0])
    ensures var body := (if v then "v" else "") + core;
            && body != "" && !IsSpace(body[0]) && body[|body| - 1] == core[|core| - 1]
            && TrimV(body) == core
  {
    if v {
      assert ("v" + core)[1..] == core;
    } else {
      assert "" + core == core;
    }
  }

  lemma LastOfCore(triple: string, pre: string)
    requires triple != ""
    ensures var core := triple + if pre == "" then "" else "-" + pre;
            core[|core| - 1] == if pre == "" then triple[|triple| - 1] else pre[|pre| - 1]
  {
  }

  lemma TrimmedCore(v: bool, triple: string, pre: string)
    requires triple != "" && IsDigit(triple[0]) && IsDigit(triple[|triple| - 1]) && !EndsInBlank(pre)
    ensures Trimmed((if v then "v" else "") + (triple + if pre == "" then "" else "-" + pre))
  {
    LastOfCore(triple, pre);
    AfterV(v, triple + if pre == "" then "" else "-" + pre);
  }

  lemma Regrouped(a: string, b: string, c: string, d: string)
    ensures a + (b + c + d) == a + b + (c + d)
  {
  }

  lemma Trailing(left: string, v: bool, core: string, meta: string)
    requires Blank(left) && core != "" && IsDigit(core[0]) && '+' !in core
    ensures Parse(left + ((if v then "v" else "") + core) + "+" + meta) == ParseCore(core)
  {
    AfterV(v, core);
    ParseUpToPlus(left, (if v then "v" else "") + core, meta);
  }

  lemma Padded(left: string, v: bool, core: string, right: string)
    requires Blank(left) && Blank(right) && core != "" && IsDigit(core[0]) && '+' !in core
    requires Trimmed((if v then "v" else "") + core)
    ensures Parse(left + ((if v then "v" else "") + core) + right) == ParseCore(core)
  {
    AfterV(v, core);
    TrimPadded(left, (if v then "v" else "") + core, right);
  }

  /** Every spelling parses to what it means. */
  lemma SpellingParses(w: Spelling)
    requires w.Valid()
    ensures Parse(w.Text()) == Ok(w.Meaning())
  {
    CoreIsParsed(w);
    match w.meta
    case Some(m) =>
      Regrouped(w.left + w.Body(), "+", m, w.right);
      Trailing(w.left, w.v, w.Core(), m + w.right);
    case None =>
      TripleShape(w);
      TrimmedCore(w.v, w.Triple(), w.pre);
      Padded(w.left, w.v, w.Core(), w.right);
  }

  lemma {:induction false} NumbersAt(parts: seq<string>, i: nat)
    requires Numbers(parts).Ok? && i < |parts|
    ensures |Numbers(parts).value| == |parts|
    ensures Atoi(parts[i]) == Some(Numbers(parts).value[i])
  {
    var n := |parts| - 1;
    if i < n {
      NumbersAt(parts[..n], i);
      assert parts[..n][i] == parts[i];
    } else if n > 0 {
      NumbersAt(parts[..n], 0);
    }
  }

  /** Without signs, a number is a string of digits. */
  lemma UnsignedIsSegment(s: string)
    requires Atoi(s).Some? && '+' !in s && '-' !in s
    ensures Segment(s) && Digits(s) && Atoi(s) == Some(DigitsValue(s))
  {
    assert s != "" ==> s[0] in s;
  }

  lemma ThreeParts(raw: string) returns (a: string, b: string, c: string)
    requires |Split(raw, '.')| == 3 && '+' !in raw && '-' !in raw
    ensures Split(raw, '.') == [a, b, c] && raw == a + "." + (b + "." + c)
    ensures '+' !in a && '-' !in a && '+' !in b && '-' !in b && '+' !in c && '-' !in c
  {
    var parts := Split(raw, '.');
    a, b, c := parts[0], parts[1], parts[2];
    JoinOfSplit(raw, '.');
    assert parts[1..][1..] == parts[2..] && Join(parts[2..], '.') == c;
    assert Join(parts[1..], '.') == b + "." + c;
    assert forall ch :: ch in a ==> ch in raw;
    assert forall ch :: ch in b + "." + c ==> ch in raw;
    assert forall ch :: ch in b || ch in c ==> ch in b + "." + c;
  }

  lemma TripleTaken(raw: string, pre: string) returns (a: string, b: string, c: string)
    requires ParseTriple(raw, pre).Ok? && '+' !in raw && '-' !in raw
    ensures Segment(a) && Segment(b) && Segment(c) && Digits(a) && Digits(b) && Digits(c)
    ensures raw == a + "." + (b + "." + c)
    ensures ParseTriple(raw, pre) == Ok(Version(DigitsValue(a), DigitsValue(b), DigitsValue(c), pre))
  {
    a, b, c := ThreeParts(raw);
    NumbersAt([a, b, c], 0);
    NumbersAt([a, b, c], 1);
    NumbersAt([a, b, c], 2);
    UnsignedIsSegment(a);
    UnsignedIsSegment(b);
    UnsignedIsSegment(c);
  }

  lemma GoesOnAt(s: string, c: char, i: nat)
    requires i < |s| && s[i] == c
    ensures s == s[..i] + ([c] + s[i + 1..])
  {
    assert s[i..] == [c] + s[i + 1..];
  }

  /** The text before the first c, and what comes after it. */
  lemma Taken(s: string, c: char) returns (before: string, after: Option<string>)
    ensures before == CutAt(s, c) && c !in before
    ensures s == before + match after case Some(t) => [c] + t
                                      case None => ""
    ensures var i := IndexOf(s, c); after == if i < 0 then None else Some(s[i + 1..])
  {
    var i := IndexOf(s, c);
    before, after := CutAt(s, c), if i < 0 then None else Some(s[i + 1..]);
    if i < 0 {
      assert s + "" == s;
    } else {
      GoesOnAt(s, c, i);
    }
  }

  lemma DashTaken(core: string) returns (raw: string, pre: string)
    requires ParseCore(core).Ok? && '+' !in core
    ensures core == raw + if pre == "" then "" else "-" + pre
    ensures '+' !in raw && '-' !in raw && '+' !in pre
    ensures ParseCore(core) == ParseTriple(raw, pre)
  {
    var after;
    raw, after := Taken(core, '-');
    pre := if after.Some? then after.value else "";
  }

  /** The core of an accepted text, taken apart; the other parts are yet to come. */
  lemma CoreTaken(core: string) returns (w: Spelling)
    requires ParseCore(core).Ok? && '+' !in core
    ensures w.left == "" && w.right == "" && !w.v && w.meta == Some("")
    ensures w.Valid() && w.Core() == core && ParseCore(core) == Ok(w.Meaning())
  {
    var raw, pre := DashTaken(core);
    var a, b, c := TripleTaken(raw, pre);
    w := Spelling("", false, a, b, c, pre, Some(""), "");
    assert w.Triple() == raw;
  }

  lemma VTaken(raw: string)
    requires raw != "" && Trimmed(raw)
    ensures raw == (if raw[0] == 'v' then "v" else "") + TrimV(raw)
    ensures TrimV(raw) != "" ==> !IsSpace(TrimV(raw)[|TrimV(raw)| - 1])
  {
    if raw[0] == 'v' {
      assert raw == "v" + raw[1..];
    } else {
      assert "" + raw == raw;
    }
  }

  lemma Associative(a: string, b: string, c: string)
    ensures a + b + c == a + (b + c)
  {
  }

  function Tail(meta: Option<string>): string {
    match meta
    case Some(m) => "+" + m
    case None => ""
  }

  lemma MetadataTaken(x: string) returns (core: string, meta: Option<string>)
    ensures core == CutAt(x, '+') && '+' !in core
    ensures x == core + Tail(meta) && (meta.None? ==> x == core)
  {
    core, meta := Taken(x, '+');
    assert meta.None? ==> core + "" == core;
  }

  /** The "v" and the metadata. */
  lemma EndsTaken(raw: string) returns (v: bool, core: string, meta: Option<string>)
    requires raw != "" && Trimmed(raw)
    ensures core == CutAt(TrimV(raw), '+') && '+' !in core
    ensures raw == (if v then "v" else "") + core + Tail(meta)
    ensures meta.None? && core != "" ==> !IsSpace(core[|core| - 1])
  {
    v := raw[0] == 'v';
    VTaken(raw);
    core, meta := MetadataTaken(TrimV(raw));
    Associative(if v then "v" else "", core, Tail(meta));
  }

  lemma RawTaken(raw: string) returns (w: Spelling)
    requires raw != "" && Trimmed(raw) && ParseCore(CutAt(TrimV(raw), '+')).Ok?
    ensures w.left == "" && w.right == "" && w.Valid()
    ensures ParseCore(CutAt(TrimV(raw), '+')) == Ok(w.Meaning())
    ensures raw == w.Body() + Tail(w.meta)
  {
    var v, core, meta := EndsTaken(raw);
    var u := CoreTaken(core);
    w := u.(v := v, meta := meta);
    assert w.Core() == u.Core() == core && w.Triple() == u.Triple();
    assert u.Triple() != "";
    LastOfCore(u.Triple(), u.pre);
  }

  lemma TextTaken(s: string) returns (w: Spelling)
    requires Parse(s).Ok?
    ensures Spells(w, s, Parse(s).value)
  {
    var left, right := TrimSplits(s);
    var u := RawTaken(TrimSpace(s));
    w := u.(left := left, right := right);
    Pieces(left, u.Body(), u.meta, right);
  }

  lemma Pieces(left: string, body: string, meta: Option<string>, right: string)
    ensures left + (body + Tail(meta)) + right
         == left + body + match meta case Some(m) => "+" + m + right
                                     case None => right
  {
    match meta
    case Some(m) => Grouped(left, body, "+" + m, right);
    case None => assert body + "" == body;
  }

  lemma Grouped(left: string, body: string, tail: string, right: string)
    ensures left + (body + tail) + right == left + body + (tail + right)
  {
  }

  /** A text is accepted as the version v if and only if it is a spelling of v. So "1.2.3.4", "1.2" and
      "1.x.3" are not accepted, and neither is an empty pre-release. */
  lemma ParseAccepts(s: string, v: Version)
    ensures Parse(s) == Ok(v) <==> exists w :: Spells(w, s, v)
  {
    if Parse(s) == Ok(v) {
      var w := TextTaken(s);
      assert Spells(w, s, v);
    }
    if w :| Spells(w, s, v) {
      SpellingParses(w);
    }
  }
}
