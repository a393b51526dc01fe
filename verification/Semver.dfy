/** Version parsing and ordering (internal/updater/semver.go). */
module Semver {
  import opened Wrappers
  import opened Text
  import Int64

  datatype Version = Version(major: nat, minor: nat, patch: nat, pre: string)

  datatype VersionError = EmptyVersion | EmptyPreRelease | WrongParts | NonNumeric(segment: string)

  // ---------- parseSemver ----------

  function TrimV(s: string): string {
    if s != "" && s[0] == 'v' then s[1..] else s
  }

  /** The text before the first c. */
  function CutAt(s: string, c: char): string {
    var i := IndexOf(s, c);
    if i >= 0 then s[..i] else s
  }

  function Numbers(parts: seq<string>): Result<seq<nat>, VersionError> {
    if parts == [] then Ok([])
    else
      match Numbers(parts[..|parts| - 1])
      case Err(e) => Err(e)
      case Ok(before) =>
        var p := parts[|parts| - 1];
        match Atoi(p)
        case Some(n) => if n < 0 then Err(NonNumeric(p)) else Ok(before + [n])
        case None => Err(NonNumeric(p))
  }

  function ParseTriple(raw: string, pre: string): Result<Version, VersionError> {
    var parts := Split(raw, '.');
    if |parts| != 3 then Err(WrongParts)
    else
      match Numbers(parts)
      case Ok(nums) => if |nums| == 3 then Ok(Version(nums[0], nums[1], nums[2], pre)) else Err(WrongParts)
      case Err(e) => Err(e)
  }

  /** The part that is left when blanks, the "v" and the metadata are gone. */
  function ParseCore(raw: string): Result<Version, VersionError> {
    var i := IndexOf(raw, '-');
    if i < 0 then ParseTriple(raw, "")
    else if raw[i + 1..] == "" then Err(EmptyPreRelease)
    else ParseTriple(raw[..i], raw[i + 1..])
  }

  function Parse(s: string): Result<Version, VersionError> {
    var raw := TrimSpace(s);
    if raw == "" then Err(EmptyVersion) else ParseCore(CutAt(TrimV(raw), '+'))
  }

  method ParseSemver(s: string) returns (r: Result<Version, VersionError>)
    ensures r == Parse(s)
  {
    var raw := TrimSpace(s);
    if raw == "" {
      return Err(EmptyVersion);
    }
    raw := TrimV(raw);
    var plus := IndexOf(raw, '+');
    if plus >= 0 {
      raw := raw[..plus];
    }
    assert Parse(s) == ParseCore(raw);
    var pre := "";
    var dash := IndexOf(raw, '-');
    if dash >= 0 {
      pre := raw[dash + 1..];
      raw := raw[..dash];
      if pre == "" {
        return Err(EmptyPreRelease);
      }
    }
    assert Parse(s) == ParseTriple(raw, pre);
    r := ParseNumbers(raw, pre);
  }

  method ParseNumbers(raw: string, pre: string) returns (r: Result<Version, VersionError>)
    ensures r == ParseTriple(raw, pre)
  {
    var parts := Split(raw, '.');
    if |parts| != 3 {
      return Err(WrongParts);
    }
    var nums := new nat[3](_ => 0);
    for i := 0 to 3
      invariant Numbers(parts[..i]) == Ok(nums[..i])
    {
      assert parts[..i + 1][..i] == parts[..i];
      var n := Atoi(parts[i]);
      if n.None? || n.value < 0 {
        NumbersFail(parts, i);
        return Err(NonNumeric(parts[i]));
      }
      ghost var before := nums[..i];
      nums[i] := n.value;
      assert nums[..i + 1] == before + [n.value];
    }
    assert parts[..3] == parts;
    r := Ok(Version(nums[0], nums[1], nums[2], pre));
  }

  /** The first segment that is not a number decides the error. */
  lemma {:induction false} NumbersFail(parts: seq<string>, i: nat)
    requires i < |parts| && Numbers(parts[..i]).Ok?
    requires Atoi(parts[i]).None? || Atoi(parts[i]).value < 0
    ensures Numbers(parts) == Err(NonNumeric(parts[i]))
  {
    if i == |parts| - 1 {
    } else {
      var init := parts[..|parts| - 1];
      assert init[..i] == parts[..i];
      NumbersFail(init, i);
    }
  }

  // ---------- printing ----------

  function PrintTriple(v: Version): string {
    Itoa(v.major) + "." + (Itoa(v.minor) + "." + Itoa(v.patch))
  }

  function Print(v: Version): string {
    PrintTriple(v) + if v.pre == "" then "" else "-" + v.pre
  }

  /** int is 64 bits wide. */
  ghost predicate Printable(v: Version) {
    v.major <= Int64.MAX && v.minor <= Int64.MAX && v.patch <= Int64.MAX && '+' !in v.pre
  }

  ghost predicate EndsInBlank(s: string) {
    s != "" && IsSpace(s[|s| - 1])
  }

  ghost predicate Segment(s: string) {
    s != "" && AllDigits(s) && Atoi(s).Some? && Atoi(s).value >= 0
  }

  lemma DottedSplits(a: string, b: string, c: string)
    requires '.' !in a && '.' !in b && '.' !in c
    ensures Split(a + "." + (b + "." + c), '.') == [a, b, c]
  {
    assert Join([c], '.') == c;
    assert Join([b, c], '.') == b + "." + c;
    assert Join([a, b, c], '.') == a + "." + (b + "." + c);
    SplitOfJoin([a, b, c], '.');
  }

  lemma ThreeNumbers(a: string, b: string, c: string, x: nat, y: nat, z: nat)
    requires Atoi(a) == Some(x) && Atoi(b) == Some(y) && Atoi(c) == Some(z)
    ensures Numbers([a, b, c]) == Ok([x, y, z])
  {
    NumbersGrow([], a);
    assert [] + [a] == [a] && [] + [x] == [x];
    NumbersGrow([a], b);
    assert [a] + [b] == [a, b] && [x] + [y] == [x, y];
    NumbersGrow([a, b], c);
    assert [a, b] + [c] == [a, b, c] && [x, y] + [z] == [x, y, z];
  }

  lemma DottedParses(a: string, b: string, c: string, pre: string)
    requires Segment(a) && Segment(b) && Segment(c)
    ensures ParseTriple(a + "." + (b + "." + c), pre) == Ok(Version(Atoi(a).value, Atoi(b).value, Atoi(c).value, pre))
  {
    assert !IsDigit('.');
    DottedSplits(a, b, c);
    ThreeNumbers(a, b, c, Atoi(a).value, Atoi(b).value, Atoi(c).value);
  }

  lemma TripleParses(v: Version, pre: string)
    requires Printable(v)
    ensures ParseTriple(PrintTriple(v), pre) == Ok(v.(pre := pre))
    ensures var t := PrintTriple(v);
            && t != "" && IsDigit(t[0]) && IsDigit(t[|t| - 1])
            && forall c :: c in t ==> IsDigit(c) || c == '.'
  {
    AtoiOfItoa(v.major);
    AtoiOfItoa(v.minor);
    AtoiOfItoa(v.patch);
    var a, b, c := Itoa(v.major), Itoa(v.minor), Itoa(v.patch);
    DottedParses(a, b, c, pre);
    assert a[0] in a && c[|c| - 1] in c;
  }

  lemma NumbersGrow(parts: seq<string>, p: string)
    requires Numbers(parts).Ok? && Atoi(p).Some? && Atoi(p).value >= 0
    ensures Numbers(parts + [p]) == Ok(Numbers(parts).value + [Atoi(p).value])
  {
    assert (parts + [p])[..|parts|] == parts;
  }

  lemma CoreSplitsAtDash(t: string, pre: string)
    requires '-' !in t
    ensures pre == "" ==> ParseCore(t) == ParseTriple(t, "")
    ensures pre != "" ==> ParseCore(t + "-" + pre) == ParseTriple(t, pre)
  {
    FirstIndex(t, '-', pre);
    var raw := t + ['-'] + pre;
    assert raw[..|t|] == t && raw[|t| + 1..] == pre;
  }

  lemma CoreParses(v: Version)
    requires Printable(v)
    ensures ParseCore(Print(v)) == Ok(v)
  {
    TripleParses(v, v.pre);
    assert Version(v.major, v.minor, v.patch, v.pre) == v;
    CoreSplitsAtDash(PrintTriple(v), v.pre);
    assert PrintTriple(v) + "" == PrintTriple(v);
    assert PrintTriple(v) + ("-" + v.pre) == PrintTriple(v) + "-" + v.pre;
  }

  lemma PrintShape(v: Version)
    requires Printable(v)
    ensures '+' !in Print(v) && Print(v) != "" && IsDigit(Print(v)[0])
    ensures !EndsInBlank(v.pre) ==> Trimmed(Print(v))
  {
    TripleParses(v, v.pre);
    assert Print(v)[0] == PrintTriple(v)[0];
    assert v.pre != "" ==> Print(v)[|Print(v)| - 1] == v.pre[|v.pre| - 1];
  }

  /** Blanks around, a leading "v" and appended metadata do not matter (sections 2, 9 and 10 of
      SemVer 2.0.0 give the syntax); a pre-release may end in a blank only when metadata follows. */
  lemma ParseOfPrint(v: Version, left: string, right: string)
    requires Printable(v) && !EndsInBlank(v.pre)
    requires Blank(left) && Blank(right)
    ensures Parse(left + Print(v) + right) == Ok(v)
    ensures Parse(left + ("v" + Print(v)) + right) == Ok(v)
  {
    CoreParses(v);
    PrintShape(v);
    TrimPadded(left, Print(v), right);
    TrimPadded(left, "v" + Print(v), right);
    assert ("v" + Print(v))[1..] == Print(v);
  }

  lemma TrimRightKeepsPlus(s: string, meta: string) returns (rest: string)
    ensures TrimRight(s + "+" + meta) == s + "+" + rest
  {
    assert !IsSpace('+');
    var body := s + "+" + meta;
    TrimRightSplits(body);
    var pad :| Blank(pad) && body == TrimRight(body) + pad;
    var kept := TrimRight(body);
    assert body[|s|] == '+';
    assert forall k :: |kept| <= k < |body| ==> body[k] == pad[k - |kept|] && IsSpace(body[k]);
    rest := kept[|s| + 1..];
    assert kept == body[..|kept|] && kept[..|s| + 1] == s + "+";
  }

  /** Trimming a text that goes on after a '+' leaves all of it up to the '+'. */
  lemma TrimBeforePlus(left: string, s: string, meta: string) returns (rest: string)
    requires Blank(left) && (s == "" || !IsSpace(s[0]))
    ensures TrimSpace(left + s + "+" + meta) == s + "+" + rest
  {
    var body := s + "+" + meta;
    assert left + s + "+" + meta == left + body;
    TrimLeftPadded(left, body);
    assert !IsSpace(body[0]) by { assert !IsSpace('+'); }
    rest := TrimRightKeepsPlus(s, meta);
  }

  lemma CutBeforePlus(b: string, rest: string)
    ensures CutAt(b + "+" + rest, '+') == CutAt(b, '+')
  {
    var i := IndexOf(b, '+');
    if i < 0 {
      FirstIndex(b, '+', rest);
      assert (b + "+" + rest)[..|b|] == b;
    } else {
      FirstIndex(b[..i], '+', b[i + 1..] + "+" + rest);
      assert b[..i] + ['+'] + (b[i + 1..] + "+" + rest) == b + "+" + rest;
    }
  }

  /** With a '+' in the text, only what comes before it counts, and its right end is not trimmed. */
  lemma ParseUpToPlus(left: string, s: string, meta: string)
    requires Blank(left) && (s == "" || !IsSpace(s[0]))
    ensures Parse(left + s + "+" + meta) == ParseCore(CutAt(TrimV(s), '+'))
  {
    var rest := TrimBeforePlus(left, s, meta);
    if s == "" {
      assert "" + "+" + rest == "+" + rest;
      CutBeforePlus("", rest);
    } else {
      assert TrimV(s + "+" + rest) == TrimV(s) + "+" + rest;
      CutBeforePlus(TrimV(s), rest);
    }
  }

  predicate SameParse(p: Result<Version, VersionError>, q: Result<Version, VersionError>) {
    p == q || (p.Err? && q.Err?)
  }

  /** The numbers of a text without metadata, up to the first '-'. */
  predicate NumbersParse(s: string) {
    ParseTriple(CutAt(TrimV(TrimSpace(s)), '-'), "").Ok?
  }

  /** Appended "+metadata" changes nothing, except in one case: blanks at the end of a text that has no
      metadata yet are no longer at the end, and become part of the version. */
  lemma MetadataIsIgnored(s: string, meta: string)
    ensures SameParse(Parse(s + "+" + meta), Parse(s)) <==> !EndsInBlank(s) || '+' in s || !NumbersParse(s)
  {
    TrimLeftSplits(s);
    var left :| Blank(left) && s == left + TrimLeft(s);
    var a := TrimLeft(s);
    assert s + "+" + meta == left + a + "+" + meta;
    ParseUpToPlus(left, a, meta);
    assert ParseCore("").Err? && ParseTriple("", "").Err? by { assert Split("", '.') == [""]; }
    if '+' in s {
      SecondPlus(left, a, meta);
    } else if EndsInBlank(s) && a != "" {
      BlanksBeforePlus(s, a);
    } else {
      assert TrimSpace(s) == a;
    }
  }

  lemma SecondPlus(left: string, a: string, meta: string)
    requires Blank(left) && '+' in left + a && (a == "" || !IsSpace(a[0]))
    ensures Parse(left + a + "+" + meta) == Parse(left + a)
  {
    assert !IsSpace('+');
    var i := IndexOf(a, '+');
    var p, q := a[..i], a[i + 1..];
    assert a == p + "+" + q;
    assert left + a == left + p + "+" + q;
    assert left + a + "+" + meta == left + p + "+" + (q + "+" + meta);
    ParseUpToPlus(left, p, q);
    ParseUpToPlus(left, p, q + "+" + meta);
  }

  lemma BlanksBeforePlus(s: string, a: string)
    requires '+' !in s && EndsInBlank(s) && a == TrimLeft(s) != ""
    ensures SameParse(ParseCore(CutAt(TrimV(a), '+')), Parse(s)) <==> !NumbersParse(s)
  {
    var pad := TrimmedOff(s, a);
    BlanksCount(TrimSpace(s), pad);
  }

  lemma TrimmedOff(s: string, a: string) returns (pad: string)
    requires '+' !in s && EndsInBlank(s) && a == TrimLeft(s) != ""
    ensures pad != "" && Blank(pad) && a == TrimSpace(s) + pad
    ensures TrimSpace(s) != "" && '+' !in TrimSpace(s)
  {
    TrimLeftSplits(s);
    TrimRightSplits(a);
    var left :| Blank(left) && s == left + a;
    assert TrimSpace(s) == TrimRight(a);
    pad :| Blank(pad) && a == TrimRight(a) + pad;
    assert a[|a| - 1] == s[|s| - 1] && a[0] in a;
    assert forall x :: x in a ==> x in s;
  }

  lemma BlanksCount(c: string, pad: string)
    requires c != "" && '+' !in c && pad != "" && Blank(pad)
    ensures SameParse(ParseCore(CutAt(TrimV(c + pad), '+')), ParseCore(CutAt(TrimV(c), '+')))
       <==> ParseTriple(CutAt(TrimV(c), '-'), "").Err?
  {
    assert '+' !in pad by { assert !IsSpace('+'); }
    var d := TrimV(c);
    assert TrimV(c + pad) == d + pad && '+' !in d + pad;
    assert CutAt(d, '+') == d && CutAt(d + pad, '+') == d + pad;
    BlankTail(d, pad);
  }

  lemma BlankTail(d: string, pad: string)
    requires pad != "" && Blank(pad)
    ensures SameParse(ParseCore(d + pad), ParseCore(d)) <==> ParseTriple(CutAt(d, '-'), "").Err?
  {
    var i := IndexOf(d, '-');
    if i < 0 {
      assert '-' !in d + pad by { assert !IsSpace('-'); }
      BlankTripleFails(d, pad);
    } else {
      assert d == d[..i] + "-" + d[i + 1..];
      BlankPreRelease(d[..i], d[i + 1..], pad);
    }
  }

  lemma BlankPreRelease(raw: string, pre: string, pad: string)
    requires '-' !in raw && pad != ""
    ensures SameParse(ParseCore(raw + "-" + pre + pad), ParseCore(raw + "-" + pre))
       <==> ParseTriple(CutAt(raw + "-" + pre, '-'), "").Err?
  {
    assert raw + "-" + pre + pad == raw + "-" + (pre + pad);
    DashCore(raw, pre);
    DashCore(raw, pre + pad);
    SamePreOnly(raw, pre, pre + pad);
  }

  lemma DashCore(raw: string, pre: string)
    requires '-' !in raw
    ensures ParseCore(raw + "-" + pre) == if pre == "" then Err(EmptyPreRelease) else ParseTriple(raw, pre)
    ensures CutAt(raw + "-" + pre, '-') == raw
  {
    FirstIndex(raw, '-', pre);
    var s := raw + ['-'] + pre;
    assert s[..|raw|] == raw && s[|raw| + 1..] == pre;
  }

  lemma SamePreOnly(raw: string, pre: string, longer: string)
    requires |pre| < |longer|
    ensures ParseTriple(raw, pre).Ok? == ParseTriple(raw, longer).Ok? == ParseTriple(raw, "").Ok?
    ensures ParseTriple(raw, pre).Ok? ==> ParseTriple(raw, pre) != ParseTriple(raw, longer)
  {
  }

  lemma BlankTripleFails(raw: string, pad: string)
    requires pad != "" && Blank(pad)
    ensures ParseTriple(raw + pad, "").Err?
  {
    assert '.' !in pad by { assert !IsSpace('.'); }
    LastPartGrows(raw, '.', pad);
    var parts := Split(raw + pad, '.');
    BlankIsNoNumber(Split(raw, '.')[|parts| - 1], pad);
  }

  lemma BlankIsNoNumber(p: string, pad: string)
    requires pad != "" && Blank(pad)
    ensures Atoi(p + pad).None?
  {
    var s, last := p + pad, pad[|pad| - 1];
    assert last in pad && IsSpace(last);
    assert s[|s| - 1] == last;
    assert |s| > 1 ==> s[1..][|s[1..]| - 1] == last;
  }

  lemma SplitAtFirst(before: string, sep: char, rest: string)
    requires sep !in before
    ensures Split(before + [sep] + rest, sep) == [before] + Split(rest, sep)
  {
    FirstIndex(before, sep, rest);
    var s := before + [sep] + rest;
    assert s[..|before|] == before && s[|before| + 1..] == rest;
  }

  lemma {:induction false} LastPartGrows(s: string, sep: char, pad: string)
    requires sep !in pad
    ensures |Split(s + pad, sep)| == |Split(s, sep)|
    ensures Split(s + pad, sep)[|Split(s, sep)| - 1] == Split(s, sep)[|Split(s, sep)| - 1] + pad
    decreases |s|
  {
    var i := IndexOf(s, sep);
    if i < 0 {
      assert IndexOf(s + pad, sep) < 0;
    } else {
      var before, rest := s[..i], s[i + 1..];
      assert s == before + [sep] + rest && s + pad == before + [sep] + (rest + pad);
      SplitAtFirst(before, sep, rest);
      SplitAtFirst(before, sep, rest + pad);
      LastPartGrows(rest, sep, pad);
    }
  }

  lemma MetadataIsCut(core: string, meta: string)
    requires core != "" && IsDigit(core[0]) && '+' !in core
    ensures Parse(core + "+" + meta) == ParseCore(core)
  {
    assert "" + core == core;
    ParseUpToPlus("", core, meta);
  }

  /** A printed version with any metadata parses back, even if its pre-release ends in a blank. */
  lemma ParseOfPrintWithMetadata(v: Version, meta: string)
    requires Printable(v)
    ensures Parse(Print(v) + "+" + meta) == Ok(v)
  {
    CoreParses(v);
    PrintShape(v);
    MetadataIsCut(Print(v), meta);
  }

  lemma {:induction false} NumbersFit(parts: seq<string>)
    requires Numbers(parts).Ok?
    ensures |Numbers(parts).value| == |parts|
    ensures forall n :: n in Numbers(parts).value ==> n <= Int64.MAX
  {
    if parts != [] { NumbersFit(parts[..|parts| - 1]); }
  }

  lemma ParsedTripleIsPrintable(raw: string, pre: string)
    requires '+' !in pre && ParseTriple(raw, pre).Ok?
    ensures Printable(ParseTriple(raw, pre).value)
  {
    NumbersFit(Split(raw, '.'));
    var nums := Numbers(Split(raw, '.')).value;
    assert nums[0] in nums && nums[1] in nums && nums[2] in nums;
  }

  lemma ParsedCoreIsPrintable(raw: string)
    requires '+' !in raw && ParseCore(raw).Ok?
    ensures Printable(ParseCore(raw).value)
  {
    var i := IndexOf(raw, '-');
    if i < 0 {
      ParsedTripleIsPrintable(raw, "");
    } else {
      ParsedTripleIsPrintable(raw[..i], raw[i + 1..]);
    }
  }

  /** Every version the parser returns is printable, so it has a text that parses to it again. */
  lemma ParsedVersionsRoundTrip(s: string)
    ensures Parse(s).Ok? ==> Parse(Print(Parse(s).value) + "+") == Parse(s)
  {
    if Parse(s).Ok? {
      ParsedCoreIsPrintable(CutAt(TrimV(TrimSpace(s)), '+'));
      var text := Print(Parse(s).value);
      ParseOfPrintWithMetadata(Parse(s).value, "");
      assert text + "+" + "" == text + "+";
    }
  }

  // ---------- isNewer ----------

  /** Go's `<` on strings. */
  predicate Less(a: string, b: string) {
    if b == "" then false
    else if a == "" then true
    else a[0] < b[0] || (a[0] == b[0] && Less(a[1..], b[1..]))
  }

  predicate IsNewer(current: Version, latest: Version) {
    if latest.major != current.major then latest.major > current.major
    else if latest.minor != current.minor then latest.minor > current.minor
    else if latest.patch != current.patch then latest.patch > current.patch
    else if current.pre == "" && latest.pre == "" then false
    else if current.pre == "" && latest.pre != "" then false
    else if current.pre != "" && latest.pre == "" then true
    else Less(current.pre, latest.pre)
  }

  lemma {:induction false} LessIsStrictTotalOrder(a: string, b: string, c: string)
    ensures !Less(a, a)
    ensures Less(a, b) && Less(b, c) ==> Less(a, c)
    ensures !Less(a, b) && !Less(b, a) ==> a == b
  {
    if a != "" {
      var b1, c1 := if b == "" then "" else b[1..], if c == "" then "" else c[1..];
      LessIsStrictTotalOrder(a[1..], b1, c1);
      if b != "" && a[0] == b[0] && a[1..] == b[1..] {
        assert a == [a[0]] + a[1..] && b == [b[0]] + b[1..];
      }
    }
  }

  /** The first place where two texts differ. */
  ghost predicate DifferAt(a: string, b: string, k: int) {
    0 <= k < |a| && k < |b| && a[..k] == b[..k] && a[k] != b[k]
  }

  /** A text is less when it is a proper prefix of the other, or smaller where they first differ. */
  lemma {:induction false} LessIsFirstDifference(a: string, b: string)
    ensures Less(a, b) <==> a < b || exists k :: DifferAt(a, b, k) && a[k] < b[k]
  {
    if a != "" && b != "" {
      if a[0] == b[0] {
        LessIsFirstDifference(a[1..], b[1..]);
        assert a == [a[0]] + a[1..] && b == [b[0]] + b[1..];
        if k :| DifferAt(a, b, k) && a[k] < b[k] {
          assert a[1..][..k - 1] == a[..k][1..] && b[1..][..k - 1] == b[..k][1..];
          assert DifferAt(a[1..], b[1..], k - 1);
        }
        if k :| DifferAt(a[1..], b[1..], k) && a[1..][k] < b[1..][k] {
          assert a[..k + 1] == [a[0]] + a[1..][..k] && b[..k + 1] == [b[0]] + b[1..][..k];
          assert DifferAt(a, b, k + 1);
        }
      } else {
        assert DifferAt(a, b, 0);
        assert forall k :: 0 < k < |a| && k < |b| ==> a[..k][0] != b[..k][0];
      }
    }
  }

  /** The triples decide; between equal triples a stable version is above every pre-release, and
      pre-releases compare as text. This is a strict total order. */
  lemma IsNewerIsStrictTotalOrder(a: Version, b: Version, c: Version)
    ensures IsNewer(a, b) <==>
              || a.major < b.major
              || (a.major == b.major && a.minor < b.minor)
              || (a.major == b.major && a.minor == b.minor && a.patch < b.patch)
              || ((a.major, a.minor, a.patch) == (b.major, b.minor, b.patch) && a.pre != ""
                  && (b.pre == "" || Less(a.pre, b.pre)))
    ensures !IsNewer(a, a)
    ensures IsNewer(a, b) && IsNewer(b, c) ==> IsNewer(a, c)
    ensures !IsNewer(a, b) && !IsNewer(b, a) <==> a == b
  {
    LessIsStrictTotalOrder(a.pre, b.pre, c.pre);
  }
}
