/** How isNewer (internal/updater/semver.go) relates to section 11 of SemVer 2.0.0. */
module Precedence {
  import opened Semver
  import opened Text

  // ---------- the standard ----------

  /** 11.4.1 to 11.4.3: numbers by value, others as text, and numbers below others. */
  predicate IdentifierPrecedes(x: string, y: string) {
    if Digits(x) && Digits(y) then DigitsValue(x) < DigitsValue(y)
    else if Digits(x) || Digits(y) then Digits(x)
    else Less(x, y)
  }

  /** 11.4.4: the first difference decides, and the longer list wins if there is none. */
  predicate IdentifiersPrecede(xs: seq<string>, ys: seq<string>) {
    if ys == [] then false
    else if xs == [] then true
    else if xs[0] != ys[0] then IdentifierPrecedes(xs[0], ys[0])
    else IdentifiersPrecede(xs[1..], ys[1..])
  }

  /** 11.2 and 11.3. */
  predicate Precedes(a: Version, b: Version) {
    if a.major != b.major then a.major < b.major
    else if a.minor != b.minor then a.minor < b.minor
    else if a.patch != b.patch then a.patch < b.patch
    else if b.pre == "" then a.pre != ""
    else a.pre != "" && IdentifiersPrecede(Split(a.pre, '.'), Split(b.pre, '.'))
  }

  // ---------- the order of the joined text ----------

  /** x and y are the first identifiers that differ. The text after them matters when one is a prefix
      of the other and its list goes on: then '.' is compared with a character of the longer one. A
      character below '.', such as '-', turns the order round. */
  predicate Flipped(x: string, y: string, xGoesOn: bool, yGoesOn: bool) {
    || (x < y && xGoesOn && y[|x|] < '.')
    || (y < x && yGoesOn && x[|y|] < '.')
  }

  lemma {:induction false} LessAfterPrefix(p: string, x: string, y: string)
    ensures Less(p + x, p + y) <==> Less(x, y)
  {
    if p == "" {
      assert p + x == x && p + y == y;
    } else {
      assert (p + x)[1..] == p[1..] + x && (p + y)[1..] == p[1..] + y;
      LessAfterPrefix(p[1..], x, y);
    }
  }

  lemma {:induction false} LessWithTails(x: string, u: string, y: string, v: string)
    requires x != y && '.' !in x && '.' !in y
    requires (u == "" || u[0] == '.') && (v == "" || v[0] == '.')
    ensures Less(x + u, y + v) <==> (Less(x, y) != Flipped(x, y, u != "", v != ""))
  {
    if x == "" {
      assert x + u == u && (y + v)[0] == y[0] != '.';
    } else if y == "" {
      assert y + v == v && (x + u)[0] == x[0] != '.';
    } else {
      assert (x + u)[0] == x[0] && (x + u)[1..] == x[1..] + u;
      assert (y + v)[0] == y[0] && (y + v)[1..] == y[1..] + v;
      if x[0] == y[0] {
        assert x == [x[0]] + x[1..] && y == [y[0]] + y[1..];
        assert x < y <==> x[1..] < y[1..];
        assert y < x <==> y[1..] < x[1..];
        LessWithTails(x[1..], u, y[1..], v);
      }
    }
  }

  /** How the text of two dotted lists compares. */
  predicate TextPrecedes(xs: seq<string>, ys: seq<string>) {
    if ys == [] then false
    else if xs == [] then true
    else if xs[0] != ys[0] then Less(xs[0], ys[0]) != Flipped(xs[0], ys[0], |xs| > 1, |ys| > 1)
    else TextPrecedes(xs[1..], ys[1..])
  }

  function Tail(xs: seq<string>): string
    requires xs != []
  {
    if |xs| == 1 then "" else "." + Join(xs[1..], '.')
  }

  lemma JoinIsHeadAndTail(xs: seq<string>)
    requires xs != []
    ensures Join(xs, '.') == xs[0] + Tail(xs)
  {
    if |xs| == 1 {
      assert xs[0] + "" == xs[0];
    } else {
      assert xs[0] + "." + Join(xs[1..], '.') == xs[0] + ("." + Join(xs[1..], '.'));
    }
  }

  lemma {:induction false} JoinedTextOrder(xs: seq<string>, ys: seq<string>)
    requires xs != [] && ys != []
    requires (forall x :: x in xs ==> '.' !in x) && (forall y :: y in ys ==> '.' !in y)
    ensures Less(Join(xs, '.'), Join(ys, '.')) <==> TextPrecedes(xs, ys)
    decreases |xs|
  {
    JoinIsHeadAndTail(xs);
    JoinIsHeadAndTail(ys);
    if xs[0] != ys[0] {
      LessWithTails(xs[0], Tail(xs), ys[0], Tail(ys));
    } else {
      LessAfterPrefix(xs[0], Tail(xs), Tail(ys));
      if |xs| > 1 && |ys| > 1 {
        LessAfterPrefix(".", Join(xs[1..], '.'), Join(ys[1..], '.'));
        JoinedTextOrder(xs[1..], ys[1..]);
      }
    }
  }

  // ---------- numbers ----------

  function StripZeros(s: string): string {
    if s != "" && s[0] == '0' then StripZeros(s[1..]) else s
  }

  /** Without leading zeros, the shorter number is the smaller one, and text decides among equals. */
  predicate NumberPrecedes(x: string, y: string) {
    var u, v := StripZeros(x), StripZeros(y);
    |u| < |v| || (|u| == |v| && Less(u, v))
  }

  function Pow10(n: nat): nat {
    if n == 0 then 1 else 10 * Pow10(n - 1)
  }

  lemma {:induction false} LessSnoc(u: string, c: char, v: string, d: char)
    requires |u| == |v|
    ensures Less(u + [c], v + [d]) <==> Less(u, v) || (u == v && c < d)
  {
    if u == "" {
      assert (u + [c])[1..] == "" == (v + [d])[1..];
    } else {
      assert (u + [c])[1..] == u[1..] + [c] && (v + [d])[1..] == v[1..] + [d];
      assert u == [u[0]] + u[1..] && v == [v[0]] + v[1..];
      LessSnoc(u[1..], c, v[1..], d);
    }
  }

  /** Numbers of the same length compare as text. */
  lemma {:induction false} SameLength(u: string, v: string)
    requires |u| == |v| && Digits(u) && Digits(v)
    ensures Less(u, v) <==> DigitsValue(u) < DigitsValue(v)
    decreases |u|
  {
    if u != "" {
      var u', v' := u[..|u| - 1], v[..|v| - 1];
      SameLength(u', v');
      SameLength(v', u');
      LessIsStrictTotalOrder(u', v', u');
      assert u == u' + [u[|u| - 1]] && v == v' + [v[|v| - 1]];
      LessSnoc(u', u[|u| - 1], v', v[|v| - 1]);
    }
  }

  lemma {:induction false} ValueBounds(u: string)
    requires Digits(u)
    ensures DigitsValue(u) < Pow10(|u|)
    ensures u != "" && u[0] != '0' ==> DigitsValue(u) >= Pow10(|u| - 1)
  {
    if u != "" {
      ValueBounds(u[..|u| - 1]);
      assert IsDigit(u[0]) by { assert u[0] in u; }
      assert |u| == 1 ==> u[..0] == "";
    }
  }

  lemma {:induction false} Pow10Grows(m: nat, n: nat)
    requires m <= n
    ensures Pow10(m) <= Pow10(n)
  {
    if m < n { Pow10Grows(m, n - 1); }
  }

  lemma {:induction false} LeadingZero(s: string)
    requires s != "" && s[0] == '0' && Digits(s)
    ensures Digits(s[1..]) && DigitsValue(s[1..]) == DigitsValue(s)
  {
    if |s| == 1 {
      assert s[1..] == "" == s[..0];
    } else {
      var init := s[..|s| - 1];
      LeadingZero(init);
      assert s[1..][..|s| - 2] == init[1..];
    }
  }

  lemma {:induction false} StripZerosKeepsValue(s: string)
    requires Digits(s)
    ensures var u := StripZeros(s); Digits(u) && DigitsValue(u) == DigitsValue(s) && (u == "" || u[0] != '0')
  {
    if s != "" && s[0] == '0' {
      LeadingZero(s);
      StripZerosKeepsValue(s[1..]);
    }
  }

  lemma ShorterIsSmaller(u: string, v: string)
    requires Digits(u) && Digits(v) && |u| < |v| && v[0] != '0'
    ensures DigitsValue(u) < DigitsValue(v)
  {
    ValueBounds(u);
    ValueBounds(v);
    Pow10Grows(|u|, |v| - 1);
  }

  lemma NumberPrecedesIsByValue(x: string, y: string)
    requires Digits(x) && Digits(y)
    ensures NumberPrecedes(x, y) <==> DigitsValue(x) < DigitsValue(y)
  {
    StripZerosKeepsValue(x);
    StripZerosKeepsValue(y);
    var u, v := StripZeros(x), StripZeros(y);
    if |u| < |v| {
      ShorterIsSmaller(u, v);
    } else if |u| > |v| {
      ShorterIsSmaller(v, u);
    } else {
      SameLength(u, v);
    }
  }

  // ---------- where the code follows the standard ----------

  /** What must hold of the first identifiers that differ: two numbers must be ordered by length and
      text alike; a number must come first in the text; and two words must not be turned round. */
  predicate Ordered(x: string, y: string, xGoesOn: bool, yGoesOn: bool) {
    var flipped := Flipped(x, y, xGoesOn, yGoesOn);
    if Digits(x) && Digits(y) then Less(x, y) == NumberPrecedes(x, y)
    else if Digits(x) then Less(x, y) != flipped
    else if Digits(y) then Less(x, y) == flipped
    else !flipped
  }

  predicate FirstDifferenceOrdered(xs: seq<string>, ys: seq<string>) {
    if xs == [] || ys == [] then true
    else if xs[0] != ys[0] then Ordered(xs[0], ys[0], |xs| > 1, |ys| > 1)
    else FirstDifferenceOrdered(xs[1..], ys[1..])
  }

  /** Between numbers nothing is turned round: digits come after '.'. */
  lemma NumbersAreNotFlipped(x: string, y: string, xGoesOn: bool, yGoesOn: bool)
    requires Digits(x) && Digits(y)
    ensures !Flipped(x, y, xGoesOn, yGoesOn)
  {
    if x < y { assert y[|x|] in y; }
    if y < x { assert x[|y|] in x; }
  }

  lemma {:induction false} ListsAgreeIff(xs: seq<string>, ys: seq<string>)
    ensures (TextPrecedes(xs, ys) <==> IdentifiersPrecede(xs, ys)) <==> FirstDifferenceOrdered(xs, ys)
    decreases |xs|
  {
    if xs != [] && ys != [] {
      if xs[0] == ys[0] {
        ListsAgreeIff(xs[1..], ys[1..]);
      } else if Digits(xs[0]) && Digits(ys[0]) {
        NumberPrecedesIsByValue(xs[0], ys[0]);
        NumbersAreNotFlipped(xs[0], ys[0], |xs| > 1, |ys| > 1);
      }
    }
  }

  predicate FollowsStandard(a: Version, b: Version) {
    || (a.major, a.minor, a.patch) != (b.major, b.minor, b.patch)
    || a.pre == "" || b.pre == ""
    || FirstDifferenceOrdered(Split(a.pre, '.'), Split(b.pre, '.'))
  }

  /** For all versions: the comparison agrees with section 11 if and only if the numbers differ, a side
      is stable, or the first identifiers in which the pre-releases differ are ordered alike. */
  lemma IsNewerFollowsSection11(a: Version, b: Version)
    ensures (IsNewer(a, b) <==> Precedes(a, b)) <==> FollowsStandard(a, b)
  {
    if (a.major, a.minor, a.patch) == (b.major, b.minor, b.patch) && a.pre != "" && b.pre != "" {
      var xs, ys := Split(a.pre, '.'), Split(b.pre, '.');
      JoinOfSplit(a.pre, '.');
      JoinOfSplit(b.pre, '.');
      JoinedTextOrder(xs, ys);
      ListsAgreeIff(xs, ys);
    }
  }

  predicate OneWord(pre: string) {
    '.' !in pre && !Digits(pre)
  }

  /** In particular it agrees when each pre-release is a single identifier that is not a number. */
  lemma OneWordsAreOrdered(a: Version, b: Version)
    requires OneWord(a.pre) && OneWord(b.pre)
    ensures IsNewer(a, b) <==> Precedes(a, b)
  {
    assert IndexOf(a.pre, '.') < 0 && IndexOf(b.pre, '.') < 0;
    var xs, ys := Split(a.pre, '.'), Split(b.pre, '.');
    assert xs == [a.pre] && ys == [b.pre] && xs[1..] == [] == ys[1..];
    assert FirstDifferenceOrdered(xs, ys);
    IsNewerFollowsSection11(a, b);
  }

  /** Among numbers as the standard writes them, without leading zeros, it agrees exactly when they are
      equally long or the shorter one comes first in the text. */
  lemma PlainNumbersOrdered(x: string, y: string, xGoesOn: bool, yGoesOn: bool)
    requires Digits(x) && Digits(y) && x != "" && y != "" && x[0] != '0' && y[0] != '0'
    ensures Ordered(x, y, xGoesOn, yGoesOn) <==> |x| == |y| || (Less(x, y) <==> |x| < |y|)
  {
  }

  lemma TwoBeforeTen()
    ensures Split("rc.2", '.') == ["rc", "2"] && Split("rc.10", '.') == ["rc", "10"]
    ensures Digits("2") && Digits("10")
  {
    assert ["rc", "2"][1..] == ["2"] && ["rc", "10"][1..] == ["10"];
    assert Join(["rc", "2"], '.') == "rc.2" && Join(["rc", "10"], '.') == "rc.10";
    SplitOfJoin(["rc", "2"], '.');
    SplitOfJoin(["rc", "10"], '.');
    assert "2"[..0] == "" && "10"[..1] == "1" && "1"[..0] == "";
  }

  /** So rc.10 and rc.2 are compared the wrong way round. */
  lemma TextOrderMisordersNumbers()
    ensures var a, b := Version(1, 0, 0, "rc.2"), Version(1, 0, 0, "rc.10");
            Precedes(a, b) && !IsNewer(a, b)
  {
    var a, b := Version(1, 0, 0, "rc.2"), Version(1, 0, 0, "rc.10");
    TwoBeforeTen();
    assert ["rc", "2"][1..] == ["2"] && ["rc", "10"][1..] == ["10"];
    NumberPrecedesIsByValue("2", "10");
    assert IdentifiersPrecede(["2"], ["10"]);
    assert !FirstDifferenceOrdered(["2"], ["10"]);
    IsNewerFollowsSection11(a, b);
  }
}
