/** The few operations of Go's `strings` and `strconv` that the agent's parsers use. */
module Text {
  import opened Wrappers
  import Int64

  // ---------- strings.TrimSpace ----------

  /** Unicode's White_Space, as unicode.IsSpace has it. */
  predicate IsSpace(c: char) {
    var n := c as int;
    || 9 <= n <= 13 || n == 0x20 || n == 0x85 || n == 0xA0 || n == 0x1680
    || 0x2000 <= n <= 0x200A || n == 0x2028 || n == 0x2029 || n == 0x202F || n == 0x205F || n == 0x3000
  }

  ghost predicate Blank(s: string) {
    forall c :: c in s ==> IsSpace(c)
  }

  predicate Trimmed(s: string) {
    s == "" || (!IsSpace(s[0]) && !IsSpace(s[|s| - 1]))
  }

  function TrimLeft(s: string): string {
    if s != "" && IsSpace(s[0]) then TrimLeft(s[1..]) else s
  }

  function TrimRight(s: string): string {
    if s != "" && IsSpace(s[|s| - 1]) then TrimRight(s[..|s| - 1]) else s
  }

  function TrimSpace(s: string): string {
    TrimRight(TrimLeft(s))
  }

  lemma {:induction false} TrimLeftSplits(s: string)
    ensures exists pad :: Blank(pad) && s == pad + TrimLeft(s)
    ensures TrimLeft(s) == "" || !IsSpace(TrimLeft(s)[0])
  {
    if s != "" && IsSpace(s[0]) {
      TrimLeftSplits(s[1..]);
      var pad :| Blank(pad) && s[1..] == pad + TrimLeft(s[1..]);
      assert Blank([s[0]] + pad) && s == [s[0]] + pad + TrimLeft(s);
    } else {
      assert Blank("") && s == "" + s;
    }
  }

  lemma {:induction false} TrimRightSplits(s: string)
    ensures exists pad :: Blank(pad) && s == TrimRight(s) + pad
    ensures TrimRight(s) == "" || !IsSpace(TrimRight(s)[|TrimRight(s)| - 1])
  {
    if s != "" && IsSpace(s[|s| - 1]) {
      var init, last := s[..|s| - 1], s[|s| - 1];
      TrimRightSplits(init);
      var pad :| Blank(pad) && init == TrimRight(init) + pad;
      assert Blank(pad + [last]) && s == TrimRight(s) + (pad + [last]);
    } else {
      assert Blank("") && s == s + "";
    }
  }

  /** TrimSpace cuts blanks off both ends and leaves a trimmed string. */
  lemma TrimSplits(s: string) returns (left: string, right: string)
    ensures Blank(left) && Blank(right) && s == left + TrimSpace(s) + right
    ensures Trimmed(TrimSpace(s))
  {
    TrimLeftSplits(s);
    TrimRightSplits(TrimLeft(s));
    left :| Blank(left) && s == left + TrimLeft(s);
    right :| Blank(right) && TrimLeft(s) == TrimSpace(s) + right;
    assert TrimSpace(s) != "" ==> TrimSpace(s)[0] == TrimLeft(s)[0];
  }

  lemma {:induction false} TrimLeftPadded(left: string, s: string)
    requires Blank(left)
    ensures TrimLeft(left + s) == TrimLeft(s)
  {
    if left == "" {
      assert left + s == s;
    } else {
      assert (left + s)[1..] == left[1..] + s;
      TrimLeftPadded(left[1..], s);
    }
  }

  lemma {:induction false} TrimRightPadded(s: string, right: string)
    requires Blank(right)
    ensures TrimRight(s + right) == TrimRight(s)
  {
    if right == "" {
      assert s + right == s;
    } else {
      assert (s + right)[..|s + right| - 1] == s + right[..|right| - 1];
      TrimRightPadded(s, right[..|right| - 1]);
    }
  }

  /** TrimSpace undoes padding. */
  lemma TrimPadded(left: string, s: string, right: string)
    requires Blank(left) && Blank(right) && Trimmed(s)
    ensures TrimSpace(left + s + right) == s
  {
    assert left + s + right == left + (s + right);
    TrimLeftPadded(left, s + right);
    if s == "" {
      assert s + right == right + "";
      TrimLeftPadded(right, "");
    } else {
      TrimRightPadded(s, right);
    }
  }

  // ---------- strings.IndexByte, strings.Split ----------

  function IndexOf(s: string, c: char): (i: int)
    ensures -1 <= i < |s|
    ensures i >= 0 ==> s[i] == c && c !in s[..i]
    ensures i < 0 ==> c !in s
  {
    if s == "" then -1
    else if s[0] == c then 0
    else
      var i := IndexOf(s[1..], c);
      assert i >= 0 ==> s[..i + 1] == [s[0]] + s[1..][..i];
      assert s == [s[0]] + s[1..];
      if i < 0 then -1 else i + 1
  }

  lemma FirstIndex(before: string, c: char, after: string)
    requires c !in before
    ensures IndexOf(before + [c] + after, c) == |before|
  {
    var s := before + [c] + after;
    assert s[|before|] == c && s[..|before|] == before;
    assert forall i :: |before| < i <= |s| ==> s[..i][|before|] == c;
  }

  function Split(s: string, sep: char): (parts: seq<string>)
    ensures parts != []
    decreases |s|
  {
    var i := IndexOf(s, sep);
    if i < 0 then [s] else [s[..i]] + Split(s[i + 1..], sep)
  }

  function Join(parts: seq<string>, sep: char): string {
    if parts == [] then ""
    else if |parts| == 1 then parts[0]
    else parts[0] + [sep] + Join(parts[1..], sep)
  }

  /** Split undoes Join when no part contains the separator. */
  lemma {:induction false} SplitOfJoin(parts: seq<string>, sep: char)
    requires parts != [] && forall p :: p in parts ==> sep !in p
    ensures Split(Join(parts, sep), sep) == parts
  {
    if |parts| == 1 {
      assert parts[0] in parts && sep !in parts[0];
      assert parts == [parts[0]];
    } else {
      var rest := Join(parts[1..], sep);
      FirstIndex(parts[0], sep, rest);
      var s := parts[0] + [sep] + rest;
      assert s[..|parts[0]|] == parts[0] && s[|parts[0]| + 1..] == rest;
      SplitOfJoin(parts[1..], sep);
      assert parts == [parts[0]] + parts[1..];
    }
  }

  /** The parts of any string are free of the separator, and Join puts them together again. */
  lemma {:induction false} JoinOfSplit(s: string, sep: char)
    ensures Join(Split(s, sep), sep) == s
    ensures forall p :: p in Split(s, sep) ==> sep !in p
    decreases |s|
  {
    var i := IndexOf(s, sep);
    if i >= 0 {
      JoinOfSplit(s[i + 1..], sep);
      var rest := Split(s[i + 1..], sep);
      assert ([s[..i]] + rest)[1..] == rest;
      assert s == s[..i] + [sep] + s[i + 1..];
    }
  }

  // ---------- strconv ----------

  predicate IsDigit(c: char) { '0' <= c <= '9' }

  ghost predicate AllDigits(s: string) {
    forall c :: c in s ==> IsDigit(c)
  }

  predicate Digits(s: string)
    ensures Digits(s) <==> AllDigits(s)
  {
    if s == "" then true
    else
      assert s == s[..|s| - 1] + [s[|s| - 1]];
      IsDigit(s[|s| - 1]) && Digits(s[..|s| - 1])
  }

  function DigitsValue(s: string): nat
    requires Digits(s)
  {
    if s == "" then 0
    else 10 * DigitsValue(s[..|s| - 1]) + (s[|s| - 1] as int - '0' as int)
  }

  /** strconv.Atoi: an optional sign, at least one decimal digit, and a value that fits in 64 bits. */
  function Atoi(s: string): Option<int> {
    var signed := s != "" && (s[0] == '+' || s[0] == '-');
    var digits := if signed then s[1..] else s;
    if digits == "" || !Digits(digits) then None
    else
      var size: int := DigitsValue(digits);
      var n := if signed && s[0] == '-' then -size else size;
      if Int64.MIN <= n <= Int64.MAX then Some(n) else None
  }

  /** strconv.Itoa of a non-negative number. */
  function Itoa(n: nat): (s: string)
    ensures s != "" && Digits(s)
  {
    var last := ['0' + (n % 10) as char];
    if n < 10 then last
    else
      var s := Itoa(n / 10) + last;
      assert s[..|s| - 1] == Itoa(n / 10);
      s
  }

  lemma {:induction false} AtoiOfItoa(n: nat)
    ensures DigitsValue(Itoa(n)) == n
    ensures n <= Int64.MAX ==> Atoi(Itoa(n)) == Some(n)
  {
    var s := Itoa(n);
    assert IsDigit(s[0]) by { assert s[0] in s; }
    if n < 10 {
      assert s[..0] == "";
    } else {
      AtoiOfItoa(n / 10);
      assert s[..|s| - 1] == Itoa(n / 10);
    }
  }
}
