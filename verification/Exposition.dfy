/**
 The line printer of the metrics endpoint (internal/observ/metrics.go), and a reader for sample
 lines of the Prometheus text exposition format 0.0.4 that undoes it.
 */
module Exposition {
  import opened Wrappers
  import Text

  datatype Label = Label(name: string, value: string)

  // ---------- the printer ----------

  function EscapeChar(c: char): string {
    if c == '\\' then "\\\\"
    else if c == '"' then "\\\""
    else if c == '\n' then "\\n"
    else [c]
  }

  /** strings.NewReplacer with one-character patterns works character by character. */
  function EscapeLabelValue(s: string): string {
    if s == "" then "" else EscapeChar(s[0]) + EscapeLabelValue(s[1..])
  }

  function EscapeHelp(s: string): string {
    if s == "" then "" else (if s[0] == '"' then "\"" else EscapeChar(s[0])) + EscapeHelp(s[1..])
  }

  /** The replacers work character by character, and this is what they do to each. */
  lemma EscapedByCharacter(v: string, w: string, c: char)
    ensures EscapeLabelValue(v + w) == EscapeLabelValue(v) + EscapeLabelValue(w)
    ensures EscapeHelp(v + w) == EscapeHelp(v) + EscapeHelp(w)
    ensures EscapeLabelValue("\\") == EscapeHelp("\\") == "\\\\"
    ensures EscapeLabelValue("\n") == EscapeHelp("\n") == "\\n"
    ensures EscapeLabelValue("\"") == "\\\"" && EscapeHelp("\"") == "\""
    ensures c !in {'\\', '\n', '"'} ==> EscapeLabelValue([c]) == EscapeHelp([c]) == [c]
  {
    ValueSplits(v, w);
    HelpSplits(v, w);
    EscapeOne('\\');
    EscapeOne('\n');
    EscapeOne('"');
    EscapeOne(c);
  }

  lemma EscapeOne(c: char)
    ensures EscapeLabelValue([c]) == EscapeChar(c)
    ensures EscapeHelp([c]) == if c == '"' then "\"" else EscapeChar(c)
  {
    assert [c][1..] == "";
  }

  lemma Associative(a: string, b: string, c: string)
    ensures a + b + c == a + (b + c)
  {
  }

  lemma ConsSplits(v: string, w: string)
    requires v != ""
    ensures v + w == [v[0]] + (v[1..] + w) && (v + w)[0] == v[0] && (v + w)[1..] == v[1..] + w
  {
  }

  lemma {:induction false} ValueSplits(v: string, w: string)
    ensures EscapeLabelValue(v + w) == EscapeLabelValue(v) + EscapeLabelValue(w)
  {
    if v == "" {
      assert v + w == w;
    } else {
      ValueSplits(v[1..], w);
      ConsSplits(v, w);
      Associative(EscapeChar(v[0]), EscapeLabelValue(v[1..]), EscapeLabelValue(w));
    }
  }

  lemma {:induction false} HelpSplits(v: string, w: string)
    ensures EscapeHelp(v + w) == EscapeHelp(v) + EscapeHelp(w)
  {
    if v == "" {
      assert v + w == w;
    } else {
      HelpSplits(v[1..], w);
      ConsSplits(v, w);
      Associative(if v[0] == '"' then "\"" else EscapeChar(v[0]), EscapeHelp(v[1..]), EscapeHelp(w));
    }
  }

  function PrintLabel(l: Label): string {
    l.name + "=\"" + EscapeLabelValue(l.value) + "\""
  }

  function PrintLabels(labels: seq<Label>): string {
    if labels == [] then "" else PrintLabel(labels[0]) + PrintMore(labels[1..])
  }

  /** The labels after the first, with a comma before each. */
  function PrintMore(labels: seq<Label>): string {
    if labels == [] then "" else "," + PrintLabel(labels[0]) + PrintMore(labels[1..])
  }

  function PrintSample(name: string, labels: seq<Label>, value: string): string {
    name + (if labels == [] then "" else "{" + PrintLabels(labels) + "}") + " " + value + "\n"
  }

  lemma Regroup(a: string, b: string, c: string, d: string)
    ensures a + b + c + d == a + (b + (c + d))
    ensures a + b + (c + d) == a + b + c + d
  {
  }

  lemma {:induction false} PrintMoreSnoc(labels: seq<Label>, l: Label)
    ensures PrintMore(labels + [l]) == PrintMore(labels) + ("," + PrintLabel(l))
  {
    if labels == [] {
      assert [] + [l] == [l] && [l][1..] == [];
    } else {
      PrintMoreSnoc(labels[1..], l);
      var longer, first, more, last := labels + [l], PrintLabel(labels[0]), PrintMore(labels[1..]), "," + PrintLabel(l);
      assert longer[0] == labels[0] && longer[1..] == labels[1..] + [l];
      assert PrintMore(longer) == "," + first + (more + last);
      Regroup(",", first, more, last);
    }
  }

  lemma PrintLabelsGrow(labels: seq<Label>, i: nat)
    requires i < |labels|
    ensures PrintLabels(labels[..i + 1])
         == PrintLabels(labels[..i]) + ((if i > 0 then "," else "") + PrintLabel(labels[i]))
  {
    if i > 0 {
      PrintMoreSnoc(labels[1..i], labels[i]);
      assert labels[..i + 1][1..] == labels[1..i] + [labels[i]];
      assert labels[..i][1..] == labels[1..i];
    }
  }

  /** The writes of one round of the loop. */
  method WriteLabel(before: string, l: Label, comma: bool) returns (b: string)
    ensures b == before + (if comma then "," else "") + PrintLabel(l)
  {
    b := before;
    if comma {
      b := b + ",";
    }
    ghost var start := b;
    b := b + l.name;
    b := b + "=\"";
    b := b + EscapeLabelValue(l.value);
    b := b + "\"";
    assert b == start + (l.name + "=\"" + EscapeLabelValue(l.value) + "\"");
  }

  method WriteLabels(name: string, labels: seq<Label>) returns (b: string)
    ensures b == name + "{" + PrintLabels(labels) + "}"
  {
    b := name;
    b := b + "{";
    for i := 0 to |labels|
      invariant b == name + "{" + PrintLabels(labels[..i])
    {
      PrintLabelsGrow(labels, i);
      b := WriteLabel(b, labels[i], i > 0);
      Regroup(name + "{", PrintLabels(labels[..i]), if i > 0 then "," else "", PrintLabel(labels[i]));
    }
    assert labels[..|labels|] == labels;
    b := b + "}";
  }

  /** `value` is the number as formatFloat has rendered it. */
  method WriteSample(name: string, labels: seq<Label>, value: string) returns (line: string)
    ensures line == PrintSample(name, labels, value)
  {
    if |labels| == 0 {
      line := name + " " + value + "\n";
      assert name + "" == name;
    } else {
      var b := WriteLabels(name, labels);
      line := b + " " + value + "\n";
      assert b == name + ("{" + PrintLabels(labels) + "}");
    }
  }

  // ---------- the reader ----------

  predicate LabelNameChar(c: char) {
    'a' <= c <= 'z' || 'A' <= c <= 'Z' || Text.IsDigit(c) || c == '_'
  }

  /** The longest prefix of name characters, and what follows it. */
  function TakeName(s: string, colon: bool): (string, string) {
    if s != "" && (LabelNameChar(s[0]) || (colon && s[0] == ':')) then
      var (name, rest) := TakeName(s[1..], colon);
      ([s[0]] + name, rest)
    else
      ("", s)
  }

  function SkipBlanks(s: string): string {
    if s != "" && (s[0] == ' ' || s[0] == '\t') then SkipBlanks(s[1..]) else s
  }

  /** The characters up to the closing quote, unescaped, and what follows the quote. */
  function TakeQuoted(s: string): Option<(string, string)> {
    if s == "" || s[0] == '\n' then None
    else if s[0] == '"' then Some(("", s[1..]))
    else if s[0] != '\\' then
      match TakeQuoted(s[1..])
      case Some((v, rest)) => Some(([s[0]] + v, rest))
      case None => None
    else if |s| >= 2 && s[1] in {'\\', '"', 'n'} then
      match TakeQuoted(s[2..])
      case Some((v, rest)) => Some(([if s[1] == 'n' then '\n' else s[1]] + v, rest))
      case None => None
    else None
  }

  /** One label: name, '=', quoted value, with blanks between the tokens. */
  function TakeLabel(s: string): Option<(Label, string)> {
    var (name, afterName) := TakeName(s, false);
    var eq := SkipBlanks(afterName);
    if name == "" || Text.IsDigit(name[0]) || eq == "" || eq[0] != '=' then None
    else
      var quote := SkipBlanks(eq[1..]);
      if quote == "" || quote[0] != '"' then None
      else
        match TakeQuoted(quote[1..])
        case Some((v, rest)) => Some((Label(name, v), SkipBlanks(rest)))
        case None => None
  }

  lemma {:induction false} SkipBlanksShortens(s: string)
    ensures |SkipBlanks(s)| <= |s|
  {
    if s != "" && (s[0] == ' ' || s[0] == '\t') { SkipBlanksShortens(s[1..]); }
  }

  lemma {:induction false} TakeNameShortens(s: string, colon: bool)
    ensures |TakeName(s, colon).1| <= |s|
  {
    if s != "" { TakeNameShortens(s[1..], colon); }
  }

  lemma {:induction false} TakeQuotedShortens(s: string)
    ensures TakeQuoted(s).Some? ==> |TakeQuoted(s).value.1| < |s|
    decreases |s|
  {
    if s != "" && s[0] != '"' {
      TakeQuotedShortens(s[1..]);
      if |s| >= 2 { TakeQuotedShortens(s[2..]); }
    }
  }

  lemma TakeLabelShortens(s: string)
    ensures TakeLabel(s).Some? ==> |TakeLabel(s).value.1| < |s|
  {
    if TakeLabel(s).Some? {
      var afterName := TakeName(s, false).1;
      TakeNameShortens(s, false);
      SkipBlanksShortens(afterName);
      var eq := SkipBlanks(afterName);
      SkipBlanksShortens(eq[1..]);
      var quote := SkipBlanks(eq[1..]);
      TakeQuotedShortens(quote[1..]);
      SkipBlanksShortens(TakeQuoted(quote[1..]).value.1);
    }
  }

  /** The labels up to the closing brace; the format allows a comma before it. */
  function TakeLabels(s: string): Option<(seq<Label>, string)>
    decreases |s|
  {
    if s != "" && s[0] == '}' then Some(([], s[1..]))
    else
      TakeLabelShortens(s);
      SkipBlanksShortens(if TakeLabel(s).Some? && TakeLabel(s).value.1 != "" then TakeLabel(s).value.1[1..] else "");
      match TakeLabel(s)
      case None => None
      case Some((l, rest)) =>
        if rest != "" && rest[0] == '}' then Some(([l], rest[1..]))
        else if rest != "" && rest[0] == ',' then
          match TakeLabels(SkipBlanks(rest[1..]))
          case Some((more, after)) => Some(([l] + more, after))
          case None => None
        else None
  }

  /** The rest of the line: the number, and a timestamp if there is one. */
  function TakeLine(s: string): Option<string> {
    if s == "" then None
    else if s[0] == '\n' then Some("")
    else
      match TakeLine(s[1..])
      case Some(t) => Some([s[0]] + t)
      case None => None
  }

  datatype Sample = Sample(name: string, labels: seq<Label>, value: string)

  function ReadSample(s: string): Option<Sample> {
    var (name, afterName) := TakeName(s, true);
    var next := SkipBlanks(afterName);
    if name == "" || Text.IsDigit(name[0]) then None
    else
      var labels := if next != "" && next[0] == '{' then TakeLabels(SkipBlanks(next[1..])) else Some(([], next));
      match labels
      case None => None
      case Some((ls, rest)) =>
        match TakeLine(SkipBlanks(rest))
        case Some(value) => Some(Sample(name, ls, value))
        case None => None
  }

  // ---------- the reader undoes the printer ----------

  predicate ValidName(s: string, colon: bool) {
    s != "" && !Text.IsDigit(s[0]) && forall c :: c in s ==> LabelNameChar(c) || (colon && c == ':')
  }

  predicate ValidNumber(s: string) {
    s != "" && s[0] !in {' ', '\t', '{'} && '\n' !in s
  }

  lemma {:induction false} NameTaken(name: string, rest: string, colon: bool)
    requires forall c :: c in name ==> LabelNameChar(c) || (colon && c == ':')
    requires rest != "" && rest[0] in {'=', '{', ' '}
    ensures TakeName(name + rest, colon) == (name, rest)
  {
    if name == "" {
      assert name + rest == rest;
    } else {
      assert (name + rest)[1..] == name[1..] + rest;
      NameTaken(name[1..], rest, colon);
      assert name == [name[0]] + name[1..];
    }
  }

  lemma EscapedCharTaken(c: char, more: string)
    requires TakeQuoted(more).Some?
    ensures TakeQuoted(EscapeChar(c) + more) == Some(([c] + TakeQuoted(more).value.0, TakeQuoted(more).value.1))
  {
    var s := EscapeChar(c) + more;
    if |EscapeChar(c)| == 1 {
      assert s[1..] == more;
    } else {
      assert s[2..] == more;
    }
  }

  /** No quote, backslash or newline inside a value closes it early or breaks the line. */
  lemma {:induction false} QuotedTaken(v: string, rest: string)
    ensures TakeQuoted(EscapeLabelValue(v) + ("\"" + rest)) == Some((v, rest))
  {
    var end := "\"" + rest;
    if v == "" {
      assert "" + end == end && end[1..] == rest;
    } else {
      QuotedTaken(v[1..], rest);
      var more := EscapeLabelValue(v[1..]);
      EscapedCharTaken(v[0], more + end);
      Regroup("", EscapeChar(v[0]), more, end);
      assert "" + EscapeChar(v[0]) == EscapeChar(v[0]);
      assert v == [v[0]] + v[1..];
    }
  }

  lemma {:induction false} EscapedIsOneLine(v: string)
    ensures '\n' !in EscapeLabelValue(v)
  {
    if v != "" { EscapedIsOneLine(v[1..]); }
  }

  /** Different values are escaped differently, and no escaped value contains a raw newline. */
  lemma EscapingIsInjective(v: string, w: string)
    ensures EscapeLabelValue(v) == EscapeLabelValue(w) <==> v == w
    ensures '\n' !in EscapeLabelValue(v)
  {
    QuotedTaken(v, "");
    QuotedTaken(w, "");
    EscapedIsOneLine(v);
  }

  lemma ValueTaken(name: string, value: string, rest: string)
    requires ValidName(name, false)
    requires rest != "" && rest[0] in {',', '}'}
    ensures TakeLabel(name + ("=" + ("\"" + (EscapeLabelValue(value) + ("\"" + rest)))))
         == Some((Label(name, value), rest))
  {
    var quoted := EscapeLabelValue(value) + ("\"" + rest);
    var tail := "=" + ("\"" + quoted);
    NameTaken(name, tail, false);
    assert tail[1..] == "\"" + quoted && ("\"" + quoted)[1..] == quoted;
    assert SkipBlanks(tail) == tail && SkipBlanks("\"" + quoted) == "\"" + quoted && SkipBlanks(rest) == rest;
    QuotedTaken(value, rest);
  }

  lemma LabelTaken(l: Label, rest: string)
    requires ValidName(l.name, false)
    requires rest != "" && rest[0] in {',', '}'}
    ensures TakeLabel(PrintLabel(l) + rest) == Some((l, rest))
  {
    var e := EscapeLabelValue(l.value);
    assert l.name + "=\"" + e + "\"" + rest == l.name + ("=" + ("\"" + (e + ("\"" + rest))));
    ValueTaken(l.name, l.value, rest);
  }

  lemma LabelStart(l: Label, rest: string)
    requires ValidName(l.name, false)
    ensures var s := PrintLabel(l) + rest; s != "" && s[0] != '}' && SkipBlanks(s) == s
  {
    assert (PrintLabel(l) + rest)[0] == l.name[0] && l.name[0] in l.name;
  }

  /** The text after the opening brace, from the first label on. */
  function Body(labels: seq<Label>, rest: string): string
    requires labels != []
  {
    PrintLabel(labels[0]) + (PrintMore(labels[1..]) + ("}" + rest))
  }

  lemma MoreIsCommaAndBody(labels: seq<Label>, rest: string)
    requires labels != []
    ensures PrintMore(labels) + ("}" + rest) == "," + Body(labels, rest)
  {
    var first, more, tail := PrintLabel(labels[0]), PrintMore(labels[1..]), "}" + rest;
    assert PrintMore(labels) == "," + first + more;
    Regroup(",", first, more, tail);
  }

  lemma {:induction false} LabelsTaken(labels: seq<Label>, rest: string)
    requires labels != [] && forall l :: l in labels ==> ValidName(l.name, false)
    ensures TakeLabels(Body(labels, rest)) == Some((labels, rest))
    decreases |labels|
  {
    var first, others := labels[0], labels[1..];
    assert labels == [first] + others;
    if others == [] {
      assert PrintMore(others) + ("}" + rest) == "}" + rest;
      LastLabelTaken(first, rest);
      assert labels == [first];
    } else {
      LabelsTaken(others, rest);
      MoreIsCommaAndBody(others, rest);
      LabelStart(others[0], PrintMore(others[1..]) + ("}" + rest));
      FirstLabelTaken(first, Body(others, rest));
    }
  }

  lemma LastLabelTaken(l: Label, rest: string)
    requires ValidName(l.name, false)
    ensures TakeLabels(PrintLabel(l) + ("}" + rest)) == Some(([l], rest))
  {
    LabelTaken(l, "}" + rest);
    LabelStart(l, "}" + rest);
    assert ("}" + rest)[1..] == rest;
  }

  lemma FirstLabelTaken(l: Label, next: string)
    requires ValidName(l.name, false)
    requires SkipBlanks(next) == next && TakeLabels(next).Some?
    ensures TakeLabels(PrintLabel(l) + ("," + next)) == Some(([l] + TakeLabels(next).value.0, TakeLabels(next).value.1))
  {
    LabelTaken(l, "," + next);
    LabelStart(l, "," + next);
    assert ("," + next)[1..] == next;
  }

  lemma {:induction false} LineTaken(value: string)
    requires '\n' !in value
    ensures TakeLine(value + "\n") == Some(value)
  {
    if value != "" {
      LineTaken(value[1..]);
      assert (value + "\n")[1..] == value[1..] + "\n";
      assert value == [value[0]] + value[1..];
    }
  }

  lemma NumberTaken(value: string)
    requires ValidNumber(value)
    ensures var line := SkipBlanks(" " + (value + "\n"));
            line != "" && line[0] != '{' && SkipBlanks(line) == line && TakeLine(line) == Some(value)
  {
    LineTaken(value);
    assert (" " + (value + "\n"))[1..] == value + "\n";
  }

  lemma BracedRead(name: string, labels: seq<Label>, value: string)
    requires ValidName(name, true) && ValidNumber(value)
    requires labels != [] && forall l :: l in labels ==> ValidName(l.name, false)
    ensures ReadSample(name + ("{" + Body(labels, " " + (value + "\n")))) == Some(Sample(name, labels, value))
  {
    var end := " " + (value + "\n");
    var body := Body(labels, end);
    NumberTaken(value);
    LabelsTaken(labels, end);
    LabelStart(labels[0], PrintMore(labels[1..]) + ("}" + end));
    NameTaken(name, "{" + body, true);
    assert ("{" + body)[1..] == body;
  }

  lemma BareRead(name: string, value: string)
    requires ValidName(name, true) && ValidNumber(value)
    ensures ReadSample(name + (" " + (value + "\n"))) == Some(Sample(name, [], value))
  {
    var end := " " + (value + "\n");
    NumberTaken(value);
    NameTaken(name, end, true);
  }

  lemma PrintedShape(name: string, labels: seq<Label>, value: string)
    ensures var end := " " + (value + "\n");
            PrintSample(name, labels, value) == name + if labels == [] then end else "{" + Body(labels, end)
  {
    var end := " " + (value + "\n");
    if labels == [] {
      assert name + "" + " " + value + "\n" == name + end;
    } else {
      var first, more := PrintLabel(labels[0]), PrintMore(labels[1..]);
      Regroup(name, "{" + (first + more) + "}", " ", value + "\n");
      assert "{" + (first + more) + "}" + end == "{" + (first + (more + ("}" + end)));
      Regroup(name + ("{" + (first + more) + "}"), " ", value, "\n");
    }
  }

  /** A printed sample is read back exactly, whatever characters its label values contain. */
  lemma ReadOfPrint(name: string, labels: seq<Label>, value: string)
    requires ValidName(name, true) && ValidNumber(value)
    requires forall l :: l in labels ==> ValidName(l.name, false)
    ensures ReadSample(PrintSample(name, labels, value)) == Some(Sample(name, labels, value))
  {
    PrintedShape(name, labels, value);
    if labels == [] {
      BareRead(name, value);
    } else {
      BracedRead(name, labels, value);
    }
  }

  // ---------- HELP text ----------

  /** In HELP text the quote stands for itself. */
  function UnescapeHelp(s: string): Option<string> {
    if s == "" then Some("")
    else if s[0] == '\n' then None
    else if s[0] != '\\' then
      match UnescapeHelp(s[1..])
      case Some(t) => Some([s[0]] + t)
      case None => None
    else if |s| >= 2 && s[1] in {'\\', 'n'} then
      match UnescapeHelp(s[2..])
      case Some(t) => Some([if s[1] == 'n' then '\n' else '\\'] + t)
      case None => None
    else None
  }

  lemma {:induction false} HelpIsRecovered(s: string)
    ensures UnescapeHelp(EscapeHelp(s)) == Some(s)
  {
    if s != "" {
      HelpIsRecovered(s[1..]);
      var first := if s[0] == '"' then "\"" else EscapeChar(s[0]);
      var e := EscapeHelp(s);
      assert e == first + EscapeHelp(s[1..]) && s == [s[0]] + s[1..];
      if |first| == 1 {
        assert e[1..] == EscapeHelp(s[1..]);
      } else {
        assert e[2..] == EscapeHelp(s[1..]);
      }
    }
  }
}
