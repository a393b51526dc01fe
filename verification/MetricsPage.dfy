/** The whole metrics page (internal/observ/metrics.go), line by line, and a reader that undoes it. */
module MetricsPage {
  import opened Wrappers
  import opened Exposition
  import Text

  /** One row of the table of metrics, with its value rendered by formatFloat. */
  datatype Family = Family(name: string, typ: string, help: string, labels: seq<Label>, value: string)

  datatype Line = Help(name: string, text: string) | Type(name: string, typ: string) | Metric(sample: Sample)

  const BUILD_INFO := "vigil_agent_build_info"

  // ---------- the printer ----------

  /** A line without the newline that ends it. */
  function LineText(l: Line): string {
    match l
    case Help(name, text) => "# HELP " + (name + (" " + EscapeHelp(text)))
    case Type(name, typ) => "# TYPE " + (name + (" " + typ))
    case Metric(s) => s.name + (if s.labels == [] then "" else "{" + PrintLabels(s.labels) + "}") + " " + s.value
  }

  function Texts(lines: seq<Line>): seq<string> {
    if lines == [] then [] else [LineText(lines[0])] + Texts(lines[1..])
  }

  function Unlines(texts: seq<string>): string {
    if texts == [] then "" else texts[0] + "\n" + Unlines(texts[1..])
  }

  function PrintPage(lines: seq<Line>): string {
    Unlines(Texts(lines))
  }

  function LinesOf(families: seq<Family>): seq<Line> {
    if families == [] then []
    else
      var f := families[|families| - 1];
      LinesOf(families[..|families| - 1])
      + [Help(f.name, f.help), Type(f.name, f.typ), Metric(Sample(f.name, f.labels, f.value))]
  }

  function BuildLines(buildHelp: string, agentVersion: string): seq<Line> {
    var version := if agentVersion == "" then "dev" else agentVersion;
    [Help(BUILD_INFO, buildHelp), Type(BUILD_INFO, "gauge"),
     Metric(Sample(BUILD_INFO, [Label("version", version)], "1"))]
  }

  lemma {:induction false} TextsAppend(lines: seq<Line>, more: seq<Line>)
    ensures Texts(lines + more) == Texts(lines) + Texts(more)
  {
    if lines == [] {
      assert lines + more == more;
    } else {
      assert (lines + more)[1..] == lines[1..] + more;
      TextsAppend(lines[1..], more);
    }
  }

  lemma {:induction false} UnlinesAppend(texts: seq<string>, more: seq<string>)
    ensures Unlines(texts + more) == Unlines(texts) + Unlines(more)
  {
    if texts == [] {
      assert texts + more == more;
    } else {
      assert (texts + more)[1..] == texts[1..] + more;
      UnlinesAppend(texts[1..], more);
      Regroup(texts[0], "\n", Unlines(texts[1..]), Unlines(more));
    }
  }

  lemma ThreeLines(a: string, b: string, c: string)
    ensures Unlines([a, b, c]) == (a + "\n") + (b + "\n") + (c + "\n")
  {
    assert [a, b, c][1..] == [b, c] && [b, c][1..] == [c] && [c][1..] == [];
    assert Unlines([c]) == c + "\n" + "" == c + "\n";
    assert Unlines([b, c]) == b + "\n" + (c + "\n");
  }

  lemma ThreeTexts(a: Line, b: Line, c: Line)
    ensures Texts([a, b, c]) == [LineText(a), LineText(b), LineText(c)]
  {
    assert [a, b, c][1..] == [b, c] && [b, c][1..] == [c] && [c][1..] == [];
    assert Texts([]) == [];
    assert Texts([c]) == [LineText(c)];
    assert Texts([b, c]) == [LineText(b)] + Texts([c]);
    assert Texts([a, b, c]) == [LineText(a)] + Texts([b, c]);
  }

  lemma PrintThreeMore(lines: seq<Line>, a: Line, b: Line, c: Line)
    ensures PrintPage(lines + [a, b, c])
         == PrintPage(lines) + ((LineText(a) + "\n") + (LineText(b) + "\n") + (LineText(c) + "\n"))
  {
    TextsAppend(lines, [a, b, c]);
    ThreeTexts(a, b, c);
    UnlinesAppend(Texts(lines), Texts([a, b, c]));
    ThreeLines(LineText(a), LineText(b), LineText(c));
  }

  /** The three writes for one metric. */
  method WriteFamily(page: string, f: Family) returns (longer: string)
    ensures longer == page + ((LineText(Help(f.name, f.help)) + "\n") + (LineText(Type(f.name, f.typ)) + "\n")
                              + (LineText(Metric(Sample(f.name, f.labels, f.value))) + "\n"))
  {
    var help := "# HELP " + (f.name + (" " + EscapeHelp(f.help))) + "\n";
    var typ := "# TYPE " + (f.name + (" " + f.typ)) + "\n";
    var sample := WriteSample(f.name, f.labels, f.value);
    longer := page + help;
    longer := longer + typ;
    longer := longer + sample;
    Regroup(page, help, typ, sample);
    assert page + (help + (typ + sample)) == page + (help + typ + sample);
  }

  /** `families` is the table, already sorted by name. `buildHelp` is the fixed help text of the build
      info, which the code prints without escaping it. */
  method WriteExposition(families: seq<Family>, buildHelp: string, agentVersion: string) returns (page: string)
    requires '\\' !in buildHelp && '\n' !in buildHelp
    ensures page == PrintPage(LinesOf(families) + BuildLines(buildHelp, agentVersion))
  {
    page := "";
    for i := 0 to |families|
      invariant page == PrintPage(LinesOf(families[..i]))
    {
      var f := families[i];
      assert families[..i + 1][..i] == families[..i];
      PrintThreeMore(LinesOf(families[..i]), Help(f.name, f.help), Type(f.name, f.typ),
                     Metric(Sample(f.name, f.labels, f.value)));
      page := WriteFamily(page, f);
    }
    assert families[..|families|] == families;
    var version := if agentVersion == "" then "dev" else agentVersion;
    var build := BuildLines(buildHelp, agentVersion);
    PrintThreeMore(LinesOf(families), build[0], build[1], build[2]);
    PlainHelp(buildHelp);
    page := WriteFamily(page, Family(BUILD_INFO, "gauge", buildHelp, [Label("version", version)], "1"));
  }

  lemma {:induction false} PlainHelp(s: string)
    requires '\\' !in s && '\n' !in s
    ensures EscapeHelp(s) == s
  {
    if s != "" {
      assert s == [s[0]] + s[1..];
      PlainHelp(s[1..]);
    }
  }

  // ---------- the reader ----------

  function ReadLine(text: string): Option<Line> {
    if "# HELP " <= text || "# TYPE " <= text then
      var (name, after) := TakeName(text[7..], true);
      if name == "" || Text.IsDigit(name[0]) || after == "" || after[0] != ' ' then None
      else if "# TYPE " <= text then Some(Type(name, after[1..]))
      else
        match UnescapeHelp(after[1..])
        case Some(help) => Some(Help(name, help))
        case None => None
    else
      match ReadSample(text + "\n")
      case Some(s) => Some(Metric(s))
      case None => None
  }

  function ReadPage(page: string): Option<seq<Line>>
    decreases |page|
  {
    if page == "" then Some([])
    else
      var i := Text.IndexOf(page, '\n');
      if i < 0 then None
      else
        match ReadLine(page[..i])
        case None => None
        case Some(l) =>
          match ReadPage(page[i + 1..])
          case Some(more) => Some([l] + more)
          case None => None
  }

  // ---------- the reader undoes the printer ----------

  ghost predicate ValidLine(l: Line) {
    match l
    case Help(name, _) => ValidName(name, true)
    case Type(name, typ) => ValidName(name, true) && '\n' !in typ
    case Metric(s) =>
      ValidName(s.name, true) && ValidNumber(s.value) && forall x :: x in s.labels ==> ValidName(x.name, false)
  }

  lemma {:induction false} EscapedHelpIsOneLine(s: string)
    ensures '\n' !in EscapeHelp(s)
  {
    if s != "" { EscapedHelpIsOneLine(s[1..]); }
  }

  lemma LabelIsOneLine(l: Label)
    requires ValidName(l.name, false)
    ensures '\n' !in PrintLabel(l)
  {
    EscapedIsOneLine(l.value);
  }

  lemma {:induction false} MoreIsOneLine(labels: seq<Label>)
    requires forall x :: x in labels ==> ValidName(x.name, false)
    ensures '\n' !in PrintMore(labels)
  {
    if labels != [] {
      LabelIsOneLine(labels[0]);
      MoreIsOneLine(labels[1..]);
    }
  }

  /** No value of a label and no help text can break a line. */
  lemma LineIsOneLine(l: Line)
    requires ValidLine(l)
    ensures '\n' !in LineText(l)
  {
    match l
    case Help(_, text) => EscapedHelpIsOneLine(text);
    case Type(_, _) =>
    case Metric(s) =>
      if s.labels != [] {
        LabelIsOneLine(s.labels[0]);
        MoreIsOneLine(s.labels[1..]);
      }
  }

  lemma LineIsRead(l: Line)
    requires ValidLine(l)
    ensures ReadLine(LineText(l)) == Some(l)
  {
    match l
    case Help(name, text) =>
      var after := " " + EscapeHelp(text);
      assert LineText(l)[7..] == name + after && after[1..] == EscapeHelp(text);
      assert LineText(l)[2] == 'H';
      NameTaken(name, after, true);
      HelpIsRecovered(text);
    case Type(name, typ) =>
      var after := " " + typ;
      assert LineText(l)[7..] == name + after && after[1..] == typ;
      NameTaken(name, after, true);
    case Metric(s) =>
      assert LineText(l)[0] == s.name[0] && s.name[0] in s.name;
      assert LineText(l) + "\n" == PrintSample(s.name, s.labels, s.value);
      ReadOfPrint(s.name, s.labels, s.value);
  }

  lemma FirstLineIsRead(l: Line, rest: string)
    requires ValidLine(l) && ReadPage(rest).Some?
    ensures ReadPage(LineText(l) + "\n" + rest) == Some([l] + ReadPage(rest).value)
  {
    LineIsOneLine(l);
    LineIsRead(l);
    var text := LineText(l);
    var page := text + ['\n'] + rest;
    Text.FirstIndex(text, '\n', rest);
    assert page[..|text|] == text && page[|text| + 1..] == rest;
  }

  /** A printed page is read back as exactly its lines, whatever the help texts and label values are. */
  lemma {:induction false} PageIsRead(lines: seq<Line>)
    requires forall l :: l in lines ==> ValidLine(l)
    ensures ReadPage(PrintPage(lines)) == Some(lines)
    decreases |lines|
  {
    if lines != [] {
      assert lines == [lines[0]] + lines[1..];
      PageIsRead(lines[1..]);
      FirstLineIsRead(lines[0], PrintPage(lines[1..]));
    }
  }

  ghost predicate ValidFamily(f: Family) {
    && ValidName(f.name, true) && '\n' !in f.typ && ValidNumber(f.value)
    && forall l :: l in f.labels ==> ValidName(l.name, false)
  }

  lemma {:induction false} LinesAreValid(families: seq<Family>)
    requires forall f :: f in families ==> ValidFamily(f)
    ensures forall l :: l in LinesOf(families) ==> ValidLine(l)
  {
    if families != [] {
      var init, f := families[..|families| - 1], families[|families| - 1];
      assert f in families && forall g :: g in init ==> g in families;
      LinesAreValid(init);
      assert ValidLine(Help(f.name, f.help)) && ValidLine(Type(f.name, f.typ));
      assert ValidLine(Metric(Sample(f.name, f.labels, f.value)));
    }
  }

  lemma PageIsValid(families: seq<Family>, buildHelp: string, agentVersion: string)
    requires forall f :: f in families ==> ValidFamily(f)
    ensures forall l :: l in LinesOf(families) + BuildLines(buildHelp, agentVersion) ==> ValidLine(l)
  {
    assert ValidName(BUILD_INFO, true) && ValidName("version", false) && ValidNumber("1");
    LinesAreValid(families);
  }

  lemma {:induction false} LinesAt(families: seq<Family>, i: nat)
    ensures |LinesOf(families)| == 3 * |families|
    ensures i < |families| ==>
              var f := families[i];
              LinesOf(families)[3 * i..3 * i + 3]
              == [Help(f.name, f.help), Type(f.name, f.typ), Metric(Sample(f.name, f.labels, f.value))]
  {
    if families != [] {
      var init := families[..|families| - 1];
      LinesAt(init, i);
      if i < |init| { assert LinesOf(families)[3 * i..3 * i + 3] == LinesOf(init)[3 * i..3 * i + 3]; }
    }
  }

  /** The page that the code writes is read back, whatever the version string is, as a HELP, a TYPE and a
      sample line for every family of the table, in its order, and the three lines of the build info. */
  lemma ExpositionIsRead(families: seq<Family>, buildHelp: string, agentVersion: string, i: nat)
    requires forall f :: f in families ==> ValidFamily(f)
    ensures var lines := LinesOf(families) + BuildLines(buildHelp, agentVersion);
            && ReadPage(PrintPage(lines)) == Some(lines)
            && |lines| == 3 * |families| + 3
            && (i < |families| ==>
                  var f := families[i];
                  lines[3 * i..3 * i + 3]
                  == [Help(f.name, f.help), Type(f.name, f.typ), Metric(Sample(f.name, f.labels, f.value))])
            && lines[3 * |families|..]
               == [Help("vigil_agent_build_info", buildHelp), Type("vigil_agent_build_info", "gauge"),
                   Metric(Sample("vigil_agent_build_info",
                                 [Label("version", if agentVersion == "" then "dev" else agentVersion)], "1"))]
  {
    var lines := LinesOf(families) + BuildLines(buildHelp, agentVersion);
    PageIsValid(families, buildHelp, agentVersion);
    PageIsRead(lines);
    LinesAt(families, i);
    if i < |families| { assert lines[3 * i..3 * i + 3] == LinesOf(families)[3 * i..3 * i + 3]; }
    assert lines[3 * |families|..] == BuildLines(buildHelp, agentVersion);
  }
}
