/** The summary's JSON document: how it is written, and that it reads back. */
module SummaryJson {
  import opened Wrappers
  import opened Numbers
  import opened Acceptance
  import opened JsonText
  import opened JsonLayout

  // ------------------------------------------------------------ the document

  function OptionalText(value: Option<string>): Layout {
    match value case Some(s) => LStr(s) case None => LNull
  }

  function RowMembers(row: ResultRow): seq<Member> {
    [Member("scenario", LStr(row.scenario)),
     Member("target", OptionalText(row.target)),
     Member("status", LStr(row.status.Id())),
     Member("reason", OptionalText(if row.reason == "" then None else Some(row.reason))),
     Member("durationMs", LNum(row.durationMs))]
  }

  function RowLayout(row: ResultRow): Layout {
    LObj("", RowMembers(row), " ", "")
  }

  function RowLayouts(rows: seq<ResultRow>): seq<Layout> {
    seq(|rows|, i requires 0 <= i < |rows| => RowLayout(rows[i]))
  }

  function TextLayouts(items: seq<string>): seq<Layout> {
    seq(|items|, i requires 0 <= i < |items| => LStr(items[i]))
  }

  function ResultsLayout(rows: seq<ResultRow>): Layout {
    if rows == [] then LArr("\n", [], "", "\n  ") else LArr("\n    ", RowLayouts(rows), "\n    ", "\n  ")
  }

  function TotalsLayout(s: Summary): Layout {
    LObj("", [Member("pass", LNum(s.Count(Pass))), Member("fail", LNum(s.Count(Fail))),
      Member("skipped", LNum(s.Count(Skipped)))], " ", "")
  }

  function SummaryMembers(s: Summary): seq<Member> {
    [Member("suite", LStr(s.spec.suite)),
     Member("schemaVersion", LNum(1)),
     Member("live", LBool(s.live)),
     Member("targetFilter", OptionalText(s.targetFilter)),
     Member("targets", LArr("", TextLayouts(s.targets), " ", "")),
     Member("scenarios", LArr("", TextLayouts(s.spec.scenarios), " ", "")),
     Member("results", ResultsLayout(s.results)),
     Member("totals", TotalsLayout(s)),
     Member("testExit", LStr(if s.testExitSuccess then "success" else "failure")),
     Member("ok", LBool(s.IsOk()))]
  }

  /** The document with its two-space lines. */
  function SummaryLayout(s: Summary): Layout {
    LObj("\n  ", SummaryMembers(s), "\n  ", "\n")
  }

  /** The document a reader is meant to get. */
  function DocumentOf(s: Summary): Value {
    ValueOf(SummaryLayout(s))
  }

  // ------------------------------------------------------------- the writer

  function Join(parts: seq<string>, sep: string): string {
    if parts == [] then ""
    else if |parts| == 1 then parts[0]
    else parts[0] + (sep + Join(parts[1..], sep))
  }

  function MemberTexts(members: seq<Member>): seq<string> {
    seq(|members|, i requires 0 <= i < |members| => RenderMember(members[i].name, Render(members[i].value)))
  }

  lemma {:induction false} JoinMembers(members: seq<Member>, sep: string)
    ensures RenderMembers(members, sep) == Join(MemberTexts(members), [','] + sep)
  {
    if |members| > 1 {
      JoinMembers(members[1..], sep);
      assert MemberTexts(members)[1..] == MemberTexts(members[1..]);
    }
  }

  function Renders(items: seq<Layout>): seq<string> {
    seq(|items|, i requires 0 <= i < |items| => Render(items[i]))
  }

  lemma {:induction false} JoinItems(items: seq<Layout>, sep: string)
    ensures RenderItems(items, sep) == Join(Renders(items), [','] + sep)
  {
    if |items| > 1 {
      JoinItems(items[1..], sep);
      assert Renders(items)[1..] == Renders(items[1..]);
    }
  }

  method WriteOptional(value: Option<string>) returns (text: string)
    ensures text == Render(OptionalText(value))
  {
    match value
    case None => text := "null";
    case Some(s) => text := WriteJsonString(s);
  }

  method WriteList(items: seq<string>) returns (text: string)
    ensures text == Render(LArr("", TextLayouts(items), " ", ""))
  {
    var parts: seq<string> := [];
    for i := 0 to |items|
      invariant |parts| == i && forall k :: 0 <= k < i ==> parts[k] == JsonString(items[k])
    {
      var part := WriteJsonString(items[i]);
      parts := parts + [part];
    }
    assert parts == Renders(TextLayouts(items));
    text := "[" + Join(parts, ", ") + "]";
    PlainArray(TextLayouts(items));
  }

  /** An array on one line. */
  lemma PlainArray(items: seq<Layout>)
    ensures Render(LArr("", items, " ", "")) == "[" + Join(Renders(items), ", ") + "]"
  {
    JoinItems(items, " ");
    assert [','] + " " == ", " && ['['] == "[" && [']'] == "]";
    InBrackets("[", "", RenderItems(items, " "), "", "]");
  }

  /** An object on one line. */
  lemma PlainObject(members: seq<Member>)
    ensures Render(LObj("", members, " ", "")) == "{" + Join(MemberTexts(members), ", ") + "}"
  {
    JoinMembers(members, " ");
    assert [','] + " " == ", " && ['{'] == "{" && ['}'] == "}";
    InBrackets("{", "", RenderMembers(members, " "), "", "}");
  }

  lemma InBrackets(a: string, open: string, inner: string, close: string, b: string)
    ensures a + open + (inner + (close + b)) == (a + open) + inner + (close + b)
    ensures "" + b == b && a + "" == a
  {
  }

  method WriteRow(row: ResultRow) returns (text: string)
    ensures text == Render(RowLayout(row))
  {
    var scenario := WriteJsonString(row.scenario);
    var target := WriteOptional(row.target);
    var status := WriteJsonString(row.status.Id());
    var reason := WriteOptional(if row.reason == "" then None else Some(row.reason));
    var parts := [RenderMember("scenario", scenario), RenderMember("target", target), RenderMember("status", status),
                  RenderMember("reason", reason), RenderMember("durationMs", Decimal(row.durationMs))];
    SameTexts(RowMembers(row), parts);
    PlainObject(RowMembers(row));
    text := "{" + Join(parts, ", ") + "}";
  }

  lemma SameTexts(members: seq<Member>, parts: seq<string>)
    requires |parts| == |members|
    requires forall i :: 0 <= i < |members| ==> parts[i] == RenderMember(members[i].name, Render(members[i].value))
    ensures parts == MemberTexts(members)
  {
  }

  // ------------------------------------------------- documents of many lines

  lemma {:induction false} JoinOneMore(parts: seq<string>, part: string, sep: string)
    requires parts != []
    ensures Join(parts + [part], sep) == Join(parts, sep) + (sep + part)
  {
    assert (parts + [part])[1..] == parts[1..] + [part];
    if |parts| > 1 {
      JoinOneMore(parts[1..], part, sep);
      Regroup(parts[0], sep, Join(parts[1..], sep), sep + part);
    }
  }

  lemma Regroup(a: string, b: string, c: string, d: string)
    ensures a + (b + (c + d)) == (a + (b + c)) + d
  {
  }

  /** Every part on a line of its own, indented, a comma after it. */
  function Lines(parts: seq<string>, indent: string): string {
    if parts == [] then "" else Lines(parts[..|parts| - 1], indent) + (indent + parts[|parts| - 1] + ",\n")
  }

  /** Lines and one last line are the parts joined across line ends. */
  lemma {:induction false} LinesThenLast(parts: seq<string>, indent: string, last: string)
    ensures Lines(parts, indent) + (indent + last) == indent + Join(parts + [last], ",\n" + indent)
  {
    if parts == [] {
      assert parts + [last] == [last];
    } else {
      var before, part := parts[..|parts| - 1], parts[|parts| - 1];
      assert parts == before + [part];
      LinesThenLast(before, indent, part);
      JoinOneMore(parts, last, ",\n" + indent);
      MoveComma(Lines(before, indent), indent, part, last, Join(parts, ",\n" + indent));
    }
  }

  lemma MoveComma(lines: string, indent: string, part: string, last: string, joined: string)
    requires lines + (indent + part) == indent + joined
    ensures (lines + (indent + part + ",\n")) + (indent + last) == indent + (joined + ((",\n" + indent) + last))
  {
    assert (lines + (indent + part + ",\n")) + (indent + last) == (lines + (indent + part)) + (",\n" + (indent + last));
  }

  method WriteResults(rows: seq<ResultRow>) returns (text: string)
    ensures text == Render(ResultsLayout(rows))
  {
    var indented: seq<string> := [];
    for i := 0 to |rows|
      invariant |indented| == i && forall k :: 0 <= k < i ==> indented[k] == "    " + Render(RowLayout(rows[k]))
    {
      var row := WriteRow(rows[i]);
      indented := indented + ["    " + row];
    }
    text := "[\n" + Join(indented, ",\n") + "\n  ]";
    ResultsText(rows, indented);
  }

  lemma ResultsText(rows: seq<ResultRow>, indented: seq<string>)
    requires |indented| == |rows| && forall k :: 0 <= k < |rows| ==> indented[k] == "    " + Render(RowLayout(rows[k]))
    ensures "[\n" + Join(indented, ",\n") + "\n  ]" == Render(ResultsLayout(rows))
  {
    if rows == [] {
      assert Join(indented, ",\n") == "" && RenderItems([], "") == "";
      assert "[\n" + "" + "\n  ]" == ['['] + "\n" + ("" + ("\n  " + [']']));
    } else {
      IndentParts(Renders(RowLayouts(rows)), indented, "    ");
      LinesOfItems(RowLayouts(rows));
    }
  }

  /** An array with one item a line. */
  lemma LinesOfItems(items: seq<Layout>)
    ensures Render(LArr("\n    ", items, "\n    ", "\n  ")) ==
      "[\n" + ("    " + Join(Renders(items), ",\n" + "    ")) + "\n  ]"
  {
    JoinItems(items, "\n    ");
    assert [','] + "\n    " == ",\n" + "    ";
    Unwrap("[\n", "    ", RenderItems(items, "\n    "), "\n  ]", ['['], "\n    ", "\n  ", [']']);
  }

  lemma Unwrap(head: string, indent: string, inner: string, foot: string, a: string, open: string, close: string,
               b: string)
    requires head + indent == a + open && foot == close + b
    ensures head + (indent + inner) + foot == a + open + (inner + (close + b))
  {
    assert head + (indent + inner) == (head + indent) + inner;
  }

  /** Indenting each part is indenting the first and every line after it. */
  lemma {:induction false} IndentParts(parts: seq<string>, indented: seq<string>, indent: string)
    requires parts != [] && |indented| == |parts| && forall k :: 0 <= k < |parts| ==> indented[k] == indent + parts[k]
    ensures Join(indented, ",\n") == indent + Join(parts, ",\n" + indent)
  {
    if |parts| > 1 {
      IndentParts(parts[1..], indented[1..], indent);
      var rest := Join(parts[1..], ",\n" + indent);
      assert (indent + parts[0]) + (",\n" + (indent + rest)) == indent + (parts[0] + ((",\n" + indent) + rest));
    }
  }

  method WriteTotals(s: Summary) returns (text: string)
    ensures text == Render(TotalsLayout(s))
  {
    var members := [Member("pass", LNum(s.Count(Pass))), Member("fail", LNum(s.Count(Fail))),
      Member("skipped", LNum(s.Count(Skipped)))];
    var parts := [RenderMember("pass", Decimal(s.Count(Pass))), RenderMember("fail", Decimal(s.Count(Fail))),
                  RenderMember("skipped", Decimal(s.Count(Skipped)))];
    SameTexts(members, parts);
    PlainObject(members);
    text := "{" + Join(parts, ", ") + "}";
  }

  /** The text of the document's `k`th member. */
  ghost function TextAt(s: Summary, k: nat): string
    requires k < 10
  {
    RenderMember(SummaryMembers(s)[k].name, Render(SummaryMembers(s)[k].value))
  }

  ghost function PartsTo(s: Summary, k: nat): (parts: seq<string>)
    requires k <= 10
    ensures |parts| == k && forall i :: 0 <= i < k ==> parts[i] == TextAt(s, i)
  {
    if k == 0 then [] else PartsTo(s, k - 1) + [TextAt(s, k - 1)]
  }

  /** `out` is the document up to its first `k` members. */
  ghost predicate WrittenTo(s: Summary, out: string, k: nat)
    requires k <= 10
  {
    out == "{\n" + Lines(PartsTo(s, k), "  ")
  }

  lemma NothingWritten(s: Summary, out: string)
    requires out == "{\n"
    ensures WrittenTo(s, out, 0)
  {
    assert out + "" == out;
  }

  lemma OneLineMore(s: Summary, out: string, k: nat, text: string)
    requires k < 10 && WrittenTo(s, out, k) && text == TextAt(s, k)
    ensures WrittenTo(s, out + ("  " + text + ",\n"), k + 1)
  {
    assert PartsTo(s, k + 1) == PartsTo(s, k) + [text];
    AnotherLine("{\n", PartsTo(s, k), "  ", text);
  }

  lemma AnotherLine(head: string, parts: seq<string>, indent: string, text: string)
    ensures head + Lines(parts + [text], indent) == (head + Lines(parts, indent)) + (indent + text + ",\n")
  {
    assert (parts + [text])[..|parts|] == parts;
  }

  /** Writes one member on a line of its own. */
  method WriteLine(out: string, name: string, text: string, ghost s: Summary, ghost k: nat) returns (next: string)
    requires k < 10 && WrittenTo(s, out, k) && TextAt(s, k) == RenderMember(name, text)
    ensures WrittenTo(s, next, k + 1)
  {
    OneLineMore(s, out, k, RenderMember(name, text));
    next := out + ("  " + RenderMember(name, text) + ",\n");
  }

  method ToJson(s: Summary) returns (out: string)
    ensures out == Render(SummaryLayout(s))
  {
    out := WriteIdentity(s);
    out := WriteRun(s, out);
    out := WriteMatrix(s, out);
    out := WriteOutcome(s, out);
    var ok := RenderMember("ok", if s.IsOk() then "true" else "false");
    out := out + ("  " + ok + "\n") + "}";
    SameTexts(SummaryMembers(s), PartsTo(s, 9) + [ok]);
    WholeDocument(SummaryMembers(s), PartsTo(s, 9), ok);
  }

  method WriteIdentity(s: Summary) returns (out: string)
    ensures WrittenTo(s, out, 2)
  {
    var suite := WriteJsonString(s.spec.suite);
    out := "{\n";
    NothingWritten(s, out);
    out := WriteLine(out, "suite", suite, s, 0);
    out := WriteLine(out, "schemaVersion", "1", s, 1);
  }

  method WriteRun(s: Summary, before: string) returns (out: string)
    requires WrittenTo(s, before, 2)
    ensures WrittenTo(s, out, 4)
  {
    var filter := WriteOptional(s.targetFilter);
    out := WriteLine(before, "live", if s.live then "true" else "false", s, 2);
    out := WriteLine(out, "targetFilter", filter, s, 3);
  }

  method WriteMatrix(s: Summary, before: string) returns (out: string)
    requires WrittenTo(s, before, 4)
    ensures WrittenTo(s, out, 6)
  {
    var targets := WriteList(s.targets);
    var scenarios := WriteList(s.spec.scenarios);
    out := WriteLine(before, "targets", targets, s, 4);
    out := WriteLine(out, "scenarios", scenarios, s, 5);
  }

  method WriteOutcome(s: Summary, before: string) returns (out: string)
    requires WrittenTo(s, before, 6)
    ensures WrittenTo(s, out, 9)
  {
    var results := WriteResults(s.results);
    var totals := WriteTotals(s);
    var testExit := WriteJsonString(if s.testExitSuccess then "success" else "failure");
    out := WriteLine(before, "results", results, s, 6);
    out := WriteLine(out, "totals", totals, s, 7);
    out := WriteLine(out, "testExit", testExit, s, 8);
  }

  lemma WholeDocument(members: seq<Member>, parts: seq<string>, last: string)
    requires parts + [last] == MemberTexts(members)
    ensures "{\n" + Lines(parts, "  ") + ("  " + last + "\n") + "}" == Render(LObj("\n  ", members, "\n  ", "\n"))
  {
    JoinMembers(members, "\n  ");
    LinesThenLast(parts, "  ", last);
    assert [','] + "\n  " == ",\n" + "  ";
    var joined := Join(parts + [last], ",\n" + "  ");
    Foot("{\n", Lines(parts, "  "), "  ", last, "\n", "}", joined);
    Unwrap("{\n", "  ", joined, "\n}", ['{'], "\n  ", "\n", ['}']);
  }

  lemma Foot(head: string, lines: string, indent: string, last: string, end: string, brace: string, joined: string)
    requires lines + (indent + last) == indent + joined
    ensures head + lines + (indent + last + end) + brace == head + (indent + joined) + (end + brace)
  {
    assert head + lines + (indent + last + end) + brace == head + (lines + (indent + last)) + (end + brace);
  }

  // ------------------------------------------------------------ round trip

  lemma RowsWellLaid(rows: seq<ResultRow>)
    ensures WellLaid(ResultsLayout(rows))
  {
    forall row: ResultRow ensures WellLaid(RowLayout(row)) {
      assert forall i :: 0 <= i < 5 ==> WellLaid(RowMembers(row)[i].value);
    }
  }

  lemma SummaryWellLaid(s: Summary)
    ensures WellLaid(SummaryLayout(s))
  {
    RowsWellLaid(s.results);
    assert WellLaid(TotalsLayout(s));
    forall i | 0 <= i < 10 ensures WellLaid(SummaryMembers(s)[i].value) {
    }
  }

  /** For every summary, a JSON parser reads the written text back to exactly
      the summary's document. */
  lemma SummaryRoundTrip(s: Summary)
    ensures ParseText(Render(SummaryLayout(s))) == Some(DocumentOf(s))
  {
    var text := Render(SummaryLayout(s));
    SummaryWellLaid(s);
    RenderRead(SummaryLayout(s), "");
    assert text + "" == text;
    assert text[0] == '{' && SkipWs(text) == text;
  }
}
