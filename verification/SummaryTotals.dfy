/** What a reader gets: the summary member by member, and totals and a verdict that
    agree with the rows written beside them. */
module SummaryTotals {
  import opened Wrappers
  import opened Numbers
  import opened Acceptance
  import opened JsonText
  import opened JsonLayout
  import opened SummaryJson

  /** An object with this member. */
  predicate Has(v: Value, name: string, value: Value) {
    v.JObj? && (name, value) in v.members
  }

  /** How many rows of a parsed list have this status. */
  function StatusCount(rows: seq<Value>, id: string): nat {
    if rows == [] then 0
    else StatusCount(rows[..|rows| - 1], id) + if Has(rows[|rows| - 1], "status", JStr(id)) then 1 else 0
  }

  lemma PairsHave(open: string, members: seq<Member>, sep: string, close: string, k: nat)
    requires k < |members|
    ensures Has(ValueOf(LObj(open, members, sep, close)), members[k].name, ValueOf(members[k].value))
  {
    assert Pairs(members)[k] == (members[k].name, ValueOf(members[k].value));
  }

  lemma RowStatus(row: ResultRow, status: Status)
    ensures Has(ValueOf(RowLayout(row)), "status", JStr(status.Id())) <==> row.status == status
  {
    var members := RowMembers(row);
    PairsHave("", members, " ", "", 2);
    var name := "status";
    assert forall k :: 0 <= k < 5 && k != 2 ==> members[k].name != name by {
      assert |"scenario"| == 8 && |"target"| == 6 && "target"[0] == 't' && |"durationMs"| == 10 && "reason"[0] == 'r'
        && name[0] == 's' && |name| == 6;
    }
    if Has(ValueOf(RowLayout(row)), name, JStr(status.Id())) {
      var k :| 0 <= k < 5 && Pairs(members)[k] == (name, JStr(status.Id()));
      assert k == 2 && members[k].value == LStr(row.status.Id());
      StatusIdsDiffer(row.status, status);
    }
  }

  lemma StatusIdsDiffer(a: Status, b: Status)
    ensures a.Id() == b.Id() <==> a == b
  {
    assert "pass"[0] == 'p' && "fail"[0] == 'f' && "skipped"[0] == 's';
  }

  lemma {:induction false} RowsCount(rows: seq<ResultRow>, status: Status)
    ensures StatusCount(Values(RowLayouts(rows)), status.Id()) == CountRows(rows, status)
  {
    if rows != [] {
      var last := |rows| - 1;
      RowsCount(rows[..last], status);
      assert Values(RowLayouts(rows))[..last] == Values(RowLayouts(rows[..last]));
      assert Values(RowLayouts(rows))[last] == ValueOf(RowLayout(rows[last]));
      RowStatus(rows[last], status);
    }
  }

  /** A reader that trusts only the rows gets the same totals and, with the test
      exit, the same verdict. */
  lemma TotalsAgree(s: Summary) returns (rows: seq<Value>, totals: Value, exit: string)
    ensures Has(DocumentOf(s), "results", JArr(rows)) && |rows| == |s.results|
    ensures Has(DocumentOf(s), "totals", totals) && Has(DocumentOf(s), "testExit", JStr(exit))
    ensures Has(totals, "pass", JNum(Decimal(StatusCount(rows, "pass"))))
    ensures Has(totals, "fail", JNum(Decimal(StatusCount(rows, "fail"))))
    ensures Has(totals, "skipped", JNum(Decimal(StatusCount(rows, "skipped"))))
    ensures Has(DocumentOf(s), "ok", JBool(StatusCount(rows, "fail") == 0 && exit == "success"))
  {
    rows, totals := Values(RowLayouts(s.results)), ValueOf(TotalsLayout(s));
    exit := if s.testExitSuccess then "success" else "failure";
    assert "success"[0] == 's' && "failure"[0] == 'f';
    RowsCount(s.results, Pass);
    RowsCount(s.results, Fail);
    RowsCount(s.results, Skipped);
    assert ValueOf(ResultsLayout(s.results)) == JArr(rows);
    SummaryMembersHave(s);
    TotalsMembersHave(s);
  }

  lemma SummaryMembersHave(s: Summary)
    ensures Has(DocumentOf(s), "results", ValueOf(ResultsLayout(s.results)))
    ensures Has(DocumentOf(s), "totals", ValueOf(TotalsLayout(s)))
    ensures Has(DocumentOf(s), "testExit", JStr(if s.testExitSuccess then "success" else "failure"))
    ensures Has(DocumentOf(s), "ok", JBool(s.IsOk()))
  {
    var members := SummaryMembers(s);
    PairsHave("\n  ", members, "\n  ", "\n", 6);
    PairsHave("\n  ", members, "\n  ", "\n", 7);
    PairsHave("\n  ", members, "\n  ", "\n", 8);
    PairsHave("\n  ", members, "\n  ", "\n", 9);
  }

  lemma TotalsMembersHave(s: Summary)
    ensures Has(ValueOf(TotalsLayout(s)), "pass", JNum(Decimal(s.Count(Pass))))
    ensures Has(ValueOf(TotalsLayout(s)), "fail", JNum(Decimal(s.Count(Fail))))
    ensures Has(ValueOf(TotalsLayout(s)), "skipped", JNum(Decimal(s.Count(Skipped))))
  {
    var members := [Member("pass", LNum(s.Count(Pass))), Member("fail", LNum(s.Count(Fail))),
      Member("skipped", LNum(s.Count(Skipped)))];
    PairsHave("", members, " ", "", 0);
    PairsHave("", members, " ", "", 1);
    PairsHave("", members, " ", "", 2);
  }

  // ---------------------------------------------------- member by member

  function TextOrNull(value: Option<string>): Value {
    match value case Some(text) => JStr(text) case None => JNull
  }

  function TextValues(items: seq<string>): seq<Value> {
    seq(|items|, i requires 0 <= i < |items| => JStr(items[i]))
  }

  function StatusText(status: Status): string {
    match status case Pass => "pass" case Fail => "fail" case Skipped => "skipped"
  }

  /** One row as a reader gets it; an empty reason is none. */
  function RowValue(row: ResultRow): Value {
    JObj([("scenario", JStr(row.scenario)), ("target", TextOrNull(row.target)),
          ("status", JStr(StatusText(row.status))),
          ("reason", if row.reason == "" then JNull else JStr(row.reason)),
          ("durationMs", JNum(Decimal(row.durationMs)))])
  }

  function RowValues(rows: seq<ResultRow>): seq<Value> {
    seq(|rows|, i requires 0 <= i < |rows| => RowValue(rows[i]))
  }

  /** The summary as a reader gets it. */
  function SummaryValue(s: Summary): Value {
    JObj([("suite", JStr(s.spec.suite)), ("schemaVersion", JNum("1")), ("live", JBool(s.live)),
          ("targetFilter", TextOrNull(s.targetFilter)), ("targets", JArr(TextValues(s.targets))),
          ("scenarios", JArr(TextValues(s.spec.scenarios))), ("results", JArr(RowValues(s.results))),
          ("totals", JObj([("pass", JNum(Decimal(CountRows(s.results, Pass)))),
                           ("fail", JNum(Decimal(CountRows(s.results, Fail)))),
                           ("skipped", JNum(Decimal(CountRows(s.results, Skipped))))])),
          ("testExit", JStr(if s.testExitSuccess then "success" else "failure")),
          ("ok", JBool(CountRows(s.results, Fail) == 0 && s.testExitSuccess))])
  }

  lemma RowMeans(row: ResultRow)
    ensures ValueOf(RowLayout(row)) == RowValue(row)
  {
    var members := RowMembers(row);
    assert Pairs(members)[0] == ("scenario", JStr(row.scenario));
    assert Pairs(members)[1] == ("target", TextOrNull(row.target));
    assert Pairs(members)[2] == ("status", JStr(StatusText(row.status)));
    assert Pairs(members)[3] == ("reason", if row.reason == "" then JNull else JStr(row.reason));
    assert Pairs(members)[4] == ("durationMs", JNum(Decimal(row.durationMs)));
  }

  lemma RowsMean(rows: seq<ResultRow>)
    ensures ValueOf(ResultsLayout(rows)) == JArr(RowValues(rows))
  {
    forall i | 0 <= i < |rows| ensures Values(RowLayouts(rows))[i] == RowValue(rows[i]) {
      RowMeans(rows[i]);
    }
    assert Values(RowLayouts(rows)) == RowValues(rows);
  }

  lemma TextsMean(items: seq<string>)
    ensures ValueOf(LArr("", TextLayouts(items), " ", "")) == JArr(TextValues(items))
  {
    assert Values(TextLayouts(items)) == TextValues(items);
  }

  lemma TotalsMean(s: Summary)
    ensures ValueOf(TotalsLayout(s)) ==
      JObj([("pass", JNum(Decimal(CountRows(s.results, Pass)))), ("fail", JNum(Decimal(CountRows(s.results, Fail)))),
            ("skipped", JNum(Decimal(CountRows(s.results, Skipped))))])
  {
    var members := [Member("pass", LNum(s.Count(Pass))), Member("fail", LNum(s.Count(Fail))),
      Member("skipped", LNum(s.Count(Skipped)))];
    assert Pairs(members) == [("pass", JNum(Decimal(s.Count(Pass)))), ("fail", JNum(Decimal(s.Count(Fail)))),
                              ("skipped", JNum(Decimal(s.Count(Skipped))))];
  }

  lemma OneDecimal()
    ensures Decimal(1) == "1"
  {
  }

  /** A JSON parser reads the written text back to the summary, member by member. */
  lemma SummaryReads(s: Summary)
    ensures ParseText(Render(SummaryLayout(s))) == Some(SummaryValue(s))
  {
    var members := SummaryMembers(s);
    OneDecimal();
    TextsMean(s.targets);
    TextsMean(s.spec.scenarios);
    RowsMean(s.results);
    TotalsMean(s);
    assert forall i :: 0 <= i < 10 ==> Pairs(members)[i] == (members[i].name, ValueOf(members[i].value));
    assert Pairs(members) == SummaryValue(s).members;
    SummaryRoundTrip(s);
  }
}
