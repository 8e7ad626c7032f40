/** The live suites' summary: the matrix of scenarios and targets reconciled
    with what the suite reported. */
module Acceptance {
  import opened Wrappers
  import opened Sequences
  import opened Numbers

  datatype Status = Pass | Fail | Skipped {
    function Id(): string {
      match this
      case Pass => "pass"
      case Fail => "fail"
      case Skipped => "skipped"
    }
  }

  datatype ResultRow = ResultRow(
    scenario: string, target: Option<string>, status: Status, reason: string, durationMs: nat)

  datatype SuiteSpec = SuiteSpec(suite: string, marker: string, scenarios: seq<string>)

  datatype Summary = Summary(
    spec: SuiteSpec, live: bool, targetFilter: Option<string>,
    targets: seq<string>, results: seq<ResultRow>, testExitSuccess: bool)
  {
    function Count(status: Status): nat {
      CountRows(results, status)
    }

    predicate IsOk() {
      Count(Fail) == 0 && testExitSuccess
    }
  }

  function CountRows(rows: seq<ResultRow>, status: Status): nat {
    if rows == [] then 0
    else CountRows(rows[..|rows| - 1], status) + if rows[|rows| - 1].status == status then 1 else 0
  }

  // ---------------------------------------------------------- the matrix

  /** A scenario and a target; no target when the matrix has none. */
  type Cell = (string, Option<string>)

  function KeyOf(row: ResultRow): Cell {
    (row.scenario, row.target)
  }

  function Columns(targets: seq<string>): (columns: seq<Option<string>>)
    ensures forall t :: t in columns <==> if targets == [] then t == None else t.Some? && t.value in targets
    ensures Distinct(targets) ==> Distinct(columns)
  {
    if targets == [] then [None]
    else
      var columns := seq(|targets|, i requires 0 <= i < |targets| => Some(targets[i]));
      assert forall t :: t in targets ==> Some(t) in columns by {
        forall t | t in targets ensures Some(t) in columns {
          var i :| 0 <= i < |targets| && targets[i] == t;
          assert columns[i] == Some(t);
        }
      }
      columns
  }

  function CellsOf(scenario: string, columns: seq<Option<string>>): seq<Cell> {
    seq(|columns|, j requires 0 <= j < |columns| => (scenario, columns[j]))
  }

  function Cells(scenarios: seq<string>, columns: seq<Option<string>>): (cells: seq<Cell>)
    ensures forall s, t :: (s, t) in cells <==> s in scenarios && t in columns
  {
    if scenarios == [] then []
    else
      var last := |scenarios| - 1;
      var rest := Cells(scenarios[..last], columns);
      assert forall t :: (scenarios[last], t) in CellsOf(scenarios[last], columns) <==> t in columns by {
        forall t | t in columns ensures (scenarios[last], t) in CellsOf(scenarios[last], columns) {
          var j :| 0 <= j < |columns| && columns[j] == t;
          assert CellsOf(scenarios[last], columns)[j] == (scenarios[last], t);
        }
      }
      assert scenarios == scenarios[..last] + [scenarios[last]];
      rest + CellsOf(scenarios[last], columns)
  }

  /** The rows reported for a cell, in report order. */
  function Reports(reported: seq<ResultRow>, cell: Cell): (rows: seq<ResultRow>)
    ensures forall r :: r in rows <==> r in reported && KeyOf(r) == cell
  {
    if reported == [] then []
    else
      var last := reported[|reported| - 1];
      assert reported == reported[..|reported| - 1] + [last];
      Reports(reported[..|reported| - 1], cell) + if KeyOf(last) == cell then [last] else []
  }

  const NO_RESULT_LIVE :=
    "no result reported: the scenario failed before reporting this target (configuration error or panic; see the log)"
  const NO_RESULT := "no result reported"

  function Unreported(cell: Cell, live: bool): ResultRow {
    ResultRow(cell.0, cell.1, Fail, if live then NO_RESULT_LIVE else NO_RESULT, 0)
  }

  /** `{}: {}` of every verdict, joined. */
  function Verdicts(rows: seq<ResultRow>): string {
    if rows == [] then ""
    else if |rows| == 1 then rows[0].status.Id() + ": " + rows[0].reason
    else Verdicts(rows[..|rows| - 1]) + "; " + rows[|rows| - 1].status.Id() + ": " + rows[|rows| - 1].reason
  }

  function Repeated(row: ResultRow, repeats: seq<ResultRow>): ResultRow {
    row.(status := Fail,
         reason := "reported " + Decimal(|repeats|) + " times (" + Verdicts(repeats)
           + "); each scenario must report once per target")
  }

  /** The row a cell ends with: what it reported, if it did so once. */
  function CellRow(reported: seq<ResultRow>, cell: Cell, live: bool): (row: ResultRow)
    ensures KeyOf(row) == cell
  {
    var rows := Reports(reported, cell);
    if rows == [] then Unreported(cell, live)
    else
      var found := rows[|rows| - 1];
      assert found in rows;
      if |rows| > 1 then Repeated(found, rows) else found
  }

  function CellRows(reported: seq<ResultRow>, cells: seq<Cell>, live: bool): seq<ResultRow> {
    seq(|cells|, i requires 0 <= i < |cells| => CellRow(reported, cells[i], live))
  }

  // --------------------------------------------------------------- drift

  /** Text in quotes, its quotes and backslashes escaped. */
  function Quoted(s: string): string {
    "\"" + EscapeQuotes(s) + "\""
  }

  function EscapeQuotes(s: string): string {
    if s == [] then ""
    else (if s[0] == '"' || s[0] == '\\' then ['\\', s[0]] else [s[0]]) + EscapeQuotes(s[1..])
  }

  function DriftReason(spec: SuiteSpec, row: ResultRow): string {
    if row.scenario in spec.scenarios && row.target.None? then
      "scenario " + Quoted(row.scenario) + " reported without a target while the matrix has targets (" + spec.suite
        + "); update the suite to report its target"
    else if row.scenario in spec.scenarios then
      "scenario " + Quoted(row.scenario) + " reported target " + Quoted(row.target.value)
      + ", which is not a configured target (" + spec.suite + "); check the suite's target names"
    else
      "scenario " + Quoted(row.scenario) + " is not in the runner's list (" + spec.suite + "); update its SCENARIOS"
  }

  function DriftRow(spec: SuiteSpec, row: ResultRow): (drift: ResultRow)
    ensures KeyOf(drift) == KeyOf(row) && drift.status == Fail && drift.durationMs == row.durationMs
  {
    row.(status := Fail, reason := DriftReason(spec, row) + " (reported " + row.status.Id() + ": " + row.reason + ")")
  }

  predicate HasCell(spec: SuiteSpec, columns: seq<Option<string>>, row: ResultRow) {
    row.scenario in spec.scenarios && row.target in columns
  }

  predicate HasKey(rows: seq<ResultRow>, key: Cell) {
    exists i :: 0 <= i < |rows| && KeyOf(rows[i]) == key
  }

  /** One failed row per reported key without a cell, in order of first report. */
  function Drift(spec: SuiteSpec, columns: seq<Option<string>>, reported: seq<ResultRow>): seq<ResultRow> {
    if reported == [] then []
    else WithDrift(spec, columns, Drift(spec, columns, reported[..|reported| - 1]), reported[|reported| - 1])
  }

  function WithDrift(spec: SuiteSpec, columns: seq<Option<string>>, before: seq<ResultRow>,
                     row: ResultRow): seq<ResultRow> {
    if HasCell(spec, columns, row) || HasKey(before, KeyOf(row)) then before else before + [DriftRow(spec, row)]
  }

  function Results(spec: SuiteSpec, live: bool, targets: seq<string>, reported: seq<ResultRow>): seq<ResultRow> {
    CellRows(reported, Cells(spec.scenarios, Columns(targets)), live) + Drift(spec, Columns(targets), reported)
  }

  // ----------------------------------------------------------- the builder

  method Build(
      spec: SuiteSpec, live: bool, targetFilter: Option<string>, expectedTargets: seq<string>,
      reported: seq<ResultRow>, testExitSuccess: bool)
      returns (summary: Summary)
    ensures summary == Summary(spec, live, targetFilter, expectedTargets,
                               Results(spec, live, expectedTargets, reported), testExitSuccess)
  {
    var targets := expectedTargets;
    var columns := Columns(targets);
    ghost var cells := Cells(spec.scenarios, columns);
    var results := LastReports(spec, live, columns, reported);
    for i := 0 to |results|
      invariant |results| == |cells|
      invariant forall k :: 0 <= k < i ==> results[k] == CellRow(reported, cells[k], live)
      invariant forall k :: i <= k < |results| ==> results[k] == LastReport(reported, cells[k], live)
    {
      assert KeyOf(results[i]) == cells[i];
      var repeats := RowsFor(reported, (results[i].scenario, results[i].target));
      if |repeats| > 1 {
        results := results[i := Repeated(results[i], repeats)];
      }
    }
    assert results == CellRows(reported, cells, live);
    var unexpected := Unexpected(spec, columns, reported);
    results := results + unexpected;
    summary := Summary(spec, live, targetFilter, targets, results, testExitSuccess);
  }

  /** The last report for a cell, before repeats are looked at. */
  function LastReport(reported: seq<ResultRow>, cell: Cell, live: bool): (row: ResultRow)
    ensures KeyOf(row) == cell
  {
    var rows := Reports(reported, cell);
    if rows == [] then Unreported(cell, live)
    else
      assert rows[|rows| - 1] in rows;
      rows[|rows| - 1]
  }

  function LastRows(reported: seq<ResultRow>, cells: seq<Cell>, live: bool): seq<ResultRow> {
    seq(|cells|, i requires 0 <= i < |cells| => LastReport(reported, cells[i], live))
  }

  lemma MoreLastRows(reported: seq<ResultRow>, a: seq<Cell>, b: seq<Cell>, live: bool)
    ensures LastRows(reported, a + b, live) == LastRows(reported, a, live) + LastRows(reported, b, live)
  {
  }

  method LastReports(spec: SuiteSpec, live: bool, columns: seq<Option<string>>, reported: seq<ResultRow>)
      returns (results: seq<ResultRow>)
    ensures results == LastRows(reported, Cells(spec.scenarios, columns), live)
  {
    results := [];
    for s := 0 to |spec.scenarios|
      invariant results == LastRows(reported, Cells(spec.scenarios[..s], columns), live)
    {
      assert spec.scenarios[..s + 1][..s] == spec.scenarios[..s];
      var rows := ScenarioReports(spec.scenarios[s], live, columns, reported);
      MoreLastRows(reported, Cells(spec.scenarios[..s], columns), CellsOf(spec.scenarios[s], columns), live);
      results := results + rows;
    }
    assert spec.scenarios[..|spec.scenarios|] == spec.scenarios;
  }

  method ScenarioReports(scenario: string, live: bool, columns: seq<Option<string>>, reported: seq<ResultRow>)
      returns (rows: seq<ResultRow>)
    ensures rows == LastRows(reported, CellsOf(scenario, columns), live)
  {
    rows := [];
    for t := 0 to |columns|
      invariant |rows| == t && forall k :: 0 <= k < t ==> rows[k] == LastReport(reported, (scenario, columns[k]), live)
    {
      var found := FindLast(reported, (scenario, columns[t]));
      var row := match found case Some(r) => r case None => Unreported((scenario, columns[t]), live);
      rows := rows + [row];
    }
  }

  /** Searches the reports from the last one back. */
  method FindLast(reported: seq<ResultRow>, cell: Cell) returns (found: Option<ResultRow>)
    ensures found == var rows := Reports(reported, cell); if rows == [] then None else Some(rows[|rows| - 1])
  {
    var i := |reported|;
    assert reported[..i] == reported;
    while i > 0
      invariant i <= |reported| && Reports(reported, cell) == Reports(reported[..i], cell)
    {
      i := i - 1;
      assert reported[..i + 1][..i] == reported[..i];
      if KeyOf(reported[i]) == cell {
        return Some(reported[i]);
      }
    }
    return None;
  }

  method RowsFor(reported: seq<ResultRow>, cell: Cell) returns (rows: seq<ResultRow>)
    ensures rows == Reports(reported, cell)
  {
    rows := [];
    for i := 0 to |reported|
      invariant rows == Reports(reported[..i], cell)
    {
      assert reported[..i + 1][..i] == reported[..i];
      if KeyOf(reported[i]) == cell {
        rows := rows + [reported[i]];
      }
    }
    assert reported[..|reported|] == reported;
  }

  method Unexpected(spec: SuiteSpec, columns: seq<Option<string>>, reported: seq<ResultRow>)
      returns (unexpected: seq<ResultRow>)
    ensures unexpected == Drift(spec, columns, reported)
  {
    unexpected := [];
    for i := 0 to |reported|
      invariant unexpected == Drift(spec, columns, reported[..i])
    {
      assert reported[..i + 1][..i] == reported[..i];
      var row := reported[i];
      if HasCell(spec, columns, row) || HasKey(unexpected, KeyOf(row)) {
        continue;
      }
      unexpected := unexpected + [DriftRow(spec, row)];
    }
    assert reported[..|reported|] == reported;
  }
}
