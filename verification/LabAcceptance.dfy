/** The Lab runner's summary: columns grow with what is reported, and the last
    report of a cell wins. Compared with the strict runner. */
module LabAcceptance {
  import opened Wrappers
  import opened Permutations
  import opened Sequences
  import opened Acceptance
  import opened AcceptanceVerdict

  /** The expected targets and every other target that reported, in order. */
  function GrownTargets(expected: seq<string>, reported: seq<ResultRow>): seq<string> {
    if reported == [] then expected
    else
      var before, row := GrownTargets(expected, reported[..|reported| - 1]), reported[|reported| - 1];
      if row.target.Some? && row.target.value !in before then before + [row.target.value] else before
  }

  const LAB_NO_RESULT :=
    "no result reported: the scenario failed before reporting this target (configuration error or panic; see the log)"

  function LabRow(reported: seq<ResultRow>, cell: Cell): (row: ResultRow)
    ensures KeyOf(row) == cell
  {
    var rows := Reports(reported, cell);
    if rows == [] then ResultRow(cell.0, cell.1, Fail, LAB_NO_RESULT, 0)
    else
      assert rows[|rows| - 1] in rows;
      rows[|rows| - 1]
  }

  function LabRows(reported: seq<ResultRow>, cells: seq<Cell>): seq<ResultRow> {
    seq(|cells|, i requires 0 <= i < |cells| => LabRow(reported, cells[i]))
  }

  function UnknownRow(row: ResultRow): (unknown: ResultRow)
    ensures KeyOf(unknown) == KeyOf(row) && unknown.status == Fail
  {
    row.(status := Fail,
         reason := "the suite reported scenario " + Quoted(row.scenario)
                   + ", which lab_acceptance::SCENARIOS does not list; add it there (status reported: "
                     + row.status.Id() + ")")
  }

  function WithUnknown(scenarios: seq<string>, results: seq<ResultRow>, row: ResultRow): seq<ResultRow> {
    if row.scenario !in scenarios && !HasKey(results, KeyOf(row)) then results + [UnknownRow(row)] else results
  }

  function WithUnknowns(scenarios: seq<string>, results: seq<ResultRow>, reported: seq<ResultRow>): seq<ResultRow> {
    if reported == [] then results
    else WithUnknown(scenarios, WithUnknowns(scenarios, results, reported[..|reported| - 1]), reported[|reported| - 1])
  }

  function LabCells(scenarios: seq<string>, expected: seq<string>, reported: seq<ResultRow>): seq<Cell> {
    Cells(scenarios, Columns(GrownTargets(expected, reported)))
  }

  function LabResults(scenarios: seq<string>, expected: seq<string>, reported: seq<ResultRow>): seq<ResultRow> {
    WithUnknowns(scenarios, LabRows(reported, LabCells(scenarios, expected, reported)), reported)
  }

  predicate LabOk(results: seq<ResultRow>, exit: bool) {
    CountRows(results, Fail) == 0 && exit
  }

  method BuildLab(scenarios: seq<string>, expectedTargets: seq<string>, reported: seq<ResultRow>)
      returns (targets: seq<string>, results: seq<ResultRow>)
    ensures targets == GrownTargets(expectedTargets, reported)
    ensures results == LabResults(scenarios, expectedTargets, reported)
  {
    targets := expectedTargets;
    for i := 0 to |reported|
      invariant targets == GrownTargets(expectedTargets, reported[..i])
    {
      assert reported[..i + 1][..i] == reported[..i];
      var row := reported[i];
      if row.target.Some? && row.target.value !in targets {
        targets := targets + [row.target.value];
      }
    }
    assert reported[..|reported|] == reported;
    var columns := Columns(targets);
    results := [];
    for s := 0 to |scenarios|
      invariant results == LabRows(reported, Cells(scenarios[..s], columns))
    {
      assert scenarios[..s + 1][..s] == scenarios[..s];
      var rows := LabScenario(scenarios[s], columns, reported);
      MoreLabRows(reported, Cells(scenarios[..s], columns), CellsOf(scenarios[s], columns));
      results := results + rows;
    }
    assert scenarios[..|scenarios|] == scenarios;
    results := AddUnknown(scenarios, results, reported);
  }

  lemma MoreLabRows(reported: seq<ResultRow>, a: seq<Cell>, b: seq<Cell>)
    ensures LabRows(reported, a + b) == LabRows(reported, a) + LabRows(reported, b)
  {
  }

  method LabScenario(scenario: string, columns: seq<Option<string>>, reported: seq<ResultRow>)
      returns (rows: seq<ResultRow>)
    ensures rows == LabRows(reported, CellsOf(scenario, columns))
  {
    rows := [];
    for t := 0 to |columns|
      invariant |rows| == t && forall k :: 0 <= k < t ==> rows[k] == LabRow(reported, (scenario, columns[k]))
    {
      var found := FindLast(reported, (scenario, columns[t]));
      var row := match found case Some(r) => r case None => ResultRow(scenario, columns[t], Fail, LAB_NO_RESULT, 0);
      rows := rows + [row];
    }
  }

  method AddUnknown(scenarios: seq<string>, start: seq<ResultRow>, reported: seq<ResultRow>)
      returns (results: seq<ResultRow>)
    ensures results == WithUnknowns(scenarios, start, reported)
  {
    results := start;
    for i := 0 to |reported|
      invariant results == WithUnknowns(scenarios, start, reported[..i])
    {
      assert reported[..i + 1][..i] == reported[..i];
      if reported[i].scenario !in scenarios && !HasKey(results, KeyOf(reported[i])) {
        results := results + [UnknownRow(reported[i])];
      }
    }
    assert reported[..|reported|] == reported;
  }

  // ------------------------------------------------------------ its verdict

  lemma {:induction false} GrownIff(expected: seq<string>, reported: seq<ResultRow>)
    ensures forall t :: t in GrownTargets(expected, reported) <==>
      t in expected || exists r :: r in reported && r.target == Some(t)
    ensures (forall r :: r in reported && r.target.Some? ==> r.target.value in expected) ==>
      GrownTargets(expected, reported) == expected
  {
    if reported != [] {
      var before, last := reported[..|reported| - 1], reported[|reported| - 1];
      GrownIff(expected, before);
      assert reported == before + [last];
    }
  }

  /** The columns only grow, at the end, and each target has one. */
  lemma {:induction false} GrownInOrder(expected: seq<string>, reported: seq<ResultRow>, n: nat)
    requires n <= |reported|
    ensures expected <= GrownTargets(expected, reported[..n]) <= GrownTargets(expected, reported)
    ensures Distinct(expected) ==> Distinct(GrownTargets(expected, reported))
  {
    if n == |reported| { assert reported[..n] == reported; }
    if reported != [] {
      var before := reported[..|reported| - 1];
      if n < |reported| { assert before[..n] == reported[..n]; }
      GrownInOrder(expected, before, if n < |reported| then n else |before|);
      assert before[..|before|] == before;
    }
  }

  /** Rows are added, all of them failures, iff an unlisted scenario reported. */
  lemma {:induction false} UnknownsIff(scenarios: seq<string>, results: seq<ResultRow>, reported: seq<ResultRow>)
    requires forall r :: r in results ==> r.scenario in scenarios
    ensures results <= WithUnknowns(scenarios, results, reported)
    ensures forall r :: r in WithUnknowns(scenarios, results, reported)[|results|..] ==>
      r.status.Fail? && r.scenario !in scenarios
    ensures WithUnknowns(scenarios, results, reported) == results <==>
      forall r :: r in reported ==> r.scenario in scenarios
  {
    if reported != [] {
      var before, last := reported[..|reported| - 1], reported[|reported| - 1];
      UnknownsIff(scenarios, results, before);
      assert reported == before + [last];
      UnknownStep(scenarios, results, WithUnknowns(scenarios, results, before), last);
    }
  }

  lemma UnknownStep(scenarios: seq<string>, results: seq<ResultRow>, rows: seq<ResultRow>, last: ResultRow)
    requires (forall r :: r in results ==> r.scenario in scenarios) && results <= rows
    ensures last.scenario !in scenarios && rows == results ==> !HasKey(rows, KeyOf(last))
    ensures (rows + [UnknownRow(last)])[|results|..] == rows[|results|..] + [UnknownRow(last)]
  {
  }

  /** A cell's row is the last report of it, or a failure for want of one. */
  lemma LabRowIs(reported: seq<ResultRow>, cell: Cell)
    ensures forall k :: LastOfCell(reported, k, cell) ==> LabRow(reported, cell) == reported[k]
    ensures cell !in Keys(reported) ==>
      LabRow(reported, cell) == ResultRow(cell.0, cell.1, Fail, MissingReason(true), 0)
  {
    forall k | LastOfCell(reported, k, cell) ensures LabRow(reported, cell) == reported[k] {
      FoundLast(reported, k);
    }
    ReportsCounted(reported, cell);
    if cell !in Keys(reported) { assert multiset(Keys(reported))[cell] == 0; }
  }

  /** A cell whose last report is not a failure. */
  predicate LastClean(reported: seq<ResultRow>, cell: Cell) {
    var rows := Reports(reported, cell);
    rows != [] && !rows[|rows| - 1].status.Fail?
  }

  /** The lab run is accepted iff the test process succeeded, every reported
      scenario is listed, and each cell of the grown matrix last reported a
      result that is not a failure. */
  lemma LabVerdict(scenarios: seq<string>, expected: seq<string>, reported: seq<ResultRow>, exit: bool)
    ensures LabOk(LabResults(scenarios, expected, reported), exit)
       <==> && exit && (forall r :: r in reported ==> r.scenario in scenarios)
            && forall k :: k in LabCells(scenarios, expected, reported) ==> LastClean(reported, k)
  {
    var cells := LabCells(scenarios, expected, reported);
    var rows, results := LabRows(reported, cells), LabResults(scenarios, expected, reported);
    LabRowsListed(scenarios, GrownTargets(expected, reported), reported);
    UnknownsIff(scenarios, rows, reported);
    LabRowsClean(reported, cells);
    NoneCounted(results, Fail);
    SplitRows(rows, results);
  }

  lemma SplitRows(rows: seq<ResultRow>, results: seq<ResultRow>)
    requires rows <= results && forall r :: r in results[|rows|..] ==> r.status.Fail?
    ensures (forall r :: r in results ==> !r.status.Fail?) <==>
      results == rows && forall r :: r in rows ==> !r.status.Fail?
  {
    assert results == rows + results[|rows|..];
    if results != rows { assert results[|rows|] in results[|rows|..]; }
  }

  lemma LabRowsListed(scenarios: seq<string>, targets: seq<string>, reported: seq<ResultRow>)
    ensures forall r :: r in LabRows(reported, Cells(scenarios, Columns(targets))) ==> r.scenario in scenarios
  {
    var cells := Cells(scenarios, Columns(targets));
    var rows := LabRows(reported, cells);
    forall i | 0 <= i < |rows| ensures rows[i].scenario in scenarios {
      assert cells[i] in cells && KeyOf(rows[i]) == cells[i];
    }
  }

  lemma LabRowsClean(reported: seq<ResultRow>, cells: seq<Cell>)
    ensures (forall r :: r in LabRows(reported, cells) ==> !r.status.Fail?) <==>
      forall k :: k in cells ==> LastClean(reported, k)
  {
    var rows := LabRows(reported, cells);
    assert forall i :: 0 <= i < |cells| ==> (rows[i].status.Fail? <==> !LastClean(reported, cells[i]));
    if forall r :: r in rows ==> !r.status.Fail? {
      forall i | 0 <= i < |cells| ensures LastClean(reported, cells[i]) {
        assert rows[i] in rows;
      }
    }
    if forall k :: k in cells ==> LastClean(reported, k) {
      forall i | 0 <= i < |rows| ensures !rows[i].status.Fail? {
        assert cells[i] in cells;
      }
    }
  }

  // ------------------------------------------------- strict refines lab

  /** Whenever the strict runner accepts what was reported, the lab runner
      accepts it too, with the same rows and the same targets. */
  lemma StrictRefinesLab(spec: SuiteSpec, live: bool, targets: seq<string>, reported: seq<ResultRow>, exit: bool)
    requires CountRows(Results(spec, live, targets, reported), Fail) == 0 && exit
    ensures LabOk(LabResults(spec.scenarios, targets, reported), exit)
    ensures LabResults(spec.scenarios, targets, reported) == Results(spec, live, targets, reported)
    ensures GrownTargets(targets, reported) == targets
  {
    var cells := Cells(spec.scenarios, Columns(targets));
    NoFailureIff(spec, live, targets, reported);
    DriftEmptyIff(spec, targets, reported);
    forall r | r in reported ensures r.scenario in spec.scenarios && r.target in Columns(targets) {
      KeyOfReport(reported, r);
    }
    TargetsKept(targets, reported);
    SameRows(reported, cells, live);
    LabRowsListed(spec.scenarios, targets, reported);
    NoUnknowns(spec.scenarios, LabRows(reported, cells), reported);
    assert Results(spec, live, targets, reported) == CellRows(reported, cells, live);
  }

  lemma TargetsKept(targets: seq<string>, reported: seq<ResultRow>)
    requires forall r :: r in reported ==> r.target in Columns(targets)
    ensures GrownTargets(targets, reported) == targets
  {
    GrownIff(targets, reported);
  }

  lemma NoUnknowns(scenarios: seq<string>, rows: seq<ResultRow>, reported: seq<ResultRow>)
    requires forall r :: r in rows ==> r.scenario in scenarios
    requires forall r :: r in reported ==> r.scenario in scenarios
    ensures WithUnknowns(scenarios, rows, reported) == rows
  {
    UnknownsIff(scenarios, rows, reported);
  }

  lemma SameRows(reported: seq<ResultRow>, cells: seq<Cell>, live: bool)
    requires forall k :: k in cells ==> CleanReport(reported, k)
    ensures LabRows(reported, cells) == CellRows(reported, cells, live)
  {
    forall i | 0 <= i < |cells| ensures LabRow(reported, cells[i]) == CellRow(reported, cells[i], live) {
      SameRow(reported, cells[i], live);
    }
  }

  lemma SameRow(reported: seq<ResultRow>, cell: Cell, live: bool)
    requires CleanReport(reported, cell)
    ensures LabRow(reported, cell) == CellRow(reported, cell, live)
  {
  }

  // ------------------------------------------------- where the two part

  /** When the lab runner accepts, the strict one does iff no key was reported
      twice and every report names a column of the expected matrix. */
  lemma StrictAgreesIff(spec: SuiteSpec, live: bool, targets: seq<string>, reported: seq<ResultRow>)
    requires MatrixOf(spec, targets) && LabOk(LabResults(spec.scenarios, targets, reported), true)
    ensures CountRows(Results(spec, live, targets, reported), Fail) == 0
       <==> Distinct(Keys(reported)) && forall r :: r in reported ==> r.target in Columns(targets)
  {
    var cells := Cells(spec.scenarios, Columns(targets));
    LabVerdict(spec.scenarios, targets, reported, true);
    NoFailureIff(spec, live, targets, reported);
    CellsDistinct(spec.scenarios, Columns(targets));
    if CountRows(Results(spec, live, targets, reported), Fail) == 0 {
      CleanIsPermutation(reported, cells);
      KeysAmongCells(reported, cells);
    } else if Distinct(Keys(reported)) && forall r :: r in reported ==> r.target in Columns(targets) {
      TargetsKept(targets, reported);
      EachReportedOnce(reported, cells);
      CellsReported(spec.scenarios, targets, reported);
    }
  }

  /** What is a permutation of distinct cells is distinct, and names columns. */
  lemma KeysAmongCells(reported: seq<ResultRow>, cells: seq<Cell>)
    requires Distinct(cells) && multiset(Keys(reported)) == multiset(cells)
    ensures Distinct(Keys(reported)) && forall r :: r in reported ==> KeyOf(r) in cells
  {
    SameCountsDistinct(Keys(reported), cells);
    forall r | r in reported ensures KeyOf(r) in cells {
      KeyOfReport(reported, r);
      assert KeyOf(r) in multiset(Keys(reported));
    }
  }

  lemma SameCountsDistinct<T>(s: seq<T>, t: seq<T>)
    requires Distinct(t) && multiset(s) == multiset(t)
    ensures Distinct(s)
  {
    forall i, j | 0 <= i < j < |s| ensures s[i] != s[j] {
      DistinctCounts(t, s[i]);
      if s[i] == s[j] { CountedTwice(s, i, j); }
    }
  }

  lemma EachReportedOnce(reported: seq<ResultRow>, cells: seq<Cell>)
    requires Distinct(Keys(reported)) && forall k :: k in cells ==> LastClean(reported, k)
    ensures forall k :: k in cells ==> CleanReport(reported, k)
  {
    forall k | k in cells ensures CleanReport(reported, k) {
      ReportsCounted(reported, k);
      DistinctCounts(Keys(reported), k);
    }
  }

  lemma CellsReported(scenarios: seq<string>, targets: seq<string>, reported: seq<ResultRow>)
    requires forall r :: r in reported ==> r.scenario in scenarios && r.target in Columns(targets)
    ensures forall k :: k in Keys(reported) ==> k in Cells(scenarios, Columns(targets))
  {
    forall k | k in Keys(reported) ensures k in Cells(scenarios, Columns(targets)) {
      var i :| 0 <= i < |Keys(reported)| && Keys(reported)[i] == k;
      assert reported[i] in reported;
    }
  }

  /** Whatever a cell reported before what the lab runner accepts, a failure too,
      the lab runner still accepts, and the strict one does not. */
  lemma RepeatsAreForgotten(spec: SuiteSpec, live: bool, targets: seq<string>, first: ResultRow,
                            reported: seq<ResultRow>)
    requires MatrixOf(spec, targets) && LabOk(LabResults(spec.scenarios, targets, reported), true)
    requires KeyOf(first) in Keys(reported)
    ensures LabOk(LabResults(spec.scenarios, targets, [first] + reported), true)
    ensures CountRows(Results(spec, live, targets, [first] + reported), Fail) > 0
  {
    var i := IndexOfKey(reported, KeyOf(first));
    StillAccepted(spec.scenarios, targets, first, reported[i], reported);
    KeyTwice(first, reported, i);
    StrictAgreesIff(spec, live, targets, [first] + reported);
  }

  lemma KeyTwice(first: ResultRow, reported: seq<ResultRow>, i: nat)
    requires i < |reported| && KeyOf(reported[i]) == KeyOf(first)
    ensures !Distinct(Keys([first] + reported))
  {
    var keys := Keys([first] + reported);
    assert keys[0] == KeyOf(first) && keys[i + 1] == KeyOf(reported[i]);
  }

  lemma IndexOfKey(reported: seq<ResultRow>, key: Cell) returns (i: nat)
    requires key in Keys(reported)
    ensures i < |reported| && KeyOf(reported[i]) == key && reported[i] in reported
  {
    i :| 0 <= i < |Keys(reported)| && Keys(reported)[i] == key;
    assert KeyOf(reported[i]) == key;
  }

  lemma StillAccepted(scenarios: seq<string>, targets: seq<string>, first: ResultRow, again: ResultRow,
                      reported: seq<ResultRow>)
    requires again in reported && KeyOf(first) == KeyOf(again) && LabOk(LabResults(scenarios, targets, reported), true)
    ensures LabOk(LabResults(scenarios, targets, [first] + reported), true)
  {
    LabVerdict(scenarios, targets, reported, true);
    LabVerdict(scenarios, targets, [first] + reported, true);
    StillListed(scenarios, first, again, reported);
    StillClean(scenarios, targets, first, again, reported);
  }

  lemma StillListed(scenarios: seq<string>, first: ResultRow, again: ResultRow, reported: seq<ResultRow>)
    requires again in reported && KeyOf(first) == KeyOf(again)
    ensures (forall r :: r in reported ==> r.scenario in scenarios) ==>
      forall r :: r in [first] + reported ==> r.scenario in scenarios
  {
    assert forall r :: r in [first] + reported ==> r == first || r in reported;
  }

  lemma StillClean(scenarios: seq<string>, targets: seq<string>, first: ResultRow, again: ResultRow,
                   reported: seq<ResultRow>)
    requires again in reported && KeyOf(first) == KeyOf(again)
    ensures (forall k :: k in LabCells(scenarios, targets, reported) ==> LastClean(reported, k)) ==>
      forall k :: k in LabCells(scenarios, targets, [first] + reported) ==> LastClean([first] + reported, k)
  {
    SameCells(scenarios, targets, first, again, reported);
    forall k ensures LastClean(reported, k) ==> LastClean([first] + reported, k) {
      LastStillClean(first, reported, k);
    }
  }

  lemma LastStillClean(first: ResultRow, reported: seq<ResultRow>, k: Cell)
    ensures LastClean(reported, k) ==> LastClean([first] + reported, k)
  {
    EarlierReport(first, reported, k);
  }

  lemma {:induction false} EarlierReport(first: ResultRow, reported: seq<ResultRow>, k: Cell)
    ensures Reports([first] + reported, k) == (if KeyOf(first) == k then [first] else []) + Reports(reported, k)
  {
    var all := [first] + reported;
    if reported == [] {
      assert all == [first] && all[..0] == [];
    } else {
      assert all[..|all| - 1] == [first] + reported[..|reported| - 1];
      EarlierReport(first, reported[..|reported| - 1], k);
    }
  }

  lemma SameNames(first: ResultRow, again: ResultRow, reported: seq<ResultRow>, t: string)
    requires again in reported && first.target == again.target
    ensures (exists r :: r in [first] + reported && r.target == Some(t)) <==>
      exists r :: r in reported && r.target == Some(t)
  {
    assert forall r :: r in [first] + reported <==> r == first || r in reported;
  }

  lemma SameColumns(a: seq<string>, b: seq<string>)
    requires forall t :: t in a <==> t in b
    ensures forall c :: c in Columns(a) <==> c in Columns(b)
  {
    if a != [] { assert a[0] in b; }
    if b != [] { assert b[0] in a; }
  }

  lemma SameCells(scenarios: seq<string>, targets: seq<string>, first: ResultRow, again: ResultRow,
                  reported: seq<ResultRow>)
    requires again in reported && KeyOf(first) == KeyOf(again)
    ensures forall k :: k in LabCells(scenarios, targets, [first] + reported) ==>
      k in LabCells(scenarios, targets, reported)
  {
    var grown, before := GrownTargets(targets, [first] + reported), GrownTargets(targets, reported);
    forall t ensures t in grown <==> t in before {
      GrownIff(targets, [first] + reported);
      GrownIff(targets, reported);
      SameNames(first, again, reported, t);
    }
    SameColumns(grown, before);
    forall k | k in LabCells(scenarios, targets, [first] + reported)
      ensures k in LabCells(scenarios, targets, reported)
    {
      assert (k.0, k.1) in Cells(scenarios, Columns(grown)) && k.1 in Columns(before);
    }
  }

  // ------------------------------------------- what the lab runner drops

  /** A report is dropped from the lab summary, its failure with it, iff it names
      no target while the grown matrix has targets; in a scenario that is not
      listed it is kept. */
  lemma LabDropsIff(scenarios: seq<string>, expected: seq<string>, reported: seq<ResultRow>, r: ResultRow)
    requires r in reported
    ensures HasKey(LabResults(scenarios, expected, reported), KeyOf(r))
       <==> !(r.scenario in scenarios && r.target.None? && GrownTargets(expected, reported) != [])
  {
    var targets, cells := GrownTargets(expected, reported), LabCells(scenarios, expected, reported);
    var rows, results := LabRows(reported, cells), LabResults(scenarios, expected, reported);
    LabRowsListed(scenarios, targets, reported);
    UnknownsIff(scenarios, rows, reported);
    GrownIff(expected, reported);
    if r.scenario !in scenarios {
      UnknownKept(scenarios, rows, reported, r);
    } else if r.target in Columns(targets) {
      CellHasRow(reported, cells, results, KeyOf(r));
    } else {
      NoCellNoRow(reported, cells, KeyOf(r));
      NotAmongUnknowns(scenarios, rows, results, KeyOf(r));
    }
  }

  lemma CellHasRow(reported: seq<ResultRow>, cells: seq<Cell>, results: seq<ResultRow>, key: Cell)
    requires key in cells && LabRows(reported, cells) <= results
    ensures HasKey(results, key)
  {
    var i :| 0 <= i < |cells| && cells[i] == key;
    assert results[i] == LabRows(reported, cells)[i] && KeyOf(results[i]) == key;
  }

  lemma NoCellNoRow(reported: seq<ResultRow>, cells: seq<Cell>, key: Cell)
    requires key !in cells
    ensures !HasKey(LabRows(reported, cells), key)
  {
    forall i | 0 <= i < |cells| ensures KeyOf(LabRows(reported, cells)[i]) != key {
      assert cells[i] in cells;
    }
  }

  lemma NotAmongUnknowns(scenarios: seq<string>, rows: seq<ResultRow>, results: seq<ResultRow>, key: Cell)
    requires rows <= results && !HasKey(rows, key) && key.0 in scenarios
    requires forall r :: r in results[|rows|..] ==> r.scenario !in scenarios
    ensures !HasKey(results, key)
  {
    forall i | 0 <= i < |results| ensures KeyOf(results[i]) != key {
      if i < |rows| {
        assert results[i] == rows[i];
      } else {
        assert results[i] == results[|rows|..][i - |rows|];
      }
    }
  }

  lemma WithUnknownKeeps(scenarios: seq<string>, results: seq<ResultRow>, row: ResultRow, key: Cell)
    ensures HasKey(results, key) ==> HasKey(WithUnknown(scenarios, results, row), key)
  {
    if HasKey(results, key) {
      var i :| 0 <= i < |results| && KeyOf(results[i]) == key;
      assert WithUnknown(scenarios, results, row)[i] == results[i];
    }
  }

  lemma WithUnknownHas(scenarios: seq<string>, results: seq<ResultRow>, row: ResultRow)
    ensures row.scenario !in scenarios ==> HasKey(WithUnknown(scenarios, results, row), KeyOf(row))
  {
    var next := WithUnknown(scenarios, results, row);
    if next != results { assert next[|results|] == UnknownRow(row); }
  }

  lemma {:induction false} UnknownKept(scenarios: seq<string>, rows: seq<ResultRow>, reported: seq<ResultRow>,
                                       r: ResultRow)
    requires r in reported && r.scenario !in scenarios
    ensures HasKey(WithUnknowns(scenarios, rows, reported), KeyOf(r))
  {
    var before, last := reported[..|reported| - 1], reported[|reported| - 1];
    assert reported == before + [last];
    WithUnknownKeeps(scenarios, WithUnknowns(scenarios, rows, before), last, KeyOf(r));
    WithUnknownHas(scenarios, WithUnknowns(scenarios, rows, before), last);
    if r != last { UnknownKept(scenarios, rows, before, r); }
  }

  lemma TwoReports(first: ResultRow, second: ResultRow, key: Cell)
    ensures Reports([first, second], key) ==
      (if KeyOf(first) == key then [first] else []) + (if KeyOf(second) == key then [second] else [])
  {
    assert [first, second] == [first] + [second];
    EarlierReport(first, [second], key);
    EarlierReport(second, [], key);
    assert [second] == [second] + [];
  }

  /** A failure reported without a target beside a report that passes: accepted,
      and the failure is in no row. */
  lemma FailureDropped(spec: SuiteSpec, live: bool, target: string, passed: ResultRow, failed: ResultRow)
    requires |spec.scenarios| == 1 && KeyOf(passed) == (spec.scenarios[0], Some(target)) && passed.status.Pass?
    requires KeyOf(failed) == (spec.scenarios[0], None) && failed.status.Fail?
    ensures var results := LabResults(spec.scenarios, [target], [passed, failed]);
      LabOk(results, true) && !HasKey(results, KeyOf(failed))
    ensures CountRows(Results(spec, live, [target], [passed, failed]), Fail) > 0
  {
    var reported := [passed, failed];
    TwoReports(passed, failed, KeyOf(passed));
    LabVerdict(spec.scenarios, [target], reported, true);
    GrownIff([target], reported);
    LabDropsIff(spec.scenarios, [target], reported, failed);
    StrictAgreesIff(spec, live, [target], reported);
    assert failed in reported;
  }

  /** A report of a target that is not expected grows the lab matrix by a column,
      and is accepted there. */
  lemma ColumnGrown(spec: SuiteSpec, live: bool, target: string, extra: string, first: ResultRow, second: ResultRow)
    requires |spec.scenarios| == 1 && target != extra && first.status.Pass? && second.status.Pass?
    requires KeyOf(first) == (spec.scenarios[0], Some(target)) && KeyOf(second) == (spec.scenarios[0], Some(extra))
    ensures LabOk(LabResults(spec.scenarios, [target], [first, second]), true)
    ensures CountRows(Results(spec, live, [target], [first, second]), Fail) > 0
  {
    var reported := [first, second];
    GrownOnce(spec.scenarios, target, first, second);
    StrictAgreesIff(spec, live, [target], reported);
    assert second in reported;
  }

  /** The two cells of a lone scenario that reported two targets. */
  lemma GrownOnce(scenarios: seq<string>, target: string, first: ResultRow, second: ResultRow)
    requires |scenarios| == 1 && first.status.Pass? && second.status.Pass? && KeyOf(first) != KeyOf(second)
    requires KeyOf(first) == (scenarios[0], Some(target)) && second.scenario == scenarios[0] && second.target.Some?
    ensures LabOk(LabResults(scenarios, [target], [first, second]), true)
  {
    LabVerdict(scenarios, [target], [first, second], true);
    BothClean(first, second);
    TwoCells(scenarios, target, first, second);
    forall r | r in [first, second] ensures r.scenario in scenarios {
    }
  }

  lemma BothClean(first: ResultRow, second: ResultRow)
    requires first.status.Pass? && second.status.Pass? && KeyOf(first) != KeyOf(second)
    ensures LastClean([first, second], KeyOf(first)) && LastClean([first, second], KeyOf(second))
  {
    TwoReports(first, second, KeyOf(first));
    TwoReports(first, second, KeyOf(second));
  }

  lemma TwoCells(scenarios: seq<string>, target: string, first: ResultRow, second: ResultRow)
    requires |scenarios| == 1 && KeyOf(first) == (scenarios[0], Some(target))
    requires second.scenario == scenarios[0] && second.target.Some?
    ensures forall k :: k in LabCells(scenarios, [target], [first, second]) ==> k == KeyOf(first) || k == KeyOf(second)
  {
    var grown := GrownTargets([target], [first, second]);
    GrownIff([target], [first, second]);
    forall k | k in Cells(scenarios, Columns(grown)) ensures k == KeyOf(first) || k == KeyOf(second) {
      assert (k.0, k.1) in Cells(scenarios, Columns(grown));
    }
  }
}
