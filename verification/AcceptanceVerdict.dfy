/** When a run is accepted, and that no report is ever dropped. */
module AcceptanceVerdict {
  import opened Wrappers
  import opened Sequences
  import opened Numbers
  import opened Acceptance

  function Keys(rows: seq<ResultRow>): seq<Cell> {
    seq(|rows|, i requires 0 <= i < |rows| => KeyOf(rows[i]))
  }

  // ------------------------------------------------------- counting reports

  lemma KeysOneMore(rows: seq<ResultRow>, row: ResultRow)
    ensures Keys(rows + [row]) == Keys(rows) + [KeyOf(row)]
  {
  }

  /** A cell's reports are as many as its key occurs. */
  lemma {:induction false} ReportsCounted(reported: seq<ResultRow>, cell: Cell)
    ensures |Reports(reported, cell)| == multiset(Keys(reported))[cell]
  {
    if reported != [] {
      var before, last := reported[..|reported| - 1], reported[|reported| - 1];
      ReportsCounted(before, cell);
      KeysOneMore(before, last);
      assert reported == before + [last];
    }
  }

  lemma {:induction false} NoneCounted(rows: seq<ResultRow>, status: Status)
    ensures CountRows(rows, status) == 0 <==> forall r :: r in rows ==> r.status != status
  {
    if rows != [] {
      NoneCounted(rows[..|rows| - 1], status);
      assert rows == rows[..|rows| - 1] + [rows[|rows| - 1]];
    }
  }

  // -------------------------------------------------------------- the cells

  lemma {:induction false} CellsDistinct(scenarios: seq<string>, columns: seq<Option<string>>)
    requires Distinct(scenarios) && Distinct(columns)
    ensures Distinct(Cells(scenarios, columns))
  {
    if scenarios != [] {
      var last := |scenarios| - 1;
      CellsDistinct(scenarios[..last], columns);
      var before, more := Cells(scenarios[..last], columns), CellsOf(scenarios[last], columns);
      forall i, j | 0 <= i < j < |before + more| ensures (before + more)[i] != (before + more)[j] {
        if i < |before| <= j {
          assert before[i] in before && before[i].0 in scenarios[..last];
        }
      }
    }
  }

  /** Every report has exactly one verdict: its cell once, and not a failure. */
  ghost predicate CleanReport(reported: seq<ResultRow>, cell: Cell) {
    |Reports(reported, cell)| == 1 && !Reports(reported, cell)[0].status.Fail?
  }

  lemma CellRowVerdict(reported: seq<ResultRow>, cell: Cell, live: bool)
    ensures CellRow(reported, cell, live).status.Fail? <==> !CleanReport(reported, cell)
  {
  }

  // -------------------------------------------------------------- the drift

  /** A key the matrix has no cell for. */
  predicate Stray(spec: SuiteSpec, columns: seq<Option<string>>, key: Cell) {
    !(key.0 in spec.scenarios && key.1 in columns)
  }

  /** Failed rows with distinct keys, exactly the given keys the matrix has no cell for. */
  ghost predicate DriftOf(spec: SuiteSpec, columns: seq<Option<string>>, drift: seq<ResultRow>, keys: seq<Cell>) {
    && Distinct(Keys(drift)) && (forall r :: r in drift ==> r.status.Fail?)
    && forall k :: k in Keys(drift) <==> k in keys && Stray(spec, columns, k)
  }

  lemma {:induction false} DriftKeys(spec: SuiteSpec, columns: seq<Option<string>>, reported: seq<ResultRow>)
    ensures DriftOf(spec, columns, Drift(spec, columns, reported), Keys(reported))
  {
    if reported != [] {
      var before, last := reported[..|reported| - 1], reported[|reported| - 1];
      DriftKeys(spec, columns, before);
      assert reported == before + [last];
      KeysOneMore(before, last);
      DriftOneMore(spec, columns, Drift(spec, columns, before), Keys(before), last);
    }
  }

  lemma DriftOneMore(spec: SuiteSpec, columns: seq<Option<string>>, drift: seq<ResultRow>, keys: seq<Cell>,
                     last: ResultRow)
    requires DriftOf(spec, columns, drift, keys)
    ensures DriftOf(spec, columns, WithDrift(spec, columns, drift, last), keys + [KeyOf(last)])
  {
    HasKeyIff(drift, KeyOf(last));
    if Stray(spec, columns, KeyOf(last)) && KeyOf(last) !in Keys(drift) {
      StrayOneMore(spec, columns, drift, keys, DriftRow(spec, last));
    }
  }

  lemma StrayOneMore(spec: SuiteSpec, columns: seq<Option<string>>, drift: seq<ResultRow>, keys: seq<Cell>,
                     row: ResultRow)
    requires DriftOf(spec, columns, drift, keys) && row.status.Fail?
    requires Stray(spec, columns, KeyOf(row)) && KeyOf(row) !in Keys(drift)
    ensures DriftOf(spec, columns, drift + [row], keys + [KeyOf(row)])
  {
    KeysOneMore(drift, row);
  }

  lemma HasKeyIff(rows: seq<ResultRow>, key: Cell)
    ensures HasKey(rows, key) <==> key in Keys(rows)
  {
    forall i | 0 <= i < |rows| ensures Keys(rows)[i] == KeyOf(rows[i]) {}
  }

  // ----------------------------------------------------------- main results

  /** A built summary, from distinct scenarios and targets. */
  ghost predicate MatrixOf(spec: SuiteSpec, targets: seq<string>) {
    Distinct(spec.scenarios) && Distinct(targets)
  }

  lemma CellRowKeys(reported: seq<ResultRow>, cells: seq<Cell>, live: bool)
    ensures Keys(CellRows(reported, cells, live)) == cells
  {
  }

  // ------------------------------------------------------- row by row

  lemma {:induction false} CellAt(scenarios: seq<string>, columns: seq<Option<string>>, i: nat, j: nat)
    requires i < |scenarios| && j < |columns|
    ensures var cells := Cells(scenarios, columns);
      i * |columns| + j < |cells| && cells[i * |columns| + j] == (scenarios[i], columns[j])
  {
    var last := |scenarios| - 1;
    CellsCount(scenarios[..last], columns);
    CellsCount(scenarios, columns);
    if i < last {
      CellAt(scenarios[..last], columns, i, j);
    }
  }

  lemma {:induction false} CellsCount(scenarios: seq<string>, columns: seq<Option<string>>)
    ensures |Cells(scenarios, columns)| == |scenarios| * |columns|
  {
    if scenarios != [] {
      CellsCount(scenarios[..|scenarios| - 1], columns);
      OneRowMore(|scenarios|, |columns|);
    }
  }

  lemma OneRowMore(n: nat, width: nat)
    requires n > 0
    ensures n * width == (n - 1) * width + width
  {
  }

  lemma {:induction false} NoReport(reported: seq<ResultRow>, cell: Cell)
    requires forall i :: 0 <= i < |reported| ==> KeyOf(reported[i]) != cell
    ensures Reports(reported, cell) == []
  {
    if reported != [] { NoReport(reported[..|reported| - 1], cell); }
  }

  lemma {:induction false} OneReport(reported: seq<ResultRow>, k: nat)
    requires k < |reported| && forall i :: 0 <= i < |reported| && i != k ==> KeyOf(reported[i]) != KeyOf(reported[k])
    ensures Reports(reported, KeyOf(reported[k])) == [reported[k]]
  {
    var last := |reported| - 1;
    if k < last {
      OneReport(reported[..last], k);
    } else {
      NoReport(reported[..last], KeyOf(reported[k]));
    }
  }

  /** Report `k` is the only one of its cell. */
  predicate OnlyReport(reported: seq<ResultRow>, k: int) {
    0 <= k < |reported| && forall i :: 0 <= i < |reported| && i != k ==> KeyOf(reported[i]) != KeyOf(reported[k])
  }

  predicate LastOfCell(reported: seq<ResultRow>, k: int, cell: Cell) {
    && 0 <= k < |reported| && KeyOf(reported[k]) == cell
    && forall n :: k < n < |reported| ==> KeyOf(reported[n]) != cell
  }

  lemma {:induction false} FoundLast(reported: seq<ResultRow>, k: nat)
    requires k < |reported| && forall n :: k < n < |reported| ==> KeyOf(reported[n]) != KeyOf(reported[k])
    ensures var rows := Reports(reported, KeyOf(reported[k])); rows != [] && rows[|rows| - 1] == reported[k]
  {
    if k < |reported| - 1 { FoundLast(reported[..|reported| - 1], k); }
  }

  function MissingReason(live: bool): string {
    if live then
    "no result reported: the scenario failed before reporting this target (configuration error or panic; see the log)"
    else "no result reported"
  }

  /** When the cell was reported once, the row is the report as it is; when it was not,
      it failed for want of one; and when it was reported again, it failed however it
      was reported, says how often, and took as long as the last report. */
  ghost predicate RightRow(reported: seq<ResultRow>, cell: Cell, live: bool, row: ResultRow) {
    && KeyOf(row) == cell
    && (forall k :: OnlyReport(reported, k) && KeyOf(reported[k]) == cell ==> row == reported[k])
    && (cell !in Keys(reported) ==> row == ResultRow(cell.0, cell.1, Fail, MissingReason(live), 0))
    && (multiset(Keys(reported))[cell] > 1 ==>
          row.status == Fail && "reported " + Decimal(multiset(Keys(reported))[cell]) + " times (" <= row.reason)
    && forall k :: LastOfCell(reported, k, cell) ==> row.durationMs == reported[k].durationMs
  }

  lemma CellIs(reported: seq<ResultRow>, cell: Cell, live: bool)
    ensures RightRow(reported, cell, live, CellRow(reported, cell, live))
  {
    ReportsCounted(reported, cell);
    forall k | LastOfCell(reported, k, cell)
      ensures CellRow(reported, cell, live).durationMs == reported[k].durationMs
    {
      FoundLast(reported, k);
    }
    forall k | OnlyReport(reported, k) && KeyOf(reported[k]) == cell
      ensures CellRow(reported, cell, live) == reported[k]
    {
      OneReport(reported, k);
    }
    if cell !in Keys(reported) { assert multiset(Keys(reported))[cell] == 0; }
  }

  lemma CellRowAt(reported: seq<ResultRow>, cells: seq<Cell>, live: bool, more: seq<ResultRow>, at: nat, cell: Cell)
    requires at < |cells| && cells[at] == cell
    ensures at < |CellRows(reported, cells, live) + more|
    ensures RightRow(reported, cell, live, (CellRows(reported, cells, live) + more)[at])
  {
    CellIs(reported, cell, live);
  }

  /** Column `j`, of as many columns: one target each, or a single one without a target. */
  predicate ColumnIs(targets: seq<string>, width: nat, j: nat, column: Option<string>) {
    if targets == [] then width == 1 && j == 0 && column == None
    else width == |targets| && j < width && column == Some(targets[j])
  }

  lemma ColumnAt(targets: seq<string>, width: nat, j: nat, column: Option<string>)
    requires ColumnIs(targets, width, j, column)
    ensures |Columns(targets)| == width && Columns(targets)[j] == column
  {
  }

  /** Row `at`, counted scenario by scenario, is the right one for scenario `i` and column `j`. */
  lemma RowOfCell(spec: SuiteSpec, live: bool, targets: seq<string>, reported: seq<ResultRow>, i: nat, width: nat,
                  j: nat, column: Option<string>, at: nat)
    requires i < |spec.scenarios| && ColumnIs(targets, width, j, column) && at == i * width + j
    ensures var rows := Results(spec, live, targets, reported);
      at < |rows| && RightRow(reported, (spec.scenarios[i], column), live, rows[at])
  {
    var columns := Columns(targets);
    ColumnAt(targets, width, j, column);
    CellAt(spec.scenarios, columns, i, j);
    CellRowAt(reported, Cells(spec.scenarios, columns), live, Drift(spec, columns, reported), at,
              (spec.scenarios[i], column));
  }

  /** No report of the key stands before report `k`. */
  predicate FirstOfKey(reported: seq<ResultRow>, k: int) {
    0 <= k < |reported| && forall n :: 0 <= n < k ==> KeyOf(reported[n]) != KeyOf(reported[k])
  }

  lemma NotYet(spec: SuiteSpec, columns: seq<Option<string>>, reported: seq<ResultRow>, key: Cell)
    requires forall n :: 0 <= n < |reported| ==> KeyOf(reported[n]) != key
    ensures !HasKey(Drift(spec, columns, reported), key)
  {
    DriftKeys(spec, columns, reported);
    HasKeyIff(Drift(spec, columns, reported), key);
    NoKey(reported, key);
  }

  lemma NoKey(rows: seq<ResultRow>, key: Cell)
    requires forall n :: 0 <= n < |rows| ==> KeyOf(rows[n]) != key
    ensures key !in Keys(rows)
  {
  }

  lemma DriftStep(spec: SuiteSpec, columns: seq<Option<string>>, before: seq<ResultRow>, row: ResultRow)
    ensures forall r :: r in before ==> r in WithDrift(spec, columns, before, row)
    ensures Stray(spec, columns, KeyOf(row)) && !HasKey(before, KeyOf(row)) ==>
      DriftRow(spec, row) in WithDrift(spec, columns, before, row)
  {
  }

  /** A key without a cell fails as it was first reported. */
  lemma {:induction false} StrayKept(spec: SuiteSpec, columns: seq<Option<string>>, reported: seq<ResultRow>, k: int)
    requires FirstOfKey(reported, k) && Stray(spec, columns, KeyOf(reported[k]))
    ensures DriftRow(spec, reported[k]) in Drift(spec, columns, reported)
  {
    var before, last := reported[..|reported| - 1], reported[|reported| - 1];
    DriftStep(spec, columns, Drift(spec, columns, before), last);
    if k < |before| {
      StrayKept(spec, columns, before, k);
    } else {
      NotYet(spec, columns, before, KeyOf(last));
    }
  }

  /** So its key and its time stand in a failed row of the summary. */
  lemma StrayFails(spec: SuiteSpec, live: bool, targets: seq<string>, reported: seq<ResultRow>, k: int)
      returns (row: ResultRow)
    requires FirstOfKey(reported, k) && Stray(spec, Columns(targets), KeyOf(reported[k]))
    ensures row in Results(spec, live, targets, reported) && KeyOf(row) == KeyOf(reported[k])
    ensures row.status == Fail && row.durationMs == reported[k].durationMs
  {
    StrayKept(spec, Columns(targets), reported, k);
    row := DriftRow(spec, reported[k]);
  }

  /** No report is ever dropped and no row is doubled: result keys are pairwise
      distinct, and they are the cells and the reported keys. */
  lemma NothingDropped(spec: SuiteSpec, live: bool, targets: seq<string>, reported: seq<ResultRow>)
    requires MatrixOf(spec, targets)
    ensures var keys := Keys(Results(spec, live, targets, reported));
      Distinct(keys) && forall k :: k in keys <==> k in Cells(spec.scenarios, Columns(targets)) || k in Keys(reported)
  {
    var columns := Columns(targets);
    CellsDistinct(spec.scenarios, columns);
    DriftApart(spec, columns, reported);
    ResultKeys(spec, live, columns, reported);
    KeysSum(Cells(spec.scenarios, columns), Keys(Drift(spec, columns, reported)), Keys(reported));
  }

  lemma ResultKeys(spec: SuiteSpec, live: bool, columns: seq<Option<string>>, reported: seq<ResultRow>)
    ensures var cells, drift := Cells(spec.scenarios, columns), Drift(spec, columns, reported);
      Keys(CellRows(reported, cells, live) + drift) == cells + Keys(drift)
  {
    var cells := Cells(spec.scenarios, columns);
    CellRowKeys(reported, cells, live);
    KeysAppended(CellRows(reported, cells, live), Drift(spec, columns, reported));
  }

  lemma KeysAppended(a: seq<ResultRow>, b: seq<ResultRow>)
    ensures Keys(a + b) == Keys(a) + Keys(b)
  {
  }

  /** Drift rows have keys of their own, and have every key that no cell has. */
  lemma DriftApart(spec: SuiteSpec, columns: seq<Option<string>>, reported: seq<ResultRow>)
    ensures var cells, keys := Cells(spec.scenarios, columns), Keys(Drift(spec, columns, reported));
      && Distinct(keys) && (forall k :: k in keys ==> k !in cells && k in Keys(reported))
      && forall k :: k in Keys(reported) ==> k in cells || k in keys
  {
    DriftKeys(spec, columns, reported);
    var cells, keys := Cells(spec.scenarios, columns), Keys(Drift(spec, columns, reported));
    forall k | k in keys ensures k !in cells {
      assert k == (k.0, k.1) && Stray(spec, columns, k);
    }
    forall k | k in Keys(reported) ensures k in cells || k in keys {
      assert k == (k.0, k.1);
    }
  }

  lemma KeysSum(cells: seq<Cell>, drift: seq<Cell>, reported: seq<Cell>)
    requires Distinct(cells) && Distinct(drift) && forall k :: k in drift ==> k !in cells && k in reported
    requires forall k :: k in reported ==> k in cells || k in drift
    ensures Distinct(cells + drift) && forall k :: k in cells + drift <==> k in cells || k in reported
  {
    DistinctSum(cells, drift);
  }

  /** No failed row iff every cell reported once, cleanly, and nothing else was. */
  lemma NoFailureIff(spec: SuiteSpec, live: bool, targets: seq<string>, reported: seq<ResultRow>)
    ensures var cells := Cells(spec.scenarios, Columns(targets));
      CountRows(Results(spec, live, targets, reported), Fail) == 0
      <==> (forall k :: k in cells ==> CleanReport(reported, k)) && (forall k :: k in Keys(reported) ==> k in cells)
  {
    var columns := Columns(targets);
    var cells, drift := Cells(spec.scenarios, columns), Drift(spec, columns, reported);
    var rows := CellRows(reported, cells, live);
    NoneCounted(rows + drift, Fail);
    CellRowsClean(reported, cells, live);
    DriftEmptyIff(spec, targets, reported);
    DriftKeys(spec, columns, reported);
    if drift != [] { assert drift[0] in rows + drift; }
    assert forall r :: r in rows + drift <==> r in rows || r in drift;
  }

  lemma CellRowsClean(reported: seq<ResultRow>, cells: seq<Cell>, live: bool)
    ensures (forall r :: r in CellRows(reported, cells, live) ==> !r.status.Fail?) <==>
      forall k :: k in cells ==> CleanReport(reported, k)
  {
    var rows := CellRows(reported, cells, live);
    forall i | 0 <= i < |cells| ensures rows[i].status.Fail? <==> !CleanReport(reported, cells[i]) {
      CellRowVerdict(reported, cells[i], live);
    }
    if forall r :: r in rows ==> !r.status.Fail? {
      forall i | 0 <= i < |cells| ensures CleanReport(reported, cells[i]) {
        assert rows[i] in rows;
      }
    }
    if forall k :: k in cells ==> CleanReport(reported, k) {
      forall i | 0 <= i < |rows| ensures !rows[i].status.Fail? {
        assert cells[i] in cells;
      }
    }
  }

  lemma DriftEmptyIff(spec: SuiteSpec, targets: seq<string>, reported: seq<ResultRow>)
    ensures Drift(spec, Columns(targets), reported) == []
       <==> forall k :: k in Keys(reported) ==> k in Cells(spec.scenarios, Columns(targets))
  {
    var drift := Drift(spec, Columns(targets), reported);
    DriftKeys(spec, Columns(targets), reported);
    if drift != [] { assert Keys(drift)[0] in Keys(drift); }
  }

  /** The verdict is exact: the run is accepted iff the test process succeeded
      and the reported keys are the matrix's cells, each once in any order,
      with no failing row among them. */
  lemma VerdictExact(spec: SuiteSpec, live: bool, filter: Option<string>, targets: seq<string>,
                     reported: seq<ResultRow>, exit: bool)
    requires MatrixOf(spec, targets)
    ensures Summary(spec, live, filter, targets, Results(spec, live, targets, reported), exit).IsOk()
       <==> && exit
            && multiset(Keys(reported)) == multiset(Cells(spec.scenarios, Columns(targets)))
            && forall r :: r in reported ==> !r.status.Fail?
  {
    CellsDistinct(spec.scenarios, Columns(targets));
    NoFailureIff(spec, live, targets, reported);
    CleanIsPermutation(reported, Cells(spec.scenarios, Columns(targets)));
  }

  /** Reporting every cell once and nothing else is reporting a permutation of the cells. */
  lemma CleanIsPermutation(reported: seq<ResultRow>, cells: seq<Cell>)
    requires Distinct(cells)
    ensures (forall k :: k in cells ==> CleanReport(reported, k)) && (forall k :: k in Keys(reported) ==> k in cells)
       <==> multiset(Keys(reported)) == multiset(cells) && forall r :: r in reported ==> !r.status.Fail?
  {
    if (forall k :: k in cells ==> CleanReport(reported, k)) && (forall k :: k in Keys(reported) ==> k in cells) {
      forall k ensures multiset(Keys(reported))[k] == multiset(cells)[k] {
        KeyCount(reported, cells, k);
      }
      forall r | r in reported ensures !r.status.Fail? {
        KeyOfReport(reported, r);
        OneCleanReport(reported, r);
      }
    }
    if multiset(Keys(reported)) == multiset(cells) && forall r :: r in reported ==> !r.status.Fail? {
      forall k | k in cells ensures CleanReport(reported, k) {
        KeyCount(reported, cells, k);
        assert Reports(reported, k)[0] in Reports(reported, k);
      }
      forall k | k in Keys(reported) ensures k in cells {
        assert k in multiset(Keys(reported));
        assert k in multiset(cells);
      }
    }
  }

  lemma KeyCount(reported: seq<ResultRow>, cells: seq<Cell>, k: Cell)
    requires Distinct(cells)
    ensures multiset(Keys(reported))[k] == |Reports(reported, k)|
    ensures multiset(cells)[k] == if k in cells then 1 else 0
    ensures k !in Keys(reported) ==> |Reports(reported, k)| == 0
  {
    ReportsCounted(reported, k);
    DistinctCounts(cells, k);
  }

  lemma KeyOfReport(reported: seq<ResultRow>, r: ResultRow)
    requires r in reported
    ensures KeyOf(r) in Keys(reported)
  {
    var i :| 0 <= i < |reported| && reported[i] == r;
    assert Keys(reported)[i] == KeyOf(r);
  }

  lemma OneCleanReport(reported: seq<ResultRow>, r: ResultRow)
    requires r in reported && CleanReport(reported, KeyOf(r))
    ensures !r.status.Fail?
  {
    assert r in Reports(reported, KeyOf(r));
  }
}
