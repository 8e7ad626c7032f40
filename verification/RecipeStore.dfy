/** The recipe table, newest change first, and what writes do to the list it yields. */
module RecipeStore {
  import opened Permutations
  import opened Sequences
  import opened StableSort
  import opened Text
  import opened Wrappers
  import opened RecipePages

  /** A row; the time is that of its creation or last edit, in milliseconds. */
  datatype Row = Row(recipe: Recipe, updatedAt: int)

  predicate NewestFirst(a: Row, b: Row) {
    a.updatedAt > b.updatedAt || (a.updatedAt == b.updatedAt && StrLe(b.recipe.id, a.recipe.id))
  }

  function RecipeOf(): Row -> Recipe {
    (row: Row) => row.recipe
  }

  /** The list: every recipe, newest change first, then by falling id. */
  function Listed(table: seq<Row>): seq<Recipe> {
    Mapped(RecipeOf(), Sorted(NewestFirst, table))
  }

  function RowNames(rows: seq<Row>): seq<string> {
    seq(|rows|, i requires 0 <= i < |rows| => rows[i].recipe.id)
  }

  /** Each id has one row. */
  predicate Keyed(table: seq<Row>) {
    Distinct(RowNames(table))
  }

  // ---------------------------------------------------------------- writes

  /** What the recipe routes write. Publishing marks a recipe and leaves its time. */
  datatype Write =
    | Create(recipe: Recipe)
    | Edit(id: string, draft: string)
    | Delete(id: string)
    | Publish(id: string, version: string)

  function Edited(row: Row, id: string, draft: string, now: int): Row {
    if row.recipe.id == id then Row(row.recipe.(draft := draft), now) else row
  }

  function Marked(row: Row, id: string, version: string): Row {
    if row.recipe.id == id then row.(recipe := row.recipe.(published := Some(version))) else row
  }

  function Editor(id: string, draft: string, now: int): Row -> Row {
    (row: Row) => Edited(row, id, draft, now)
  }

  function Marker(id: string, version: string): Row -> Row {
    (row: Row) => Marked(row, id, version)
  }

  function Except(rows: seq<Row>, id: string): (r: seq<Row>)
    ensures forall row :: row in r <==> row in rows && row.recipe.id != id
  {
    if rows == [] then []
    else
      var before, last := rows[..|rows| - 1], rows[|rows| - 1];
      assert rows == before + [last];
      Except(before, id) + if last.recipe.id == id then [] else [last]
  }

  function Apply(table: seq<Row>, write: Write, now: int): seq<Row> {
    match write
    case Create(recipe) => if recipe.id in RowNames(table) then table else table + [Row(recipe, now)]
    case Edit(id, draft) => Mapped(Editor(id, draft, now), table)
    case Delete(id) => Except(table, id)
    case Publish(id, version) => Mapped(Marker(id, version), table)
  }

  /** What a write does to the list. */
  function ChangeOf(table: seq<Row>, write: Write): Change {
    match write
    case Create(recipe) => Change(if recipe.id in RowNames(table) then [] else [recipe.id], {})
    case Edit(id, _) => Change(if id in RowNames(table) then [id] else [], {})
    case Delete(id) => Change([], {id})
    case Publish(_, _) => Change([], {})
  }

  /** Every row was written before. */
  predicate Before(table: seq<Row>, now: int) {
    forall row :: row in table ==> row.updatedAt < now
  }

  // ----------------------------------------------------------------- order

  lemma NewestFirstOrders()
    ensures TotalPreorder(NewestFirst)
  {
    forall a, b ensures NewestFirst(a, b) || NewestFirst(b, a) {
      StrLeTotal(a.recipe.id, b.recipe.id);
    }
    forall a, b, c | NewestFirst(a, b) && NewestFirst(b, c) ensures NewestFirst(a, c) {
      if a.updatedAt == b.updatedAt == c.updatedAt { StrLeTransitive(c.recipe.id, b.recipe.id, a.recipe.id); }
    }
  }

  /** Keyed rows in order stand strictly in order. */
  lemma StrictlyListed(rows: seq<Row>)
    requires Keyed(rows) && Ascending(NewestFirst, rows)
    ensures StrictlyAscending(NewestFirst, rows)
  {
    forall i, j | 0 <= i < j < |rows| ensures !NewestFirst(rows[j], rows[i]) {
      assert RowNames(rows)[i] != RowNames(rows)[j] && NewestFirst(rows[i], rows[j]);
      if NewestFirst(rows[j], rows[i]) { StrLeAntisymmetric(rows[i].recipe.id, rows[j].recipe.id); }
    }
  }

  function NameOfRow(row: Row): Option<string> {
    Some(row.recipe.id)
  }

  lemma KeyedPermuted(a: seq<Row>, b: seq<Row>)
    requires Keyed(a) && Permuted(a, b)
    ensures Keyed(b)
  {
    assert UniqueBy(NameOfRow, a) by {
      forall i, j | 0 <= i < j < |a| ensures NameOfRow(a[i]) != NameOfRow(a[j]) {
        assert RowNames(a)[i] != RowNames(a)[j];
      }
    }
    UniquePermuted(NameOfRow, a, b);
    forall i, j | 0 <= i < j < |b| ensures RowNames(b)[i] != RowNames(b)[j] {
      assert NameOfRow(b[i]) != NameOfRow(b[j]);
    }
  }

  /** Any ordered arrangement of a table is its list. */
  lemma ListedIs(table: seq<Row>, rows: seq<Row>)
    requires Keyed(table) && Permuted(rows, table) && Ascending(NewestFirst, rows)
    ensures Listed(table) == Mapped(RecipeOf(), rows)
  {
    NewestFirstOrders();
    SortedPermutes(NewestFirst, table);
    KeyedPermuted(table, rows);
    KeyedPermuted(table, Sorted(NewestFirst, table));
    StrictlyListed(rows);
    StrictlyListed(Sorted(NewestFirst, table));
    OneStrictList(NewestFirst, rows, Sorted(NewestFirst, table));
  }

  lemma ListedNames(rows: seq<Row>)
    ensures Names(Mapped(RecipeOf(), rows)) == RowNames(rows)
  {
  }

  // ------------------------------------------------------- rows taken out

  lemma {:induction false} ExceptCounts(rows: seq<Row>, id: string, row: Row)
    ensures multiset(Except(rows, id))[row] == if row.recipe.id == id then 0 else multiset(rows)[row]
  {
    if rows != [] {
      var before, last := rows[..|rows| - 1], rows[|rows| - 1];
      assert rows == before + [last];
      ExceptCounts(before, id, row);
    }
  }

  lemma ExceptPermuted(a: seq<Row>, b: seq<Row>, id: string)
    requires Permuted(a, b)
    ensures Permuted(Except(a, id), Except(b, id))
  {
    forall row ensures multiset(Except(a, id))[row] == multiset(Except(b, id))[row] {
      ExceptCounts(a, id, row);
      ExceptCounts(b, id, row);
    }
  }

  lemma {:induction false} ExceptAscends(rows: seq<Row>, id: string)
    requires Ascending(NewestFirst, rows)
    ensures Ascending(NewestFirst, Except(rows, id))
  {
    if rows != [] {
      var before, last := rows[..|rows| - 1], rows[|rows| - 1];
      assert rows == before + [last];
      ExceptAscends(before, id);
      forall i | 0 <= i < |Except(before, id)| ensures NewestFirst(Except(before, id)[i], last) {
        var row := Except(before, id)[i];
        assert row in Except(before, id);
        var k :| 0 <= k < |before| && before[k] == row;
        assert rows[k] == row && rows[|rows| - 1] == last;
      }
    }
  }

  lemma {:induction false} ExceptNames(rows: seq<Row>, id: string)
    ensures RowNames(Except(rows, id)) == Without(RowNames(rows), {id})
  {
    if rows == [] {
      assert RowNames(rows) == [];
    } else {
      var before, last := rows[..|rows| - 1], rows[|rows| - 1];
      assert RowNames(rows) == RowNames(before) + [last.recipe.id];
      ExceptNames(before, id);
      WithoutSplit(RowNames(before), [last.recipe.id], {id});
      OneName(last.recipe.id, id);
    }
  }

  lemma OneName(name: string, id: string)
    ensures Without([name], {id}) == if name == id then [] else [name]
  {
    assert [name][1..] == [];
  }

  lemma KeyedExcept(rows: seq<Row>, id: string)
    requires Keyed(rows)
    ensures Keyed(Except(rows, id))
  {
    ExceptNames(rows, id);
    WithoutDistinct(RowNames(rows), {id});
  }

  // ------------------------------------------------------- what writes do

  /** The list with one name taken out, or put first. */
  lemma AfterOne(names: seq<string>, id: string)
    ensures After(names, Change([], {id})) == Without(names, {id})
    ensures After(names, Change([id], {})) == [id] + Without(names, {id})
    ensures After(names, Change([], {})) == names
  {
    assert Displaced(Change([], {id})) == {id} && Displaced(Change([id], {})) == {id};
    assert Displaced(Change([], {})) == {};
    WithoutNone(names, {});
  }

  lemma DeleteTakesOut(table: seq<Row>, id: string)
    requires Keyed(table)
    ensures Keyed(Except(table, id)) && Names(Listed(Except(table, id))) == Without(Names(Listed(table)), {id})
  {
    var sorted := Sorted(NewestFirst, table);
    NewestFirstOrders();
    SortedPermutes(NewestFirst, table);
    ExceptPermuted(sorted, table, id);
    ExceptAscends(sorted, id);
    KeyedExcept(table, id);
    ListedIs(Except(table, id), Except(sorted, id));
    ListedNames(sorted);
    ListedNames(Except(sorted, id));
    ExceptNames(sorted, id);
  }

  /** A row newer than all others, put before them in order. */
  lemma FrontAscends(row: Row, rows: seq<Row>)
    requires Ascending(NewestFirst, rows) && Before(rows, row.updatedAt)
    ensures Ascending(NewestFirst, [row] + rows)
  {
    var all := [row] + rows;
    forall i, j | 0 <= i < j < |all| ensures NewestFirst(all[i], all[j]) {
      if i == 0 {
        assert all[j] == rows[j - 1] && rows[j - 1] in rows;
      } else {
        assert all[i] == rows[i - 1] && all[j] == rows[j - 1];
      }
    }
  }

  lemma FrontNames(row: Row, rows: seq<Row>)
    ensures RowNames([row] + rows) == [row.recipe.id] + RowNames(rows)
  {
  }

  lemma CreatePutsFirst(table: seq<Row>, recipe: Recipe, now: int)
    requires Keyed(table) && Before(table, now) && recipe.id !in RowNames(table)
    ensures Keyed(table + [Row(recipe, now)])
    ensures Names(Listed(table + [Row(recipe, now)])) == [recipe.id] + Names(Listed(table))
    ensures recipe.id !in Names(Listed(table))
  {
    var row, sorted := Row(recipe, now), Sorted(NewestFirst, table);
    NewestFirstOrders();
    SortedPermutes(NewestFirst, table);
    forall x | x in sorted ensures x in table {
      SameMembers(sorted, table, x);
    }
    FrontAscends(row, sorted);
    assert Permuted([row] + sorted, table + [row]);
    assert RowNames(table + [row]) == RowNames(table) + [recipe.id];
    DistinctSum(RowNames(table), [recipe.id]);
    ListedIs(table + [row], [row] + sorted);
    ListedNames(sorted);
    ListedNames([row] + sorted);
    FrontNames(row, sorted);
    NamesPermuted(sorted, table, recipe.id);
  }

  lemma NamesPermuted(a: seq<Row>, b: seq<Row>, id: string)
    requires Permuted(a, b)
    ensures id in RowNames(a) <==> id in RowNames(b)
  {
    if id in RowNames(a) {
      var i :| 0 <= i < |RowNames(a)| && RowNames(a)[i] == id;
      SameMembers(a, b, a[i]);
      var j :| 0 <= j < |b| && b[j] == a[i];
      assert RowNames(b)[j] == id;
    }
    if id in RowNames(b) {
      var i :| 0 <= i < |RowNames(b)| && RowNames(b)[i] == id;
      SameMembers(a, b, b[i]);
      var j :| 0 <= j < |a| && a[j] == b[i];
      assert RowNames(a)[j] == id;
    }
  }

  /** Rows of other ids are left alone by an edit, and by taking the id out. */
  lemma {:induction false} OthersKept(rows: seq<Row>, id: string, draft: string, now: int)
    requires id !in RowNames(rows)
    ensures Mapped(Editor(id, draft, now), rows) == rows && Except(rows, id) == rows
  {
    if rows != [] {
      var before, last := rows[..|rows| - 1], rows[|rows| - 1];
      assert rows == before + [last] && RowNames(rows) == RowNames(before) + [last.recipe.id];
      OthersKept(before, id, draft, now);
      MappedSum(Editor(id, draft, now), before, [last]);
    }
  }

  /** The edited row, and the others. */
  lemma {:induction false} EditSplits(rows: seq<Row>, id: string, draft: string, now: int) returns (row: Row)
    requires Keyed(rows) && id in RowNames(rows)
    ensures row.recipe.id == id && row.updatedAt == now
    ensures Permuted(Mapped(Editor(id, draft, now), rows), [row] + Except(rows, id))
  {
    var before, last := rows[..|rows| - 1], rows[|rows| - 1];
    LastName(rows);
    if last.recipe.id == id {
      row := Edited(last, id, draft, now);
      LastEdited(before, last, draft, now);
      assert rows == before + [last];
    } else {
      row := EditSplits(before, id, draft, now);
      MappedSum(Editor(id, draft, now), before, [last]);
      assert rows == before + [last] && Mapped(Editor(id, draft, now), [last]) == [last];
      AddedLast(Mapped(Editor(id, draft, now), before), row, Except(before, id), last);
    }
  }

  lemma LastName(rows: seq<Row>)
    requires Keyed(rows) && rows != []
    ensures var before, last := rows[..|rows| - 1], rows[|rows| - 1];
      && RowNames(rows) == RowNames(before) + [last.recipe.id] && Keyed(before)
      && last.recipe.id !in RowNames(before)
  {
    var before, last := rows[..|rows| - 1], rows[|rows| - 1];
    assert RowNames(rows) == RowNames(before) + [last.recipe.id];
    DistinctSum(RowNames(before), [last.recipe.id]);
  }

  lemma LastEdited(before: seq<Row>, last: Row, draft: string, now: int)
    requires last.recipe.id !in RowNames(before)
    ensures var id := last.recipe.id;
      Permuted(Mapped(Editor(id, draft, now), before + [last]),
               [Edited(last, id, draft, now)] + Except(before + [last], id))
  {
    var id := last.recipe.id;
    OthersKept(before, id, draft, now);
    MappedSum(Editor(id, draft, now), before, [last]);
    assert Mapped(Editor(id, draft, now), [last]) == [Edited(last, id, draft, now)];
    assert (before + [last])[..|before|] == before && Except(before + [last], id) == before;
  }

  lemma AddedLast<T>(a: seq<T>, x: T, b: seq<T>, last: T)
    requires Permuted(a, [x] + b)
    ensures Permuted(a + [last], [x] + (b + [last]))
  {
    assert [x] + (b + [last]) == ([x] + b) + [last];
  }

  lemma EditPutsFirst(table: seq<Row>, id: string, draft: string, now: int)
    requires Keyed(table) && Before(table, now) && id in RowNames(table)
    ensures var edited := Mapped(Editor(id, draft, now), table);
      Keyed(edited) && Names(Listed(edited)) == [id] + Without(Names(Listed(table)), {id})
  {
    var edited, sorted := Mapped(Editor(id, draft, now), table), Sorted(NewestFirst, table);
    NewestFirstOrders();
    SortedPermutes(NewestFirst, table);
    var row := EditSplits(table, id, draft, now);
    ExceptPermuted(sorted, table, id);
    ExceptAscends(sorted, id);
    forall x | x in Except(sorted, id) ensures x in table {
      SameMembers(sorted, table, x);
    }
    FrontAscends(row, Except(sorted, id));
    assert RowNames(edited) == RowNames(table);
    FrontPermuted(row, Except(sorted, id), Except(table, id), edited);
    ListedIs(edited, [row] + Except(sorted, id));
    ListedNames(sorted);
    ListedNames([row] + Except(sorted, id));
    FrontNames(row, Except(sorted, id));
    ExceptNames(sorted, id);
  }

  lemma FrontPermuted<T>(x: T, a: seq<T>, b: seq<T>, all: seq<T>)
    requires Permuted(a, b) && Permuted(all, [x] + b)
    ensures Permuted([x] + a, all)
  {
  }

  lemma PublishMovesNothing(table: seq<Row>, id: string, version: string)
    requires Keyed(table)
    ensures var marked := Mapped(Marker(id, version), table);
      Keyed(marked) && Names(Listed(marked)) == Names(Listed(table))
  {
    var marked, sorted := Mapped(Marker(id, version), table), Sorted(NewestFirst, table);
    NewestFirstOrders();
    SortedPermutes(NewestFirst, table);
    MappedPermuted(Marker(id, version), sorted, table);
    assert RowNames(marked) == RowNames(table);
    ListedIs(marked, Mapped(Marker(id, version), sorted));
    ListedNames(sorted);
    ListedNames(Mapped(Marker(id, version), sorted));
    assert RowNames(Mapped(Marker(id, version), sorted)) == RowNames(sorted);
  }

  lemma SameNamesListed(table: seq<Row>, id: string)
    requires Keyed(table)
    ensures id in Names(Listed(table)) <==> id in RowNames(table)
  {
    NewestFirstOrders();
    SortedPermutes(NewestFirst, table);
    ListedNames(Sorted(NewestFirst, table));
    NamesPermuted(Sorted(NewestFirst, table), table, id);
  }

  /** A write later than every row puts what it creates or edits first, takes out
      what it deletes, and leaves the order of everything else. */
  lemma WriteMoves(table: seq<Row>, write: Write, now: int)
    requires Keyed(table) && Before(table, now)
    ensures Keyed(Apply(table, write, now))
    ensures Names(Listed(Apply(table, write, now))) == After(Names(Listed(table)), ChangeOf(table, write))
  {
    var names := Names(Listed(table));
    match write {
      case Create(recipe) =>
        AfterOne(names, recipe.id);
        if recipe.id !in RowNames(table) {
          CreatePutsFirst(table, recipe, now);
          WithoutNone(names, {recipe.id});
        }
      case Edit(id, draft) =>
        AfterOne(names, id);
        if id in RowNames(table) { EditPutsFirst(table, id, draft, now); } else { OthersKept(table, id, draft, now); }
      case Delete(id) =>
        AfterOne(names, id);
        DeleteTakesOut(table, id);
      case Publish(id, version) =>
        AfterOne(names, id);
        PublishMovesNothing(table, id, version);
    }
  }

  // ------------------------------------------------------- several writes

  function ApplyAll(table: seq<Row>, writes: seq<(Write, int)>): seq<Row>
    decreases |writes|
  {
    if writes == [] then table else ApplyAll(Apply(table, writes[0].0, writes[0].1), writes[1..])
  }

  /** Each write is later than everything in the table it finds. */
  predicate InTime(table: seq<Row>, writes: seq<(Write, int)>)
    decreases |writes|
  {
    writes == [] || (Before(table, writes[0].1) && InTime(Apply(table, writes[0].0, writes[0].1), writes[1..]))
  }

  /** One change, and then another. */
  function Both(first: Change, second: Change): Change {
    var front := second.front + Without(first.front, Displaced(second));
    Change(front, first.gone + second.gone + Elements(first.front) - Elements(front))
  }

  lemma {:induction false} WithoutTwice(names: seq<string>, a: set<string>, b: set<string>)
    ensures Without(Without(names, a), b) == Without(names, a + b)
  {
    if names != [] {
      var rest := Without(names[1..], a);
      WithoutTwice(names[1..], a, b);
      assert Without(names, a + b) == (if names[0] in a + b then [] else [names[0]]) + Without(names[1..], a + b);
      if names[0] in a {
        assert Without(names, a) == rest;
      } else {
        assert Without(names, a) == [names[0]] + rest && ([names[0]] + rest)[1..] == rest;
      }
    }
  }

  lemma BothDisplaces(first: Change, second: Change)
    ensures Displaced(Both(first, second)) == Displaced(first) + Displaced(second)
  {
    var front := second.front + Without(first.front, Displaced(second));
    assert forall x :: x in front <==> x in second.front || (x in first.front && x !in Displaced(second));
  }

  lemma BothChange(names: seq<string>, first: Change, second: Change)
    ensures After(After(names, first), second) == After(names, Both(first, second))
    ensures Distinct(first.front) && Distinct(second.front) ==> Distinct(Both(first, second).front)
    ensures Both(first, second).gone !! Elements(Both(first, second).front)
  {
    var kept := Without(names, Displaced(first));
    WithoutSplit(first.front, kept, Displaced(second));
    WithoutTwice(names, Displaced(first), Displaced(second));
    BothDisplaces(first, second);
    Associative(second.front, Without(first.front, Displaced(second)), Without(kept, Displaced(second)));
    if Distinct(first.front) && Distinct(second.front) {
      WithoutDistinct(first.front, Displaced(second));
      DistinctSum(second.front, Without(first.front, Displaced(second)));
    }
  }

  /** A change of the kind the walks' theorems are about leads from the one list to
      the other. */
  predicate Leads(names: seq<string>, change: Change, next: seq<string>) {
    Distinct(change.front) && change.gone !! Elements(change.front) && next == After(names, change)
  }

  lemma LeadsOn(names: seq<string>, first: Change, next: seq<string>, second: Change, last: seq<string>)
    requires Leads(names, first, next) && Leads(next, second, last)
    ensures Leads(names, Both(first, second), last)
  {
    BothChange(names, first, second);
  }

  lemma OneWriteLeads(table: seq<Row>, write: Write, now: int)
    requires Keyed(table) && Before(table, now)
    ensures Keyed(Apply(table, write, now))
    ensures Leads(Names(Listed(table)), ChangeOf(table, write), Names(Listed(Apply(table, write, now))))
  {
    WriteMoves(table, write, now);
  }

  // -------------------------------------------------------------- the clock

  /** An edited recipe stands first iff its time, or at the same time its id, is
      above that of every other row: a clock set back leaves it further down. */
  lemma EditStandsFirstIff(table: seq<Row>, id: string, draft: string, now: int)
    requires Keyed(table) && id in RowNames(table)
    ensures var names := Names(Listed(Mapped(Editor(id, draft, now), table)));
      names != [] && (names[0] == id <==> forall row :: row in table && row.recipe.id != id ==>
        now > row.updatedAt || (now == row.updatedAt && StrLe(row.recipe.id, id)))
  {
    var edited := Mapped(Editor(id, draft, now), table);
    var sorted := Sorted(NewestFirst, edited);
    NewestFirstOrders();
    SortedPermutes(NewestFirst, edited);
    ListedNames(sorted);
    var k :| 0 <= k < |RowNames(table)| && RowNames(table)[k] == id;
    var mine := edited[k];
    SameMembers(sorted, edited, mine);
    var at :| 0 <= at < |sorted| && sorted[at] == mine;
    if sorted[0].recipe.id == id {
      FirstIsBefore(table, edited, sorted, id, draft, now);
    } else if forall row :: row in table && row.recipe.id != id ==>
        now > row.updatedAt || (now == row.updatedAt && StrLe(row.recipe.id, id)) {
      SameMembers(sorted, edited, sorted[0]);
      var j :| 0 <= j < |edited| && edited[j] == sorted[0];
      assert edited[j] == Edited(table[j], id, draft, now) && table[j] in table;
      assert NewestFirst(sorted[0], sorted[at]) && NewestFirst(mine, sorted[0]);
      StrLeAntisymmetric(mine.recipe.id, sorted[0].recipe.id);
    }
  }

  lemma FirstIsBefore(table: seq<Row>, edited: seq<Row>, sorted: seq<Row>, id: string, draft: string, now: int)
    requires edited == Mapped(Editor(id, draft, now), table) && Permuted(sorted, edited) && sorted != []
    requires Ascending(NewestFirst, sorted) && sorted[0].recipe.id == id
    ensures forall row :: row in table && row.recipe.id != id ==>
      now > row.updatedAt || (now == row.updatedAt && StrLe(row.recipe.id, id))
  {
    SameMembers(sorted, edited, sorted[0]);
    var m :| 0 <= m < |edited| && edited[m] == sorted[0];
    assert edited[m] == Edited(table[m], id, draft, now);
    forall row | row in table && row.recipe.id != id
      ensures now > row.updatedAt || (now == row.updatedAt && StrLe(row.recipe.id, id))
    {
      var j :| 0 <= j < |table| && table[j] == row;
      assert edited[j] == row && row in edited;
      SameMembers(sorted, edited, row);
      var i :| 0 <= i < |sorted| && sorted[i] == row;
      assert NewestFirst(sorted[0], sorted[i]);
    }
  }
}
