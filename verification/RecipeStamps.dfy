/** Where a recipe stands, by the time of its last write and its id; the clock may
    run anyhow. */
module RecipeStamps {
  import opened Permutations
  import opened Sequences
  import opened StableSort
  import opened Text
  import opened Wrappers
  import opened RecipePages
  import opened RecipeStore
  import opened RecipeWalks

  /** What the list is ordered by. */
  datatype Stamp = Stamp(time: int, id: string)

  /** The one stamp stands before the other, or is it. */
  predicate Newer(a: Stamp, b: Stamp) {
    a.time > b.time || (a.time == b.time && StrLe(b.id, a.id))
  }

  lemma NewerTotal(a: Stamp, b: Stamp)
    ensures Newer(a, b) || Newer(b, a)
    ensures Newer(a, b) && Newer(b, a) ==> a == b
  {
    StrLeTotal(a.id, b.id);
    if Newer(a, b) && Newer(b, a) { StrLeAntisymmetric(a.id, b.id); }
  }

  lemma NewerTransitive(a: Stamp, b: Stamp, c: Stamp)
    requires Newer(a, b) && Newer(b, c)
    ensures Newer(a, c)
  {
    if a.time == b.time == c.time { StrLeTransitive(c.id, b.id, a.id); }
  }

  lemma LaterIsNewer(later: int, time: int, id: string, than: Stamp)
    requires time <= later && Newer(Stamp(time, id), than)
    ensures Newer(Stamp(later, id), than)
  {
  }

  // ----------------------------------------------------------------- times

  /** When the recipe was last written, if the table has it. */
  function TimeIn(table: seq<Row>, id: string): (r: Option<int>)
    ensures r.Some? <==> id in RowNames(table)
  {
    if table == [] then None
    else
      var before, last := table[..|table| - 1], table[|table| - 1];
      assert RowNames(table) == RowNames(before) + [last.recipe.id];
      if last.recipe.id == id then Some(last.updatedAt) else TimeIn(before, id)
  }

  lemma {:induction false} TimeOfRow(table: seq<Row>, row: Row)
    requires Keyed(table) && row in table
    ensures TimeIn(table, row.recipe.id) == Some(row.updatedAt)
  {
    var before, last := table[..|table| - 1], table[|table| - 1];
    LastName(table);
    assert table == before + [last];
    if row != last {
      TimeOfRow(before, row);
      NameOfMember(before, row);
    }
  }

  lemma NameOfMember(table: seq<Row>, row: Row)
    requires row in table
    ensures row.recipe.id in RowNames(table)
  {
    var i :| 0 <= i < |table| && table[i] == row;
    assert RowNames(table)[i] == row.recipe.id;
  }

  lemma RowOfName(table: seq<Row>, id: string) returns (row: Row)
    requires id in RowNames(table)
    ensures row in table && row.recipe.id == id
  {
    var i :| 0 <= i < |RowNames(table)| && RowNames(table)[i] == id;
    row := table[i];
  }

  // ------------------------------------------------------------ the order

  /** In the list a recipe stands after another iff its stamp does. */
  lemma StandsAfterIff(table: seq<Row>, cursor: string, id: string)
    requires Keyed(table) && cursor in RowNames(table)
    ensures id in TailAfter(Names(Listed(table)), cursor) <==>
      && id != cursor && id in RowNames(table)
      && Newer(Stamp(TimeIn(table, cursor).value, cursor), Stamp(TimeIn(table, id).value, id))
  {
    var sorted := Sorted(NewestFirst, table);
    NewestFirstOrders();
    SortedPermutes(NewestFirst, table);
    KeyedPermuted(table, sorted);
    ListedNames(sorted);
    NamesPermuted(sorted, table, cursor);
    NamesPermuted(sorted, table, id);
    var names := RowNames(sorted);
    var p: nat :| p < |names| && names[p] == cursor;
    TailAfterAt(names, p);
    if id in names {
      var q: nat :| q < |names| && names[q] == id;
      SortedTimes(table, sorted, p);
      SortedTimes(table, sorted, q);
      AfterIff(sorted, p, q);
      TailMember(names, p, q);
    }
  }

  lemma SortedTimes(table: seq<Row>, sorted: seq<Row>, p: nat)
    requires Keyed(table) && Permuted(sorted, table) && p < |sorted|
    ensures TimeIn(table, sorted[p].recipe.id) == Some(sorted[p].updatedAt)
  {
    SameMembers(sorted, table, sorted[p]);
    TimeOfRow(table, sorted[p]);
  }

  lemma AfterIff(sorted: seq<Row>, p: nat, q: nat)
    requires Keyed(sorted) && Ascending(NewestFirst, sorted) && p < |sorted| && q < |sorted|
    ensures p < q <==> sorted[q].recipe.id != sorted[p].recipe.id && NewestFirst(sorted[p], sorted[q])
  {
    StrictlyListed(sorted);
    assert RowNames(sorted)[p] == sorted[p].recipe.id && RowNames(sorted)[q] == sorted[q].recipe.id;
  }

  lemma TailMember(names: seq<string>, p: nat, q: nat)
    requires Distinct(names) && p < |names| && q < |names|
    ensures names[q] in names[p + 1..] <==> p < q
  {
    if p < q { assert names[p + 1..][q - p - 1] == names[q]; }
  }

  // ---------------------------------------------------------------- writes

  /** The time of the last write that creates or edits the recipe. */
  function LastTime(table: seq<Row>, writes: Writes, id: string): int
    requires Moves(table, writes, id)
    decreases |writes|
  {
    var next := Apply(table, writes[0].0, writes[0].1);
    if Moves(next, writes[1..], id) then LastTime(next, writes[1..], id) else writes[0].1
  }

  lemma KeyedCreate(table: seq<Row>, row: Row)
    requires Keyed(table) && row.recipe.id !in RowNames(table)
    ensures Keyed(table + [row])
  {
    assert RowNames(table + [row]) == RowNames(table) + [row.recipe.id];
    DistinctSum(RowNames(table), [row.recipe.id]);
  }

  lemma ApplyKeyed(table: seq<Row>, write: Write, now: int)
    requires Keyed(table)
    ensures Keyed(Apply(table, write, now))
  {
    match write {
      case Create(recipe) => if recipe.id !in RowNames(table) { KeyedCreate(table, Row(recipe, now)); }
      case Edit(id, draft) => assert RowNames(Mapped(Editor(id, draft, now), table)) == RowNames(table);
      case Delete(id) => KeyedExcept(table, id);
      case Publish(id, version) => assert RowNames(Mapped(Marker(id, version), table)) == RowNames(table);
    }
  }

  /** What a write does to the row of one recipe. */
  lemma RowAfter(table: seq<Row>, write: Write, now: int, row: Row)
    requires Keyed(table) && row in Apply(table, write, now)
    ensures var id := row.recipe.id;
      if id in ChangeOf(table, write).front then row.updatedAt == now
      else id in RowNames(table) && TimeIn(table, id) == Some(row.updatedAt)
  {
    match write {
      case Create(recipe) =>
        if row in table { TimeKnown(table, row); }
      case Edit(id, draft) =>
        var i :| 0 <= i < |table| && Mapped(Editor(id, draft, now), table)[i] == row;
        assert row == Edited(table[i], id, draft, now);
        TimeKnown(table, table[i]);
      case Delete(id) =>
        TimeKnown(table, row);
      case Publish(id, version) =>
        var i :| 0 <= i < |table| && Mapped(Marker(id, version), table)[i] == row;
        assert row == Marked(table[i], id, version);
        TimeKnown(table, table[i]);
    }
  }

  lemma TimeKnown(table: seq<Row>, row: Row)
    requires Keyed(table) && row in table
    ensures row.recipe.id in RowNames(table) && TimeIn(table, row.recipe.id) == Some(row.updatedAt)
  {
    NameOfMember(table, row);
    TimeOfRow(table, row);
  }

  /** What a write leaves was there, at its old time, or is written by it. */
  lemma TimeAfter(table: seq<Row>, write: Write, now: int, id: string)
    requires Keyed(table) && id in RowNames(Apply(table, write, now))
    ensures if id in ChangeOf(table, write).front then TimeIn(Apply(table, write, now), id) == Some(now)
      else TimeIn(Apply(table, write, now), id) == TimeIn(table, id)
  {
    var next := Apply(table, write, now);
    ApplyKeyed(table, write, now);
    var row := RowOfName(next, id);
    TimeOfRow(next, row);
    RowAfter(table, write, now, row);
  }

  /** Whatever the clock: after any writes a recipe has the time of the last write
      that created or edited it, or the time it had. */
  lemma {:induction false} TimeFollowsWrites(table: seq<Row>, writes: Writes, id: string)
    requires Keyed(table)
    ensures Keyed(ApplyAll(table, writes))
    ensures id in RowNames(ApplyAll(table, writes)) ==>
      TimeIn(ApplyAll(table, writes), id) ==
        if Moves(table, writes, id) then Some(LastTime(table, writes, id)) else TimeIn(table, id)
    decreases |writes|
  {
    if writes != [] {
      var (write, now) := writes[0];
      var next := Apply(table, write, now);
      ApplyKeyed(table, write, now);
      TimeFollowsWrites(next, writes[1..], id);
      if id in RowNames(next) { TimeAfter(table, write, now, id); }
    }
  }
}
