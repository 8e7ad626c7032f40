/** Page walks over the recipe table under any clock, and under one that is never set
    back. */
module RecipeClock {
  import opened Permutations
  import opened Sequences
  import opened StableSort
  import opened Wrappers
  import opened RecipePages
  import opened RecipeAccount
  import opened RecipeStore
  import opened RecipeWalks
  import opened RecipeStamps

  // -------------------------------------------------------------- any clock

  /** The stamp of the cursor's recipe. */
  function CursorStamp(table: seq<Row>, cursor: string): Stamp
    requires cursor in RowNames(table)
  {
    Stamp(TimeIn(table, cursor).value, cursor)
  }

  /** The stamp the last write to the recipe gave it. */
  function LastStamp(table: seq<Row>, writes: Writes, id: string): Stamp
    requires Moves(table, writes, id)
  {
    Stamp(LastTime(table, writes, id), id)
  }

  /** One request and the next, with what was written in between. */
  predicate Linked(r: Request, table: seq<Row>, writes: Writes, next: Request, nextTable: seq<Row>) {
    && Keyed(table) && Served(r, table) && Served(next, nextTable)
    && Written(table, writes, nextTable) && Continues(r, next)
  }

  lemma LinkedAnswered(r: Request, table: seq<Row>, writes: Writes, next: Request, nextTable: seq<Row>)
    requires Linked(r, table, writes, next, nextTable)
    ensures Keyed(nextTable) && Answered(r) && Answered(next)
    ensures next.cursor.value in RowNames(table) && next.cursor.value in RowNames(nextTable)
  {
    var cursor := next.cursor.value;
    TimeFollowsWrites(table, writes, cursor);
    ListedDistinct(table);
    ListedDistinct(nextTable);
    NextCursorListed(r);
    SameNamesListed(table, cursor);
    SameNamesListed(nextTable, cursor);
  }

  /** The recipe stands after the cursor in the table. */
  predicate Behind(table: seq<Row>, cursor: string, id: string)
    requires cursor in RowNames(table)
  {
    && id != cursor && id in RowNames(table)
    && Newer(CursorStamp(table, cursor), Stamp(TimeIn(table, id).value, id))
  }

  lemma DueIsBehind(r: Request, table: seq<Row>, writes: Writes, next: Request, nextTable: seq<Row>, id: string)
    requires Linked(r, table, writes, next, nextTable)
    ensures next.cursor.value in RowNames(table) && next.cursor.value in RowNames(nextTable)
    ensures id in Ahead(r) <==> Behind(table, next.cursor.value, id)
    ensures id in Due(next) <==> Behind(nextTable, next.cursor.value, id)
  {
    LinkedAnswered(r, table, writes, next, nextTable);
    StandsAfterIff(table, next.cursor.value, id);
    StandsAfterIff(nextTable, next.cursor.value, id);
  }

  /** Whatever the clock, while the cursor's recipe is not written: a recipe comes
      back iff it is there at the next request and the last write to it gave it a
      stamp below the cursor's; and one that stays is passed over iff the last write
      to it gave it a stamp above. */
  lemma StampsDecide(r: Request, table: seq<Row>, writes: Writes, next: Request, nextTable: seq<Row>, id: string)
    requires Linked(r, table, writes, next, nextTable) && !Moves(table, writes, next.cursor.value)
    ensures next.cursor.value in RowNames(table)
    ensures ComesBack(r, next, id) <==>
      && id !in Ahead(r) && id in Names(next.list) && Moves(table, writes, id)
      && Newer(CursorStamp(table, next.cursor.value), LastStamp(table, writes, id))
    ensures id in Names(next.list) ==> (PassedOver(r, next, id) <==>
      && id in Ahead(r) && Moves(table, writes, id)
      && Newer(LastStamp(table, writes, id), CursorStamp(table, next.cursor.value)))
  {
    var cursor := next.cursor.value;
    LinkedAnswered(r, table, writes, next, nextTable);
    DueIsBehind(r, table, writes, next, nextTable, id);
    TimeFollowsWrites(table, writes, cursor);
    TimeFollowsWrites(table, writes, id);
    SameNamesListed(nextTable, id);
    if id in RowNames(nextTable) {
      NewerTotal(CursorStamp(table, cursor), Stamp(TimeIn(nextTable, id).value, id));
    }
  }

  // ------------------------------------------- a clock that is not set back

  /** From one time to the other, each write is no earlier than the one before. */
  predicate Ticks(from: int, writes: Writes, to: int)
    decreases |writes|
  {
    if writes == [] then from <= to else from <= writes[0].1 && Ticks(writes[0].1, writes[1..], to)
  }

  predicate UpTo(table: seq<Row>, time: int) {
    forall row :: row in table ==> row.updatedAt <= time
  }

  /** `clock` gives the time of each request. */
  predicate Steady(tables: seq<seq<Row>>, writes: seq<Writes>, clock: seq<int>) {
    && |clock| == |tables| == |writes| + 1 && UpTo(tables[0], clock[0])
    && forall k :: 0 <= k < |writes| ==> Ticks(clock[k], writes[k], clock[k + 1])
  }

  lemma {:induction false} TicksPass(table: seq<Row>, from: int, writes: Writes, to: int, id: string)
    requires Ticks(from, writes, to)
    ensures from <= to
    ensures Moves(table, writes, id) ==> from <= LastTime(table, writes, id) <= to
    decreases |writes|
  {
    if writes != [] {
      TicksPass(Apply(table, writes[0].0, writes[0].1), writes[0].1, writes[1..], to, id);
    }
  }

  lemma StaysUpTo(table: seq<Row>, from: int, writes: Writes, to: int)
    requires Keyed(table) && UpTo(table, from) && Ticks(from, writes, to)
    ensures UpTo(ApplyAll(table, writes), to)
  {
    var next := ApplyAll(table, writes);
    forall row | row in next ensures row.updatedAt <= to {
      var id := row.recipe.id;
      TimeFollowsWrites(table, writes, id);
      TicksPass(table, from, writes, to, id);
      TimeKnown(next, row);
      if !Moves(table, writes, id) { TimeUpTo(table, from, id); }
    }
  }

  lemma TimeUpTo(table: seq<Row>, time: int, id: string)
    requires Keyed(table) && UpTo(table, time) && id in RowNames(table)
    ensures TimeIn(table, id).value <= time
  {
    var row := RowOfName(table, id);
    TimeOfRow(table, row);
  }

  /** Written at this time or later, the recipe does not stand after the cursor. */
  predicate Safe(time: int, id: string, table: seq<Row>, cursor: string) {
    cursor in RowNames(table) ==> Newer(Stamp(time, id), CursorStamp(table, cursor))
  }

  lemma NoComeBack(r: Request, table: seq<Row>, writes: Writes, next: Request, nextTable: seq<Row>, from: int, to: int,
                   id: string)
    requires Linked(r, table, writes, next, nextTable) && !Moves(table, writes, next.cursor.value)
    requires Ticks(from, writes, to) && Safe(from, id, table, next.cursor.value)
    ensures !ComesBack(r, next, id)
  {
    StampsDecide(r, table, writes, next, nextTable, id);
    TicksPass(table, from, writes, to, id);
    if ComesBack(r, next, id) {
      var cursor := CursorStamp(table, next.cursor.value);
      LaterIsNewer(LastTime(table, writes, id), from, id, cursor);
      NewerTotal(LastStamp(table, writes, id), cursor);
    }
  }

  /** What is listed and does not stand after the page's cursor is safe from then. */
  lemma ListedSafe(r: Request, table: seq<Row>, time: int, id: string)
    requires Keyed(table) && Served(r, table) && UpTo(table, time)
    requires r.page.nextCursor.Some? && id in Names(r.list) && id !in Ahead(r)
    ensures Safe(time, id, table, r.page.nextCursor.value)
  {
    var cursor := r.page.nextCursor.value;
    ListedDistinct(table);
    NextCursorListed(r);
    SameNamesListed(table, cursor);
    SameNamesListed(table, id);
    StandsAfterIff(table, cursor, id);
    TimeUpTo(table, time, id);
    NewerTotal(Stamp(TimeIn(table, id).value, id), CursorStamp(table, cursor));
    LaterIsNewer(time, TimeIn(table, id).value, id, CursorStamp(table, cursor));
  }

  /** The next cursor stands after this one. */
  lemma CursorFalls(r: Request, table: seq<Row>, writes: Writes, next: Request, nextTable: seq<Row>)
    requires Linked(r, table, writes, next, nextTable) && !Moves(table, writes, next.cursor.value)
    requires next.page.nextCursor.Some?
    ensures next.cursor.value in RowNames(table) && next.page.nextCursor.value in RowNames(nextTable)
    ensures Newer(CursorStamp(table, next.cursor.value), CursorStamp(nextTable, next.page.nextCursor.value))
  {
    LinkedAnswered(r, table, writes, next, nextTable);
    NextCursorDue(next);
    DueIsBehind(r, table, writes, next, nextTable, next.page.nextCursor.value);
    TimeFollowsWrites(table, writes, next.cursor.value);
  }

  /** Safe stays safe. */
  lemma StaysSafe(r: Request, table: seq<Row>, writes: Writes, next: Request, nextTable: seq<Row>, from: int, to: int,
                  id: string)
    requires Linked(r, table, writes, next, nextTable) && !Moves(table, writes, next.cursor.value)
    requires Ticks(from, writes, to) && Safe(from, id, table, next.cursor.value) && next.page.nextCursor.Some?
    ensures Safe(to, id, nextTable, next.page.nextCursor.value)
  {
    var cursor, further := next.cursor.value, next.page.nextCursor.value;
    CursorFalls(r, table, writes, next, nextTable);
    TicksPass(table, from, writes, to, id);
    LaterIsNewer(to, from, id, CursorStamp(table, cursor));
    NewerTransitive(Stamp(to, id), CursorStamp(table, cursor), CursorStamp(nextTable, further));
  }

  lemma NextCursorDue(r: Request)
    requires Answered(r) && r.page.nextCursor.Some?
    ensures r.page.nextCursor.value in Due(r)
  {
    PageSplits(r);
    var last := |r.page.items| - 1;
    assert Names(r.page.items)[last] == r.page.nextCursor.value;
  }

  // ------------------------------------------------------------ whole walks

  predicate AllSafe(names: seq<string>, time: int, table: seq<Row>, r: Request) {
    r.page.nextCursor.Some? ==> forall id :: id in names ==> Safe(time, id, table, r.page.nextCursor.value)
  }

  /** Nothing returned comes in sight again. */
  lemma DueUnseen(r: Request, table: seq<Row>, writes: Writes, next: Request, nextTable: seq<Row>, from: int, to: int,
                  got: seq<string>)
    requires Linked(r, table, writes, next, nextTable) && !Moves(table, writes, next.cursor.value)
    requires Ticks(from, writes, to) && AllSafe(got, from, table, r) && Distinct(got + Ahead(r))
    ensures Distinct(got + Due(next))
  {
    LinkedAnswered(r, table, writes, next, nextTable);
    DueDistinct(next);
    DistinctSum(got, Ahead(r));
    forall id | id in Due(next) ensures id !in got {
      if id in got { NoComeBack(r, table, writes, next, nextTable, from, to, id); }
    }
    DistinctSum(got, Due(next));
  }

  /** What was returned before stays safe. */
  lemma GotStaysSafe(r: Request, table: seq<Row>, writes: Writes, next: Request, nextTable: seq<Row>, from: int,
                     to: int, got: seq<string>)
    requires Linked(r, table, writes, next, nextTable) && !Moves(table, writes, next.cursor.value)
    requires Ticks(from, writes, to) && AllSafe(got, from, table, r)
    ensures AllSafe(got, to, nextTable, next)
  {
    if next.page.nextCursor.Some? {
      forall id | id in got ensures Safe(to, id, nextTable, next.page.nextCursor.value) {
        StaysSafe(r, table, writes, next, nextTable, from, to, id);
      }
    }
  }

  /** What a page returns is safe from then on. */
  lemma PageSafe(r: Request, table: seq<Row>, time: int)
    requires Keyed(table) && Served(r, table) && UpTo(table, time)
    ensures AllSafe(Names(r.page.items), time, table, r)
  {
    if r.page.nextCursor.Some? {
      ListedDistinct(table);
      PageSplits(r);
      DueDistinct(r);
      DistinctSum(Names(r.page.items), Ahead(r));
      var p := DueFrom(r);
      forall id | id in Names(r.page.items) ensures Safe(time, id, table, r.page.nextCursor.value) {
        assert id in Due(r);
        ListedSafe(r, table, time, id);
      }
    }
  }

  /** What is in sight is what was returned before and what is due now. */
  lemma SightIsDue(walk: seq<Request>)
    requires walk != [] && Answered(walk[|walk| - 1])
    ensures Sight(walk) == Names(Returned(walk[..|walk| - 1])) + Due(walk[|walk| - 1])
    ensures Names(Returned(walk)) == Names(Returned(walk[..|walk| - 1])) + Names(walk[|walk| - 1].page.items)
  {
    var last := walk[|walk| - 1];
    PageSplits(last);
    NamesSum(Returned(walk[..|walk| - 1]), last.page.items);
    Associative(Names(Returned(walk[..|walk| - 1])), Names(last.page.items), Ahead(last));
  }

  /** The last request and the one before it. */
  lemma LastLinked(walk: seq<Request>, tables: seq<seq<Row>>, writes: seq<Writes>)
    requires StoredWalk(walk, tables, writes) && CursorsUnwritten(walk, tables, writes) && |walk| > 1
    requires Keyed(tables[|walk| - 2])
    ensures var n := |walk| - 1;
      && Linked(walk[n - 1], tables[n - 1], writes[n - 1], walk[n], tables[n])
      && !Moves(tables[n - 1], writes[n - 1], walk[n].cursor.value)
  {
    var n := |walk| - 1;
    ShorterStored(walk, tables, writes);
    assert walk[n - 1 + 1] == walk[n];
  }

  lemma ShorterSteady(tables: seq<seq<Row>>, writes: seq<Writes>, clock: seq<int>, n: nat)
    requires Steady(tables, writes, clock) && 0 < n < |tables|
    ensures Steady(tables[..n], writes[..n - 1], clock[..n]) && Ticks(clock[n - 1], writes[n - 1], clock[n])
  {
    assert Ticks(clock[n - 1], writes[n - 1], clock[n - 1 + 1]);
  }

  /** While the clock is not set back: nothing comes in sight twice, and what was
      returned is safe. */
  lemma {:induction false} SteadySight(walk: seq<Request>, tables: seq<seq<Row>>, writes: seq<Writes>, clock: seq<int>)
    requires StoredWalk(walk, tables, writes) && CursorsUnwritten(walk, tables, writes)
    requires Steady(tables, writes, clock)
    ensures var n := |walk| - 1;
      && Keyed(tables[n]) && UpTo(tables[n], clock[n]) && Served(walk[n], tables[n])
      && AllSafe(Names(Returned(walk)), clock[n], tables[n], walk[n])
    ensures Distinct(Sight(walk))
  {
    var n := |walk| - 1;
    assert Served(walk[n], tables[n]);
    if n == 0 {
      FirstSteady(walk, tables[0], clock[0]);
    } else {
      ShorterStored(walk, tables, writes);
      ShorterSteady(tables, writes, clock, n);
      UnwrittenBefore(walk, tables, writes);
      SteadySight(walk[..n], tables[..n], writes[..n - 1], clock[..n]);
      LastLinked(walk, tables, writes);
      OneMoreSteady(walk[n - 1], tables[n - 1], writes[n - 1], walk[n], tables[n], clock[n - 1], clock[n],
                    Names(Returned(walk[..n])));
      ListedDistinct(tables[n]);
      SightIsDue(walk);
    }
  }

  lemma UnwrittenBefore(walk: seq<Request>, tables: seq<seq<Row>>, writes: seq<Writes>)
    requires CursorsUnwritten(walk, tables, writes) && |walk| == |tables| == |writes| + 1 > 1
    ensures CursorsUnwritten(walk[..|writes|], tables[..|writes|], writes[..|writes| - 1])
  {
  }

  lemma FirstSteady(walk: seq<Request>, table: seq<Row>, time: int)
    requires |walk| == 1 && Keyed(table) && Served(walk[0], table) && UpTo(table, time)
    ensures AllSafe(Names(Returned(walk)), time, table, walk[0]) && Distinct(Sight(walk))
  {
    ListedDistinct(table);
    FirstSight(walk);
    DueDistinct(walk[0]);
    PageSafe(walk[0], table, time);
  }

  lemma OneMoreSteady(r: Request, table: seq<Row>, writes: Writes, next: Request, nextTable: seq<Row>, from: int,
                      to: int, got: seq<string>)
    requires Linked(r, table, writes, next, nextTable) && !Moves(table, writes, next.cursor.value)
    requires Ticks(from, writes, to) && UpTo(table, from) && AllSafe(got, from, table, r) && Distinct(got + Ahead(r))
    ensures Keyed(nextTable) && UpTo(nextTable, to) && Distinct(got + Due(next))
    ensures AllSafe(got + Names(next.page.items), to, nextTable, next)
  {
    LinkedAnswered(r, table, writes, next, nextTable);
    StaysUpTo(table, from, writes, to);
    DueUnseen(r, table, writes, next, nextTable, from, to, got);
    GotStaysSafe(r, table, writes, next, nextTable, from, to, got);
    PageSafe(next, nextTable, to);
  }

  /** A write after the request lifts the recipe, which stands after the cursor,
      above it. */
  predicate Overtakes(r: Request, table: seq<Row>, writes: Writes, id: string) {
    && id in Ahead(r) && Moves(table, writes, id)
    && r.page.nextCursor.Some? && r.page.nextCursor.value in RowNames(table)
    && Newer(LastStamp(table, writes, id), CursorStamp(table, r.page.nextCursor.value))
  }

  /** No step of the walk does. */
  predicate NeverOvertakes(walk: seq<Request>, tables: seq<seq<Row>>, writes: seq<Writes>, id: string)
    requires |walk| == |tables| == |writes| + 1
  {
    var n := |writes|;
    n == 0 || (NeverOvertakes(walk[..n], tables[..n], writes[..n - 1], id)
               && !Overtakes(walk[n - 1], tables[n - 1], writes[n - 1], id))
  }

  /** A recipe that is listed now and next is due then iff it is ahead and nothing
      lifts it above the cursor. */
  lemma DueIff(r: Request, table: seq<Row>, writes: Writes, next: Request, nextTable: seq<Row>, from: int, to: int,
               id: string)
    requires Linked(r, table, writes, next, nextTable) && !Moves(table, writes, next.cursor.value)
    requires Ticks(from, writes, to) && UpTo(table, from) && id in Names(r.list) && id in Names(next.list)
    ensures next.cursor.value in RowNames(table)
    ensures id in Due(next) <==> id in Ahead(r) && !Overtakes(r, table, writes, id)
  {
    StampsDecide(r, table, writes, next, nextTable, id);
    if id !in Ahead(r) {
      ListedSafe(r, table, from, id);
      NoComeBack(r, table, writes, next, nextTable, from, to, id);
    }
  }

  lemma SteadyStep(walk: seq<Request>, tables: seq<seq<Row>>, writes: seq<Writes>, clock: seq<int>, id: string)
    requires StoredWalk(walk, tables, writes) && CursorsUnwritten(walk, tables, writes) && |walk| > 1
    requires Steady(tables, writes, clock) && PresentThroughout(walk, id)
    ensures var n := |walk| - 1;
      id in Sight(walk) <==>
        id in Sight(walk[..n]) && !Overtakes(walk[n - 1], tables[n - 1], writes[n - 1], id)
  {
    var n := |walk| - 1;
    ShorterStored(walk, tables, writes);
    ShorterSteady(tables, writes, clock, n);
    UnwrittenBefore(walk, tables, writes);
    SteadySight(walk[..n], tables[..n], writes[..n - 1], clock[..n]);
    LastLinked(walk, tables, writes);
    LinkedAnswered(walk[n - 1], tables[n - 1], writes[n - 1], walk[n], tables[n]);
    SightIsDue(walk);
    DueIff(walk[n - 1], tables[n - 1], writes[n - 1], walk[n], tables[n], clock[n - 1], clock[n], id);
    DistinctSum(Names(Returned(walk[..n])), Ahead(walk[n - 1]));
  }

  /** A recipe that is never deleted stays in sight iff it is never lifted above the
      cursor. */
  lemma {:induction false} SteadyInSight(walk: seq<Request>, tables: seq<seq<Row>>, writes: seq<Writes>,
                                         clock: seq<int>, id: string)
    requires StoredWalk(walk, tables, writes) && CursorsUnwritten(walk, tables, writes)
    requires Steady(tables, writes, clock) && PresentThroughout(walk, id) && id in Due(walk[0])
    ensures id in Sight(walk) <==> NeverOvertakes(walk, tables, writes, id)
  {
    var n := |walk| - 1;
    if n == 0 {
      assert Served(walk[0], tables[0]);
      ListedDistinct(tables[0]);
      FirstSight(walk);
    } else {
      ShorterStored(walk, tables, writes);
      ShorterSteady(tables, writes, clock, n);
      UnwrittenBefore(walk, tables, writes);
      PresentBefore(walk, id);
      SteadyInSight(walk[..n], tables[..n], writes[..n - 1], clock[..n], id);
      SteadyStep(walk, tables, writes, clock, id);
    }
  }

  /** While the clock is not set back and no cursor's recipe is edited, whatever else
      is created, edited, published and deleted, in the same millisecond or not: no
      recipe is returned twice, and one that is never deleted is returned by a
      finished walk iff no write lifts it above the cursor while it stands after it. */
  lemma SteadyWalksSurvive(walk: seq<Request>, tables: seq<seq<Row>>, writes: seq<Writes>, clock: seq<int>)
    requires StoredWalk(walk, tables, writes) && CursorsUnwritten(walk, tables, writes)
    requires Steady(tables, writes, clock)
    ensures Distinct(Names(Returned(walk)))
    ensures Finished(walk) ==> forall id :: PresentThroughout(walk, id) && id in Due(walk[0]) ==>
      (id in Names(Returned(walk)) <==> NeverOvertakes(walk, tables, writes, id))
  {
    SteadySight(walk, tables, writes, clock);
    DistinctSum(Names(Returned(walk)), Ahead(walk[|walk| - 1]));
    if Finished(walk) {
      NothingAhead(walk);
      forall id | PresentThroughout(walk, id) && id in Due(walk[0])
        ensures id in Names(Returned(walk)) <==> NeverOvertakes(walk, tables, writes, id)
      {
        SteadyInSight(walk, tables, writes, clock, id);
      }
    }
  }

  // ------------------------------------------------- a clock that is set back

  lemma TwoRows(a: Recipe, b: Recipe, later: int, earlier: int)
    requires a.id != b.id && later > earlier
    ensures Keyed([Row(a, later), Row(b, earlier)]) && Keyed([Row(b, earlier), Row(a, later)])
    ensures Listed([Row(a, later), Row(b, earlier)]) == [a, b] && Listed([Row(b, earlier), Row(a, later)]) == [a, b]
  {
    var ordered, other := [Row(a, later), Row(b, earlier)], [Row(b, earlier), Row(a, later)];
    assert RowNames(ordered) == [a.id, b.id] && RowNames(other) == [b.id, a.id];
    assert Ascending(NewestFirst, ordered) && Permuted(ordered, other);
    ListedIs(ordered, ordered);
    ListedIs(other, ordered);
    assert Mapped(RecipeOf(), ordered) == [a, b];
  }

  /** The edit of the first of two rows. */
  lemma EditOfFirst(a: Recipe, b: Recipe, draft: string, ta: int, tb: int, now: int)
    requires a.id != b.id
    ensures ApplyAll([Row(a, ta), Row(b, tb)], [(Edit(a.id, draft), now)]) == [Row(a.(draft := draft), now), Row(b, tb)]
    ensures !Moves([Row(a, ta), Row(b, tb)], [(Edit(a.id, draft), now)], b.id)
  {
    var table := [Row(a, ta), Row(b, tb)];
    var next := Apply(table, Edit(a.id, draft), now);
    assert Mapped(Editor(a.id, draft, now), table) == [Row(a.(draft := draft), now), Row(b, tb)];
    assert ApplyAll(next, []) == next && !Moves(next, [], b.id);
  }

  lemma TwoPages(a: Recipe, b: Recipe, edited: Recipe)
      returns (first: Request, second: Request)
    requires a.id != b.id && edited.id == a.id
    ensures first == Request([a, b], Some(2), None, Page([a, b], Some(b.id), 2))
    ensures second == Request([b, edited], Some(2), Some(b.id), Page([edited], None, 2))
    ensures Answer(first.list, first.Limit(), first.cursor) == Ok(first.page)
    ensures Answer(second.list, second.Limit(), second.cursor) == Ok(second.page)
  {
    first := Request([a, b], Some(2), None, PageFrom([a, b], 2));
    second := Request([b, edited], Some(2), Some(b.id), PageFrom([edited], 2));
    assert Names(second.list)[0] == b.id;
    RestAfterAt(second.list, 0);
  }

  lemma PairStored(first: Request, table: seq<Row>, edits: Writes, second: Request, next: seq<Row>)
      returns (walk: seq<Request>, tables: seq<seq<Row>>, writes: seq<Writes>)
    requires Linked(first, table, edits, second, next) && !Moves(table, edits, second.cursor.value)
    ensures walk == [first, second] && tables == [table, next] && writes == [edits]
    ensures StoredWalk(walk, tables, writes) && CursorsUnwritten(walk, tables, writes)
  {
    walk, tables, writes := [first, second], [table, next], [edits];
  }

  /** Two recipes on one page, and then an edit of the first, not the cursor's, when
      the clock was set back below both: it is returned again. */
  lemma ClockSetBackRepeats(a: Recipe, b: Recipe, draft: string, ta: int, tb: int, now: int)
      returns (walk: seq<Request>, tables: seq<seq<Row>>, writes: seq<Writes>)
    requires a.id != b.id && ta > tb > now
    ensures StoredWalk(walk, tables, writes) && CursorsUnwritten(walk, tables, writes) && Finished(walk)
    ensures tables[0] == [Row(a, ta), Row(b, tb)] && writes == [[(Edit(a.id, draft), now)]]
    ensures Returned(walk) == [a, b, a.(draft := draft)]
  {
    var edited, edits := a.(draft := draft), [(Edit(a.id, draft), now)];
    var table, next := [Row(a, ta), Row(b, tb)], [Row(edited, now), Row(b, tb)];
    TwoRows(a, b, ta, tb);
    TwoRows(b, edited, tb, now);
    EditOfFirst(a, b, draft, ta, tb, now);
    var first, second := TwoPages(a, b, edited);
    walk, tables, writes := PairStored(first, table, edits, second, next);
    assert walk[..1] == [first] && [first][..0] == [] && Returned([first]) == first.page.items;
  }
}
