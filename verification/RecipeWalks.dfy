/** Page walks over the recipe table, whatever is written between the requests. */
module RecipeWalks {
  import opened Sequences
  import opened StableSort
  import opened Wrappers
  import opened RecipePages
  import opened RecipeAccount
  import opened RecipeStore

  type Writes = seq<(Write, int)>

  /** Some of the writes creates or edits the recipe. */
  predicate Moves(table: seq<Row>, writes: Writes, id: string)
    decreases |writes|
  {
    writes != [] && (id in ChangeOf(table, writes[0].0).front
                     || Moves(Apply(table, writes[0].0, writes[0].1), writes[1..], id))
  }

  /** One change for the writes, which moves just what they move and leave. */
  lemma {:induction false} MovedByWrites(table: seq<Row>, writes: Writes) returns (change: Change)
    requires Keyed(table) && InTime(table, writes)
    ensures Keyed(ApplyAll(table, writes))
    ensures Leads(Names(Listed(table)), change, Names(Listed(ApplyAll(table, writes))))
    ensures forall id :: id in change.front <==>
      id in Names(Listed(ApplyAll(table, writes))) && Moves(table, writes, id)
    decreases |writes|
  {
    var names := Names(Listed(table));
    if writes == [] {
      change := Change([], {});
      AfterOne(names, "");
    } else {
      var (write, now) := writes[0];
      var next := Apply(table, write, now);
      OneWriteLeads(table, write, now);
      var rest := MovedByWrites(next, writes[1..]);
      var last := Names(Listed(ApplyAll(next, writes[1..])));
      change := Both(ChangeOf(table, write), rest);
      LeadsOn(names, ChangeOf(table, write), Names(Listed(next)), rest, last);
      forall id ensures id in change.front <==> id in last && Moves(table, writes, id) {
        FrontOfBoth(names, ChangeOf(table, write), Names(Listed(next)), rest, last, id);
      }
    }
  }

  lemma FrontOfBoth(names: seq<string>, first: Change, next: seq<string>, second: Change, last: seq<string>, id: string)
    requires Leads(names, first, next) && Leads(next, second, last)
    ensures id in Both(first, second).front <==> id in last && (id in first.front || id in second.front)
  {
  }

  /** Requests in a row: each sees the table as the writes since the request before
      have left it, and goes on at that request's cursor. */
  predicate StoredWalk(walk: seq<Request>, tables: seq<seq<Row>>, writes: seq<Writes>)
  {
    && walk != [] && |tables| == |walk| && |writes| == |walk| - 1 && Keyed(tables[0])
    && (forall k :: 0 <= k < |walk| ==> Served(walk[k], tables[k]))
    && (forall k :: 0 <= k < |writes| ==> Written(tables[k], writes[k], tables[k + 1]))
    && forall k :: 0 <= k < |writes| ==> Continues(walk[k], walk[k + 1])
  }

  predicate Served(r: Request, table: seq<Row>)
  {
    r.list == Listed(table) && Answer(r.list, r.Limit(), r.cursor) == Ok(r.page)
  }

  predicate Written(table: seq<Row>, writes: Writes, next: seq<Row>) {
    next == ApplyAll(table, writes)
  }

  /** Each write is later than everything in the table it finds. */
  predicate LaterWrites(tables: seq<seq<Row>>, writes: seq<Writes>) {
    forall k :: 0 <= k < |writes| && k < |tables| ==> InTime(tables[k], writes[k])
  }

  lemma ListedDistinct(table: seq<Row>)
    requires Keyed(table)
    ensures Distinct(Names(Listed(table)))
  {
    NewestFirstOrders();
    SortedPermutes(NewestFirst, table);
    KeyedPermuted(table, Sorted(NewestFirst, table));
    ListedNames(Sorted(NewestFirst, table));
  }

  /** What the writes before each request move: the front of the change they make. */
  ghost predicate MovesAgree(walk: seq<Request>, tables: seq<seq<Row>>, writes: seq<Writes>, changes: seq<Change>) {
    && |changes| == |writes| && |writes| < |tables| && |writes| < |walk|
    && forall k, id :: 0 <= k < |changes| ==>
      (id in changes[k].front <==> id in Names(walk[k + 1].list) && Moves(tables[k], writes[k], id))
  }

  lemma ShorterStored(walk: seq<Request>, tables: seq<seq<Row>>, writes: seq<Writes>)
    requires StoredWalk(walk, tables, writes) && |walk| > 1
    ensures var n := |walk| - 1;
      && StoredWalk(walk[..n], tables[..n], writes[..n - 1])
      && Served(walk[n], tables[n]) && Written(tables[n - 1], writes[n - 1], tables[n])
      && Served(walk[n - 1], tables[n - 1]) && Continues(walk[n - 1], walk[n])
  {
    var n := |walk| - 1;
    assert Served(walk[n - 1], tables[n - 1]) && Served(walk[n], tables[n]);
    assert Written(tables[n - 1], writes[n - 1], tables[n - 1 + 1]) && Continues(walk[n - 1], walk[n - 1 + 1]);
  }

  lemma AgreeOneMore(walk: seq<Request>, tables: seq<seq<Row>>, writes: seq<Writes>, changes: seq<Change>,
                     change: Change)
    requires |walk| == |tables| == |writes| + 1 > 1
    requires var n := |writes|;
      && MovesAgree(walk[..n], tables[..n], writes[..n - 1], changes)
      && forall id :: id in change.front <==> id in Names(walk[n].list) && Moves(tables[n - 1], writes[n - 1], id)
    ensures MovesAgree(walk, tables, writes, changes + [change])
  {
    var n := |writes|;
    var all := changes + [change];
    forall k, id | 0 <= k < |all|
      ensures id in all[k].front <==> id in Names(walk[k + 1].list) && Moves(tables[k], writes[k], id)
    {
      if k < n - 1 {
        assert all[k] == changes[k] && walk[..n][k + 1] == walk[k + 1] && tables[..n][k] == tables[k];
        assert writes[..n - 1][k] == writes[k];
      }
    }
  }

  /** What the writes between two requests do to what the second one sees. */
  lemma NextServed(r: Request, table: seq<Row>, writes: Writes, next: Request, nextTable: seq<Row>)
      returns (change: Change)
    requires Keyed(table) && Served(r, table) && Served(next, nextTable)
    requires InTime(table, writes) && Written(table, writes, nextTable) && Continues(r, next)
    ensures Keyed(nextTable) && Answered(next) && Follows(r, change, next)
    ensures forall id :: id in change.front <==> id in Names(next.list) && Moves(table, writes, id)
  {
    change := MovedByWrites(table, writes);
    ListedDistinct(nextTable);
  }

  /** Every walk over the table is a walk of the kind the theorems are about. */
  lemma {:induction false} StoredWalkIsWalk(walk: seq<Request>, tables: seq<seq<Row>>, writes: seq<Writes>)
      returns (changes: seq<Change>)
    requires StoredWalk(walk, tables, writes) && LaterWrites(tables, writes)
    ensures IsWalk(walk, changes) && MovesAgree(walk, tables, writes, changes)
    ensures Keyed(tables[|tables| - 1])
  {
    var n := |walk| - 1;
    if n == 0 {
      changes := [];
      ListedDistinct(tables[0]);
      assert Served(walk[0], tables[0]);
    } else {
      ShorterStored(walk, tables, writes);
      var fewer := StoredWalkIsWalk(walk[..n], tables[..n], writes[..n - 1]);
      var change := NextServed(walk[n - 1], tables[n - 1], writes[n - 1], walk[n], tables[n]);
      changes := fewer + [change];
      OneMoreRequest(walk, fewer, change);
      AgreeOneMore(walk, tables, writes, fewer, change);
    }
  }

  lemma OneMoreRequest(walk: seq<Request>, changes: seq<Change>, change: Change)
    requires |walk| > 1 && IsWalk(walk[..|walk| - 1], changes)
    requires Answered(walk[|walk| - 1]) && Follows(walk[|walk| - 2], change, walk[|walk| - 1])
    ensures IsWalk(walk, changes + [change])
  {
    var n := |walk| - 1;
    var all := changes + [change];
    forall k | 0 <= k < |all| ensures Follows(walk[k], all[k], walk[k + 1]) {
      if k < n - 1 { assert Follows(walk[..n][k], changes[k], walk[..n][k + 1]); }
    }
    forall k | 0 <= k < |walk| ensures Answered(walk[k]) {
      if k < n { assert Answered(walk[..n][k]); }
    }
  }

  /** No write between two requests edits the recipe of the cursor in use. */
  predicate CursorsUnwritten(walk: seq<Request>, tables: seq<seq<Row>>, writes: seq<Writes>) {
    forall k :: 0 <= k < |writes| && k < |tables| && k + 1 < |walk| && walk[k + 1].cursor.Some? ==>
      !Moves(tables[k], writes[k], walk[k + 1].cursor.value)
  }

  /** Between request k and the next a write edits the recipe while it is ahead. */
  predicate WrittenAhead(walk: seq<Request>, tables: seq<seq<Row>>, writes: seq<Writes>, k: int, id: string) {
    0 <= k < |writes| && k < |tables| && k < |walk| && Moves(tables[k], writes[k], id) && id in Ahead(walk[k])
  }

  predicate NeverWrittenAhead(walk: seq<Request>, tables: seq<seq<Row>>, writes: seq<Writes>, id: string) {
    forall k :: 0 <= k < |writes| ==> !WrittenAhead(walk, tables, writes, k, id)
  }

  /** Over the table, while each write is later than every row, whatever is created,
      edited, published and deleted: while the cursors' own recipes are not edited no
      recipe is returned twice, and a recipe that is never deleted is returned by a
      finished walk iff no write edits it while it stands after the cursor. */
  lemma StoredWalksSurviveWrites(walk: seq<Request>, tables: seq<seq<Row>>, writes: seq<Writes>)
    requires StoredWalk(walk, tables, writes) && LaterWrites(tables, writes)
    requires CursorsUnwritten(walk, tables, writes)
    ensures Distinct(Names(Returned(walk)))
    ensures Finished(walk) ==> forall id :: PresentThroughout(walk, id) && id in Due(walk[0]) ==>
      (id in Names(Returned(walk)) <==> NeverWrittenAhead(walk, tables, writes, id))
  {
    var changes := StoredWalkIsWalk(walk, tables, writes);
    UnwrittenKeeps(walk, tables, writes, changes);
    WalksSurviveChange(walk, changes);
    if Finished(walk) {
      forall id | PresentThroughout(walk, id) && id in Due(walk[0])
        ensures id in Names(Returned(walk)) <==> NeverWrittenAhead(walk, tables, writes, id)
      {
        AheadAgree(walk, tables, writes, changes, id);
      }
    }
  }

  lemma UnwrittenKeeps(walk: seq<Request>, tables: seq<seq<Row>>, writes: seq<Writes>, changes: seq<Change>)
    requires MovesAgree(walk, tables, writes, changes) && CursorsUnwritten(walk, tables, writes)
    ensures KeepsCursors(walk, changes)
  {
  }

  lemma AheadAgree(walk: seq<Request>, tables: seq<seq<Row>>, writes: seq<Writes>, changes: seq<Change>, id: string)
    requires MovesAgree(walk, tables, writes, changes) && PresentThroughout(walk, id)
    ensures NeverEditedAhead(walk, changes, id) <==> NeverWrittenAhead(walk, tables, writes, id)
  {
    forall k | 0 <= k < |writes|
      ensures EditedAhead(walk, changes, k, id) <==> WrittenAhead(walk, tables, writes, k, id)
    {
      assert id in Names(walk[k + 1].list);
    }
    if NeverWrittenAhead(walk, tables, writes, id) {
      forall k | 0 <= k < |changes| ensures !EditedAhead(walk, changes, k, id) {
        assert !WrittenAhead(walk, tables, writes, k, id);
      }
    }
  }
}
