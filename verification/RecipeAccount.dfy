/** How often a page walk returns a recipe, whatever happens to the list. */
module RecipeAccount {
  import opened Permutations
  import opened Sequences
  import opened RecipePages
  import opened RecipeEdits

  /** Requests that follow every page's cursor; the lists may be any. */
  predicate Chained(walk: seq<Request>) {
    && walk != [] && (forall k :: 0 <= k < |walk| ==> Answered(walk[k]))
    && forall k :: 0 <= k < |walk| - 1 ==> Continues(walk[k], walk[k + 1])
  }

  predicate Continues(r: Request, next: Request) {
    r.page.nextCursor.Some? && next.cursor == r.page.nextCursor
  }

  /** The recipe stands after the cursor, and did not before. */
  predicate ComesBack(r: Request, next: Request, id: string) {
    id in Due(next) && id !in Ahead(r)
  }

  /** The recipe stood after the cursor, and does not any more. */
  predicate PassedOver(r: Request, next: Request, id: string) {
    id in Ahead(r) && id !in Due(next)
  }

  function One(b: bool): nat {
    if b then 1 else 0
  }

  function Backs(walk: seq<Request>, id: string): nat {
    if |walk| <= 1 then 0
    else Backs(walk[..|walk| - 1], id) + One(ComesBack(walk[|walk| - 2], walk[|walk| - 1], id))
  }

  function Passes(walk: seq<Request>, id: string): nat {
    if |walk| <= 1 then 0
    else Passes(walk[..|walk| - 1], id) + One(PassedOver(walk[|walk| - 2], walk[|walk| - 1], id))
  }

  /** How often the recipe was returned. */
  function Times(walk: seq<Request>, id: string): nat {
    multiset(Names(Returned(walk)))[id]
  }

  lemma DistinctIffOnce(names: seq<string>)
    ensures Distinct(names) <==> forall id :: multiset(names)[id] <= 1
  {
    if Distinct(names) {
      forall id ensures multiset(names)[id] <= 1 { DistinctCounts(names, id); }
    } else {
      var i, j :| 0 <= i < j < |names| && names[i] == names[j];
      CountedTwice(names, i, j);
    }
  }

  // ---------------------------------------------------------- the account

  lemma DueDistinct(r: Request)
    requires Answered(r)
    ensures Distinct(Due(r))
  {
    var p := DueFrom(r);
    assert Names(r.list) == Names(r.list)[..p] + Names(r.list)[p..];
    DistinctSum(Names(r.list)[..p], Names(r.list)[p..]);
  }

  /** A page returns what was due and is not ahead. */
  lemma PageReturns(r: Request, id: string)
    requires Answered(r)
    ensures multiset(Names(r.page.items))[id] + One(id in Ahead(r)) == One(id in Due(r))
  {
    PageSplits(r);
    DueDistinct(r);
    DistinctSum(Names(r.page.items), Ahead(r));
    DistinctCounts(Names(r.page.items), id);
  }

  /** In every walk, whatever the lists: a recipe is returned as often as it came to
      stand after the cursor, but for the times it was passed over there and for
      what is still ahead. */
  lemma {:induction false} TimesReturned(walk: seq<Request>, id: string)
    requires Chained(walk)
    ensures Times(walk, id) + Passes(walk, id) + One(id in Ahead(walk[|walk| - 1])) ==
      One(id in Due(walk[0])) + Backs(walk, id)
  {
    var n := |walk| - 1;
    PageReturns(walk[n], id);
    NamesSum(Returned(walk[..n]), walk[n].page.items);
    if n > 0 {
      TimesReturned(walk[..n], id);
    }
  }

  /** A walk returns no recipe twice iff each came to stand after the cursor at most
      once more often than it was passed over there or is still ahead. */
  lemma RepeatsExactly(walk: seq<Request>)
    requires Chained(walk)
    ensures Distinct(Names(Returned(walk))) <==> forall id ::
      One(id in Due(walk[0])) + Backs(walk, id) <= Passes(walk, id) + One(id in Ahead(walk[|walk| - 1])) + 1
  {
    var last := walk[|walk| - 1];
    forall id
      ensures Times(walk, id) + Passes(walk, id) + One(id in Ahead(last)) == One(id in Due(walk[0])) + Backs(walk, id)
    {
      TimesReturned(walk, id);
    }
    DistinctIffOnce(Names(Returned(walk)));
    if Distinct(Names(Returned(walk))) {
      forall id ensures One(id in Due(walk[0])) + Backs(walk, id) <= Passes(walk, id) + One(id in Ahead(last)) + 1 {
        assert Times(walk, id) <= 1;
      }
    } else {
      var id :| multiset(Names(Returned(walk)))[id] > 1;
      assert Times(walk, id) > 1;
    }
  }

  // ------------------------------------------------ what changes come to

  lemma WalkIsChained(walk: seq<Request>, changes: seq<Change>)
    requires IsWalk(walk, changes)
    ensures Chained(walk)
  {
    forall k | 0 <= k < |walk| - 1 ensures Continues(walk[k], walk[k + 1]) {
      assert Follows(walk[k], changes[k], walk[k + 1]);
    }
  }

  /** Only an edit of the cursor's recipe brings another back, and it brings every
      one that stood at or before the cursor and is neither edited nor deleted. */
  lemma ComesBackIff(r: Request, change: Change, next: Request, id: string)
    requires Answered(r) && Answered(next) && Follows(r, change, next)
    ensures ComesBack(r, next, id) <==>
      && EditsCursor(change, next) && id !in Ahead(r)
      && (id in TailAfter(change.front, next.cursor.value) || (id in Names(r.list) && id !in Displaced(change)))
    ensures PassedOver(r, next, id) <==>
      && id in Ahead(r) && id in Displaced(change)
      && !(EditsCursor(change, next) && id in TailAfter(change.front, next.cursor.value))
  {
    CursorListed(next);
    if id in Ahead(r) { AheadListed(r, id); }
    if EditsCursor(change, next) {
      MovedCursor(Names(r.list), change, next.cursor.value);
    } else {
      KeptCursor(Names(r.list), change, next.cursor.value);
    }
  }

  lemma CursorListed(r: Request)
    requires Answered(r) && r.cursor.Some?
    ensures r.cursor.value in Names(r.list)
  {
  }

  lemma AheadListed(r: Request, id: string)
    requires Answered(r) && id in Ahead(r)
    ensures id in Names(r.list)
  {
    PageSplits(r);
    var p := DueFrom(r);
    assert id in Names(r.list)[p..];
  }

  /** No change edits or deletes the recipe. */
  predicate Untouched(changes: seq<Change>, id: string) {
    forall k :: 0 <= k < |changes| ==> id !in Displaced(changes[k])
  }

  /** How often the cursor's recipe was edited while this one was not ahead. */
  function CursorEdits(walk: seq<Request>, changes: seq<Change>, id: string): nat
    requires |walk| == |changes| + 1
  {
    if |walk| == 1 then 0
    else
      CursorEdits(walk[..|walk| - 1], changes[..|changes| - 1], id)
      + One(EditsCursor(changes[|changes| - 1], walk[|walk| - 1]) && id !in Ahead(walk[|walk| - 2]))
  }

  lemma {:induction false} UntouchedMoves(walk: seq<Request>, changes: seq<Change>, id: string)
    requires IsWalk(walk, changes) && Untouched(changes, id) && id in Names(walk[0].list)
    ensures Backs(walk, id) == CursorEdits(walk, changes, id) && Passes(walk, id) == 0
    ensures id in Names(walk[|walk| - 1].list)
  {
    if |walk| > 1 {
      var shorter, fewer := walk[..|walk| - 1], changes[..|changes| - 1];
      ShorterWalk(walk, changes);
      UntouchedBefore(changes, id);
      UntouchedMoves(shorter, fewer, id);
      LastStep(walk, changes);
      UntouchedStep(walk[|walk| - 2], changes[|changes| - 1], walk[|walk| - 1], id);
    }
  }

  lemma UntouchedBefore(changes: seq<Change>, id: string)
    requires changes != [] && Untouched(changes, id)
    ensures Untouched(changes[..|changes| - 1], id) && id !in Displaced(changes[|changes| - 1])
  {
  }

  lemma LastStep(walk: seq<Request>, changes: seq<Change>)
    requires IsWalk(walk, changes) && |walk| > 1
    ensures Answered(walk[|walk| - 2]) && Answered(walk[|walk| - 1])
    ensures Follows(walk[|walk| - 2], changes[|changes| - 1], walk[|walk| - 1])
  {
    assert Follows(walk[|changes| - 1], changes[|changes| - 1], walk[|changes| - 1 + 1]);
  }

  lemma UntouchedStep(r: Request, change: Change, next: Request, id: string)
    requires Answered(r) && Answered(next) && Follows(r, change, next)
    requires id in Names(r.list) && id !in Displaced(change)
    ensures ComesBack(r, next, id) <==> EditsCursor(change, next) && id !in Ahead(r)
    ensures !PassedOver(r, next, id) && id in Names(next.list)
  {
    ComesBackIff(r, change, next, id);
  }

  /** A recipe of the first list that is left alone is returned, if it was due, and
      once more for each edit of a cursor's recipe when it was not ahead. */
  lemma UntouchedTimes(walk: seq<Request>, changes: seq<Change>, id: string)
    requires IsWalk(walk, changes) && Finished(walk)
    requires Untouched(changes, id) && id in Names(walk[0].list)
    ensures Times(walk, id) == One(id in Due(walk[0])) + CursorEdits(walk, changes, id)
  {
    WalkIsChained(walk, changes);
    TimesReturned(walk, id);
    UntouchedMoves(walk, changes, id);
  }
}
