/** What an edited recipe does to a page walk that is under way: edits move a recipe
    to the front of the list. */
module RecipeEdits {
  import opened Sequences
  import opened Wrappers
  import opened RecipePages

  // ------------------------------------------------- edits at the cursor

  lemma TailIsWalk(walk: seq<Request>, changes: seq<Change>, cut: nat)
    requires IsWalk(walk, changes) && cut < |walk|
    ensures IsWalk(walk[cut..], changes[cut..])
  {
    forall k | 0 <= k < |changes[cut..]| ensures Follows(walk[cut..][k], changes[cut..][k], walk[cut..][k + 1]) {
      assert Follows(walk[cut + k], changes[cut + k], walk[cut + k + 1]);
    }
  }

  /** Whatever happened up to request `cut`, its cursor's recipe edited included: a
      recipe that was returned before and is not deleted comes again iff it stands
      after the cursor in the list of that request and no later change edits it
      while it does. */
  lemma ComesAgainIff(walk: seq<Request>, changes: seq<Change>, cut: nat, id: string)
    requires IsWalk(walk, changes) && 0 < cut < |walk| && Finished(walk)
    requires KeepsCursors(walk[cut..], changes[cut..])
    requires id in Names(Returned(walk[..cut])) && PresentThroughout(walk[cut..], id)
    ensures id in Names(Returned(walk[cut..])) <==>
      id in Due(walk[cut]) && NeverEditedAhead(walk[cut..], changes[cut..], id)
  {
    TailIsWalk(walk, changes, cut);
    WalksSurviveChange(walk[cut..], changes[cut..]);
    SightKept(walk[cut..], changes[cut..]);
    NothingAhead(walk[cut..]);
  }

  lemma {:induction false} ReturnedSplits(walk: seq<Request>, cut: nat)
    requires cut <= |walk|
    ensures Returned(walk) == Returned(walk[..cut]) + Returned(walk[cut..])
  {
    if cut == |walk| {
      assert walk[..cut] == walk;
    } else {
      var last := |walk| - 1;
      ReturnedSplits(walk[..last], cut);
      assert walk[..last][..cut] == walk[..cut] && walk[..last][cut..] == walk[cut..last];
      assert walk[cut..][..last - cut] == walk[cut..last] && walk[cut..][last - cut] == walk[last];
      Associative(Returned(walk[..cut]), Returned(walk[cut..last]), walk[last].page.items);
    }
  }

  /** The change edits the recipe of the request's cursor. */
  predicate EditsCursor(change: Change, r: Request) {
    r.cursor.Some? && r.cursor.value in change.front
  }

  /** A walk that kept its cursors up to one change, and whose list stays as it is
      from then on, returns a recipe twice iff a recipe it had returned stands after
      the cursor in the new list. Without an edit of the cursor's recipe none does;
      with one, every other that was returned does unless it was deleted or put
      before the cursor. */
  lemma RepeatsIff(walk: seq<Request>, changes: seq<Change>, cut: nat)
    requires IsWalk(walk, changes) && 0 < cut < |walk| && Finished(walk)
    requires KeepsCursors(walk[..cut], changes[..cut - 1]) && Quiet(changes[cut..])
    ensures !Distinct(Names(Returned(walk))) <==>
      exists id :: id in Names(Returned(walk[..cut])) && id in Due(walk[cut])
    ensures !EditsCursor(changes[cut - 1], walk[cut]) ==> Distinct(Names(Returned(walk)))
    ensures EditsCursor(changes[cut - 1], walk[cut]) ==>
      Due(walk[cut]) == TailAfter(changes[cut - 1].front, walk[cut].cursor.value)
                        + Without(Names(walk[cut - 1].list), Displaced(changes[cut - 1]))
  {
    var before, tail := walk[..cut], walk[cut..];
    HeadIsWalk(walk, changes, cut);
    TailIsWalk(walk, changes, cut);
    WalksSurviveChange(before, changes[..cut - 1]);
    QuietSight(tail, changes[cut..]);
    NothingAhead(tail);
    WalksSurviveChange(tail, changes[cut..]);
    ReturnedSplits(walk, cut);
    NamesSum(Returned(before), Returned(tail));
    DistinctSum(Names(Returned(before)), Names(Returned(tail)));
    CursorAt(walk, changes, cut);
  }

  lemma HeadIsWalk(walk: seq<Request>, changes: seq<Change>, cut: nat)
    requires IsWalk(walk, changes) && 0 < cut < |walk|
    ensures IsWalk(walk[..cut], changes[..cut - 1])
  {
  }

  /** What is due after one change. */
  lemma CursorAt(walk: seq<Request>, changes: seq<Change>, cut: nat)
    requires IsWalk(walk, changes) && 0 < cut < |walk|
    requires KeepsCursors(walk[..cut], changes[..cut - 1])
    ensures !EditsCursor(changes[cut - 1], walk[cut]) ==>
      forall id :: id in Names(Returned(walk[..cut])) ==> id !in Due(walk[cut])
    ensures EditsCursor(changes[cut - 1], walk[cut]) ==>
      Due(walk[cut]) == TailAfter(changes[cut - 1].front, walk[cut].cursor.value)
                        + Without(Names(walk[cut - 1].list), Displaced(changes[cut - 1]))
  {
    var r, change, next := walk[cut - 1], changes[cut - 1], walk[cut];
    assert Follows(walk[cut - 1], changes[cut - 1], walk[cut - 1 + 1]);
    var cursor := next.cursor.value;
    if cursor in change.front {
      MovedCursor(Names(r.list), change, cursor);
    } else {
      KeptCursor(Names(r.list), change, cursor);
      HeadIsWalk(walk, changes, cut);
      SightKept(walk[..cut], changes[..cut - 1]);
      SightShrinks(Names(Returned(walk[..cut])), Ahead(r), Displaced(change));
      DistinctSum(Names(Returned(walk[..cut])), Ahead(r));
    }
  }

  // ------------------------------------------------------------- two runs

  lemma OnePage(list: seq<Recipe>, cursor: Option<string>, p: nat) returns (r: Request)
    requires Distinct(Names(list)) && p < |list|
    requires match cursor case None => p == 0 case Some(c) => p > 0 && list[p - 1].id == c
    ensures r == Request(list, Some(1), cursor, Page([list[p]], Some(list[p].id), 1)) && Answered(r)
  {
    r := Request(list, Some(1), cursor, PageFrom(list[p..], 1));
    if cursor.Some? {
      assert Names(list)[p - 1] == cursor.value;
      assert forall q :: 0 <= q < |list| ==> Names(list)[q] == list[q].id;
      RestAfterAt(list, p - 1);
    } else {
      assert list[0..] == list;
    }
  }

  lemma LastPage(list: seq<Recipe>) returns (r: Request)
    requires Distinct(Names(list)) && list != []
    ensures r == Request(list, Some(1), Some(list[|list| - 1].id), Page([], None, 1)) && Answered(r)
  {
    var last := |list| - 1;
    r := Request(list, Some(1), Some(list[last].id), PageFrom([], 1));
    assert Names(list)[last] == list[last].id;
    assert forall q :: 0 <= q < |list| ==> Names(list)[q] == list[q].id;
    RestAfterAt(list, last);
  }

  lemma FourNames(a: Recipe, b: Recipe, c: Recipe, d: Recipe)
    requires a.id != b.id && a.id != c.id && a.id != d.id && b.id != c.id && b.id != d.id && c.id != d.id
    ensures Names([a, b, c, d]) == [a.id, b.id, c.id, d.id] && Distinct(Names([a, b, c, d]))
  {
  }

  lemma WithoutOnly(x: string)
    ensures Without([x], {x}) == [] && Displaced(Change([x], {})) == {x}
  {
    assert [x][1..] == [];
  }

  lemma WithoutMiddle(a: seq<string>, x: string, b: seq<string>)
    requires x !in a && x !in b
    ensures Without(a + [x] + b, {x}) == a + b
  {
    WithoutSplit(a + [x], b, {x});
    WithoutSplit(a, [x], {x});
    WithoutNone(a, {x});
    WithoutNone(b, {x});
    WithoutOnly(x);
    NothingBetween(Without(a + [x] + b, {x}), Without(a + [x], {x}), a, b);
  }

  lemma NothingBetween<T>(all: seq<T>, left: seq<T>, a: seq<T>, b: seq<T>)
    requires all == left + b && left == a + []
    ensures all == a + b
  {
  }

  /** One recipe is edited, and stands first. */
  lemma EditFollows(r: Request, next: Request, a: seq<string>, x: string, b: seq<string>)
    requires r.page.nextCursor.Some? && next.cursor == r.page.nextCursor && x !in a && x !in b
    requires Names(r.list) == a + [x] + b && Names(next.list) == [x] + (a + b)
    ensures Follows(r, Change([x], {}), next)
  {
    WithoutMiddle(a, x, b);
    WithoutOnly(x);
  }

  lemma QuietFollows(r: Request, next: Request)
    requires r.page.nextCursor.Some? && next.cursor == r.page.nextCursor && next.list == r.list
    ensures Follows(r, Change([], {}), next)
  {
    assert Displaced(Change([], {})) == {};
    WithoutNothing(Names(r.list));
  }

  lemma SkippingRequests(a: Recipe, b: Recipe, c: Recipe, d: Recipe, edited: Recipe)
      returns (first: Request, second: Request, third: Request, fourth: Request)
    requires a.id != b.id && a.id != c.id && a.id != d.id && b.id != c.id && b.id != d.id && c.id != d.id
    requires edited.id == c.id
    ensures first == Request([a, b, c, d], Some(1), None, Page([a], Some(a.id), 1)) && Answered(first)
    ensures second == Request([edited, a, b, d], Some(1), Some(a.id), Page([b], Some(b.id), 1)) && Answered(second)
    ensures third == Request([edited, a, b, d], Some(1), Some(b.id), Page([d], Some(d.id), 1)) && Answered(third)
    ensures fourth == Request([edited, a, b, d], Some(1), Some(d.id), Page([], None, 1)) && Answered(fourth)
    ensures c.id in Names(first.list) && c.id in Names(second.list)
    ensures Follows(first, Change([c.id], {}), second)
    ensures Follows(second, Change([], {}), third) && Follows(third, Change([], {}), fourth)
  {
    var list, moved := [a, b, c, d], [edited, a, b, d];
    FourNames(a, b, c, d);
    FourNames(edited, a, b, d);
    first := OnePage(list, None, 0);
    second := OnePage(moved, Some(a.id), 2);
    third := OnePage(moved, Some(b.id), 3);
    fourth := LastPage(moved);
    EditFollows(first, second, [a.id, b.id], c.id, [d.id]);
    QuietFollows(second, third);
    QuietFollows(third, fourth);
    assert Names(list)[2] == c.id && Names(moved)[0] == c.id;
  }

  predicate Linked(first: Request, c0: Change, second: Request, c1: Change, third: Request, c2: Change,
                   fourth: Request) {
    && Answered(first) && Answered(second) && Answered(third) && Answered(fourth)
    && Follows(first, c0, second) && Follows(second, c1, third) && Follows(third, c2, fourth)
  }

  lemma StepFrom(r: Request, change: Change, walk: seq<Request>, changes: seq<Change>, k: nat)
    requires |walk| == |changes| + 1 && Follows(r, change, walk[0]) && k <= |changes|
    requires k > 0 ==> Follows(walk[k - 1], changes[k - 1], walk[k])
    ensures Follows(([r] + walk)[k], ([change] + changes)[k], ([r] + walk)[k + 1])
  {
    assert ([r] + walk)[k + 1] == walk[k];
    assert k > 0 ==> ([r] + walk)[k] == walk[k - 1] && ([change] + changes)[k] == changes[k - 1];
  }

  lemma WalkFrom(r: Request, change: Change, walk: seq<Request>, changes: seq<Change>)
    requires IsWalk(walk, changes) && Answered(r) && Follows(r, change, walk[0])
    ensures IsWalk([r] + walk, [change] + changes)
  {
    var all, steps := [r] + walk, [change] + changes;
    forall k | 0 <= k < |steps| ensures Follows(all[k], steps[k], all[k + 1]) {
      assert k > 0 ==> Follows(walk[k - 1], changes[k - 1], walk[k - 1 + 1]);
      StepFrom(r, change, walk, changes, k);
    }
    forall k | 0 <= k < |all| ensures Answered(all[k]) {
      if k > 0 { assert all[k] == walk[k - 1]; }
    }
  }

  lemma FourWalk(first: Request, c0: Change, second: Request, c1: Change, third: Request, c2: Change, fourth: Request)
      returns (walk: seq<Request>, changes: seq<Change>)
    ensures walk == [first, second, third, fourth] && changes == [c0, c1, c2]
    ensures Linked(first, c0, second, c1, third, c2, fourth) ==> IsWalk(walk, changes)
  {
    walk, changes := [first, second, third, fourth], [c0, c1, c2];
    if Linked(first, c0, second, c1, third, c2, fourth) {
      WalkFrom(third, c2, [fourth], []);
      WalkFrom(second, c1, [third] + [fourth], [c2] + []);
      WalkFrom(first, c0, [second] + ([third] + [fourth]), [c1] + ([c2] + []));
      assert [first] + ([second] + ([third] + [fourth])) == walk && [c0] + ([c1] + ([c2] + [])) == changes;
    }
  }

  /** Four recipes, one to a page. After the first page the third recipe is edited:
      it was there throughout, and is never returned. */
  lemma EditSkips(a: Recipe, b: Recipe, c: Recipe, d: Recipe, draft: string)
      returns (walk: seq<Request>, changes: seq<Change>)
    requires a.id != b.id && a.id != c.id && a.id != d.id && b.id != c.id && b.id != d.id && c.id != d.id
    ensures IsWalk(walk, changes)
    ensures walk != [] && walk[0].list == [a, b, c, d] && walk[0].cursor.None? && Finished(walk)
    ensures changes == [Change([c.id], {}), Change([], {}), Change([], {})] && KeepsCursors(walk, changes)
    ensures PresentThroughout(walk, c.id) && c.id !in Names(Returned(walk))
  {
    var first, second, third, fourth := SkippingRequests(a, b, c, d, c.(draft := draft));
    walk, changes := FourWalk(first, Change([c.id], {}), second, Change([], {}), third, Change([], {}), fourth);
    FourReturned(first, second, third, fourth);
    SkippedNames(a, b, c, d, Returned(walk));
    SkippedKeeps(walk, changes, a.id, c.id);
    SkippedPresent(walk, first.list, second.list, c.id);
  }

  lemma SkippedKeeps(walk: seq<Request>, changes: seq<Change>, a: string, c: string)
    requires |walk| == 4 && changes == [Change([c], {}), Change([], {}), Change([], {})]
    requires walk[1].cursor == Some(a) && a != c
    ensures KeepsCursors(walk, changes)
  {
  }

  lemma SkippedPresent(walk: seq<Request>, list: seq<Recipe>, moved: seq<Recipe>, id: string)
    requires id in Names(list) && id in Names(moved)
    requires |walk| == 4 && walk[0].list == list && walk[1].list == walk[2].list == walk[3].list == moved
    ensures PresentThroughout(walk, id)
  {
  }

  lemma SkippedNames(a: Recipe, b: Recipe, c: Recipe, d: Recipe, returned: seq<Recipe>)
    requires returned == [a] + [b] + [d] + [] && c.id != a.id && c.id != b.id && c.id != d.id
    ensures c.id !in Names(returned)
  {
  }

  lemma FourReturned(first: Request, second: Request, third: Request, fourth: Request)
    ensures Returned([first, second, third]) == first.page.items + second.page.items + third.page.items
    ensures Returned([first, second, third, fourth]) ==
      first.page.items + second.page.items + third.page.items + fourth.page.items
  {
    assert [first, second, third, fourth][..3] == [first, second, third];
    assert [first, second, third][..2] == [first, second] && [first, second][..1] == [first] && [first][..0] == [];
    assert Returned([first]) == first.page.items;
    assert Returned([first, second]) == first.page.items + second.page.items;
  }

  /** After the second page its recipe, the cursor's, is edited: the first recipe is
      returned again. */
  lemma CursorEditRepeats(a: Recipe, b: Recipe, c: Recipe, d: Recipe, draft: string)
      returns (walk: seq<Request>, changes: seq<Change>)
    requires a.id != b.id && a.id != c.id && a.id != d.id && b.id != c.id && b.id != d.id && c.id != d.id
    ensures IsWalk(walk, changes) && walk[0].list == [a, b, c, d] && walk[0].cursor.None?
    ensures changes == [Change([], {}), Change([b.id], {})] && Returned(walk) == [a, b, a]
  {
    var edited := b.(draft := draft);
    var list, moved := [a, b, c, d], [edited, a, c, d];
    FourNames(a, b, c, d);
    FourNames(edited, a, c, d);
    var first := OnePage(list, None, 0);
    var second := OnePage(list, Some(a.id), 1);
    var third := OnePage(moved, Some(b.id), 1);
    QuietFollows(first, second);
    EditFollows(second, third, [a.id], b.id, [c.id, d.id]);
    walk, changes := [first, second, third], [Change([], {}), Change([b.id], {})];
    FourReturned(first, second, third, third);
  }
}
