/** Cursor pagination over a list that changes between requests. */
module RecipePages {
  import opened Sequences
  import opened Wrappers

  const DEFAULT_PAGE_LIMIT := 50
  const MAX_PAGE_LIMIT := 200

  /** A recipe draft, and the version it was last published as. */
  datatype Recipe = Recipe(id: string, draft: string, published: Option<string>)

  datatype Page = Page(items: seq<Recipe>, nextCursor: Option<string>, limit: nat)

  datatype Refusal = UnknownCursor

  /** The limit a request gets: its own when positive, the default otherwise, capped. */
  function EffectiveLimit(asked: Option<nat>): (limit: nat)
    ensures 1 <= limit <= MAX_PAGE_LIMIT
  {
    var wanted := match asked case Some(n) => if n > 0 then n else DEFAULT_PAGE_LIMIT case None => DEFAULT_PAGE_LIMIT;
    if wanted < MAX_PAGE_LIMIT then wanted else MAX_PAGE_LIMIT
  }

  /** Fifty to a page unless the client says otherwise, and never more than 200. */
  lemma LimitIs(asked: Option<nat>)
    ensures asked == None || asked == Some(0) ==> EffectiveLimit(asked) == 50
    ensures asked.Some? && 0 < asked.value <= 200 ==> EffectiveLimit(asked) == asked.value
    ensures asked.Some? && asked.value > 200 ==> EffectiveLimit(asked) == 200
  {
  }

  /** The page that starts at `rest`. */
  function PageFrom(rest: seq<Recipe>, limit: nat): Page
    requires limit > 0
  {
    var items := if limit < |rest| then rest[..limit] else rest;
    Page(items, if |items| == limit then Some(items[|items| - 1].id) else None, limit)
  }

  /** What stands after the recipe the cursor names. */
  function RestAfter(all: seq<Recipe>, cursor: string): seq<Recipe> {
    if all == [] then [] else if all[0].id == cursor then all[1..] else RestAfter(all[1..], cursor)
  }

  /** The answer to a request for a page. */
  function Answer(all: seq<Recipe>, limit: nat, cursor: Option<string>): Result<Page, Refusal>
    requires limit > 0
  {
    match cursor
    case None => Ok(PageFrom(all, limit))
    case Some(c) => if c in Names(all) then Ok(PageFrom(RestAfter(all, c), limit)) else Err(UnknownCursor)
  }

  lemma {:induction false} RestAfterAt(all: seq<Recipe>, p: nat)
    requires p < |all| && forall q :: 0 <= q < p ==> all[q].id != all[p].id
    ensures RestAfter(all, all[p].id) == all[p + 1..]
  {
    if p > 0 {
      RestAfterAt(all[1..], p - 1);
      assert all[1..][p - 1] == all[p] && all[1..][p..] == all[p + 1..];
    }
  }

  /** Lists one page of `all`, newest first, after the recipe `cursor` names. */
  method ListRecipes(all: seq<Recipe>, asked: Option<nat>, cursor: Option<string>) returns (r: Result<Page, Refusal>)
    ensures cursor.None? ==> r == Ok(PageFrom(all, EffectiveLimit(asked)))
    ensures cursor.Some? && (forall x :: x in all ==> x.id != cursor.value) ==> r == Err(UnknownCursor)
    ensures forall p :: cursor.Some? && 0 <= p < |all| && all[p].id == cursor.value
                        && (forall q :: 0 <= q < p ==> all[q].id != cursor.value)
              ==> r == Ok(PageFrom(all[p + 1..], EffectiveLimit(asked)))
    ensures r == Answer(all, EffectiveLimit(asked), cursor)
  {
    var limit := EffectiveLimit(asked);
    var recipes := all;
    if cursor.Some? {
      var position := 0;
      while position < |recipes| && recipes[position].id != cursor.value
        invariant position <= |recipes| && forall q :: 0 <= q < position ==> recipes[q].id != cursor.value
      {
        position := position + 1;
      }
      if position == |recipes| {
        return Err(UnknownCursor);
      }
      RestAfterAt(all, position);
      assert Names(all)[position] == cursor.value;
      recipes := recipes[position + 1..];
    }
    if limit < |recipes| {
      recipes := recipes[..limit];
    }
    var nextCursor: Option<string> := None;
    if |recipes| == limit {
      nextCursor := Some(recipes[|recipes| - 1].id);
    }
    return Ok(Page(recipes, nextCursor, limit));
  }

  // ----------------------------------------------------------------- names

  function Names(s: seq<Recipe>): seq<string> {
    seq(|s|, i requires 0 <= i < |s| => s[i].id)
  }

  lemma NamesSum(a: seq<Recipe>, b: seq<Recipe>)
    ensures Names(a + b) == Names(a) + Names(b)
  {
  }

  /** What stands after the cursor among names. */
  function TailAfter(names: seq<string>, cursor: string): seq<string> {
    if names == [] then [] else if names[0] == cursor then names[1..] else TailAfter(names[1..], cursor)
  }

  lemma {:induction false} NamesAfter(all: seq<Recipe>, cursor: string)
    ensures Names(RestAfter(all, cursor)) == TailAfter(Names(all), cursor)
  {
    if all != [] {
      NamesAfter(all[1..], cursor);
      assert Names(all)[1..] == Names(all[1..]);
    }
  }

  lemma {:induction false} TailAfterAt(names: seq<string>, p: nat)
    requires p < |names| && forall q :: 0 <= q < p ==> names[q] != names[p]
    ensures TailAfter(names, names[p]) == names[p + 1..]
  {
    if p > 0 {
      TailAfterAt(names[1..], p - 1);
      assert names[1..][p - 1] == names[p] && names[1..][p..] == names[p + 1..];
    }
  }

  lemma {:induction false} TailPast(a: seq<string>, b: seq<string>, cursor: string)
    requires cursor !in a
    ensures TailAfter(a + b, cursor) == TailAfter(b, cursor)
  {
    if a == [] {
      assert a + b == b;
    } else {
      assert (a + b)[1..] == a[1..] + b && (a + b)[0] == a[0] && a[0] in a;
      TailPast(a[1..], b, cursor);
    }
  }

  lemma {:induction false} TailWithin(a: seq<string>, b: seq<string>, cursor: string)
    requires cursor in a
    ensures TailAfter(a + b, cursor) == TailAfter(a, cursor) + b
  {
    assert (a + b)[0] == a[0] && (a + b)[1..] == a[1..] + b;
    if a[0] != cursor { TailWithin(a[1..], b, cursor); }
  }

  /** What is left once some names are taken out. */
  function Without(names: seq<string>, out: set<string>): (r: seq<string>)
    ensures forall x :: x in r <==> x in names && x !in out
    ensures |r| <= |names|
  {
    if names == [] then []
    else
      assert names == [names[0]] + names[1..];
      (if names[0] in out then [] else [names[0]]) + Without(names[1..], out)
  }

  lemma {:induction false} WithoutSplit(a: seq<string>, b: seq<string>, out: set<string>)
    ensures Without(a + b, out) == Without(a, out) + Without(b, out)
  {
    if a == [] {
      assert a + b == b;
    } else {
      assert (a + b)[0] == a[0] && (a + b)[1..] == a[1..] + b;
      WithoutSplit(a[1..], b, out);
    }
  }

  lemma {:induction false} WithoutNone(names: seq<string>, out: set<string>)
    requires forall x :: x in names ==> x !in out
    ensures Without(names, out) == names
  {
    if names != [] { WithoutNone(names[1..], out); }
  }

  lemma {:induction false} WithoutDistinct(names: seq<string>, out: set<string>)
    requires Distinct(names)
    ensures Distinct(Without(names, out))
  {
    if names != [] {
      WithoutDistinct(names[1..], out);
      assert names[0] !in names[1..];
    }
  }

  lemma {:induction false} TailWithout(names: seq<string>, out: set<string>, cursor: string)
    requires cursor !in out
    ensures TailAfter(Without(names, out), cursor) == Without(TailAfter(names, cursor), out)
  {
    if names != [] {
      var rest := Without(names[1..], out);
      TailWithout(names[1..], out, cursor);
      if names[0] in out {
        assert Without(names, out) == rest;
      } else {
        assert Without(names, out) == [names[0]] + rest && ([names[0]] + rest)[1..] == rest;
      }
    }
  }

  // --------------------------------------------------------------- changes

  /** What happens to the list between two requests, whatever was written: `front`
      names what was created or edited and so stands first, the rest stays in order
      but for what is gone. What the recipes hold may change anyhow. */
  datatype Change = Change(front: seq<string>, gone: set<string>)

  function Displaced(change: Change): set<string> {
    change.gone + Elements(change.front)
  }

  function After(names: seq<string>, change: Change): seq<string> {
    change.front + Without(names, Displaced(change))
  }

  lemma DistinctAfter(names: seq<string>, change: Change)
    requires Distinct(names) && Distinct(change.front)
    ensures Distinct(After(names, change))
  {
    WithoutDistinct(names, Displaced(change));
    DistinctSum(change.front, Without(names, Displaced(change)));
  }

  /** A cursor that is not moved keeps what stands after it, but for what is moved
      or deleted. */
  lemma KeptCursor(names: seq<string>, change: Change, cursor: string)
    requires cursor !in change.front && cursor in After(names, change)
    ensures TailAfter(After(names, change), cursor) == Without(TailAfter(names, cursor), Displaced(change))
  {
    TailPast(change.front, Without(names, Displaced(change)), cursor);
    TailWithout(names, Displaced(change), cursor);
  }

  /** A cursor that is moved to the front has the whole list after it again. */
  lemma MovedCursor(names: seq<string>, change: Change, cursor: string)
    requires cursor in change.front
    ensures TailAfter(After(names, change), cursor) ==
      TailAfter(change.front, cursor) + Without(names, Displaced(change))
  {
    TailWithin(change.front, Without(names, Displaced(change)), cursor);
  }

  // ----------------------------------------------------------------- walks

  /** One request of a walk: the list it saw, the limit and the
      cursor it sent, its page. */
  datatype Request = Request(list: seq<Recipe>, asked: Option<nat>, cursor: Option<string>, page: Page)
  {
    function Limit(): (limit: nat)
      ensures limit > 0
    {
      EffectiveLimit(asked)
    }
  }

  /** The names a request goes on with. */
  function Due(r: Request): seq<string> {
    match r.cursor
    case None => Names(r.list)
    case Some(c) => TailAfter(Names(r.list), c)
  }

  /** The names its page leaves for later. */
  function Ahead(r: Request): seq<string> {
    match r.page.nextCursor
    case None => []
    case Some(c) => TailAfter(Names(r.list), c)
  }

  /** A list without repeated ids, answered as `ListRecipes` answers. */
  predicate Answered(r: Request)
  {
    Distinct(Names(r.list)) && Answer(r.list, r.Limit(), r.cursor) == Ok(r.page)
  }

  /** A walk follows every page's cursor, and the list changes in between. It may
      begin anywhere. */
  predicate IsWalk(walk: seq<Request>, changes: seq<Change>)
  {
    && walk != [] && |changes| == |walk| - 1
    && (forall k :: 0 <= k < |walk| ==> Answered(walk[k]))
    && forall k :: 0 <= k < |changes| ==> Follows(walk[k], changes[k], walk[k + 1])
  }

  predicate Follows(r: Request, change: Change, next: Request) {
    && r.page.nextCursor.Some? && next.cursor == r.page.nextCursor
    && Distinct(change.front) && Names(next.list) == After(Names(r.list), change)
  }

  predicate Finished(walk: seq<Request>) {
    walk != [] && walk[|walk| - 1].page.nextCursor.None?
  }

  function Returned(walk: seq<Request>): seq<Recipe> {
    if walk == [] then [] else Returned(walk[..|walk| - 1]) + walk[|walk| - 1].page.items
  }

  /** No change edits the recipe of the cursor that comes after it. (A walk whose
      cursor's recipe is deleted is refused.) */
  predicate KeepsCursors(walk: seq<Request>, changes: seq<Change>) {
    forall k :: 0 <= k < |changes| && k + 1 < |walk| && walk[k + 1].cursor.Some? ==>
      walk[k + 1].cursor.value !in changes[k].front
  }

  /** Change `k` edits the recipe while it stands after the cursor. */
  predicate EditedAhead(walk: seq<Request>, changes: seq<Change>, k: int, id: string) {
    0 <= k < |changes| && k < |walk| && id in changes[k].front && id in Ahead(walk[k])
  }

  predicate NeverEditedAhead(walk: seq<Request>, changes: seq<Change>, id: string) {
    forall k :: 0 <= k < |changes| ==> !EditedAhead(walk, changes, k, id)
  }

  predicate PresentThroughout(walk: seq<Request>, id: string) {
    forall k :: 0 <= k < |walk| ==> id in Names(walk[k].list)
  }

  // ------------------------------------------------------------- one page

  /** Where a request goes on, in its list. */
  lemma DueFrom(r: Request) returns (p: nat)
    requires Answered(r)
    ensures p <= |r.list| && Due(r) == Names(r.list)[p..] && r.page == PageFrom(r.list[p..], r.Limit())
  {
    if r.cursor.None? {
      p := 0;
      assert r.list[0..] == r.list;
    } else {
      var names := Names(r.list);
      var at: nat :| at < |names| && names[at] == r.cursor.value;
      TailAfterAt(names, at);
      assert forall q :: 0 <= q < at ==> r.list[q].id != r.list[at].id by {
        assert forall q :: 0 <= q < |names| ==> names[q] == r.list[q].id;
      }
      RestAfterAt(r.list, at);
      p := at + 1;
    }
  }

  /** What a page takes, and what follows its last recipe. */
  lemma PageNames(list: seq<Recipe>, p: nat, limit: nat) returns (q: nat)
    requires limit > 0 && p <= |list| && Distinct(Names(list))
    ensures var page := PageFrom(list[p..], limit);
      && p <= q <= |list| && |page.items| == q - p && Names(page.items) == Names(list)[p..q]
      && (page.nextCursor.Some? ==>
            q - p == limit && TailAfter(Names(list), page.nextCursor.value) == Names(list)[q..])
      && (page.nextCursor.None? ==> q - p < limit && q == |list|)
  {
    q := if limit < |list| - p then p + limit else |list|;
    var names, page := Names(list), PageFrom(list[p..], limit);
    assert page.items == list[p..q];
    assert names[p..q] == Names(list[p..q]);
    if q - p == limit {
      assert page.items[limit - 1] == list[q - 1] && page.nextCursor == Some(names[q - 1]);
      TailAfterAt(names, q - 1);
    }
  }

  /** A page takes from what is due, and leaves the rest ahead. */
  lemma PageSplits(r: Request)
    requires Answered(r)
    ensures Due(r) == Names(r.page.items) + Ahead(r)
    ensures if r.page.nextCursor.Some? then |r.page.items| == r.Limit()
      else |r.page.items| < r.Limit() && Ahead(r) == []
  {
    var p := DueFrom(r);
    var q := PageNames(r.list, p, r.Limit());
    Cut(Names(r.list), p, q);
  }

  lemma Cut<T>(s: seq<T>, p: nat, q: nat)
    requires p <= q <= |s|
    ensures s[p..] == s[p..q] + s[q..]
    ensures q == |s| ==> s[q..] == []
  {
  }

  // ---------------------------------------------------------- the account

  /** Where a walk stands: what it returned and what is ahead. */
  function Sight(walk: seq<Request>): seq<string>
    requires walk != []
  {
    Names(Returned(walk)) + Ahead(walk[|walk| - 1])
  }

  lemma FirstSight(walk: seq<Request>)
    requires |walk| == 1 && Answered(walk[0])
    ensures Sight(walk) == Due(walk[0]) && Returned(walk) == walk[0].page.items
  {
    PageSplits(walk[0]);
    assert walk[..0] == [] && Returned(walk[..0]) == [];
    assert Returned(walk) == walk[0].page.items;
  }

  lemma ShorterWalk(walk: seq<Request>, changes: seq<Change>)
    requires IsWalk(walk, changes) && |walk| > 1
    ensures IsWalk(walk[..|walk| - 1], changes[..|changes| - 1])
    ensures KeepsCursors(walk, changes) ==> KeepsCursors(walk[..|walk| - 1], changes[..|changes| - 1])
  {
  }

  /** A step takes out of sight only what is deleted or edited ahead. */
  lemma NextSight(walk: seq<Request>, changes: seq<Change>)
    requires IsWalk(walk, changes) && KeepsCursors(walk, changes) && |walk| > 1
    ensures var shorter, change := walk[..|walk| - 1], changes[|changes| - 1];
      Sight(walk) == Names(Returned(shorter)) + Without(Ahead(shorter[|shorter| - 1]), Displaced(change))
  {
    var n := |walk| - 1;
    var r, change, next := walk[n - 1], changes[n - 1], walk[n];
    assert Follows(walk[n - 1], changes[n - 1], walk[n - 1 + 1]);
    PageSplits(next);
    KeptCursor(Names(r.list), change, next.cursor.value);
    NamesSum(Returned(walk[..n]), next.page.items);
    Associative(Names(Returned(walk[..n])), Names(next.page.items), Ahead(next));
  }

  lemma SightShrinks(got: seq<string>, ahead: seq<string>, out: set<string>)
    requires Distinct(got + ahead)
    ensures Distinct(got + Without(ahead, out)) && |got + Without(ahead, out)| <= |got + ahead|
    ensures forall x :: x in got + Without(ahead, out) <==> x in got + ahead && (x in ahead ==> x !in out)
  {
    var all := got + ahead;
    forall i, j | 0 <= i < j < |got| ensures got[i] != got[j] {
      assert all[i] == got[i] && all[j] == got[j];
    }
    forall i, j | 0 <= i < j < |ahead| ensures ahead[i] != ahead[j] {
      assert all[|got| + i] == ahead[i] && all[|got| + j] == ahead[j];
    }
    forall x | x in ahead ensures x !in got {
      var j :| 0 <= j < |ahead| && ahead[j] == x;
      assert all[|got| + j] == x;
      forall i | 0 <= i < |got| ensures got[i] != x {
        assert all[i] == got[i];
      }
    }
    WithoutDistinct(ahead, out);
    DistinctSum(got, Without(ahead, out));
  }

  /** Nothing comes in sight twice, and nothing new does. */
  lemma {:induction false} SightKept(walk: seq<Request>, changes: seq<Change>)
    requires IsWalk(walk, changes) && KeepsCursors(walk, changes)
    ensures Distinct(Sight(walk)) && |Sight(walk)| <= |Due(walk[0])|
    ensures forall x :: x in Sight(walk) ==> x in Due(walk[0])
  {
    if |walk| == 1 {
      FirstSight(walk);
      var p := DueFrom(walk[0]);
    } else {
      var shorter := walk[..|walk| - 1];
      ShorterWalk(walk, changes);
      SightKept(shorter, changes[..|changes| - 1]);
      NextSight(walk, changes);
      SightShrinks(Names(Returned(shorter)), Ahead(shorter[|shorter| - 1]), Displaced(changes[|changes| - 1]));
    }
  }

  /** A recipe that is never deleted stays in sight iff it is not edited while it
      is ahead. */
  lemma {:induction false} InSightIff(walk: seq<Request>, changes: seq<Change>, id: string)
    requires IsWalk(walk, changes) && KeepsCursors(walk, changes)
    requires PresentThroughout(walk, id) && id in Due(walk[0])
    ensures id in Sight(walk) <==> NeverEditedAhead(walk, changes, id)
  {
    if |walk| == 1 {
      FirstSight(walk);
    } else {
      var shorter, fewer := walk[..|walk| - 1], changes[..|changes| - 1];
      ShorterWalk(walk, changes);
      PresentBefore(walk, id);
      InSightIff(shorter, fewer, id);
      InSightStep(walk, changes, id);
      NeverOneMore(walk, changes, id);
    }
  }

  lemma PresentBefore(walk: seq<Request>, id: string)
    requires |walk| > 1 && PresentThroughout(walk, id)
    ensures PresentThroughout(walk[..|walk| - 1], id) && walk[..|walk| - 1][0] == walk[0]
  {
  }

  lemma InSightStep(walk: seq<Request>, changes: seq<Change>, id: string)
    requires IsWalk(walk, changes) && KeepsCursors(walk, changes) && |walk| > 1 && PresentThroughout(walk, id)
    ensures id in Sight(walk) <==>
      id in Sight(walk[..|walk| - 1]) && !EditedAhead(walk, changes, |changes| - 1, id)
  {
    StillInSight(walk, changes, id);
    DisplacedIsEdited(walk, changes, id);
  }

  lemma StillInSight(walk: seq<Request>, changes: seq<Change>, id: string)
    requires IsWalk(walk, changes) && KeepsCursors(walk, changes) && |walk| > 1
    ensures var n := |changes| - 1;
      id in Sight(walk) <==> id in Sight(walk[..n + 1]) && !(id in Ahead(walk[n]) && id in Displaced(changes[n]))
  {
    var n := |changes| - 1;
    var shorter := walk[..n + 1];
    ShorterWalk(walk, changes);
    SightKept(shorter, changes[..n]);
    NextSight(walk, changes);
    SightShrinks(Names(Returned(shorter)), Ahead(walk[n]), Displaced(changes[n]));
  }

  lemma NeverOneMore(walk: seq<Request>, changes: seq<Change>, id: string)
    requires |walk| == |changes| + 1 > 1
    ensures NeverEditedAhead(walk, changes, id) <==>
      && NeverEditedAhead(walk[..|walk| - 1], changes[..|changes| - 1], id)
      && !EditedAhead(walk, changes, |changes| - 1, id)
  {
    var shorter, fewer := walk[..|walk| - 1], changes[..|changes| - 1];
    if NeverEditedAhead(walk, changes, id) {
      forall k | 0 <= k < |fewer| ensures !EditedAhead(shorter, fewer, k, id) {
        assert !EditedAhead(walk, changes, k, id);
      }
    }
    if NeverEditedAhead(shorter, fewer, id) && !EditedAhead(walk, changes, |fewer|, id) {
      forall k | 0 <= k < |changes| ensures !EditedAhead(walk, changes, k, id) {
        if k < |fewer| { assert !EditedAhead(shorter, fewer, k, id); }
      }
    }
  }

  /** What a change displaces and the next list still holds, it edits. */
  lemma DisplacedIsEdited(walk: seq<Request>, changes: seq<Change>, id: string)
    requires IsWalk(walk, changes) && |walk| > 1 && PresentThroughout(walk, id)
    ensures var n := |changes| - 1;
      id in Ahead(walk[n]) && id in Displaced(changes[n]) <==> EditedAhead(walk, changes, n, id)
  {
    var n := |changes| - 1;
    assert Follows(walk[n], changes[n], walk[n + 1]) && id in Names(walk[n + 1].list);
  }

  /** What some requests ask for together. */
  function Room(walk: seq<Request>): nat {
    if walk == [] then 0 else Room(walk[..|walk| - 1]) + walk[|walk| - 1].Limit()
  }

  /** Every page but the last is full. */
  lemma {:induction false} FullPages(walk: seq<Request>, changes: seq<Change>)
    requires IsWalk(walk, changes)
    ensures |Returned(walk)| == Room(walk[..|walk| - 1]) + |walk[|walk| - 1].page.items|
  {
    if |walk| == 1 {
      FirstSight(walk);
    } else {
      var shorter := walk[..|walk| - 1];
      ShorterWalk(walk, changes);
      FullPages(shorter, changes[..|changes| - 1]);
      FullBefore(walk, changes);
    }
  }

  lemma FullBefore(walk: seq<Request>, changes: seq<Change>)
    requires IsWalk(walk, changes) && |walk| > 1
    ensures |walk[|walk| - 2].page.items| == walk[|walk| - 2].Limit()
  {
    assert Follows(walk[|changes| - 1], changes[|changes| - 1], walk[|changes| - 1 + 1]);
    PageSplits(walk[|walk| - 2]);
  }

  lemma {:induction false} RoomAlike(walk: seq<Request>, limit: nat)
    requires forall k :: 0 <= k < |walk| ==> walk[k].Limit() == limit
    ensures Room(walk) == limit * |walk|
  {
    if walk != [] {
      RoomAlike(walk[..|walk| - 1], limit);
      OneMoreTimes(limit, |walk|);
    }
  }

  lemma OneMoreTimes(limit: nat, n: nat)
    requires n > 0
    ensures limit * n == limit * (n - 1) + limit
  {
  }

  lemma NothingAhead(walk: seq<Request>)
    requires Finished(walk)
    ensures Sight(walk) == Names(Returned(walk))
  {
  }

  // ----------------------------------------------------------- main results

  /** While no cursor's recipe is edited, whatever else is created, edited and
      deleted: no recipe is returned twice; once the last page names no cursor, a
      recipe that was due and never deleted was returned iff no change edited it
      while it stood after the cursor; and together the requests but the last ask for no
      more than was due at first. */
  lemma WalksSurviveChange(walk: seq<Request>, changes: seq<Change>)
    requires IsWalk(walk, changes) && KeepsCursors(walk, changes)
    ensures Distinct(Names(Returned(walk)))
    ensures Finished(walk) ==> forall id :: PresentThroughout(walk, id) && id in Due(walk[0]) ==>
      (id in Names(Returned(walk)) <==> NeverEditedAhead(walk, changes, id))
    ensures Room(walk[..|walk| - 1]) <= |Due(walk[0])|
  {
    SightKept(walk, changes);
    FullPages(walk, changes);
    DistinctSum(Names(Returned(walk)), Ahead(walk[|walk| - 1]));
    if Finished(walk) {
      NothingAhead(walk);
      forall id | PresentThroughout(walk, id) && id in Due(walk[0])
        ensures id in Names(Returned(walk)) <==> NeverEditedAhead(walk, changes, id)
      {
        InSightIff(walk, changes, id);
      }
    }
  }

  /** No id is given out again: what a change creates was in no list before. */
  predicate IdsFresh(walk: seq<Request>, changes: seq<Change>) {
    forall j, k, id :: 0 <= j <= k < |changes| && k < |walk| && id in changes[k].front && id in Names(walk[j].list) ==>
      id in Names(walk[k].list)
  }

  /** Then a recipe of the first list and the last was there throughout. */
  lemma {:induction false} StaysThroughout(walk: seq<Request>, changes: seq<Change>, id: string, k: nat)
    requires IsWalk(walk, changes) && IdsFresh(walk, changes) && k < |walk|
    requires id in Names(walk[0].list) && id in Names(walk[|walk| - 1].list)
    ensures id in Names(walk[k].list)
    decreases |walk| - k
  {
    if k < |walk| - 1 {
      StaysThroughout(walk, changes, id, k + 1);
      assert Follows(walk[k], changes[k], walk[k + 1]);
    }
  }

  /** A walk from the first page on returns what it was from the first request to
      the last iff no change edits it while it stands after the cursor. */
  lemma FullWalkReturnsIff(walk: seq<Request>, changes: seq<Change>, id: string)
    requires IsWalk(walk, changes) && KeepsCursors(walk, changes) && IdsFresh(walk, changes)
    requires walk[0].cursor.None? && Finished(walk)
    requires id in Names(walk[0].list) && id in Names(walk[|walk| - 1].list)
    ensures id in Names(Returned(walk)) <==> NeverEditedAhead(walk, changes, id)
  {
    WalksSurviveChange(walk, changes);
    forall k | 0 <= k < |walk| ensures id in Names(walk[k].list) {
      StaysThroughout(walk, changes, id, k);
    }
  }

  /** The next request is answered, after the cursor's recipe, iff that recipe is
      not deleted. */
  lemma NextRequestAnswered(r: Request, change: Change, asked: Option<nat>, list: seq<Recipe>) returns (p: nat)
    requires Answered(r) && r.page.nextCursor.Some? && Names(list) == After(Names(r.list), change)
    requires change.gone !! Elements(change.front)
    ensures var cursor, limit := r.page.nextCursor.value, EffectiveLimit(asked);
      && (Answer(list, limit, Some(cursor)).Ok? <==> cursor !in change.gone)
      && (cursor !in change.gone ==>
            p < |list| && list[p].id == cursor && (forall q :: 0 <= q < p ==> list[q].id != cursor)
            && Answer(list, limit, Some(cursor)) == Ok(PageFrom(list[p + 1..], limit)))
  {
    var cursor := r.page.nextCursor.value;
    NextCursorListed(r);
    p := 0;
    if cursor in Names(list) {
      p := FirstNamed(list, cursor);
      RestAfterAt(list, p);
    }
  }

  lemma NextCursorListed(r: Request)
    requires Answered(r) && r.page.nextCursor.Some?
    ensures r.page.nextCursor.value in Names(r.list)
  {
    var p := DueFrom(r);
    assert Names(r.list)[p + |r.page.items| - 1] == r.page.nextCursor.value;
  }

  lemma {:induction false} FirstNamed(list: seq<Recipe>, id: string) returns (p: nat)
    requires id in Names(list)
    ensures p < |list| && list[p].id == id && forall q :: 0 <= q < p ==> list[q].id != id
  {
    if list[0].id == id {
      p := 0;
    } else {
      var i :| 0 <= i < |Names(list)| && Names(list)[i] == id;
      assert Names(list[1..])[i - 1] == id;
      p := FirstNamed(list[1..], id);
      p := p + 1;
      forall q | 0 <= q < p ensures list[q].id != id {
        if q > 0 { assert list[1..][q - 1] == list[q]; }
      }
    }
  }

  // ---------------------------------------------------------- quiet walks

  /** Nothing happens between the requests. */
  predicate Quiet(changes: seq<Change>) {
    forall k :: 0 <= k < |changes| ==> changes[k] == Change([], {})
  }

  lemma {:induction false} WithoutNothing(names: seq<string>)
    ensures Without(names, {}) == names
  {
    if names != [] { WithoutNothing(names[1..]); }
  }

  lemma {:induction false} QuietSight(walk: seq<Request>, changes: seq<Change>)
    requires IsWalk(walk, changes) && Quiet(changes)
    ensures KeepsCursors(walk, changes) && Sight(walk) == Due(walk[0])
  {
    if |walk| == 1 {
      FirstSight(walk);
    } else {
      var shorter := walk[..|walk| - 1];
      ShorterWalk(walk, changes);
      QuietSight(shorter, changes[..|changes| - 1]);
      QuietKeeps(walk, changes);
      NextSight(walk, changes);
      WithoutNothing(Ahead(shorter[|shorter| - 1]));
      assert Displaced(changes[|changes| - 1]) == {};
    }
  }

  lemma QuietKeeps(walk: seq<Request>, changes: seq<Change>)
    requires Quiet(changes)
    ensures KeepsCursors(walk, changes)
  {
  }

  /** A finished walk over an unchanged list of n recipes returns the list
      itself, in n / limit + 1 requests when they ask for one limit. */
  lemma QuietWalkFinishes(walk: seq<Request>, changes: seq<Change>)
    requires IsWalk(walk, changes) && Finished(walk) && walk[0].cursor.None?
    requires Quiet(changes) && forall k :: 0 <= k < |walk| ==> walk[k].list == walk[0].list
    ensures Returned(walk) == walk[0].list
    ensures (forall k :: 0 <= k < |walk| ==> walk[k].Limit() == walk[0].Limit()) ==>
      |walk| == |walk[0].list| / walk[0].Limit() + 1
  {
    QuietReturns(walk, changes);
    if forall k :: 0 <= k < |walk| ==> walk[k].Limit() == walk[0].Limit() {
      QuietCount(walk, changes, walk[0].Limit());
    }
  }

  lemma QuietReturns(walk: seq<Request>, changes: seq<Change>)
    requires IsWalk(walk, changes) && Finished(walk) && walk[0].cursor.None?
    requires Quiet(changes) && forall k :: 0 <= k < |walk| ==> walk[k].list == walk[0].list
    ensures Returned(walk) == walk[0].list
  {
    QuietSight(walk, changes);
    NothingAhead(walk);
    FromList(walk, walk[0].list);
    SameNames(Returned(walk), walk[0].list);
  }

  lemma QuietCount(walk: seq<Request>, changes: seq<Change>, limit: nat)
    requires IsWalk(walk, changes) && Finished(walk) && forall k :: 0 <= k < |walk| ==> walk[k].Limit() == limit
    ensures |walk| == |Returned(walk)| / limit + 1
  {
    FullPages(walk, changes);
    PageSplits(walk[|walk| - 1]);
    RoomAlike(walk[..|walk| - 1], limit);
    Quotient(|Returned(walk)|, limit, |walk| - 1, |walk[|walk| - 1].page.items|);
  }

  lemma {:induction false} FromList(walk: seq<Request>, list: seq<Recipe>)
    requires forall k :: 0 <= k < |walk| ==> Answered(walk[k]) && walk[k].list == list
    ensures forall x :: x in Returned(walk) ==> x in list
  {
    if walk != [] {
      var last := |walk| - 1;
      FromList(walk[..last], list);
      var p := DueFrom(walk[last]);
      assert walk[last].page.items <= list[p..];
    }
  }

  lemma SameNames(a: seq<Recipe>, list: seq<Recipe>)
    requires Names(a) == Names(list) && Distinct(Names(list)) && forall x :: x in a ==> x in list
    ensures a == list
  {
    assert |Names(a)| == |a| && |Names(list)| == |list|;
    forall i | 0 <= i < |a| ensures a[i] == list[i] {
      assert a[i] in list;
      var j :| 0 <= j < |list| && list[j] == a[i];
      assert Names(list)[j] == Names(a)[i] == Names(list)[i];
    }
  }

  lemma Quotient(n: nat, limit: nat, full: nat, part: nat)
    requires limit > 0 && n == limit * full + part && part < limit
    ensures n / limit == full
  {
    var q := n / limit;
    assert n == limit * q + n % limit;
    if q < full {
      Multiples(limit, q, full);
    } else if full < q {
      Multiples(limit, full, q);
    }
  }

  lemma {:induction false} Multiples(limit: nat, a: nat, b: nat)
    requires a < b
    ensures limit * a + limit <= limit * b
  {
    assert limit * b == limit * (b - 1) + limit;
    if a < b - 1 {
      Multiples(limit, a, b - 1);
    }
  }
}
