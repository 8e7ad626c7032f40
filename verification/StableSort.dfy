/** Stable sorting by a comparison. */
module StableSort {
  import opened Permutations

  predicate Ascending<T>(le: (T, T) -> bool, s: seq<T>) {
    forall i, j :: 0 <= i < j < |s| ==> le(s[i], s[j])
  }

  ghost predicate TotalPreorder<T(!new)>(le: (T, T) -> bool) {
    (forall a, b :: le(a, b) || le(b, a)) && forall a, b, c :: le(a, b) && le(b, c) ==> le(a, c)
  }

  /** Where a stable sort puts `x` among sorted elements: after its equals. */
  function Insert<T>(le: (T, T) -> bool, sorted: seq<T>, x: T): seq<T> {
    if sorted == [] || le(sorted[|sorted| - 1], x) then sorted + [x]
    else Insert(le, sorted[..|sorted| - 1], x) + [sorted[|sorted| - 1]]
  }

  function Sorted<T>(le: (T, T) -> bool, s: seq<T>): seq<T> {
    if s == [] then [] else Insert(le, Sorted(le, s[..|s| - 1]), s[|s| - 1])
  }

  // ------------------------------------------------ ascending permutation

  lemma BelowLast<T(!new)>(le: (T, T) -> bool, sorted: seq<T>, x: T)
    requires TotalPreorder(le) && Ascending(le, sorted) && sorted != [] && le(sorted[|sorted| - 1], x)
    ensures Ascending(le, sorted + [x])
  {
    forall i | 0 <= i < |sorted| ensures le(sorted[i], x) {
      if i < |sorted| - 1 { assert le(sorted[i], sorted[|sorted| - 1]); }
    }
  }

  lemma {:induction false} InsertSorts<T(!new)>(le: (T, T) -> bool, sorted: seq<T>, x: T)
    requires TotalPreorder(le) && Ascending(le, sorted)
    ensures Ascending(le, Insert(le, sorted, x)) && Permuted(Insert(le, sorted, x), sorted + [x])
  {
    if sorted != [] {
      var init, last := sorted[..|sorted| - 1], sorted[|sorted| - 1];
      assert sorted == init + [last];
      if le(last, x) {
        BelowLast(le, sorted, x);
      } else {
        InsertSorts(le, init, x);
        var rest := Insert(le, init, x);
        forall i | 0 <= i < |rest| ensures le(rest[i], last) {
          SameMembers(rest, init + [x], rest[i]);
          assert rest[i] in init || rest[i] == x;
        }
        InsertCounts(init, last, x, rest);
      }
    }
  }

  lemma InsertCounts<T>(init: seq<T>, last: T, x: T, rest: seq<T>)
    requires Permuted(rest, init + [x])
    ensures Permuted(rest + [last], init + [last] + [x])
  {
  }

  lemma {:induction false} SortedPermutes<T(!new)>(le: (T, T) -> bool, s: seq<T>)
    requires TotalPreorder(le)
    ensures Ascending(le, Sorted(le, s)) && Permuted(Sorted(le, s), s)
  {
    if s != [] {
      var init, last := s[..|s| - 1], s[|s| - 1];
      assert s == init + [last];
      SortedPermutes(le, init);
      InsertSorts(le, Sorted(le, init), last);
    }
  }

  // ----------------------------------------------------------- stability

  predicate Level<T>(le: (T, T) -> bool, a: T, b: T) {
    le(a, b) && le(b, a)
  }

  /** The elements level with `x`, in order. */
  function LevelWith<T>(le: (T, T) -> bool, s: seq<T>, x: T): seq<T> {
    if s == [] then []
    else LevelWith(le, s[..|s| - 1], x) + if Level(le, s[|s| - 1], x) then [s[|s| - 1]] else []
  }

  lemma LevelOneMore<T>(le: (T, T) -> bool, s: seq<T>, y: T, x: T)
    ensures LevelWith(le, s + [y], x) == LevelWith(le, s, x) + if Level(le, y, x) then [y] else []
  {
    assert (s + [y])[..|s|] == s;
  }

  lemma NotBothLevel<T(!new)>(le: (T, T) -> bool, a: T, b: T, x: T)
    requires TotalPreorder(le) && !le(a, b)
    ensures !(Level(le, a, x) && Level(le, b, x))
  {
  }

  lemma PassOver<T>(le: (T, T) -> bool, init: seq<T>, last: T, y: T, rest: seq<T>, x: T)
    requires LevelWith(le, rest, x) == LevelWith(le, init + [y], x) && !(Level(le, last, x) && Level(le, y, x))
    ensures LevelWith(le, rest + [last], x) == LevelWith(le, init + [last] + [y], x)
  {
    LevelOneMore(le, init, y, x);
    LevelOneMore(le, rest, last, x);
    LevelOneMore(le, init, last, x);
    LevelOneMore(le, init + [last], y, x);
  }

  /** Inserting passes over no element level with the new one. */
  lemma {:induction false} InsertKeepsLevel<T(!new)>(le: (T, T) -> bool, sorted: seq<T>, y: T, x: T)
    requires TotalPreorder(le)
    ensures LevelWith(le, Insert(le, sorted, y), x) == LevelWith(le, sorted + [y], x)
  {
    if sorted != [] && !le(sorted[|sorted| - 1], y) {
      var init, last := sorted[..|sorted| - 1], sorted[|sorted| - 1];
      assert sorted == init + [last];
      InsertKeepsLevel(le, init, y, x);
      NotBothLevel(le, last, y, x);
      PassOver(le, init, last, y, Insert(le, init, y), x);
    }
  }

  /** Elements that compare level keep their order. */
  lemma {:induction false} SortStable<T(!new)>(le: (T, T) -> bool, s: seq<T>, x: T)
    requires TotalPreorder(le)
    ensures LevelWith(le, Sorted(le, s), x) == LevelWith(le, s, x)
  {
    if s != [] {
      var init, last := s[..|s| - 1], s[|s| - 1];
      SortStable(le, init, x);
      InsertKeepsLevel(le, Sorted(le, init), last, x);
      LevelOneMore(le, Sorted(le, init), last, x);
    }
  }

  // ---------------------------------------------------------- uniqueness

  predicate StrictlyAscending<T>(le: (T, T) -> bool, s: seq<T>) {
    forall i, j :: 0 <= i < j < |s| ==> !le(s[j], s[i])
  }

  /** A collection has one strictly ascending list. */
  lemma {:induction false} OneStrictList<T(!new)>(le: (T, T) -> bool, a: seq<T>, b: seq<T>)
    requires TotalPreorder(le) && StrictlyAscending(le, a) && StrictlyAscending(le, b) && Permuted(a, b)
    ensures a == b
  {
    SameLength(a, b);
    if a != [] {
      var last := |a| - 1;
      SameLast(le, a, b);
      SameWithoutLast(a, b);
      assert a == a[..last] + [a[last]] && b == b[..last] + [b[last]];
      OneStrictList(le, a[..last], b[..last]);
    }
  }

  lemma SameLast<T(!new)>(le: (T, T) -> bool, a: seq<T>, b: seq<T>)
    requires TotalPreorder(le) && StrictlyAscending(le, a) && StrictlyAscending(le, b) && Permuted(a, b) && a != []
      && |a| == |b|
    ensures a[|a| - 1] == b[|b| - 1]
  {
    var last := |a| - 1;
    SameMembers(a, b, a[last]);
    SameMembers(a, b, b[last]);
    var i :| 0 <= i < |b| && b[i] == a[last];
    var j :| 0 <= j < |a| && a[j] == b[last];
    assert le(a[last], b[last]) || le(b[last], a[last]);
  }

  // ------------------------------------------------------------ the sort

  method InsertInto<T>(le: (T, T) -> bool, sorted: seq<T>, x: T) returns (all: seq<T>)
    ensures all == Insert(le, sorted, x)
  {
    var i := |sorted|;
    assert sorted[..i] == sorted;
    while i > 0 && !le(sorted[i - 1], x)
      invariant 0 <= i <= |sorted|
      invariant Insert(le, sorted, x) == Insert(le, sorted[..i], x) + sorted[i..]
    {
      assert sorted[..i][..i - 1] == sorted[..i - 1];
      MoveOne(Insert(le, sorted[..i - 1], x), sorted, i - 1);
      i := i - 1;
    }
    all := sorted[..i] + [x] + sorted[i..];
  }

  lemma MoveOne<T>(x: seq<T>, s: seq<T>, i: nat)
    requires i < |s|
    ensures (x + [s[i]]) + s[i + 1..] == x + s[i..]
  {
  }

  method SortBy<T>(le: (T, T) -> bool, s: seq<T>) returns (sorted: seq<T>)
    ensures sorted == Sorted(le, s)
  {
    sorted := [];
    for i := 0 to |s|
      invariant sorted == Sorted(le, s[..i])
    {
      assert s[..i + 1][..i] == s[..i];
      sorted := InsertInto(le, sorted, s[i]);
    }
    assert s[..|s|] == s;
  }
}
