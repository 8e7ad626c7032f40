/** Walks along a relation, and what is reachable along it. */
module Graph {
  ghost predicate IsWalk<T(!new)>(edge: (T, T) -> bool, walk: seq<T>) {
    walk != [] && forall i :: 0 <= i < |walk| - 1 ==> edge(walk[i], walk[i + 1])
  }

  /** `walk` leads from `a` to `b`; a single vertex leads to itself. */
  ghost predicate Connects<T(!new)>(edge: (T, T) -> bool, walk: seq<T>, a: T, b: T) {
    IsWalk(edge, walk) && walk[0] == a && walk[|walk| - 1] == b
  }

  ghost predicate Reaches<T(!new)>(edge: (T, T) -> bool, a: T, b: T) {
    exists walk :: Connects(edge, walk, a, b)
  }

  /** No edge leaves `inside`. */
  ghost predicate Closed<T(!new)>(edge: (T, T) -> bool, inside: T -> bool) {
    forall a, b :: inside(a) && edge(a, b) ==> inside(b)
  }

  lemma ReachesItself<T(!new)>(edge: (T, T) -> bool, a: T)
    ensures Reaches(edge, a, a)
  {
    assert Connects(edge, [a], a, a);
  }

  lemma ReachesFurther<T(!new)>(edge: (T, T) -> bool, a: T, b: T, c: T)
    requires Reaches(edge, a, b) && edge(b, c)
    ensures Reaches(edge, a, c)
  {
    var walk :| Connects(edge, walk, a, b);
    assert Connects(edge, walk + [c], a, c);
  }

  lemma ReachesTransitive<T(!new)>(edge: (T, T) -> bool, a: T, b: T, c: T)
    requires Reaches(edge, a, b) && Reaches(edge, b, c)
    ensures Reaches(edge, a, c)
  {
    var first :| Connects(edge, first, a, b);
    var second :| Connects(edge, second, b, c);
    var walk := first + second[1..];
    forall i | 0 <= i < |walk| - 1 ensures edge(walk[i], walk[i + 1]) {
      if i >= |first| - 1 {
        assert walk[i] == second[i - (|first| - 1)] && walk[i + 1] == second[i + 1 - (|first| - 1)];
      }
    }
    assert Connects(edge, walk, a, c);
  }

  /** A closed set keeps every walk that starts in it. */
  lemma {:induction false} WalkStaysInside<T(!new)>(edge: (T, T) -> bool, inside: T -> bool, walk: seq<T>, i: nat)
    requires IsWalk(edge, walk) && Closed(edge, inside) && inside(walk[0]) && i < |walk|
    ensures inside(walk[i])
  {
    if i > 0 {
      WalkStaysInside(edge, inside, walk, i - 1);
      assert edge(walk[i - 1], walk[i - 1 + 1]);
    }
  }

  lemma ReachedStaysInside<T(!new)>(edge: (T, T) -> bool, inside: T -> bool, a: T, b: T)
    requires Closed(edge, inside) && inside(a) && Reaches(edge, a, b)
    ensures inside(b)
  {
    var walk :| Connects(edge, walk, a, b);
    WalkStaysInside(edge, inside, walk, |walk| - 1);
  }

  lemma SameReach<T(!new)>(edge: (T, T) -> bool, other: (T, T) -> bool, a: T, b: T)
    requires forall x, y :: edge(x, y) <==> other(x, y)
    ensures Reaches(edge, a, b) <==> Reaches(other, a, b)
  {
    if Reaches(edge, a, b) {
      var walk :| Connects(edge, walk, a, b);
      assert Connects(other, walk, a, b);
    }
    if Reaches(other, a, b) {
      var walk :| Connects(other, walk, a, b);
      assert Connects(edge, walk, a, b);
    }
  }

  /** What reaches something else has an edge of its own. */
  lemma ReachesByEdge<T(!new)>(edge: (T, T) -> bool, a: T, b: T)
    requires Reaches(edge, a, b)
    ensures a == b || exists next :: edge(a, next)
  {
    var walk :| Connects(edge, walk, a, b);
    if |walk| > 1 { assert edge(walk[0], walk[0 + 1]); }
  }
}
