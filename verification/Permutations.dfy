/** Lists up to order, and keys no two elements of a list share. */
module Permutations {
  import opened Wrappers

  ghost predicate Permuted<T>(a: seq<T>, b: seq<T>) {
    multiset(a) == multiset(b)
  }

  /** No two elements have one key; an element may have none. */
  predicate UniqueBy<T, K(==)>(f: T -> Option<K>, s: seq<T>) {
    forall i, j :: 0 <= i < j < |s| && f(s[i]).Some? ==> f(s[i]) != f(s[j])
  }

  lemma OneWithKey<T, K>(f: T -> Option<K>, s: seq<T>, i: nat, j: nat)
    requires UniqueBy(f, s) && i < |s| && j < |s| && f(s[i]).Some? && f(s[i]) == f(s[j])
    ensures i == j
  {
  }

  lemma SameMembers<T>(a: seq<T>, b: seq<T>, x: T)
    requires Permuted(a, b)
    ensures x in a <==> x in b
  {
    assert x in a <==> x in multiset(a);
    assert x in b <==> x in multiset(b);
  }

  lemma SameLength<T>(a: seq<T>, b: seq<T>)
    requires Permuted(a, b)
    ensures |a| == |b|
  {
    assert |multiset(a)| == |a| && |multiset(b)| == |b|;
  }

  /** An element counted twice stands at two positions. */
  lemma {:induction false} TwoPositions<T>(s: seq<T>, x: T) returns (i: nat, j: nat)
    requires multiset(s)[x] >= 2
    ensures i < j < |s| && s[i] == x && s[j] == x
  {
    var last := |s| - 1;
    assert s == s[..last] + [s[last]];
    if s[last] == x {
      assert x in multiset(s[..last]);
      i :| 0 <= i < last && s[..last][i] == x;
      j := last;
    } else {
      i, j := TwoPositions(s[..last], x);
    }
  }

  lemma CountedTwice<T>(s: seq<T>, i: nat, j: nat)
    requires i < j < |s| && s[i] == s[j]
    ensures multiset(s)[s[i]] >= 2
  {
    assert s == s[..i] + [s[i]] + s[i + 1..j] + [s[j]] + s[j + 1..];
  }

  lemma UniquePermuted<T, K>(f: T -> Option<K>, a: seq<T>, b: seq<T>)
    requires UniqueBy(f, a) && Permuted(a, b)
    ensures UniqueBy(f, b)
  {
    forall i, j | 0 <= i < j < |b| && f(b[i]).Some? ensures f(b[i]) != f(b[j]) {
      SameMembers(a, b, b[i]);
      SameMembers(a, b, b[j]);
      if b[i] == b[j] {
        CountedTwice(b, i, j);
        var p, q := TwoPositions(a, b[i]);
        assert f(a[p]) != f(a[q]);
      } else {
        var p :| 0 <= p < |a| && a[p] == b[i];
        var q :| 0 <= q < |a| && a[q] == b[j];
        assert p < q ==> f(a[p]) != f(a[q]);
        assert q < p && f(a[q]).Some? ==> f(a[q]) != f(a[p]);
      }
    }
  }

  lemma UniqueOneMore<T, K>(f: T -> Option<K>, s: seq<T>, x: T)
    ensures UniqueBy(f, s + [x]) <==> UniqueBy(f, s) && (f(x).Some? ==> forall y :: y in s ==> f(y) != f(x))
  {
    var all := s + [x];
    if UniqueBy(f, all) {
      forall i, j | 0 <= i < j < |s| && f(s[i]).Some? ensures f(s[i]) != f(s[j]) {
        assert all[i] == s[i] && all[j] == s[j];
      }
      if f(x).Some? {
        forall y | y in s ensures f(y) != f(x) {
          var i :| 0 <= i < |s| && s[i] == y;
          assert all[i] == y && all[|s|] == x;
        }
      }
    } else if UniqueBy(f, s) {
      var i, j :| 0 <= i < j < |all| && f(all[i]).Some? && f(all[i]) == f(all[j]);
      assert j == |s| && all[i] in s;
    }
  }

  lemma WithoutLast<T>(s: seq<T>)
    requires s != []
    ensures multiset(s) == multiset(s[..|s| - 1]) + multiset{s[|s| - 1]}
  {
    assert s == s[..|s| - 1] + [s[|s| - 1]];
  }

  lemma WithoutOne<T>(s: seq<T>, i: nat)
    requires i < |s|
    ensures multiset(s) == multiset(s[..i] + s[i + 1..]) + multiset{s[i]}
  {
    assert s == s[..i] + [s[i]] + s[i + 1..];
  }

  lemma SameWithoutLast<T>(a: seq<T>, b: seq<T>)
    requires Permuted(a, b) && a != [] && b != [] && a[|a| - 1] == b[|b| - 1]
    ensures Permuted(a[..|a| - 1], b[..|b| - 1])
  {
    WithoutLast(a);
    WithoutLast(b);
    Cancel(multiset(a[..|a| - 1]), multiset(b[..|b| - 1]), a[|a| - 1]);
  }

  lemma Cancel<T>(x: multiset<T>, y: multiset<T>, e: T)
    requires x + multiset{e} == y + multiset{e}
    ensures x == y
  {
    assert x == (x + multiset{e}) - multiset{e} && y == (y + multiset{e}) - multiset{e};
  }

  function Mapped<T, U>(f: T -> U, s: seq<T>): seq<U> {
    seq(|s|, i requires 0 <= i < |s| => f(s[i]))
  }

  lemma MappedSum<T, U>(f: T -> U, a: seq<T>, b: seq<T>)
    ensures Mapped(f, a + b) == Mapped(f, a) + Mapped(f, b)
  {
  }

  lemma MappedParts<T, U>(f: T -> U, s: seq<T>, i: nat)
    requires i < |s|
    ensures Mapped(f, s[..i] + s[i + 1..]) == Mapped(f, s)[..i] + Mapped(f, s)[i + 1..]
    ensures Mapped(f, s[..i]) == Mapped(f, s)[..i]
  {
  }

  /** Mapping reordered lists gives reordered lists. */
  lemma {:induction false} MappedPermuted<T, U>(f: T -> U, a: seq<T>, b: seq<T>)
    requires Permuted(a, b)
    ensures Permuted(Mapped(f, a), Mapped(f, b))
  {
    SameLength(a, b);
    if a != [] {
      var last := |a| - 1;
      SameMembers(a, b, a[last]);
      var i :| 0 <= i < |b| && b[i] == a[last];
      WithoutLast(a);
      WithoutOne(b, i);
      Cancel(multiset(a[..last]), multiset(b[..i] + b[i + 1..]), a[last]);
      MappedPermuted(f, a[..last], b[..i] + b[i + 1..]);
      MappedParts(f, a, last);
      MappedParts(f, b, i);
      WithoutLast(Mapped(f, a));
      WithoutOne(Mapped(f, b), i);
    }
  }
}
