/** Text operations the validators rely on: order, search, splitting. */
module Text {

  /** Lexicographic order by code point (the byte order of UTF-8). */
  predicate StrLe(a: string, b: string) {
    a == [] || (b != [] && (a[0] < b[0] || (a[0] == b[0] && StrLe(a[1..], b[1..]))))
  }

  /** The first is a prefix of the second, or has the lesser character where they first
      differ. */
  lemma {:induction false} StrLeIff(a: string, b: string)
    ensures StrLe(a, b) <==>
      a <= b || exists n :: 0 <= n < |a| && n < |b| && a[..n] == b[..n] && a[n] < b[n]
  {
    if a != [] && b != [] {
      assert a == [a[0]] + a[1..] && b == [b[0]] + b[1..];
      if a[0] == b[0] {
        StrLeIff(a[1..], b[1..]);
        StrLeShift(a, b);
      } else {
        assert forall n :: 0 < n < |a| && n < |b| ==> a[..n][0] != b[..n][0];
        assert a[..0] == b[..0];
      }
    }
  }

  lemma StrLeShift(a: string, b: string)
    requires a != [] && b != [] && a[0] == b[0]
    ensures (exists n :: 0 <= n < |a| && n < |b| && a[..n] == b[..n] && a[n] < b[n]) <==>
      exists n :: 0 <= n < |a[1..]| && n < |b[1..]| && a[1..][..n] == b[1..][..n] && a[1..][n] < b[1..][n]
  {
    if n :| 0 <= n < |a| && n < |b| && a[..n] == b[..n] && a[n] < b[n] {
      assert a[1..][..n - 1] == a[..n][1..] && b[1..][..n - 1] == b[..n][1..];
      assert a[1..][n - 1] == a[n] && b[1..][n - 1] == b[n];
    }
    if n :| 0 <= n < |a[1..]| && n < |b[1..]| && a[1..][..n] == b[1..][..n] && a[1..][n] < b[1..][n] {
      assert a[..n + 1] == [a[0]] + a[1..][..n] && b[..n + 1] == [b[0]] + b[1..][..n];
      assert a[n + 1] == a[1..][n] && b[n + 1] == b[1..][n];
    }
  }

  lemma StrLeTotal(a: string, b: string)
    ensures StrLe(a, b) || StrLe(b, a)
  {
  }

  lemma {:induction false} StrLeAntisymmetric(a: string, b: string)
    requires StrLe(a, b) && StrLe(b, a)
    ensures a == b
  {
    if a != [] && b != [] {
      StrLeAntisymmetric(a[1..], b[1..]);
      assert a == [a[0]] + a[1..] && b == [b[0]] + b[1..];
    }
  }

  lemma {:induction false} StrLeTransitive(a: string, b: string, c: string)
    requires StrLe(a, b) && StrLe(b, c)
    ensures StrLe(a, c)
  {
    if a != [] && a[0] == b[0] == c[0] {
      StrLeTransitive(a[1..], b[1..], c[1..]);
    }
  }

  lemma {:induction false} GreatestExists(keys: set<string>) returns (top: string)
    requires keys != {}
    ensures top in keys && forall k :: k in keys ==> StrLe(k, top)
  {
    var k :| k in keys;
    if keys == {k} {
      top := k;
      StrLeTotal(k, k);
    } else {
      assert keys - {k} != {};
      top := GreatestExists(keys - {k});
      StrLeTotal(k, top);
      if !StrLe(k, top) {
        forall o | o in keys ensures StrLe(o, k) {
          if o == k { StrLeTotal(k, k); } else { StrLeTransitive(o, top, k); }
        }
        top := k;
      }
    }
  }

  /** The greatest of some keys. */
  function Greatest(keys: set<string>): (top: string)
    requires keys != {}
    ensures top in keys
  {
    assert exists k :: k in keys && forall o :: o in keys ==> StrLe(o, k) by {
      var top := GreatestExists(keys);
    }
    assert forall a, b | a in keys && b in keys && (forall o :: o in keys ==> StrLe(o, a))
      && (forall o :: o in keys ==> StrLe(o, b)) :: a == b by {
      forall a, b | a in keys && b in keys && (forall o :: o in keys ==> StrLe(o, a))
        && (forall o :: o in keys ==> StrLe(o, b))
        ensures a == b
      {
        StrLeAntisymmetric(a, b);
      }
    }
    var top :| top in keys && forall o :: o in keys ==> StrLe(o, top);
    top
  }

  /** The keys in ascending order: how a map keyed by text is walked. */
  function SortedKeys(keys: set<string>): (s: seq<string>)
    ensures forall k :: k in s <==> k in keys
  {
    if keys == {} then []
    else
      var top := Greatest(keys);
      SortedKeys(keys - {top}) + [top]
  }

  /** Replaces every non-overlapping occurrence of `from`, left to right. */
  function Replace(s: string, from: string, to: string): string
    requires from != []
    decreases |s|
  {
    if |s| < |from| then s
    else if from <= s then to + Replace(s[|from|..], from, to)
    else [s[0]] + Replace(s[1..], from, to)
  }

  /** `needle` starts somewhere in `s`. */
  predicate Contains(s: string, needle: string) {
    needle <= s || (s != [] && Contains(s[1..], needle))
  }

  lemma {:induction false} ReplaceAbsent(s: string, from: string, to: string)
    requires from != [] && !Contains(s, from)
    ensures Replace(s, from, to) == s
    decreases |s|
  {
    if |s| >= |from| {
      ReplaceAbsent(s[1..], from, to);
      assert s == [s[0]] + s[1..];
    }
  }

  /** The pieces of `s` between separators; one more than there are separators. */
  function Split(s: string, sep: char): (parts: seq<string>)
    ensures |parts| > 0
  {
    if s == [] then [""]
    else
      var rest := Split(s[1..], sep);
      if s[0] == sep then [""] + rest else [[s[0]] + rest[0]] + rest[1..]
  }

  lemma {:induction false} SplitWhole(s: string, sep: char)
    requires sep !in s
    ensures Split(s, sep) == [s]
  {
    if s != [] {
      SplitWhole(s[1..], sep);
      assert s == [s[0]] + s[1..];
    }
  }

  lemma {:induction false} SplitFirst(a: string, sep: char, b: string)
    requires sep !in a
    ensures Split(a + [sep] + b, sep) == [a] + Split(b, sep)
  {
    var s := a + [sep] + b;
    if a == [] {
      assert s[1..] == b;
    } else {
      SplitFirst(a[1..], sep, b);
      assert s[1..] == a[1..] + [sep] + b;
      assert a == [a[0]] + a[1..];
    }
  }

  // ---------------------------------------------------------------- bytes

  function ByteLengthOf(c: char): (n: nat)
    ensures n > 0
  {
    if c as int < 0x80 then 1 else if c as int < 0x800 then 2 else if c as int < 0x1_0000 then 3 else 4
  }

  /** The length of the text's UTF-8 bytes. */
  function ByteLength(s: string): nat {
    if s == [] then 0 else ByteLengthOf(s[0]) + ByteLength(s[1..])
  }
}
