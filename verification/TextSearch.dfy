/** Finding, trimming and splitting text. */
module TextSearch {
  import opened Wrappers
  import opened Text

  /** Where `needle` first starts in `s`. */
  function Find(s: string, needle: string): (at: Option<nat>)
    ensures at.Some? ==> at.value + |needle| <= |s|
  {
    if needle <= s then Some(0)
    else if s == [] then None
    else match Find(s[1..], needle)
      case Some(i) => Some(i + 1)
      case None => None
  }

  /** `needle` starts at `i` in `s`. */
  predicate StartsAt(s: string, needle: string, i: nat) {
    i + |needle| <= |s| && s[i..i + |needle|] == needle
  }

  lemma {:induction false} FoundThere(s: string, needle: string)
    ensures Find(s, needle).Some? ==> StartsAt(s, needle, Find(s, needle).value)
  {
    if !(needle <= s) && s != [] {
      FoundThere(s[1..], needle);
      if Find(s[1..], needle).Some? {
        var i := Find(s[1..], needle).value;
        assert s[1..][i..i + |needle|] == s[i + 1..i + 1 + |needle|];
      }
    }
  }

  lemma StartsAtShift(s: string, needle: string, i: nat)
    requires s != []
    ensures StartsAt(s[1..], needle, i) <==> StartsAt(s, needle, i + 1)
    ensures needle <= s <==> StartsAt(s, needle, 0)
  {
    if i + 1 + |needle| <= |s| {
      assert s[1..][i..i + |needle|] == s[i + 1..i + 1 + |needle|];
    }
    if |needle| <= |s| {
      assert s[0..0 + |needle|] == s[..|needle|];
    }
  }

  lemma {:induction false} FindFirst(s: string, needle: string, i: nat)
    requires StartsAt(s, needle, i) && forall j: nat :: j < i ==> !StartsAt(s, needle, j)
    ensures Find(s, needle) == Some(i)
  {
    if s == [] {
      assert needle == [];
    } else {
      StartsAtShift(s, needle, 0);
      if i > 0 {
        StartsAtShift(s, needle, i - 1);
        forall j: nat | j < i - 1 ensures !StartsAt(s[1..], needle, j) {
          StartsAtShift(s, needle, j);
        }
        FindFirst(s[1..], needle, i - 1);
      }
    }
  }

  lemma {:induction false} StartsContains(s: string, needle: string, i: nat)
    requires StartsAt(s, needle, i)
    ensures Contains(s, needle)
  {
    if s != [] {
      StartsAtShift(s, needle, 0);
      if i > 0 {
        StartsAtShift(s, needle, i - 1);
        StartsContains(s[1..], needle, i - 1);
      }
    }
  }

  predicate IsWhitespace(c: char) {
    || '\U{9}' <= c <= '\U{d}' || c == ' ' || c == '\U{85}' || c == '\U{a0}' || c == '\U{1680}'
    || '\U{2000}' <= c <= '\U{200a}' || c == '\U{2028}' || c == '\U{2029}' || c == '\U{202f}'
    || c == '\U{205f}' || c == '\U{3000}'
  }

  predicate Dense(s: string) {
    forall c :: c in s ==> !IsWhitespace(c)
  }

  function TrimStart(s: string): (r: string)
    ensures |r| <= |s| && (r != [] ==> !IsWhitespace(r[0]))
  {
    if s != [] && IsWhitespace(s[0]) then TrimStart(s[1..]) else s
  }

  function TrimEnd(s: string): string {
    if s != [] && IsWhitespace(s[|s| - 1]) then TrimEnd(s[..|s| - 1]) else s
  }

  function Trim(s: string): string {
    TrimEnd(TrimStart(s))
  }

  /** Text without white space at either end. */
  predicate Trimmed(s: string) {
    s != [] ==> !IsWhitespace(s[0]) && !IsWhitespace(s[|s| - 1])
  }

  function TokenEnd(s: string): (n: nat)
    ensures n <= |s| && Dense(s[..n]) && (n < |s| ==> IsWhitespace(s[n]))
  {
    if s == [] || IsWhitespace(s[0]) then 0
    else
      var n := 1 + TokenEnd(s[1..]);
      assert s[..n] == [s[0]] + s[1..][..n - 1];
      n
  }

  function SplitWhitespace(s: string): (tokens: seq<string>)
    ensures forall t :: t in tokens ==> t != [] && Dense(t)
    decreases |s|
  {
    var t := TrimStart(s);
    if t == [] then []
    else
      var n := TokenEnd(t);
      [t[..n]] + SplitWhitespace(t[n..])
  }

  function SplitOnce(s: string, sep: char): (r: Option<(string, string)>)
    ensures r.Some? ==> s == r.value.0 + [sep] + r.value.1 && sep !in r.value.0
    ensures r.None? <==> sep !in s
  {
    if s == [] then None
    else if s[0] == sep then Some(("", s[1..]))
    else match SplitOnce(s[1..], sep)
      case Some((a, b)) =>
        assert s == [s[0]] + s[1..];
        Some(([s[0]] + a, b))
      case None => None
  }

  lemma {:induction false} SplitOnceAt(a: string, sep: char, b: string)
    requires sep !in a
    ensures SplitOnce(a + [sep] + b, sep) == Some((a, b))
  {
    var s := a + [sep] + b;
    if a == [] {
      assert s[1..] == b;
    } else {
      assert s[1..] == a[1..] + [sep] + b && s[0] == a[0];
      SplitOnceAt(a[1..], sep, b);
      assert a == [a[0]] + a[1..];
    }
  }

  lemma {:induction false} DenseTokenEnd(t: string, rest: string)
    requires Dense(t) && (rest != [] ==> IsWhitespace(rest[0]))
    ensures TokenEnd(t + rest) == |t|
  {
    if t == [] {
      assert t + rest == rest;
    } else {
      assert (t + rest)[1..] == t[1..] + rest;
      DenseTokenEnd(t[1..], rest);
    }
  }

  /** Tokens, each followed by a space. */
  function Spaced(tokens: seq<string>): string {
    if tokens == [] then "" else tokens[0] + [' '] + Spaced(tokens[1..])
  }

  lemma {:induction false} SplitSpaced(tokens: seq<string>)
    requires forall t :: t in tokens ==> t != [] && Dense(t)
    ensures SplitWhitespace(Spaced(tokens)) == tokens
  {
    if tokens != [] {
      var t, rest := tokens[0], [' '] + Spaced(tokens[1..]);
      var s := Spaced(tokens);
      assert s == t + rest;
      DenseTokenEnd(t, rest);
      assert s[..|t|] == t && s[|t|..] == rest && TrimStart(s) == s;
      assert rest[1..] == Spaced(tokens[1..]);
      assert TrimStart(rest) == TrimStart(Spaced(tokens[1..]));
      assert forall x :: x in tokens[1..] ==> x in tokens;
      SplitSpaced(tokens[1..]);
      assert SplitWhitespace(rest) == SplitWhitespace(Spaced(tokens[1..]));
    }
  }

  predicate InNone(tokens: seq<string>, needle: string) {
    forall i :: 0 <= i < |tokens| ==> !Contains(tokens[i], needle)
  }

  /** A needle without a space, absent from every token, first occurs after
      the spaced tokens if it occurs right there. */
  lemma {:induction false} FindAfterSpaced(tokens: seq<string>, needle: string, rest: string)
    requires needle != [] && ' ' !in needle && needle <= rest && InNone(tokens, needle)
    ensures Find(Spaced(tokens) + rest, needle) == Some(|Spaced(tokens)|)
  {
    if tokens == [] {
      assert Spaced(tokens) + rest == rest;
    } else {
      var others := Spaced(tokens[1..]);
      FindAfterSpaced(tokens[1..], needle, rest);
      FirstSpaced(tokens, rest);
      FindAfterToken(tokens[0], needle, others + rest);
    }
  }

  lemma FirstSpaced(tokens: seq<string>, rest: string)
    requires tokens != []
    ensures Spaced(tokens) + rest == tokens[0] + [' '] + (Spaced(tokens[1..]) + rest)
    ensures |Spaced(tokens)| == |tokens[0]| + 1 + |Spaced(tokens[1..])|
  {
  }

  lemma {:induction false} FindAfterToken(t: string, needle: string, rest: string)
    requires needle != [] && ' ' !in needle && !Contains(t, needle)
    ensures Find(t + [' '] + rest, needle) == Later(Find(rest, needle), |t| + 1)
  {
    NotAtToken(t, needle, rest);
    var s := t + [' '] + rest;
    FindOneLater(s, needle);
    if t == [] {
      assert s[1..] == rest;
    } else {
      assert s[1..] == t[1..] + [' '] + rest;
      FindAfterToken(t[1..], needle, rest);
    }
  }

  function Later(at: Option<nat>, shift: nat): Option<nat> {
    match at case Some(i) => Some(shift + i) case None => None
  }

  lemma FindOneLater(s: string, needle: string)
    requires s != [] && !(needle <= s)
    ensures Find(s, needle) == Later(Find(s[1..], needle), 1)
  {
  }

  lemma NotAtToken(t: string, needle: string, rest: string)
    requires needle != [] && ' ' !in needle && !Contains(t, needle)
    ensures !(needle <= t + [' '] + rest)
  {
    if needle <= t + [' '] + rest { NotAcrossSpace(t, needle, rest); }
  }

  lemma NotAcrossSpace(t: string, needle: string, rest: string)
    requires ' ' !in needle && needle <= t + [' '] + rest
    ensures needle <= t
  {
    var s := t + [' '] + rest;
    assert s[|t|] == ' ' && needle == s[..|needle|];
    assert forall i :: 0 <= i < |needle| ==> needle[i] == s[i] && needle[i] in needle;
  }

  // ------------------------------------------------------------- borders

  /** No proper part of `m` both begins and ends it. */
  predicate Unbordered(m: string) {
    forall n :: 0 < n < |m| ==> m[..n] != m[|m| - n..]
  }

  /** A marker found across the seam of a prefix and itself has a border. */
  lemma AcrossSeam(prefix: string, marker: string, rest: string, j: nat)
    requires StartsAt(prefix + marker + rest, marker, j) && j < |prefix| < j + |marker|
    ensures !Unbordered(marker)
  {
    var s, n := prefix + marker + rest, j + |marker| - |prefix|;
    assert s[|prefix|..j + |marker|] == marker[..n];
    assert s[j..j + |marker|][|marker| - n..] == s[|prefix|..j + |marker|];
    assert 0 < n < |marker| && marker[..n] == marker[|marker| - n..];
  }

  /** After a prefix that does not contain it, an unbordered marker is found
      where it was put, not across the seam. */
  lemma FindUnbordered(prefix: string, marker: string, rest: string)
    requires marker != [] && Unbordered(marker) && !Contains(prefix, marker)
    ensures Find(prefix + marker + rest, marker) == Some(|prefix|)
  {
    var s := prefix + marker + rest;
    forall j: nat | j < |prefix| ensures !StartsAt(s, marker, j) {
      if StartsAt(s, marker, j) {
        if j + |marker| > |prefix| {
          AcrossSeam(prefix, marker, rest, j);
        } else {
          assert s[j..j + |marker|] == prefix[j..j + |marker|];
          StartsContains(prefix, marker, j);
        }
      }
    }
    FindFirst(s, marker, |prefix|);
  }
}
