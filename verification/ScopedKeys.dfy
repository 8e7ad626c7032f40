/** Idempotency keys scoped to their caller. */
module ScopedKeys {
  import opened Numbers
  import opened Text
  import opened TextSearch

  // ------------------------------------------------------------- building

  /** A part with its length in front. */
  function Field(part: string): string {
    [':'] + (Decimal(ByteLength(part)) + [':'] + part)
  }

  /** Every part with its length but the last, which the end delimits. */
  function Scope(parts: seq<string>): string
    requires parts != []
  {
    if |parts| == 1 then [':'] + parts[0] else Field(parts[0]) + Scope(parts[1..])
  }

  function ScopedKey(kind: string, principal: string, parts: seq<string>): string {
    kind + Scope([principal] + parts)
  }

  method BuildScopedKey(kind: string, principal: string, parts: seq<string>) returns (scoped: string)
    requires parts != []
    ensures scoped == ScopedKey(kind, principal, parts)
  {
    var last, leading := parts[|parts| - 1], parts[..|parts| - 1];
    ghost var all := [principal] + parts;
    scoped := kind + Field(principal);
    assert all[1..] == parts && parts[0..] == parts;
    for i := 0 to |leading|
      invariant scoped + Scope(parts[i..]) == kind + Scope(all)
    {
      assert parts[i..][1..] == parts[i + 1..];
      assert (scoped + Field(parts[i])) + Scope(parts[i + 1..]) == scoped + (Field(parts[i]) + Scope(parts[i + 1..]));
      scoped := scoped + Field(leading[i]);
    }
    assert parts[|leading|..] == [last];
    scoped := scoped + ([':'] + last);
  }

  // ------------------------------------------------------------ injective

  /** Two texts that begin one text and have one length in bytes are the same. */
  lemma {:induction false} SamePrefix(a: string, x: string, b: string, y: string)
    requires a + x == b + y && ByteLength(a) == ByteLength(b)
    ensures a == b && x == y
  {
    if a != [] && b != [] {
      assert (a + x)[0] == a[0] && (b + y)[0] == b[0];
      assert (a + x)[1..] == a[1..] + x && (b + y)[1..] == b[1..] + y;
      SamePrefix(a[1..], x, b[1..], y);
      assert a == [a[0]] + a[1..] && b == [b[0]] + b[1..];
    } else {
      assert a == [] && b == [];
      assert a + x == x && b + y == y;
    }
  }

  lemma FieldRead(a: string, x: string, b: string, y: string)
    requires Field(a) + x == Field(b) + y
    ensures a == b && x == y
  {
    var m, n := Decimal(ByteLength(a)), Decimal(ByteLength(b));
    assert (Field(a) + x)[1..] == m + [':'] + (a + x) && (Field(b) + y)[1..] == n + [':'] + (b + y);
    SplitOnceAt(m, ':', a + x);
    SplitOnceAt(n, ':', b + y);
    DecimalValue(ByteLength(a));
    DecimalValue(ByteLength(b));
    SamePrefix(a, x, b, y);
  }

  lemma {:induction false} ScopeInjective(a: seq<string>, b: seq<string>)
    requires |a| == |b| > 0 && Scope(a) == Scope(b)
    ensures a == b
  {
    if |a| == 1 {
      assert Scope(a)[1..] == a[0] && Scope(b)[1..] == b[0];
    } else {
      FieldRead(a[0], Scope(a[1..]), b[0], Scope(b[1..]));
      ScopeInjective(a[1..], b[1..]);
      assert a == [a[0]] + a[1..] && b == [b[0]] + b[1..];
    }
  }

  /** No two callers, and no two keys of one caller, share a scope, whatever
      colons they contain. */
  lemma ScopedKeyInjective(kind: string, principal: string, parts: seq<string>, kind2: string, principal2: string,
                           parts2: seq<string>)
    requires ':' !in kind && ':' !in kind2 && |parts| == |parts2|
    requires ScopedKey(kind, principal, parts) == ScopedKey(kind2, principal2, parts2)
    ensures kind == kind2 && principal == principal2 && parts == parts2
  {
    var a, b := [principal] + parts, [principal2] + parts2;
    assert Scope(a) == [':'] + Scope(a)[1..] && Scope(b) == [':'] + Scope(b)[1..];
    assert kind + Scope(a) == kind + [':'] + Scope(a)[1..] && kind2 + Scope(b) == kind2 + [':'] + Scope(b)[1..];
    SplitOnceAt(kind, ':', Scope(a)[1..]);
    SplitOnceAt(kind2, ':', Scope(b)[1..]);
    ScopeInjective(a, b);
    assert a[0] == principal && a[1..] == parts && b[0] == principal2 && b[1..] == parts2;
  }

  /** With a varying number of parts two scopes can be spelled the same. */
  lemma NumberOfPartsMatters(kind: string, principal: string, part: string, key: string)
    ensures ScopedKey(kind, principal, [part, key])
         == ScopedKey(kind, principal, [Decimal(ByteLength(part)) + [':'] + part + [':'] + key])
  {
    var joined := Decimal(ByteLength(part)) + [':'] + part + [':'] + key;
    assert [part, key][1..] == [key];
    assert Scope([part, key]) == Field(part) + ([':'] + key);
    assert Field(part) + ([':'] + key) == [':'] + joined;
    ScopeOf(principal, [part, key]);
    ScopeOf(principal, [joined]);
  }

  lemma ScopeOf(principal: string, parts: seq<string>)
    requires parts != []
    ensures Scope([principal] + parts) == Field(principal) + Scope(parts)
  {
    assert ([principal] + parts)[1..] == parts;
  }
}
