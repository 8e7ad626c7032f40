/** The names and keys of the Registry, and what of them is safe to print. */
module RegistryNames {
  import opened Text
  import opened Numbers

  const INVALID_NAME := "<invalid-name>"
  const MAX_KEY := 128

  predicate IsLower(c: char) {
    'a' <= c <= 'z'
  }

  predicate IsUpper(c: char) {
    'A' <= c <= 'Z'
  }

  predicate IsAlphanumeric(c: char) {
    IsLower(c) || IsUpper(c) || IsDigit(c)
  }

  predicate IsFieldName(name: string) {
    |name| <= 63 && name != [] && IsLower(name[0]) && forall c :: c in name ==> IsAlphanumeric(c)
  }

  predicate SlugPart(part: string) {
    part != [] && forall c :: c in part ==> IsLower(c) || IsDigit(c)
  }

  predicate IsSlug(name: string) {
    name != [] && |name| <= 63 && forall part :: part in Split(name, '-') ==> SlugPart(part)
  }

  predicate KeyChar(c: char) {
    IsAlphanumeric(c) || c == '.' || c == '_' || c == '@' || c == '+' || c == '-'
  }

  predicate IsKeyValue(key: string) {
    |key| <= MAX_KEY && key != [] && IsAlphanumeric(key[0]) && forall c :: c in key ==> KeyChar(c)
  }

  function LowerChar(c: char): char {
    if IsUpper(c) then ((c as int) - 'A' as int + 'a' as int) as char else c
  }

  /** ASCII lower case. */
  function Lower(s: string): string {
    seq(|s|, i requires 0 <= i < |s| => LowerChar(s[i]))
  }

  /** Case does not decide whether a text is a key. */
  lemma LowerKeepsKey(s: string)
    ensures IsKeyValue(Lower(s)) <==> IsKeyValue(s)
  {
    assert forall i :: 0 <= i < |s| ==>
      (IsAlphanumeric(Lower(s)[i]) <==> IsAlphanumeric(s[i])) && (KeyChar(Lower(s)[i]) <==> KeyChar(s[i]));
    if IsKeyValue(s) {
      forall c | c in Lower(s) ensures KeyChar(c) {
        var i :| 0 <= i < |s| && Lower(s)[i] == c;
        assert s[i] in s;
      }
    }
    if IsKeyValue(Lower(s)) {
      forall c | c in s ensures KeyChar(c) {
        var i :| 0 <= i < |s| && s[i] == c;
        assert Lower(s)[i] in Lower(s);
      }
    }
  }

  /** The characters of a text are its separators and those of its parts. */
  lemma {:induction false} SplitMembers(s: string, sep: char, c: char)
    requires c in s
    ensures c == sep || exists part :: part in Split(s, sep) && c in part
  {
    var rest := Split(s[1..], sep);
    if c == s[0] {
      if c != sep { assert ([s[0]] + rest[0]) in Split(s, sep); }
    } else {
      assert c in s[1..];
      SplitMembers(s[1..], sep, c);
      if c != sep {
        var part :| part in rest && c in part;
        if part == rest[0] {
          assert s[0] != sep ==> ([s[0]] + rest[0]) in Split(s, sep) && c in [s[0]] + rest[0];
          assert s[0] == sep ==> part in Split(s, sep);
        } else {
          assert part in rest[1..];
          assert part in Split(s, sep);
        }
      }
    }
  }

  /** A slug has no slash, so a reference splits at its type. */
  lemma SlugHasNoSlash(name: string)
    requires IsSlug(name)
    ensures '/' !in name
  {
    if '/' in name {
      SplitMembers(name, '-', '/');
    }
  }

  // ------------------------------------------------------- safe to print

  /** A map key that is not a plain field name is never printed. */
  function SafeKey(key: string): string {
    if IsFieldName(key) then key else INVALID_NAME
  }

  /** What a printed pointer may consist of. */
  predicate SafeSegment(segment: string) {
    segment == [] || AllDigits(segment) || IsFieldName(segment)
  }

  function SanitizeSegment(segment: string): string {
    if SafeSegment(segment) then segment else INVALID_NAME
  }

  function SanitizeAll(segments: seq<string>): seq<string> {
    seq(|segments|, i requires 0 <= i < |segments| => SanitizeSegment(segments[i]))
  }

  function JoinWith(parts: seq<string>, sep: char): string
    requires parts != []
  {
    if |parts| == 1 then parts[0] else parts[0] + [sep] + JoinWith(parts[1..], sep)
  }

  /** A JSON pointer without any segment that could carry a credential. */
  function SanitizePointer(pointer: string): string {
    JoinWith(SanitizeAll(Split(pointer, '/')), '/')
  }

  lemma {:induction false} SplitJoin(parts: seq<string>, sep: char)
    requires parts != [] && forall part :: part in parts ==> sep !in part
    ensures Split(JoinWith(parts, sep), sep) == parts
  {
    assert parts[0] in parts;
    if |parts| == 1 {
      SplitWhole(parts[0], sep);
    } else {
      assert forall part :: part in parts[1..] ==> part in parts;
      SplitJoin(parts[1..], sep);
      SplitFirst(parts[0], sep, JoinWith(parts[1..], sep));
    }
  }

  lemma {:induction false} SplitPartsAvoid(s: string, sep: char)
    ensures forall part :: part in Split(s, sep) ==> sep !in part
  {
    if s != [] {
      SplitPartsAvoid(s[1..], sep);
      var rest := Split(s[1..], sep);
      assert rest[0] in rest;
      assert forall part :: part in rest[1..] ==> part in rest;
    }
  }

  lemma SanitizedAvoidsSlash(segment: string)
    requires '/' !in segment
    ensures '/' !in SanitizeSegment(segment)
  {
  }

  /** A printed pointer has the segments of the original, each kept if it is
      empty, a number or a field name and replaced otherwise; printing it again
      changes nothing but its placeholders, which it keeps. */
  lemma SanitizedSegments(pointer: string)
    ensures Split(SanitizePointer(pointer), '/') == SanitizeAll(Split(pointer, '/'))
    ensures |Split(SanitizePointer(pointer), '/')| == |Split(pointer, '/')|
    ensures forall s :: s in Split(SanitizePointer(pointer), '/') ==> SafeSegment(s) || s == "<invalid-name>"
  {
    SplitPartsAvoid(pointer, '/');
    var parts := SanitizeAll(Split(pointer, '/'));
    forall part | part in parts ensures '/' !in part {
      var i :| 0 <= i < |parts| && parts[i] == part;
      assert Split(pointer, '/')[i] in Split(pointer, '/');
      SanitizedAvoidsSlash(Split(pointer, '/')[i]);
    }
    SplitJoin(parts, '/');
  }

  lemma SanitizeTwice(pointer: string)
    ensures SanitizePointer(SanitizePointer(pointer)) == SanitizePointer(pointer)
  {
    SanitizedSegments(pointer);
    assert SanitizeAll(SanitizeAll(Split(pointer, '/'))) == SanitizeAll(Split(pointer, '/'));
  }
}
