/** The texts that names, keys and identities may be, written out character by
    character. */
module TextGrammars {
  import opened Text
  import opened TextSearch
  import opened RegistryNames
  import opened Registry
  import opened DocumentChecks

  predicate Letter(c: char) {
    'a' <= c <= 'z' || 'A' <= c <= 'Z'
  }

  predicate Small(c: char) {
    'a' <= c <= 'z' || '0' <= c <= '9'
  }

  predicate Hex(c: char) {
    '0' <= c <= '9' || 'a' <= c <= 'f'
  }

  // ------------------------------------------------------------------- slugs

  /** Letters, digits and single hyphens, no hyphen at the end. */
  predicate Hyphenated(s: string) {
    && (forall c :: c in s ==> Small(c) || c == '-')
    && (forall i :: 0 <= i < |s| - 1 && s[i] == '-' ==> s[i + 1] != '-')
    && (s != "" ==> s[|s| - 1] != '-')
  }

  predicate PartChars(part: string) {
    forall c :: c in part ==> Small(c)
  }

  lemma HyphenatedStep(s: string)
    requires s != ""
    ensures Hyphenated(s) <==>
      && (Small(s[0]) || s[0] == '-') && Hyphenated(s[1..])
      && (s[0] == '-' ==> s[1..] != "" && s[1..][0] != '-')
  {
    var rest := s[1..];
    assert s == [s[0]] + rest;
    assert forall i :: 0 <= i < |rest| ==> rest[i] == s[i + 1];
    if Hyphenated(s) {
      forall i | 0 <= i < |rest| - 1 && rest[i] == '-' ensures rest[i + 1] != '-' {
        assert s[i + 1] == '-';
      }
    }
    if Hyphenated(rest) && (s[0] == '-' ==> rest != "" && rest[0] != '-') {
      forall i | 0 <= i < |s| - 1 && s[i] == '-' ensures s[i + 1] != '-' {
        if i > 0 { assert rest[i - 1] == '-'; }
      }
    }
  }

  /** All parts between hyphens are slug parts but perhaps the first, which may be
      empty. */
  predicate PartsFrom(parts: seq<string>) {
    parts != [] && PartChars(parts[0]) && forall part :: part in parts[1..] ==> SlugPart(part)
  }

  lemma {:induction false} PartsIff(s: string)
    ensures PartsFrom(Split(s, '-')) <==> Hyphenated(s)
    ensures Split(s, '-')[0] != "" <==> s != "" && s[0] != '-'
  {
    if s != "" {
      var rest := Split(s[1..], '-');
      PartsIff(s[1..]);
      HyphenatedStep(s);
      if s[0] == '-' {
        assert Split(s, '-') == [""] + rest && ([""] + rest)[1..] == rest;
        assert rest == [rest[0]] + rest[1..];
        assert (forall part :: part in rest ==> SlugPart(part)) <==>
          SlugPart(rest[0]) && forall part :: part in rest[1..] ==> SlugPart(part);
      } else {
        var first := [s[0]] + rest[0];
        assert Split(s, '-') == [first] + rest[1..] && ([first] + rest[1..])[1..] == rest[1..];
        assert PartChars(first) <==> Small(s[0]) && PartChars(rest[0]) by {
          assert s[0] in first;
          assert forall c :: c in rest[0] ==> c in first;
        }
      }
    }
  }

  /** A slug: one to 63 lower-case letters, digits and hyphens, each hyphen between
      two others. */
  lemma SlugIff(name: string)
    ensures IsSlug(name) <==> 1 <= |name| <= 63 && name[0] != '-' && Hyphenated(name)
  {
    var parts := Split(name, '-');
    PartsIff(name);
    assert parts == [parts[0]] + parts[1..];
    assert (forall part :: part in parts ==> SlugPart(part)) <==>
      SlugPart(parts[0]) && forall part :: part in parts[1..] ==> SlugPart(part);
  }

  // -------------------------------------------------------- keys and fields

  /** A field name: at most 63 letters and digits, a lower-case letter first. */
  lemma FieldNameIff(name: string)
    ensures IsFieldName(name) <==>
      1 <= |name| <= 63 && 'a' <= name[0] <= 'z' && forall c :: c in name ==> Letter(c) || '0' <= c <= '9'
  {
  }

  /** A key: at most 128 letters, digits and `._@+-`, a letter or digit first. */
  lemma KeyIff(key: string)
    ensures IsKeyValue(key) <==>
      && 1 <= |key| <= 128 && (Letter(key[0]) || '0' <= key[0] <= '9')
      && forall c :: c in key ==> Letter(c) || '0' <= c <= '9' || c in {'.', '_', '@', '+', '-'}
  {
  }

  /** A reference outside Fleet: 1 to 128 bytes, no white space, no control. */
  lemma ExternalIdIff(id: string)
    ensures IsExternalId(id) <==>
      && id != "" && ByteLength(id) <= 128
      && forall c :: c in id ==> !IsWhitespace(c) && !(c < ' ') && !('\U{7f}' <= c <= '\U{9f}')
  {
  }

  // -------------------------------------------------------------- identities

  predicate HexText(text: string, length: nat) {
    |text| == length && forall c :: c in text ==> Hex(c)
  }

  ghost predicate Version7(text: string, a: string, b: string, c: string, d: string, e: string) {
    && HexText(a, 8) && HexText(b, 4) && HexText(c, 3) && HexText(d, 4) && HexText(e, 12)
    && text == a + "-" + b + "-7" + c + "-" + d + "-" + e
  }

  lemma HexSlice(text: string, from: nat, to: nat)
    requires from <= to <= |text| && forall i :: from <= i < to ==> LowerHexChar(text[i])
    ensures HexText(text[from..to], to - from)
  {
    forall c | c in text[from..to] ensures Hex(c) {
      var i :| 0 <= i < to - from && text[from..to][i] == c;
      assert text[from + i] == c;
    }
  }

  /** An identity of a resource: a hyphenated lower-case UUID of version 7. */
  lemma ResourceIdIs(text: string) returns (a: string, b: string, c: string, d: string, e: string)
    requires IsResourceId(text)
    ensures Version7(text, a, b, c, d, e)
  {
    a, b, c, d, e := text[..8], text[9..13], text[15..18], text[19..23], text[24..36];
    HexSlice(text, 0, 8);
    HexSlice(text, 9, 13);
    HexSlice(text, 15, 18);
    HexSlice(text, 19, 23);
    HexSlice(text, 24, 36);
    assert text[..8] == text[0..8];
    assert text[8] == '-' && text[13] == '-' && text[14] == '7' && text[18] == '-' && text[23] == '-';
  }

  lemma HexAt(part: string, length: nat, i: nat)
    requires HexText(part, length) && i < length
    ensures LowerHexChar(part[i])
  {
    assert part[i] in part;
  }

  lemma ResourceIdMade(text: string, a: string, b: string, c: string, d: string, e: string)
    requires Version7(text, a, b, c, d, e)
    ensures IsResourceId(text)
  {
    assert |text| == 36;
    assert text[8] == '-' && text[13] == '-' && text[14] == '7' && text[18] == '-' && text[23] == '-';
    forall i | 0 <= i < 36
      ensures if i == 8 || i == 13 || i == 18 || i == 23 then text[i] == '-' else LowerHexChar(text[i])
    {
      if i < 8 {
        HexAt(a, 8, i);
      } else if 8 < i < 13 {
        HexAt(b, 4, i - 9);
      } else if 14 < i < 18 {
        HexAt(c, 3, i - 15);
      } else if 18 < i < 23 {
        HexAt(d, 4, i - 19);
      } else if 23 < i {
        HexAt(e, 12, i - 24);
      }
    }
  }
}
