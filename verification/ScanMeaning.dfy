/** What a clean credential scan means: nothing anywhere in the spec is
    recognized. */
module ScanMeaning {
  import opened Text
  import opened JsonValues
  import opened Diagnostics
  import opened RegistryScan
  import opened ScanPrivacy

  // --------------------------------------------- texts and keys, everywhere

  /** The text is a string of the value or a key in it, at whatever depth. */
  ghost predicate Mentions(value: Json, text: string)
    decreases value
  {
    match value
    case Str(own) => own == text
    case Arr(items) => exists i :: 0 <= i < |items| && Mentions(items[i], text)
    case Obj(fields) => text in fields || exists k :: k in fields && Mentions(fields[k], text)
    case _ => false
  }

  /** The text is among the strings found. */
  predicate Says(found: seq<Found>, text: string) {
    exists i :: 0 <= i < |found| && found[i].text == text
  }

  lemma SaysSum(a: seq<Found>, b: seq<Found>, text: string)
    ensures Says(a + b, text) <==> Says(a, text) || Says(b, text)
  {
    if Says(a, text) {
      var i :| 0 <= i < |a| && a[i].text == text;
      assert (a + b)[i] == a[i];
    }
    if Says(b, text) {
      var i :| 0 <= i < |b| && b[i].text == text;
      assert (a + b)[|a| + i] == b[i];
    }
  }

  lemma SaysOne(path: Path, own: string, text: string)
    ensures Says([Found(path, own)], text) <==> own == text
  {
    assert [Found(path, own)][0].text == own;
  }

  /** The strings collected from a value are all its texts and keys. */
  lemma {:induction false} StringsMention(value: Json, path: Path, text: string)
    ensures Says(Strings(value, path), text) <==> Mentions(value, text)
    decreases value, 2, 0
  {
    match value
    case Str(own) => SaysOne(path, own, text);
    case Arr(items) => ItemsMention(value, |items|, path, text);
    case Obj(fields) => MembersMention(value, SortedKeys(fields.Keys), path, text);
    case _ =>
  }

  lemma {:induction false} ItemsMention(list: Json, n: nat, path: Path, text: string)
    requires list.Arr? && n <= |list.items|
    ensures Says(StringsOfItems(list, n, path), text) <==> exists i :: 0 <= i < n && Mentions(list.items[i], text)
    decreases list, 1, n
  {
    if n > 0 {
      ItemsMention(list, n - 1, path, text);
      StringsMention(list.items[n - 1], path + [Index(n - 1)], text);
      SaysSum(StringsOfItems(list, n - 1, path), Strings(list.items[n - 1], path + [Index(n - 1)]), text);
    }
  }

  /** The key, or something under it, is the text. */
  ghost predicate MentionedUnder(owner: Json, key: string, text: string)
    requires owner.Obj? && key in owner.fields
  {
    key == text || Mentions(owner.fields[key], text)
  }

  lemma {:induction false} MembersMention(owner: Json, keys: seq<string>, path: Path, text: string)
    requires owner.Obj? && forall k :: k in keys ==> k in owner.fields
    ensures Says(StringsOfMembers(owner, keys, path), text) <==> exists k :: k in keys && MentionedUnder(owner, k, text)
    decreases owner, 1, |keys|
  {
    if keys != [] {
      var before, key := keys[..|keys| - 1], keys[|keys| - 1];
      assert keys == before + [key];
      MembersMention(owner, before, path, text);
      StringsMention(owner.fields[key], MemberPath(path, key), text);
      OneMemberMentions(owner, before, key, path, text);
      assert Says(StringsOfMembers(owner, keys, path), text) <==>
        Says(StringsOfMembers(owner, before, path), text) || MentionedUnder(owner, key, text);
      assert forall k :: k in keys <==> k == key || k in before;
    }
  }

  lemma OneMemberMentions(owner: Json, before: seq<string>, key: string, path: Path, text: string)
    requires owner.Obj? && key in owner.fields && forall k :: k in before ==> k in owner.fields
    ensures forall k :: k in before + [key] ==> k in owner.fields
    ensures Says(StringsOfMembers(owner, before + [key], path), text) <==>
      Says(StringsOfMembers(owner, before, path), text) || key == text
        || Says(Strings(owner.fields[key], MemberPath(path, key)), text)
  {
    var keys, own := before + [key], [Found(MemberPath(path, key), key)];
    var first, last := StringsOfMembers(owner, before, path), Strings(owner.fields[key], MemberPath(path, key));
    assert keys != [] && keys[..|keys| - 1] == before && keys[|keys| - 1] == key;
    SaysSum(first + own, last, text);
    SaysSum(first, own, text);
    SaysOne(MemberPath(path, key), key, text);
  }

  // ------------------------------------------------------- the clean scan

  lemma {:induction false} NoStringErrors(carries: Scrubber, base: string, found: seq<Found>)
    ensures StringErrors(carries, base, found) == [] <==> forall f :: f in found ==> !carries(f.text)
  {
    if found != [] {
      var before := found[..|found| - 1];
      assert found == before + [found[|found| - 1]];
      NoStringErrors(carries, base, before);
    }
  }

  /** No text or key of the spec is recognized. */
  ghost predicate NothingRecognized(carries: Scrubber, spec: Json) {
    forall text :: Mentions(spec, text) ==> !carries(text)
  }

  lemma StringsCleanIff(carries: Scrubber, base: string, spec: Json)
    ensures StringErrors(carries, base, Strings(spec, [Key("spec")])) == [] <==> NothingRecognized(carries, spec)
  {
    var found := Strings(spec, [Key("spec")]);
    NoStringErrors(carries, base, found);
    forall text ensures Says(found, text) <==> Mentions(spec, text) {
      StringsMention(spec, [Key("spec")], text);
    }
    if forall f :: f in found ==> !carries(f.text) {
      forall text | Says(found, text) ensures !carries(text) {
        var i :| 0 <= i < |found| && found[i].text == text;
        assert found[i] in found;
      }
    } else {
      var i :| 0 <= i < |found| && carries(found[i].text);
      assert Says(found, found[i].text);
    }
  }

  /** A field's own text, or one in its list. */
  predicate HoldsText(value: Json, text: string) {
    value == Str(text) || (value.Arr? && Str(text) in value.items)
  }

  /** No field's name is recognized together with a text it holds. */
  ghost predicate NoPairRecognized(carries: Scrubber, fields: map<string, Json>) {
    forall name, text :: name in fields && HoldsText(fields[name], text) ==> !carries(Joined(name, text))
  }

  lemma {:induction false} NoPairErrors(carries: Scrubber, base: string, name: string, items: seq<(Path, Json)>)
    ensures PairErrors(carries, base, name, items) == [] <==>
      forall item :: item in items ==> !PairCarries(carries, name, item.1)
  {
    if items != [] {
      var before, last := items[..|items| - 1], items[|items| - 1];
      NoPairErrors(carries, base, name, before);
      assert items == before + [last];
    }
  }

  /** One field's pairs are not recognized. */
  ghost predicate FieldClean(carries: Scrubber, name: string, value: Json) {
    forall text :: HoldsText(value, text) ==> !carries(Joined(name, text))
  }

  lemma FieldCleanIff(carries: Scrubber, base: string, name: string, value: Json)
    ensures PairErrors(carries, base, name, FieldItems(name, value)) == [] <==> FieldClean(carries, name, value)
  {
    var items := FieldItems(name, value);
    NoPairErrors(carries, base, name, items);
    if FieldClean(carries, name, value) {
      forall item | item in items ensures !PairCarries(carries, name, item.1) {
        assert item.1.Str? ==> HoldsText(value, item.1.str);
      }
    }
    if forall item :: item in items ==> !PairCarries(carries, name, item.1) {
      forall text | HoldsText(value, text) ensures !carries(Joined(name, text)) {
        TextItem(name, value, text);
      }
    }
  }

  lemma TextItem(name: string, value: Json, text: string)
    requires HoldsText(value, text)
    ensures exists i :: 0 <= i < |FieldItems(name, value)| && FieldItems(name, value)[i].1 == Str(text)
  {
    if value.Arr? {
      var i :| 0 <= i < |value.items| && value.items[i] == Str(text);
      assert FieldItems(name, value)[i].1 == Str(text);
    } else {
      assert FieldItems(name, value)[0].1 == Str(text);
    }
  }

  lemma {:induction false} NoFieldErrors(carries: Scrubber, base: string, fields: map<string, Json>, keys: seq<string>)
    requires forall k :: k in keys ==> k in fields
    ensures FieldErrors(carries, base, fields, keys) == [] <==>
      forall k :: k in keys ==> FieldClean(carries, k, fields[k])
  {
    if keys != [] {
      var before, key := keys[..|keys| - 1], keys[|keys| - 1];
      assert keys == before + [key];
      NoFieldErrors(carries, base, fields, before);
      FieldCleanIff(carries, base, key, fields[key]);
      assert forall k :: k in keys <==> k == key || k in before;
    }
  }

  lemma FieldsCleanIff(carries: Scrubber, base: string, fields: map<string, Json>)
    ensures FieldErrors(carries, base, fields, SortedKeys(fields.Keys)) == [] <==> NoPairRecognized(carries, fields)
  {
    var keys := SortedKeys(fields.Keys);
    NoFieldErrors(carries, base, fields, keys);
    assert forall k :: k in keys <==> k in fields;
  }

  lemma {:induction false} NoLinkErrors(carries: Scrubber, base: string, links: seq<Json>)
    ensures LinkErrors(carries, base, links) == [] <==> forall link :: link in links ==> !LinkCarries(carries, link)
  {
    if links != [] {
      var before := links[..|links| - 1];
      assert links == before + [links[|links| - 1]];
      NoLinkErrors(carries, base, before);
    }
  }

  /** Nothing is reported iff no text and no key at any depth of the spec is
      recognized, and no field name joined with a text of the field, nor link
      label joined with its URL, is. */
  lemma ScanCleanIff(carries: Scrubber, base: string, spec: Json)
    ensures ScanErrors(carries, base, spec) == [] <==>
      && NothingRecognized(carries, spec) && NoPairRecognized(carries, FieldsOf(spec))
      && forall link :: link in AsArr(Get(spec, "links")) ==> !LinkCarries(carries, link)
  {
    StringsCleanIff(carries, base, spec);
    FieldsCleanIff(carries, base, FieldsOf(spec));
    NoLinkErrors(carries, base, AsArr(Get(spec, "links")));
  }
}
