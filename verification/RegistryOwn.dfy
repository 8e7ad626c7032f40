/** Each diagnostic of the Registry validator is about one document, and each check
    has codes of its own. */
module RegistryOwn {
  import opened Wrappers
  import opened JsonValues
  import opened Text
  import opened Diagnostics
  import opened Documents
  import opened Sequences
  import opened RegistryScan
  import opened RegistrySpecs
  import opened Registry
  import opened ReportFacts

  const TYPE_CODES := {CredentialValue, BuiltinRedefined, DuplicateType, InvalidType}
  const FIELD_CODES := {UnknownField, FieldType, DuplicateItem, MissingRequired, InvalidTag, InvalidLink}
  const ENTRY_CODES := FIELD_CODES + {CredentialValue, UnknownType, DuplicateKey, InvalidKey}
  const RELATION_CODES := {InvalidRelationType, RelationNotAllowed, InvalidTarget, UnknownTargetType}

  // ---------------------------------------------------------------- the scan

  lemma {:induction false} StringsOwn(carries: Scrubber, base: string, found: seq<Found>)
    ensures Own(StringErrors(carries, base, found), base, {CredentialValue})
  {
    if found != [] { StringsOwn(carries, base, found[..|found| - 1]); }
  }

  lemma {:induction false} PairsOwn(carries: Scrubber, base: string, name: string, items: seq<(Path, Json)>)
    ensures Own(PairErrors(carries, base, name, items), base, {CredentialValue})
  {
    if items != [] { PairsOwn(carries, base, name, items[..|items| - 1]); }
  }

  lemma {:induction false} FieldsOwn(carries: Scrubber, base: string, fields: map<string, Json>, keys: seq<string>)
    requires forall k :: k in keys ==> k in fields
    ensures Own(RegistryScan.FieldErrors(carries, base, fields, keys), base, {CredentialValue})
  {
    if keys != [] {
      var key := keys[|keys| - 1];
      FieldsOwn(carries, base, fields, keys[..|keys| - 1]);
      PairsOwn(carries, base, key, FieldItems(key, fields[key]));
    }
  }

  lemma {:induction false} LinksOwn(carries: Scrubber, base: string, links: seq<Json>)
    ensures Own(LinkErrors(carries, base, links), base, {CredentialValue})
  {
    if links != [] { LinksOwn(carries, base, links[..|links| - 1]); }
  }

  lemma ScanOwn(carries: Scrubber, base: string, spec: Json)
    ensures Own(ScanErrors(carries, base, spec), base, {CredentialValue})
  {
    StringsOwn(carries, base, Strings(spec, [Key("spec")]));
    FieldsOwn(carries, base, FieldsOf(spec), SortedKeys(FieldsOf(spec).Keys));
    LinksOwn(carries, base, AsArr(Get(spec, "links")));
  }

  // ------------------------------------------------------------------- types

  lemma {:induction false} FieldSpecsOwn(base: string, fields: map<string, FieldSpec>, names: seq<string>)
    requires forall name :: name in names ==> name in fields
    ensures Own(FieldSpecsErrors(base, fields, names), base, {InvalidType})
  {
    if names != [] {
      FieldSpecsOwn(base, fields, names[..|names| - 1]);
      OneFieldSpecOwn(base, names[|names| - 1], fields[names[|names| - 1]]);
    }
  }

  lemma OneFieldSpecOwn(base: string, name: string, field: FieldSpec)
    ensures Own(FieldSpecErrors(base, name, field), base, {InvalidType})
  {
  }

  lemma {:induction false} RelationTypesOwn(base: string, relations: seq<string>)
    ensures Own(RelationTypeErrors(base, relations), base, {InvalidType})
  {
    if relations != [] { RelationTypesOwn(base, relations[..|relations| - 1]); }
  }

  lemma DefinitionOwn(base: string, name: string, spec: TypeSpec)
    ensures Own(DefinitionErrors(base, name, spec), base, {InvalidType})
  {
    FieldSpecsOwn(base, spec.fields, SortedKeys(spec.fields.Keys));
    RelationTypesOwn(base, spec.relations);
    assert Own(KeyFieldErrors(base, name, spec), base, {InvalidType});
  }

  lemma OneTypeOwn(g: Grammars, builtin: set<string>, t: Types, e: Entry)
    ensures Own(TypeErrorsOf(g, builtin, t, e), e.base, TYPE_CODES)
  {
    var json := SpecOf(e, "RegistryType");
    if json.Some? {
      ScanOwn(g.carries, e.base, json.value);
      if TypeAt(g, e).Some? { OutcomeOwn(builtin, t, e.base, TypeAt(g, e).value); }
    }
  }

  lemma OutcomeOwn(builtin: set<string>, t: Types, base: string, d: NamedType)
    ensures Own(DefinitionOutcome(builtin, t, base, d), base, TYPE_CODES)
  {
    DefinitionOwn(base, d.name, d.spec);
  }

  // ----------------------------------------------------------------- entries

  lemma {:induction false} ItemsOwn(g: Grammars, base: string, path: Path, item: Scalar, items: seq<Json>)
    ensures Own(ItemErrors(g, base, path, item, items), base, {FieldType, DuplicateItem})
  {
    if items != [] { ItemsOwn(g, base, path, item, items[..|items| - 1]); }
  }

  lemma ValueOwn(g: Grammars, base: string, path: Path, field: FieldSpec, value: Json)
    ensures Own(ValueErrors(g, base, path, field, value), base, {FieldType, DuplicateItem})
  {
    if field.items.Some? && value.Arr? { ItemsOwn(g, base, path, field.items.value, value.items); }
  }

  lemma {:induction false} EntryFieldsOwn(g: Grammars, base: string, spec: TypeSpec, entry: EntrySpec,
                                          names: seq<string>)
    requires forall name :: name in names ==> name in entry.fields
    ensures Own(EntryFieldErrors(g, base, spec, entry, names), base, {UnknownField, FieldType, DuplicateItem})
  {
    if names != [] {
      var last := names[|names| - 1];
      EntryFieldsOwn(g, base, spec, entry, names[..|names| - 1]);
      if last in spec.fields { ValueOwn(g, base, FieldPath(last), spec.fields[last], entry.fields[last]); }
    }
  }

  lemma {:induction false} RequiredOwn(base: string, spec: TypeSpec, entry: EntrySpec, names: seq<string>)
    requires forall name :: name in names ==> name in spec.fields
    ensures Own(RequiredErrors(base, spec, entry, names), base, {MissingRequired})
  {
    if names != [] { RequiredOwn(base, spec, entry, names[..|names| - 1]); }
  }

  lemma {:induction false} TagsOwn(base: string, tags: seq<string>)
    ensures Own(TagErrors(base, tags), base, {InvalidTag})
  {
    if tags != [] { TagsOwn(base, tags[..|tags| - 1]); }
  }

  lemma {:induction false} EntryLinksOwn(g: Grammars, base: string, links: seq<Link>)
    ensures Own(LinkProblems(g, base, links), base, {InvalidLink})
  {
    if links != [] { EntryLinksOwn(g, base, links[..|links| - 1]); }
  }

  lemma EntryOwn(g: Grammars, base: string, spec: TypeSpec, entry: EntrySpec)
    ensures Own(EntryErrors(g, base, spec, entry), base, FIELD_CODES)
  {
    EntryFieldsOwn(g, base, spec, entry, SortedKeys(entry.fields.Keys));
    RequiredOwn(base, spec, entry, SortedKeys(spec.fields.Keys));
    TagsOwn(base, entry.tags);
    EntryLinksOwn(g, base, entry.links);
  }

  lemma OneEntryOwn(g: Grammars, types: map<string, TypeSpec>, s: Entries, e: Entry)
    ensures Own(EntryErrorsOf(g, types, s, e), e.base, ENTRY_CODES)
  {
    var json := SpecOf(e, "RegistryEntry");
    if json.Some? {
      ScanOwn(g.carries, e.base, json.value);
      if EntryAt(g, e).Some? { EntryOutcomeOwn(g, types, s.keys, e.base, EntryAt(g, e).value); }
    }
  }

  lemma EntryOutcomeOwn(g: Grammars, types: map<string, TypeSpec>, keys: map<EntryId, string>, base: string,
                        entry: EntrySpec)
    ensures Own(EntryOutcome(g, types, keys, base, entry), base, ENTRY_CODES)
  {
    if entry.entryType in types { EntryOwn(g, base, types[entry.entryType], entry); }
  }

  // --------------------------------------------------------------- relations

  lemma OneRelationOwn(types: map<string, TypeSpec>, l: Located, i: nat)
    requires i < |l.entry.relations| && l.entry.entryType in types
    ensures Own(RelationErrors(types, l, i), l.base, RELATION_CODES)
  {
  }

  lemma {:induction false} RelationsOwn(types: map<string, TypeSpec>, l: Located, n: nat)
    requires n <= |l.entry.relations| && l.entry.entryType in types
    ensures Own(RelationsErrors(types, l, n), l.base, RELATION_CODES)
  {
    if n > 0 {
      var parts := RelationParts(types, l);
      RelationsOwn(types, l, n - 1);
      assert parts[..n] == parts[..n - 1] + [parts[n - 1]];
      ConcatOneMore(parts[..n - 1], parts[n - 1]);
      OneRelationOwn(types, l, n - 1);
    }
  }
}
