/** What it means for the checks of one type or one entry to report nothing. */
module RegistryMeaning {
  import opened Wrappers
  import opened Text
  import opened TextSearch
  import opened JsonValues
  import opened Diagnostics
  import opened Documents
  import opened Sequences
  import opened RegistryNames
  import opened RegistryScan
  import opened RegistrySpecs
  import opened Registry
  import opened RegistryRules
  import opened RegistryOrder

  // ------------------------------------------------------------- lists

  lemma DistinctOneMore<T>(s: seq<T>, x: T)
    ensures Distinct(s + [x]) <==> Distinct(s) && x !in s
  {
    var all := s + [x];
    if x in s {
      var i :| 0 <= i < |s| && s[i] == x;
      assert all[i] == all[|s|];
    } else if Distinct(all) {
      forall i, j | 0 <= i < j < |s| ensures s[i] != s[j] {
        assert all[i] == s[i] && all[j] == s[j];
      }
    }
  }

  predicate SlugList(items: seq<string>) {
    Distinct(items) && forall t :: t in items ==> IsSlug(t)
  }

  lemma SlugListOneMore(before: seq<string>, last: string)
    ensures SlugList(before + [last]) <==> SlugList(before) && IsSlug(last) && last !in before
  {
    DistinctOneMore(before, last);
    assert last in before + [last];
    assert forall t :: t in before ==> t in before + [last];
  }

  lemma {:induction false} TagsFineIff(base: string, tags: seq<string>)
    ensures TagErrors(base, tags) == [] <==> SlugList(tags)
  {
    if tags != [] {
      var before, last := tags[..|tags| - 1], tags[|tags| - 1];
      assert tags == before + [last];
      TagsFineIff(base, before);
      SlugListOneMore(before, last);
    }
  }

  lemma {:induction false} RelationTypesFineIff(base: string, relations: seq<string>)
    ensures RelationTypeErrors(base, relations) == [] <==> SlugList(relations)
  {
    if relations != [] {
      var before, last := relations[..|relations| - 1], relations[|relations| - 1];
      assert relations == before + [last];
      RelationTypesFineIff(base, before);
      SlugListOneMore(before, last);
    }
  }

  predicate LinkWell(g: Grammars, link: Link) {
    && g.url(link.url) && Trim(link.caption) != ""
    && forall c :: c in link.caption ==> !(c < ' ') && !('\U{7f}' <= c <= '\U{9f}')
  }

  lemma {:induction false} LinksFineIff(g: Grammars, base: string, links: seq<Link>)
    ensures LinkProblems(g, base, links) == [] <==> forall link :: link in links ==> LinkWell(g, link)
  {
    if links != [] {
      var before, last := links[..|links| - 1], links[|links| - 1];
      assert links == before + [last] && last in links;
      LinksFineIff(g, base, before);
      assert LinkProblemsOf(g, base, |before|, last) == [] <==> LinkWell(g, last);
    }
  }

  // ---------------------------------------------------------- definitions

  predicate FieldWell(name: string, field: FieldSpec) {
    && IsFieldName(name) && (field.scalar.None? <==> field.items.Some?)
    && (field.suggestions != [] ==> field.scalar in {None, Some(String), Some(Enum)})
    && (field.scalar == Some(Enum) || field.items == Some(Enum) ==> field.suggestions != [])
  }

  /** A type definition that can be used: its key is declared, required and of a
      textual type, and every field and relation type is well-formed. */
  predicate WellDefined(spec: TypeSpec) {
    && spec.key in spec.fields && spec.fields[spec.key].required
    && spec.fields[spec.key].scalar in {Some(String), Some(Enum), Some(Hostname), Some(Email)}
    && (forall name :: name in spec.fields ==> FieldWell(name, spec.fields[name]))
    && SlugList(spec.relations)
  }

  lemma {:induction false} FieldSpecsFineIff(base: string, fields: map<string, FieldSpec>, names: seq<string>)
    requires forall name :: name in names ==> name in fields
    ensures FieldSpecsErrors(base, fields, names) == [] <==>
      forall name :: name in names ==> FieldWell(name, fields[name])
  {
    if names != [] {
      var before, last := names[..|names| - 1], names[|names| - 1];
      assert names == before + [last];
      FieldSpecsFineIff(base, fields, before);
      assert FieldSpecErrors(base, last, fields[last]) == [] <==> FieldWell(last, fields[last]);
    }
  }

  /** A type definition is reported clean iff it can be used. */
  lemma DefinitionFineIff(base: string, name: string, spec: TypeSpec)
    ensures DefinitionErrors(base, name, spec) == [] <==> WellDefined(spec)
  {
    var names := SortedKeys(spec.fields.Keys);
    FieldSpecsFineIff(base, spec.fields, names);
    RelationTypesFineIff(base, spec.relations);
    assert KeyFieldErrors(base, name, spec) == [] <==>
      spec.key in spec.fields && spec.fields[spec.key].required && KeyScalar(spec.fields[spec.key].scalar);
  }

  // -------------------------------------------------------------- entries

  predicate ValueFits(g: Grammars, field: FieldSpec, value: Json) {
    match (field.scalar, field.items)
    case (Some(scalar), _) => g.scalar(scalar, value)
    case (None, Some(item)) =>
      && value.Arr? && |value.items| <= 64 && Distinct(value.items)
      && forall x :: x in value.items ==> g.scalar(item, x)
    case (None, None) => true
  }

  lemma {:induction false} ItemsFineIff(g: Grammars, base: string, path: Path, item: Scalar, items: seq<Json>)
    ensures ItemErrors(g, base, path, item, items) == [] <==>
      Distinct(items) && forall x :: x in items ==> g.scalar(item, x)
  {
    if items != [] {
      var before, last := items[..|items| - 1], items[|items| - 1];
      assert items == before + [last];
      ItemsFineIff(g, base, path, item, before);
      DistinctOneMore(before, last);
    }
  }

  lemma ValueFineIff(g: Grammars, base: string, path: Path, field: FieldSpec, value: Json)
    ensures ValueErrors(g, base, path, field, value) == [] <==> ValueFits(g, field, value)
  {
    if field.scalar.None? && field.items.Some? && value.Arr? {
      ItemsFineIff(g, base, path, field.items.value, value.items);
    }
  }

  predicate FieldFits(g: Grammars, spec: TypeSpec, name: string, value: Json) {
    name in spec.fields && ValueFits(g, spec.fields[name], value)
  }

  lemma EntryFieldFineIff(g: Grammars, base: string, spec: TypeSpec, entry: EntrySpec, name: string)
    requires name in entry.fields
    ensures (if name in spec.fields then ValueErrors(g, base, FieldPath(name), spec.fields[name], entry.fields[name])
             else [Diagnostic(UnknownField, At(base, FieldPath(name)), [entry.entryType])]) == []
      <==> FieldFits(g, spec, name, entry.fields[name])
  {
    if name in spec.fields { ValueFineIff(g, base, FieldPath(name), spec.fields[name], entry.fields[name]); }
  }

  lemma {:induction false} EntryFieldsFineIff(g: Grammars, base: string, spec: TypeSpec, entry: EntrySpec,
                                              names: seq<string>)
    requires forall name :: name in names ==> name in entry.fields
    ensures EntryFieldErrors(g, base, spec, entry, names) == [] <==>
      forall name :: name in names ==> FieldFits(g, spec, name, entry.fields[name])
  {
    if names != [] {
      var before, last := names[..|names| - 1], names[|names| - 1];
      assert names == before + [last];
      EntryFieldsFineIff(g, base, spec, entry, before);
      EntryFieldFineIff(g, base, spec, entry, last);
      assert last in names;
    }
  }

  lemma {:induction false} RequiredFineIff(base: string, spec: TypeSpec, entry: EntrySpec, names: seq<string>)
    requires forall name :: name in names ==> name in spec.fields
    ensures RequiredErrors(base, spec, entry, names) == [] <==>
      forall name :: name in names && spec.fields[name].required ==> name in entry.fields
  {
    if names != [] {
      var before, last := names[..|names| - 1], names[|names| - 1];
      assert names == before + [last];
      RequiredFineIff(base, spec, entry, before);
    }
  }

  /** An entry that is what its type says: only declared fields, each of its type,
      every required one, well-formed tags and links. */
  predicate Conforms(g: Grammars, spec: TypeSpec, entry: EntrySpec) {
    && (forall name :: name in entry.fields ==> FieldFits(g, spec, name, entry.fields[name]))
    && (forall name :: name in spec.fields && spec.fields[name].required ==> name in entry.fields)
    && SlugList(entry.tags) && forall link :: link in entry.links ==> LinkWell(g, link)
  }

  /** An entry is reported clean against its type iff it conforms to it. */
  lemma EntryFineIff(g: Grammars, base: string, spec: TypeSpec, entry: EntrySpec)
    ensures EntryErrors(g, base, spec, entry) == [] <==> Conforms(g, spec, entry)
  {
    EntryFieldsFineIff(g, base, spec, entry, SortedKeys(entry.fields.Keys));
    RequiredFineIff(base, spec, entry, SortedKeys(spec.fields.Keys));
    TagsFineIff(base, entry.tags);
    LinksFineIff(g, base, entry.links);
  }

  // ------------------------------------------------- every entry has a key

  /** The types a key may have accept texts only. */
  ghost predicate KeysAreTexts(g: Grammars) {
    forall scalar, value :: KeyScalar(Some(scalar)) && g.scalar(scalar, value) ==> value.Str?
  }

  lemma {:induction false} DefinedAreWell(g: Grammars, builtins: seq<Builtin>, c: seq<Entry>, name: string)
    requires TypeErrors(g, builtins, c) == [] && name in DefineAll(g, builtins, c).specs
      && name !in BuiltinSpecs(builtins)
    ensures WellDefined(DefineAll(g, builtins, c).specs[name])
  {
    TypeErrorsIff(g, builtins, c);
    SpecsAre(g, builtins, c, name);
    var document :| document in Docs(c) && TypeNamer(g)(document) == Some(name);
    assert TypeFine(g, BuiltinSpecs(builtins).Keys, document);
    DefinitionFineIff("", name, TypeAt(g, Placed(document)).value.spec);
  }

  /** An entry that conforms to a well-defined type has a textual key. */
  lemma ConformingHasKey(g: Grammars, spec: TypeSpec, entry: EntrySpec)
    requires WellDefined(spec) && Conforms(g, spec, entry) && KeysAreTexts(g)
    ensures EntryKey(spec, entry).Some?
  {
    assert FieldFits(g, spec, spec.key, entry.fields[spec.key]);
  }

  lemma TypeOfEntryWell(g: Grammars, builtins: seq<Builtin>, c: seq<Entry>, name: string)
    requires TypeErrors(g, builtins, c) == [] && name in DefineAll(g, builtins, c).specs
    requires forall b :: b in BuiltinSpecs(builtins) ==> WellDefined(BuiltinSpecs(builtins)[b])
    ensures WellDefined(DefineAll(g, builtins, c).specs[name])
  {
    if name in BuiltinSpecs(builtins) {
      TypeErrorsIff(g, builtins, c);
      SpecsAre(g, builtins, c, name);
    } else {
      DefinedAreWell(g, builtins, c, name);
    }
  }

  /** In an error-free candidate every entry declares an id, so that every entry
      can be referred to. */
  lemma EveryEntryHasId(g: Grammars, builtins: seq<Builtin>, c: seq<Entry>, i: nat)
    requires RegistryErrors(g, builtins, c) == [] && KeysAreTexts(g)
    requires forall b :: b in BuiltinSpecs(builtins) ==> WellDefined(BuiltinSpecs(builtins)[b])
    requires i < |c| && EntryAt(g, c[i]).Some?
    ensures DeclaredId(g, DefineAll(g, builtins, c).specs, c[i]).Some?
  {
    var types, entry := DefineAll(g, builtins, c).specs, EntryAt(g, c[i]).value;
    ErrorFreeParts(g, builtins, c);
    EachEntryFine(g, types, c, i);
    TypeOfEntryWell(g, builtins, c, entry.entryType);
    EntryFineIff(g, c[i].base, types[entry.entryType], entry);
    ConformingHasKey(g, types[entry.entryType], entry);
  }
}
