/** Whether the Registry part of a candidate is error-free does not depend on the
    order of its documents, nor on where they come from. */
module RegistryOrder {
  import opened Wrappers
  import opened Text
  import opened JsonValues
  import opened Diagnostics
  import opened Documents
  import opened Permutations
  import opened Sequences
  import opened RegistryNames
  import opened RegistryScan
  import opened RegistrySpecs
  import opened Registry
  import opened RegistryRules

  // -------------------------- how much is reported does not depend on the base

  lemma {:induction false} StringsAnyBase(carries: Scrubber, a: string, b: string, found: seq<Found>)
    ensures |StringErrors(carries, a, found)| == |StringErrors(carries, b, found)|
  {
    if found != [] { StringsAnyBase(carries, a, b, found[..|found| - 1]); }
  }

  lemma {:induction false} PairsAnyBase(carries: Scrubber, a: string, b: string, name: string, items: seq<(Path, Json)>)
    ensures |PairErrors(carries, a, name, items)| == |PairErrors(carries, b, name, items)|
  {
    if items != [] { PairsAnyBase(carries, a, b, name, items[..|items| - 1]); }
  }

  lemma {:induction false} FieldsAnyBase(carries: Scrubber, a: string, b: string, fields: map<string, Json>,
                                         keys: seq<string>)
    requires forall k :: k in keys ==> k in fields
    ensures |FieldErrors(carries, a, fields, keys)| == |FieldErrors(carries, b, fields, keys)|
  {
    if keys != [] {
      var key := keys[|keys| - 1];
      FieldsAnyBase(carries, a, b, fields, keys[..|keys| - 1]);
      PairsAnyBase(carries, a, b, key, FieldItems(key, fields[key]));
    }
  }

  lemma {:induction false} LinksAnyBase(carries: Scrubber, a: string, b: string, links: seq<Json>)
    ensures |LinkErrors(carries, a, links)| == |LinkErrors(carries, b, links)|
  {
    if links != [] { LinksAnyBase(carries, a, b, links[..|links| - 1]); }
  }

  lemma ScanAnyBase(carries: Scrubber, a: string, b: string, spec: Json)
    ensures |ScanErrors(carries, a, spec)| == |ScanErrors(carries, b, spec)|
  {
    StringsAnyBase(carries, a, b, Strings(spec, [Key("spec")]));
    FieldsAnyBase(carries, a, b, FieldsOf(spec), SortedKeys(FieldsOf(spec).Keys));
    LinksAnyBase(carries, a, b, AsArr(Get(spec, "links")));
  }

  lemma {:induction false} FieldSpecsAnyBase(a: string, b: string, fields: map<string, FieldSpec>, names: seq<string>)
    requires forall name :: name in names ==> name in fields
    ensures |FieldSpecsErrors(a, fields, names)| == |FieldSpecsErrors(b, fields, names)|
  {
    if names != [] {
      FieldSpecsAnyBase(a, b, fields, names[..|names| - 1]);
      var last := names[|names| - 1];
      assert |FieldSpecErrors(a, last, fields[last])| == |FieldSpecErrors(b, last, fields[last])|;
    }
  }

  lemma {:induction false} RelationTypesAnyBase(a: string, b: string, relations: seq<string>)
    ensures |RelationTypeErrors(a, relations)| == |RelationTypeErrors(b, relations)|
  {
    if relations != [] { RelationTypesAnyBase(a, b, relations[..|relations| - 1]); }
  }

  lemma DefinitionAnyBase(a: string, b: string, name: string, spec: TypeSpec)
    ensures |DefinitionErrors(a, name, spec)| == |DefinitionErrors(b, name, spec)|
  {
    FieldSpecsAnyBase(a, b, spec.fields, SortedKeys(spec.fields.Keys));
    RelationTypesAnyBase(a, b, spec.relations);
    KeyFieldAnyBase(a, b, name, spec);
  }

  lemma KeyFieldAnyBase(a: string, b: string, name: string, spec: TypeSpec)
    ensures |KeyFieldErrors(a, name, spec)| == |KeyFieldErrors(b, name, spec)|
  {
  }

  lemma {:induction false} ItemsAnyBase(g: Grammars, a: string, b: string, path: Path, item: Scalar, items: seq<Json>)
    ensures |ItemErrors(g, a, path, item, items)| == |ItemErrors(g, b, path, item, items)|
  {
    if items != [] { ItemsAnyBase(g, a, b, path, item, items[..|items| - 1]); }
  }

  lemma ValueAnyBase(g: Grammars, a: string, b: string, path: Path, field: FieldSpec, value: Json)
    ensures |ValueErrors(g, a, path, field, value)| == |ValueErrors(g, b, path, field, value)|
  {
    if field.items.Some? && value.Arr? { ItemsAnyBase(g, a, b, path, field.items.value, value.items); }
  }

  lemma {:induction false} EntryFieldsAnyBase(g: Grammars, a: string, b: string, spec: TypeSpec, entry: EntrySpec,
                                              names: seq<string>)
    requires forall name :: name in names ==> name in entry.fields
    ensures |EntryFieldErrors(g, a, spec, entry, names)| == |EntryFieldErrors(g, b, spec, entry, names)|
  {
    if names != [] {
      var last := names[|names| - 1];
      EntryFieldsAnyBase(g, a, b, spec, entry, names[..|names| - 1]);
      if last in spec.fields { ValueAnyBase(g, a, b, FieldPath(last), spec.fields[last], entry.fields[last]); }
    }
  }

  lemma {:induction false} RequiredAnyBase(a: string, b: string, spec: TypeSpec, entry: EntrySpec, names: seq<string>)
    requires forall name :: name in names ==> name in spec.fields
    ensures |RequiredErrors(a, spec, entry, names)| == |RequiredErrors(b, spec, entry, names)|
  {
    if names != [] { RequiredAnyBase(a, b, spec, entry, names[..|names| - 1]); }
  }

  lemma {:induction false} TagsAnyBase(a: string, b: string, tags: seq<string>)
    ensures |TagErrors(a, tags)| == |TagErrors(b, tags)|
  {
    if tags != [] { TagsAnyBase(a, b, tags[..|tags| - 1]); }
  }

  lemma {:induction false} LinkProblemsAnyBase(g: Grammars, a: string, b: string, links: seq<Link>)
    ensures |LinkProblems(g, a, links)| == |LinkProblems(g, b, links)|
  {
    if links != [] { LinkProblemsAnyBase(g, a, b, links[..|links| - 1]); }
  }

  lemma EntryAnyBase(g: Grammars, a: string, b: string, spec: TypeSpec, entry: EntrySpec)
    ensures |EntryErrors(g, a, spec, entry)| == |EntryErrors(g, b, spec, entry)|
  {
    EntryFieldsAnyBase(g, a, b, spec, entry, SortedKeys(entry.fields.Keys));
    RequiredAnyBase(a, b, spec, entry, SortedKeys(spec.fields.Keys));
    TagsAnyBase(a, b, entry.tags);
    LinkProblemsAnyBase(g, a, b, entry.links);
  }

  lemma RelationAnyBase(types: map<string, TypeSpec>, a: string, b: string, entry: EntrySpec, i: nat)
    requires entry.entryType in types && i < |entry.relations|
    ensures |RelationErrors(types, Located(a, entry), i)| == |RelationErrors(types, Located(b, entry), i)|
  {
    var relation, allowed := entry.relations[i], types[entry.entryType].relations;
    assert |RelationTypeErrorsOf(allowed, entry.entryType, a, i, relation)| == |RelationTypeErrorsOf(allowed,
      entry.entryType, b, i, relation)|;
    TargetAnyPlace(types, RelationAt(a, i, "target"), RelationAt(b, i, "target"), relation.target);
  }

  lemma TargetAnyPlace(types: map<string, TypeSpec>, at: Location, other: Location, target: Target)
    ensures |TargetErrors(types, at, target)| == |TargetErrors(types, other, target)|
  {
  }

  lemma RelationsAnyBase(types: map<string, TypeSpec>, a: string, b: string, entry: EntrySpec, n: nat)
    requires entry.entryType in types && n <= |entry.relations|
    ensures |RelationsErrors(types, Located(a, entry), n)| == |RelationsErrors(types, Located(b, entry), n)|
  {
    var parts, others := RelationParts(types, Located(a, entry)), RelationParts(types, Located(b, entry));
    forall i | 0 <= i < n ensures |parts[..n][i]| == |others[..n][i]| {
      RelationAnyBase(types, a, b, entry, i);
      PartAt(types, Located(a, entry), i);
      PartAt(types, Located(b, entry), i);
    }
    ConcatLengths(parts[..n], others[..n]);
  }

  // ------------------------------------------------- what error-free means

  function Docs(c: seq<Entry>): seq<Json> {
    seq(|c|, i requires 0 <= i < |c| => c[i].document)
  }

  lemma DocsOneMore(before: seq<Entry>, e: Entry)
    ensures Docs(before + [e]) == Docs(before) + [e.document]
  {
  }

  function Placed(document: Json): Entry {
    Entry("", document)
  }

  /** The name a document defines a Registry type under. */
  function TypeNamer(g: Grammars): Json -> Option<string> {
    (document: Json) => match TypeAt(g, Placed(document)) case None => None case Some(d) => Some(d.name)
  }

  function IdNamer(g: Grammars, types: map<string, TypeSpec>): Json -> Option<EntryId> {
    (document: Json) => DeclaredId(g, types, Placed(document))
  }

  /** A document's own type definition is right, whatever else there is. */
  predicate TypeFine(g: Grammars, builtin: set<string>, document: Json) {
    match SpecOf(Placed(document), "RegistryType")
    case None => true
    case Some(json) =>
      ScanErrors(g.carries, "", json) == []
      && match TypeAt(g, Placed(document))
         case None => true
         case Some(d) => d.name !in builtin && DefinitionErrors("", d.name, d.spec) == []
  }

  predicate TypesFine(g: Grammars, builtin: set<string>, docs: seq<Json>) {
    forall document :: document in docs ==> TypeFine(g, builtin, document)
  }

  /** A document's own entry is right under these types. */
  predicate EntryRight(g: Grammars, types: map<string, TypeSpec>, document: Json) {
    match SpecOf(Placed(document), "RegistryEntry")
    case None => true
    case Some(json) =>
      ScanErrors(g.carries, "", json) == []
      && match EntryAt(g, Placed(document)) case None => true case Some(entry) => ReadEntryRight(g, types, entry)
  }

  predicate ReadEntryRight(g: Grammars, types: map<string, TypeSpec>, entry: EntrySpec) {
    && entry.entryType in types && EntryErrors(g, "", types[entry.entryType], entry) == []
    && (EntryKey(types[entry.entryType], entry).Some? ==> IsKeyValue(EntryKey(types[entry.entryType], entry).value))
    && RelationsErrors(types, Located("", entry), |entry.relations|) == []
  }

  predicate EntriesRight(g: Grammars, types: map<string, TypeSpec>, docs: seq<Json>) {
    forall document :: document in docs ==> EntryRight(g, types, document)
  }

  // ---------------------------------------------------------------- types

  /** The types defined are the candidate's own that are not built in. */
  lemma {:induction false} OriginsAre(g: Grammars, builtins: seq<Builtin>, c: seq<Entry>, name: string)
    ensures name in DefineAll(g, builtins, c).origins
      <==>
        && name !in BuiltinSpecs(builtins)
        && exists document :: document in Docs(c) && TypeNamer(g)(document) == Some(name)
  {
    if c != [] {
      var before, last := c[..|c| - 1], c[|c| - 1];
      assert c == before + [last];
      OriginsAre(g, builtins, before, name);
      DocsOneMore(before, last);
      OriginsOneMore(g, builtins, before, last, name);
      DefinedOneMore(g, Docs(before), last.document, name);
    }
  }

  lemma OriginsOneMore(g: Grammars, builtins: seq<Builtin>, before: seq<Entry>, e: Entry, name: string)
    ensures name in DefineAll(g, builtins, before + [e]).origins
      <==> name in DefineAll(g, builtins, before).origins
           || (name !in BuiltinSpecs(builtins) && TypeNamer(g)(e.document) == Some(name))
  {
    DefineLast(g, builtins, before, e);
    assert TypeAt(g, Placed(e.document)) == TypeAt(g, e);
  }

  lemma DefinedOneMore(g: Grammars, docs: seq<Json>, last: Json, name: string)
    ensures (exists document :: document in docs + [last] && TypeNamer(g)(document) == Some(name))
      <==> (exists document :: document in docs && TypeNamer(g)(document) == Some(name))
           || TypeNamer(g)(last) == Some(name)
  {
    assert last in docs + [last];
  }

  lemma LastTypeFine(g: Grammars, builtin: set<string>, t: Types, e: Entry)
    ensures TypeErrorsOf(g, builtin, t, e) == []
      <==> TypeFine(g, builtin, e.document)
           && (TypeNamer(g)(e.document).Some? ==> TypeNamer(g)(e.document).value !in t.origins)
  {
    var json := SpecOf(e, "RegistryType");
    if json.Some? {
      ScanAnyBase(g.carries, e.base, "", json.value);
      if TypeAt(g, e).Some? { DefinitionAnyBase(e.base, "", TypeAt(g, e).value.name, TypeAt(g, e).value.spec); }
    }
  }

  lemma {:induction false} TypeErrorsIff(g: Grammars, builtins: seq<Builtin>, c: seq<Entry>)
    ensures TypeErrors(g, builtins, c) == [] <==>
      TypesFine(g, BuiltinSpecs(builtins).Keys, Docs(c)) && UniqueBy(TypeNamer(g), Docs(c))
  {
    if c != [] {
      var before, last := c[..|c| - 1], c[|c| - 1];
      assert c == before + [last];
      TypeErrorsIff(g, builtins, before);
      DefineLast(g, builtins, before, last);
      DocsOneMore(before, last);
      LastTypeFine(g, BuiltinSpecs(builtins).Keys, DefineAll(g, builtins, before), last);
      UniqueOneMore(TypeNamer(g), Docs(before), last.document);
      if TypeNamer(g)(last.document).Some? {
        OriginsAre(g, builtins, before, TypeNamer(g)(last.document).value);
      }
      TypesFineOneMore(g, BuiltinSpecs(builtins).Keys, Docs(before), last.document);
    }
  }

  lemma TypesFineOneMore(g: Grammars, builtin: set<string>, docs: seq<Json>, document: Json)
    ensures TypesFine(g, builtin, docs + [document]) <==> TypesFine(g, builtin, docs) && TypeFine(g, builtin, document)
    ensures TypeFine(g, builtin, document) && TypeNamer(g)(document).Some? ==> TypeNamer(g)(document).value !in builtin
  {
    assert document in docs + [document];
    assert forall x :: x in docs ==> x in docs + [document];
  }

  /** A name's spec is its one definition's, or the built-in one. */
  ghost predicate SpecIs(g: Grammars, builtin: map<string, TypeSpec>, docs: seq<Json>, specs: map<string, TypeSpec>,
                         name: string) {
    && (name in specs <==>
          name in builtin || exists document :: document in docs && TypeNamer(g)(document) == Some(name))
    && (name in builtin ==> name in specs && specs[name] == builtin[name])
    && forall document :: document in docs && TypeNamer(g)(document) == Some(name) ==>
      name in specs && specs[name] == TypeAt(g, Placed(document)).value.spec
  }

  lemma {:induction false} SpecsAre(g: Grammars, builtins: seq<Builtin>, c: seq<Entry>, name: string)
    ensures UniqueBy(TypeNamer(g), Docs(c)) && TypesFine(g, BuiltinSpecs(builtins).Keys, Docs(c))
      ==> SpecIs(g, BuiltinSpecs(builtins), Docs(c), DefineAll(g, builtins, c).specs, name)
  {
    if c != [] {
      var before, last := c[..|c| - 1], c[|c| - 1];
      assert c == before + [last];
      DocsOneMore(before, last);
      OneTypeLess(g, BuiltinSpecs(builtins).Keys, Docs(before), last.document);
      SpecsAre(g, builtins, before, name);
      SpecsStep(g, builtins, before, last, name);
    }
  }

  /** The document's type, if it defines one, is right and new. */
  ghost predicate Addable(g: Grammars, builtin: set<string>, docs: seq<Json>, document: Json) {
    && TypeFine(g, builtin, document)
    && (TypeNamer(g)(document).Some? ==>
          TypeNamer(g)(document).value !in builtin && forall y :: y in docs ==>
            TypeNamer(g)(y) != TypeNamer(g)(document))
  }

  lemma OneTypeLess(g: Grammars, builtin: set<string>, docs: seq<Json>, document: Json)
    ensures UniqueBy(TypeNamer(g), docs + [document]) && TypesFine(g, builtin, docs + [document])
      ==> UniqueBy(TypeNamer(g), docs) && TypesFine(g, builtin, docs) && Addable(g, builtin, docs, document)
  {
    UniqueOneMore(TypeNamer(g), docs, document);
    TypesFineOneMore(g, builtin, docs, document);
  }

  lemma SpecsStep(g: Grammars, builtins: seq<Builtin>, before: seq<Entry>, e: Entry, name: string)
    ensures var specs, more := DefineAll(g, builtins, before).specs, DefineAll(g, builtins, before + [e]).specs;
      SpecIs(g, BuiltinSpecs(builtins), Docs(before), specs, name) ==>
      Addable(g, BuiltinSpecs(builtins).Keys, Docs(before), e.document) ==>
      SpecIs(g, BuiltinSpecs(builtins), Docs(before) + [e.document], more, name)
  {
    if SpecIs(g, BuiltinSpecs(builtins), Docs(before), DefineAll(g, builtins, before).specs, name)
      && Addable(g, BuiltinSpecs(builtins).Keys, Docs(before), e.document) {
      DefineLast(g, builtins, before, e);
      SpecsOneMore(g, builtins, before, e);
      SpecIsOneMore(g, BuiltinSpecs(builtins), Docs(before), DefineAll(g, builtins, before).specs, e.document, name);
    }
  }

  function WithType(g: Grammars, specs: map<string, TypeSpec>, document: Json): map<string, TypeSpec> {
    match TypeAt(g, Placed(document)) case None => specs case Some(d) => specs[d.name := d.spec]
  }

  lemma SpecIsOneMore(g: Grammars, builtin: map<string, TypeSpec>, docs: seq<Json>, specs: map<string, TypeSpec>,
                      document: Json, name: string)
    requires SpecIs(g, builtin, docs, specs, name)
    requires TypeNamer(g)(document).Some? ==>
      TypeNamer(g)(document).value !in builtin && forall y :: y in docs ==> TypeNamer(g)(y) != TypeNamer(g)(document)
    ensures SpecIs(g, builtin, docs + [document], WithType(g, specs, document), name)
  {
    assert document in docs + [document];
    assert forall y :: y in docs + [document] <==> y in docs || y == document;
  }

  lemma SpecsOneMore(g: Grammars, builtins: seq<Builtin>, before: seq<Entry>, e: Entry)
    requires TypeFine(g, BuiltinSpecs(builtins).Keys, e.document)
    requires TypeNamer(g)(e.document).Some? ==> forall y :: y in Docs(before) ==>
      TypeNamer(g)(y) != TypeNamer(g)(e.document)
    ensures var t := DefineAll(g, builtins, before);
      Define(g, BuiltinSpecs(builtins).Keys, t, e).specs == WithType(g, t.specs, e.document)
  {
    if TypeAt(g, e).Some? { OriginsAre(g, builtins, before, TypeAt(g, e).value.name); }
  }

  lemma SpecsPermuted(g: Grammars, builtins: seq<Builtin>, c: seq<Entry>, other: seq<Entry>)
    requires TypeErrors(g, builtins, c) == [] && Permuted(Docs(c), Docs(other))
    ensures TypeErrors(g, builtins, other) == []
      && DefineAll(g, builtins, c).specs == DefineAll(g, builtins, other).specs
  {
    TypeErrorsIff(g, builtins, c);
    TypeErrorsIff(g, builtins, other);
    UniquePermuted(TypeNamer(g), Docs(c), Docs(other));
    forall document ensures document in Docs(c) <==> document in Docs(other) {
      SameMembers(Docs(c), Docs(other), document);
    }
    var specs, others := DefineAll(g, builtins, c).specs, DefineAll(g, builtins, other).specs;
    forall name ensures (name in specs <==> name in others) && (name in specs ==> specs[name] == others[name]) {
      SpecsAre(g, builtins, c, name);
      SpecsAre(g, builtins, other, name);
      SameSpec(g, BuiltinSpecs(builtins), Docs(c), specs, Docs(other), others, name);
    }
  }

  lemma SameSpec(g: Grammars, builtin: map<string, TypeSpec>, docs: seq<Json>, specs: map<string, TypeSpec>,
                 otherDocs: seq<Json>, others: map<string, TypeSpec>, name: string)
    requires SpecIs(g, builtin, docs, specs, name) && SpecIs(g, builtin, otherDocs, others, name)
    requires forall document :: document in docs <==> document in otherDocs
    ensures (name in specs <==> name in others) && (name in specs ==> specs[name] == others[name])
  {
    if name !in builtin && name in specs {
      var document :| document in docs && TypeNamer(g)(document) == Some(name);
    }
  }

  // --------------------------------------------------------------- entries

  /** Neither the entries nor their relations report an error. */
  ghost predicate NoEntryErrors(g: Grammars, types: map<string, TypeSpec>, c: seq<Entry>) {
    EntriesTyped(g, types, c);
    EntriesErrors(g, types, c) == [] && AllRelationsErrors(types, EnterAll(g, types, c).list) == []
  }

  /** What the last entry must be for no error to come with it. */
  predicate LastFine(g: Grammars, types: map<string, TypeSpec>, s: Entries, e: Entry) {
    EntryErrorsOf(g, types, s, e) == []
    && (EntryAt(g, e).Some? && EntryAt(g, e).value.entryType in types ==>
          RelationsErrors(types, Located(e.base, EntryAt(g, e).value), |EntryAt(g, e).value.relations|) == [])
  }

  lemma LastFineIff(g: Grammars, types: map<string, TypeSpec>, s: Entries, e: Entry)
    ensures LastFine(g, types, s, e)
      <==> EntryRight(g, types, e.document)
           && (DeclaredId(g, types, e).Some? ==> DeclaredId(g, types, e).value !in s.keys)
  {
    var json := SpecOf(e, "RegistryEntry");
    if json.Some? {
      ScanAnyBase(g.carries, e.base, "", json.value);
      if EntryAt(g, e).Some? {
        ReadFineIff(g, types, s, e.base, EntryAt(g, e).value);
      }
    }
  }

  lemma ReadFineIff(g: Grammars, types: map<string, TypeSpec>, s: Entries, base: string, entry: EntrySpec)
    ensures EntryOutcome(g, types, s.keys, base, entry) == []
        && (entry.entryType in types ==> RelationsErrors(types, Located(base, entry), |entry.relations|) == [])
      <==> ReadEntryRight(g, types, entry)
           && (IdOfEntry(types, entry).Some? ==> IdOfEntry(types, entry).value !in s.keys)
  {
    if entry.entryType in types {
      EntryAnyBase(g, base, "", types[entry.entryType], entry);
      RelationsAnyBase(types, base, "", entry, |entry.relations|);
    }
  }

  lemma NoEntryErrorsOneMore(g: Grammars, types: map<string, TypeSpec>, before: seq<Entry>, e: Entry)
    ensures NoEntryErrors(g, types, before + [e]) <==>
      NoEntryErrors(g, types, before) && LastFine(g, types, EnterAll(g, types, before), e)
  {
    EnterLast(g, types, before, e);
    EntriesTyped(g, types, before);
    EntriesTyped(g, types, before + [e]);
    RelationsOneMore(g, types, EnterAll(g, types, before), e);
  }

  lemma RelationsOneMore(g: Grammars, types: map<string, TypeSpec>, s: Entries, e: Entry)
    requires TypesKnown(types, s.list) && TypesKnown(types, Enter(g, types, s, e).list)
    ensures AllRelationsErrors(types, Enter(g, types, s, e).list)
         == AllRelationsErrors(types, s.list)
            + if EntryAt(g, e).Some? && EntryAt(g, e).value.entryType in types
              then RelationsErrors(types, Located(e.base, EntryAt(g, e).value), |EntryAt(g, e).value.relations|) else []
  {
    if EntryAt(g, e).Some? && EntryAt(g, e).value.entryType in types {
      assert Enter(g, types, s, e).list[..|s.list|] == s.list;
    }
  }

  lemma DocIds(g: Grammars, types: map<string, TypeSpec>, c: seq<Entry>, id: EntryId)
    ensures (exists e :: e in c && DeclaredId(g, types, e) == Some(id)) <==>
      exists y :: y in Docs(c) && IdNamer(g, types)(y) == Some(id)
  {
    if e :| e in c && DeclaredId(g, types, e) == Some(id) {
      var i :| 0 <= i < |c| && c[i] == e;
      assert Docs(c)[i] == e.document && IdNamer(g, types)(e.document) == Some(id);
    }
    if y :| y in Docs(c) && IdNamer(g, types)(y) == Some(id) {
      var i :| 0 <= i < |c| && Docs(c)[i] == y;
      assert c[i] in c && DeclaredId(g, types, c[i]) == Some(id);
    }
  }

  lemma EntriesRightOneMore(g: Grammars, types: map<string, TypeSpec>, docs: seq<Json>, document: Json)
    ensures EntriesRight(g, types, docs + [document]) <==>
      EntriesRight(g, types, docs) && EntryRight(g, types, document)
  {
    assert document in docs + [document];
    assert forall x :: x in docs ==> x in docs + [document];
  }

  lemma NewIdIff(g: Grammars, types: map<string, TypeSpec>, before: seq<Entry>, e: Entry)
    ensures (DeclaredId(g, types, e).Some? ==> DeclaredId(g, types, e).value !in EnterAll(g, types, before).keys)
      <==> (IdNamer(g, types)(e.document).Some? ==> forall y :: y in Docs(before) ==>
        IdNamer(g, types)(y) != IdNamer(g, types)(e.document))
  {
    assert IdNamer(g, types)(e.document) == DeclaredId(g, types, e);
    if DeclaredId(g, types, e).Some? {
      KeysAreDeclared(g, types, before, DeclaredId(g, types, e).value);
      DocIds(g, types, before, DeclaredId(g, types, e).value);
    }
  }

  lemma {:induction false} EntryErrorsIff(g: Grammars, types: map<string, TypeSpec>, c: seq<Entry>)
    ensures NoEntryErrors(g, types, c) <==> EntriesRight(g, types, Docs(c)) && UniqueBy(IdNamer(g, types), Docs(c))
  {
    if c != [] {
      var before, last := c[..|c| - 1], c[|c| - 1];
      assert c == before + [last];
      EntryErrorsIff(g, types, before);
      DocsOneMore(before, last);
      NoEntryErrorsOneMore(g, types, before, last);
      LastFineIff(g, types, EnterAll(g, types, before), last);
      NewIdIff(g, types, before, last);
      UniqueOneMore(IdNamer(g, types), Docs(before), last.document);
      EntriesRightOneMore(g, types, Docs(before), last.document);
    }
  }

  // ---------------------------------------------------------- the theorem

  lemma RegistryErrorsParts(g: Grammars, builtins: seq<Builtin>, c: seq<Entry>)
    ensures RegistryErrors(g, builtins, c) == []
      <==> TypeErrors(g, builtins, c) == [] && NoEntryErrors(g, DefineAll(g, builtins, c).specs, c)
  {
  }

  /** Reordering the documents of a candidate, within files and across them,
      does not change whether its Registry part is error-free. */
  lemma RegistryAnyOrder(g: Grammars, builtins: seq<Builtin>, c: seq<Entry>, other: seq<Entry>)
    requires Permuted(Docs(c), Docs(other)) && RegistryErrors(g, builtins, c) == []
    ensures RegistryErrors(g, builtins, other) == []
  {
    var types := DefineAll(g, builtins, c).specs;
    RegistryErrorsParts(g, builtins, c);
    SpecsPermuted(g, builtins, c, other);
    EntryErrorsIff(g, types, c);
    EntryErrorsIff(g, types, other);
    UniquePermuted(IdNamer(g, types), Docs(c), Docs(other));
    forall document ensures document in Docs(c) <==> document in Docs(other) {
      SameMembers(Docs(c), Docs(other), document);
    }
    RegistryErrorsParts(g, builtins, other);
  }
}
