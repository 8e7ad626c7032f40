/** The Registry validator: type definitions, entries and their keys, relations. */
module Registry {
  import opened Wrappers
  import opened Text
  import opened TextSearch
  import opened JsonValues
  import opened Diagnostics
  import opened Documents
  import opened Sequences
  import opened RegistryNames
  import opened RegistryScan
  import opened RegistrySpecs

  datatype Builtin = Builtin(name: string, spec: TypeSpec)

  /** Classes of relation targets outside the Registry. */
  datatype Class = Machines | Projects | CoolifyResources | ProxmoxGuests

  /** What validation knows beyond the candidate: a class that is absent from
      `known` is not checked for dangling targets. */
  datatype Context = Context(builtins: seq<Builtin>, known: map<Class, set<string>>)

  function SpecOf(e: Entry, kind: string): Option<Json> {
    if KindOf(e.document) == kind then Get(e.document, "spec") else None
  }

  function NamePath(base: string): Location {
    Location(base, [Key("metadata"), Key("name")])
  }

  // ------------------------------------------------ pass 1: type definitions

  /** The types an entry may use, and where each type of the candidate was defined. */
  datatype Types = Types(specs: map<string, TypeSpec>, origins: map<string, string>)

  datatype NamedType = NamedType(name: string, spec: TypeSpec)

  function BuiltinSpecs(builtins: seq<Builtin>): map<string, TypeSpec> {
    if builtins == [] then map[]
    else
      var last := builtins[|builtins| - 1];
      BuiltinSpecs(builtins[..|builtins| - 1])[last.name := last.spec]
  }

  /** The type a document defines, when its spec can be read and it has a name. */
  function TypeAt(g: Grammars, e: Entry): Option<NamedType> {
    match SpecOf(e, "RegistryType")
    case None => None
    case Some(json) =>
      var spec, name := g.readType(json), NameOf(e.document);
      if spec.Some? && name.Some? then Some(NamedType(name.value, spec.value)) else None
  }

  function Define(g: Grammars, builtin: set<string>, t: Types, e: Entry): Types {
    match TypeAt(g, e)
    case None => t
    case Some(d) =>
      if d.name in builtin || d.name in t.origins then t
      else Types(t.specs[d.name := d.spec], t.origins[d.name := e.base])
  }

  function DefineAll(g: Grammars, builtins: seq<Builtin>, c: seq<Entry>): Types {
    if c == [] then Types(BuiltinSpecs(builtins), map[])
    else Define(g, BuiltinSpecs(builtins).Keys, DefineAll(g, builtins, c[..|c| - 1]), c[|c| - 1])
  }

  function DefinitionOutcome(builtin: set<string>, t: Types, base: string, d: NamedType): seq<Diagnostic> {
    if d.name in builtin then [Diagnostic(BuiltinRedefined, NamePath(base), [d.name])]
    else if d.name in t.origins then [Diagnostic(DuplicateType, NamePath(base), [d.name, t.origins[d.name]])]
    else DefinitionErrors(base, d.name, d.spec)
  }

  function TypeErrorsOf(g: Grammars, builtin: set<string>, t: Types, e: Entry): seq<Diagnostic> {
    match SpecOf(e, "RegistryType")
    case None => []
    case Some(json) =>
      ScanErrors(g.carries, e.base, json)
      + match TypeAt(g, e) case None => [] case Some(d) => DefinitionOutcome(builtin, t, e.base, d)
  }

  function TypeErrors(g: Grammars, builtins: seq<Builtin>, c: seq<Entry>): seq<Diagnostic> {
    if c == [] then []
    else
      var before := c[..|c| - 1];
      TypeErrors(g, builtins, before)
        + TypeErrorsOf(g, BuiltinSpecs(builtins).Keys, DefineAll(g, builtins, before), c[|c| - 1])
  }

  method ReadBuiltins(builtins: seq<Builtin>) returns (specs: map<string, TypeSpec>)
    ensures specs == BuiltinSpecs(builtins)
  {
    specs := map[];
    for i := 0 to |builtins|
      invariant specs == BuiltinSpecs(builtins[..i])
    {
      assert builtins[..i + 1][..i] == builtins[..i];
      specs := specs[builtins[i].name := builtins[i].spec];
    }
    assert builtins[..|builtins|] == builtins;
  }

  method ValidateTypes(g: Grammars, builtins: seq<Builtin>, c: seq<Entry>, errors: Log) returns (types: Types)
    modifies errors
    ensures types == DefineAll(g, builtins, c) && errors.items == old(errors.items) + TypeErrors(g, builtins, c)
  {
    var builtin := ReadBuiltins(builtins);
    types := Types(builtin, map[]);
    for i := 0 to |c|
      invariant types == DefineAll(g, builtins, c[..i])
      invariant errors.items == old(errors.items) + TypeErrors(g, builtins, c[..i])
    {
      assert c[..i + 1][..i] == c[..i];
      Associative(old(errors.items), TypeErrors(g, builtins, c[..i]), TypeErrorsOf(g, builtin.Keys, types, c[i]));
      types := ValidateTypeDocument(g, builtin.Keys, types, c[i], errors);
    }
    assert c[..|c|] == c;
  }

  method ValidateTypeDocument(g: Grammars, builtin: set<string>, known: Types, e: Entry, errors: Log)
      returns (types: Types)
    modifies errors
    ensures types == Define(g, builtin, known, e)
      && errors.items == old(errors.items) + TypeErrorsOf(g, builtin, known, e)
  {
    types := known;
    var json := SpecOf(e, "RegistryType");
    if json.None? {
      return;
    }
    ScanCredentials(g.carries, e.base, json.value, errors);
    var spec, name := g.readType(json.value), NameOf(e.document);
    if spec.None? || name.None? {
      return;
    }
    var scanned := ScanErrors(g.carries, e.base, json.value);
    Associative(old(errors.items), scanned,
                DefinitionOutcome(builtin, known, e.base, NamedType(name.value, spec.value)));
    if name.value in builtin {
      errors.Push(Diagnostic(BuiltinRedefined, NamePath(e.base), [name.value]));
      return;
    }
    if name.value in types.origins {
      errors.Push(Diagnostic(DuplicateType, NamePath(e.base), [name.value, types.origins[name.value]]));
      return;
    }
    ValidateTypeDefinition(e.base, name.value, spec.value, errors);
    types := Types(types.specs[name.value := spec.value], types.origins[name.value := e.base]);
  }

  // --------------------------------------------------------- pass 2: entries

  /** A type and a case-folded key. */
  type EntryId = (string, string)

  datatype Located = Located(base: string, entry: EntrySpec)

  /** Where each key was last declared, and the entries of known types. */
  datatype Entries = Entries(keys: map<EntryId, string>, list: seq<Located>)

  const NO_ENTRIES := Entries(map[], [])

  function EntryAt(g: Grammars, e: Entry): Option<EntrySpec> {
    match SpecOf(e, "RegistryEntry")
    case None => None
    case Some(json) => g.readEntry(json)
  }

  /** The key an entry declares, when it is a valid one. */
  function IdOfEntry(types: map<string, TypeSpec>, entry: EntrySpec): Option<EntryId> {
    if entry.entryType !in types then None
    else match EntryKey(types[entry.entryType], entry)
      case None => None
      case Some(key) => if IsKeyValue(key) then Some((entry.entryType, key)) else None
  }

  function Enter(g: Grammars, types: map<string, TypeSpec>, s: Entries, e: Entry): Entries {
    match EntryAt(g, e)
    case None => s
    case Some(entry) =>
      if entry.entryType !in types then s
      else
        var keys := match IdOfEntry(types, entry) case None => s.keys case Some(id) => s.keys[id := e.base];
        Entries(keys, s.list + [Located(e.base, entry)])
  }

  function EnterAll(g: Grammars, types: map<string, TypeSpec>, c: seq<Entry>): Entries {
    if c == [] then NO_ENTRIES else Enter(g, types, EnterAll(g, types, c[..|c| - 1]), c[|c| - 1])
  }

  function KeyLocation(base: string, spec: TypeSpec): Location {
    At(base, FieldPath(spec.key))
  }

  /** A key declared before quotes where it was declared the time before. */
  function KeyErrors(spec: TypeSpec, entry: EntrySpec, keys: map<EntryId, string>, base: string): seq<Diagnostic> {
    match EntryKey(spec, entry)
    case None => []
    case Some(key) =>
      if !IsKeyValue(key) then [Diagnostic(InvalidKey, KeyLocation(base, spec), [])]
      else if (entry.entryType, key) in keys then
        [Diagnostic(DuplicateKey, KeyLocation(base, spec), [entry.entryType, keys[(entry.entryType, key)]])]
      else []
  }

  function EntryOutcome(g: Grammars, types: map<string, TypeSpec>, keys: map<EntryId, string>, base: string,
                        entry: EntrySpec): seq<Diagnostic> {
    if entry.entryType !in types then
      [Diagnostic(UnknownType, At(base, [Key("type")]),
                  [if IsSlug(entry.entryType) then entry.entryType else INVALID_NAME])]
    else
      EntryErrors(g, base, types[entry.entryType], entry) + KeyErrors(types[entry.entryType], entry, keys, base)
  }

  function EntryErrorsOf(g: Grammars, types: map<string, TypeSpec>, s: Entries, e: Entry): seq<Diagnostic> {
    match SpecOf(e, "RegistryEntry")
    case None => []
    case Some(json) =>
      ScanErrors(g.carries, e.base, json)
      + match EntryAt(g, e) case None => [] case Some(entry) => EntryOutcome(g, types, s.keys, e.base, entry)
  }

  function EntriesErrors(g: Grammars, types: map<string, TypeSpec>, c: seq<Entry>): seq<Diagnostic> {
    if c == [] then []
    else
      var before := c[..|c| - 1];
      EntriesErrors(g, types, before) + EntryErrorsOf(g, types, EnterAll(g, types, before), c[|c| - 1])
  }

  method ValidateEntries(g: Grammars, types: map<string, TypeSpec>, c: seq<Entry>, errors: Log)
      returns (entries: Entries)
    modifies errors
    ensures entries == EnterAll(g, types, c) && errors.items == old(errors.items) + EntriesErrors(g, types, c)
  {
    entries := NO_ENTRIES;
    for i := 0 to |c|
      invariant entries == EnterAll(g, types, c[..i])
      invariant errors.items == old(errors.items) + EntriesErrors(g, types, c[..i])
    {
      assert c[..i + 1][..i] == c[..i];
      Associative(old(errors.items), EntriesErrors(g, types, c[..i]), EntryErrorsOf(g, types, entries, c[i]));
      entries := ValidateEntryDocument(g, types, entries, c[i], errors);
    }
    assert c[..|c|] == c;
  }

  method ValidateEntryDocument(g: Grammars, types: map<string, TypeSpec>, before: Entries, e: Entry, errors: Log)
      returns (entries: Entries)
    modifies errors
    ensures entries == Enter(g, types, before, e)
      && errors.items == old(errors.items) + EntryErrorsOf(g, types, before, e)
  {
    entries := before;
    var json := SpecOf(e, "RegistryEntry");
    if json.None? {
      return;
    }
    ScanCredentials(g.carries, e.base, json.value, errors);
    var read := g.readEntry(json.value);
    if read.None? {
      return;
    }
    Associative(old(errors.items), ScanErrors(g.carries, e.base, json.value),
      EntryOutcome(g, types, before.keys, e.base, read.value));
    entries := ValidateReadEntry(g, types, before, e.base, read.value, errors);
  }

  method ValidateReadEntry(g: Grammars, types: map<string, TypeSpec>, before: Entries, base: string, entry: EntrySpec,
                           errors: Log)
    returns (entries: Entries)
    modifies errors
    ensures errors.items == old(errors.items) + EntryOutcome(g, types, before.keys, base, entry)
    ensures entry.entryType !in types ==> entries == before
    ensures entry.entryType in types ==>
      entries.list == before.list + [Located(base, entry)]
      && entries.keys == match IdOfEntry(types, entry) case None => before.keys case Some(id) => before.keys[id := base]
  {
    entries := before;
    if entry.entryType !in types {
      errors.Push(Diagnostic(UnknownType, At(base, [Key("type")]),
        [if IsSlug(entry.entryType) then entry.entryType else INVALID_NAME]));
      return;
    }
    var spec := types[entry.entryType];
    ValidateEntry(g, base, spec, entry, errors);
    Associative(old(errors.items), EntryErrors(g, base, spec, entry), KeyErrors(spec, entry, before.keys, base));
    var key := EntryKey(spec, entry);
    if key.Some? {
      if IsKeyValue(key.value) {
        var id := (entry.entryType, key.value);
        if id in entries.keys {
          errors.Push(Diagnostic(DuplicateKey, KeyLocation(base, spec), [entry.entryType, entries.keys[id]]));
        }
        entries := entries.(keys := entries.keys[id := base]);
      } else {
        errors.Push(Diagnostic(InvalidKey, KeyLocation(base, spec), []));
      }
    }
    entries := entries.(list := entries.list + [Located(base, entry)]);
  }

  // ------------------------------------------------------- pass 3: relations

  function NamesOfKind(c: seq<Entry>, kind: string): set<string> {
    set e | e in c && KindOf(e.document) == kind && NameOf(e.document).Some? :: NameOf(e.document).value
  }

  /** The known targets of a class: what the caller supplied and, for machines
      and projects, the candidate's own, but only when the class was supplied. */
  function KnownOf(known: map<Class, set<string>>, c: seq<Entry>, group: Class): Option<set<string>> {
    if group !in known then None
    else match group
      case Machines => Some(known[group] + NamesOfKind(c, "Machine"))
      case Projects => Some(known[group] + NamesOfKind(c, "Project"))
      case _ => Some(known[group])
  }

  /** A well-formed Registry reference: the type and the key as written. */
  function ParseReference(reference: string): Option<EntryId> {
    match SplitOnce(reference, '/')
    case Some((typeName, key)) => if IsSlug(typeName) && IsKeyValue(key) then Some((typeName, key)) else None
    case None => None
  }

  const MAX_REFERENCE := 128

  predicate IsExternalId(id: string) {
    id != "" && ByteLength(id) <= MAX_REFERENCE && forall c :: c in id ==> !IsWhitespace(c) && !IsControl(c)
  }

  /** The class of a target outside the Registry, and its name there. */
  function Outside(target: Target): Option<(Class, string)> {
    match target
    case RegistryTarget(_) => None
    case MachineTarget(name) => Some((Machines, name))
    case ProjectTarget(name) => Some((Projects, name))
    case CoolifyTarget(id) => Some((CoolifyResources, id))
    case ProxmoxTarget(id) => Some((ProxmoxGuests, id))
  }

  predicate WellFormedOutside(group: Class, name: string) {
    if group.Machines? || group.Projects? then IsSlug(name) else IsExternalId(name)
  }

  function TargetErrors(types: map<string, TypeSpec>, at: Location, target: Target): seq<Diagnostic> {
    match target
    case RegistryTarget(reference) =>
      (match ParseReference(reference)
       case None => [Diagnostic(InvalidTarget, at, [])]
       case Some(id) => if id.0 in types then [] else [Diagnostic(UnknownTargetType, at, [])])
    case _ =>
      var (group, name) := Outside(target).value;
      if WellFormedOutside(group, name) then []
      else [Diagnostic(InvalidTarget, at, [])]
  }

  /** The target is well-formed and known to be absent. */
  predicate Dangles(types: map<string, TypeSpec>, keys: set<EntryId>, known: map<Class, set<string>>, c: seq<Entry>,
                    target: Target) {
    match target
    case RegistryTarget(reference) =>
      var id := ParseReference(reference);
      id.Some? && id.value.0 in types && (id.value.0, Lower(id.value.1)) !in keys
    case _ =>
      var (group, name) := Outside(target).value;
      WellFormedOutside(group, name) && KnownOf(known, c, group).Some? && name !in KnownOf(known, c, group).value
  }

  function Dangling(at: Location): Diagnostic {
    Diagnostic(DanglingRelation, at, [])
  }

  function RelationAt(base: string, index: nat, leaf: string): Location {
    At(base, [Key("relations"), Index(index), Key(leaf)])
  }

  function RelationTypeErrorsOf(allowed: seq<string>, entryType: string, base: string, index: nat,
                                relation: Relation): seq<Diagnostic> {
    if !IsSlug(relation.relationType) then [Diagnostic(InvalidRelationType, RelationAt(base, index, "type"), [])]
    else if relation.relationType !in allowed
      then [Diagnostic(RelationNotAllowed, RelationAt(base, index, "type"), [entryType])]
    else []
  }

  function RelationErrors(types: map<string, TypeSpec>, l: Located, i: nat): seq<Diagnostic>
    requires i < |l.entry.relations| && l.entry.entryType in types
  {
    var relation := l.entry.relations[i];
    RelationTypeErrorsOf(types[l.entry.entryType].relations, l.entry.entryType, l.base, i, relation)
    + TargetErrors(types, RelationAt(l.base, i, "target"), relation.target)
  }

  function RelationWarnings(types: map<string, TypeSpec>, keys: set<EntryId>, known: map<Class, set<string>>,
                            c: seq<Entry>, l: Located, i: nat): seq<Diagnostic>
    requires i < |l.entry.relations|
  {
    var target := l.entry.relations[i].target;
    if Dangles(types, keys, known, c, target) then [Dangling(RelationAt(l.base, i, "target"))] else []
  }

  function RelationParts(types: map<string, TypeSpec>, l: Located): seq<seq<Diagnostic>>
    requires l.entry.entryType in types
  {
    seq(|l.entry.relations|, i requires 0 <= i < |l.entry.relations| => RelationErrors(types, l, i))
  }

  /** What the first `n` relations of an entry report. */
  function RelationsErrors(types: map<string, TypeSpec>, l: Located, n: nat): seq<Diagnostic>
    requires n <= |l.entry.relations| && l.entry.entryType in types
  {
    Concat(RelationParts(types, l)[..n])
  }

  function RelationsWarnings(types: map<string, TypeSpec>, keys: set<EntryId>, known: map<Class, set<string>>,
                             c: seq<Entry>, l: Located, n: nat): seq<Diagnostic>
    requires n <= |l.entry.relations|
  {
    if n == 0 then []
    else
      RelationsWarnings(types, keys, known, c, l, n - 1) + RelationWarnings(types, keys, known, c, l, n - 1)
  }

  predicate TypesKnown(types: map<string, TypeSpec>, list: seq<Located>) {
    forall l :: l in list ==> l.entry.entryType in types
  }

  function AllRelationsErrors(types: map<string, TypeSpec>, list: seq<Located>): seq<Diagnostic>
    requires TypesKnown(types, list)
  {
    if list == [] then []
    else
      var last := list[|list| - 1];
      AllRelationsErrors(types, list[..|list| - 1]) + RelationsErrors(types, last, |last.entry.relations|)
  }

  function AllRelationsWarnings(types: map<string, TypeSpec>, keys: set<EntryId>, known: map<Class, set<string>>,
                                c: seq<Entry>, list: seq<Located>): seq<Diagnostic> {
    if list == [] then []
    else
      var last := list[|list| - 1];
      AllRelationsWarnings(types, keys, known, c, list[..|list| - 1])
        + RelationsWarnings(types, keys, known, c, last, |last.entry.relations|)
  }

  lemma {:induction false} EntriesTyped(g: Grammars, types: map<string, TypeSpec>, c: seq<Entry>)
    ensures TypesKnown(types, EnterAll(g, types, c).list)
  {
    if c != [] {
      EntriesTyped(g, types, c[..|c| - 1]);
    }
  }

  method ValidateRelations(types: map<string, TypeSpec>, entries: Entries, known: map<Class, set<string>>,
                           c: seq<Entry>, errors: Log, warnings: Log)
    requires errors != warnings && TypesKnown(types, entries.list)
    modifies errors, warnings
    ensures errors.items == old(errors.items) + AllRelationsErrors(types, entries.list)
    ensures warnings.items ==
      old(warnings.items) + AllRelationsWarnings(types, entries.keys.Keys, known, c, entries.list)
  {
    var list := entries.list;
    for i := 0 to |list|
      invariant errors.items == old(errors.items) + AllRelationsErrors(types, list[..i])
      invariant warnings.items ==
        old(warnings.items) + AllRelationsWarnings(types, entries.keys.Keys, known, c, list[..i])
    {
      assert list[..i + 1][..i] == list[..i];
      var n := |list[i].entry.relations|;
      Associative(old(errors.items), AllRelationsErrors(types, list[..i]), RelationsErrors(types, list[i], n));
      Associative(old(warnings.items), AllRelationsWarnings(types, entries.keys.Keys, known, c, list[..i]),
                  RelationsWarnings(types, entries.keys.Keys, known, c, list[i], n));
      ValidateEntryRelations(types, entries.keys, known, c, list[i], errors, warnings);
    }
    assert list[..|list|] == list;
  }

  method ValidateEntryRelations(
      types: map<string, TypeSpec>, keys: map<EntryId, string>, known: map<Class, set<string>>, c: seq<Entry>,
      l: Located, errors: Log, warnings: Log)
    requires errors != warnings && l.entry.entryType in types
    modifies errors, warnings
    ensures errors.items == old(errors.items) + RelationsErrors(types, l, |l.entry.relations|)
    ensures warnings.items ==
      old(warnings.items) + RelationsWarnings(types, keys.Keys, known, c, l, |l.entry.relations|)
  {
    for i := 0 to |l.entry.relations|
      invariant errors.items == old(errors.items) + RelationsErrors(types, l, i)
      invariant warnings.items == old(warnings.items) + RelationsWarnings(types, keys.Keys, known, c, l, i)
    {
      ErrorsStep(types, l, i, old(errors.items));
      WarningsStep(types, keys.Keys, known, c, l, i, old(warnings.items));
      ValidateRelation(types, keys, known, c, l, i, errors, warnings);
    }
  }

  lemma ErrorsStep(types: map<string, TypeSpec>, l: Located, i: nat, start: seq<Diagnostic>)
    requires i < |l.entry.relations| && l.entry.entryType in types
    ensures (start + RelationsErrors(types, l, i)) + RelationErrors(types, l, i)
      == start + RelationsErrors(types, l, i + 1)
  {
    PartAt(types, l, i);
    AppendPart(start, RelationParts(types, l), i);
  }

  lemma PartAt(types: map<string, TypeSpec>, l: Located, i: nat)
    requires i < |l.entry.relations| && l.entry.entryType in types
    ensures RelationParts(types, l)[i] == RelationErrors(types, l, i)
  {
  }

  lemma WarningsStep(types: map<string, TypeSpec>, keys: set<EntryId>, known: map<Class, set<string>>, c: seq<Entry>,
                     l: Located, i: nat, start: seq<Diagnostic>)
    requires i < |l.entry.relations|
    ensures (start + RelationsWarnings(types, keys, known, c, l, i)) + RelationWarnings(types, keys, known, c, l, i)
         == start + RelationsWarnings(types, keys, known, c, l, i + 1)
  {
    Associative(start, RelationsWarnings(types, keys, known, c, l, i), RelationWarnings(types, keys, known, c, l, i));
  }

  method ValidateRelation(types: map<string, TypeSpec>, keys: map<EntryId, string>, known: map<Class, set<string>>,
                          c: seq<Entry>,
                          l: Located, i: nat, errors: Log, warnings: Log)
    requires errors != warnings && l.entry.entryType in types && i < |l.entry.relations|
    modifies errors, warnings
    ensures errors.items == old(errors.items) + RelationErrors(types, l, i)
    ensures warnings.items == old(warnings.items) + RelationWarnings(types, keys.Keys, known, c, l, i)
  {
    var relation, allowed := l.entry.relations[i], types[l.entry.entryType].relations;
    var at := RelationAt(l.base, i, "target");
    Associative(old(errors.items), RelationTypeErrorsOf(allowed, l.entry.entryType, l.base, i, relation),
      TargetErrors(types, at, relation.target));
    CheckRelationType(allowed, l.entry.entryType, l.base, i, relation, errors);
    CheckTarget(at, relation.target, types, keys, known, c, errors, warnings);
  }

  method CheckRelationType(allowed: seq<string>, entryType: string, base: string, index: nat, relation: Relation,
                           errors: Log)
    modifies errors
    ensures errors.items == old(errors.items) + RelationTypeErrorsOf(allowed, entryType, base, index, relation)
  {
    if !IsSlug(relation.relationType) {
      errors.Push(Diagnostic(InvalidRelationType, RelationAt(base, index, "type"), []));
    } else if relation.relationType !in allowed {
      errors.Push(Diagnostic(RelationNotAllowed, RelationAt(base, index, "type"), [entryType]));
    }
  }

  method CheckTarget(at: Location, target: Target, types: map<string, TypeSpec>, keys: map<EntryId, string>,
                     known: map<Class, set<string>>, c: seq<Entry>, errors: Log, warnings: Log)
    requires errors != warnings
    modifies errors, warnings
    ensures errors.items == old(errors.items) + TargetErrors(types, at, target)
    ensures warnings.items == old(warnings.items) + if Dangles(types, keys.Keys, known, c, target) then [Dangling(at)]
      else []
  {
    match target
    case RegistryTarget(reference) =>
      var id := ParseReference(reference);
      if id.None? {
        errors.Push(Diagnostic(InvalidTarget, at, []));
      } else if id.value.0 !in types {
        errors.Push(Diagnostic(UnknownTargetType, at, []));
      } else if (id.value.0, Lower(id.value.1)) !in keys {
        warnings.Push(Dangling(at));
      }
    case _ =>
      var (group, name) := Outside(target).value;
      if !WellFormedOutside(group, name) {
        errors.Push(Diagnostic(InvalidTarget, at, []));
      } else if KnownOf(known, c, group).Some? && name !in KnownOf(known, c, group).value {
        warnings.Push(Dangling(at));
      }
  }

  // ------------------------------------------------------------ the validator

  /** The errors do not mention what is known outside the candidate. */
  function RegistryErrors(g: Grammars, builtins: seq<Builtin>, c: seq<Entry>): seq<Diagnostic> {
    var types := DefineAll(g, builtins, c).specs;
    EntriesTyped(g, types, c);
    TypeErrors(g, builtins, c) + EntriesErrors(g, types, c) + AllRelationsErrors(types, EnterAll(g, types, c).list)
  }

  function RegistryWarnings(g: Grammars, ctx: Context, c: seq<Entry>): seq<Diagnostic> {
    var types := DefineAll(g, ctx.builtins, c).specs;
    var entries := EnterAll(g, types, c);
    AllRelationsWarnings(types, entries.keys.Keys, ctx.known, c, entries.list)
  }

  method ValidateRegistry(g: Grammars, c: seq<Entry>, ctx: Context, errors: Log, warnings: Log)
    requires errors != warnings
    modifies errors, warnings
    ensures errors.items == old(errors.items) + RegistryErrors(g, ctx.builtins, c)
    ensures warnings.items == old(warnings.items) + RegistryWarnings(g, ctx, c)
  {
    var types := ValidateTypes(g, ctx.builtins, c, errors);
    var entries := ValidateEntries(g, types.specs, c, errors);
    EntriesTyped(g, types.specs, c);
    ValidateRelations(types.specs, entries, ctx.known, c, errors, warnings);
    FourParts(old(errors.items), TypeErrors(g, ctx.builtins, c), EntriesErrors(g, types.specs, c),
              AllRelationsErrors(types.specs, entries.list));
  }
}
