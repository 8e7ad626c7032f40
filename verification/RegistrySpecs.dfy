/** Registry types and entries as they are read from a spec, and what checking
    one of them alone reports. */
module RegistrySpecs {
  import opened Wrappers
  import opened Text
  import opened TextSearch
  import opened JsonValues
  import opened Diagnostics
  import opened Sequences
  import opened RegistryNames
  import opened RegistryScan

  datatype Scalar = String | LongText | Number | Boolean | Date | Url | Hostname | Email | Money | Enum

  /** No scalar for a list. */
  datatype FieldSpec = FieldSpec(
    scalar: Option<Scalar>, items: Option<Scalar>, required: bool, suggestions: seq<string>)

  datatype TypeSpec = TypeSpec(key: string, fields: map<string, FieldSpec>, relations: seq<string>)

  datatype Link = Link(caption: string, url: string)

  datatype Target = RegistryTarget(reference: string) | MachineTarget(name: string) | ProjectTarget(name: string)
    | CoolifyTarget(id: string) | ProxmoxTarget(id: string)

  datatype Relation = Relation(relationType: string, target: Target)

  datatype EntrySpec = EntrySpec(
    entryType: string, fields: map<string, Json>, tags: seq<string>, links: seq<Link>, relations: seq<Relation>)

  /** What is decided elsewhere: the scrubber, reading a spec, the grammars of
      single values. */
  datatype Grammars = Grammars(
    carries: Scrubber,
    readType: Json -> Option<TypeSpec>,
    readEntry: Json -> Option<EntrySpec>,
    scalar: (Scalar, Json) -> bool,
    url: string -> bool)

  predicate IsControl(c: char) {
    c as int < 0x20 || 0x7f <= c as int <= 0x9f
  }

  predicate HasControl(s: string) {
    exists c :: c in s && IsControl(c)
  }

  function At(base: string, path: Path): Location {
    Location(base, [Key("spec")] + path)
  }

  // ----------------------------------------------------- a type definition

  function Invalid(base: string, path: Path, detail: seq<string>): Diagnostic {
    Diagnostic(InvalidType, At(base, path), detail)
  }

  function FieldPath(name: string): Path {
    [Key("fields"), Key(SafeKey(name))]
  }

  predicate KeyScalar(scalar: Option<Scalar>) {
    scalar == Some(String) || scalar == Some(Enum) || scalar == Some(Hostname) || scalar == Some(Email)
  }

  function KeyFieldErrors(base: string, name: string, spec: TypeSpec): seq<Diagnostic> {
    if spec.key !in spec.fields then [Invalid(base, [Key("key")], [name])]
    else
      var field := spec.fields[spec.key];
      (if field.required then [] else [Invalid(base, FieldPath(spec.key) + [Key("required")], [])])
      + if KeyScalar(field.scalar) then [] else [Invalid(base, FieldPath(spec.key) + [Key("type")], [])]
  }

  predicate Suggestible(field: FieldSpec) {
    field.scalar.None? || field.scalar == Some(String) || field.scalar == Some(Enum)
  }

  predicate NeedsSuggestions(field: FieldSpec) {
    field.scalar == Some(Enum) || field.items == Some(Enum)
  }

  function FieldSpecErrors(base: string, name: string, field: FieldSpec): seq<Diagnostic> {
    (if IsFieldName(name) then [] else [Invalid(base, FieldPath(name), [])])
    + (if field.scalar.None? == field.items.None? then [Invalid(base, FieldPath(name) + [Key("items")], [])] else [])
    + (if field.suggestions != [] && !Suggestible(field)
       then [Invalid(base, FieldPath(name) + [Key("suggestions")], [])] else [])
    + (if NeedsSuggestions(field)
      && field.suggestions == [] then [Invalid(base, FieldPath(name) + [Key("suggestions")], [])] else [])
  }

  function FieldSpecsErrors(base: string, fields: map<string, FieldSpec>, names: seq<string>): seq<Diagnostic>
    requires forall name :: name in names ==> name in fields
  {
    if names == [] then []
    else
      var last := names[|names| - 1];
      FieldSpecsErrors(base, fields, names[..|names| - 1]) + FieldSpecErrors(base, last, fields[last])
  }

  function RelationTypeErrors(base: string, relations: seq<string>): seq<Diagnostic> {
    if relations == [] then []
    else
      var last := |relations| - 1;
      RelationTypeErrors(base, relations[..last])
      + if IsSlug(relations[last]) && relations[last] !in relations[..last] then []
        else [Invalid(base, [Key("relations"), Index(last)], [])]
  }

  function DefinitionErrors(base: string, name: string, spec: TypeSpec): seq<Diagnostic> {
    KeyFieldErrors(base, name, spec)
    + FieldSpecsErrors(base, spec.fields, SortedKeys(spec.fields.Keys))
    + RelationTypeErrors(base, spec.relations)
  }

  method ValidateTypeDefinition(base: string, name: string, spec: TypeSpec, errors: Log)
    modifies errors
    ensures errors.items == old(errors.items) + DefinitionErrors(base, name, spec)
  {
    CheckKeyField(base, name, spec, errors);
    CheckFieldSpecs(base, spec.fields, errors);
    CheckRelationTypes(base, spec.relations, errors);
    FourParts(old(errors.items), KeyFieldErrors(base, name, spec),
              FieldSpecsErrors(base, spec.fields, SortedKeys(spec.fields.Keys)),
                RelationTypeErrors(base, spec.relations));
  }

  method CheckKeyField(base: string, name: string, spec: TypeSpec, errors: Log)
    modifies errors
    ensures errors.items == old(errors.items) + KeyFieldErrors(base, name, spec)
  {
    if spec.key !in spec.fields {
      errors.Push(Invalid(base, [Key("key")], [name]));
      return;
    }
    var field := spec.fields[spec.key];
    if !field.required {
      errors.Push(Invalid(base, FieldPath(spec.key) + [Key("required")], []));
    }
    if !KeyScalar(field.scalar) {
      errors.Push(Invalid(base, FieldPath(spec.key) + [Key("type")], []));
    }
  }

  method CheckFieldSpecs(base: string, fields: map<string, FieldSpec>, errors: Log)
    modifies errors
    ensures errors.items == old(errors.items) + FieldSpecsErrors(base, fields, SortedKeys(fields.Keys))
  {
    var names := SortedKeys(fields.Keys);
    for i := 0 to |names|
      invariant errors.items == old(errors.items) + FieldSpecsErrors(base, fields, names[..i])
    {
      assert names[..i + 1][..i] == names[..i];
      Associative(old(errors.items), FieldSpecsErrors(base, fields, names[..i]),
                  FieldSpecErrors(base, names[i], fields[names[i]]));
      CheckFieldSpec(base, names[i], fields[names[i]], errors);
    }
    assert names[..|names|] == names;
  }

  method CheckFieldSpec(base: string, name: string, field: FieldSpec, errors: Log)
    modifies errors
    ensures errors.items == old(errors.items) + FieldSpecErrors(base, name, field)
  {
    if !IsFieldName(name) {
      errors.Push(Invalid(base, FieldPath(name), []));
    }
    match (field.scalar, field.items) {
      case (None, None) => errors.Push(Invalid(base, FieldPath(name) + [Key("items")], []));
      case (Some(_), Some(_)) => errors.Push(Invalid(base, FieldPath(name) + [Key("items")], []));
      case _ =>
    }
    if field.suggestions != [] && !Suggestible(field) {
      errors.Push(Invalid(base, FieldPath(name) + [Key("suggestions")], []));
    }
    if NeedsSuggestions(field) && field.suggestions == [] {
      errors.Push(Invalid(base, FieldPath(name) + [Key("suggestions")], []));
    }
  }

  method CheckRelationTypes(base: string, relations: seq<string>, errors: Log)
    modifies errors
    ensures errors.items == old(errors.items) + RelationTypeErrors(base, relations)
  {
    var seen: set<string> := {};
    for i := 0 to |relations|
      invariant forall r :: r in seen <==> r in relations[..i] && IsSlug(r)
      invariant errors.items == old(errors.items) + RelationTypeErrors(base, relations[..i])
    {
      assert relations[..i + 1][..i] == relations[..i];
      assert relations[..i + 1] == relations[..i] + [relations[i]];
      if !IsSlug(relations[i]) || relations[i] in seen {
        errors.Push(Invalid(base, [Key("relations"), Index(i)], []));
      } else {
        seen := seen + {relations[i]};
      }
    }
    assert relations[..|relations|] == relations;
  }

  // ---------------------------------------------------------- field values

  function Mismatch(base: string, path: Path): Diagnostic {
    Diagnostic(FieldType, At(base, path), [])
  }

  const MAX_ITEMS := 64

  function ItemErrors(g: Grammars, base: string, path: Path, item: Scalar, items: seq<Json>): seq<Diagnostic> {
    if items == [] then []
    else
      var last := |items| - 1;
      ItemErrors(g, base, path, item, items[..last])
      + if !g.scalar(item, items[last]) then [Mismatch(base, path + [Index(last)])]
        else if items[last] in items[..last] then [Diagnostic(DuplicateItem, At(base, path + [Index(last)]), [])]
        else []
  }

  function ValueErrors(g: Grammars, base: string, path: Path, field: FieldSpec, value: Json): seq<Diagnostic> {
    if field.scalar.Some? then (if g.scalar(field.scalar.value, value) then [] else [Mismatch(base, path)])
    else if field.items.None? then []
    else if value.Arr? && |value.items| <= MAX_ITEMS then ItemErrors(g, base, path, field.items.value, value.items)
    else [Mismatch(base, path)]
  }

  method ValidateFieldValue(g: Grammars, base: string, path: Path, field: FieldSpec, value: Json, errors: Log)
    modifies errors
    ensures errors.items == old(errors.items) + ValueErrors(g, base, path, field, value)
  {
    match (field.scalar, field.items)
    case (Some(scalar), _) =>
      if !g.scalar(scalar, value) {
        errors.Push(Mismatch(base, path));
      }
    case (None, Some(item)) =>
      if value.Arr? && |value.items| <= MAX_ITEMS {
        for i := 0 to |value.items|
          invariant errors.items == old(errors.items) + ItemErrors(g, base, path, item, value.items[..i])
        {
          assert value.items[..i + 1][..i] == value.items[..i];
          if !g.scalar(item, value.items[i]) {
            errors.Push(Mismatch(base, path + [Index(i)]));
          } else if value.items[i] in value.items[..i] {
            errors.Push(Diagnostic(DuplicateItem, At(base, path + [Index(i)]), []));
          }
        }
        assert value.items[..|value.items|] == value.items;
      } else {
        errors.Push(Mismatch(base, path));
      }
    case (None, None) =>
  }

  // --------------------------------------------------------- an entry alone

  function EntryFieldErrors(g: Grammars, base: string, spec: TypeSpec, entry: EntrySpec,
                            names: seq<string>): seq<Diagnostic>
    requires forall name :: name in names ==> name in entry.fields
  {
    if names == [] then []
    else
      var last := names[|names| - 1];
      EntryFieldErrors(g, base, spec, entry, names[..|names| - 1])
      + if last in spec.fields then ValueErrors(g, base, FieldPath(last), spec.fields[last], entry.fields[last])
        else [Diagnostic(UnknownField, At(base, FieldPath(last)), [entry.entryType])]
  }

  function RequiredErrors(base: string, spec: TypeSpec, entry: EntrySpec, names: seq<string>): seq<Diagnostic>
    requires forall name :: name in names ==> name in spec.fields
  {
    if names == [] then []
    else
      var last := names[|names| - 1];
      RequiredErrors(base, spec, entry, names[..|names| - 1])
      + if spec.fields[last].required && last !in entry.fields
        then [Diagnostic(MissingRequired, At(base, [Key("fields")]), [SafeKey(last)])] else []
  }

  function TagErrors(base: string, tags: seq<string>): seq<Diagnostic> {
    if tags == [] then []
    else
      var last := |tags| - 1;
      TagErrors(base, tags[..last])
      + if IsSlug(tags[last]) && tags[last] !in tags[..last] then []
        else [Diagnostic(InvalidTag, At(base, [Key("tags"), Index(last)]), [])]
  }

  predicate BadCaption(caption: string) {
    Trim(caption) == "" || HasControl(caption)
  }

  function LinkProblemsOf(g: Grammars, base: string, i: nat, link: Link): seq<Diagnostic> {
    (if g.url(link.url) then [] else [Diagnostic(InvalidLink, At(base, [Key("links"), Index(i), Key("url")]), [])])
    + if BadCaption(link.caption) then [Diagnostic(InvalidLink, At(base, [Key("links"), Index(i), Key("label")]), [])]
      else []
  }

  function LinkProblems(g: Grammars, base: string, links: seq<Link>): seq<Diagnostic> {
    if links == [] then []
    else
      LinkProblems(g, base, links[..|links| - 1]) + LinkProblemsOf(g, base, |links| - 1, links[|links| - 1])
  }

  function EntryErrors(g: Grammars, base: string, spec: TypeSpec, entry: EntrySpec): seq<Diagnostic> {
    EntryFieldErrors(g, base, spec, entry, SortedKeys(entry.fields.Keys))
    + RequiredErrors(base, spec, entry, SortedKeys(spec.fields.Keys))
    + TagErrors(base, entry.tags)
    + LinkProblems(g, base, entry.links)
  }

  method ValidateEntry(g: Grammars, base: string, spec: TypeSpec, entry: EntrySpec, errors: Log)
    modifies errors
    ensures errors.items == old(errors.items) + EntryErrors(g, base, spec, entry)
  {
    CheckEntryFields(g, base, spec, entry, errors);
    CheckRequired(base, spec, entry, errors);
    CheckTags(base, entry.tags, errors);
    CheckLinks(g, base, entry.links, errors);
    FiveParts(old(errors.items), EntryFieldErrors(g, base, spec, entry, SortedKeys(entry.fields.Keys)),
              RequiredErrors(base, spec, entry, SortedKeys(spec.fields.Keys)), TagErrors(base, entry.tags),
                LinkProblems(g, base, entry.links));
  }

  lemma FiveParts<T>(a: seq<T>, b: seq<T>, c: seq<T>, d: seq<T>, e: seq<T>)
    ensures a + (b + c + d + e) == a + b + c + d + e
  {
  }

  method CheckEntryFields(g: Grammars, base: string, spec: TypeSpec, entry: EntrySpec, errors: Log)
    modifies errors
    ensures errors.items == old(errors.items) + EntryFieldErrors(g, base, spec, entry, SortedKeys(entry.fields.Keys))
  {
    var names := SortedKeys(entry.fields.Keys);
    for i := 0 to |names|
      invariant errors.items == old(errors.items) + EntryFieldErrors(g, base, spec, entry, names[..i])
    {
      assert names[..i + 1][..i] == names[..i];
      var name := names[i];
      if name in spec.fields {
        Associative(old(errors.items), EntryFieldErrors(g, base, spec, entry, names[..i]),
                    ValueErrors(g, base, FieldPath(name), spec.fields[name], entry.fields[name]));
        ValidateFieldValue(g, base, FieldPath(name), spec.fields[name], entry.fields[name], errors);
      } else {
        errors.Push(Diagnostic(UnknownField, At(base, FieldPath(name)), [entry.entryType]));
      }
    }
    assert names[..|names|] == names;
  }

  method CheckRequired(base: string, spec: TypeSpec, entry: EntrySpec, errors: Log)
    modifies errors
    ensures errors.items == old(errors.items) + RequiredErrors(base, spec, entry, SortedKeys(spec.fields.Keys))
  {
    var names := SortedKeys(spec.fields.Keys);
    for i := 0 to |names|
      invariant errors.items == old(errors.items) + RequiredErrors(base, spec, entry, names[..i])
    {
      assert names[..i + 1][..i] == names[..i];
      if spec.fields[names[i]].required && names[i] !in entry.fields {
        errors.Push(Diagnostic(MissingRequired, At(base, [Key("fields")]), [SafeKey(names[i])]));
      }
    }
    assert names[..|names|] == names;
  }

  method CheckTags(base: string, tags: seq<string>, errors: Log)
    modifies errors
    ensures errors.items == old(errors.items) + TagErrors(base, tags)
  {
    var seen: set<string> := {};
    for i := 0 to |tags|
      invariant forall t :: t in seen <==> t in tags[..i] && IsSlug(t)
      invariant errors.items == old(errors.items) + TagErrors(base, tags[..i])
    {
      assert tags[..i + 1][..i] == tags[..i];
      assert tags[..i + 1] == tags[..i] + [tags[i]];
      if !IsSlug(tags[i]) {
        errors.Push(Diagnostic(InvalidTag, At(base, [Key("tags"), Index(i)]), []));
      } else if tags[i] in seen {
        errors.Push(Diagnostic(InvalidTag, At(base, [Key("tags"), Index(i)]), []));
      } else {
        seen := seen + {tags[i]};
      }
    }
    assert tags[..|tags|] == tags;
  }

  method CheckLinks(g: Grammars, base: string, links: seq<Link>, errors: Log)
    modifies errors
    ensures errors.items == old(errors.items) + LinkProblems(g, base, links)
  {
    for i := 0 to |links|
      invariant errors.items == old(errors.items) + LinkProblems(g, base, links[..i])
    {
      assert links[..i + 1][..i] == links[..i];
      Associative(old(errors.items), LinkProblems(g, base, links[..i]), LinkProblemsOf(g, base, i, links[i]));
      CheckLink(g, base, i, links[i], errors);
    }
    assert links[..|links|] == links;
  }

  method CheckLink(g: Grammars, base: string, i: nat, link: Link, errors: Log)
    modifies errors
    ensures errors.items == old(errors.items) + LinkProblemsOf(g, base, i, link)
  {
    if !g.url(link.url) {
      errors.Push(Diagnostic(InvalidLink, At(base, [Key("links"), Index(i), Key("url")]), []));
    }
    if BadCaption(link.caption) {
      errors.Push(Diagnostic(InvalidLink, At(base, [Key("links"), Index(i), Key("label")]), []));
    }
  }

  /** The natural key of an entry, case folded. */
  function EntryKey(spec: TypeSpec, entry: EntrySpec): Option<string> {
    if spec.key in entry.fields && entry.fields[spec.key].Str? then Some(Lower(entry.fields[spec.key].str)) else None
  }
}
