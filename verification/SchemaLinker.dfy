/** The generated desired-resource schema: one envelope, one hoisted table of
    definitions, one dispatch per kind. Schemas are JSON values; their meaning
    follows JSON Schema Draft 2020-12. */
module SchemaLinker {
  import opened Wrappers
  import opened JsonValues
  import opened Text

  // ---------------------------------------------------------------- kinds

  datatype ResourceKind =
    | FleetConfig | Machine | Profile | Project | ToolRequirement | SkillPreset
    | Recipe | Action | LabTemplate | PolicyBinding | RegistryType | RegistryEntry
  {
    function Id(): string {
      match this
      case FleetConfig => "FleetConfig"
      case Machine => "Machine"
      case Profile => "Profile"
      case Project => "Project"
      case ToolRequirement => "ToolRequirement"
      case SkillPreset => "SkillPreset"
      case Recipe => "Recipe"
      case Action => "Action"
      case LabTemplate => "LabTemplate"
      case PolicyBinding => "PolicyBinding"
      case RegistryType => "RegistryType"
      case RegistryEntry => "RegistryEntry"
    }
  }

  const ALL_KINDS: seq<ResourceKind> := [
    FleetConfig, Machine, Profile, Project, ToolRequirement, SkillPreset,
    Recipe, Action, LabTemplate, PolicyBinding, RegistryType, RegistryEntry]

  // ------------------------------------------------- meaning of a schema

  /** What a keyword does: apply subschemas, assert something of the instance
      by its argument alone, or annotate. */
  datatype Keyword =
    | Reference | AllOf | AnyOf | OneOf | Not | If | Branch | Properties | Additional | Items
    | Const | Assertion | Annotation

  const ASSERTIONS: set<string> := {
    "type", "enum", "multipleOf", "maximum", "exclusiveMaximum", "minimum", "exclusiveMinimum",
    "maxLength", "minLength", "pattern", "maxItems", "minItems", "uniqueItems",
    "maxProperties", "minProperties", "required", "dependentRequired", "format"}

  function Classify(k: string): Keyword {
    if k == "$ref" then Reference
    else if k == "allOf" then AllOf
    else if k == "anyOf" then AnyOf
    else if k == "oneOf" then OneOf
    else if k == "not" then Not
    else if k == "if" then If
    else if k == "then" || k == "else" then Branch
    else if k == "properties" then Properties
    else if k == "additionalProperties" then Additional
    else if k == "items" then Items
    else if k == "const" then Const
    else if k in ASSERTIONS then Assertion
    else Annotation
  }

  /** How one assertion keyword judges an instance: keyword, argument, instance. */
  type Vocabulary = (string, Json, Json) -> bool

  /** One reference token of a JSON pointer, `~1` and `~0` decoded. */
  function Unescape(token: string): string {
    if token == [] then ""
    else if "~1" <= token then "/" + Unescape(token[2..])
    else if "~0" <= token then "~" + Unescape(token[2..])
    else [token[0]] + Unescape(token[1..])
  }

  function Navigate(j: Json, tokens: seq<string>): Option<Json>
    decreases |tokens|
  {
    if tokens == [] then Some(j)
    else match Get(j, Unescape(tokens[0]))
      case Some(next) => Navigate(next, tokens[1..])
      case None => None
  }

  /** The subschema a same-document reference names. */
  function Resolve(root: Json, reference: string): Option<Json> {
    if reference == "#" then Some(root)
    else if "#/" <= reference then Navigate(root, Split(reference[2..], '/'))
    else None
  }

  /** Whether schema `s` of document `root` accepts `v`. References may recurse
      without consuming the instance, so at most `fuel` of them are followed on
      any path and the next one answers `cut`: a verdict that two cuts agree on
      is the schema's own. */
  ghost predicate Accepts(voc: Vocabulary, root: Json, s: Json, v: Json, fuel: nat, cut: bool)
    decreases fuel, s, 1
  {
    match s
    case Bool(b) => b
    case Obj(m) => forall k :: k in m ==> Holds(voc, root, s, k, Classify(k), v, fuel, cut)
    case _ => false
  }

  /** Whether member `k` of schema object `s`, a keyword of class `kw`, holds of `v`. */
  ghost predicate Holds(voc: Vocabulary, root: Json, s: Json, k: string, kw: Keyword, v: Json, fuel: nat, cut: bool)
    requires s.Obj? && k in s.fields
    decreases fuel, s, 0
  {
    var arg := s.fields[k];
    match kw
    case Reference =>
      arg.Str? ==>
        if fuel == 0 then cut
        else Resolve(root, arg.str).Some? && Accepts(voc, root, Resolve(root, arg.str).value, v, fuel - 1, cut)
    case AllOf =>
      arg.Arr? ==> forall i :: 0 <= i < |arg.items| ==> Accepts(voc, root, arg.items[i], v, fuel, cut)
    case AnyOf => arg.Arr? ==> Accepting(voc, root, arg, v, fuel, cut) != {}
    case OneOf => arg.Arr? ==> |Accepting(voc, root, arg, v, fuel, cut)| == 1
    case Not => !Accepts(voc, root, arg, v, fuel, cut)
    case If =>
      if Accepts(voc, root, arg, v, fuel, cut)
      then "then" in s.fields ==> Accepts(voc, root, s.fields["then"], v, fuel, cut)
      else "else" in s.fields ==> Accepts(voc, root, s.fields["else"], v, fuel, cut)
    case Properties =>
      arg.Obj? && v.Obj? ==>
        forall p :: p in arg.fields && p in v.fields ==> Accepts(voc, root, arg.fields[p], v.fields[p], fuel, cut)
    case Additional =>
      v.Obj? ==>
        forall p :: p in v.fields && p !in Declared(s) ==> Accepts(voc, root, arg, v.fields[p], fuel, cut)
    case Items =>
      v.Arr? ==> forall i :: 0 <= i < |v.items| ==> Accepts(voc, root, arg, v.items[i], fuel, cut)
    case Const => v == arg
    case Assertion => voc(k, arg, v)
    case _ => true
  }

  /** The positions of the listed subschemas that accept `v`. */
  ghost function Accepting(voc: Vocabulary, root: Json, list: Json, v: Json, fuel: nat, cut: bool): set<nat>
    requires list.Arr?
    decreases fuel, list, 0
  {
    set i: nat | 0 <= i < |list.items| && Accepts(voc, root, list.items[i], v, fuel, cut)
  }

  /** The property names a schema object declares. */
  function Declared(s: Json): set<string> {
    match Get(s, "properties")
    case Some(Obj(props)) => props.Keys
    case _ => {}
  }

  // --------------------------------------------------------- the linker

  const LOCAL := "#/$defs/"
  const HOISTED := "#/$defs:"
  const DEFS_PREFIX := "$defs:"

  function RewriteText(s: string): string {
    Replace(s, LOCAL, HOISTED)
  }

  /** Replacing in the serialized text replaces in every string and key: the
      marker has no quote, so it never spans two of them. Members are written
      in key order, and of two keys that become equal the last is read back. */
  function Rewrite(j: Json): Json {
    match j
    case Str(s) => Str(RewriteText(s))
    case Arr(items) => Arr(seq(|items|, i requires 0 <= i < |items| => Rewrite(items[i])))
    case Obj(m) =>
      var values := map k | k in m :: Rewrite(m[k]);
      Obj(RenameKeys(values, SortedKeys(values.Keys)))
    case _ => j
  }

  /** `m` with its keys rewritten, read back in the order `keys`. */
  function RenameKeys(m: map<string, Json>, keys: seq<string>): map<string, Json>
    requires forall k :: k in keys ==> k in m
  {
    if keys == [] then map[]
    else
      var last := |keys| - 1;
      RenameKeys(m, keys[..last])[RewriteText(keys[last]) := m[keys[last]]]
  }

  function Defs(spec: Json): map<string, Json> {
    match Get(spec, "$defs")
    case Some(Obj(defs)) => defs
    case _ => map[]
  }

  /** The root member a definition is hoisted to. */
  function HoistedName(name: string): string {
    DEFS_PREFIX + name
  }

  /** Every definition of `defs` under its hoisted name. */
  function UnderHoistedNames(defs: map<string, Json>): map<string, Json> {
    var names := set n | n in defs :: HoistedName(n);
    map key | key in names :: defs[key[|DEFS_PREFIX|..]]
  }

  lemma UnderHoistedName(defs: map<string, Json>, key: string)
    ensures key in UnderHoistedNames(defs) <==> DEFS_PREFIX <= key && key[|DEFS_PREFIX|..] in defs
    ensures key in UnderHoistedNames(defs) ==> UnderHoistedNames(defs)[key] == defs[key[|DEFS_PREFIX|..]]
  {
    assert DEFS_PREFIX <= key ==> key == HoistedName(key[|DEFS_PREFIX|..]);
  }

  lemma UnderHoistedNamesInsert(defs: map<string, Json>, name: string, def: Json)
    ensures UnderHoistedNames(defs[name := def]) == UnderHoistedNames(defs)[HoistedName(name) := def]
  {
    assert HoistedName(name)[|DEFS_PREFIX|..] == name;
    var after, hoisted := UnderHoistedNames(defs[name := def]), UnderHoistedNames(defs)[HoistedName(name) := def];
    forall key ensures (key in after <==> key in hoisted) && (key in after ==> after[key] == hoisted[key]) {
      UnderHoistedName(defs, key);
      UnderHoistedName(defs[name := def], key);
    }
  }

  function RewriteAll(defs: map<string, Json>): map<string, Json> {
    map n | n in defs :: Rewrite(defs[n])
  }

  /** The spec schema as it is placed under its kind. */
  function Body(spec: Json): Json {
    Rewrite(if spec.Obj? then Obj(spec.fields - {"$defs", "$schema"}) else spec)
  }

  function Dispatch(kind: ResourceKind, body: Json): Json {
    Obj(map[
      "if" := Obj(map["properties" := Obj(map["kind" := Obj(map["const" := Str(kind.Id())])])]),
      "then" := Obj(map["properties" := Obj(map["spec" := body])])])
  }

  function HoistAll(root: map<string, Json>, specOf: ResourceKind -> Json, n: nat): map<string, Json>
    requires n <= |ALL_KINDS|
  {
    if n == 0 then root
    else HoistAll(root, specOf, n - 1) + UnderHoistedNames(RewriteAll(Defs(specOf(ALL_KINDS[n - 1]))))
  }

  const SCHEMA_ID := "https://schemas.frogbyte.io/fleet/desired-resource-v1alpha1.json"

  /** The linked schema, as a function of the envelope and the spec schemas. */
  function Linked(envelope: map<string, Json>, specOf: ResourceKind -> Json): Json {
    Obj(HoistAll(envelope, specOf, |ALL_KINDS|)[
        "$id" := Str(SCHEMA_ID)][
        "allOf" := Arr(Rules(specOf, |ALL_KINDS|))])
  }

  /** The kinds' dispatch rules, in kind order. */
  function Rules(specOf: ResourceKind -> Json, n: nat): seq<Json>
    requires n <= |ALL_KINDS|
  {
    if n == 0 then []
    else Rules(specOf, n - 1) + [Dispatch(ALL_KINDS[n - 1], Body(specOf(ALL_KINDS[n - 1])))]
  }

  method GenerateSchema(envelope: map<string, Json>, specOf: ResourceKind -> Json) returns (schema: Json)
    ensures schema == Linked(envelope, specOf)
  {
    var root := envelope;
    var allOf: seq<Json> := [];
    for n := 0 to |ALL_KINDS|
      invariant root == HoistAll(envelope, specOf, n)
      invariant allOf == Rules(specOf, n)
    {
      var kind := ALL_KINDS[n];
      var defs, body := TakeDefinitions(specOf(kind));
      root := InsertDefinitions(root, defs);
      allOf := allOf + [Dispatch(kind, body)];
    }
    root := root["$id" := Str(SCHEMA_ID)];
    root := root["allOf" := Arr(allOf)];
    schema := Obj(root);
  }

  /** Takes a spec schema's own definitions and dialect off it and rewrites the rest. */
  method TakeDefinitions(spec: Json) returns (defs: map<string, Json>, body: Json)
    ensures defs == Defs(spec) && body == Body(spec)
  {
    defs := map[];
    var specSchema := spec;
    if specSchema.Obj? {
      var specObject := specSchema.fields;
      if "$defs" in specObject {
        if specObject["$defs"].Obj? {
          defs := specObject["$defs"].fields;
        }
        specObject := specObject - {"$defs"};
      }
      specObject := specObject - {"$schema"};
      assert specObject == spec.fields - {"$defs", "$schema"};
      specSchema := Obj(specObject);
    }
    body := Rewrite(specSchema);
  }

  method InsertDefinitions(start: map<string, Json>, defs: map<string, Json>) returns (root: map<string, Json>)
    ensures root == start + UnderHoistedNames(RewriteAll(defs))
  {
    root := start;
    var left := defs.Keys;
    ghost var done: map<string, Json> := map[];
    while left != {}
      invariant left <= defs.Keys && done.Keys == defs.Keys - left
      invariant AreRewritten(done, defs)
      invariant root == start + UnderHoistedNames(done)
      decreases left
    {
      var name :| name in left;
      var rewritten := Rewrite(defs[name]);
      InsertOne(start, done, name, rewritten);
      done := done[name := rewritten];
      root := root[HoistedName(name) := rewritten];
      left := left - {name};
    }
    AllRewritten(done, defs);
  }

  /** `done` holds some of the definitions, rewritten. */
  predicate AreRewritten(done: map<string, Json>, defs: map<string, Json>) {
    forall n :: n in done ==> n in defs && done[n] == Rewrite(defs[n])
  }

  lemma AllRewritten(done: map<string, Json>, defs: map<string, Json>)
    requires AreRewritten(done, defs) && done.Keys == defs.Keys
    ensures done == RewriteAll(defs)
  {
  }

  lemma InsertOne(start: map<string, Json>, done: map<string, Json>, name: string, rewritten: Json)
    ensures (start + UnderHoistedNames(done))[HoistedName(name) := rewritten]
      == start + UnderHoistedNames(done[name := rewritten])
  {
    UnderHoistedNamesInsert(done, name, rewritten);
    AddThenUpdate(start, UnderHoistedNames(done), HoistedName(name), rewritten);
  }

  lemma AddThenUpdate(a: map<string, Json>, b: map<string, Json>, key: string, value: Json)
    ensures (a + b)[key := value] == a + b[key := value]
  {
  }
}
