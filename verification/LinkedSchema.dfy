/** What the linked document as a whole accepts. */
module LinkedSchema {
  import opened Wrappers
  import opened JsonValues
  import opened SchemaLinker
  import opened SchemaMeaning

  /** What the linker is given: an envelope without an `allOf` of its own, and
      spec schemas whose equally named definitions are equal. */
  ghost predicate LinkerInput(envelope: map<string, Json>, specOf: ResourceKind -> Json) {
    && LinkableDocument(Obj(envelope)) && "allOf" !in envelope
    && (forall k: ResourceKind :: LinkableDocument(specOf(k)))
    && forall a: ResourceKind, b: ResourceKind, n: string ::
         n in Defs(specOf(a)) && n in Defs(specOf(b)) ==> Defs(specOf(a))[n] == Defs(specOf(b))[n]
  }

  // ------------------------------------------------------ kinds and rules

  lemma KindIdsDistinct(a: ResourceKind, b: ResourceKind)
    requires a.Id() == b.Id()
    ensures a == b
  {
    assert |a.Id()| == |b.Id()| && a.Id()[0] == b.Id()[0] && a.Id()[2] == b.Id()[2]
      && a.Id()[|a.Id()| - 1] == b.Id()[|b.Id()| - 1];
  }

  /** The kind a document means by its `kind` text. */
  function KindNamed(text: string): Option<ResourceKind> {
    if text == "FleetConfig" then Some(FleetConfig)
    else if text == "Machine" then Some(Machine)
    else if text == "Profile" then Some(Profile)
    else if text == "Project" then Some(Project)
    else if text == "ToolRequirement" then Some(ToolRequirement)
    else if text == "SkillPreset" then Some(SkillPreset)
    else if text == "Recipe" then Some(Recipe)
    else if text == "Action" then Some(Action)
    else if text == "LabTemplate" then Some(LabTemplate)
    else if text == "PolicyBinding" then Some(PolicyBinding)
    else if text == "RegistryType" then Some(RegistryType)
    else if text == "RegistryEntry" then Some(RegistryEntry)
    else None
  }

  lemma KindByName(text: string, kind: ResourceKind)
    ensures KindNamed(text) == Some(kind) <==> text == kind.Id()
  {
    if text == kind.Id() { KindIdsDistinct(KindNamed(text).value, kind); }
  }

  lemma EveryKindHasARule(kind: ResourceKind) returns (i: nat)
    ensures i < |ALL_KINDS| && ALL_KINDS[i] == kind
  {
    i := match kind
      case FleetConfig => 0
      case Machine => 1
      case Profile => 2
      case Project => 3
      case ToolRequirement => 4
      case SkillPreset => 5
      case Recipe => 6
      case Action => 7
      case LabTemplate => 8
      case PolicyBinding => 9
      case RegistryType => 10
      case RegistryEntry => 11;
  }

  lemma {:induction false} RuleAt(specOf: ResourceKind -> Json, n: nat, i: nat)
    requires i < n <= |ALL_KINDS|
    ensures |Rules(specOf, n)| == n && Rules(specOf, n)[i] == Dispatch(ALL_KINDS[i], Body(specOf(ALL_KINDS[i])))
  {
    RuleCount(specOf, n - 1);
    if i < n - 1 { RuleAt(specOf, n - 1, i); }
  }

  lemma {:induction false} RuleCount(specOf: ResourceKind -> Json, n: nat)
    requires n <= |ALL_KINDS|
    ensures |Rules(specOf, n)| == n
  {
    if n > 0 { RuleCount(specOf, n - 1); }
  }

  /** A rule's condition only fails on an object whose kind is another one. */
  predicate Selects(v: Json, kind: ResourceKind) {
    !v.Obj? || "kind" !in v.fields || v.fields["kind"] == Str(kind.Id())
  }

  lemma RuleMeaning(voc: Vocabulary, root: Json, kind: ResourceKind, body: Json, v: Json, fuel: nat, cut: bool)
    ensures Accepts(voc, root, Dispatch(kind, body), v, fuel, cut)
       <==> (Selects(v, kind) && v.Obj? && "spec" in v.fields ==> Accepts(voc, root, body, v.fields["spec"], fuel, cut))
  {
    var isKind := Obj(map["const" := Str(kind.Id())]);
    OneProperty(voc, root, "kind", isKind, v, fuel, cut);
    OneProperty(voc, root, "spec", body, v, fuel, cut);
    if v.Obj? && "kind" in v.fields {
      ConstantMeaning(voc, root, Str(kind.Id()), v.fields["kind"], fuel, cut);
    }
    IfThenMeaning(voc, root, Obj(map["properties" := Obj(map["kind" := isKind])]),
                  Obj(map["properties" := Obj(map["spec" := body])]), v, fuel, cut);
  }

  lemma ConstantClass()
    ensures Classify("const") == Const
  {
  }

  lemma PropertiesClass()
    ensures Classify("properties") == Properties
  {
  }

  /** A schema object of one member. */
  lemma OnlyMember(voc: Vocabulary, root: Json, key: string, kw: Keyword, value: Json, v: Json, fuel: nat, cut: bool)
    requires Classify(key) == kw
    ensures Accepts(voc, root, Obj(map[key := value]), v, fuel, cut) <==>
      Holds(voc, root, Obj(map[key := value]), key, kw, v, fuel, cut)
  {
  }

  lemma ConstantHolds(voc: Vocabulary, root: Json, s: Json, key: string, v: Json, fuel: nat, cut: bool)
    requires s.Obj? && key in s.fields
    ensures Holds(voc, root, s, key, Const, v, fuel, cut) <==> v == s.fields[key]
  {
  }

  lemma ConstantMeaning(voc: Vocabulary, root: Json, value: Json, v: Json, fuel: nat, cut: bool)
    ensures Accepts(voc, root, Obj(map["const" := value]), v, fuel, cut) <==> v == value
  {
    ConstantClass();
    OnlyMember(voc, root, "const", Const, value, v, fuel, cut);
    ConstantHolds(voc, root, Obj(map["const" := value]), "const", v, fuel, cut);
  }

  lemma IfThenMeaning(voc: Vocabulary, root: Json, condition: Json, consequence: Json, v: Json, fuel: nat, cut: bool)
    ensures Accepts(voc, root, Obj(map["if" := condition, "then" := consequence]), v, fuel, cut)
       <==> (Accepts(voc, root, condition, v, fuel, cut) ==> Accepts(voc, root, consequence, v, fuel, cut))
  {
    var rule := Obj(map["if" := condition, "then" := consequence]);
    BranchClasses();
    assert rule.fields.Keys == {"if", "then"};
    BranchMeaning(voc, root, rule, v, fuel, cut);
    TwoMembers(voc, root, rule, "if", "then", v, fuel, cut);
  }

  lemma BranchClasses()
    ensures Classify("if").If? && Classify("then").Branch?
  {
  }

  lemma TwoMembers(voc: Vocabulary, root: Json, s: Json, a: string, b: string, v: Json, fuel: nat, cut: bool)
    requires s.Obj? && s.fields.Keys == {a, b}
    ensures Accepts(voc, root, s, v, fuel, cut)
       <==> Holds(voc, root, s, a, Classify(a), v, fuel, cut) && Holds(voc, root, s, b, Classify(b), v, fuel, cut)
  {
    assert forall k :: k in s.fields <==> k == a || k == b;
  }

  lemma BranchMeaning(voc: Vocabulary, root: Json, rule: Json, v: Json, fuel: nat, cut: bool)
    requires rule.Obj? && rule.fields.Keys == {"if", "then"}
    ensures Holds(voc, root, rule, "then", Branch, v, fuel, cut)
    ensures Holds(voc, root, rule, "if", If, v, fuel, cut)
       <==> (Accepts(voc, root, rule.fields["if"], v, fuel, cut) ==>
               Accepts(voc, root, rule.fields["then"], v, fuel, cut))
  {
    assert "else" !in rule.fields;
  }

  lemma PropertyHolds(voc: Vocabulary, root: Json, s: Json, key: string, name: string, sub: Json, v: Json, fuel: nat,
                      cut: bool)
    requires s.Obj? && key in s.fields && s.fields[key] == Obj(map[name := sub])
    ensures Holds(voc, root, s, key, Properties, v, fuel, cut)
       <==> (v.Obj? && name in v.fields ==> Accepts(voc, root, sub, v.fields[name], fuel, cut))
  {
  }

  lemma OneProperty(voc: Vocabulary, root: Json, name: string, sub: Json, v: Json, fuel: nat, cut: bool)
    ensures Accepts(voc, root, Obj(map["properties" := Obj(map[name := sub])]), v, fuel, cut)
       <==> (v.Obj? && name in v.fields ==> Accepts(voc, root, sub, v.fields[name], fuel, cut))
  {
    PropertiesClass();
    OnlyMember(voc, root, "properties", Properties, Obj(map[name := sub]), v, fuel, cut);
    PropertyHolds(voc, root, Obj(map["properties" := Obj(map[name := sub])]), "properties", name, sub, v, fuel, cut);
  }

  // --------------------------------------------------- the linked members

  /** One kind's definitions are laid over what is there. */
  lemma HoistStep(envelope: map<string, Json>, specOf: ResourceKind -> Json, n: nat, name: string)
    requires 0 < n <= |ALL_KINDS|
    ensures var own, all, before := Defs(specOf(ALL_KINDS[n - 1])), HoistAll(envelope, specOf, n),
      HoistAll(envelope, specOf, n - 1);
      && (name in own ==> HoistedName(name) in all && all[HoistedName(name)] == Rewrite(own[name]))
      && (name !in own && HoistedName(name) in before ==>
        HoistedName(name) in all && all[HoistedName(name)] == before[HoistedName(name)])
  {
    assert HoistedName(name)[|DEFS_PREFIX|..] == name;
  }

  lemma DefinitionsAgree(envelope: map<string, Json>, specOf: ResourceKind -> Json, a: ResourceKind, b: ResourceKind,
                         name: string)
    ensures LinkerInput(envelope, specOf) && name in Defs(specOf(a)) && name in Defs(specOf(b))
      ==> Defs(specOf(a))[name] == Defs(specOf(b))[name]
  {
  }

  lemma {:induction false} HoistedMember(envelope: map<string, Json>, specOf: ResourceKind -> Json, n: nat, i: nat,
                                         name: string)
    requires i < n <= |ALL_KINDS| && name in Defs(specOf(ALL_KINDS[i]))
    ensures LinkerInput(envelope, specOf) ==>
      && HoistedName(name) in HoistAll(envelope, specOf, n)
      && HoistAll(envelope, specOf, n)[HoistedName(name)] == Rewrite(Defs(specOf(ALL_KINDS[i]))[name])
  {
    HoistStep(envelope, specOf, n, name);
    if i == n - 1 {
    } else if name in Defs(specOf(ALL_KINDS[n - 1])) {
      DefinitionsAgree(envelope, specOf, ALL_KINDS[n - 1], ALL_KINDS[i], name);
    } else {
      HoistedMember(envelope, specOf, n - 1, i, name);
    }
  }

  lemma {:induction false} OwnMember(envelope: map<string, Json>, specOf: ResourceKind -> Json, n: nat, key: string)
    requires n <= |ALL_KINDS| && !(DEFS_PREFIX <= key)
    ensures key in HoistAll(envelope, specOf, n) <==> key in envelope
    ensures key in envelope ==> HoistAll(envelope, specOf, n)[key] == envelope[key]
  {
    if n > 0 { OwnMember(envelope, specOf, n - 1, key); }
  }

  /** Members of the linked document: its own two, the hoisted ones, the envelope's. */
  lemma LinkedMember(envelope: map<string, Json>, specOf: ResourceKind -> Json, key: string)
    ensures Linked(envelope, specOf).Obj?
    ensures var linked := Linked(envelope, specOf).fields;
      && (key == "allOf" ==> key in linked && linked[key] == Arr(Rules(specOf, |ALL_KINDS|)))
      && (DEFS_PREFIX <= key ==>
            var hoisted := HoistAll(envelope, specOf, |ALL_KINDS|);
            (key in linked <==> key in hoisted) && (key in linked ==> linked[key] == hoisted[key]))
      && (!(DEFS_PREFIX <= key) && key != "allOf" && key != "$id" ==>
            (key in linked <==> key in envelope) && (key in envelope ==> linked[key] == envelope[key]))
  {
    if !(DEFS_PREFIX <= key) { OwnMember(envelope, specOf, |ALL_KINDS|, key); }
  }

  lemma SpecReachable(envelope: map<string, Json>, specOf: ResourceKind -> Json, kind: ResourceKind)
    requires LinkerInput(envelope, specOf)
    ensures Reachable(true, Linked(envelope, specOf), specOf(kind))
  {
    var i := EveryKindHasARule(kind);
    forall tail: string ensures Reaches(true, Linked(envelope, specOf), specOf(kind), tail) {
      if '/' !in tail && Unescape(tail) in Defs(specOf(kind)) {
        HoistedTarget(Linked(envelope, specOf), tail);
        HoistedMember(envelope, specOf, |ALL_KINDS|, i, Unescape(tail));
        LinkedMember(envelope, specOf, HoistedName(Unescape(tail)));
      }
    }
  }

  lemma EnvelopeReachable(envelope: map<string, Json>, specOf: ResourceKind -> Json)
    requires LinkerInput(envelope, specOf)
    ensures Reachable(false, Linked(envelope, specOf), Obj(envelope))
  {
    LinkedMember(envelope, specOf, "$defs");
    forall tail: string ensures Reaches(false, Linked(envelope, specOf), Obj(envelope), tail) {
      if '/' !in tail && Unescape(tail) in Defs(Obj(envelope)) {
        LocalTarget(Linked(envelope, specOf), tail);
      }
    }
  }

  // ------------------------------------------------ whole schema objects

  /** `wide` is `narrow` with further members, none of them a sibling that other
      keywords look at; an annotation may differ. */
  ghost predicate Extends(narrow: Json, wide: Json) {
    narrow.Obj? && wide.Obj?
    && (forall k :: k in narrow.fields ==>
          k in wide.fields && (narrow.fields[k] == wide.fields[k] || Classify(k).Annotation?))
    && forall k :: k in wide.fields && k !in narrow.fields ==> !Classify(k).Branch? && !Classify(k).Properties?
  }

  lemma SiblingsKept(narrow: Json, wide: Json)
    requires Extends(narrow, wide)
    ensures Declared(narrow) == Declared(wide)
    ensures forall k :: k == "then" || k == "else" ==> Get(narrow, k) == Get(wide, k)
  {
    BranchKeywords();
  }

  lemma KeptMember(voc: Vocabulary, root: Json, narrow: Json, wide: Json, k: string, v: Json, fuel: nat, cut: bool)
    requires Extends(narrow, wide) && k in narrow.fields
    ensures Holds(voc, root, narrow, k, Classify(k), v, fuel, cut)
      == Holds(voc, root, wide, k, Classify(k), v, fuel, cut)
  {
    SiblingsKept(narrow, wide);
    EqualMember(voc, root, narrow, wide, k, Classify(k), v, fuel, cut);
  }

  lemma EqualBranches(
      voc: Vocabulary, root: Json, s: Json, t: Json, k: string, v: Json, fuel: nat, cut: bool)
    requires s.Obj? && t.Obj? && k in s.fields && k in t.fields && s.fields[k] == t.fields[k]
    requires forall b :: b == "then" || b == "else" ==>
      (b in s.fields <==> b in t.fields) && (b in s.fields ==> s.fields[b] == t.fields[b])
    ensures Holds(voc, root, s, k, If, v, fuel, cut) == Holds(voc, root, t, k, If, v, fuel, cut)
  {
  }

  lemma EqualElsewhere(
      voc: Vocabulary, root: Json, s: Json, t: Json, k: string, kw: Keyword, v: Json, fuel: nat, cut: bool)
    requires s.Obj? && t.Obj? && k in s.fields && k in t.fields && (s.fields[k] == t.fields[k] || kw.Annotation?)
    requires Declared(s) == Declared(t) && !kw.If?
    ensures Holds(voc, root, s, k, kw, v, fuel, cut) == Holds(voc, root, t, k, kw, v, fuel, cut)
  {
  }

  lemma EqualMember(
      voc: Vocabulary, root: Json, s: Json, t: Json, k: string, kw: Keyword, v: Json, fuel: nat, cut: bool)
    requires s.Obj? && t.Obj? && k in s.fields && k in t.fields && (s.fields[k] == t.fields[k] || kw.Annotation?)
    requires Declared(s) == Declared(t) && Get(s, "then") == Get(t, "then") && Get(s, "else") == Get(t, "else")
    ensures Holds(voc, root, s, k, kw, v, fuel, cut) == Holds(voc, root, t, k, kw, v, fuel, cut)
  {
    if kw.If? {
      forall b | b == "then" || b == "else"
        ensures (b in s.fields <==> b in t.fields) && (b in s.fields ==> s.fields[b] == t.fields[b])
      {
        assert Get(s, b).Some? <==> b in s.fields;
        assert Get(t, b).Some? <==> b in t.fields;
      }
      EqualBranches(voc, root, s, t, k, v, fuel, cut);
    } else {
      EqualElsewhere(voc, root, s, t, k, kw, v, fuel, cut);
    }
  }

  lemma NarrowAccepts(voc: Vocabulary, root: Json, narrow: Json, wide: Json, v: Json, fuel: nat, cut: bool)
    requires Extends(narrow, wide) && Accepts(voc, root, wide, v, fuel, cut)
    ensures Accepts(voc, root, narrow, v, fuel, cut)
  {
    forall k | k in narrow.fields ensures Holds(voc, root, narrow, k, Classify(k), v, fuel, cut) {
      KeptMember(voc, root, narrow, wide, k, v, fuel, cut);
    }
  }

  /** Every member `wide` has and `narrow` has not holds. */
  ghost predicate RestHolds(voc: Vocabulary, root: Json, narrow: Json, wide: Json, v: Json, fuel: nat, cut: bool) {
    wide.Obj? && narrow.Obj?
    && forall k :: k in wide.fields && k !in narrow.fields ==> Holds(voc, root, wide, k, Classify(k), v, fuel, cut)
  }

  lemma RestAccepted(voc: Vocabulary, root: Json, narrow: Json, wide: Json, v: Json, fuel: nat, cut: bool)
    requires wide.Obj? && narrow.Obj?
    ensures Accepts(voc, root, wide, v, fuel, cut) ==> RestHolds(voc, root, narrow, wide, v, fuel, cut)
  {
  }

  lemma WideAccepts(voc: Vocabulary, root: Json, narrow: Json, wide: Json, v: Json, fuel: nat, cut: bool)
    requires Extends(narrow, wide) && Accepts(voc, root, narrow, v, fuel, cut)
      && RestHolds(voc, root, narrow, wide, v, fuel, cut)
    ensures Accepts(voc, root, wide, v, fuel, cut)
  {
    forall k | k in wide.fields ensures Holds(voc, root, wide, k, Classify(k), v, fuel, cut) {
      if k in narrow.fields { KeptMember(voc, root, narrow, wide, k, v, fuel, cut); }
    }
  }

  lemma ExtensionMeaning(voc: Vocabulary, root: Json, narrow: Json, wide: Json, v: Json, fuel: nat, cut: bool)
    requires Extends(narrow, wide)
    ensures Accepts(voc, root, wide, v, fuel, cut)
       <==> Accepts(voc, root, narrow, v, fuel, cut) && RestHolds(voc, root, narrow, wide, v, fuel, cut)
  {
    if Accepts(voc, root, wide, v, fuel, cut) {
      NarrowAccepts(voc, root, narrow, wide, v, fuel, cut);
      RestAccepted(voc, root, narrow, wide, v, fuel, cut);
    } else if Accepts(voc, root, narrow, v, fuel, cut) && RestHolds(voc, root, narrow, wide, v, fuel, cut) {
      WideAccepts(voc, root, narrow, wide, v, fuel, cut);
    }
  }

  // ------------------------------------------------------- main theorems

  lemma AnnotationKeys(key: string)
    requires key == "$id" || key == "$defs" || key == "$schema" || DEFS_PREFIX <= key
    ensures Classify(key).Annotation?
  {
    assert key[0] == '$' && key[1] != 'r';
  }

  /** A spec schema judges alike on its own and where it was placed. */
  lemma BodyMeaning(root: Json, spec: Json, voc: Vocabulary, w: Json, fuel: nat, cut: bool)
    requires LinkableDocument(spec) && Reachable(true, root, spec)
    ensures Accepts(voc, root, Body(spec), w, fuel, cut) <==> Accepts(voc, spec, spec, w, fuel, cut)
  {
    var trimmed := Trimmed(spec);
    SameVerdict(Setting(true, root, spec, voc, cut), trimmed, w, fuel);
    AnnotationsApart(voc, spec, trimmed, spec, w, fuel, cut);
  }

  lemma Trimmed(spec: Json) returns (trimmed: Json)
    requires LinkableDocument(spec)
    ensures Body(spec) == Rewrite(trimmed)
    ensures Linkable(trimmed, Defs(spec).Keys) && Extends(trimmed, spec)
    ensures forall k :: k in spec.fields && k !in trimmed.fields ==> Classify(k).Annotation?
  {
    AnnotationKeys("$defs");
    AnnotationKeys("$schema");
    trimmed := Without(spec, {"$defs", "$schema"});
  }

  lemma Without(spec: Json, keys: set<string>) returns (trimmed: Json)
    requires LinkableDocument(spec) && forall k :: k in keys ==> Classify(k).Annotation?
    ensures trimmed == Obj(spec.fields - keys)
    ensures Linkable(trimmed, Defs(spec).Keys) && Extends(trimmed, spec)
    ensures forall k :: k in spec.fields && k !in trimmed.fields ==> Classify(k).Annotation?
  {
    trimmed := Obj(spec.fields - keys);
  }

  lemma AnnotationsApart(voc: Vocabulary, root: Json, narrow: Json, wide: Json, v: Json, fuel: nat, cut: bool)
    requires Extends(narrow, wide)
    requires forall k :: k in wide.fields && k !in narrow.fields ==> Classify(k).Annotation?
    ensures Accepts(voc, root, wide, v, fuel, cut) == Accepts(voc, root, narrow, v, fuel, cut)
  {
    ExtensionMeaning(voc, root, narrow, wide, v, fuel, cut);
  }

  lemma AnnotationHolds(voc: Vocabulary, root: Json, s: Json, k: string, kw: Keyword, v: Json, fuel: nat, cut: bool)
    requires s.Obj? && k in s.fields && kw.Annotation?
    ensures Holds(voc, root, s, k, kw, v, fuel, cut)
  {
  }

  /** Annotations aside, `key` is all that is left to hold. */
  lemma RestIsOne(voc: Vocabulary, root: Json, narrow: Json, wide: Json, key: string, v: Json, fuel: nat, cut: bool)
    requires narrow.Obj? && wide.Obj? && key in wide.fields && key !in narrow.fields
    requires forall k :: k in wide.fields && k !in narrow.fields && k != key ==> Classify(k).Annotation?
    ensures RestHolds(voc, root, narrow, wide, v, fuel, cut) <==>
      Holds(voc, root, wide, key, Classify(key), v, fuel, cut)
  {
    forall k | k in wide.fields && k !in narrow.fields && k != key
      ensures Holds(voc, root, wide, k, Classify(k), v, fuel, cut)
    {
      AnnotationHolds(voc, root, wide, k, Classify(k), v, fuel, cut);
    }
  }

  lemma OneKeywordMore(voc: Vocabulary, root: Json, narrow: Json, wide: Json, key: string, v: Json, fuel: nat,
                       cut: bool)
    requires Extends(narrow, wide) && key in wide.fields && key !in narrow.fields
    requires forall k :: k in wide.fields && k !in narrow.fields && k != key ==> Classify(k).Annotation?
    ensures Accepts(voc, root, wide, v, fuel, cut)
       <==> Accepts(voc, root, narrow, v, fuel, cut) && Holds(voc, root, wide, key, Classify(key), v, fuel, cut)
  {
    ExtensionMeaning(voc, root, narrow, wide, v, fuel, cut);
    RestIsOne(voc, root, narrow, wide, key, v, fuel, cut);
  }

  /** Where the document's kind selects `kind`, that kind's contract holds of its spec. */
  ghost predicate Contract(specOf: ResourceKind -> Json, kind: ResourceKind, voc: Vocabulary, v: Json, fuel: nat,
                           cut: bool) {
    Selects(v, kind) && v.Obj? && "spec" in v.fields ==>
      Accepts(voc, specOf(kind), specOf(kind), v.fields["spec"], fuel, cut)
  }

  /** Linking preserves meaning, on every document: the generated schema
      accepts it iff the envelope does and, for each kind its `kind` member
      selects, that kind's own spec schema accepts its `spec`. */
  lemma LinkingPreservesMeaning(
      envelope: map<string, Json>, specOf: ResourceKind -> Json, voc: Vocabulary, v: Json, fuel: nat, cut: bool)
    requires LinkerInput(envelope, specOf)
    ensures Accepts(voc, Linked(envelope, specOf), Linked(envelope, specOf), v, fuel, cut)
       <==> && Accepts(voc, Obj(envelope), Obj(envelope), v, fuel, cut)
            && forall kind: ResourceKind :: Contract(specOf, kind, voc, v, fuel, cut)
  {
    var root := Linked(envelope, specOf);
    LinkedExtendsEnvelope(envelope, specOf);
    EnvelopeReachable(envelope, specOf);
    LinkedMember(envelope, specOf, "allOf");
    forall k | k in root.fields && k !in envelope && k != "allOf" ensures Classify(k).Annotation? {
      NewMember(envelope, specOf, k);
    }
    forall kind: ResourceKind ensures Reachable(true, root, specOf(kind)) {
      SpecReachable(envelope, specOf, kind);
    }
    RootMeaning(root, envelope, specOf, voc, v, fuel, cut);
  }

  /** The same, from what the linked document is known to hold. */
  lemma RootMeaning(
      root: Json, envelope: map<string, Json>, specOf: ResourceKind -> Json, voc: Vocabulary, v: Json, fuel: nat,
      cut: bool)
    requires LinkerInput(envelope, specOf) && Extends(Obj(envelope), root) && Reachable(false, root, Obj(envelope))
    requires Get(root, "allOf") == Some(Arr(Rules(specOf, |ALL_KINDS|)))
    requires forall k :: k in root.fields && k !in envelope && k != "allOf" ==> Classify(k).Annotation?
    requires forall kind: ResourceKind :: Reachable(true, root, specOf(kind))
    ensures Accepts(voc, root, root, v, fuel, cut)
       <==> && Accepts(voc, Obj(envelope), Obj(envelope), v, fuel, cut)
            && forall kind: ResourceKind :: Contract(specOf, kind, voc, v, fuel, cut)
  {
    var key := "allOf";
    assert key !in envelope;
    OneKeywordMore(voc, root, Obj(envelope), root, key, v, fuel, cut);
    SameVerdict(Setting(false, root, Obj(envelope), voc, cut), Obj(envelope), v, fuel);
    AllRules(root, specOf, voc, v, fuel, cut);
    AllOfMeaning(voc, root, root, key, Rules(specOf, |ALL_KINDS|), v, fuel, cut);
  }

  lemma AllOfMeaning(
      voc: Vocabulary, root: Json, s: Json, key: string, items: seq<Json>, v: Json, fuel: nat, cut: bool)
    requires Get(s, key) == Some(Arr(items)) && key == "allOf"
    ensures Holds(voc, root, s, key, Classify(key), v, fuel, cut) <==> AllHold(items, root, voc, v, fuel, cut)
  {
    assert Classify(key).AllOf?;
  }

  lemma NewMember(envelope: map<string, Json>, specOf: ResourceKind -> Json, k: string)
    requires LinkerInput(envelope, specOf) && k in Linked(envelope, specOf).fields && k !in envelope && k != "allOf"
    ensures Classify(k).Annotation?
  {
    LinkedMember(envelope, specOf, k);
    AnnotationKeys(k);
  }

  lemma LinkedExtendsEnvelope(envelope: map<string, Json>, specOf: ResourceKind -> Json)
    requires LinkerInput(envelope, specOf)
    ensures Extends(Obj(envelope), Linked(envelope, specOf))
  {
    var root := Linked(envelope, specOf);
    forall k | k in envelope
      ensures k in root.fields && (envelope[k] == root.fields[k] || Classify(k).Annotation?)
    {
      KeptKey(envelope, specOf, |ALL_KINDS|, k);
      LinkedMember(envelope, specOf, k);
      if DEFS_PREFIX <= k || k == "$id" { AnnotationKeys(k); }
    }
    assert Classify("allOf").AllOf?;
    forall k | k in root.fields && k !in envelope ensures !Classify(k).Branch? && !Classify(k).Properties? {
      if k != "allOf" { NewMember(envelope, specOf, k); }
    }
  }

  lemma {:induction false} KeptKey(envelope: map<string, Json>, specOf: ResourceKind -> Json, n: nat, k: string)
    requires n <= |ALL_KINDS| && k in envelope
    ensures k in HoistAll(envelope, specOf, n)
  {
    if n > 0 { KeptKey(envelope, specOf, n - 1, k); }
  }

  lemma RuleVerdict(
      root: Json, specOf: ResourceKind -> Json, kind: ResourceKind, voc: Vocabulary, v: Json, fuel: nat, cut: bool)
    requires LinkableDocument(specOf(kind)) && Reachable(true, root, specOf(kind))
    ensures Accepts(voc, root, Dispatch(kind, Body(specOf(kind))), v, fuel, cut) <==>
      Contract(specOf, kind, voc, v, fuel, cut)
  {
    RuleMeaning(voc, root, kind, Body(specOf(kind)), v, fuel, cut);
    if v.Obj? && "spec" in v.fields {
      BodyMeaning(root, specOf(kind), voc, v.fields["spec"], fuel, cut);
    }
  }

  /** The rule at `i` holds iff its kind's contract does. */
  lemma RuleContract(root: Json, specOf: ResourceKind -> Json, i: nat, voc: Vocabulary, v: Json, fuel: nat, cut: bool)
    requires i < |ALL_KINDS| && LinkableDocument(specOf(ALL_KINDS[i])) && Reachable(true, root, specOf(ALL_KINDS[i]))
    ensures |Rules(specOf, |ALL_KINDS|)| == |ALL_KINDS|
    ensures Accepts(voc, root, Rules(specOf, |ALL_KINDS|)[i], v, fuel, cut) <==>
      Contract(specOf, ALL_KINDS[i], voc, v, fuel, cut)
  {
    RuleAt(specOf, |ALL_KINDS|, i);
    RuleVerdict(root, specOf, ALL_KINDS[i], voc, v, fuel, cut);
  }

  ghost predicate AllHold(rules: seq<Json>, root: Json, voc: Vocabulary, v: Json, fuel: nat, cut: bool) {
    forall i :: 0 <= i < |rules| ==> Accepts(voc, root, rules[i], v, fuel, cut)
  }

  lemma AllRules(root: Json, specOf: ResourceKind -> Json, voc: Vocabulary, v: Json, fuel: nat, cut: bool)
    requires forall kind: ResourceKind :: LinkableDocument(specOf(kind))
    requires forall kind: ResourceKind :: Reachable(true, root, specOf(kind))
    ensures AllHold(Rules(specOf, |ALL_KINDS|), root, voc, v, fuel, cut) <==>
      forall kind: ResourceKind :: Contract(specOf, kind, voc, v, fuel, cut)
  {
    var rules := Rules(specOf, |ALL_KINDS|);
    RuleCount(specOf, |ALL_KINDS|);
    if AllHold(rules, root, voc, v, fuel, cut) {
      forall kind: ResourceKind ensures Contract(specOf, kind, voc, v, fuel, cut) {
        var i := EveryKindHasARule(kind);
        RuleContract(root, specOf, i, voc, v, fuel, cut);
      }
    } else {
      var i :| 0 <= i < |rules| && !Accepts(voc, root, rules[i], v, fuel, cut);
      RuleContract(root, specOf, i, voc, v, fuel, cut);
    }
  }

  /** For a document of one kind exactly that kind's contract decides. */
  lemma KindDecides(
      envelope: map<string, Json>, specOf: ResourceKind -> Json, kind: ResourceKind, spec: Json,
      voc: Vocabulary, v: Json, fuel: nat, cut: bool)
    requires LinkerInput(envelope, specOf)
    requires Get(v, "kind") == Some(Str(kind.Id())) && Get(v, "spec") == Some(spec)
    ensures Accepts(voc, Linked(envelope, specOf), Linked(envelope, specOf), v, fuel, cut)
       <==> Accepts(voc, Obj(envelope), Obj(envelope), v, fuel, cut)
            && Accepts(voc, specOf(kind), specOf(kind), spec, fuel, cut)
  {
    LinkingPreservesMeaning(envelope, specOf, voc, v, fuel, cut);
    OneContract(specOf, kind, spec, voc, v, fuel, cut);
  }

  lemma OneContract(
      specOf: ResourceKind -> Json, kind: ResourceKind, spec: Json, voc: Vocabulary, v: Json, fuel: nat, cut: bool)
    requires Get(v, "kind") == Some(Str(kind.Id())) && Get(v, "spec") == Some(spec)
    ensures (forall other: ResourceKind :: Contract(specOf, other, voc, v, fuel, cut))
       <==> Accepts(voc, specOf(kind), specOf(kind), spec, fuel, cut)
  {
    forall other: ResourceKind | Selects(v, other) ensures other == kind {
      KindIdsDistinct(other, kind);
    }
    assert Selects(v, kind);
    assert Contract(specOf, kind, voc, v, fuel, cut) <==> Accepts(voc, specOf(kind), specOf(kind), spec, fuel, cut);
  }

  /** A verdict that holds at every depth of reference from some depth on,
      whatever is answered beyond it. */
  ghost predicate Eventually(verdict: (nat, bool) -> bool) {
    exists depth: nat :: From(verdict, depth)
  }

  ghost predicate From(verdict: (nat, bool) -> bool, depth: nat) {
    forall fuel: nat, cut: bool :: depth <= fuel ==> verdict(fuel, cut)
  }

  /** Schema document `root` accepts `v`, no fuel mentioned. */
  ghost predicate Settles(voc: Vocabulary, root: Json, v: Json) {
    Eventually((fuel: nat, cut: bool) => Accepts(voc, root, root, v, fuel, cut))
  }

  /** Recursive definitions included, the linked schema accepts a document of
      one kind iff the envelope accepts it and the kind's schema its spec. */
  lemma KindDecidesOutright(
      envelope: map<string, Json>, specOf: ResourceKind -> Json, text: string, kind: ResourceKind, spec: Json,
      voc: Vocabulary, v: Json)
    requires LinkerInput(envelope, specOf)
    requires KindNamed(text) == Some(kind) && Get(v, "kind") == Some(Str(text)) && Get(v, "spec") == Some(spec)
    ensures Settles(voc, Linked(envelope, specOf), v)
       <==> Settles(voc, Obj(envelope), v) && Settles(voc, specOf(kind), spec)
  {
    var root := Linked(envelope, specOf);
    KindByName(text, kind);
    forall fuel: nat, cut: bool
      ensures Accepts(voc, root, root, v, fuel, cut)
        <==> Accepts(voc, Obj(envelope), Obj(envelope), v, fuel, cut)
             && Accepts(voc, specOf(kind), specOf(kind), spec, fuel, cut)
    {
      KindDecides(envelope, specOf, kind, spec, voc, v, fuel, cut);
    }
    EventuallyBoth(
      (fuel: nat, cut: bool) => Accepts(voc, root, root, v, fuel, cut),
      (fuel: nat, cut: bool) => Accepts(voc, Obj(envelope), Obj(envelope), v, fuel, cut),
      (fuel: nat, cut: bool) => Accepts(voc, specOf(kind), specOf(kind), spec, fuel, cut));
  }

  lemma EventuallyBoth(p: (nat, bool) -> bool, q: (nat, bool) -> bool, r: (nat, bool) -> bool)
    requires forall fuel: nat, cut: bool :: p(fuel, cut) <==> q(fuel, cut) && r(fuel, cut)
    ensures Eventually(p) <==> Eventually(q) && Eventually(r)
  {
    if Eventually(p) {
      var depth: nat :| From(p, depth);
      assert From(q, depth) && From(r, depth);
    }
    if Eventually(q) && Eventually(r) {
      var m: nat :| From(q, m);
      var n: nat :| From(r, n);
      assert From(p, if m < n then n else m);
    }
  }

  /** The marker must not occur in an asserted value: the textual rewriting
      changes a constant that spells it. */
  lemma MarkedConstantChanges(voc: Vocabulary, root: Json, name: string, fuel: nat, cut: bool)
    requires '/' !in name
    ensures var spec, v := Obj(map["const" := Str("#/$defs/" + name)]), Str("#/$defs/" + name);
      Accepts(voc, spec, spec, v, fuel, cut) && !Accepts(voc, root, Body(spec), v, fuel, cut)
  {
    var spec, v := Obj(map["const" := Str(LOCAL + name)]), Str(LOCAL + name);
    ConstantMeaning(voc, spec, v, v, fuel, cut);
    RewriteReference(name);
    assert spec.fields - {"$defs", "$schema"} == spec.fields;
    SingleMember("const", v);
    ConstantMeaning(voc, root, Str(HOISTED + name), v, fuel, cut);
    assert (LOCAL + name)[|LOCAL| - 1] != (HOISTED + name)[|LOCAL| - 1];
  }

  /** Every definition stands once more at the root, where rewritten references look for it. */
  lemma DefinitionPlaced(envelope: map<string, Json>, specOf: ResourceKind -> Json, kind: ResourceKind, name: string)
    requires LinkerInput(envelope, specOf) && name in Defs(specOf(kind))
    ensures Get(Linked(envelope, specOf), "$defs:" + name) == Some(Rewrite(Defs(specOf(kind))[name]))
    ensures '/' !in name ==> RewriteText("#/$defs/" + name) == "#/$defs:" + name
  {
    var i := EveryKindHasARule(kind);
    HoistedMember(envelope, specOf, |ALL_KINDS|, i, name);
    LinkedMember(envelope, specOf, HoistedName(name));
    if '/' !in name { RewriteReference(name); }
  }

  /** Under its kind a spec schema keeps its members, without its definitions and its dialect. */
  lemma BodyMembers(spec: Json)
    requires spec.Obj? && forall k :: k in spec.fields ==> Unmarked(k)
    ensures Body(spec).Obj? && "$defs" !in Body(spec).fields && "$schema" !in Body(spec).fields
    ensures forall k :: k in spec.fields && k != "$defs" && k != "$schema" ==>
      k in Body(spec).fields && Body(spec).fields[k] == Rewrite(spec.fields[k])
  {
    RewriteObject(spec.fields - {"$defs", "$schema"});
  }

  lemma SingleMember(key: string, value: Json)
    requires Unmarked(key)
    ensures Rewrite(Obj(map[key := value])) == Obj(map[key := Rewrite(value)])
  {
    RewriteObject(map[key := value]);
    assert Rewrite(Obj(map[key := value])).fields == map[key := Rewrite(value)];
  }
}
