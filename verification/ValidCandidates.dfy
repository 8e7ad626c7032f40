/** What a valid candidate promises the code that consumes it: executable catalog
    pins, and Registry references that read back. */
module ValidCandidates {
  import opened Wrappers
  import opened JsonValues
  import opened Documents
  import opened Redaction
  import opened RegistryNames
  import opened RegistrySpecs
  import opened Registry
  import opened RegistryRules
  import opened RegistryOrder
  import opened ApplyPlan
  import opened PlannedActions
  import opened CatalogPins
  import opened DocumentChecks
  import opened Validation
  import opened DocumentOrder
  import opened SemanticMeaning
  import opened SnapshotOrder

  lemma MemberPasses(k: Checkers, g: Grammars, builtins: seq<Builtin>, sources: seq<Source>, e: Entry)
    requires AllErrors(k, g, builtins, sources) == [] && e in Collection(Pieces(sources))
    ensures Passes(k, e.document)
  {
    ErrorsParts(k, g, builtins, sources);
    PiecesErrorsIff(k, Pieces(sources));
    var c := Collection(Pieces(sources));
    var i :| 0 <= i < |c| && c[i] == e;
    assert Docs(c)[i] == e.document;
  }

  lemma {:induction false} AgentsAccepted(base: string, field: string, items: seq<Item>, item: Item)
    requires IdErrors(base, field, items) == [] && item in items
    ensures IdAccepted(item.text)
  {
    var before, last := items[..|items| - 1], items[|items| - 1];
    assert items == before + [last];
    if item != last { AgentsAccepted(base, field, before, item); }
  }

  /** A document pins an agent's catalog. */
  predicate PinsAgent(document: Json, catalog: string, version: string, agent: Item) {
    && KindOf(document) == "SkillPreset" && Get(document, "spec").Some?
    && var spec := Get(document, "spec").value;
       && AsStr(Get(spec, "catalogId")) == Some(catalog) && AsStr(Get(spec, "catalogVersionId")) == Some(version)
       && agent in IdItems(spec, "deployTo")
  }

  lemma PinsAgentWell(k: Checkers, document: Json, catalog: string, version: string, agent: Item)
    requires Passes(k, document) && PinsAgent(document, catalog, version, agent)
    ensures PinAccepted(catalog, version) && IdAccepted(agent.text)
  {
    var spec := Get(document, "spec").value;
    assert PresetErrors("", spec) == [];
    assert PinErrors("", spec) == [] && IdErrors("", "deployTo", IdItems(spec, "deployTo")) == [];
    AgentsAccepted("", "deployTo", IdItems(spec, "deployTo"), agent);
  }

  /** Every catalog pin of a valid candidate is planned as a rollout, and the apply
      loop accepts it and decodes it to the pin iff the scrubber leaves the catalog
      and the agent alone. */
  lemma ValidPinsExecute(k: Checkers, g: Grammars, builtins: seq<Builtin>, sources: seq<Source>, e: Entry,
                         catalog: string, version: string, agent: Item, state: Drift, order: nat)
    requires AllErrors(k, g, builtins, sources) == [] && e in Collection(Pieces(sources))
    requires PinsAgent(e.document, catalog, version, agent) && (state.Missing? || state.Changed?)
    ensures var d := Difference(RolloutIdentity(Redacted, catalog, agent.text), state, Some(version));
      && ResolvingKind(d) == Some(RolloutCatalog)
      && (WellPaired(ActionOf(d, order)) && RolloutOf(d.identity) == Some((catalog, agent.text)) <==>
            Redacted(catalog) == catalog && Redacted(agent.text) == agent.text)
  {
    MemberPasses(k, g, builtins, sources, e);
    PinsAgentWell(k, e.document, catalog, version, agent);
    PinRoundTrip(Redacted, catalog, version, agent.text, state, order);
  }

  /** Every document of a valid candidate is what its kind asks beyond its schema. */
  lemma ValidDocumentsSound(k: Checkers, g: Grammars, builtins: seq<Builtin>, sources: seq<Source>, e: Entry)
    requires AllErrors(k, g, builtins, sources) == [] && e in Collection(Pieces(sources))
    ensures Sound(k, e.document)
  {
    MemberPasses(k, g, builtins, sources, e);
    SemanticsFineIff(k, e.document, "");
  }

  lemma DocumentAt(c: seq<Entry>, document: Json) returns (i: nat)
    requires document in Docs(c)
    ensures i < |c| && c[i].document == document
  {
    i :| 0 <= i < |Docs(c)| && Docs(c)[i] == document;
  }

  /** A type that is not built in is named by a document. */
  lemma TypeNamed(g: Grammars, builtins: seq<Builtin>, c: seq<Entry>, name: string) returns (document: Json)
    requires TypeErrors(g, builtins, c) == []
    requires name in DefineAll(g, builtins, c).specs && name !in BuiltinSpecs(builtins)
    ensures document in Docs(c) && TypeNamer(g)(document) == Some(name)
  {
    TypeErrorsIff(g, builtins, c);
    SpecsAre(g, builtins, c, name);
    document :| document in Docs(c) && TypeNamer(g)(document) == Some(name);
  }

  lemma NoTypeErrors(k: Checkers, g: Grammars, builtins: seq<Builtin>, sources: seq<Source>)
    requires AllErrors(k, g, builtins, sources) == []
    ensures TypeErrors(g, builtins, Collection(Pieces(sources))) == []
  {
    ErrorsParts(k, g, builtins, sources);
    RegistryErrorsParts(g, builtins, Collection(Pieces(sources)));
  }

  lemma NamedWell(k: Checkers, g: Grammars, document: Json, name: string)
    requires Passes(k, document) && TypeNamer(g)(document) == Some(name)
    ensures IsSlug(name)
  {
  }

  /** The types of a valid candidate have slugs for names. */
  lemma TypesAreSlugs(k: Checkers, g: Grammars, builtins: seq<Builtin>, sources: seq<Source>, name: string)
    requires AllErrors(k, g, builtins, sources) == []
    requires forall b :: b in BuiltinSpecs(builtins) ==> IsSlug(b)
    requires name in DefineAll(g, builtins, Collection(Pieces(sources))).specs
    ensures IsSlug(name)
  {
    if name !in BuiltinSpecs(builtins) {
      var c := Collection(Pieces(sources));
      NoTypeErrors(k, g, builtins, sources);
      var document := TypeNamed(g, builtins, c, name);
      var i := DocumentAt(c, document);
      MemberPasses(k, g, builtins, sources, c[i]);
      NamedWell(k, g, document, name);
    }
  }

  /** In a valid candidate the reference printed for an entry with a text key
      denotes that entry and no other, however its letters are cased. */
  lemma ValidReferencesReadBack(k: Checkers, g: Grammars, builtins: seq<Builtin>, sources: seq<Source>, i: nat,
                                entry: EntrySpec, key: string, written: string)
    requires AllErrors(k, g, builtins, sources) == [] && i < |Collection(Pieces(sources))|
    requires forall b :: b in BuiltinSpecs(builtins) ==> IsSlug(b)
    requires EntryAt(g, Collection(Pieces(sources))[i]) == Some(entry) && Lower(written) == Lower(key)
    requires entry.entryType in DefineAll(g, builtins, Collection(Pieces(sources))).specs ==>
      var spec := DefineAll(g, builtins, Collection(Pieces(sources))).specs[entry.entryType];
      spec.key in entry.fields && entry.fields[spec.key] == Str(key)
    ensures var c := Collection(Pieces(sources));
      forall j :: 0 <= j < |c| ==>
        (Denotes(g, DefineAll(g, builtins, c).specs, c[j], Reference(entry.entryType, written)) <==> j == i)
  {
    var c := Collection(Pieces(sources));
    var types := DefineAll(g, builtins, c).specs;
    ErrorsParts(k, g, builtins, sources);
    ErrorFreeParts(g, builtins, c);
    EachEntryFine(g, types, c, i);
    TypesAreSlugs(k, g, builtins, sources, entry.entryType);
    PrintedReferenceDenotes(g, builtins, c, i, entry, key, written);
    forall j | 0 <= j < |c| && Denotes(g, types, c[j], Reference(entry.entryType, written)) ensures j == i {
      ReferenceDenotesOne(g, builtins, c, Reference(entry.entryType, written), j, i);
    }
  }
}
