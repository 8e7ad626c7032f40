/** What a valid candidate's documents mean to the kinds' own schemas. */
module ValidSpecs {
  import opened Wrappers
  import opened JsonValues
  import opened Documents
  import opened RegistrySpecs
  import opened Registry
  import opened SchemaLinker
  import opened LinkedSchema
  import opened DocumentChecks
  import opened Validation
  import opened DocumentOrder
  import opened SnapshotOrder
  import opened ValidCandidates

  /** The checker's schema is the linked one: it reports nothing iff that accepts. */
  ghost predicate JudgesByLinked(k: Checkers, voc: Vocabulary, envelope: map<string, Json>,
                                 specOf: ResourceKind -> Json) {
    forall document :: k.schema(document) == [] <==> Settles(voc, Linked(envelope, specOf), document)
  }

  lemma KindIsKnown(k: Checkers, document: Json) returns (kind: ResourceKind)
    requires Passes(k, document) && KindText(document).Some?
    ensures KindNamed(KindText(document).value) == Some(kind)
  {
    var i :| 0 <= i < |ALL_KINDS| && ALL_KINDS[i].Id() == KindText(document).value;
    kind := ALL_KINDS[i];
    KindByName(KindText(document).value, kind);
  }

  /** In a valid candidate every document with a spec and a text for its kind is of
      one of the kinds, the envelope accepts it, and its own kind's schema accepts
      its spec. */
  lemma ValidSpecsFit(k: Checkers, g: Grammars, builtins: seq<Builtin>, sources: seq<Source>, e: Entry,
                      voc: Vocabulary, envelope: map<string, Json>, specOf: ResourceKind -> Json, spec: Json)
                        returns (kind: ResourceKind)
    requires LinkerInput(envelope, specOf) && JudgesByLinked(k, voc, envelope, specOf)
    requires AllErrors(k, g, builtins, sources) == [] && e in Collection(Pieces(sources))
    requires KindText(e.document).Some? && Get(e.document, "spec") == Some(spec)
    ensures KindNamed(KindText(e.document).value) == Some(kind)
    ensures Settles(voc, Obj(envelope), e.document) && Settles(voc, specOf(kind), spec)
  {
    MemberPasses(k, g, builtins, sources, e);
    kind := KindIsKnown(k, e.document);
    PassingFitsSchema(k, e.document);
    KindDecidesOutright(envelope, specOf, KindText(e.document).value, kind, spec, voc, e.document);
  }
}
