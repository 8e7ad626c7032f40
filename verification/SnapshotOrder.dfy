/** The snapshot of a candidate: unique, strictly increasing, and the same
    whatever the order of its files and of the documents in them. */
module SnapshotOrder {
  import opened Wrappers
  import opened JsonValues
  import opened Documents
  import opened Permutations
  import opened DocumentChecks
  import opened References
  import opened ReferenceRules
  import opened Registry
  import opened RegistryOrder
  import opened Validation
  import opened ValidationRules
  import opened DocumentOrder
  import opened Sequences
  import opened Snapshot
  import opened StableSort

  predicate AllParsed(sources: seq<Source>) {
    forall s :: s in sources ==> s.documents.Some?
  }

  /** The same documents under the same paths, in any order. */
  ghost predicate Rearranged(sources: seq<Source>, others: seq<Source>) {
    (AllParsed(sources) <==> AllParsed(others)) && (AllParsed(sources) ==> Permuted(Records(sources), Records(others)))
  }

  /** The same documents in any files and any order. */
  ghost predicate Redistributed(sources: seq<Source>, others: seq<Source>) {
    && (AllParsed(sources) <==> AllParsed(others))
    && (AllParsed(sources) ==>
          Permuted(Mapped(DocumentOf(), Records(sources)), Mapped(DocumentOf(), Records(others))))
  }

  /** What the envelope schema requires: kind, identity and name are texts. */
  ghost predicate RequiresTexts(k: Checkers) {
    forall document :: k.schema(document) == [] ==>
      KindText(document).Some? && IdOf(document).Some? && NameOf(document).Some?
  }

  // -------------------------------------------- sources, pieces and records

  function DocumentOf(): Record -> Json {
    (r: Record) => r.document
  }

  lemma {:induction false} CollectionSum(a: seq<Piece>, b: seq<Piece>)
    ensures Collection(a + b) == Collection(a) + Collection(b)
  {
    if b == [] {
      assert a + b == a;
    } else {
      var before, last := b[..|b| - 1], b[|b| - 1];
      CollectionSum(a, before);
      assert a + b == (a + before) + [last] && b == before + [last];
      CollectionOneMore(a + before, last);
      CollectionOneMore(before, last);
      Associative(Collection(a), Collection(before), Collected(last));
    }
  }

  function Collected(piece: Piece): seq<Entry> {
    match piece case Parsed(e) => [e] case Unparsed(_) => []
  }

  lemma CollectionOneMore(pieces: seq<Piece>, piece: Piece)
    ensures Collection(pieces + [piece]) == Collection(pieces) + Collected(piece)
  {
    assert (pieces + [piece])[..|pieces|] == pieces;
  }

  lemma {:induction false} OwnDocuments(s: Source, n: nat)
    requires s.documents.Some? && n <= |s.documents.value|
    ensures Docs(Collection(PiecesOf(s)[..n])) == s.documents.value[..n]
  {
    if n > 0 {
      OwnDocuments(s, n - 1);
      var own := PiecesOf(s);
      assert own[..n][..n - 1] == own[..n - 1] && own[..n] == own[..n - 1] + [own[n - 1]];
      DocsOneMore(Collection(own[..n - 1]), own[n - 1].entry);
    }
  }

  lemma SourceDocuments(s: Source)
    ensures Docs(Collection(PiecesOf(s))) == Mapped(DocumentOf(), RecordsOf(s))
  {
    if s.documents.Some? {
      OwnDocuments(s, |s.documents.value|);
      assert PiecesOf(s)[..|s.documents.value|] == PiecesOf(s);
    }
  }

  lemma DocsSum(a: seq<Entry>, b: seq<Entry>)
    ensures Docs(a + b) == Docs(a) + Docs(b)
  {
  }

  lemma {:induction false} DocumentsAreRecords(sources: seq<Source>)
    ensures Docs(Collection(Pieces(sources))) == Mapped(DocumentOf(), Records(sources))
  {
    if sources != [] {
      var before, last := sources[..|sources| - 1], sources[|sources| - 1];
      DocumentsAreRecords(before);
      CollectionSum(Pieces(before), PiecesOf(last));
      DocsSum(Collection(Pieces(before)), Collection(PiecesOf(last)));
      SourceDocuments(last);
      MappedSum(DocumentOf(), Records(before), RecordsOf(last));
    }
  }

  lemma {:induction false} UnparsedPieces(sources: seq<Source>)
    ensures NoneUnparsed(Pieces(sources)) <==> AllParsed(sources)
  {
    if sources != [] {
      var before, last := sources[..|sources| - 1], sources[|sources| - 1];
      UnparsedPieces(before);
      assert sources == before + [last];
      var own := PiecesOf(last);
      assert last.documents.None? ==> own[0].Unparsed?;
      assert forall i :: 0 <= i < |own| ==> Pieces(sources)[|Pieces(before)| + i] == own[i];
      assert forall i :: 0 <= i < |Pieces(before)| ==> Pieces(sources)[i] == Pieces(before)[i];
    }
  }

  // ------------------------------------------------------ validity, any order

  lemma ErrorsParts(k: Checkers, g: RegistrySpecs.Grammars, builtins: seq<Builtin>, sources: seq<Source>)
    ensures AllErrors(k, g, builtins, sources) == [] <==>
      && PiecesErrors(k, Pieces(sources)) == [] && ReferenceDiagnostics(Collection(Pieces(sources))) == []
      && RegistryErrors(g, builtins, Collection(Pieces(sources))) == []
  {
  }

  /** Documents that pass fit the schema. */
  lemma PassingFitsSchema(k: Checkers, document: Json)
    requires Passes(k, document)
    ensures k.schema(document) == []
  {
    if k.schema(document) != [] {
      var pointer := k.schema(document)[0];
      SchemaErrorKept(k, map[], Placed(document), pointer);
      DocumentErrorsIff(k, map[], Placed(document));
    }
  }

  lemma PassingNamed(k: Checkers, c: seq<Entry>)
    requires RequiresTexts(k) && AllPass(k, Docs(c))
    ensures Named(c)
  {
    forall e | e in c && !RoleOf(e.document).Unbound? ensures NameOf(e.document).Some? {
      var i :| 0 <= i < |c| && c[i] == e;
      assert Docs(c)[i] == e.document;
      PassingFitsSchema(k, e.document);
    }
  }

  /** Validity does not depend on which files hold the documents, on the files'
      paths, or on any order. */
  lemma ValidAnyOrder(k: Checkers, g: RegistrySpecs.Grammars, builtins: seq<Builtin>, sources: seq<Source>,
                      others: seq<Source>)
    requires RequiresTexts(k) && Redistributed(sources, others) && AllErrors(k, g, builtins, sources) == []
    ensures AllErrors(k, g, builtins, others) == []
  {
    var c, d := Collection(Pieces(sources)), Collection(Pieces(others));
    ErrorsParts(k, g, builtins, sources);
    PiecesErrorsIff(k, Pieces(sources));
    PiecesErrorsIff(k, Pieces(others));
    UnparsedPieces(sources);
    UnparsedPieces(others);
    DocumentsAreRecords(sources);
    DocumentsAreRecords(others);
    DocumentsAnyOrder(k, Docs(c), Docs(d));
    PassingNamed(k, c);
    ReferencesAnyOrder(c, d);
    RegistryAnyOrder(g, builtins, c, d);
    ErrorsParts(k, g, builtins, others);
  }

  lemma RearrangedDocuments(sources: seq<Source>, others: seq<Source>)
    requires Rearranged(sources, others)
    ensures Redistributed(sources, others)
  {
    if AllParsed(sources) { MappedPermuted(DocumentOf(), Records(sources), Records(others)); }
  }

  lemma DocumentsAnyOrder(k: Checkers, docs: seq<Json>, others: seq<Json>)
    requires Permuted(docs, others) && AllPass(k, docs) && UniqueBy(Identities(), docs)
    ensures AllPass(k, others) && UniqueBy(Identities(), others)
  {
    UniquePermuted(Identities(), docs, others);
    forall document | document in others ensures Passes(k, document) {
      SameMembers(docs, others, document);
    }
  }

  // ------------------------------------------------------------ the snapshot

  function IdOfResource(): Resource -> Option<string> {
    (r: Resource) => Some(r.id)
  }

  lemma RecordPasses(k: Checkers, sources: seq<Source>, i: nat)
    requires RequiresTexts(k) && PiecesErrors(k, Pieces(sources)) == [] && i < |Records(sources)|
    ensures Identity(Records(sources)[i].document) == Some(Resources(sources)[i].id)
  {
    PiecesErrorsIff(k, Pieces(sources));
    DocumentsAreRecords(sources);
    var document := Records(sources)[i].document;
    assert Docs(Collection(Pieces(sources)))[i] == document;
    PassingFitsSchema(k, document);
  }

  /** A resource of an error-free candidate is its document's, member by member. */
  lemma ResourceReads(k: Checkers, sources: seq<Source>, i: nat)
    requires RequiresTexts(k) && PiecesErrors(k, Pieces(sources)) == [] && i < |Records(sources)|
    ensures var r, document := Resources(sources)[i], Records(sources)[i].document;
      && AsStr(Get(document, "kind")) == Some(r.kind) && AsStr(Get2(document, "metadata", "id")) == Some(r.id)
      && AsStr(Get2(document, "metadata", "name")) == Some(r.name) && r.path == Records(sources)[i].path
      && r.spec == match Get(document, "spec") case Some(spec) => spec case None => Null
  {
    PiecesErrorsIff(k, Pieces(sources));
    DocumentsAreRecords(sources);
    assert Docs(Collection(Pieces(sources)))[i] == Records(sources)[i].document;
    PassingFitsSchema(k, Records(sources)[i].document);
  }

  /** No two resources of an error-free candidate share an identity. */
  lemma ResourceIdsUnique(k: Checkers, sources: seq<Source>)
    requires RequiresTexts(k) && PiecesErrors(k, Pieces(sources)) == []
    ensures UniqueBy(IdOfResource(), Resources(sources))
  {
    PiecesErrorsIff(k, Pieces(sources));
    DocumentsAreRecords(sources);
    var docs := Docs(Collection(Pieces(sources)));
    forall i, j | 0 <= i < j < |Resources(sources)|
      ensures IdOfResource()(Resources(sources)[i]) != IdOfResource()(Resources(sources)[j])
    {
      RecordPasses(k, sources, i);
      RecordPasses(k, sources, j);
      assert Identities()(docs[i]) != Identities()(docs[j]);
    }
  }

  lemma SortedStrictly(rs: seq<Resource>)
    requires UniqueBy(IdOfResource(), rs)
    ensures StrictlyAscending(Before, SortResources(rs))
  {
    var sorted := SortResources(rs);
    SortSorts(rs);
    UniquePermuted(IdOfResource(), rs, sorted);
    forall i, j | 0 <= i < j < |sorted| ensures !Before(sorted[j], sorted[i]) {
      assert IdOfResource()(sorted[i]) != IdOfResource()(sorted[j]);
      assert Before(sorted[i], sorted[j]);
      if Before(sorted[j], sorted[i]) { BeforeAntisymmetric(sorted[i], sorted[j]); }
    }
  }

  /** The snapshot of a valid candidate is strictly increasing by kind and
      identity, and any rearrangement of its files and their documents is valid
      and has the very same snapshot. */
  lemma SnapshotAnyOrder(k: Checkers, g: RegistrySpecs.Grammars, builtins: seq<Builtin>, sources: seq<Source>,
                         others: seq<Source>)
    requires RequiresTexts(k) && Rearranged(sources, others) && AllErrors(k, g, builtins, sources) == []
    ensures AllErrors(k, g, builtins, others) == []
    ensures StrictlyAscending(Before, SortResources(Resources(sources)))
    ensures SortResources(Resources(others)) == SortResources(Resources(sources))
  {
    ErrorsParts(k, g, builtins, sources);
    RearrangedDocuments(sources, others);
    ValidAnyOrder(k, g, builtins, sources, others);
    ErrorsParts(k, g, builtins, others);
    ParsedWhenValid(k, sources);
    MappedPermuted(Maker(), Records(sources), Records(others));
    ResourceIdsUnique(k, sources);
    ResourceIdsUnique(k, others);
    SortedStrictly(Resources(sources));
    SortedStrictly(Resources(others));
    SortSorts(Resources(sources));
    SortSorts(Resources(others));
    BeforeOrders();
    OneStrictList(Before, SortResources(Resources(others)), SortResources(Resources(sources)));
  }

  lemma ParsedWhenValid(k: Checkers, sources: seq<Source>)
    requires PiecesErrors(k, Pieces(sources)) == []
    ensures AllParsed(sources)
  {
    PiecesErrorsIff(k, Pieces(sources));
    UnparsedPieces(sources);
  }
}
