/** Whether the documents of a candidate pass depends on what they are, not on
    their order or the files they are in. */
module DocumentOrder {
  import opened Wrappers
  import opened JsonValues
  import opened Documents
  import opened Permutations
  import opened DocumentChecks
  import opened References
  import opened ReferenceRules
  import opened RegistryOrder
  import opened Validation

  // -------------------------- how much is reported does not depend on the base

  lemma {:induction false} SchemaAnyBase(document: Json, a: string, b: string, pointers: seq<string>)
    ensures |SchemaErrors(document, a, pointers)| == |SchemaErrors(document, b, pointers)|
  {
    if pointers != [] { SchemaAnyBase(document, a, b, pointers[..|pointers| - 1]); }
  }

  lemma {:induction false} IdsAnyBase(a: string, b: string, field: string, items: seq<Item>)
    ensures |IdErrors(a, field, items)| == |IdErrors(b, field, items)|
  {
    if items != [] { IdsAnyBase(a, b, field, items[..|items| - 1]); }
  }

  lemma {:induction false} HardwareAnyBase(a: string, b: string, hardware: seq<Json>)
    ensures |HardwareErrors(a, hardware)| == |HardwareErrors(b, hardware)|
  {
    if hardware != [] { HardwareAnyBase(a, b, hardware[..|hardware| - 1]); }
  }

  lemma {:induction false} EndpointsAnyBase(a: string, b: string, endpoints: seq<Json>)
    ensures |EndpointErrors(a, endpoints)| == |EndpointErrors(b, endpoints)|
  {
    if endpoints != [] { EndpointsAnyBase(a, b, endpoints[..|endpoints| - 1]); }
  }

  lemma PresetAnyBase(a: string, b: string, spec: Json)
    ensures |PresetErrors(a, spec)| == |PresetErrors(b, spec)|
  {
    IdsAnyBase(a, b, "deployTo", IdItems(spec, "deployTo"));
    IdsAnyBase(a, b, "denyAgents", IdItems(spec, "denyAgents"));
  }

  lemma SemanticsAnyBase(k: Checkers, document: Json, a: string, b: string)
    ensures |SemanticErrors(k, document, a)| == |SemanticErrors(k, document, b)|
  {
    if Get(document, "spec").Some? { PresetAnyBase(a, b, Get(document, "spec").value); }
    HardwareAnyBase(a, b, AsArr(Get2(document, "spec", "hardware")));
    EndpointsAnyBase(a, b, AsArr(Get2(document, "spec", "endpoints")));
  }

  // ------------------------------------------------------------- documents

  /** The document passes every check of its own. */
  predicate Passes(k: Checkers, document: Json) {
    && !WrongVersion(document) && !WrongKind(document) && !WrongId(document) && !WrongName(document)
    && SchemaErrors(document, "", k.schema(document)) == [] && SemanticErrors(k, document, "") == []
  }

  predicate AllPass(k: Checkers, docs: seq<Json>) {
    forall document :: document in docs ==> Passes(k, document)
  }

  /** A candidate whose files all parse. */
  predicate NoneUnparsed(pieces: seq<Piece>) {
    forall i :: 0 <= i < |pieces| ==> pieces[i].Parsed?
  }

  function Identities(): Json -> Option<string> {
    (document: Json) => Identity(document)
  }

  lemma DocumentErrorsIff(k: Checkers, firsts: map<string, string>, e: Entry)
    ensures DocumentErrors(k, firsts, e) == [] <==>
      Passes(k, e.document) && (Identity(e.document).Some? ==> Identity(e.document).value !in firsts)
  {
    SchemaAnyBase(e.document, e.base, "", k.schema(e.document));
    SemanticsAnyBase(k, e.document, e.base, "");
    assert DiscriminatorErrors(e.document, e.base) == [] <==> !WrongVersion(e.document) && !WrongKind(e.document);
    assert CoreErrors(e.document, e.base) == [] <==> !WrongId(e.document) && !WrongName(e.document);
  }

  lemma {:induction false} FirstsAre(pieces: seq<Piece>, id: string)
    ensures id in Firsts(pieces) <==>
      exists document :: document in Docs(Collection(pieces)) && Identities()(document) == Some(id)
  {
    if pieces != [] {
      var before, last := pieces[..|pieces| - 1], pieces[|pieces| - 1];
      FirstsAre(before, id);
      if last.Parsed? {
        DocsOneMore(Collection(before), last.entry);
        assert Identities()(last.entry.document) == Identity(last.entry.document);
      } else {
        assert Collection(pieces) == Collection(before);
      }
    }
  }

  lemma NewIdentityIff(pieces: seq<Piece>, document: Json)
    ensures (Identity(document).Some? ==> Identity(document).value !in Firsts(pieces))
      <==> (Identities()(document).Some? ==> forall y :: y in Docs(Collection(pieces)) ==>
        Identities()(y) != Identities()(document))
  {
    assert Identities()(document) == Identity(document);
    if Identity(document).Some? { FirstsAre(pieces, Identity(document).value); }
  }

  lemma AllPassOneMore(k: Checkers, docs: seq<Json>, document: Json)
    ensures AllPass(k, docs + [document]) <==> AllPass(k, docs) && Passes(k, document)
  {
    assert document in docs + [document];
    assert forall x :: x in docs ==> x in docs + [document];
  }

  lemma UnparsedLast(pieces: seq<Piece>)
    requires pieces != []
    ensures NoneUnparsed(pieces) <==> NoneUnparsed(pieces[..|pieces| - 1]) && pieces[|pieces| - 1].Parsed?
  {
  }

  lemma PiecesOneMore(k: Checkers, pieces: seq<Piece>)
    requires pieces != []
    ensures PiecesErrors(k, pieces) == []
      <==> PiecesErrors(k, pieces[..|pieces| - 1]) == []
           && PieceErrors(k, Firsts(pieces[..|pieces| - 1]), pieces[|pieces| - 1]) == []
  {
  }

  lemma {:induction false} PiecesErrorsIff(k: Checkers, pieces: seq<Piece>)
    ensures PiecesErrors(k, pieces) == []
      <==> NoneUnparsed(pieces) && AllPass(k, Docs(Collection(pieces)))
           && UniqueBy(Identities(), Docs(Collection(pieces)))
  {
    if pieces != [] {
      var before, last := pieces[..|pieces| - 1], pieces[|pieces| - 1];
      PiecesErrorsIff(k, before);
      PiecesOneMore(k, pieces);
      UnparsedLast(pieces);
      if last.Parsed? {
        var document := last.entry.document;
        DocsOneMore(Collection(before), last.entry);
        DocumentErrorsIff(k, Firsts(before), last.entry);
        NewIdentityIff(before, document);
        Permutations.UniqueOneMore(Identities(), Docs(Collection(before)), document);
        AllPassOneMore(k, Docs(Collection(before)), document);
      }
    }
  }

  // ------------------------------------------------------------ references

  function Declarer(): Json -> Option<(Role, string)> {
    (document: Json) => Declares(Placed(document))
  }

  lemma KnownAnyOrder(c: seq<Entry>, role: Role, name: string)
    ensures Known(c, role, name) <==>
      exists document :: document in Docs(c) && Declarer()(document) == Some((role, name))
  {
    if i :| DeclaredAt(c, i, role, name) {
      assert Docs(c)[i] == c[i].document && Declarer()(c[i].document) == Some((role, name));
    }
    if document :| document in Docs(c) && Declarer()(document) == Some((role, name)) {
      var i :| 0 <= i < |c| && Docs(c)[i] == document;
      assert DeclaredAt(c, i, role, name);
    }
  }

  lemma NamesUniqueIff(c: seq<Entry>)
    ensures NamesUnique(c) <==> UniqueBy(Declarer(), Docs(c))
  {
    forall i | 0 <= i < |c| ensures Declarer()(Docs(c)[i]) == Declares(c[i]) {
    }
    if NamesUnique(c) {
      forall i, j | 0 <= i < j < |c| && Declarer()(Docs(c)[i]).Some?
        ensures Declarer()(Docs(c)[i]) != Declarer()(Docs(c)[j])
      {
        var (role, name) := Declares(c[i]).value;
        assert DeclaredAt(c, i, role, name) && DeclaredAt(c, j, role, name) ==> i == j;
      }
    }
    if !NamesUnique(c) {
      var i, j, role, name :| DeclaredAt(c, i, role, name) && DeclaredAt(c, j, role, name) && i != j;
      var first, second := if i < j then i else j, if i < j then j else i;
      assert Declarer()(Docs(c)[first]).Some? && Declarer()(Docs(c)[first]) == Declarer()(Docs(c)[second]);
    }
  }

  /** Every entry of one list has its document in the other. */
  ghost predicate Covers(c: seq<Entry>, other: seq<Entry>) {
    forall e :: e in other ==> exists twin :: twin in c && twin.document == e.document
  }

  lemma SameDocsCover(c: seq<Entry>, other: seq<Entry>)
    requires Permuted(Docs(c), Docs(other))
    ensures Covers(c, other)
  {
    forall e | e in other ensures exists twin :: twin in c && twin.document == e.document {
      var i :| 0 <= i < |other| && other[i] == e;
      assert Docs(other)[i] == e.document;
      SameMembers(Docs(c), Docs(other), e.document);
      var j :| 0 <= j < |c| && Docs(c)[j] == e.document;
      assert c[j] in c && c[j].document == e.document;
    }
  }

  ghost predicate SameKnown(c: seq<Entry>, other: seq<Entry>) {
    forall role, name :: Known(c, role, name) <==> Known(other, role, name)
  }

  lemma SameDocsSameKnown(c: seq<Entry>, other: seq<Entry>)
    requires Permuted(Docs(c), Docs(other))
    ensures SameKnown(c, other)
  {
    forall role, name ensures Known(c, role, name) <==> Known(other, role, name) {
      KnownAnyOrder(c, role, name);
      KnownAnyOrder(other, role, name);
      forall document ensures document in Docs(c) <==> document in Docs(other) {
        SameMembers(Docs(c), Docs(other), document);
      }
    }
  }

  lemma NamedAnyOrder(c: seq<Entry>, other: seq<Entry>)
    requires Named(c) && Covers(c, other)
    ensures Named(other)
  {
  }

  lemma ResolvedAnyOrder(c: seq<Entry>, other: seq<Entry>)
    requires Resolved(c) && Covers(c, other) && SameKnown(c, other)
    ensures Resolved(other)
  {
    forall e | e in other
      ensures RoleOf(e.document).Machine? ==>
        && (forall x :: x in SpecItems(e.document, "profiles") ==> Known(other, Profile, x.text))
        && (forall x :: x in SpecItems(e.document, "projects") ==> Known(other, Project, x.text))
      ensures RoleOf(e.document).Profile? ==> forall x :: x in SpecItems(e.document, "extends") ==>
        Known(other, Profile, x.text)
    {
      var twin :| twin in c && twin.document == e.document;
    }
  }

  lemma RankedAnyOrder(c: seq<Entry>, other: seq<Entry>, rank: string -> nat)
    requires Ranked(c, rank) && Covers(c, other)
    ensures Ranked(other, rank)
  {
    forall e, x | e in other && RoleOf(e.document).Profile? && x in SpecItems(e.document, "extends")
      ensures rank(x.text) < rank(OwnName(e))
    {
      var twin :| twin in c && twin.document == e.document;
      assert rank(x.text) < rank(OwnName(twin));
    }
  }

  /** Reordering named documents does not change whether their references are right. */
  lemma ReferencesAnyOrder(c: seq<Entry>, other: seq<Entry>)
    requires Permuted(Docs(c), Docs(other)) && Named(c) && ReferenceDiagnostics(c) == []
    ensures ReferenceDiagnostics(other) == []
  {
    SameDocsCover(c, other);
    SameDocsSameKnown(c, other);
    NamedAnyOrder(c, other);
    ReportsNothingIff(c);
    NamesUniqueIff(c);
    NamesUniqueIff(other);
    UniquePermuted(Declarer(), Docs(c), Docs(other));
    ResolvedAnyOrder(c, other);
    var rank :| Ranked(c, rank);
    RankedAnyOrder(c, other, rank);
    ReportsNothingIff(other);
  }
}
