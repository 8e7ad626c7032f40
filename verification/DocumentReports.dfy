/** When the report has each of the diagnostics about one document by itself. */
module DocumentReports {
  import opened Wrappers
  import opened JsonValues
  import opened Diagnostics
  import opened Documents
  import opened Permutations
  import opened Sequences
  import opened RegistryNames
  import opened DocumentChecks
  import opened References
  import opened ReferenceReports
  import opened Registry
  import opened RegistryReports
  import opened RegistryRules
  import opened Validation
  import opened ReportFacts
  import opened RegistryOwn

  const SEMANTIC_CODES := {InvalidSkillAssignment, DuplicateHardware, CredentialReference, InvalidRemote}
  const DOCUMENT_CODES :=
    {UnknownApiVersion, UnknownKind, SchemaInvalid, DuplicateId, InvalidId, InvalidName} + SEMANTIC_CODES
  const BINDING_CODES := {DuplicateName, UnresolvedReference, ProfileCycle}

  // ----------------------------------------------- whose diagnostics they are

  lemma {:induction false} SchemaOwn(document: Json, base: string, pointers: seq<string>)
    ensures Own(SchemaErrors(document, base, pointers), base, {SchemaInvalid})
  {
    if pointers != [] { SchemaOwn(document, base, pointers[..|pointers| - 1]); }
  }

  lemma {:induction false} IdsOwn(base: string, field: string, items: seq<Item>)
    ensures Own(IdErrors(base, field, items), base, {InvalidSkillAssignment})
  {
    if items != [] { IdsOwn(base, field, items[..|items| - 1]); }
  }

  lemma {:induction false} HardwareOwn(base: string, hardware: seq<Json>)
    ensures Own(HardwareErrors(base, hardware), base, {DuplicateHardware})
  {
    if hardware != [] { HardwareOwn(base, hardware[..|hardware| - 1]); }
  }

  lemma {:induction false} EndpointsOwn(base: string, endpoints: seq<Json>)
    ensures Own(EndpointErrors(base, endpoints), base, {CredentialReference})
  {
    if endpoints != [] { EndpointsOwn(base, endpoints[..|endpoints| - 1]); }
  }

  lemma PresetOwn(base: string, spec: Json)
    ensures Own(PresetErrors(base, spec), base, {InvalidSkillAssignment})
  {
    IdsOwn(base, "deployTo", IdItems(spec, "deployTo"));
    IdsOwn(base, "denyAgents", IdItems(spec, "denyAgents"));
  }

  lemma SemanticsOwn(k: Checkers, document: Json, base: string)
    ensures Own(SemanticErrors(k, document, base), base, SEMANTIC_CODES)
  {
    if Get(document, "spec").Some? { PresetOwn(base, Get(document, "spec").value); }
    HardwareOwn(base, AsArr(Get2(document, "spec", "hardware")));
    EndpointsOwn(base, AsArr(Get2(document, "spec", "endpoints")));
  }

  /** What one document is reported for by itself, pass by pass. */
  lemma OwnParts(k: Checkers, firsts: map<string, string>, e: Entry, d: Diagnostic)
    ensures d in DocumentErrors(k, firsts, e) <==>
      || d in DiscriminatorErrors(e.document, e.base)
      || d in SchemaErrors(e.document, e.base, k.schema(e.document)) || d in IdentityErrors(firsts, e)
      || d in CoreErrors(e.document, e.base) || d in SemanticErrors(k, e.document, e.base)
  {
  }

  lemma DocumentOwn(k: Checkers, firsts: map<string, string>, e: Entry)
    ensures Own(DocumentErrors(k, firsts, e), e.base, DOCUMENT_CODES)
  {
    SchemaOwn(e.document, e.base, k.schema(e.document));
    SemanticsOwn(k, e.document, e.base);
    forall d | d in DocumentErrors(k, firsts, e) ensures d.at.base == e.base && d.code in DOCUMENT_CODES {
      OwnParts(k, firsts, e, d);
    }
  }

  /** Piece `n` of the candidate is reported so. */
  predicate PieceErredAt(k: Checkers, pieces: seq<Piece>, n: int, d: Diagnostic) {
    0 <= n < |pieces| && d in PieceErrors(k, Firsts(pieces[..n]), pieces[n])
  }

  lemma PieceErredBefore(k: Checkers, pieces: seq<Piece>, n: int, d: Diagnostic)
    requires pieces != [] && n < |pieces| - 1
    ensures PieceErredAt(k, pieces, n, d) <==> PieceErredAt(k, pieces[..|pieces| - 1], n, d)
  {
    assert 0 <= n ==> pieces[..|pieces| - 1][..n] == pieces[..n];
  }

  lemma {:induction false} PieceErrorFound(k: Checkers, pieces: seq<Piece>, d: Diagnostic) returns (n: nat)
    requires d in PiecesErrors(k, pieces)
    ensures PieceErredAt(k, pieces, n, d)
  {
    n := |pieces| - 1;
    if !PieceErredAt(k, pieces, n, d) {
      n := PieceErrorFound(k, pieces[..|pieces| - 1], d);
      PieceErredBefore(k, pieces, n, d);
    }
  }

  lemma {:induction false} PieceErrorListed(k: Checkers, pieces: seq<Piece>, n: nat, d: Diagnostic)
    requires PieceErredAt(k, pieces, n, d)
    ensures d in PiecesErrors(k, pieces)
  {
    if n < |pieces| - 1 {
      PieceErredBefore(k, pieces, n, d);
      PieceErrorListed(k, pieces[..|pieces| - 1], n, d);
    }
  }

  /** Where a parsed document stands in the collection. */
  lemma {:induction false} PlaceOf(pieces: seq<Piece>, n: nat)
    requires n < |pieces| && pieces[n].Parsed?
    ensures |Collection(pieces[..n])| < |Collection(pieces)|
    ensures Collection(pieces)[|Collection(pieces[..n])|] == pieces[n].entry
  {
    var before := pieces[..|pieces| - 1];
    if n < |pieces| - 1 {
      assert before[..n] == pieces[..n];
      PlaceOf(before, n);
    }
  }

  lemma {:induction false} PlacesGrow(pieces: seq<Piece>, m: nat, n: nat)
    requires m < n <= |pieces| && pieces[m].Parsed?
    ensures |Collection(pieces[..m])| < |Collection(pieces[..n])|
  {
    assert pieces[..n][..n - 1] == pieces[..n - 1] && pieces[..n][n - 1] == pieces[n - 1];
    if m < n - 1 { PlacesGrow(pieces, m, n - 1); }
  }

  /** With bases of their own, no two pieces have one base. */
  lemma OnePiece(pieces: seq<Piece>, m: nat, n: nat)
    requires UniqueBy(BaseOf, Collection(pieces)) && m < |pieces| && n < |pieces|
    requires pieces[m].Parsed? && pieces[n].Parsed? && pieces[m].entry.base == pieces[n].entry.base
    ensures m == n
  {
    PlaceOf(pieces, m);
    PlaceOf(pieces, n);
    OneWithKey(BaseOf, Collection(pieces), |Collection(pieces[..m])|, |Collection(pieces[..n])|);
    if m < n { PlacesGrow(pieces, m, n); }
    if n < m { PlacesGrow(pieces, n, m); }
  }

  // ------------------------------------------------------- the other passes

  lemma {:induction false} UnresolvedCodes(e: Entry, field: string, items: seq<Item>, known: set<string>, noun: string)
    ensures Own(Unresolved(e, field, items, known, noun), e.base, BINDING_CODES)
  {
    if items != [] { UnresolvedCodes(e, field, items[..|items| - 1], known, noun); }
  }

  lemma {:induction false} ParentCodes(e: Entry, own: string, parents: seq<Item>, profiles: map<string, seq<string>>)
    ensures Own(ParentDiagnostics(e, own, parents, profiles), e.base, BINDING_CODES)
  {
    if parents != [] { ParentCodes(e, own, parents[..|parents| - 1], profiles); }
  }

  lemma BindingCodes(n: Names, e: Entry)
    ensures Own(BindingDiagnostics(n, e), e.base, BINDING_CODES)
  {
    UnresolvedCodes(e, "profiles", SpecItems(e.document, "profiles"), n.profiles.Keys, "profile");
    UnresolvedCodes(e, "projects", SpecItems(e.document, "projects"), n.projects, "project");
    ParentCodes(e, OwnName(e), SpecItems(e.document, "extends"), n.profiles);
  }

  lemma ReferenceCodes(c: seq<Entry>, d: Diagnostic)
    requires d in ReferenceDiagnostics(c)
    ensures d.code in BINDING_CODES
  {
    ReportedBySome(c, d);
    var i :| 0 <= i < |c| && d in ReportOf(c, i);
    BindingCodes(DeclareAll(c), c[i]);
  }

  lemma RegistryCodes(g: RegistrySpecs.Grammars, builtins: seq<Builtin>, c: seq<Entry>, d: Diagnostic)
    requires d in RegistryErrors(g, builtins, c)
    ensures d.code in TYPE_CODES || d.code in ENTRY_CODES || d.code in RELATION_CODES
  {
    var types := DefineAll(g, builtins, c).specs;
    Passes(g, builtins, c, d);
    if d in TypeErrors(g, builtins, c) {
      var i := TypeErrorFound(g, builtins, c, d);
      OneTypeOwn(g, BuiltinSpecs(builtins).Keys, DefineAll(g, builtins, c[..i]), c[i]);
    } else if d in EntriesErrors(g, types, c) {
      var i := EntryErrorFound(g, types, c, d);
      OneEntryOwn(g, types, EnterAll(g, types, c[..i]), c[i]);
    } else {
      var l := RelationErrorFound(types, EnterAll(g, types, c).list, d);
      RelationsOwn(types, l, |l.entry.relations|);
    }
  }

  lemma CodesOfPasses(code: Code)
    requires code in DOCUMENT_CODES || code == YamlParse
    ensures code !in BINDING_CODES && code !in TYPE_CODES && code !in ENTRY_CODES && code !in RELATION_CODES
  {
  }

  /** What the first pass reports, only it does. */
  lemma FirstPassReports(k: Checkers, g: RegistrySpecs.Grammars, builtins: seq<Builtin>, sources: seq<Source>,
                         d: Diagnostic)
    requires d.code in DOCUMENT_CODES || d.code == YamlParse
    ensures d in AllErrors(k, g, builtins, sources) <==> d in PiecesErrors(k, Pieces(sources))
  {
    var c := Collection(Pieces(sources));
    CodesOfPasses(d.code);
    if d in ReferenceDiagnostics(c) { ReferenceCodes(c, d); }
    if d in RegistryErrors(g, builtins, c) { RegistryCodes(g, builtins, c, d); }
  }

  /** With bases of their own, what the report says about a document by itself is
      what the document is reported for. */
  lemma DocumentReportedIff(k: Checkers, g: RegistrySpecs.Grammars, builtins: seq<Builtin>, sources: seq<Source>,
                        n: nat, code: Code, at: Location)
    requires UniqueBy(BaseOf, Collection(Pieces(sources))) && n < |Pieces(sources)| && Pieces(sources)[n].Parsed?
    requires code in DOCUMENT_CODES && at.base == Pieces(sources)[n].entry.base
    ensures Reports(AllErrors(k, g, builtins, sources), code, at) <==>
      Reports(DocumentErrors(k, Firsts(Pieces(sources)[..n]), Pieces(sources)[n].entry), code, at)
  {
    var pieces := Pieces(sources);
    forall d: Diagnostic | d.code == code && d.at == at
      ensures d in AllErrors(k, g, builtins, sources) <==>
        d in DocumentErrors(k, Firsts(pieces[..n]), pieces[n].entry)
    {
      FirstPassReports(k, g, builtins, sources, d);
      if d in PiecesErrors(k, pieces) { ErredIsOwn(k, pieces, n, d); }
      if PieceErredAt(k, pieces, n, d) { PieceErrorListed(k, pieces, n, d); }
    }
    SameReports(AllErrors(k, g, builtins, sources), DocumentErrors(k, Firsts(pieces[..n]), pieces[n].entry), code, at);
  }

  lemma ErredIsOwn(k: Checkers, pieces: seq<Piece>, n: nat, d: Diagnostic)
    requires UniqueBy(BaseOf, Collection(pieces)) && n < |pieces| && pieces[n].Parsed?
    requires d.code in DOCUMENT_CODES && d.at.base == pieces[n].entry.base && d in PiecesErrors(k, pieces)
    ensures PieceErredAt(k, pieces, n, d)
  {
    var m := PieceErrorFound(k, pieces, d);
    ErredPiece(k, Firsts(pieces[..m]), pieces[m], d);
    OnePiece(pieces, m, n);
  }

  lemma ParseCode()
    ensures YamlParse !in DOCUMENT_CODES
  {
  }

  lemma ErredPiece(k: Checkers, firsts: map<string, string>, piece: Piece, d: Diagnostic)
    requires d.code in DOCUMENT_CODES && d in PieceErrors(k, firsts, piece)
    ensures piece.Parsed? && piece.entry.base == d.at.base
  {
    ParseCode();
    if piece.Parsed? { DocumentOwn(k, firsts, piece.entry); }
  }
}
