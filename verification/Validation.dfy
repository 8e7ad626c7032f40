/** Validating YAML sources as one candidate collection. */
module Validation {
  import opened Wrappers
  import opened Numbers
  import opened JsonValues
  import opened Diagnostics
  import opened Documents
  import opened Sequences
  import opened DocumentChecks
  import opened References
  import opened Registry

  /** A source file; no documents when its YAML could not be parsed. */
  datatype Source = Source(path: string, documents: Option<seq<Json>>)

  /** What the validator meets, in order. */
  datatype Piece = Unparsed(path: string) | Parsed(entry: Entry)

  function BaseAt(path: string, index: nat): string {
    path + "#document=" + Decimal(index + 1)
  }

  function PiecesOf(s: Source): seq<Piece> {
    match s.documents
    case None => [Unparsed(s.path)]
    case Some(documents) =>
      seq(|documents|, i requires 0 <= i < |documents| => Parsed(Entry(BaseAt(s.path, i), documents[i])))
  }

  function Pieces(sources: seq<Source>): seq<Piece> {
    if sources == [] then [] else Pieces(sources[..|sources| - 1]) + PiecesOf(sources[|sources| - 1])
  }

  /** The collection: every parsed document with its base. */
  function Collection(pieces: seq<Piece>): seq<Entry> {
    if pieces == [] then []
    else Collection(pieces[..|pieces| - 1]) + match pieces[|pieces| - 1] case Parsed(e) => [e] case Unparsed(_) => []
  }

  // ------------------------------------------------------------ identities

  /** The identity a document claims, when it is a well-formed one. */
  function Identity(document: Json): Option<string> {
    match IdOf(document)
    case Some(id) => if IsResourceId(id) then Some(id) else None
    case None => None
  }

  /** Where each identity was first declared. */
  function Firsts(pieces: seq<Piece>): map<string, string> {
    if pieces == [] then map[] else WithIdentity(Firsts(pieces[..|pieces| - 1]), pieces[|pieces| - 1])
  }

  function WithIdentity(firsts: map<string, string>, piece: Piece): map<string, string> {
    match piece
    case Unparsed(_) => firsts
    case Parsed(e) =>
      match Identity(e.document)
      case None => firsts
      case Some(id) => if id in firsts then firsts else firsts[id := e.base]
  }

  function IdentityErrors(firsts: map<string, string>, e: Entry): seq<Diagnostic> {
    match Identity(e.document)
    case Some(id) => if id in firsts then [Diagnostic(DuplicateId, Location(e.base, IdSegments()), [firsts[id]])]
      else []
    case None => []
  }

  // ------------------------------------------------------------- documents

  function DocumentErrors(k: Checkers, firsts: map<string, string>, e: Entry): seq<Diagnostic> {
    DiscriminatorErrors(e.document, e.base)
    + (SchemaErrors(e.document, e.base, k.schema(e.document))
       + (IdentityErrors(firsts, e) + (CoreErrors(e.document, e.base) + SemanticErrors(k, e.document, e.base))))
  }

  function PieceErrors(k: Checkers, firsts: map<string, string>, piece: Piece): seq<Diagnostic> {
    match piece
    case Unparsed(path) => [Diagnostic(YamlParse, Location(path, []), [])]
    case Parsed(e) => DocumentErrors(k, firsts, e)
  }

  function PiecesErrors(k: Checkers, pieces: seq<Piece>): seq<Diagnostic> {
    if pieces == [] then []
    else PiecesErrors(k, pieces[..|pieces| - 1]) + PieceErrors(k, Firsts(pieces[..|pieces| - 1]), pieces[|pieces| - 1])
  }

  lemma OnePieceMore(k: Checkers, pieces: seq<Piece>, piece: Piece)
    ensures PiecesErrors(k, pieces + [piece]) == PiecesErrors(k, pieces) + PieceErrors(k, Firsts(pieces), piece)
    ensures Firsts(pieces + [piece]) == WithIdentity(Firsts(pieces), piece)
    ensures Collection(pieces + [piece]) ==
      Collection(pieces) + match piece case Parsed(e) => [e] case Unparsed(_) => []
  {
    assert (pieces + [piece])[..|pieces|] == pieces;
  }

  method ValidateDocument(k: Checkers, e: Entry, before: map<string, string>, log: Log)
      returns (firsts: map<string, string>)
    modifies log
    ensures log.items == old(log.items) + DocumentErrors(k, before, e)
    ensures firsts == WithIdentity(before, Parsed(e))
  {
    ghost var semantic := SemanticErrors(k, e.document, e.base);
    Nested(log.items, DiscriminatorErrors(e.document, e.base), SchemaErrors(e.document, e.base, k.schema(e.document)),
           IdentityErrors(before, e), CoreErrors(e.document, e.base), semantic);
    ValidateDiscriminator(e.document, e.base, log);
    ReportSchemaErrors(e.document, e.base, k.schema(e.document), log);
    firsts := ClaimIdentity(e, before, log);
    ValidateCoreValues(e.document, e.base, log);
    ValidateSemantics(k, e.document, e.base, log);
  }

  method ClaimIdentity(e: Entry, before: map<string, string>, log: Log) returns (firsts: map<string, string>)
    modifies log
    ensures log.items == old(log.items) + IdentityErrors(before, e)
    ensures firsts == WithIdentity(before, Parsed(e))
  {
    firsts := before;
    var id := IdOf(e.document);
    if id.Some? && IsResourceId(id.value) {
      if id.value in firsts {
        log.Push(Diagnostic(DuplicateId, Location(e.base, IdSegments()), [firsts[id.value]]));
      } else {
        firsts := firsts[id.value := e.base];
      }
    }
  }

  lemma Nested<T>(a: seq<T>, b: seq<T>, c: seq<T>, d: seq<T>, e: seq<T>, f: seq<T>)
    ensures a + b + c + d + e + f == a + (b + (c + (d + (e + f))))
  {
  }

  // ------------------------------------------------------------ the report

  datatype Report = Report(errors: set<Diagnostic>, warnings: set<Diagnostic>)

  ghost function AllErrors(k: Checkers, g: RegistrySpecs.Grammars, builtins: seq<Builtin>,
                           sources: seq<Source>): seq<Diagnostic> {
    var c := Collection(Pieces(sources));
    PiecesErrors(k, Pieces(sources)) + ReferenceDiagnostics(c) + RegistryErrors(g, builtins, c)
  }

  /** The report holds every diagnostic of every pass, each once. */
  method ValidateSources(k: Checkers, g: RegistrySpecs.Grammars, sources: seq<Source>, ctx: Context)
      returns (report: Report)
    ensures report.errors == Elements(AllErrors(k, g, ctx.builtins, sources))
    ensures report.warnings == Elements(RegistryWarnings(g, ctx, Collection(Pieces(sources))))
  {
    var errors := new Log();
    var warnings := new Log();
    var collection := ValidateDocuments(k, sources, errors);
    ValidateReferences(collection, errors);
    ValidateRegistry(g, collection, ctx, errors, warnings);
    report := Report(Elements(errors.items), Elements(warnings.items));
  }

  /** The state of the loop over documents once it has met `pieces`. */
  ghost predicate Met(k: Checkers, pieces: seq<Piece>, errors: seq<Diagnostic>, firsts: map<string, string>,
                      collection: seq<Entry>) {
    errors == PiecesErrors(k, pieces) && firsts == Firsts(pieces) && collection == Collection(pieces)
  }

  method ValidateDocuments(k: Checkers, sources: seq<Source>, log: Log) returns (collection: seq<Entry>)
    requires log.items == []
    modifies log
    ensures log.items == PiecesErrors(k, Pieces(sources)) && collection == Collection(Pieces(sources))
  {
    collection := [];
    var firsts: map<string, string> := map[];
    for i := 0 to |sources|
      invariant Met(k, Pieces(sources[..i]), log.items, firsts, collection)
    {
      assert sources[..i + 1][..i] == sources[..i];
      firsts, collection := ValidateSource(k, sources[i], firsts, collection, Pieces(sources[..i]), log);
    }
    assert sources[..|sources|] == sources;
  }

  method ValidateSource(k: Checkers, source: Source, before: map<string, string>, sofar: seq<Entry>,
                        ghost pieces: seq<Piece>, log: Log)
    returns (firsts: map<string, string>, collection: seq<Entry>)
    requires Met(k, pieces, log.items, before, sofar)
    modifies log
    ensures Met(k, pieces + PiecesOf(source), log.items, firsts, collection)
  {
    firsts, collection := before, sofar;
    if source.documents.None? {
      OnePieceMore(k, pieces, Unparsed(source.path));
      log.Push(Diagnostic(YamlParse, Location(source.path, []), []));
      return;
    }
    var documents := source.documents.value;
    ghost var own := PiecesOf(source);
    assert pieces + own[..0] == pieces;
    for i := 0 to |documents|
      invariant Met(k, pieces + own[..i], log.items, firsts, collection)
    {
      AppendOwn(pieces, own, i);
      firsts, collection := ValidateNext(k, Entry(BaseAt(source.path, i), documents[i]), firsts, collection, pieces
        + own[..i], log);
    }
    assert own[..|documents|] == own;
  }

  method ValidateNext(k: Checkers, e: Entry, before: map<string, string>, sofar: seq<Entry>, ghost pieces: seq<Piece>,
                      log: Log)
    returns (firsts: map<string, string>, collection: seq<Entry>)
    requires Met(k, pieces, log.items, before, sofar)
    modifies log
    ensures Met(k, pieces + [Parsed(e)], log.items, firsts, collection)
  {
    OnePieceMore(k, pieces, Parsed(e));
    firsts := ValidateDocument(k, e, before, log);
    collection := sofar + [e];
  }

  lemma AppendOwn(pieces: seq<Piece>, own: seq<Piece>, i: nat)
    requires i < |own|
    ensures pieces + own[..i + 1] == (pieces + own[..i]) + [own[i]]
  {
  }
}
