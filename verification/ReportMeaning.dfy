/** What the report says about one document, in the words of the document. */
module ReportMeaning {
  import opened Wrappers
  import opened JsonValues
  import opened Diagnostics
  import opened Documents
  import opened Permutations
  import opened RegistryNames
  import opened SchemaLinker
  import opened DocumentChecks
  import opened Registry
  import opened Validation
  import opened ValidationRules
  import opened ReportFacts
  import opened DocumentReports

  /** The kinds a document may be of. */
  predicate IsKind(kind: string) {
    || kind == "FleetConfig" || kind == "Machine" || kind == "Profile" || kind == "Project"
    || kind == "ToolRequirement" || kind == "SkillPreset" || kind == "Recipe" || kind == "Action"
    || kind == "LabTemplate" || kind == "PolicyBinding" || kind == "RegistryType" || kind == "RegistryEntry"
  }

  lemma KnownKindIff(kind: string)
    ensures KnownKind(kind) <==> IsKind(kind)
  {
    if IsKind(kind) { KindListed(kind); }
  }

  lemma KindListed(kind: string)
    requires IsKind(kind)
    ensures KnownKind(kind)
  {
    assert ALL_KINDS[0].Id() == "FleetConfig" && ALL_KINDS[1].Id() == "Machine" && ALL_KINDS[2].Id() == "Profile";
    assert ALL_KINDS[3].Id() == "Project" && ALL_KINDS[4].Id() == "ToolRequirement";
    assert ALL_KINDS[5].Id() == "SkillPreset" && ALL_KINDS[6].Id() == "Recipe" && ALL_KINDS[7].Id() == "Action";
    assert ALL_KINDS[8].Id() == "LabTemplate" && ALL_KINDS[9].Id() == "PolicyBinding";
    assert ALL_KINDS[10].Id() == "RegistryType" && ALL_KINDS[11].Id() == "RegistryEntry";
  }

  // -------------------------------------------------------- pass by pass

  predicate SemanticCode(code: Code) {
    code.InvalidSkillAssignment? || code.DuplicateHardware? || code.CredentialReference? || code.InvalidRemote?
  }

  /** Each check of a document has codes of its own. */
  lemma CodesApart(k: Checkers, firsts: map<string, string>, e: Entry, d: Diagnostic)
    ensures d in DiscriminatorErrors(e.document, e.base) ==> d.code.UnknownApiVersion? || d.code.UnknownKind?
    ensures d in SchemaErrors(e.document, e.base, k.schema(e.document)) ==> d.code.SchemaInvalid?
    ensures d in IdentityErrors(firsts, e) ==> d.code.DuplicateId?
    ensures d in CoreErrors(e.document, e.base) ==> d.code.InvalidId? || d.code.InvalidName?
    ensures d in SemanticErrors(k, e.document, e.base) ==> SemanticCode(d.code)
  {
    SchemaOwn(e.document, e.base, k.schema(e.document));
    SemanticsOwn(k, e.document, e.base);
  }

  /** So what is reported with a code is what its check reports. */
  lemma CheckReports(k: Checkers, firsts: map<string, string>, e: Entry, part: seq<Diagnostic>, code: Code, at: Location)
    requires match code
      case UnknownApiVersion => part == DiscriminatorErrors(e.document, e.base)
      case UnknownKind => part == DiscriminatorErrors(e.document, e.base)
      case SchemaInvalid => part == SchemaErrors(e.document, e.base, k.schema(e.document))
      case DuplicateId => part == IdentityErrors(firsts, e)
      case InvalidId => part == CoreErrors(e.document, e.base)
      case InvalidName => part == CoreErrors(e.document, e.base)
      case _ => SemanticCode(code) && part == SemanticErrors(k, e.document, e.base)
    ensures Reports(DocumentErrors(k, firsts, e), code, at) <==> Reports(part, code, at)
  {
    var all := DocumentErrors(k, firsts, e);
    forall d: Diagnostic | d.code == code && d.at == at ensures d in all <==> d in part {
      OwnParts(k, firsts, e, d);
      CodesApart(k, firsts, e, d);
    }
    SameReports(all, part, code, at);
  }

  // --------------------------------------------------------- discriminators

  lemma DiscriminatorsMean(document: Json, base: string)
    ensures Reports(DiscriminatorErrors(document, base), UnknownApiVersion, Location(base, [Key("apiVersion")])) <==>
      exists text :: AsStr(Get(document, "apiVersion")) == Some(text) && text != "fleet.frogbyte.io/v1alpha1"
    ensures Reports(DiscriminatorErrors(document, base), UnknownKind, Location(base, [Key("kind")])) <==>
      exists text :: AsStr(Get(document, "kind")) == Some(text) && !IsKind(text)
  {
    var version := if WrongVersion(document)
      then [Diagnostic(UnknownApiVersion, Location(base, [Key("apiVersion")]), [VersionOfDocument(document).value])]
      else [];
    var kind := if WrongKind(document)
      then [Diagnostic(Code.UnknownKind, Location(base, [Key("kind")]), [KindText(document).value])] else [];
    if KindText(document).Some? { KnownKindIff(KindText(document).value); }
    if WrongVersion(document) { assert version[0] in version + kind; }
    if WrongKind(document) { assert kind[0] in version + kind; }
    assert DiscriminatorErrors(document, base) == version + kind;
  }

  /** The report has an unknown version at a document's `apiVersion` iff that is a text
      other than the one version, and an unknown kind at its `kind` iff that is a text
      other than the twelve kinds. */
  lemma DiscriminatorsReportedIff(k: Checkers, g: RegistrySpecs.Grammars, builtins: seq<Builtin>, sources: seq<Source>,
                                  n: nat)
    requires UniqueBy(BaseOf, Collection(Pieces(sources))) && n < |Pieces(sources)| && Pieces(sources)[n].Parsed?
    ensures var e, all := Pieces(sources)[n].entry, AllErrors(k, g, builtins, sources);
      && (Reports(all, UnknownApiVersion, Location(e.base, [Key("apiVersion")])) <==>
            exists text :: AsStr(Get(e.document, "apiVersion")) == Some(text) && text != "fleet.frogbyte.io/v1alpha1")
      && (Reports(all, UnknownKind, Location(e.base, [Key("kind")])) <==>
            exists text :: AsStr(Get(e.document, "kind")) == Some(text) && !IsKind(text))
  {
    var e, firsts := Pieces(sources)[n].entry, Firsts(Pieces(sources)[..n]);
    var version, kind := Location(e.base, [Key("apiVersion")]), Location(e.base, [Key("kind")]);
    CodesOfDocuments();
    DocumentReportedIff(k, g, builtins, sources, n, UnknownApiVersion, version);
    DocumentReportedIff(k, g, builtins, sources, n, UnknownKind, kind);
    CheckReports(k, firsts, e, DiscriminatorErrors(e.document, e.base), UnknownApiVersion, version);
    CheckReports(k, firsts, e, DiscriminatorErrors(e.document, e.base), UnknownKind, kind);
    DiscriminatorsMean(e.document, e.base);
  }

  lemma CodesOfDocuments()
    ensures UnknownApiVersion in DOCUMENT_CODES && UnknownKind in DOCUMENT_CODES && InvalidId in DOCUMENT_CODES
    ensures InvalidName in DOCUMENT_CODES && DuplicateId in DOCUMENT_CODES && SchemaInvalid in DOCUMENT_CODES
    ensures SEMANTIC_CODES <= DOCUMENT_CODES
  {
  }

  /** An error-free candidate has only the one version and the twelve kinds. */
  lemma ErrorFreeDiscriminators(k: Checkers, g: RegistrySpecs.Grammars, builtins: seq<Builtin>, sources: seq<Source>,
                                n: nat, e: Entry)
    requires AllErrors(k, g, builtins, sources) == [] && n < |Pieces(sources)| && Pieces(sources)[n] == Parsed(e)
    ensures forall text :: AsStr(Get(e.document, "apiVersion")) == Some(text) ==> text == "fleet.frogbyte.io/v1alpha1"
    ensures forall text :: AsStr(Get(e.document, "kind")) == Some(text) ==> IsKind(text)
  {
    var pieces := Pieces(sources);
    var errors := DiscriminatorErrors(e.document, e.base);
    DiscriminatorsMean(e.document, e.base);
    if errors != [] {
      OwnParts(k, Firsts(pieces[..n]), e, errors[0]);
      PieceErrorListed(k, pieces, n, errors[0]);
    }
  }

  // -------------------------------------------------------------- core values

  lemma CoreMeans(document: Json, base: string)
    ensures Reports(CoreErrors(document, base), InvalidId, Location(base, [Key("metadata"), Key("id")])) <==>
      exists text :: AsStr(Get2(document, "metadata", "id")) == Some(text) && !IsResourceId(text)
    ensures Reports(CoreErrors(document, base), InvalidName, Location(base, [Key("metadata"), Key("name")])) <==>
      exists text :: AsStr(Get2(document, "metadata", "name")) == Some(text) && !IsSlug(text)
  {
    var id := if WrongId(document) then [Diagnostic(InvalidId, Location(base, IdSegments()), [])] else [];
    var name := if WrongName(document) then [Diagnostic(InvalidName, Location(base, NameSegments()), [])] else [];
    if WrongId(document) { assert id[0] in id + name; }
    if WrongName(document) { assert name[0] in id + name; }
    assert CoreErrors(document, base) == id + name;
  }

  /** The report has an invalid identity at a document's `metadata.id` iff that is a
      text but no identity, and an invalid name at its `metadata.name` iff that is a
      text but no slug. */
  lemma CoreReportedIff(k: Checkers, g: RegistrySpecs.Grammars, builtins: seq<Builtin>, sources: seq<Source>, n: nat)
    requires UniqueBy(BaseOf, Collection(Pieces(sources))) && n < |Pieces(sources)| && Pieces(sources)[n].Parsed?
    ensures var e, all := Pieces(sources)[n].entry, AllErrors(k, g, builtins, sources);
      && (Reports(all, InvalidId, Location(e.base, [Key("metadata"), Key("id")])) <==>
            exists text :: AsStr(Get2(e.document, "metadata", "id")) == Some(text) && !IsResourceId(text))
      && (Reports(all, InvalidName, Location(e.base, [Key("metadata"), Key("name")])) <==>
            exists text :: AsStr(Get2(e.document, "metadata", "name")) == Some(text) && !IsSlug(text))
  {
    var e, firsts := Pieces(sources)[n].entry, Firsts(Pieces(sources)[..n]);
    var id, name := Location(e.base, [Key("metadata"), Key("id")]), Location(e.base, [Key("metadata"), Key("name")]);
    CodesOfDocuments();
    DocumentReportedIff(k, g, builtins, sources, n, InvalidId, id);
    DocumentReportedIff(k, g, builtins, sources, n, InvalidName, name);
    CheckReports(k, firsts, e, CoreErrors(e.document, e.base), InvalidId, id);
    CheckReports(k, firsts, e, CoreErrors(e.document, e.base), InvalidName, name);
    CoreMeans(e.document, e.base);
  }

  // ------------------------------------------------------------- identities

  /** The document declares the identity. */
  predicate HasIdentity(piece: Piece, id: string) {
    piece.Parsed? && AsStr(Get2(piece.entry.document, "metadata", "id")) == Some(id)
  }

  lemma {:induction false} FirstsHold(pieces: seq<Piece>, id: string)
    requires IsResourceId(id)
    ensures id in Firsts(pieces) <==> exists m :: 0 <= m < |pieces| && HasIdentity(pieces[m], id)
  {
    if pieces != [] {
      var last := |pieces| - 1;
      FirstsHold(pieces[..last], id);
      if m :| 0 <= m < |pieces| && HasIdentity(pieces[m], id) {
        assert m < last ==> HasIdentity(pieces[..last][m], id);
      }
      if m :| 0 <= m < last && HasIdentity(pieces[..last][m], id) {
        assert HasIdentity(pieces[m], id);
      }
    }
  }

  /** The report has a repeated identity at a document iff its identity is well-formed
      and some document before it has it. */
  lemma DuplicateIdReportedIff(k: Checkers, g: RegistrySpecs.Grammars, builtins: seq<Builtin>, sources: seq<Source>,
                               n: nat)
    requires UniqueBy(BaseOf, Collection(Pieces(sources))) && n < |Pieces(sources)| && Pieces(sources)[n].Parsed?
    ensures var pieces, all := Pieces(sources), AllErrors(k, g, builtins, sources);
      Reports(all, DuplicateId, Location(pieces[n].entry.base, [Key("metadata"), Key("id")])) <==>
        exists id, m :: IsResourceId(id) && 0 <= m < n && HasIdentity(pieces[n], id) && HasIdentity(pieces[m], id)
  {
    var pieces := Pieces(sources);
    var e, firsts := pieces[n].entry, Firsts(pieces[..n]);
    var at := Location(e.base, [Key("metadata"), Key("id")]);
    CodesOfDocuments();
    DocumentReportedIff(k, g, builtins, sources, n, DuplicateId, at);
    CheckReports(k, firsts, e, IdentityErrors(firsts, e), DuplicateId, at);
    IdentityMeans(pieces, n);
  }

  lemma IdentityMeans(pieces: seq<Piece>, n: nat)
    requires n < |pieces| && pieces[n].Parsed?
    ensures Reports(IdentityErrors(Firsts(pieces[..n]), pieces[n].entry), DuplicateId,
                    Location(pieces[n].entry.base, [Key("metadata"), Key("id")])) <==>
      exists id, m :: IsResourceId(id) && 0 <= m < n && HasIdentity(pieces[n], id) && HasIdentity(pieces[m], id)
  {
    var e, firsts := pieces[n].entry, Firsts(pieces[..n]);
    var errors := IdentityErrors(firsts, e);
    if Identity(e.document).Some? {
      var id := Identity(e.document).value;
      FirstsHold(pieces[..n], id);
      if id in firsts {
        assert errors[0] in errors;
        var m :| 0 <= m < |pieces[..n]| && HasIdentity(pieces[..n][m], id);
        assert HasIdentity(pieces[n], id) && HasIdentity(pieces[m], id);
      }
    }
    if id, m :| IsResourceId(id) && 0 <= m < n && HasIdentity(pieces[n], id) && HasIdentity(pieces[m], id) {
      assert Identity(e.document) == Some(id) && HasIdentity(pieces[..n][m], id);
    }
  }

  // --------------------------------------------------------- schema errors

  /** The member at the pointer is a text that is reported by itself. */
  predicate ReportedByItself(document: Json, pointer: string) {
    || (pointer == "/apiVersion" && AsStr(Get(document, "apiVersion")).Some?
        && AsStr(Get(document, "apiVersion")).value != "fleet.frogbyte.io/v1alpha1")
    || (pointer == "/kind" && AsStr(Get(document, "kind")).Some? && !IsKind(AsStr(Get(document, "kind")).value))
    || (pointer == "/metadata/id" && AsStr(Get2(document, "metadata", "id")).Some?
        && !IsResourceId(AsStr(Get2(document, "metadata", "id")).value))
    || (pointer == "/metadata/name" && AsStr(Get2(document, "metadata", "name")).Some?
        && !IsSlug(AsStr(Get2(document, "metadata", "name")).value))
  }

  lemma PointersApart()
    ensures "/apiVersion" != "/kind" && "/apiVersion" != "/metadata/id" && "/apiVersion" != "/metadata/name"
    ensures "/kind" != "/metadata/id" && "/kind" != "/metadata/name" && "/metadata/id" != "/metadata/name"
  {
    assert "/apiVersion"[1] == 'a' && "/kind"[1] == 'k' && "/metadata/id"[1] == 'm' && "/metadata/name"[1] == 'm';
    assert "/metadata/id"[10] == 'i' && "/metadata/name"[10] == 'n';
  }

  lemma SpecificIff(document: Json, pointer: string)
    ensures HasSpecificDiagnostic(document, pointer) <==> ReportedByItself(document, pointer)
  {
    PointersApart();
    if KindText(document).Some? { KnownKindIff(KindText(document).value); }
  }

  lemma {:induction false} SchemaReport(document: Json, base: string, pointers: seq<string>, path: seq<Segment>)
    ensures Reports(SchemaErrors(document, base, pointers), SchemaInvalid, Location(base, path)) <==>
      exists pointer :: pointer in pointers && ErrorPath(pointer) == path && !ReportedByItself(document, pointer)
  {
    if pointers != [] {
      var before, last := pointers[..|pointers| - 1], pointers[|pointers| - 1];
      assert pointers == before + [last];
      SchemaReport(document, base, before, path);
      SpecificIff(document, last);
      ReportsSum(SchemaErrors(document, base, before), SchemaErrorsOf(document, base, last), SchemaInvalid,
                 Location(base, path));
      if !HasSpecificDiagnostic(document, last) {
        ReportsOne(SchemaError(base, last), SchemaInvalid, Location(base, path));
      }
    }
  }

  /** The report has a schema error at a place of a document iff the validator has one
      there that is not reported by itself. */
  lemma SchemaReportedIff(k: Checkers, g: RegistrySpecs.Grammars, builtins: seq<Builtin>, sources: seq<Source>, n: nat,
                          e: Entry, path: seq<Segment>)
    requires UniqueBy(BaseOf, Collection(Pieces(sources))) && n < |Pieces(sources)| && Pieces(sources)[n] == Parsed(e)
    ensures Reports(AllErrors(k, g, builtins, sources), SchemaInvalid, Location(e.base, path)) <==>
      exists pointer ::
        pointer in k.schema(e.document) && ErrorPath(pointer) == path && !ReportedByItself(e.document, pointer)
  {
    var firsts := Firsts(Pieces(sources)[..n]);
    CodesOfDocuments();
    DocumentReportedIff(k, g, builtins, sources, n, SchemaInvalid, Location(e.base, path));
    CheckReports(k, firsts, e, SchemaErrors(e.document, e.base, k.schema(e.document)), SchemaInvalid,
                 Location(e.base, path));
    SchemaReport(e.document, e.base, k.schema(e.document), path);
  }

  // ------------------------------------------------------------------ files

  /** A file that could not be parsed. */
  predicate Unread(sources: seq<Source>, path: string) {
    exists i :: 0 <= i < |sources| && sources[i].path == path && sources[i].documents.None?
  }

  lemma {:induction false} UnreadPiece(sources: seq<Source>, path: string)
    ensures Unparsed(path) in Pieces(sources) <==> Unread(sources, path)
  {
    if sources != [] {
      var last := |sources| - 1;
      UnreadPiece(sources[..last], path);
      assert Unparsed(path) in PiecesOf(sources[last]) <==>
        sources[last].path == path && sources[last].documents.None? by {
        if sources[last].documents.None? { assert PiecesOf(sources[last])[0] == Unparsed(sources[last].path); }
      }
      if i :| 0 <= i < last && sources[..last][i].path == path && sources[..last][i].documents.None? {
        assert sources[i].path == path;
      }
      if i :| 0 <= i < |sources| && sources[i].path == path && sources[i].documents.None? {
        assert i < last ==> sources[..last][i].path == path;
      }
    }
  }

  /** A parse error is reported for a file iff it could not be parsed. */
  lemma ParseReportedIff(k: Checkers, g: RegistrySpecs.Grammars, builtins: seq<Builtin>, sources: seq<Source>,
                         path: string)
    ensures Reports(AllErrors(k, g, builtins, sources), YamlParse, Location(path, [])) <==> Unread(sources, path)
  {
    var pieces, at := Pieces(sources), Location(path, []);
    UnreadPiece(sources, path);
    if d :| d in AllErrors(k, g, builtins, sources) && d.code == YamlParse && d.at == at {
      FirstPassReports(k, g, builtins, sources, d);
      var n := PieceErrorFound(k, pieces, d);
      ParsePiece(k, Firsts(pieces[..n]), pieces[n], d);
    }
    if Unparsed(path) in pieces {
      var n :| 0 <= n < |pieces| && pieces[n] == Unparsed(path);
      var d := Diagnostic(YamlParse, at, []);
      assert d in PieceErrors(k, Firsts(pieces[..n]), pieces[n]);
      PieceErrorListed(k, pieces, n, d);
      FirstPassReports(k, g, builtins, sources, d);
    }
  }

  lemma ParsePiece(k: Checkers, firsts: map<string, string>, piece: Piece, d: Diagnostic)
    requires d.code == YamlParse && d in PieceErrors(k, firsts, piece)
    ensures piece == Unparsed(d.at.base)
  {
    ParseCode();
    if piece.Parsed? { DocumentOwn(k, firsts, piece.entry); }
  }
}
