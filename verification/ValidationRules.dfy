/** No schema error is lost: a dropped generic error has a specific one in its
    place, so a report without errors means every document fits the schema. */
module ValidationRules {
  import opened Text
  import opened JsonValues
  import opened Diagnostics
  import opened Documents
  import opened RegistryNames
  import opened DocumentChecks
  import opened References
  import opened Registry
  import opened Validation

  /** Where the generic error for a schema error would point. */
  function ErrorPath(pointer: string): seq<Segment> {
    PointerPath(SanitizePointer(pointer))
  }

  lemma FieldNameSegment(name: string)
    requires IsFieldName(name)
    ensures '/' !in name && SanitizeSegment(name) == name
  {
  }

  lemma OneSegment(name: string)
    requires IsFieldName(name)
    ensures ErrorPath(['/'] + name) == [Key(name)]
  {
    FieldNameSegment(name);
    SplitFirst("", '/', name);
    SplitWhole(name, '/');
    assert "" + ['/'] + name == ['/'] + name;
    SanitizedSegments(['/'] + name);
  }

  lemma TwoSegments(outer: string, inner: string)
    requires IsFieldName(outer) && IsFieldName(inner)
    ensures ErrorPath(['/'] + outer + ['/'] + inner) == [Key(outer), Key(inner)]
  {
    FieldNameSegment(outer);
    FieldNameSegment(inner);
    SplitFirst("", '/', outer + ['/'] + inner);
    SplitFirst(outer, '/', inner);
    SplitWhole(inner, '/');
    assert "" + ['/'] + (outer + ['/'] + inner) == ['/'] + outer + ['/'] + inner;
    SanitizedSegments(['/'] + outer + ['/'] + inner);
  }

  lemma FieldNames()
    ensures IsFieldName("apiVersion") && IsFieldName("kind")
    ensures IsFieldName("metadata") && IsFieldName("id") && IsFieldName("name")
  {
  }

  lemma SpecificPath(pointer: string, name: string)
    requires IsFieldName(name) && pointer == ['/'] + name
    ensures ErrorPath(pointer) == [Key(name)]
  {
    OneSegment(name);
  }

  lemma SpecificPath2(pointer: string, outer: string, inner: string)
    requires IsFieldName(outer) && IsFieldName(inner) && pointer == ['/'] + outer + ['/'] + inner
    ensures ErrorPath(pointer) == [Key(outer), Key(inner)]
  {
    TwoSegments(outer, inner);
  }

  /** Some diagnostic of the list points there. */
  ghost predicate Points(ds: seq<Diagnostic>, at: Location) {
    exists i :: 0 <= i < |ds| && ds[i].at == at
  }

  lemma PointsInSum(a: seq<Diagnostic>, b: seq<Diagnostic>, at: Location)
    ensures Points(a, at) || Points(b, at) ==> Points(a + b, at)
  {
    if Points(a, at) {
      var i :| 0 <= i < |a| && a[i].at == at;
      assert (a + b)[i].at == at;
    } else if Points(b, at) {
      var i :| 0 <= i < |b| && b[i].at == at;
      assert (a + b)[|a| + i].at == at;
    }
  }

  lemma {:induction false} GenericReported(document: Json, base: string, pointers: seq<string>, pointer: string)
    requires pointer in pointers && !HasSpecificDiagnostic(document, pointer)
    ensures Points(SchemaErrors(document, base, pointers), Location(base, ErrorPath(pointer)))
  {
    var before, last := pointers[..|pointers| - 1], pointers[|pointers| - 1];
    var own := SchemaErrorsOf(document, base, last);
    if pointer == last {
      assert own[0].at == Location(base, ErrorPath(pointer));
    } else {
      assert pointers == before + [last];
      GenericReported(document, base, before, pointer);
    }
    PointsInSum(SchemaErrors(document, base, before), own, Location(base, ErrorPath(pointer)));
  }

  lemma VersionReported(document: Json, base: string)
    requires WrongVersion(document)
    ensures Points(DiscriminatorErrors(document, base), Location(base, ErrorPath("/apiVersion")))
  {
    FieldNames();
    SpecificPath("/apiVersion", "apiVersion");
    assert DiscriminatorErrors(document, base)[0].at == Location(base, [Key("apiVersion")]);
  }

  lemma KindReported(document: Json, base: string)
    requires WrongKind(document)
    ensures Points(DiscriminatorErrors(document, base), Location(base, ErrorPath("/kind")))
  {
    FieldNames();
    SpecificPath("/kind", "kind");
    var ds := DiscriminatorErrors(document, base);
    assert ds[|ds| - 1].at == Location(base, [Key("kind")]);
  }

  lemma IdReported(document: Json, base: string)
    requires WrongId(document)
    ensures Points(CoreErrors(document, base), Location(base, ErrorPath("/metadata/id")))
  {
    FieldNames();
    SpecificPath2("/metadata/id", "metadata", "id");
    assert CoreErrors(document, base)[0].at == Location(base, IdSegments());
  }

  lemma NameReported(document: Json, base: string)
    requires WrongName(document)
    ensures Points(CoreErrors(document, base), Location(base, ErrorPath("/metadata/name")))
  {
    FieldNames();
    SpecificPath2("/metadata/name", "metadata", "name");
    var ds := CoreErrors(document, base);
    assert ds[|ds| - 1].at == Location(base, NameSegments());
  }

  /** When the generic error is dropped, another pass points at the same place. */
  lemma SpecificReported(document: Json, base: string, pointer: string)
    requires HasSpecificDiagnostic(document, pointer)
    ensures Points(DiscriminatorErrors(document, base), Location(base, ErrorPath(pointer)))
         || Points(CoreErrors(document, base), Location(base, ErrorPath(pointer)))
  {
    if pointer == "/apiVersion" {
      VersionReported(document, base);
    } else if pointer == "/kind" {
      KindReported(document, base);
    } else if pointer == "/metadata/id" {
      IdReported(document, base);
    } else {
      NameReported(document, base);
    }
  }

  lemma SchemaErrorKept(k: Checkers, firsts: map<string, string>, e: Entry, pointer: string)
    requires pointer in k.schema(e.document)
    ensures Points(DocumentErrors(k, firsts, e), Location(e.base, ErrorPath(pointer)))
  {
    var at := Location(e.base, ErrorPath(pointer));
    var discriminator, schema, identity := DiscriminatorErrors(e.document, e.base),
      SchemaErrors(e.document, e.base, k.schema(e.document)), IdentityErrors(firsts, e);
    var core, semantic := CoreErrors(e.document, e.base), SemanticErrors(k, e.document, e.base);
    if HasSpecificDiagnostic(e.document, pointer) {
      SpecificReported(e.document, e.base, pointer);
    } else {
      GenericReported(e.document, e.base, k.schema(e.document), pointer);
    }
    PointsInSum(core, semantic, at);
    PointsInSum(identity, core + semantic, at);
    PointsInSum(schema, identity + (core + semantic), at);
    PointsInSum(discriminator, schema + (identity + (core + semantic)), at);
  }

  lemma LastPieceKept(k: Checkers, pieces: seq<Piece>, at: Location)
    requires pieces != []
    ensures Points(PiecesErrors(k, pieces[..|pieces| - 1]), at)
      || Points(PieceErrors(k, Firsts(pieces[..|pieces| - 1]), pieces[|pieces| - 1]), at)
      ==> Points(PiecesErrors(k, pieces), at)
  {
    var before, last := pieces[..|pieces| - 1], pieces[|pieces| - 1];
    PointsInSum(PiecesErrors(k, before), PieceErrors(k, Firsts(before), last), at);
  }

  lemma {:induction false} PieceKept(k: Checkers, pieces: seq<Piece>, n: nat, at: Location)
    requires n < |pieces| && Points(PieceErrors(k, Firsts(pieces[..n]), pieces[n]), at)
    ensures Points(PiecesErrors(k, pieces), at)
  {
    LastPieceKept(k, pieces, at);
    if n < |pieces| - 1 {
      assert pieces[..|pieces| - 1][..n] == pieces[..n];
      PieceKept(k, pieces[..|pieces| - 1], n, at);
    }
  }

  /** Every document of every source is met. */
  lemma {:induction false} SourceMet(sources: seq<Source>, i: nat, j: nat) returns (n: nat)
    requires i < |sources| && j < |PiecesOf(sources[i])|
    ensures n < |Pieces(sources)| && Pieces(sources)[n] == PiecesOf(sources[i])[j]
  {
    var last := |sources| - 1;
    var before, own := Pieces(sources[..last]), PiecesOf(sources[last]);
    assert Pieces(sources) == before + own;
    if i == last {
      n := |before| + j;
      assert (before + own)[n] == own[j];
    } else {
      n := SourceMet(sources[..last], i, j);
      assert (before + own)[n] == before[n];
    }
  }

  lemma AllErrorsHold(k: Checkers, g: RegistrySpecs.Grammars, builtins: seq<Builtin>, sources: seq<Source>,
                      at: Location)
    requires Points(PiecesErrors(k, Pieces(sources)), at)
    ensures exists d :: d in AllErrors(k, g, builtins, sources) && d.at == at
  {
    var c := Collection(Pieces(sources));
    PointsInSum(PiecesErrors(k, Pieces(sources)), ReferenceDiagnostics(c), at);
    PointsInSum(PiecesErrors(k, Pieces(sources)) + ReferenceDiagnostics(c), RegistryErrors(g, builtins, c), at);
    var all := AllErrors(k, g, builtins, sources);
    var i :| 0 <= i < |all| && all[i].at == at;
    assert all[i] in all;
  }

  /** For every schema error of every document the report holds a diagnostic at
      its place, generic or specific. */
  lemma NoSchemaErrorLost(k: Checkers, g: RegistrySpecs.Grammars, builtins: seq<Builtin>, sources: seq<Source>,
                          i: nat, j: nat, pointer: string)
    requires i < |sources| && sources[i].documents.Some? && j < |sources[i].documents.value|
    requires pointer in k.schema(sources[i].documents.value[j])
    ensures exists d :: d in AllErrors(k, g, builtins, sources)
                        && d.at == Location(BaseAt(sources[i].path, j), ErrorPath(pointer))
  {
    var n := SourceMet(sources, i, j);
    var e := Entry(BaseAt(sources[i].path, j), sources[i].documents.value[j]);
    SchemaErrorKept(k, Firsts(Pieces(sources)[..n]), e, pointer);
    PieceKept(k, Pieces(sources), n, Location(e.base, ErrorPath(pointer)));
    AllErrorsHold(k, g, builtins, sources, Location(e.base, ErrorPath(pointer)));
  }

  /** A candidate without errors parses, and every document fits the schema. */
  lemma ErrorFreeFitsSchema(k: Checkers, g: RegistrySpecs.Grammars, builtins: seq<Builtin>, sources: seq<Source>,
                            i: nat)
    requires AllErrors(k, g, builtins, sources) == [] && i < |sources|
    ensures sources[i].documents.Some?
    ensures forall document :: document in sources[i].documents.value ==> k.schema(document) == []
  {
    if sources[i].documents.None? {
      var n := SourceMet(sources, i, 0);
      var at := Location(sources[i].path, []);
      assert PieceErrors(k, Firsts(Pieces(sources)[..n]), Pieces(sources)[n])[0].at == at;
      PieceKept(k, Pieces(sources), n, at);
      AllErrorsHold(k, g, builtins, sources, at);
    } else {
      forall document | document in sources[i].documents.value ensures k.schema(document) == [] {
        var j :| 0 <= j < |sources[i].documents.value| && sources[i].documents.value[j] == document;
        if k.schema(document) != [] {
          NoSchemaErrorLost(k, g, builtins, sources, i, j, k.schema(document)[0]);
        }
      }
    }
  }
}
