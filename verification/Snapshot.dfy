/** Parsing a candidate into a snapshot that does not depend on file order. */
module Snapshot {
  import opened Wrappers
  import opened Text
  import opened JsonValues
  import opened Diagnostics
  import opened Documents
  import opened Permutations
  import opened Sequences
  import opened StableSort
  import opened DocumentChecks
  import opened Registry
  import opened Validation

  datatype Resource = Resource(kind: string, id: string, name: string, spec: Json, path: string)

  /** A parsed document and the file it is in. */
  datatype Record = Record(path: string, document: Json)

  function ResourceOf(r: Record): Resource {
    var spec := match Get(r.document, "spec") case Some(spec) => spec case None => Null;
    Resource(KindOf(r.document), TextOf(Get2(r.document, "metadata", "id")),
      TextOf(Get2(r.document, "metadata", "name")), spec, r.path)
  }

  function RecordsOf(s: Source): seq<Record> {
    match s.documents
    case None => []
    case Some(documents) => seq(|documents|, i requires 0 <= i < |documents| => Record(s.path, documents[i]))
  }

  function Records(sources: seq<Source>): seq<Record> {
    if sources == [] then [] else Records(sources[..|sources| - 1]) + RecordsOf(sources[|sources| - 1])
  }

  function Maker(): Record -> Resource {
    (r: Record) => ResourceOf(r)
  }

  function Resources(sources: seq<Source>): seq<Resource> {
    Mapped(Maker(), Records(sources))
  }

  // --------------------------------------------------------------- sorting

  /** By kind, then by identity. */
  predicate Before(a: Resource, b: Resource) {
    if a.kind == b.kind then StrLe(a.id, b.id) else StrLe(a.kind, b.kind)
  }

  function SortResources(rs: seq<Resource>): seq<Resource> {
    Sorted(Before, rs)
  }

  lemma BeforeTotal(a: Resource, b: Resource)
    ensures Before(a, b) || Before(b, a)
  {
    StrLeTotal(a.kind, b.kind);
    StrLeTotal(a.id, b.id);
  }

  lemma BeforeTransitive(a: Resource, b: Resource, c: Resource)
    requires Before(a, b) && Before(b, c)
    ensures Before(a, c)
  {
    if a.kind == b.kind == c.kind {
      StrLeTransitive(a.id, b.id, c.id);
    } else if a.kind == c.kind {
      StrLeAntisymmetric(a.kind, b.kind);
    } else if a.kind != b.kind && b.kind != c.kind {
      StrLeTransitive(a.kind, b.kind, c.kind);
    }
  }

  lemma BeforeAntisymmetric(a: Resource, b: Resource)
    requires Before(a, b) && Before(b, a)
    ensures a.kind == b.kind && a.id == b.id
  {
    if a.kind == b.kind { StrLeAntisymmetric(a.id, b.id); } else { StrLeAntisymmetric(a.kind, b.kind); }
  }

  lemma BeforeOrders()
    ensures TotalPreorder(Before)
  {
    forall a, b ensures Before(a, b) || Before(b, a) {
      BeforeTotal(a, b);
    }
    forall a, b, c | Before(a, b) && Before(b, c) ensures Before(a, c) {
      BeforeTransitive(a, b, c);
    }
  }

  lemma SortSorts(rs: seq<Resource>)
    ensures Ascending(Before, SortResources(rs)) && Permuted(SortResources(rs), rs)
  {
    BeforeOrders();
    SortedPermutes(Before, rs);
  }

  // ------------------------------------------------------------- the parser

  /** A candidate with any error yields no resources. */
  method ParseResources(k: Checkers, g: RegistrySpecs.Grammars, builtins: seq<Builtin>, sources: seq<Source>)
    returns (result: Result<seq<Resource>, set<Diagnostic>>)
    ensures result.Ok? <==> AllErrors(k, g, builtins, sources) == []
    ensures result.Ok? ==> result.value == SortResources(Resources(sources))
    ensures result.Ok? ==> forall i, j :: 0 <= i < j < |result.value| ==>
      && StrLe(result.value[i].kind, result.value[j].kind)
      && (result.value[i].kind == result.value[j].kind ==> StrLe(result.value[i].id, result.value[j].id))
    ensures result.Err? ==> result.error == Elements(AllErrors(k, g, builtins, sources))
  {
    var report := ValidateSources(k, g, sources, Context(builtins, map[]));
    EmptyElements(AllErrors(k, g, builtins, sources));
    if report.errors != {} {
      return Err(report.errors);
    }
    var resources := ReadSources(sources);
    resources := SortBy(Before, resources);
    KindsThenIds(Resources(sources));
    return Ok(resources);
  }

  lemma KindsThenIds(rs: seq<Resource>)
    ensures var sorted := SortResources(rs);
      forall i, j :: 0 <= i < j < |sorted| ==>
        StrLe(sorted[i].kind, sorted[j].kind) && (sorted[i].kind == sorted[j].kind ==> StrLe(sorted[i].id, sorted[j].id))
  {
    SortSorts(rs);
    forall a, b: Resource | Before(a, b) ensures StrLe(a.kind, b.kind) && (a.kind == b.kind ==> StrLe(a.id, b.id)) {
      StrLeTotal(a.kind, a.kind);
    }
  }

  method ReadSources(sources: seq<Source>) returns (resources: seq<Resource>)
    ensures resources == Resources(sources)
  {
    resources := [];
    for i := 0 to |sources|
      invariant resources == Mapped(Maker(), Records(sources[..i]))
    {
      assert sources[..i + 1][..i] == sources[..i];
      var own := ReadSource(sources[i]);
      MappedSum(Maker(), Records(sources[..i]), RecordsOf(sources[i]));
      resources := resources + own;
    }
    assert sources[..|sources|] == sources;
  }

  method ReadSource(source: Source) returns (own: seq<Resource>)
    ensures own == Mapped(Maker(), RecordsOf(source))
  {
    own := [];
    if source.documents.Some? {
      var documents := source.documents.value;
      for j := 0 to |documents|
        invariant |own| == j && forall n :: 0 <= n < j ==> own[n] == Maker()(RecordsOf(source)[n])
      {
        own := own + [ResourceOf(Record(source.path, documents[j]))];
      }
    }
  }

  lemma EmptyElements<T>(s: seq<T>)
    ensures Elements(s) == {} <==> s == []
  {
    if s != [] { assert s[0] in Elements(s); }
  }
}
