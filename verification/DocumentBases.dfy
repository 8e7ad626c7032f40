/** The base a diagnostic names a document by tells documents apart. */
module DocumentBases {
  import opened Numbers
  import opened Documents
  import opened Permutations
  import opened ApplyPlan
  import opened RegistrySpecs
  import opened Registry
  import opened RegistryRules
  import opened Validation
  import opened SnapshotOrder

  /** What follows the last hash is found again. */
  lemma AfterHash(path: string, tag: string, number: string, other: string, number2: string)
    requires '#' !in tag && '#' !in number && '#' !in number2
    requires path + (['#'] + tag) + number == other + (['#'] + tag) + number2
    ensures path == other && number == number2
  {
    assert path + (['#'] + tag) + number == path + ['#'] + (tag + number);
    assert other + (['#'] + tag) + number2 == other + ['#'] + (tag + number2);
    SplitLastAt(path, '#', tag + number);
    SplitLastAt(other, '#', tag + number2);
    assert (tag + number)[|tag|..] == number && (tag + number2)[|tag|..] == number2;
  }

  lemma NoHash(n: nat)
    ensures '#' !in Decimal(n)
  {
    assert forall c :: c in Decimal(n) ==> IsDigit(c);
  }

  lemma BaseTellsDocument(path: string, i: nat, other: string, j: nat)
    requires BaseAt(path, i) == BaseAt(other, j)
    ensures path == other && i == j
  {
    assert "#document=" == ['#'] + "document=";
    NoHash(i + 1);
    NoHash(j + 1);
    AfterHash(path, "document=", Decimal(i + 1), other, Decimal(j + 1));
    DecimalValue(i + 1);
    DecimalValue(j + 1);
  }

  lemma {:induction false} OwnEntries(s: Source, n: nat)
    requires s.documents.Some? && n <= |s.documents.value|
    ensures |Collection(PiecesOf(s)[..n])| == n
    ensures forall j :: 0 <= j < n ==> Collection(PiecesOf(s)[..n])[j].base == BaseAt(s.path, j)
  {
    if n > 0 {
      OwnEntries(s, n - 1);
      var own := PiecesOf(s);
      assert own[..n][..n - 1] == own[..n - 1] && own[..n] == own[..n - 1] + [own[n - 1]];
    }
  }

  lemma SourceEntries(s: Source)
    ensures forall j :: 0 <= j < |Collection(PiecesOf(s))| ==> Collection(PiecesOf(s))[j].base == BaseAt(s.path, j)
  {
    if s.documents.Some? {
      OwnEntries(s, |s.documents.value|);
      assert PiecesOf(s)[..|s.documents.value|] == PiecesOf(s);
    } else {
      assert PiecesOf(s)[..0] == [];
    }
  }

  lemma {:induction false} EntryFrom(sources: seq<Source>, e: Entry) returns (i: nat, j: nat)
    requires e in Collection(Pieces(sources))
    ensures i < |sources| && e.base == BaseAt(sources[i].path, j)
  {
    var last := |sources| - 1;
    CollectionSum(Pieces(sources[..last]), PiecesOf(sources[last]));
    if e in Collection(Pieces(sources[..last])) {
      i, j := EntryFrom(sources[..last], e);
    } else {
      SourceEntries(sources[last]);
      i := last;
      j :| 0 <= j < |Collection(PiecesOf(sources[last]))| && Collection(PiecesOf(sources[last]))[j] == e;
    }
  }

  predicate PathsDistinct(sources: seq<Source>) {
    forall i, j :: 0 <= i < j < |sources| ==> sources[i].path != sources[j].path
  }

  /** In a candidate of distinct files every document has a base of its own. */
  lemma {:induction false} BasesUnique(sources: seq<Source>)
    requires PathsDistinct(sources)
    ensures UniqueBy(BaseOf, Collection(Pieces(sources)))
  {
    if sources != [] {
      var before, last := sources[..|sources| - 1], sources[|sources| - 1];
      BasesUnique(before);
      var a, b := Collection(Pieces(before)), Collection(PiecesOf(last));
      CollectionSum(Pieces(before), PiecesOf(last));
      SourceEntries(last);
      forall x, j | x in a && 0 <= j < |b| ensures x.base != b[j].base {
        var i, n := EntryFrom(before, x);
        if x.base == b[j].base { BaseTellsDocument(before[i].path, n, last.path, j); }
      }
      forall i, j | 0 <= i < j < |b| ensures b[i].base != b[j].base {
        if b[i].base == b[j].base { BaseTellsDocument(last.path, i, last.path, j); }
      }
      UniqueSum(a, b);
    }
  }

  lemma UniqueSum(a: seq<Entry>, b: seq<Entry>)
    requires UniqueBy(BaseOf, a) && (forall i, j :: 0 <= i < j < |b| ==> b[i].base != b[j].base)
    requires forall x, j :: x in a && 0 <= j < |b| ==> x.base != b[j].base
    ensures UniqueBy(BaseOf, a + b)
  {
    var all := a + b;
    forall i, j | 0 <= i < j < |all| ensures BaseOf(all[i]) != BaseOf(all[j]) {
      if j < |a| {
        assert BaseOf(a[i]) != BaseOf(a[j]);
      } else if i < |a| {
        assert a[i] in a && all[j] == b[j - |a|];
      } else {
        assert all[i] == b[i - |a|] && all[j] == b[j - |a|];
      }
    }
  }

  /** Among distinct files, the warning for a relation to a known type is given
      iff no entry of any file is what the relation names. */
  lemma DanglingAmongFilesIff(g: Grammars, ctx: Context, sources: seq<Source>, l: Located, n: nat, reference: string)
    requires PathsDistinct(sources)
    requires var c := Collection(Pieces(sources)); l in EnterAll(g, DefineAll(g, ctx.builtins, c).specs, c).list
    requires n < |l.entry.relations| && l.entry.relations[n].target == RegistryTarget(reference)
    requires ParseReference(reference).Some?
    requires ParseReference(reference).value.0 in DefineAll(g, ctx.builtins, Collection(Pieces(sources))).specs
    ensures var c := Collection(Pieces(sources));
      Dangling(RelationAt(l.base, n, "target")) in RegistryWarnings(g, ctx, c) <==>
        forall e :: e in c ==> !Denotes(g, DefineAll(g, ctx.builtins, c).specs, e, reference)
  {
    BasesUnique(sources);
    DanglingReportedIff(g, ctx, Collection(Pieces(sources)), l, n, reference);
  }
}
