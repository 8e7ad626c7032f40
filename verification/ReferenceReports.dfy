/** Whose diagnostic is whose in the report of the reference validator: every
    document has a base of its own. */
module ReferenceReports {
  import opened Wrappers
  import opened Diagnostics
  import opened Documents
  import opened Graph
  import opened Permutations
  import opened Sequences
  import opened References
  import opened ReferenceRules

  // ------------------------------------------- the report, entry by entry

  /** What entry `i` adds to the report in the two passes. */
  ghost function ReportOf(c: seq<Entry>, i: nat): seq<Diagnostic>
    requires i < |c|
  {
    DuplicateOf(DeclareAll(c[..i]), c[i]) + BindingDiagnostics(DeclareAll(c), c[i])
  }

  predicate DuplicatedAt(c: seq<Entry>, i: int, d: Diagnostic) {
    0 <= i < |c| && d in DuplicateOf(DeclareAll(c[..i]), c[i])
  }

  lemma DuplicatedBefore(c: seq<Entry>, i: int, d: Diagnostic)
    requires c != [] && i < |c| - 1
    ensures DuplicatedAt(c, i, d) <==> DuplicatedAt(c[..|c| - 1], i, d)
  {
    assert 0 <= i ==> c[..|c| - 1][..i] == c[..i];
  }

  lemma {:induction false} DuplicateFound(c: seq<Entry>, d: Diagnostic) returns (i: nat)
    requires d in Duplicates(c)
    ensures DuplicatedAt(c, i, d)
  {
    if d in Duplicates(c[..|c| - 1]) {
      i := DuplicateFound(c[..|c| - 1], d);
      DuplicatedBefore(c, i, d);
    } else {
      i := |c| - 1;
    }
  }

  lemma {:induction false} DuplicateListed(c: seq<Entry>, i: nat, d: Diagnostic)
    requires DuplicatedAt(c, i, d)
    ensures d in Duplicates(c)
  {
    if i < |c| - 1 {
      DuplicatedBefore(c, i, d);
      DuplicateListed(c[..|c| - 1], i, d);
    }
  }

  lemma ReportedBySome(c: seq<Entry>, d: Diagnostic)
    ensures d in ReferenceDiagnostics(c) <==> exists i :: 0 <= i < |c| && d in ReportOf(c, i)
  {
    var parts := PerEntry(DeclareAll(c), c);
    InConcat(parts, d);
    forall i | 0 <= i < |c| ensures parts[i] == BindingDiagnostics(DeclareAll(c), c[i]) {
      PerEntryAt(DeclareAll(c), c, i);
    }
    if d in Duplicates(c) {
      var i := DuplicateFound(c, d);
      assert d in ReportOf(c, i);
    } else if d in Concat(parts) {
      var i :| 0 <= i < |parts| && d in parts[i];
      assert d in ReportOf(c, i);
    } else {
      forall i: nat | i < |c| ensures d !in ReportOf(c, i) {
        if DuplicatedAt(c, i, d) { DuplicateListed(c, i, d); }
      }
    }
  }

  /** An entry reports at its own base, and cycles and unresolved names only in the
      second pass. */
  lemma ReportsAtBase(c: seq<Entry>, i: nat, d: Diagnostic)
    requires i < |c| && d in ReportOf(c, i)
    ensures d.at.base == c[i].base
    ensures d in DuplicateOf(DeclareAll(c[..i]), c[i]) <==> d.code.DuplicateName?
  {
    if d in BindingDiagnostics(DeclareAll(c), c[i]) { BindsAtBase(DeclareAll(c), c[i], d); }
  }

  lemma BindsAtBase(n: Names, e: Entry, d: Diagnostic)
    requires d in BindingDiagnostics(n, e)
    ensures d.at.base == e.base && !d.code.DuplicateName?
  {
    match RoleOf(e.document) {
      case Machine =>
        UnresolvedAtBase(e, "profiles", SpecItems(e.document, "profiles"), n.profiles.Keys, "profile", d);
        UnresolvedAtBase(e, "projects", SpecItems(e.document, "projects"), n.projects, "project", d);
      case _ => ParentsAtBase(e, OwnName(e), SpecItems(e.document, "extends"), n.profiles, d);
    }
  }

  lemma {:induction false} UnresolvedAtBase(e: Entry, field: string, items: seq<Item>, known: set<string>,
                                            noun: string, d: Diagnostic)
    ensures d in Unresolved(e, field, items, known, noun) ==> d.at.base == e.base && d.code.UnresolvedReference?
  {
    if items != [] { UnresolvedAtBase(e, field, items[..|items| - 1], known, noun, d); }
  }

  lemma {:induction false} ParentsAtBase(e: Entry, own: string, parents: seq<Item>,
                                         profiles: map<string, seq<string>>, d: Diagnostic)
    ensures d in ParentDiagnostics(e, own, parents, profiles) ==> d.at.base == e.base && !d.code.DuplicateName?
  {
    if parents != [] { ParentsAtBase(e, own, parents[..|parents| - 1], profiles, d); }
  }

  /** With bases of their own, what is reported at an entry's base is the entry's. */
  lemma ReportedByOwn(c: seq<Entry>, i: nat, d: Diagnostic)
    requires UniqueBy(BaseOf, c) && i < |c| && d.at.base == c[i].base
    ensures d in ReferenceDiagnostics(c) <==> d in ReportOf(c, i)
  {
    ReportedBySome(c, d);
    if d in ReferenceDiagnostics(c) {
      var j :| 0 <= j < |c| && d in ReportOf(c, j);
      ReportsAtBase(c, j, d);
      OneWithKey(BaseOf, c, i, j);
    }
  }

  /** With unique names, an `extends` item is reported as a cycle iff it lies on
      one: the profile it names leads back to the profile it is in. */
  lemma CycleReportedIff(c: seq<Entry>, i: nat, x: Item)
    requires UniqueBy(BaseOf, c) && Named(c) && NamesUnique(c) && i < |c| && RoleOf(c[i].document).Profile?
    requires x in SpecItems(c[i].document, "extends")
    ensures CycleReport(c[i], x) in ReferenceDiagnostics(c) <==> Reaches(ExtendsIn(c), x.text, OwnName(c[i]))
  {
    var d := CycleReport(c[i], x);
    ReportedByOwn(c, i, d);
    if d in ReportOf(c, i) { ReportsAtBase(c, i, d); }
    CycleAmongOwnIff(c, i, x);
  }

  // ------------------------------------------ what a duplicate name quotes

  /** Entry `p` is the last to declare the name. */
  predicate LastDeclared(c: seq<Entry>, p: int, role: Role, name: string) {
    DeclaredAt(c, p, role, name) && forall j :: p < j < |c| ==> !DeclaredAt(c, j, role, name)
  }

  lemma StillLast(c: seq<Entry>, p: int, role: Role, name: string)
    requires c != [] && LastDeclared(c[..|c| - 1], p, role, name) && Declares(c[|c| - 1]) != Some((role, name))
    ensures LastDeclared(c, p, role, name)
  {
    forall j | p < j < |c| ensures !DeclaredAt(c, j, role, name) {
      assert j < |c| - 1 ==> !DeclaredAt(c[..|c| - 1], j, role, name);
    }
  }

  lemma SeenOneMore(n: Names, e: Entry, role: Role, name: string)
    ensures var seen := Declare(n, e).seen;
      if Declares(e) == Some((role, name)) then (role, name) in seen && seen[(role, name)] == e.base
      else
        && ((role, name) in seen <==> (role, name) in n.seen)
        && ((role, name) in seen ==> seen[(role, name)] == n.seen[(role, name)])
  {
  }

  /** The base on record for a name is its last declaration's. */
  lemma {:induction false} SeenIsLast(c: seq<Entry>, role: Role, name: string) returns (p: nat)
    requires (role, name) in DeclareAll(c).seen
    ensures LastDeclared(c, p, role, name) && DeclareAll(c).seen[(role, name)] == c[p].base
  {
    var before, last := c[..|c| - 1], |c| - 1;
    SeenOneMore(DeclareAll(before), c[last], role, name);
    if Declares(c[last]) == Some((role, name)) {
      p := last;
    } else {
      p := SeenIsLast(before, role, name);
      StillLast(c, p, role, name);
    }
  }

  /** `first` is where the name is declared for the first time. */
  predicate FirstDeclared(c: seq<Entry>, first: nat, role: Role, name: string) {
    DeclaredAt(c, first, role, name) && forall j :: 0 <= j < first ==> !DeclaredAt(c, j, role, name)
  }

  /** The base on record after some entries is the first declaration's iff no
      later one among them declares the name. */
  lemma FirstKeptIff(c: seq<Entry>, first: nat, k: nat, role: Role, name: string)
    requires UniqueBy(BaseOf, c) && first < k <= |c| && FirstDeclared(c, first, role, name)
    ensures (role, name) in DeclareAll(c[..k]).seen
    ensures DeclareAll(c[..k]).seen[(role, name)] == c[first].base <==>
      forall j :: first < j < k ==> !DeclaredAt(c, j, role, name)
  {
    var before := c[..k];
    assert forall j :: 0 <= j < k ==> (DeclaredAt(before, j, role, name) <==> DeclaredAt(c, j, role, name));
    Collected(before);
    assert DeclaredAt(before, first, role, name);
    var p := SeenIsLast(before, role, name);
    assert DeclaredAt(c, p, role, name);
    if c[p].base == c[first].base { OneWithKey(BaseOf, c, p, first); }
  }

  /** The report that entry `e` declares a name again, first declared at `quoted`. */
  function DuplicateReport(e: Entry, name: string, quoted: string): Diagnostic {
    Diagnostic(DuplicateName, Location(e.base, [Key("metadata"), Key("name")]), [KindOf(e.document), name, quoted])
  }

  /** A repeated name is reported where it is repeated; the report says where the
      name was first declared iff it is declared only once in between, that is,
      iff this is the second declaration. */
  lemma FirstDeclaredIff(c: seq<Entry>, first: nat, k: nat, role: Role, name: string)
    requires UniqueBy(BaseOf, c) && first < k < |c| && FirstDeclared(c, first, role, name)
      && DeclaredAt(c, k, role, name)
    ensures var seen := DeclareAll(c[..k]).seen;
      (role, name) in seen && DuplicateReport(c[k], name, seen[(role, name)]) in ReferenceDiagnostics(c)
    ensures DuplicateReport(c[k], name, c[first].base) in ReferenceDiagnostics(c)
       <==> forall j :: first < j < k ==> !DeclaredAt(c, j, role, name)
  {
    FirstKeptIff(c, first, k, role, name);
    var made := DuplicateReport(c[k], name, DeclareAll(c[..k]).seen[(role, name)]);
    var wanted := DuplicateReport(c[k], name, c[first].base);
    assert DuplicateOf(DeclareAll(c[..k]), c[k]) == [made];
    ReportedByOwn(c, k, made);
    ReportedByOwn(c, k, wanted);
    if wanted in ReportOf(c, k) { ReportsAtBase(c, k, wanted); }
    assert made == wanted <==> made.detail[2] == wanted.detail[2];
  }

  /** Three declarations of one name: the third quotes the second. */
  lemma ThirdQuotesSecond(a: Entry, b: Entry, third: Entry, role: Role, name: string)
    requires Declares(a) == Declares(b) == Declares(third) == Some((role, name))
    requires a.base != b.base && a.base != third.base && b.base != third.base
    ensures var report := ReferenceDiagnostics([a, b, third]);
      DuplicateReport(third, name, b.base) in report && DuplicateReport(third, name, a.base) !in report
  {
    var c := [a, b, third];
    assert forall j :: 0 <= j < 3 ==> DeclaredAt(c, j, role, name);
    assert c[..2] == [a, b] && [a, b][..1] == [a];
    FirstDeclaredIff(c, 0, 2, role, name);
    assert DeclareAll([a, b]).seen[(role, name)] == b.base;
    assert DeclaredAt(c, 1, role, name);
  }
}
