/** Reference validation is exact: what an empty report means, and which
    `extends` items are called cycles. */
module ReferenceRules {
  import opened Wrappers
  import opened JsonValues
  import opened Diagnostics
  import opened Documents
  import opened Graph
  import opened Sequences
  import opened References

  /** Entry `i` declares `name` in `role`. */
  predicate DeclaredAt(c: seq<Entry>, i: int, role: Role, name: string) {
    0 <= i < |c| && Declares(c[i]) == Some((role, name))
  }

  ghost predicate Known(c: seq<Entry>, role: Role, name: string) {
    exists i :: DeclaredAt(c, i, role, name)
  }

  /** Every bindable entry has a name (the schema requires one). */
  predicate Named(c: seq<Entry>) {
    forall e :: e in c && !RoleOf(e.document).Unbound? ==> NameOf(e.document).Some?
  }

  ghost predicate NamesUnique(c: seq<Entry>) {
    forall i, j, role, name :: DeclaredAt(c, i, role, name) && DeclaredAt(c, j, role, name) ==> i == j
  }

  /** Every binding and every `extends` item names a declared resource. */
  ghost predicate Resolved(c: seq<Entry>) {
    forall e :: e in c ==>
      && (RoleOf(e.document).Machine? ==>
            && (forall x :: x in SpecItems(e.document, "profiles") ==> Known(c, Profile, x.text))
            && (forall x :: x in SpecItems(e.document, "projects") ==> Known(c, Project, x.text)))
      && (RoleOf(e.document).Profile? ==>
            forall x :: x in SpecItems(e.document, "extends") ==> Known(c, Profile, x.text))
  }

  /** Some rank falls along every `extends` item. */
  ghost predicate Ranked(c: seq<Entry>, rank: string -> nat) {
    forall e, x :: e in c && RoleOf(e.document).Profile? && x in SpecItems(e.document, "extends") ==>
      rank(x.text) < rank(OwnName(e))
  }

  /** `a` extends `b` in the collection. */
  ghost function ExtendsIn(c: seq<Entry>): (string, string) -> bool {
    (a: string, b: string) => exists i :: DeclaredAt(c, i, Profile, a) && b in Parents(c[i].document)
  }

  // ------------------------------------------------- what pass 1 collects

  lemma {:induction false} Collected(c: seq<Entry>)
    ensures forall role, name :: (role, name) in DeclareAll(c).seen <==> Known(c, role, name)
    ensures forall name :: name in DeclareAll(c).profiles <==> Known(c, Profile, name)
    ensures forall name :: name in DeclareAll(c).projects <==> Known(c, Project, name)
  {
    if c != [] {
      var last := |c| - 1;
      var before := c[..last];
      Collected(before);
      forall role, name ensures Known(c, role, name) <==>
        Known(before, role, name) || Declares(c[last]) == Some((role, name)) {
        KnownOneMore(c, role, name);
      }
    }
  }

  lemma KnownOneMore(c: seq<Entry>, role: Role, name: string)
    requires c != []
    ensures Known(c, role, name) <==> Known(c[..|c| - 1], role, name) || Declares(c[|c| - 1]) == Some((role, name))
  {
    if Known(c, role, name) {
      var i :| DeclaredAt(c, i, role, name);
      assert i < |c| - 1 ==> DeclaredAt(c[..|c| - 1], i, role, name);
    }
    if Known(c[..|c| - 1], role, name) {
      var i :| DeclaredAt(c[..|c| - 1], i, role, name);
      assert DeclaredAt(c, i, role, name);
    }
    if Declares(c[|c| - 1]) == Some((role, name)) {
      assert DeclaredAt(c, |c| - 1, role, name);
    }
  }

  lemma {:induction false} NoDuplicates(c: seq<Entry>)
    ensures Duplicates(c) == [] <==> NamesUnique(c)
  {
    if c != [] {
      var before := c[..|c| - 1];
      NoDuplicates(before);
      Collected(before);
      UniqueOneMore(c);
      assert DuplicateOf(DeclareAll(before), c[|c| - 1]) == [] <==>
        (Declares(c[|c| - 1]).Some? ==> !Known(before, Declares(c[|c| - 1]).value.0, Declares(c[|c| - 1]).value.1));
    }
  }

  lemma UniqueOneMore(c: seq<Entry>)
    requires c != []
    ensures var before, d := c[..|c| - 1], Declares(c[|c| - 1]);
      NamesUnique(c) <==> NamesUnique(before) && (d.Some? ==> !Known(before, d.value.0, d.value.1))
  {
    var last, before := |c| - 1, c[..|c| - 1];
    assert forall i, role, name :: DeclaredAt(before, i, role, name) <==> DeclaredAt(c, i, role, name) && i < last;
    if NamesUnique(c) && Declares(c[last]).Some? {
      assert DeclaredAt(c, last, Declares(c[last]).value.0, Declares(c[last]).value.1);
    }
  }

  /** With unique names the map of profiles is the collection's own edges. */
  lemma {:induction false} ProfileEdges(c: seq<Entry>, i: nat, name: string)
    requires NamesUnique(c) && DeclaredAt(c, i, Profile, name)
    ensures name in DeclareAll(c).profiles && DeclareAll(c).profiles[name] == Parents(c[i].document)
  {
    var last := |c| - 1;
    var before := c[..last];
    Collected(before);
    assert forall k, role, n :: DeclaredAt(before, k, role, n) ==> DeclaredAt(c, k, role, n);
    if i < last {
      assert DeclaredAt(before, i, Profile, name);
      ProfileEdges(before, i, name);
      assert !DeclaredAt(c, last, Profile, name);
      DeclareKeeps(DeclareAll(before), c[last], name);
    } else {
      assert !Known(before, Profile, name);
    }
  }

  lemma DeclareKeeps(n: Names, e: Entry, name: string)
    requires Declares(e) != Some((Profile, name)) && name in n.profiles
    ensures name in Declare(n, e).profiles && Declare(n, e).profiles[name] == n.profiles[name]
  {
  }

  /** ... so `extends` edges are the same in both. */
  lemma SameEdges(c: seq<Entry>)
    requires NamesUnique(c)
    ensures forall a, b :: Extends(DeclareAll(c).profiles)(a, b) <==> ExtendsIn(c)(a, b)
  {
    var profiles := DeclareAll(c).profiles;
    Collected(c);
    forall a, b ensures Extends(profiles)(a, b) <==> ExtendsIn(c)(a, b) {
      forall i | DeclaredAt(c, i, Profile, a) ensures a in profiles && profiles[a] == Parents(c[i].document) {
        ProfileEdges(c, i, a);
      }
    }
  }

  // --------------------------------------------------- what pass 2 reports

  lemma {:induction false} UnresolvedEmpty(e: Entry, field: string, items: seq<Item>, known: set<string>, noun: string)
    ensures Unresolved(e, field, items, known, noun) == [] <==> forall x :: x in items ==> x.text in known
  {
    if items != [] {
      var last := |items| - 1;
      UnresolvedEmpty(e, field, items[..last], known, noun);
      assert items == items[..last] + [items[last]];
    }
  }

  /** An `extends` item that resolves and does not lead back to its owner. */
  ghost predicate GoodParent(own: string, parent: string, profiles: map<string, seq<string>>) {
    parent in profiles && !Reaches(Extends(profiles), parent, own)
  }

  lemma ParentEmpty(e: Entry, own: string, parent: Item, profiles: map<string, seq<string>>)
    ensures ParentDiagnostic(e, own, parent, profiles) == [] <==> GoodParent(own, parent.text, profiles)
  {
  }

  lemma {:induction false} ParentsEmpty(e: Entry, own: string, parents: seq<Item>, profiles: map<string, seq<string>>)
    ensures ParentDiagnostics(e, own, parents, profiles) == [] <==>
      forall x :: x in parents ==> GoodParent(own, x.text, profiles)
  {
    if parents != [] {
      var last := |parents| - 1;
      ParentsEmpty(e, own, parents[..last], profiles);
      ParentEmpty(e, own, parents[last], profiles);
      assert parents == parents[..last] + [parents[last]];
    }
  }

  /** No profile extends a profile that reaches it. */
  ghost predicate Acyclic(c: seq<Entry>, profiles: map<string, seq<string>>) {
    forall e, x :: e in c && RoleOf(e.document).Profile? && x in SpecItems(e.document, "extends") ==>
      !Reaches(Extends(profiles), x.text, OwnName(e))
  }

  lemma BindingsEmpty(c: seq<Entry>)
    ensures Concat(PerEntry(DeclareAll(c), c)) == [] <==> Resolved(c) && Acyclic(c, DeclareAll(c).profiles)
  {
    var n := DeclareAll(c);
    ConcatEmpty(PerEntry(n, c));
    forall i | 0 <= i < |c| ensures PerEntry(n, c)[i] == [] <==> EntryClean(c, c[i]) {
      PerEntryAt(n, c, i);
      EntryEmpty(c, c[i]);
    }
    AllClean(c);
  }

  lemma AllClean(c: seq<Entry>)
    ensures (forall i :: 0 <= i < |c| ==> EntryClean(c, c[i])) <==> Resolved(c) && Acyclic(c, DeclareAll(c).profiles)
  {
    if forall i :: 0 <= i < |c| ==> EntryClean(c, c[i]) {
      assert forall e :: e in c ==> EntryClean(c, e);
    }
    if Resolved(c) && Acyclic(c, DeclareAll(c).profiles) {
      forall i | 0 <= i < |c| ensures EntryClean(c, c[i]) {
        assert c[i] in c;
        Collected(c);
      }
    }
  }

  ghost predicate EntryClean(c: seq<Entry>, e: Entry) {
    match RoleOf(e.document)
    case Machine =>
      && (forall x :: x in SpecItems(e.document, "profiles") ==> Known(c, Profile, x.text))
      && (forall x :: x in SpecItems(e.document, "projects") ==> Known(c, Project, x.text))
    case Profile =>
      forall x :: x in SpecItems(e.document, "extends") ==>
        Known(c, Profile, x.text) && GoodParent(OwnName(e), x.text, DeclareAll(c).profiles)
    case _ => true
  }

  lemma EntryEmpty(c: seq<Entry>, e: Entry)
    ensures BindingDiagnostics(DeclareAll(c), e) == [] <==> EntryClean(c, e)
  {
    var n := DeclareAll(c);
    Collected(c);
    match RoleOf(e.document)
    case Machine =>
      UnresolvedEmpty(e, "profiles", SpecItems(e.document, "profiles"), n.profiles.Keys, "profile");
      UnresolvedEmpty(e, "projects", SpecItems(e.document, "projects"), n.projects, "project");
    case Profile => ParentsEmpty(e, OwnName(e), SpecItems(e.document, "extends"), n.profiles);
    case _ =>
  }

  // ---------------------------------------------------- cycles and ranks

  ghost function ReachSet(profiles: map<string, seq<string>>, a: string): set<string> {
    set b | b in profiles && Reaches(Extends(profiles), a, b)
  }

  lemma ProperSubsetIsSmaller<T>(a: set<T>, b: set<T>)
    requires a < b
    ensures |a| < |b|
  {
    assert b == a + (b - a) && b - a != {};
  }

  /** Without a cycle, the number of profiles a profile reaches ranks it. */
  lemma AcyclicRanks(c: seq<Entry>)
    requires Named(c) && NamesUnique(c) && Resolved(c) && Acyclic(c, DeclareAll(c).profiles)
    ensures Ranked(c, (name: string) => |ReachSet(DeclareAll(c).profiles, name)|)
  {
    var profiles := DeclareAll(c).profiles;
    Collected(c);
    forall e, x | e in c && RoleOf(e.document).Profile? && x in SpecItems(e.document, "extends")
      ensures |ReachSet(profiles, x.text)| < |ReachSet(profiles, OwnName(e))|
    {
      var own := OwnName(e);
      ItemIsEdge(c, e, x);
      ReachesItself(Extends(profiles), own);
      ReachesFurther(Extends(profiles), own, own, x.text);
      forall b | b in ReachSet(profiles, x.text) ensures b in ReachSet(profiles, own) {
        ReachesTransitive(Extends(profiles), own, x.text, b);
      }
      assert own in ReachSet(profiles, own) && own !in ReachSet(profiles, x.text);
      ProperSubsetIsSmaller(ReachSet(profiles, x.text), ReachSet(profiles, own));
    }
  }

  lemma ItemIsEdge(c: seq<Entry>, e: Entry, x: Item)
    requires Named(c) && NamesUnique(c) && e in c && RoleOf(e.document).Profile?
      && x in SpecItems(e.document, "extends")
    ensures Extends(DeclareAll(c).profiles)(OwnName(e), x.text)
  {
    var i :| 0 <= i < |c| && c[i] == e;
    var k :| 0 <= k < |SpecItems(e.document, "extends")| && SpecItems(e.document, "extends")[k] == x;
    ProfileEdges(c, i, OwnName(e));
    assert Parents(e.document)[k] == x.text;
  }

  lemma RankedIsAcyclic(c: seq<Entry>, rank: string -> nat)
    requires Named(c) && NamesUnique(c) && Ranked(c, rank)
    ensures Acyclic(c, DeclareAll(c).profiles)
  {
    var profiles := DeclareAll(c).profiles;
    SameEdges(c);
    forall e, x | e in c && RoleOf(e.document).Profile? && x in SpecItems(e.document, "extends")
      ensures !Reaches(Extends(profiles), x.text, OwnName(e))
    {
      if Reaches(Extends(profiles), x.text, OwnName(e)) {
        ghost var below := (n: string) => rank(n) <= rank(x.text);
        forall a, b | below(a) && Extends(profiles)(a, b) ensures below(b) {
          EdgeFalls(c, rank, a, b);
        }
        ReachedStaysInside(Extends(profiles), below, x.text, OwnName(e));
        assert false;
      }
    }
  }

  lemma EdgeFalls(c: seq<Entry>, rank: string -> nat, a: string, b: string)
    requires Ranked(c, rank) && ExtendsIn(c)(a, b)
    ensures rank(b) < rank(a)
  {
    var i :| DeclaredAt(c, i, Profile, a) && b in Parents(c[i].document);
    var items := SpecItems(c[i].document, "extends");
    var k :| 0 <= k < |items| && Texts(items)[k] == b;
    assert items[k] in items && OwnName(c[i]) == a;
  }

  // --------------------------------------------------------- main results

  /** Reference validation reports nothing iff names are unique within a
      bindable kind, everything resolves, and `extends` can be ranked. */
  lemma ReportsNothingIff(c: seq<Entry>)
    requires Named(c)
    ensures ReferenceDiagnostics(c) == [] <==> NamesUnique(c) && Resolved(c) && exists rank :: Ranked(c, rank)
  {
    NoDuplicates(c);
    BindingsEmpty(c);
    if NamesUnique(c) && Resolved(c) {
      if Acyclic(c, DeclareAll(c).profiles) {
        AcyclicRanks(c);
      }
      if exists rank :: Ranked(c, rank) {
        var rank :| Ranked(c, rank);
        RankedIsAcyclic(c, rank);
      }
    }
  }

  ghost function CycleReport(e: Entry, x: Item): Diagnostic {
    Diagnostic(ProfileCycle, SpecLocation(e, "extends", x.index), [OwnName(e), x.text])
  }

  /** With unique names, an `extends` item is a cycle to its own document iff it
      lies on one: the profile it names leads back to the profile it is in. */
  lemma CycleAmongOwnIff(c: seq<Entry>, i: nat, x: Item)
    requires Named(c) && NamesUnique(c) && i < |c| && RoleOf(c[i].document).Profile?
    requires x in SpecItems(c[i].document, "extends")
    ensures CycleReport(c[i], x) in BindingDiagnostics(DeclareAll(c), c[i])
       <==> Reaches(ExtendsIn(c), x.text, OwnName(c[i]))
  {
    var e, profiles := c[i], DeclareAll(c).profiles;
    OnCycleIsKnown(c, i, x.text);
    var items := ProfileBindings(DeclareAll(c), e);
    ItemIndexUnique(e.document, "extends", x);
    CycleAmong(e, OwnName(e), items, profiles, x);
  }

  lemma ProfileBindings(n: Names, e: Entry) returns (items: seq<Item>)
    requires RoleOf(e.document).Profile?
    ensures items == SpecItems(e.document, "extends")
    ensures BindingDiagnostics(n, e) == ParentDiagnostics(e, OwnName(e), items, n.profiles)
  {
    items := SpecItems(e.document, "extends");
  }

  lemma ItemIndexUnique(document: Json, field: string, x: Item)
    requires x in SpecItems(document, field)
    ensures forall y :: y in SpecItems(document, field) && y.index == x.index ==> y == x
  {
  }

  lemma OnCycleIsKnown(c: seq<Entry>, i: nat, name: string)
    requires Named(c) && NamesUnique(c) && i < |c| && RoleOf(c[i].document).Profile?
    ensures Reaches(Extends(DeclareAll(c).profiles), name, OwnName(c[i])) <==>
      Reaches(ExtendsIn(c), name, OwnName(c[i]))
    ensures Reaches(ExtendsIn(c), name, OwnName(c[i])) ==> name in DeclareAll(c).profiles
  {
    var own, profiles := OwnName(c[i]), DeclareAll(c).profiles;
    SameEdges(c);
    SameReach(Extends(profiles), ExtendsIn(c), name, own);
    if Reaches(Extends(profiles), name, own) {
      ProfileEdges(c, i, own);
      ReachesByEdge(Extends(profiles), name, own);
    }
  }

  lemma {:induction false} CycleAmong(e: Entry, own: string, parents: seq<Item>, profiles: map<string, seq<string>>,
                                      x: Item)
    requires own == OwnName(e) && x in parents
    requires forall y :: y in parents && y.index == x.index ==> y == x
    requires Reaches(Extends(profiles), x.text, own) ==> x.text in profiles
    ensures CycleReport(e, x) in ParentDiagnostics(e, own, parents, profiles) <==>
      Reaches(Extends(profiles), x.text, own)
  {
    var last := |parents| - 1;
    assert parents == parents[..last] + [parents[last]];
    CycleFromItem(e, own, parents[last], profiles, x);
    if x in parents[..last] {
      CycleAmong(e, own, parents[..last], profiles, x);
    } else {
      NoForeignCycle(e, own, parents[..last], profiles, x);
    }
  }

  lemma CycleFromItem(e: Entry, own: string, y: Item, profiles: map<string, seq<string>>, x: Item)
    requires own == OwnName(e) && (y.index == x.index ==> y == x)
    requires Reaches(Extends(profiles), x.text, own) ==> x.text in profiles
    ensures CycleReport(e, x) in ParentDiagnostic(e, own, y, profiles) <==>
      y == x && Reaches(Extends(profiles), x.text, own)
  {
    assert CycleReport(e, x).at == SpecLocation(e, "extends", y.index) ==> y.index == x.index by {
      assert SpecLocation(e, "extends", x.index).path[2] == Index(x.index);
      assert SpecLocation(e, "extends", y.index).path[2] == Index(y.index);
    }
  }

  lemma {:induction false} NoForeignCycle(e: Entry, own: string, parents: seq<Item>,
                                          profiles: map<string, seq<string>>, x: Item)
    requires own == OwnName(e) && x !in parents
    requires forall y :: y in parents && y.index == x.index ==> y == x
    requires Reaches(Extends(profiles), x.text, own) ==> x.text in profiles
    ensures CycleReport(e, x) !in ParentDiagnostics(e, own, parents, profiles)
  {
    if parents != [] {
      var last := |parents| - 1;
      assert parents == parents[..last] + [parents[last]];
      NoForeignCycle(e, own, parents[..last], profiles, x);
      CycleFromItem(e, own, parents[last], profiles, x);
    }
  }
}
