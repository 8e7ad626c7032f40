/** What the report says of each name a document declares and of each name it binds
    to, by the documents' own kinds and names. */
module BindingReports {
  import opened Wrappers
  import opened JsonValues
  import opened Diagnostics
  import opened Documents
  import opened Graph
  import opened Permutations
  import opened Sequences
  import opened References
  import opened ReferenceRules
  import opened ReferenceReports
  import opened ReportFacts
  import opened DocumentReports

  /** The document is of this kind and has this name. */
  predicate Has(document: Json, kind: string, name: string) {
    AsStr(Get(document, "kind")) == Some(kind) && AsStr(Get2(document, "metadata", "name")) == Some(name)
  }

  predicate SomeHas(c: seq<Entry>, kind: string, name: string) {
    exists i :: 0 <= i < |c| && Has(c[i].document, kind, name)
  }

  lemma KindsApart()
    ensures "Machine" != "Profile" && "Machine" != "Project" && "Profile" != "Project"
  {
    assert "Machine"[0] == 'M' && "Profile"[0] == 'P' && "Project"[0] == 'P' && |"Profile"| == 7 && |"Project"| == 7;
    assert "Profile"[3] == 'f' && "Project"[3] == 'j';
  }

  lemma KindsNotEmpty()
    ensures "Machine" != "" && "Profile" != "" && "Project" != ""
  {
    assert |"Machine"| == 7 && |"Profile"| == 7 && |"Project"| == 7;
  }

  /** Three kinds declare names. */
  lemma DeclaresIff(e: Entry, name: string)
    ensures Declares(e) == Some((Role.Machine, name)) <==> Has(e.document, "Machine", name)
    ensures Declares(e) == Some((Profile, name)) <==> Has(e.document, "Profile", name)
    ensures Declares(e) == Some((Project, name)) <==> Has(e.document, "Project", name)
  {
    KindsApart();
    KindsNotEmpty();
  }

  lemma RolesByKind(document: Json)
    ensures RoleOf(document).Machine? <==> AsStr(Get(document, "kind")) == Some("Machine")
    ensures RoleOf(document).Profile? <==> AsStr(Get(document, "kind")) == Some("Profile")
    ensures RoleOf(document).Project? <==> AsStr(Get(document, "kind")) == Some("Project")
  {
    KindsApart();
    KindsNotEmpty();
  }

  lemma KnownIff(c: seq<Entry>, name: string)
    ensures Known(c, Profile, name) <==> SomeHas(c, "Profile", name)
    ensures Known(c, Project, name) <==> SomeHas(c, "Project", name)
  {
    forall i | 0 <= i < |c|
      ensures DeclaredAt(c, i, Profile, name) <==> Has(c[i].document, "Profile", name)
      ensures DeclaredAt(c, i, Project, name) <==> Has(c[i].document, "Project", name)
    {
      DeclaresIff(c[i], name);
    }
  }

  // ------------------------------------------------------------ item by item

  lemma {:induction false} UnresolvedReports(e: Entry, field: string, items: seq<Item>, known: set<string>,
                                             noun: string, i: nat)
    ensures Reports(Unresolved(e, field, items, known, noun), UnresolvedReference, SpecLocation(e, field, i)) <==>
      exists item :: item in items && item.index == i && item.text !in known
  {
    if items != [] {
      var before, last := items[..|items| - 1], items[|items| - 1];
      assert items == before + [last];
      UnresolvedReports(e, field, before, known, noun, i);
      UnresolvedLast(e, field, items, known, noun, i);
    }
  }

  lemma UnresolvedLast(e: Entry, field: string, items: seq<Item>, known: set<string>, noun: string, i: nat)
    requires items != []
    ensures var before, last := items[..|items| - 1], items[|items| - 1];
      Reports(Unresolved(e, field, items, known, noun), UnresolvedReference, SpecLocation(e, field, i)) <==>
        || Reports(Unresolved(e, field, before, known, noun), UnresolvedReference, SpecLocation(e, field, i))
        || (last.index == i && last.text !in known)
  {
    var before, last := items[..|items| - 1], items[|items| - 1];
    var at := SpecLocation(e, field, i);
    if last.text !in known {
      var own := Diagnostic(UnresolvedReference, SpecLocation(e, field, last.index), [noun, last.text]);
      ReportsSum(Unresolved(e, field, before, known, noun), [own], UnresolvedReference, at);
      ReportsOne(own, UnresolvedReference, at);
      assert own.at.path[2] == Index(last.index) && at.path[2] == Index(i);
    }
  }

  lemma {:induction false} ParentsReport(e: Entry, own: string, items: seq<Item>, profiles: map<string, seq<string>>,
                                         i: nat)
    ensures Reports(ParentDiagnostics(e, own, items, profiles), UnresolvedReference, SpecLocation(e, "extends", i)) <==>
      exists item :: item in items && item.index == i && item.text !in profiles
  {
    if items != [] {
      var before, last := items[..|items| - 1], items[|items| - 1];
      assert items == before + [last];
      ParentsReport(e, own, before, profiles, i);
      ParentLast(e, own, items, profiles, i);
    }
  }

  lemma ParentLast(e: Entry, own: string, items: seq<Item>, profiles: map<string, seq<string>>, i: nat)
    requires items != []
    ensures var before, last := items[..|items| - 1], items[|items| - 1];
      var at := SpecLocation(e, "extends", i);
      Reports(ParentDiagnostics(e, own, items, profiles), UnresolvedReference, at) <==>
        || Reports(ParentDiagnostics(e, own, before, profiles), UnresolvedReference, at)
        || (last.index == i && last.text !in profiles)
  {
    var before, last := items[..|items| - 1], items[|items| - 1];
    var at := SpecLocation(e, "extends", i);
    var made := ParentDiagnostic(e, own, last, profiles);
    ReportsSum(ParentDiagnostics(e, own, before, profiles), made, UnresolvedReference, at);
    if made != [] {
      assert made == [made[0]] && made[0].at.path[2] == Index(last.index) && at.path[2] == Index(i);
      ReportsOne(made[0], UnresolvedReference, at);
    }
  }

  /** Items are read where they stand. */
  lemma ItemAt(values: seq<Json>, i: nat, known: set<string>)
    ensures (exists item :: item in StringItems(values) && item.index == i && item.text !in known) <==>
      i < |values| && values[i].Str? && values[i].str !in known
  {
    var items := StringItems(values);
    if item :| item in items && item.index == i && item.text !in known {
      var n :| 0 <= n < |items| && items[n] == item;
      assert values[items[n].index] == Str(items[n].text);
    }
    if i < |values| && values[i].Str? && values[i].str !in known {
      assert Item(i, values[i].str) in items;
    }
  }

  // -------------------------------------------------------------- the report

  /** What is reported about bindings at a document's base is reported for it. */
  lemma BindingsReport(c: seq<Entry>, k: nat, code: Code, at: Location)
    requires UniqueBy(BaseOf, c) && k < |c| && at.base == c[k].base && code != DuplicateName
    ensures Reports(ReferenceDiagnostics(c), code, at) <==> Reports(BindingDiagnostics(DeclareAll(c), c[k]), code, at)
  {
    var own := BindingDiagnostics(DeclareAll(c), c[k]);
    forall d: Diagnostic | d.code == code && d.at == at ensures d in ReferenceDiagnostics(c) <==> d in own {
      ReportedByOwn(c, k, d);
      if d in ReportOf(c, k) { ReportsAtBase(c, k, d); }
    }
    SameReports(ReferenceDiagnostics(c), own, code, at);
  }

  lemma {:induction false} UnresolvedUnder(e: Entry, field: string, items: seq<Item>, known: set<string>, noun: string,
                                           at: Location)
    requires |at.path| > 1 && at.path[1] != Key(field)
    ensures !Reports(Unresolved(e, field, items, known, noun), UnresolvedReference, at)
  {
    if items != [] { UnresolvedUnder(e, field, items[..|items| - 1], known, noun, at); }
  }

  lemma FieldsApart()
    ensures Key("profiles") != Key("projects")
  {
    assert "profiles"[3] == 'f' && "projects"[3] == 'j';
  }

  lemma MachineBindings(n: Names, e: Entry, profiles: seq<Diagnostic>, projects: seq<Diagnostic>, at: Location)
    requires RoleOf(e.document).Machine? && |at.path| > 1
    requires profiles == Unresolved(e, "profiles", SpecItems(e.document, "profiles"), n.profiles.Keys, "profile")
    requires projects == Unresolved(e, "projects", SpecItems(e.document, "projects"), n.projects, "project")
    ensures at.path[1] == Key("profiles") ==>
      (Reports(BindingDiagnostics(n, e), UnresolvedReference, at) <==> Reports(profiles, UnresolvedReference, at))
    ensures at.path[1] == Key("projects") ==>
      (Reports(BindingDiagnostics(n, e), UnresolvedReference, at) <==> Reports(projects, UnresolvedReference, at))
  {
    ReportsSum(profiles, projects, UnresolvedReference, at);
    FieldsApart();
    if at.path[1] == Key("profiles") {
      UnresolvedUnder(e, "projects", SpecItems(e.document, "projects"), n.projects, "project", at);
    } else if at.path[1] == Key("projects") {
      UnresolvedUnder(e, "profiles", SpecItems(e.document, "profiles"), n.profiles.Keys, "profile", at);
    }
  }

  /** Profile `i` that a machine binds to is reported iff it is a name and no document
      is a profile of that name, and so for projects. */
  lemma MachineReportedIff(c: seq<Entry>, k: nat, i: nat)
    requires UniqueBy(BaseOf, c) && k < |c| && AsStr(Get(c[k].document, "kind")) == Some("Machine")
    ensures var profiles := AsArr(Get2(c[k].document, "spec", "profiles"));
      Reports(ReferenceDiagnostics(c), UnresolvedReference,
              Location(c[k].base, [Key("spec"), Key("profiles"), Index(i)])) <==>
        i < |profiles| && profiles[i].Str? && !SomeHas(c, "Profile", profiles[i].str)
    ensures var projects := AsArr(Get2(c[k].document, "spec", "projects"));
      Reports(ReferenceDiagnostics(c), UnresolvedReference,
              Location(c[k].base, [Key("spec"), Key("projects"), Index(i)])) <==>
        i < |projects| && projects[i].Str? && !SomeHas(c, "Project", projects[i].str)
  {
    var n, e := DeclareAll(c), c[k];
    RolesByKind(e.document);
    Collected(c);
    var first, second := SpecLocation(e, "profiles", i), SpecLocation(e, "projects", i);
    BindingsReport(c, k, UnresolvedReference, first);
    BindingsReport(c, k, UnresolvedReference, second);
    var unknown := Unresolved(e, "profiles", SpecItems(e.document, "profiles"), n.profiles.Keys, "profile");
    var missing := Unresolved(e, "projects", SpecItems(e.document, "projects"), n.projects, "project");
    MachineBindings(n, e, unknown, missing, first);
    MachineBindings(n, e, unknown, missing, second);
    FieldReports(c, e, "profiles", n.profiles.Keys, "profile", i);
    FieldReports(c, e, "projects", n.projects, "project", i);
    var profiles, projects := AsArr(Get2(e.document, "spec", "profiles")), AsArr(Get2(e.document, "spec", "projects"));
    if i < |profiles| && profiles[i].Str? { KnownIff(c, profiles[i].str); }
    if i < |projects| && projects[i].Str? { KnownIff(c, projects[i].str); }
  }

  lemma FieldReports(c: seq<Entry>, e: Entry, field: string, known: set<string>, noun: string, i: nat)
    ensures var values := AsArr(Get2(e.document, "spec", field));
      Reports(Unresolved(e, field, SpecItems(e.document, field), known, noun), UnresolvedReference,
              SpecLocation(e, field, i)) <==>
        i < |values| && values[i].Str? && values[i].str !in known
  {
    var values := AsArr(Get2(e.document, "spec", field));
    assert SpecItems(e.document, field) == StringItems(values);
    UnresolvedReports(e, field, SpecItems(e.document, field), known, noun, i);
    ItemAt(values, i, known);
  }

  /** Profile `i` that a profile extends is reported as unresolved iff it is a name
      and no document is a profile of that name. */
  lemma ExtendsReportedIff(c: seq<Entry>, k: nat, i: nat)
    requires UniqueBy(BaseOf, c) && k < |c| && AsStr(Get(c[k].document, "kind")) == Some("Profile")
    ensures var parents := AsArr(Get2(c[k].document, "spec", "extends"));
      Reports(ReferenceDiagnostics(c), UnresolvedReference,
              Location(c[k].base, [Key("spec"), Key("extends"), Index(i)])) <==>
        i < |parents| && parents[i].Str? && !SomeHas(c, "Profile", parents[i].str)
  {
    var n, e := DeclareAll(c), c[k];
    var parents := AsArr(Get2(e.document, "spec", "extends"));
    RolesByKind(e.document);
    Collected(c);
    assert SpecItems(e.document, "extends") == StringItems(parents);
    BindingsReport(c, k, UnresolvedReference, SpecLocation(e, "extends", i));
    ParentsReport(e, OwnName(e), SpecItems(e.document, "extends"), n.profiles, i);
    ItemAt(parents, i, n.profiles.Keys);
    if i < |parents| && parents[i].Str? { KnownIff(c, parents[i].str); }
  }

  /** `a` extends `b`, by the documents' names. */
  ghost function ExtendsByName(c: seq<Entry>): (string, string) -> bool {
    (a: string, b: string) =>
      exists j :: 0 <= j < |c| && Has(c[j].document, "Profile", a)
                  && Str(b) in AsArr(Get2(c[j].document, "spec", "extends"))
  }

  lemma ParentIff(document: Json, b: string)
    ensures b in Parents(document) <==> Str(b) in AsArr(Get2(document, "spec", "extends"))
  {
    var values := AsArr(Get2(document, "spec", "extends"));
    var items := StringItems(values);
    assert SpecItems(document, "extends") == items;
    if b in Parents(document) {
      var n :| 0 <= n < |items| && Texts(items)[n] == b;
      assert values[items[n].index] == Str(b);
    }
    if Str(b) in values {
      var i :| 0 <= i < |values| && values[i] == Str(b);
      assert Item(i, b) in items;
      var n :| 0 <= n < |items| && items[n] == Item(i, b);
      assert Texts(items)[n] == b;
    }
  }

  lemma EdgesByName(c: seq<Entry>, a: string, b: string)
    ensures ExtendsIn(c)(a, b) <==> ExtendsByName(c)(a, b)
  {
    forall j | 0 <= j < |c| ensures DeclaredAt(c, j, Profile, a) <==> Has(c[j].document, "Profile", a) {
      DeclaresIff(c[j], a);
    }
    if ExtendsIn(c)(a, b) {
      var j :| DeclaredAt(c, j, Profile, a) && b in Parents(c[j].document);
      ParentIff(c[j].document, b);
    }
    if ExtendsByName(c)(a, b) {
      var j :| 0 <= j < |c| && Has(c[j].document, "Profile", a)
        && Str(b) in AsArr(Get2(c[j].document, "spec", "extends"));
      ParentIff(c[j].document, b);
    }
  }

  /** With unique names, a profile that a profile extends is reported as a cycle iff
      it leads back through the names that documents of kind `Profile` extend. */
  lemma CycleByNameIff(c: seq<Entry>, k: nat, name: string, x: Item)
    requires UniqueBy(BaseOf, c) && Named(c) && NamesUnique(c) && k < |c| && Has(c[k].document, "Profile", name)
    requires x in StringItems(AsArr(Get2(c[k].document, "spec", "extends")))
    ensures var at := Location(c[k].base, [Key("spec"), Key("extends"), Index(x.index)]);
      Diagnostic(ProfileCycle, at, [name, x.text]) in ReferenceDiagnostics(c) <==>
        Reaches(ExtendsByName(c), x.text, name)
  {
    var e := c[k];
    RolesByKind(e.document);
    assert SpecItems(e.document, "extends") == StringItems(AsArr(Get2(e.document, "spec", "extends")));
    CycleReportedIff(c, k, x);
    SameWalks(c, x.text, name);
  }

  lemma SameWalks(c: seq<Entry>, a: string, b: string)
    ensures Reaches(ExtendsIn(c), a, b) <==> Reaches(ExtendsByName(c), a, b)
  {
    forall x, y ensures ExtendsIn(c)(x, y) <==> ExtendsByName(c)(x, y) {
      EdgesByName(c, x, y);
    }
    if Reaches(ExtendsIn(c), a, b) {
      ghost var there := (n: string) => Reaches(ExtendsByName(c), a, n);
      ReachesItself(ExtendsByName(c), a);
      forall x, y | there(x) && ExtendsIn(c)(x, y) ensures there(y) { ReachesFurther(ExtendsByName(c), a, x, y); }
      ReachedStaysInside(ExtendsIn(c), there, a, b);
    }
    if Reaches(ExtendsByName(c), a, b) {
      ghost var there := (n: string) => Reaches(ExtendsIn(c), a, n);
      ReachesItself(ExtendsIn(c), a);
      forall x, y | there(x) && ExtendsByName(c)(x, y) ensures there(y) { ReachesFurther(ExtendsIn(c), a, x, y); }
      ReachedStaysInside(ExtendsByName(c), there, a, b);
    }
  }

  // ------------------------------------------------------------------- names

  /** Both are of one of the three kinds, and have one name. */
  predicate SameName(a: Json, b: Json) {
    && AsStr(Get2(a, "metadata", "name")).Some?
    && AsStr(Get2(a, "metadata", "name")) == AsStr(Get2(b, "metadata", "name"))
    && AsStr(Get(a, "kind")) == AsStr(Get(b, "kind"))
    && AsStr(Get(a, "kind")) in {Some("Machine"), Some("Profile"), Some("Project")}
  }

  lemma SameNameIff(a: Entry, b: Entry)
    ensures Declares(a).Some? && Declares(a) == Declares(b) <==> SameName(a.document, b.document)
  {
    RolesByKind(a.document);
    RolesByKind(b.document);
  }

  /** A document's name is reported as declared again iff some document before it, of
      the same of the three kinds, has it. */
  lemma NameReportedIff(c: seq<Entry>, k: nat)
    requires UniqueBy(BaseOf, c) && k < |c|
    ensures Reports(ReferenceDiagnostics(c), DuplicateName, Location(c[k].base, [Key("metadata"), Key("name")])) <==>
      exists j :: 0 <= j < k && SameName(c[k].document, c[j].document)
  {
    var at := Location(c[k].base, [Key("metadata"), Key("name")]);
    var own := DuplicateOf(DeclareAll(c[..k]), c[k]);
    forall d: Diagnostic | d.code == DuplicateName && d.at == at ensures d in ReferenceDiagnostics(c) <==> d in own {
      ReportedByOwn(c, k, d);
      if d in ReportOf(c, k) { ReportsAtBase(c, k, d); }
    }
    SameReports(ReferenceDiagnostics(c), own, DuplicateName, at);
    if own != [] { assert own[0] in own; }
    EarlierDeclares(c, k);
  }

  lemma EarlierDeclares(c: seq<Entry>, k: nat)
    requires k < |c|
    ensures DuplicateOf(DeclareAll(c[..k]), c[k]) != [] <==>
      exists j :: 0 <= j < k && SameName(c[k].document, c[j].document)
  {
    Collected(c[..k]);
    if Declares(c[k]).Some? {
      var (role, name) := Declares(c[k]).value;
      if Known(c[..k], role, name) {
        var j :| DeclaredAt(c[..k], j, role, name);
        SameNameIff(c[k], c[j]);
      }
    }
    if j :| 0 <= j < k && SameName(c[k].document, c[j].document) {
      SameNameIff(c[k], c[j]);
      assert DeclaredAt(c[..k], j, Declares(c[k]).value.0, Declares(c[k]).value.1);
    }
  }
}
