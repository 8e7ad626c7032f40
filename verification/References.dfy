/** Bindings by name across a candidate collection, and cycles of `extends`. */
module References {
  import opened Wrappers
  import opened JsonValues
  import opened Diagnostics
  import opened Documents
  import opened Graph
  import opened Sequences

  // ------------------------------------------------------ reachability

  /** `extends` edges between profile names. */
  ghost function Extends(profiles: map<string, seq<string>>): (string, string) -> bool {
    (a: string, b: string) => a in profiles && b in profiles[a]
  }

  /** Whether `target` is reachable from `start` through `extends` edges;
      terminates on cyclic graphs. */
  method ExtendsReaches(profiles: map<string, seq<string>>, start: string, target: string) returns (reached: bool)
    ensures reached <==> Reaches(Extends(profiles), start, target)
  {
    var visited: set<string> := {};
    var stack := [start];
    ghost var names := {start} + set a, b | a in profiles && b in profiles[a] :: b;
    ReachesItself(Extends(profiles), start);
    while stack != []
      invariant visited <= names && forall n :: n in stack ==> n in names
      invariant start in visited || start in stack
      invariant target !in visited
      invariant forall n :: n in stack ==> Reaches(Extends(profiles), start, n)
      invariant forall a, b :: a in visited && Extends(profiles)(a, b) ==> b in visited || b in stack
      decreases names - visited, |stack|
    {
      var name := stack[|stack| - 1];
      ghost var before := stack;
      stack := stack[..|stack| - 1];
      assert forall n :: n in before ==> n == name || n in stack;
      assert name in before;
      if name == target {
        return true;
      }
      if name in visited {
        continue;
      }
      visited := visited + {name};
      if name in profiles {
        forall n | n in profiles[name] ensures Reaches(Extends(profiles), start, n) {
          ReachesFurther(Extends(profiles), start, name, n);
        }
        stack := stack + profiles[name];
      }
    }
    if Reaches(Extends(profiles), start, target) {
      ReachedStaysInside(Extends(profiles), (n: string) => n in visited, start, target);
    }
    return false;
  }

  // ------------------------------------------------- pass 1: declarations

  /** What the first pass knows: where each bindable name was last declared,
      each profile's parents, and the projects. */
  datatype Names = Names(
    seen: map<(Role, string), string>,
    profiles: map<string, seq<string>>,
    projects: set<string>)

  const NO_NAMES := Names(map[], map[], {})

  function Parents(document: Json): seq<string> {
    Texts(SpecItems(document, "extends"))
  }

  /** The bindable name an entry declares. */
  function Declares(e: Entry): Option<(Role, string)> {
    match NameOf(e.document)
    case Some(name) => if RoleOf(e.document).Unbound? then None else Some((RoleOf(e.document), name))
    case None => None
  }

  function Declare(n: Names, e: Entry): Names {
    match Declares(e)
    case None => n
    case Some((role, name)) =>
      var seen := n.seen[(role, name) := e.base];
      if (role, name) in n.seen then n.(seen := seen)
      else match role
        case Profile => n.(seen := seen, profiles := n.profiles[name := Parents(e.document)])
        case Project => n.(seen := seen, projects := n.projects + {name})
        case _ => n.(seen := seen)
  }

  function DeclareAll(c: seq<Entry>): Names {
    if c == [] then NO_NAMES else Declare(DeclareAll(c[..|c| - 1]), c[|c| - 1])
  }

  /** A second declaration of a name; the message quotes where it was declared
      the time before. */
  function DuplicateOf(n: Names, e: Entry): seq<Diagnostic> {
    match Declares(e)
    case Some(declared) =>
      if declared in n.seen
      then [Diagnostic(DuplicateName, Location(e.base, [Key("metadata"), Key("name")]),
                       [KindOf(e.document), declared.1, n.seen[declared]])]
      else []
    case None => []
  }

  function Duplicates(c: seq<Entry>): seq<Diagnostic> {
    if c == [] then [] else Duplicates(c[..|c| - 1]) + DuplicateOf(DeclareAll(c[..|c| - 1]), c[|c| - 1])
  }

  // ---------------------------------------------------- pass 2: bindings

  function SpecLocation(e: Entry, field: string, index: nat): Location {
    Location(e.base, [Key("spec"), Key(field), Index(index)])
  }

  function Unresolved(e: Entry, field: string, items: seq<Item>, known: set<string>, noun: string): seq<Diagnostic> {
    if items == [] then []
    else
      var last := items[|items| - 1];
      Unresolved(e, field, items[..|items| - 1], known, noun)
      + if last.text in known then []
        else [Diagnostic(UnresolvedReference, SpecLocation(e, field, last.index), [noun, last.text])]
  }

  ghost function ParentDiagnostic(e: Entry, own: string, parent: Item,
                                  profiles: map<string, seq<string>>): seq<Diagnostic> {
    if parent.text !in profiles then
      [Diagnostic(UnresolvedReference, SpecLocation(e, "extends", parent.index), ["profile", parent.text])]
    else if Reaches(Extends(profiles), parent.text, own) then
      [Diagnostic(ProfileCycle, SpecLocation(e, "extends", parent.index), [own, parent.text])]
    else []
  }

  ghost function ParentDiagnostics(e: Entry, own: string, parents: seq<Item>,
                                   profiles: map<string, seq<string>>): seq<Diagnostic> {
    if parents == [] then []
    else ParentDiagnostics(e, own, parents[..|parents| - 1], profiles)
         + ParentDiagnostic(e, own, parents[|parents| - 1], profiles)
  }

  function OwnName(e: Entry): string {
    match NameOf(e.document)
    case Some(name) => name
    case None => ""
  }

  ghost function BindingDiagnostics(n: Names, e: Entry): seq<Diagnostic> {
    match RoleOf(e.document)
    case Machine =>
      Unresolved(e, "profiles", SpecItems(e.document, "profiles"), n.profiles.Keys, "profile")
      + Unresolved(e, "projects", SpecItems(e.document, "projects"), n.projects, "project")
    case Profile => ParentDiagnostics(e, OwnName(e), SpecItems(e.document, "extends"), n.profiles)
    case _ => []
  }

  ghost function PerEntry(n: Names, c: seq<Entry>): seq<seq<Diagnostic>> {
    seq(|c|, i requires 0 <= i < |c| => BindingDiagnostics(n, c[i]))
  }

  ghost function ReferenceDiagnostics(c: seq<Entry>): seq<Diagnostic> {
    Duplicates(c) + Concat(PerEntry(DeclareAll(c), c))
  }

  // ------------------------------------------------------- the validator

  method ValidateReferences(collection: seq<Entry>, log: Log)
    modifies log
    ensures log.items == old(log.items) + ReferenceDiagnostics(collection)
  {
    var names := DeclareNames(collection, log);
    ReportAllBindings(collection, names, log);
    Associative(old(log.items), Duplicates(collection), Concat(PerEntry(names, collection)));
  }

  method ReportAllBindings(collection: seq<Entry>, names: Names, log: Log)
    modifies log
    ensures log.items == old(log.items) + Concat(PerEntry(names, collection))
  {
    ghost var parts, start := PerEntry(names, collection), log.items;
    for i := 0 to |collection|
      invariant log.items == start + Concat(parts[..i])
    {
      ReportBindings(collection[i], names, log);
      PerEntryAt(names, collection, i);
      AppendPart(start, parts, i);
    }
    assert parts[..|collection|] == parts;
  }

  lemma PerEntryAt(n: Names, c: seq<Entry>, i: nat)
    requires i < |c|
    ensures PerEntry(n, c)[i] == BindingDiagnostics(n, c[i])
  {
  }

  method DeclareNames(collection: seq<Entry>, log: Log) returns (names: Names)
    modifies log
    ensures names == DeclareAll(collection) && log.items == old(log.items) + Duplicates(collection)
  {
    names := NO_NAMES;
    for i := 0 to |collection|
      invariant names == DeclareAll(collection[..i])
      invariant log.items == old(log.items) + Duplicates(collection[..i])
    {
      assert collection[..i + 1][..i] == collection[..i];
      names := DeclareName(collection[i], names, log);
    }
    assert collection[..|collection|] == collection;
  }

  method DeclareName(e: Entry, known: Names, log: Log) returns (names: Names)
    modifies log
    ensures names == Declare(known, e) && log.items == old(log.items) + DuplicateOf(known, e)
  {
    names := known;
    var role := RoleOf(e.document);
    if NameOf(e.document).None? || role.Unbound? {
      return;
    }
    var name := NameOf(e.document).value;
    names := names.(seen := names.seen[(role, name) := e.base]);
    if (role, name) in known.seen {
      log.Push(Diagnostic(DuplicateName, Location(e.base, [Key("metadata"), Key("name")]),
                          [KindOf(e.document), name, known.seen[(role, name)]]));
      return;
    }
    match role
    case Profile => names := names.(profiles := names.profiles[name := Parents(e.document)]);
    case Project => names := names.(projects := names.projects + {name});
    case _ =>
  }

  method ReportBindings(e: Entry, names: Names, log: Log)
    modifies log
    ensures log.items == old(log.items) + BindingDiagnostics(names, e)
  {
    match RoleOf(e.document)
    case Machine =>
      ReportUnresolved(e, "profiles", SpecItems(e.document, "profiles"), names.profiles.Keys, "profile", log);
      ReportUnresolved(e, "projects", SpecItems(e.document, "projects"), names.projects, "project", log);
      Associative(old(log.items),
                  Unresolved(e, "profiles", SpecItems(e.document, "profiles"), names.profiles.Keys, "profile"),
                  Unresolved(e, "projects", SpecItems(e.document, "projects"), names.projects, "project"));
    case Profile =>
      ReportParents(e, SpecItems(e.document, "extends"), names.profiles, log);
    case _ =>
  }

  method ReportUnresolved(e: Entry, field: string, items: seq<Item>, known: set<string>, noun: string, log: Log)
    modifies log
    ensures log.items == old(log.items) + Unresolved(e, field, items, known, noun)
  {
    for i := 0 to |items|
      invariant log.items == old(log.items) + Unresolved(e, field, items[..i], known, noun)
    {
      assert items[..i + 1][..i] == items[..i];
      if items[i].text !in known {
        log.Push(Diagnostic(UnresolvedReference, SpecLocation(e, field, items[i].index), [noun, items[i].text]));
      }
    }
    assert items[..|items|] == items;
  }

  method ReportParents(e: Entry, parents: seq<Item>, profiles: map<string, seq<string>>, log: Log)
    modifies log
    ensures log.items == old(log.items) + ParentDiagnostics(e, OwnName(e), parents, profiles)
  {
    var own := OwnName(e);
    for i := 0 to |parents|
      invariant log.items == old(log.items) + ParentDiagnostics(e, own, parents[..i], profiles)
    {
      assert parents[..i + 1][..i] == parents[..i];
      var parent := parents[i];
      if parent.text !in profiles {
        log.Push(Diagnostic(UnresolvedReference, SpecLocation(e, "extends", parent.index), ["profile", parent.text]));
      } else {
        var cycle := ExtendsReaches(profiles, parent.text, own);
        if cycle {
          log.Push(Diagnostic(ProfileCycle, SpecLocation(e, "extends", parent.index), [own, parent.text]));
        }
      }
    }
    assert parents[..|parents|] == parents;
  }
}
