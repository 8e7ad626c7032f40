/** When a relation's target is an error, and when it is warned about, for each kind
    of target. */
module TargetReports {
  import opened Wrappers
  import opened TextSearch
  import opened JsonValues
  import opened Diagnostics
  import opened Documents
  import opened Permutations
  import opened Sequences
  import opened RegistryNames
  import opened RegistrySpecs
  import opened Registry
  import opened RegistryRules
  import opened RegistryOwn
  import opened RegistryReports

  /** Some document of the candidate is of this kind and has this name. */
  predicate Declares(c: seq<Entry>, kind: string, name: string) {
    exists e :: e in c && AsStr(Get(e.document, "kind")) == Some(kind)
                && AsStr(Get2(e.document, "metadata", "name")) == Some(name)
  }

  lemma NamesOfKindIff(c: seq<Entry>, kind: string, name: string)
    requires kind != ""
    ensures name in NamesOfKind(c, kind) <==> Declares(c, kind, name)
  {
  }

  lemma KindsNotEmpty()
    ensures "Machine" != "" && "Project" != ""
  {
    assert |"Machine"| == 7 && |"Project"| == 7;
  }

  // ---------------------------------------------------------------- warnings

  /** A machine that is named is warned about iff machines were supplied, and it is
      neither among them nor a document of kind `Machine` in the candidate. */
  lemma MachineWarnedIff(g: Grammars, ctx: Context, c: seq<Entry>, l: Located, n: nat, name: string)
    requires UniqueBy(BaseOf, c) && l in EnterAll(g, DefineAll(g, ctx.builtins, c).specs, c).list
    requires n < |l.entry.relations| && l.entry.relations[n].target == MachineTarget(name) && IsSlug(name)
    ensures Dangling(RelationAt(l.base, n, "target")) in RegistryWarnings(g, ctx, c) <==>
      Machines in ctx.known && name !in ctx.known[Machines] && !Declares(c, "Machine", name)
  {
    WarnedIff(g, ctx, c, l, n);
    KindsNotEmpty();
    NamesOfKindIff(c, "Machine", name);
  }

  /** A project that is named is warned about iff projects were supplied, and it is
      neither among them nor a document of kind `Project` in the candidate. */
  lemma ProjectWarnedIff(g: Grammars, ctx: Context, c: seq<Entry>, l: Located, n: nat, name: string)
    requires UniqueBy(BaseOf, c) && l in EnterAll(g, DefineAll(g, ctx.builtins, c).specs, c).list
    requires n < |l.entry.relations| && l.entry.relations[n].target == ProjectTarget(name) && IsSlug(name)
    ensures Dangling(RelationAt(l.base, n, "target")) in RegistryWarnings(g, ctx, c) <==>
      Projects in ctx.known && name !in ctx.known[Projects] && !Declares(c, "Project", name)
  {
    WarnedIff(g, ctx, c, l, n);
    KindsNotEmpty();
    NamesOfKindIff(c, "Project", name);
  }

  /** A Coolify resource is warned about iff such were supplied and it is not among
      them. */
  lemma CoolifyWarnedIff(g: Grammars, ctx: Context, c: seq<Entry>, l: Located, n: nat, id: string)
    requires UniqueBy(BaseOf, c) && l in EnterAll(g, DefineAll(g, ctx.builtins, c).specs, c).list
    requires n < |l.entry.relations| && l.entry.relations[n].target == CoolifyTarget(id) && IsExternalId(id)
    ensures Dangling(RelationAt(l.base, n, "target")) in RegistryWarnings(g, ctx, c) <==>
      CoolifyResources in ctx.known && id !in ctx.known[CoolifyResources]
  {
    WarnedIff(g, ctx, c, l, n);
  }

  /** And so is a Proxmox guest. */
  lemma ProxmoxWarnedIff(g: Grammars, ctx: Context, c: seq<Entry>, l: Located, n: nat, id: string)
    requires UniqueBy(BaseOf, c) && l in EnterAll(g, DefineAll(g, ctx.builtins, c).specs, c).list
    requires n < |l.entry.relations| && l.entry.relations[n].target == ProxmoxTarget(id) && IsExternalId(id)
    ensures Dangling(RelationAt(l.base, n, "target")) in RegistryWarnings(g, ctx, c) <==>
      ProxmoxGuests in ctx.known && id !in ctx.known[ProxmoxGuests]
  {
    WarnedIff(g, ctx, c, l, n);
  }

  // ------------------------------------------------------------------ errors

  /** A type's name, a slash and a key. */
  predicate SplitsAt(reference: string, k: int) {
    0 <= k < |reference| && reference[k] == '/' && IsSlug(reference[..k]) && IsKeyValue(reference[k + 1..])
  }

  /** Each kind of target has a form of its own. */
  ghost predicate TargetWell(target: Target) {
    match target
    case RegistryTarget(reference) => exists k :: SplitsAt(reference, k)
    case MachineTarget(name) => IsSlug(name)
    case ProjectTarget(name) => IsSlug(name)
    case CoolifyTarget(id) => IsExternalId(id)
    case ProxmoxTarget(id) => IsExternalId(id)
  }

  ghost predicate NamesUnknownType(types: map<string, TypeSpec>, target: Target) {
    target.RegistryTarget? && exists k :: SplitsAt(target.reference, k) && target.reference[..k] !in types
  }

  lemma SplitParses(reference: string, k: nat)
    requires SplitsAt(reference, k)
    ensures ParseReference(reference) == Some((reference[..k], reference[k + 1..]))
  {
    assert reference == reference[..k] + ['/'] + reference[k + 1..];
    ReferenceReadsBack(reference[..k], reference[k + 1..]);
  }

  lemma ParsedSplits(reference: string) returns (k: nat)
    requires ParseReference(reference).Some?
    ensures SplitsAt(reference, k) && ParseReference(reference).value.0 == reference[..k]
  {
    var parts := SplitOnce(reference, '/').value;
    k := |parts.0|;
    assert reference[..k] == parts.0 && reference[k + 1..] == parts.1;
  }

  lemma ReferenceSplits(types: map<string, TypeSpec>, reference: string)
    ensures ParseReference(reference).Some? <==> TargetWell(RegistryTarget(reference))
    ensures ParseReference(reference).Some? && ParseReference(reference).value.0 !in types <==>
      NamesUnknownType(types, RegistryTarget(reference))
  {
    if ParseReference(reference).Some? { var k := ParsedSplits(reference); }
    if k :| SplitsAt(reference, k) { SplitParses(reference, k); }
    if k :| SplitsAt(reference, k) && reference[..k] !in types { SplitParses(reference, k); }
  }

  /** What one relation is reported for its target. */
  lemma TargetReported(types: map<string, TypeSpec>, l: Located, i: nat, code: Code)
    requires i < |l.entry.relations| && l.entry.entryType in types && (code.InvalidTarget? || code.UnknownTargetType?)
    ensures var at := RelationAt(l.base, i, "target");
      Diagnostic(code, at, []) in RelationErrors(types, l, i) <==>
        Diagnostic(code, at, []) in TargetErrors(types, at, l.entry.relations[i].target)
  {
  }

  /** A relation's target is an error iff it is malformed, or names a Registry type
      that is not known. */
  lemma TargetErrorIff(types: map<string, TypeSpec>, at: Location, target: Target)
    ensures Diagnostic(InvalidTarget, at, []) in TargetErrors(types, at, target) <==> !TargetWell(target)
    ensures Diagnostic(UnknownTargetType, at, []) in TargetErrors(types, at, target) <==>
      NamesUnknownType(types, target)
  {
    if target.RegistryTarget? { ReferenceSplits(types, target.reference); }
  }

  lemma RelationPlaced(types: map<string, TypeSpec>, l: Located, i: nat, d: Diagnostic)
    requires i < |l.entry.relations| && l.entry.entryType in types && d in RelationErrors(types, l, i)
    ensures |d.at.path| == 4 && d.at.path[2] == Index(i)
  {
  }

  lemma AtIndex(types: map<string, TypeSpec>, l: Located, n: nat, d: Diagnostic)
    requires n < |l.entry.relations| && l.entry.entryType in types
    requires |d.at.path| == 4 && d.at.path[2] == Index(n)
    ensures d in RelationsErrors(types, l, |l.entry.relations|) <==> d in RelationErrors(types, l, n)
  {
    var parts := RelationParts(types, l);
    assert parts[..|l.entry.relations|] == parts;
    InConcat(parts, d);
    PartAt(types, l, n);
    if d in Concat(parts) {
      var i :| 0 <= i < |parts| && d in parts[i];
      PartAt(types, l, i);
      RelationPlaced(types, l, i, d);
    }
  }

  lemma TargetCodes(code: Code)
    requires code in {InvalidTarget, UnknownTargetType}
    ensures code !in TYPE_CODES && code !in ENTRY_CODES
  {
  }

  /** In the report, the target of relation `n` of an entry of a known type is
      reported as malformed iff it is, and as of an unknown type iff it names one. */
  lemma TargetReportedIff(g: Grammars, builtins: seq<Builtin>, c: seq<Entry>, k: nat, entry: EntrySpec, n: nat)
    requires UniqueBy(BaseOf, c) && k < |c| && EntryAt(g, c[k]) == Some(entry) && n < |entry.relations|
    requires entry.entryType in DefineAll(g, builtins, c).specs
    ensures var target, at := entry.relations[n].target, RelationAt(c[k].base, n, "target");
      && (Diagnostic(InvalidTarget, at, []) in RegistryErrors(g, builtins, c) <==> !TargetWell(target))
      && (Diagnostic(UnknownTargetType, at, []) in RegistryErrors(g, builtins, c) <==>
            NamesUnknownType(DefineAll(g, builtins, c).specs, target))
  {
    var types := DefineAll(g, builtins, c).specs;
    TargetErrorIff(types, RelationAt(c[k].base, n, "target"), entry.relations[n].target);
    OwnTarget(g, builtins, c, k, entry, n, InvalidTarget);
    OwnTarget(g, builtins, c, k, entry, n, UnknownTargetType);
  }

  lemma OwnTarget(g: Grammars, builtins: seq<Builtin>, c: seq<Entry>, k: nat, entry: EntrySpec, n: nat, code: Code)
    requires UniqueBy(BaseOf, c) && k < |c| && EntryAt(g, c[k]) == Some(entry) && n < |entry.relations|
    requires entry.entryType in DefineAll(g, builtins, c).specs && (code.InvalidTarget? || code.UnknownTargetType?)
    ensures var at := RelationAt(c[k].base, n, "target");
      Diagnostic(code, at, []) in RegistryErrors(g, builtins, c) <==>
        Diagnostic(code, at, []) in TargetErrors(DefineAll(g, builtins, c).specs, at, entry.relations[n].target)
  {
    var types, at := DefineAll(g, builtins, c).specs, RelationAt(c[k].base, n, "target");
    var d, l := Diagnostic(code, at, []), Located(c[k].base, entry);
    TargetCodes(code);
    RelationReportedIff(g, builtins, c, k, d);
    assert at.path[2] == Index(n);
    AtIndex(types, l, n, d);
    TargetReported(types, l, n, code);
  }
}
