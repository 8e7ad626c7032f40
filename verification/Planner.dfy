/** The planner: what becomes of a set of differences, and in which order. */
module Planner {
  import opened Wrappers
  import opened Text
  import opened Permutations
  import opened StableSort
  import opened ApplyPlan
  import opened PlannedActions

  // ------------------------------------------------------ the two orders

  /** The dependency rank of a kind; what nothing resolves comes last. */
  function RankOf(kind: Option<Kind>): nat {
    match kind
    case Some(CloneProject) => 0
    case Some(InstallTool) => 1
    case Some(DeploySkill) => 2
    case Some(RolloutCatalog) => 2
    case Some(UndeploySkill) => 4
    case None => 255
  }

  function Rank(d: Difference): nat {
    RankOf(ResolvingKind(d))
  }

  /** By dependency rank, then by identity. */
  predicate Earlier(a: Difference, b: Difference) {
    Rank(a) < Rank(b) || (Rank(a) == Rank(b) && StrLe(a.identity, b.identity))
  }

  predicate ByIdentity(a: Difference, b: Difference) {
    StrLe(a.identity, b.identity)
  }

  lemma EarlierOrders()
    ensures TotalPreorder(Earlier)
  {
    forall a, b ensures Earlier(a, b) || Earlier(b, a) {
      StrLeTotal(a.identity, b.identity);
    }
    forall a, b, c | Earlier(a, b) && Earlier(b, c) ensures Earlier(a, c) {
      EarlierTransitive(a, b, c);
    }
  }

  lemma EarlierTransitive(a: Difference, b: Difference, c: Difference)
    requires Earlier(a, b) && Earlier(b, c)
    ensures Earlier(a, c)
  {
    if Rank(a) == Rank(b) == Rank(c) { StrLeTransitive(a.identity, b.identity, c.identity); }
  }

  lemma ByIdentityOrders()
    ensures TotalPreorder(ByIdentity)
  {
    forall a, b ensures ByIdentity(a, b) || ByIdentity(b, a) {
      StrLeTotal(a.identity, b.identity);
    }
    forall a, b, c | ByIdentity(a, b) && ByIdentity(b, c) ensures ByIdentity(a, c) {
      StrLeTransitive(a.identity, b.identity, c.identity);
    }
  }

  // --------------------------------------------------------- the planner

  /** The differences that are, or are not, such. */
  function Kept(p: Difference -> bool, ds: seq<Difference>): (r: seq<Difference>)
    ensures forall d :: d in r <==> d in ds && p(d)
    ensures forall i :: 0 <= i < |r| ==> p(r[i])
  {
    if ds == [] then []
    else
      var before, last := ds[..|ds| - 1], ds[|ds| - 1];
      assert ds == before + [last];
      Kept(p, before) + if p(last) then [last] else []
  }

  predicate Actionable(d: Difference) {
    d.state.Actionable()
  }

  predicate Unactionable(d: Difference) {
    !d.state.Actionable()
  }

  predicate HasAction(d: Difference) {
    ResolvingKind(d).Some?
  }

  predicate HasNone(d: Difference) {
    ResolvingKind(d).None?
  }

  /** What can be acted on, in plan order. */
  function InPlanOrder(ds: seq<Difference>): seq<Difference> {
    Sorted(Earlier, Kept(Actionable, ds))
  }

  /** The differences the plan acts on, one action each. */
  function ActedOn(ds: seq<Difference>): (r: seq<Difference>)
    ensures forall d :: d in r ==> ResolvingKind(d).Some?
    ensures forall i :: 0 <= i < |r| ==> ResolvingKind(r[i]).Some?
  {
    assert forall d :: d in Kept(HasAction, InPlanOrder(ds)) ==> HasAction(d);
    Kept(HasAction, InPlanOrder(ds))
  }

  /** The differences that no bounded operation resolves. */
  function Unresolved(ds: seq<Difference>): seq<Difference> {
    Kept(HasNone, InPlanOrder(ds))
  }

  function AsUnsupported(ds: seq<Difference>): seq<Difference> {
    seq(|ds|, i requires 0 <= i < |ds| => ds[i].(state := Unsupported))
  }

  /** What the plan reports without acting on it. */
  function Reported(ds: seq<Difference>): seq<Difference> {
    AsUnsupported(Unresolved(ds)) + Sorted(ByIdentity, Kept(Unactionable, ds))
  }

  method Filter(p: Difference -> bool, ds: seq<Difference>) returns (r: seq<Difference>)
    ensures r == Kept(p, ds)
  {
    r := [];
    for i := 0 to |ds|
      invariant r == Kept(p, ds[..i])
    {
      assert ds[..i + 1][..i] == ds[..i];
      if p(ds[i]) {
        r := r + [ds[i]];
      }
    }
    assert ds[..|ds|] == ds;
  }

  /** The actions for these differences, still without a number. */
  predicate ActsOn(actions: seq<Action>, ds: seq<Difference>) {
    |actions| == |ds| && forall i :: 0 <= i < |ds| ==> ResolvingKind(ds[i]).Some? && actions[i] == ActionOf(ds[i], 0)
  }

  lemma KeptOneMore(p: Difference -> bool, ds: seq<Difference>, n: nat)
    requires n < |ds|
    ensures Kept(p, ds[..n + 1]) == Kept(p, ds[..n]) + if p(ds[n]) then [ds[n]] else []
  {
    assert ds[..n + 1][..n] == ds[..n];
  }

  lemma OneMoreAction(actions: seq<Action>, ds: seq<Difference>, d: Difference)
    requires ActsOn(actions, ds) && HasAction(d)
    ensures ActsOn(actions + [ActionOf(d, 0)], ds + [d])
  {
  }

  lemma OneMoreUnsupported(ds: seq<Difference>, d: Difference)
    ensures AsUnsupported(ds + [d]) == AsUnsupported(ds) + [d.(state := Unsupported)]
  {
  }

  method Divide(sorted: seq<Difference>) returns (actions: seq<Action>, unresolved: seq<Difference>)
    ensures ActsOn(actions, Kept(HasAction, sorted)) && unresolved == AsUnsupported(Kept(HasNone, sorted))
  {
    actions, unresolved := [], [];
    for n := 0 to |sorted|
      invariant ActsOn(actions, Kept(HasAction, sorted[..n])) && unresolved == AsUnsupported(Kept(HasNone, sorted[..n]))
    {
      KeptOneMore(HasAction, sorted, n);
      KeptOneMore(HasNone, sorted, n);
      var d := sorted[n];
      if HasAction(d) {
        OneMoreAction(actions, Kept(HasAction, sorted[..n]), d);
        actions := actions + [ActionOf(d, 0)];
      } else {
        OneMoreUnsupported(Kept(HasNone, sorted[..n]), d);
        unresolved := unresolved + [d.(state := Unsupported)];
      }
    }
    assert sorted[..|sorted|] == sorted;
  }

  method Renumber(ghost ds: seq<Difference>, unnumbered: seq<Action>) returns (actions: seq<Action>)
    requires ActsOn(unnumbered, ds)
    ensures |actions| == |ds|
    ensures forall i :: 0 <= i < |ds| ==> ResolvingKind(ds[i]).Some? && actions[i] == ActionOf(ds[i], OrderAt(i))
  {
    actions := unnumbered;
    for position := 0 to |actions|
      invariant |actions| == |ds| && forall i :: 0 <= i < |ds| ==> ResolvingKind(ds[i]).Some?
      invariant forall i :: 0 <= i < |ds| ==> actions[i] == ActionOf(ds[i], if i < position then OrderAt(i) else 0)
    {
      actions := actions[position := actions[position].(order := OrderAt(position))];
    }
  }

  /** Acts on what can be resolved, in dependency order and numbered from one, and
      reports the rest. */
  method Plan(ds: seq<Difference>) returns (actions: seq<Action>, reported: seq<Difference>)
    ensures |actions| == |ActedOn(ds)| && reported == Reported(ds)
    ensures forall i :: 0 <= i < |actions| ==> actions[i] == ActionOf(ActedOn(ds)[i], OrderAt(i))
    ensures forall i, j :: 0 <= i < j < |actions| ==> MayPrecede(actions[i], actions[j])
  {
    var actionable := Filter(Actionable, ds);
    actionable := SortBy(Earlier, actionable);
    var rest := Filter(Unactionable, ds);
    rest := SortBy(ByIdentity, rest);
    actions, reported := Divide(actionable);
    reported := reported + rest;
    actions := Renumber(ActedOn(ds), actions);
    PlanOrdered(ds, actions);
  }

  /** Deploying a skill or rolling one out. */
  predicate Deploys(kind: string) {
    kind == "skills.deploy" || kind == "skills.catalog-rollout"
  }

  /** Clones come before everything else, then tools are installed, then skills are
      deployed and catalogs rolled out, and skills are undeployed after everything
      else; among clones, installs, undeployments, and deployments and rollouts taken
      together, the identities ascend. */
  predicate MayPrecede(a: Action, b: Action) {
    && (b.kind == "projects.clone" ==> a.kind == "projects.clone")
    && (b.kind == "mise.install" ==> a.kind == "projects.clone" || a.kind == "mise.install")
    && (a.kind == "skills.undeploy" ==> b.kind == "skills.undeploy")
    && (a.kind == b.kind || (Deploys(a.kind) && Deploys(b.kind)) ==> StrLe(a.identity, b.identity))
  }

  lemma PlanOrdered(ds: seq<Difference>, actions: seq<Action>)
    requires |actions| == |ActedOn(ds)|
    requires forall i :: 0 <= i < |actions| ==> actions[i] == ActionOf(ActedOn(ds)[i], OrderAt(i))
    ensures forall i, j :: 0 <= i < j < |actions| ==> MayPrecede(actions[i], actions[j])
  {
    DependenciesFirst(ds);
    forall i, j | 0 <= i < j < |actions| ensures MayPrecede(actions[i], actions[j]) {
      assert Earlier(ActedOn(ds)[i], ActedOn(ds)[j]);
      EarlierMeans(ActedOn(ds)[i], ActedOn(ds)[j], OrderAt(i), OrderAt(j));
    }
  }

  lemma EarlierMeans(a: Difference, b: Difference, n: nat, m: nat)
    requires Earlier(a, b) && ResolvingKind(a).Some? && ResolvingKind(b).Some?
    ensures MayPrecede(ActionOf(a, n), ActionOf(b, m))
  {
    KindIds(ResolvingKind(a).value);
    KindIds(ResolvingKind(b).value);
  }

  // ----------------------------------------------------- nothing is lost

  lemma {:induction false} KeptSplits(p: Difference -> bool, q: Difference -> bool, ds: seq<Difference>)
    requires forall d :: q(d) <==> !p(d)
    ensures Permuted(Kept(p, ds) + Kept(q, ds), ds)
  {
    if ds != [] {
      var before, last := ds[..|ds| - 1], ds[|ds| - 1];
      assert ds == before + [last];
      KeptSplits(p, q, before);
    }
  }

  lemma BothSplit<T>(ds: seq<T>, first: seq<T>, sorted: seq<T>, acted: seq<T>, unresolved: seq<T>, rest: seq<T>,
                     sortedRest: seq<T>)
    requires Permuted(first + rest, ds) && Permuted(sorted, first) && Permuted(acted + unresolved, sorted)
      && Permuted(sortedRest, rest)
    ensures Permuted(acted + unresolved + sortedRest, ds)
  {
  }

  /** Every difference is acted on or reported, once: as it is, or, when no bounded
      operation resolves it, as unsupported. */
  lemma NothingDropped(ds: seq<Difference>)
    ensures Permuted(ActedOn(ds) + Unresolved(ds) + Sorted(ByIdentity, Kept(Unactionable, ds)), ds)
    ensures forall d :: d in Reported(ds) ==> !d.state.Actionable()
  {
    EarlierOrders();
    ByIdentityOrders();
    KeptSplits(Actionable, Unactionable, ds);
    KeptSplits(HasAction, HasNone, InPlanOrder(ds));
    SortedPermutes(Earlier, Kept(Actionable, ds));
    SortedPermutes(ByIdentity, Kept(Unactionable, ds));
    BothSplit(ds, Kept(Actionable, ds), InPlanOrder(ds), ActedOn(ds), Unresolved(ds), Kept(Unactionable, ds),
              Sorted(ByIdentity, Kept(Unactionable, ds)));
    forall d | d in Reported(ds) ensures !d.state.Actionable() {
      if d in Sorted(ByIdentity, Kept(Unactionable, ds)) {
        SameMembers(Sorted(ByIdentity, Kept(Unactionable, ds)), Kept(Unactionable, ds), d);
      }
    }
  }

  /** A difference is acted on iff some kind resolves it. */
  lemma ActedOnIff(ds: seq<Difference>, d: Difference)
    ensures d in ActedOn(ds) <==> d in ds && ResolvingKind(d).Some?
  {
    EarlierOrders();
    SortedPermutes(Earlier, Kept(Actionable, ds));
    SameMembers(InPlanOrder(ds), Kept(Actionable, ds), d);
  }

  // ----------------------------------------------------- dependency order

  lemma {:induction false} KeptAscends(p: Difference -> bool, ds: seq<Difference>)
    requires Ascending(Earlier, ds)
    ensures Ascending(Earlier, Kept(p, ds))
  {
    if ds != [] {
      var before, last := ds[..|ds| - 1], ds[|ds| - 1];
      assert ds == before + [last];
      KeptAscends(p, before);
      forall i | 0 <= i < |Kept(p, before)| ensures Earlier(Kept(p, before)[i], last) {
        var d := Kept(p, before)[i];
        assert d in Kept(p, before) && d in before;
        var k :| 0 <= k < |before| && before[k] == d;
        assert ds[k] == d && ds[|ds| - 1] == last;
      }
    }
  }

  /** No action comes before one of a lower rank: projects are cloned before tools
      are installed, tools before skills are deployed and catalogs rolled out, and
      skills are undeployed last; within a rank by identity. */
  lemma DependenciesFirst(ds: seq<Difference>)
    ensures Ascending(Earlier, ActedOn(ds))
    ensures forall i, j :: 0 <= i < j < |ActedOn(ds)| ==> Rank(ActedOn(ds)[i]) <= Rank(ActedOn(ds)[j])
  {
    EarlierOrders();
    SortedPermutes(Earlier, Kept(Actionable, ds));
    KeptAscends(HasAction, InPlanOrder(ds));
    forall i, j | 0 <= i < j < |ActedOn(ds)| ensures Rank(ActedOn(ds)[i]) <= Rank(ActedOn(ds)[j]) {
      assert Earlier(ActedOn(ds)[i], ActedOn(ds)[j]);
    }
  }

  lemma PermutedIn(a: seq<Difference>, b: seq<Difference>, d: Difference)
    requires Permuted(a, b) && d in a
    ensures d in b
  {
    assert d in multiset(b);
  }

  lemma UnresolvedAre(ds: seq<Difference>, first: seq<Difference>)
    requires first == Unresolved(ds)
    ensures forall i :: 0 <= i < |first| ==>
      first[i] in ds && first[i].state.Actionable() && ResolvingKind(first[i]).None?
    ensures forall i, j :: 0 <= i < j < |first| ==> StrLe(first[i].identity, first[j].identity)
  {
    EarlierOrders();
    SortedPermutes(Earlier, Kept(Actionable, ds));
    KeptAscends(HasNone, InPlanOrder(ds));
    forall i | 0 <= i < |first|
      ensures first[i] in ds && first[i].state.Actionable() && ResolvingKind(first[i]).None?
    {
      assert HasNone(first[i]);
      PermutedIn(InPlanOrder(ds), Kept(Actionable, ds), first[i]);
      assert Actionable(first[i]);
    }
    forall i, j | 0 <= i < j < |first| ensures StrLe(first[i].identity, first[j].identity) {
      assert Earlier(first[i], first[j]) && HasNone(first[i]) && HasNone(first[j]);
    }
  }

  lemma RestAre(ds: seq<Difference>, rest: seq<Difference>)
    requires rest == Sorted(ByIdentity, Kept(Unactionable, ds))
    ensures forall i :: 0 <= i < |rest| ==> rest[i] in ds && !rest[i].state.Actionable()
    ensures forall i, j :: 0 <= i < j < |rest| ==> StrLe(rest[i].identity, rest[j].identity)
  {
    ByIdentityOrders();
    SortedPermutes(ByIdentity, Kept(Unactionable, ds));
    forall i | 0 <= i < |rest| ensures rest[i] in ds && !rest[i].state.Actionable() {
      PermutedIn(rest, Kept(Unactionable, ds), rest[i]);
      assert Unactionable(rest[i]);
    }
    forall i, j | 0 <= i < j < |rest| ensures StrLe(rest[i].identity, rest[j].identity) {
      assert ByIdentity(rest[i], rest[j]);
    }
  }

  /** An actionable difference of `ds` that no bounded operation resolves, as it is reported. */
  predicate Unsupportable(ds: seq<Difference>, reported: Difference) {
    exists d :: d in ds && d.state.Actionable() && ResolvingKind(d).None? && reported == d.(state := Unsupported)
  }

  /** Of what is reported, first come the differences no bounded operation resolves,
      as unsupported, then those that are not actionable, as they are; both by identity. */
  lemma ReportedInOrder(ds: seq<Difference>) returns (unsupported: seq<Difference>, rest: seq<Difference>)
    ensures Reported(ds) == unsupported + rest
    ensures forall i :: 0 <= i < |unsupported| ==> Unsupportable(ds, unsupported[i])
    ensures forall i :: 0 <= i < |rest| ==> rest[i] in ds && !rest[i].state.Actionable()
    ensures forall i, j :: 0 <= i < j < |unsupported| ==> StrLe(unsupported[i].identity, unsupported[j].identity)
    ensures forall i, j :: 0 <= i < j < |rest| ==> StrLe(rest[i].identity, rest[j].identity)
  {
    var first := Unresolved(ds);
    unsupported, rest := AsUnsupported(first), Sorted(ByIdentity, Kept(Unactionable, ds));
    UnresolvedAre(ds, first);
    RestAre(ds, rest);
    forall i | 0 <= i < |first| ensures Unsupportable(ds, unsupported[i]) {
      assert unsupported[i] == first[i].(state := Unsupported);
    }
  }

  // ------------------------------------------------------- one set, one plan

  function IdentityOf(d: Difference): Option<string> {
    Some(d.identity)
  }

  lemma {:induction false} KeptCounts(p: Difference -> bool, ds: seq<Difference>, d: Difference)
    ensures multiset(Kept(p, ds))[d] == if p(d) then multiset(ds)[d] else 0
  {
    if ds != [] {
      var before, last := ds[..|ds| - 1], ds[|ds| - 1];
      assert ds == before + [last];
      KeptCounts(p, before, d);
    }
  }

  lemma KeptPermuted(p: Difference -> bool, a: seq<Difference>, b: seq<Difference>)
    requires Permuted(a, b)
    ensures Permuted(Kept(p, a), Kept(p, b))
  {
    forall d ensures multiset(Kept(p, a))[d] == multiset(Kept(p, b))[d] {
      KeptCounts(p, a, d);
      KeptCounts(p, b, d);
    }
  }

  lemma {:induction false} KeptUnique(p: Difference -> bool, ds: seq<Difference>)
    requires UniqueBy(IdentityOf, ds)
    ensures UniqueBy(IdentityOf, Kept(p, ds))
  {
    if ds != [] {
      var before, last := ds[..|ds| - 1], ds[|ds| - 1];
      assert ds == before + [last];
      UniqueOneMore(IdentityOf, before, last);
      KeptUnique(p, before);
      UniqueOneMore(IdentityOf, Kept(p, before), last);
    }
  }

  /** An order that only elements of one identity tie in. */
  ghost predicate TiesByIdentity(le: (Difference, Difference) -> bool) {
    TotalPreorder(le) && forall a, b :: le(a, b) && le(b, a) ==> a.identity == b.identity
  }

  lemma OneSorted(le: (Difference, Difference) -> bool, a: seq<Difference>, b: seq<Difference>)
    requires TiesByIdentity(le) && UniqueBy(IdentityOf, a) && Permuted(a, b)
    ensures Sorted(le, a) == Sorted(le, b)
  {
    UniquePermuted(IdentityOf, a, b);
    SortedStrictly(le, a);
    SortedStrictly(le, b);
    SortedPermutes(le, a);
    SortedPermutes(le, b);
    OneStrictList(le, Sorted(le, a), Sorted(le, b));
  }

  lemma SortedStrictly(le: (Difference, Difference) -> bool, ds: seq<Difference>)
    requires TiesByIdentity(le) && UniqueBy(IdentityOf, ds)
    ensures StrictlyAscending(le, Sorted(le, ds))
  {
    var sorted := Sorted(le, ds);
    SortedPermutes(le, ds);
    UniquePermuted(IdentityOf, ds, sorted);
    forall i, j | 0 <= i < j < |sorted| ensures !le(sorted[j], sorted[i]) {
      assert IdentityOf(sorted[i]) != IdentityOf(sorted[j]) && le(sorted[i], sorted[j]);
    }
  }

  lemma TiesAreIdentities()
    ensures TiesByIdentity(Earlier) && TiesByIdentity(ByIdentity)
  {
    EarlierOrders();
    ByIdentityOrders();
    forall a: Difference, b: Difference | StrLe(a.identity, b.identity) && StrLe(b.identity, a.identity)
      ensures a.identity == b.identity
    {
      StrLeAntisymmetric(a.identity, b.identity);
    }
  }

  /** The same differences, listed in any order, always yield the same plan, when
      no two have one identity. */
  lemma PlanAnyOrder(a: seq<Difference>, b: seq<Difference>)
    requires UniqueBy(IdentityOf, a) && Permuted(a, b)
    ensures ActedOn(a) == ActedOn(b) && Reported(a) == Reported(b)
  {
    TiesAreIdentities();
    KeptUnique(Actionable, a);
    KeptUnique(Unactionable, a);
    KeptPermuted(Actionable, a, b);
    KeptPermuted(Unactionable, a, b);
    OneSorted(Earlier, Kept(Actionable, a), Kept(Actionable, b));
    OneSorted(ByIdentity, Kept(Unactionable, a), Kept(Unactionable, b));
  }

  /** The apply loop accepts the plan of any differences iff the catalog rollouts
      among them are well-formed and their number fits the order field. */
  lemma PlanAcceptedIff(ds: seq<Difference>, actions: seq<Action>)
    requires |actions| == |ActedOn(ds)|
    requires forall i :: 0 <= i < |actions| ==> actions[i] == ActionOf(ActedOn(ds)[i], OrderAt(i))
    ensures Acceptable(actions) <==> RolloutsWell(ds) && |ActedOn(ds)| <= 0xFFFF_FFFF
  {
    ActionsAcceptedIff(ActedOn(ds), actions);
    forall d ensures d in ActedOn(ds) <==> d in ds && ResolvingKind(d).Some? {
      ActedOnIff(ds, d);
    }
  }
}
