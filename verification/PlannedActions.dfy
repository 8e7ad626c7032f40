/** What the planner makes of a difference set, and that the apply loop takes it. */
module PlannedActions {
  import opened Wrappers
  import opened ApplyPlan

  datatype Difference = Difference(identity: string, state: Drift, desired: Option<string>)

  /** The kind that resolves a difference, by its identity and its state. */
  function ResolvingKind(d: Difference): Option<Kind> {
    if InstallTool.Prefix() <= d.identity then
      (if d.state.Missing? || d.state.Changed? then Some(InstallTool) else None)
    else if DeploySkill.Prefix() <= d.identity then
      (if d.state.Missing? then Some(DeploySkill) else if d.state.Extra? then Some(UndeploySkill) else None)
    else if RolloutCatalog.Prefix() <= d.identity then
      (if d.state.Missing? || d.state.Changed? then Some(RolloutCatalog) else None)
    else if CloneProject.Prefix() <= d.identity then
      (if d.state.Missing? || d.state.Changed? then Some(CloneProject) else None)
    else None
  }

  /** What each kind of action is for. */
  lemma KindOfAction(d: Difference)
    ensures var kind := ResolvingKind(d);
      && (kind.Some? && kind.value.Id() == "mise.install" <==>
            "tool:" <= d.identity && (d.state.Missing? || d.state.Changed?))
      && (kind.Some? && kind.value.Id() == "skills.deploy" <==> "skill:" <= d.identity && d.state.Missing?)
      && (kind.Some? && kind.value.Id() == "skills.undeploy" <==> "skill:" <= d.identity && d.state.Extra?)
      && (kind.Some? && kind.value.Id() == "skills.catalog-rollout" <==>
            "catalog-skill:" <= d.identity && (d.state.Missing? || d.state.Changed?))
      && (kind.Some? && kind.value.Id() == "projects.clone" <==>
            "checkout:" <= d.identity && (d.state.Missing? || d.state.Changed?))
  {
    PairedIffPlanned(InstallTool, d);
    PairedIffPlanned(DeploySkill, d);
    PairedIffPlanned(UndeploySkill, d);
    PairedIffPlanned(RolloutCatalog, d);
    PairedIffPlanned(CloneProject, d);
    if ResolvingKind(d).Some? { KindIds(ResolvingKind(d).value); }
  }

  lemma KindIds(kind: Kind)
    ensures kind.Id() == "mise.install" <==> kind == InstallTool
    ensures kind.Id() == "skills.deploy" <==> kind == DeploySkill
    ensures kind.Id() == "skills.undeploy" <==> kind == UndeploySkill
    ensures kind.Id() == "skills.catalog-rollout" <==> kind == RolloutCatalog
    ensures kind.Id() == "projects.clone" <==> kind == CloneProject
  {
    KindIdsDiffer(kind);
    KindIdsDiffer(InstallTool);
    KindIdsDiffer(DeploySkill);
    KindIdsDiffer(UndeploySkill);
    KindIdsDiffer(RolloutCatalog);
    KindIdsDiffer(CloneProject);
  }

  const MAX_ORDER := 0xFFFF_FFFF

  function OrderAt(position: nat): nat {
    if position + 1 <= MAX_ORDER then position + 1 else MAX_ORDER
  }

  function ActionOf(d: Difference, order: nat): Action
    requires ResolvingKind(d).Some?
  {
    Action(order, ResolvingKind(d).value.Id(), d.identity, d.state.Id(), d.desired)
  }

  /** No identity has the prefixes of two kinds of difference. */
  lemma PrefixesApart(identity: string, a: Kind, b: Kind)
    requires a.Prefix() <= identity && b.Prefix() <= identity
    ensures a.Prefix() == b.Prefix()
  {
    assert "tool:"[0] == 't' && "skill:"[0] == 's' && "catalog-skill:"[0] == 'c' && "checkout:"[0] == 'c';
    assert "catalog-skill:"[1] == 'a' && "checkout:"[1] == 'h';
    assert identity[0] == a.Prefix()[0] == b.Prefix()[0] && identity[1] == a.Prefix()[1] == b.Prefix()[1];
  }

  /** The apply loop pairs a kind with a difference exactly when the planner does. */
  lemma PairedIffPlanned(kind: Kind, d: Difference)
    ensures kind.Resolves(d.state) && kind.Prefix() <= d.identity <==> ResolvingKind(d) == Some(kind)
  {
    var first := if InstallTool.Prefix() <= d.identity then InstallTool
                 else if DeploySkill.Prefix() <= d.identity then DeploySkill
                 else if RolloutCatalog.Prefix() <= d.identity then RolloutCatalog else CloneProject;
    if kind.Prefix() <= d.identity {
      PrefixesApart(d.identity, kind, first);
      PrefixTellsKind(kind, first);
    }
  }

  lemma PrefixTellsKind(a: Kind, b: Kind)
    ensures a.Prefix() == b.Prefix() ==>
      a == b || (a.DeploySkill? && b.UndeploySkill?) || (a.UndeploySkill? && b.DeploySkill?)
  {
    assert "tool:"[0] == 't' && "skill:"[0] == 's' && "catalog-skill:"[1] == 'a' && "checkout:"[1] == 'h';
    assert "catalog-skill:"[0] == 'c' && "checkout:"[0] == 'c';
  }

  lemma PlannedIsPaired(d: Difference, order: nat)
    requires ResolvingKind(d).Some?
    ensures WellPaired(ActionOf(d, order)) <==>
      (ResolvingKind(d) == Some(RolloutCatalog) ==> RolloutWell(d.identity, d.desired))
  {
    var kind := ResolvingKind(d).value;
    KindIdsDiffer(kind);
    DriftIdsDiffer(d.state);
    PairedIffPlanned(kind, d);
  }

  /** Every catalog rollout among some differences is well-formed. */
  predicate RolloutsWell(ds: seq<Difference>) {
    forall d :: d in ds && ResolvingKind(d) == Some(RolloutCatalog) ==> RolloutWell(d.identity, d.desired)
  }

  /** The apply loop accepts actions for resolvable differences, in any order, iff
      the catalog rollouts among them are well-formed and their number fits the
      order field. */
  lemma ActionsAcceptedIff(ds: seq<Difference>, actions: seq<Action>)
    requires |actions| == |ds| && forall d :: d in ds ==> ResolvingKind(d).Some?
    requires forall i :: 0 <= i < |actions| ==> actions[i] == ActionOf(ds[i], OrderAt(i))
    ensures Acceptable(actions) <==> RolloutsWell(ds) && |actions| <= 0xFFFF_FFFF
  {
    if |actions| > MAX_ORDER {
      assert actions[MAX_ORDER - 1].order == actions[MAX_ORDER].order;
    }
    forall i | 0 <= i < |actions|
      ensures WellPaired(actions[i]) <==>
        (ResolvingKind(ds[i]) == Some(RolloutCatalog) ==> RolloutWell(ds[i].identity, ds[i].desired))
    {
      PlannedIsPaired(ds[i], OrderAt(i));
    }
    if RolloutsWell(ds) {
      forall a | a in actions ensures WellPaired(a) {
        var i :| 0 <= i < |actions| && actions[i] == a;
        assert ds[i] in ds;
      }
    } else {
      var d :| d in ds && ResolvingKind(d) == Some(RolloutCatalog) && !RolloutWell(d.identity, d.desired);
      var i :| 0 <= i < |ds| && ds[i] == d;
      assert actions[i] in actions && !WellPaired(actions[i]);
    }
  }
}
