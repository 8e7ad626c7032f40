/** The plan an apply request carries: what its validation loop accepts. */
module ApplyPlan {
  import opened Wrappers
  import opened TextSearch

  // ------------------------------------------------------- the vocabulary

  datatype Drift = Missing | Extra | Changed | Unknown | Unsupported {
    function Id(): string {
      match this
      case Missing => "missing"
      case Extra => "extra"
      case Changed => "changed"
      case Unknown => "unknown"
      case Unsupported => "unsupported"
    }

    predicate Actionable() {
      Missing? || Extra? || Changed?
    }
  }

  function ParseDrift(text: string): (r: Option<Drift>)
    ensures forall d: Drift :: r == Some(d) ==> text == d.Id()
    ensures r.None? ==> forall d: Drift :: text != d.Id()
  {
    if text == Missing.Id() then Some(Missing)
    else if text == Extra.Id() then Some(Extra)
    else if text == Changed.Id() then Some(Changed)
    else if text == Unknown.Id() then Some(Unknown)
    else if text == Unsupported.Id() then Some(Unsupported)
    else None
  }

  /** The action kinds the apply workflow can execute. */
  datatype Kind = InstallTool | DeploySkill | UndeploySkill | RolloutCatalog | CloneProject {
    function Id(): string {
      match this
      case InstallTool => "mise.install"
      case DeploySkill => "skills.deploy"
      case UndeploySkill => "skills.undeploy"
      case RolloutCatalog => "skills.catalog-rollout"
      case CloneProject => "projects.clone"
    }

    /** What the identity of a difference this kind resolves begins with. */
    function Prefix(): string {
      match this
      case InstallTool => "tool:"
      case DeploySkill => "skill:"
      case UndeploySkill => "skill:"
      case RolloutCatalog => "catalog-skill:"
      case CloneProject => "checkout:"
    }

    /** The states this kind resolves. */
    predicate Resolves(state: Drift) {
      match this
      case UndeploySkill => state.Extra?
      case DeploySkill => state.Missing?
      case _ => state.Missing? || state.Changed?
    }
  }

  function ParseKind(text: string): (r: Option<Kind>)
    ensures forall k: Kind :: r == Some(k) ==> text == k.Id()
    ensures r.None? ==> forall k: Kind :: text != k.Id()
  {
    if text == InstallTool.Id() then Some(InstallTool)
    else if text == DeploySkill.Id() then Some(DeploySkill)
    else if text == UndeploySkill.Id() then Some(UndeploySkill)
    else if text == RolloutCatalog.Id() then Some(RolloutCatalog)
    else if text == CloneProject.Id() then Some(CloneProject)
    else None
  }

  lemma KindIdsDiffer(k: Kind)
    ensures ParseKind(k.Id()) == Some(k)
  {
    assert "mise.install"[0] == 'm' && "projects.clone"[0] == 'p';
    assert "skills.deploy"[7] == 'd' && "skills.undeploy"[7] == 'u' && "skills.catalog-rollout"[7] == 'c';
    assert "skills.deploy"[0] == 's' && "skills.undeploy"[0] == 's' && "skills.catalog-rollout"[0] == 's';
  }

  lemma DriftIdsDiffer(d: Drift)
    ensures ParseDrift(d.Id()) == Some(d)
  {
    assert "missing"[0] == 'm' && "extra"[0] == 'e' && "changed"[0] == 'c';
    assert |"unknown"| == 7 && |"unsupported"| == 11 && "unknown"[0] == 'u';
  }

  /** One action as submitted; orders are unsigned 32-bit numbers. */
  datatype Action = Action(order: nat, kind: string, identity: string, state: string, desired: Option<string>)

  // ------------------------------------------------------ catalog rollouts

  predicate AsciiHex(c: char) {
    '0' <= c <= '9' || 'a' <= c <= 'f' || 'A' <= c <= 'F'
  }

  predicate Blank(s: string) {
    Trim(s) == ""
  }

  /** The text around the last separator. */
  function SplitLast(s: string, sep: char): (r: Option<(string, string)>)
    ensures r.Some? ==> s == r.value.0 + [sep] + r.value.1 && sep !in r.value.1
    ensures r.None? <==> sep !in s
  {
    if s == [] then None
    else if s[|s| - 1] == sep then Some((s[..|s| - 1], ""))
    else match SplitLast(s[..|s| - 1], sep)
      case Some((a, b)) =>
        assert s == s[..|s| - 1] + [s[|s| - 1]];
        Some((a, b + [s[|s| - 1]]))
      case None => None
  }

  lemma LastOff(s: string, c: char, whole: string)
    requires whole == s + [c]
    ensures whole != [] && whole[..|whole| - 1] == s && whole[|whole| - 1] == c
  {
  }

  lemma Shifted(a: string, sep: char, b: string, c: char)
    ensures a + [sep] + (b + [c]) == (a + [sep] + b) + [c]
  {
  }

  lemma {:induction false} SplitLastAt(a: string, sep: char, b: string)
    requires sep !in b
    ensures SplitLast(a + [sep] + b, sep) == Some((a, b))
  {
    if b == [] {
      assert a + [sep] + b == a + [sep];
      LastOff(a, sep, a + [sep]);
    } else {
      var init, last := b[..|b| - 1], b[|b| - 1];
      assert b == init + [last];
      SplitLastAt(a, sep, init);
      Shifted(a, sep, init, last);
      LastOff(a + [sep] + init, last, a + [sep] + b);
    }
  }

  predicate HexDigest(s: string) {
    |s| == 64 && forall c :: c in s ==> AsciiHex(c)
  }

  /** The version pins this catalog: its id, an at sign, a digest. */
  predicate Pins(version: Option<string>, catalog: string) {
    version.Some?
    && var parts := SplitLast(version.value, '@');
       parts.Some? && parts.value.0 == catalog && HexDigest(parts.value.1)
  }

  /** The catalog and the agent a rollout identity names. */
  function RolloutOf(identity: string): Option<(string, string)> {
    var prefix := RolloutCatalog.Prefix();
    SplitOnce(if prefix <= identity then identity[|prefix|..] else "", '/')
  }

  predicate RolloutWell(identity: string, desired: Option<string>) {
    RolloutOf(identity).Some?
    && var (catalog, agent) := RolloutOf(identity).value;
       !Blank(catalog) && !Blank(agent) && '/' !in agent && Pins(desired, catalog)
  }

  // ------------------------------------------------------------- the loop

  datatype Refusal =
    | NoActions | NoPlan | UnknownKind | UnknownState | NotActionable | Mismatched | NoAgent | NotPinned | OutOfOrder

  /** What an action must be, by itself. */
  predicate WellPaired(a: Action) {
    && ParseKind(a.kind).Some? && ParseDrift(a.state).Some?
    && var kind := ParseKind(a.kind).value;
       && kind.Resolves(ParseDrift(a.state).value) && kind.Prefix() <= a.identity
       && (kind.RolloutCatalog? ==> RolloutWell(a.identity, a.desired))
  }

  predicate Increasing(actions: seq<Action>) {
    forall i, j :: 0 <= i < j < |actions| ==> actions[i].order < actions[j].order
  }

  predicate Acceptable(actions: seq<Action>) {
    Increasing(actions) && forall a :: a in actions ==> WellPaired(a)
  }

  // ---------------------------------------------- in the action's own texts

  /** The kinds of action and the states of a difference, as they are written. */
  predicate KindText(text: string) {
    || text == "mise.install" || text == "skills.deploy" || text == "skills.undeploy"
    || text == "skills.catalog-rollout" || text == "projects.clone"
  }

  predicate ActionableText(text: string) {
    text == "missing" || text == "extra" || text == "changed"
  }

  predicate UnactionableText(text: string) {
    text == "unknown" || text == "unsupported"
  }

  /** The action resolves what it names: tools, catalogs and checkouts that are
      missing or changed, skills that are missing or there are too many of. */
  predicate Matches(a: Action) {
    || (a.kind == "mise.install" && "tool:" <= a.identity && (a.state == "missing" || a.state == "changed"))
    || (a.kind == "skills.deploy" && "skill:" <= a.identity && a.state == "missing")
    || (a.kind == "skills.undeploy" && "skill:" <= a.identity && a.state == "extra")
    || (a.kind == "skills.catalog-rollout" && "catalog-skill:" <= a.identity
        && (a.state == "missing" || a.state == "changed"))
    || (a.kind == "projects.clone" && "checkout:" <= a.identity && (a.state == "missing" || a.state == "changed"))
  }

  /** A rollout of `catalog` at `digest` to `agent`. */
  predicate RollsOut(a: Action, catalog: string, agent: string, digest: string) {
    && a.identity == "catalog-skill:" + catalog + "/" + agent && a.desired == Some(catalog + "@" + digest)
    && '/' !in catalog && '/' !in agent && !Blank(catalog) && !Blank(agent)
    && |digest| == 64 && forall c :: c in digest ==> '0' <= c <= '9' || 'a' <= c <= 'f' || 'A' <= c <= 'F'
  }

  ghost predicate Pinned(a: Action) {
    exists catalog, agent, digest :: RollsOut(a, catalog, agent, digest)
  }

  /** What an action is refused for: of several reasons, the first. */
  ghost predicate RefusedFor(a: Action, refusal: Refusal) {
    match refusal
    case UnknownKind => !KindText(a.kind)
    case UnknownState => KindText(a.kind) && !ActionableText(a.state) && !UnactionableText(a.state)
    case NotActionable => KindText(a.kind) && UnactionableText(a.state)
    case Mismatched => KindText(a.kind) && ActionableText(a.state) && !Matches(a)
    case NoAgent => Matches(a) && a.kind == "skills.catalog-rollout" && '/' !in a.identity
    case NotPinned => Matches(a) && a.kind == "skills.catalog-rollout" && '/' in a.identity && !Pinned(a)
    case _ => false
  }

  lemma KindReads(text: string)
    ensures ParseKind(text) == Some(InstallTool) <==> text == "mise.install"
    ensures ParseKind(text) == Some(DeploySkill) <==> text == "skills.deploy"
    ensures ParseKind(text) == Some(UndeploySkill) <==> text == "skills.undeploy"
    ensures ParseKind(text) == Some(RolloutCatalog) <==> text == "skills.catalog-rollout"
    ensures ParseKind(text) == Some(CloneProject) <==> text == "projects.clone"
  {
    KindIdsDiffer(InstallTool);
    KindIdsDiffer(DeploySkill);
    KindIdsDiffer(UndeploySkill);
    KindIdsDiffer(RolloutCatalog);
    KindIdsDiffer(CloneProject);
  }

  lemma StateReads(text: string)
    ensures ParseDrift(text) == Some(Missing) <==> text == "missing"
    ensures ParseDrift(text) == Some(Extra) <==> text == "extra"
    ensures ParseDrift(text) == Some(Changed) <==> text == "changed"
    ensures ParseDrift(text) == Some(Unknown) <==> text == "unknown"
    ensures ParseDrift(text) == Some(Unsupported) <==> text == "unsupported"
  {
    DriftIdsDiffer(Missing);
    DriftIdsDiffer(Extra);
    DriftIdsDiffer(Changed);
    DriftIdsDiffer(Unknown);
    DriftIdsDiffer(Unsupported);
  }

  /** The prefix a kind of action asks of its identity. */
  lemma PrefixReads(kind: Kind, identity: string)
    ensures kind.InstallTool? ==> (kind.Prefix() <= identity <==> "tool:" <= identity)
    ensures kind.DeploySkill? || kind.UndeploySkill? ==> (kind.Prefix() <= identity <==> "skill:" <= identity)
    ensures kind.RolloutCatalog? ==> (kind.Prefix() <= identity <==> "catalog-skill:" <= identity)
    ensures kind.CloneProject? ==> (kind.Prefix() <= identity <==> "checkout:" <= identity)
  {
  }

  /** The text tells the kind. */
  lemma KindOfText(a: Action)
    ensures ParseKind(a.kind).Some? <==> KindText(a.kind)
    ensures a.kind == "skills.catalog-rollout" <==> ParseKind(a.kind) == Some(RolloutCatalog)
  {
    KindReads(a.kind);
  }

  lemma StateOfText(a: Action)
    ensures ParseDrift(a.state).Some? <==> ActionableText(a.state) || UnactionableText(a.state)
    ensures ParseDrift(a.state).Some? ==> (ParseDrift(a.state).value.Actionable() <==> ActionableText(a.state))
    ensures !(ActionableText(a.state) && UnactionableText(a.state))
  {
    StateReads(a.state);
  }

  lemma MatchesIff(a: Action, kind: Kind, state: Drift)
    requires ParseKind(a.kind) == Some(kind) && ParseDrift(a.state) == Some(state)
    ensures Matches(a) <==> kind.Resolves(state) && kind.Prefix() <= a.identity
  {
    KindReads(a.kind);
    StateReads(a.state);
    PrefixReads(kind, a.identity);
  }

  lemma MatchingParses(a: Action)
    requires Matches(a)
    ensures ParseKind(a.kind).Some? && ParseDrift(a.state).Some?
  {
    KindReads(a.kind);
    StateReads(a.state);
  }

  lemma NoSlashInPrefix()
    ensures '/' !in "catalog-skill:"
  {
  }

  lemma SplitsAfter(prefix: string, tail: string, whole: string)
    requires whole == prefix + tail && '/' !in prefix
    ensures SplitOnce(tail, '/').Some? <==> '/' in whole
    ensures SplitOnce(tail, '/').Some? ==>
      var (a, b) := SplitOnce(tail, '/').value;
      whole == prefix + a + "/" + b && '/' !in a
  {
  }

  lemma PrefixTaken(prefix: string, identity: string)
    requires prefix <= identity
    ensures identity == prefix + identity[|prefix|..]
  {
  }

  lemma RolloutSplits(a: Action)
    requires "catalog-skill:" <= a.identity
    ensures RolloutOf(a.identity).Some? <==> '/' in a.identity
    ensures RolloutOf(a.identity).Some? ==>
      var (catalog, agent) := RolloutOf(a.identity).value;
      a.identity == "catalog-skill:" + catalog + "/" + agent && '/' !in catalog
  {
    var prefix := RolloutCatalog.Prefix();
    NoSlashInPrefix();
    PrefixTaken(prefix, a.identity);
    SplitsAfter(prefix, a.identity[|prefix|..], a.identity);
  }

  lemma PinnedIff(a: Action)
    requires "catalog-skill:" <= a.identity
    ensures RolloutWell(a.identity, a.desired) <==> Pinned(a)
  {
    if RolloutWell(a.identity, a.desired) {
      RolloutSplits(a);
      var (catalog, agent) := RolloutOf(a.identity).value;
      var parts := SplitLast(a.desired.value, '@').value;
      assert RollsOut(a, catalog, agent, parts.1);
    }
    if Pinned(a) {
      var catalog, agent, digest :| RollsOut(a, catalog, agent, digest);
      RolledOut(a, catalog, agent, digest);
    }
  }

  lemma TailIs(prefix: string, a: string, separator: string, b: string, whole: string)
    requires whole == prefix + a + separator + b
    ensures prefix <= whole && whole[|prefix|..] == a + separator + b
  {
    assert whole == prefix + (a + separator + b);
  }

  lemma RolledOut(a: Action, catalog: string, agent: string, digest: string)
    requires RollsOut(a, catalog, agent, digest)
    ensures RolloutWell(a.identity, a.desired)
  {
    var prefix := RolloutCatalog.Prefix();
    TailIs(prefix, catalog, "/", agent, a.identity);
    SplitOnceAt(catalog, '/', agent);
    assert a.desired.value == catalog + ['@'] + digest;
    SplitLastAt(catalog, '@', digest);
  }

  /** An action is paired right iff it matches what it names and pins what it rolls out. */
  lemma WellPairedIff(a: Action)
    ensures WellPaired(a) <==> Matches(a) && (a.kind == "skills.catalog-rollout" ==> Pinned(a))
  {
    KindOfText(a);
    if Matches(a) { MatchingParses(a); }
    if ParseKind(a.kind).Some? && ParseDrift(a.state).Some? {
      MatchesIff(a, ParseKind(a.kind).value, ParseDrift(a.state).value);
      PrefixReads(ParseKind(a.kind).value, a.identity);
      if "catalog-skill:" <= a.identity { PinnedIff(a); }
    }
  }

  method CheckRollout(a: Action) returns (refusal: Option<Refusal>)
    ensures refusal.None? <==> RolloutWell(a.identity, a.desired)
    ensures refusal == Some(NoAgent) <==> RolloutOf(a.identity).None?
    ensures refusal.Some? ==> refusal.value.NoAgent? || refusal.value.NotPinned?
  {
    var parts := RolloutOf(a.identity);
    if parts.None? {
      return Some(NoAgent);
    }
    var (catalog, agent) := parts.value;
    if Blank(catalog) || Blank(agent) || '/' in agent || !Pins(a.desired, catalog) {
      return Some(NotPinned);
    }
    return None;
  }

  method CheckAction(a: Action) returns (refusal: Option<Refusal>)
    ensures refusal.None? <==> WellPaired(a)
    ensures refusal.Some? ==> RefusedFor(a, refusal.value)
  {
    KindOfText(a);
    StateOfText(a);
    var kind := ParseKind(a.kind);
    if kind.None? {
      return Some(UnknownKind);
    }
    var state := ParseDrift(a.state);
    if state.None? {
      return Some(UnknownState);
    }
    if !state.value.Actionable() {
      return Some(NotActionable);
    }
    MatchesIff(a, kind.value, state.value);
    if !kind.value.Resolves(state.value) || !(kind.value.Prefix() <= a.identity) {
      return Some(Mismatched);
    }
    if kind.value.RolloutCatalog? {
      PrefixReads(kind.value, a.identity);
      PinnedIff(a);
      RolloutSplits(a);
      refusal := CheckRollout(a);
    } else {
      refusal := None;
    }
  }

  /** The running check accepts iff the whole order list is strictly increasing
      and every action is paired correctly; a refusal is at the first action that
      breaks this. */
  method ValidatePlan(planId: string, actions: seq<Action>) returns (refusal: Option<Refusal>, at: nat)
    ensures refusal.None? <==> actions != [] && planId != "" && Acceptable(actions)
    ensures refusal == Some(NoActions) <==> actions == []
    ensures refusal == Some(NoPlan) <==> actions != [] && planId == ""
    ensures refusal.Some? && !refusal.value.NoActions? && !refusal.value.NoPlan? ==>
      at < |actions| && Acceptable(actions[..at]) && !Acceptable(actions[..at + 1])
        && (refusal.value.OutOfOrder? || RefusedFor(actions[at], refusal.value))
    ensures refusal == Some(OutOfOrder) ==> at < |actions| && WellPaired(actions[at]) && !Increasing(actions[..at + 1])
  {
    at := 0;
    if actions == [] {
      return Some(NoActions), 0;
    }
    if planId == "" {
      return Some(NoPlan), 0;
    }
    var previous: Option<nat> := None;
    while at < |actions|
      invariant at <= |actions| && Acceptable(actions[..at])
      invariant previous == if at == 0 then None else Some(actions[at - 1].order)
    {
      var a := actions[at];
      refusal := CheckAction(a);
      if refusal.Some? {
        NotAcceptable(actions, at);
        return;
      }
      if previous.Some? && a.order <= previous.value {
        assert actions[..at + 1][at - 1].order >= actions[..at + 1][at].order;
        NotAcceptable(actions, at);
        return Some(OutOfOrder), at;
      }
      OneMoreAcceptable(actions, at);
      previous := Some(a.order);
      at := at + 1;
    }
    assert actions[..|actions|] == actions;
    return None, at;
  }

  lemma OneMoreAcceptable(actions: seq<Action>, at: nat)
    requires at < |actions| && Acceptable(actions[..at]) && WellPaired(actions[at])
    requires at > 0 ==> actions[at - 1].order < actions[at].order
    ensures Acceptable(actions[..at + 1])
  {
    var before, upTo := actions[..at], actions[..at + 1];
    assert upTo == before + [actions[at]];
    if at > 0 { assert before[at - 1] == actions[at - 1]; }
  }

  lemma NotAcceptable(actions: seq<Action>, at: nat)
    requires at < |actions| && (!WellPaired(actions[at]) || (at > 0 && actions[at].order <= actions[at - 1].order))
    ensures !Acceptable(actions) && !Acceptable(actions[..at + 1])
  {
    var upTo := actions[..at + 1];
    assert upTo[at] == actions[at] && actions[at] in upTo;
    assert at > 0 ==> upTo[at - 1] == actions[at - 1];
  }
}
