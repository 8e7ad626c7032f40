/** Catalog pins from the desired state to the apply loop: what the schema
    accepts, the loop can execute. */
module CatalogPins {
  import opened Wrappers
  import opened Redaction
  import opened TextSearch
  import opened ApplyPlan
  import opened PlannedActions

  predicate LowerHexDigest(s: string) {
    |s| == 64 && forall c :: c in s ==> '0' <= c <= '9' || 'a' <= c <= 'f'
  }

  function AfterPrefix(s: string, prefix: string): Option<string> {
    if prefix <= s then Some(s[|prefix|..]) else None
  }

  /** The version is the catalog's own: its id, an at sign, a lowercase digest. */
  predicate VersionOf(catalog: string, version: string) {
    match AfterPrefix(version, catalog)
    case None => false
    case Some(suffix) => suffix != "" && suffix[0] == '@' && LowerHexDigest(suffix[1..])
  }

  /** A pin the collection validator accepts on a skill preset. */
  predicate PinAccepted(catalog: string, version: string) {
    !Blank(catalog) && !Blank(version) && '/' !in catalog && '/' !in version && VersionOf(catalog, version)
  }

  /** A skill or agent id it accepts. */
  predicate IdAccepted(id: string) {
    !Blank(id) && '/' !in id
  }

  /** The identity of a pinned deployment; `scrub` is the credential scrubber. */
  function RolloutIdentity(scrub: string -> string, catalog: string, agent: string): string {
    RolloutCatalog.Prefix() + scrub(catalog) + ['/'] + scrub(agent)
  }

  lemma VersionSplits(catalog: string, version: string)
    requires VersionOf(catalog, version)
    ensures SplitLast(version, '@').Some? && SplitLast(version, '@').value.0 == catalog
      && HexDigest(SplitLast(version, '@').value.1)
  {
    var digest := version[|catalog|..][1..];
    assert version == catalog + ['@'] + digest;
    assert '@' !in digest;
    SplitLastAt(catalog, '@', digest);
  }

  lemma PrefixDrops(prefix: string, a: string, sep: char, b: string)
    ensures prefix <= prefix + a + [sep] + b && (prefix + a + [sep] + b)[|prefix|..] == a + [sep] + b
  {
  }

  lemma IdentitySplits(scrub: string -> string, catalog: string, agent: string)
    ensures '/' !in scrub(catalog) ==>
      RolloutOf(RolloutIdentity(scrub, catalog, agent)) == Some((scrub(catalog), scrub(agent)))
    ensures '/' in scrub(catalog) ==>
      RolloutOf(RolloutIdentity(scrub, catalog, agent)).Some?
        && '/' in RolloutOf(RolloutIdentity(scrub, catalog, agent)).value.1
  {
    PrefixDrops(RolloutCatalog.Prefix(), scrub(catalog), '/', scrub(agent));
    if '/' !in scrub(catalog) {
      SplitOnceAt(scrub(catalog), '/', scrub(agent));
    } else {
      var parts := SplitOnce(scrub(catalog), '/').value;
      var after := parts.1 + ['/'] + scrub(agent);
      assert scrub(catalog) + ['/'] + scrub(agent) == parts.0 + ['/'] + after;
      SplitOnceAt(parts.0, '/', after);
      assert after[|parts.1|] == '/';
    }
  }

  /** A pin the schema accepts is executable for an agent iff the scrubber leaves
      the catalog id alone and the agent id usable; at signs and white space in
      the ids do not matter. */
  lemma PinExecutableIff(scrub: string -> string, catalog: string, version: string, agent: string)
    requires PinAccepted(catalog, version) && IdAccepted(agent)
    ensures RolloutWell(RolloutIdentity(scrub, catalog, agent), Some(version)) <==>
      scrub(catalog) == catalog && IdAccepted(scrub(agent))
  {
    VersionSplits(catalog, version);
    IdentitySplits(scrub, catalog, agent);
  }

  /** Such a pin reads back as itself iff the scrubber leaves both ids alone. */
  lemma PinDecodesIff(scrub: string -> string, catalog: string, version: string, agent: string)
    requires PinAccepted(catalog, version) && IdAccepted(agent)
    ensures var identity := RolloutIdentity(scrub, catalog, agent);
      RolloutWell(identity, Some(version)) && RolloutOf(identity) == Some((catalog, agent)) <==>
        scrub(catalog) == catalog && scrub(agent) == agent
  {
    PinExecutableIff(scrub, catalog, version, agent);
    IdentitySplits(scrub, catalog, agent);
  }

  /** An accepted pin is planned as a rollout; it is accepted by the apply loop and
      decoded back to itself iff the scrubber leaves both ids alone. */
  lemma PinRoundTrip(scrub: string -> string, catalog: string, version: string, agent: string, state: Drift, order: nat)
    requires PinAccepted(catalog, version) && IdAccepted(agent) && (state.Missing? || state.Changed?)
    ensures var d := Difference(RolloutIdentity(scrub, catalog, agent), state, Some(version));
      && ResolvingKind(d) == Some(RolloutCatalog)
      && (WellPaired(ActionOf(d, order)) && RolloutOf(d.identity) == Some((catalog, agent)) <==>
            scrub(catalog) == catalog && scrub(agent) == agent)
  {
    var d := Difference(RolloutIdentity(scrub, catalog, agent), state, Some(version));
    PrefixDrops(RolloutCatalog.Prefix(), scrub(catalog), '/', scrub(agent));
    PairedIffPlanned(RolloutCatalog, d);
    PinDecodesIff(scrub, catalog, version, agent);
    PlannedIsPaired(d, order);
  }

  /** Two pins share an identity iff the scrubber makes their ids the same; their
      versions do not enter. */
  lemma PinsApart(scrub: string -> string, catalog: string, agent: string, catalog2: string, agent2: string)
    requires '/' !in scrub(catalog) && '/' !in scrub(catalog2)
    ensures RolloutIdentity(scrub, catalog, agent) == RolloutIdentity(scrub, catalog2, agent2) <==>
      scrub(catalog) == scrub(catalog2) && scrub(agent) == scrub(agent2)
  {
    IdentitySplits(scrub, catalog, agent);
    IdentitySplits(scrub, catalog2, agent2);
  }

  // ---------------------------------------------------- the real scrubber

  /** The scrubber adds no slash, so no two identities of accepted pins run into
      each other: they are one iff the scrubbed ids are. */
  lemma AcceptedPinsApart(catalog: string, version: string, agent: string, catalog2: string, version2: string,
                          agent2: string)
    requires PinAccepted(catalog, version) && PinAccepted(catalog2, version2)
    ensures RolloutIdentity(Redacted, catalog, agent) == RolloutIdentity(Redacted, catalog2, agent2) <==>
      Redacted(catalog) == Redacted(catalog2) && Redacted(agent) == Redacted(agent2)
  {
    OnlyMaskAdded(IsWhitespace, catalog, 0);
    OnlyMaskAdded(IsWhitespace, catalog2, 0);
    PinsApart(Redacted, catalog, agent, catalog2, agent2);
  }

  /** Ids without an at sign or without a colon are executed as they are. */
  lemma PlainPinsExecute(catalog: string, version: string, agent: string)
    requires PinAccepted(catalog, version) && IdAccepted(agent)
    requires ('@' !in catalog || ':' !in catalog) && ('@' !in agent || ':' !in agent)
    ensures var identity := RolloutIdentity(Redacted, catalog, agent);
      RolloutWell(identity, Some(version)) && RolloutOf(identity) == Some((catalog, agent))
  {
    PlainKept(catalog);
    PlainKept(agent);
    PinDecodesIff(Redacted, catalog, version, agent);
  }

  /** A user, a password and a host, none of them with a delimiter in it. */
  predicate Credential(user: string, password: string, host: string) {
    user != "" && ':' !in user && Simple(user) && password != "" && Simple(password) && Simple(host)
  }

  function Spelled(user: string, password: string, host: string): string {
    user + [':'] + password + ['@'] + host
  }

  /** A catalog id that reads as a credential passes the schema and is refused by
      the apply loop, for every agent. */
  lemma CredentialCatalogRefused(user: string, password: string, host: string, version: string, agent: string)
    requires Credential(user, password, host)
    requires PinAccepted(Spelled(user, password, host), version) && IdAccepted(agent)
    ensures !RolloutWell(RolloutIdentity(Redacted, Spelled(user, password, host), agent), Some(version))
  {
    CredentialMasked(user, password, host);
    PinExecutableIff(Redacted, Spelled(user, password, host), version, agent);
    MaskDiffers(user, password, host);
  }

  lemma MaskDiffers(user: string, password: string, host: string)
    requires user != "" && password != ""
    ensures "***@" + host != Spelled(user, password, host)
  {
    var text, masked := Spelled(user, password, host), "***@" + host;
    assert text[|user|] == ':' && |text| == |user| + |password| + 2 + |host|;
    assert |masked| == |text| ==> |user| == 1;
    assert masked[1] == '*';
  }

  lemma FirstNotBlank(s: string)
    requires s != "" && !IsWhitespace(s[0])
    ensures !Blank(s)
  {
    TrimEndKeeps(s);
  }

  lemma {:induction false} TrimEndKeeps(s: string)
    requires s != "" && !IsWhitespace(s[0])
    ensures TrimEnd(s) != ""
  {
    if IsWhitespace(s[|s| - 1]) { TrimEndKeeps(s[..|s| - 1]); }
  }

  lemma MaskedHostAccepted(host: string)
    requires Simple(host)
    ensures IdAccepted("***@" + host)
  {
    FirstNotBlank("***@" + host);
    assert '/' !in host;
  }

  lemma SpelledAccepted(user: string, password: string, host: string)
    requires Credential(user, password, host)
    ensures IdAccepted(Spelled(user, password, host)) && Redacted(Spelled(user, password, host)) == "***@" + host
  {
    CredentialMasked(user, password, host);
    assert Spelled(user, password, host)[0] == user[0] && user[0] in user;
    FirstNotBlank(Spelled(user, password, host));
  }

  /** Two agent ids that read as credentials for one host are accepted by the
      schema, share an identity, and the rollout is accepted by the apply loop and
      decoded to an agent that is neither. */
  lemma CredentialAgentsCollide(catalog: string, version: string, user: string, password: string,
                                user2: string, password2: string, host: string)
    requires PinAccepted(catalog, version) && Redacted(catalog) == catalog
    requires Credential(user, password, host) && Credential(user2, password2, host)
    ensures IdAccepted(Spelled(user, password, host)) && IdAccepted(Spelled(user2, password2, host))
    ensures var identity := RolloutIdentity(Redacted, catalog, Spelled(user, password, host));
      && identity == RolloutIdentity(Redacted, catalog, Spelled(user2, password2, host))
      && RolloutWell(identity, Some(version)) && RolloutOf(identity) == Some((catalog, "***@" + host))
  {
    SpelledAccepted(user, password, host);
    SpelledAccepted(user2, password2, host);
    MaskedHostAccepted(host);
    PinExecutableIff(Redacted, catalog, version, Spelled(user, password, host));
    IdentitySplits(Redacted, catalog, Spelled(user, password, host));
  }

  /** For one, the catalog `a:b@c`, and the agents `u:p@h` and `v:q@h`. */
  lemma PinsThatFail()
    ensures Credential("a", "b", "c") && Spelled("a", "b", "c") == "a:b@c"
    ensures Credential("u", "p", "h") && Spelled("u", "p", "h") == "u:p@h"
    ensures Credential("v", "q", "h") && Spelled("v", "q", "h") == "v:q@h"
  {
    Letters('a', 'b', 'c');
    Letters('u', 'p', 'h');
    Letters('v', 'q', 'h');
  }

  lemma Letters(user: char, password: char, host: char)
    requires 'a' <= user <= 'z' && 'a' <= password <= 'z' && 'a' <= host <= 'z'
    ensures Credential([user], [password], [host])
      && Spelled([user], [password], [host]) == [user, ':', password, '@', host]
  {
  }
}
