/** What it means for the semantic checks of a document to report nothing. */
module SemanticMeaning {
  import opened Wrappers
  import opened TextSearch
  import opened JsonValues
  import opened Documents
  import opened Permutations
  import opened CatalogPins
  import opened ApplyPlan
  import opened DocumentChecks

  // -------------------------------------------------------------- meaning

  /** A reference with a user and a password before its first at sign. */
  ghost predicate NamesPassword(reference: string) {
    exists user, host :: Splits(reference, user, host) && ':' in user
  }

  predicate Splits(reference: string, user: string, host: string) {
    reference == user + ['@'] + host && '@' !in user
  }

  ghost predicate EndpointRight(endpoint: Json) {
    forall reference :: AsStr(Get(endpoint, "reference")) == Some(reference) ==> !NamesPassword(reference)
  }

  predicate HasInk(text: string) {
    exists c :: c in text && !IsWhitespace(c)
  }

  /** A text that is more than white space, without a slash. */
  predicate Usable(id: string) {
    HasInk(id) && '/' !in id
  }

  /** A version id made of the catalog's id and a digest. */
  ghost predicate PinsCatalog(catalog: string, version: string) {
    exists digest :: version == catalog + ['@'] + digest && LowerHexDigest(digest)
  }

  /** Catalog and version are both left out, or the version pins a usable catalog. */
  ghost predicate PinRight(catalog: Option<string>, version: Option<string>) {
    || (catalog.None? && version.None?)
    || (catalog.Some? && version.Some? && Usable(catalog.value)
        && PinsCatalog(catalog.value, version.value))
  }

  /** Every text among the values is an id. */
  predicate IdsRight(values: seq<Json>) {
    forall v :: v in values && v.Str? ==> Usable(v.str)
  }

  ghost predicate PresetRight(spec: Json) {
    && PinRight(AsStr(Get(spec, "catalogId")), AsStr(Get(spec, "catalogVersionId")))
    && (forall id :: AsStr(Get(spec, "skillId")) == Some(id) ==> Usable(id))
    && IdsRight(AsArr(Get(spec, "deployTo"))) && IdsRight(AsArr(Get(spec, "denyAgents")))
  }

  /** What the document's kind asks beyond its schema. */
  ghost predicate Sound(k: Checkers, document: Json) {
    var kind := KindOf(document);
    && (kind == "SkillPreset" && Get(document, "spec").Some? ==> PresetRight(Get(document, "spec").value))
    && (kind == "LabTemplate" ==> UniqueBy(Device, AsArr(Get2(document, "spec", "hardware"))))
    && (kind == "Machine" ==> forall e :: e in AsArr(Get2(document, "spec", "endpoints")) ==> EndpointRight(e))
    && (kind == "Project" ==>
          forall remote :: AsStr(Get2(document, "spec", "remote")) == Some(remote) ==> k.remote(remote))
  }

  // ---------------------------------------------------------- one kind each

  /** A hardware list is clean iff no two devices name one reservation. */
  lemma {:induction false} HardwareFineIff(base: string, hardware: seq<Json>)
    ensures HardwareErrors(base, hardware) == [] <==> UniqueBy(Device, hardware)
  {
    if hardware != [] {
      var before, last := hardware[..|hardware| - 1], hardware[|hardware| - 1];
      assert hardware == before + [last];
      HardwareFineIff(base, before);
      UniqueOneMore(Device, before, last);
    }
  }

  lemma CarriesIff(endpoint: Json)
    ensures CarriesCredential(endpoint) <==> !EndpointRight(endpoint)
  {
    var text := AsStr(Get(endpoint, "reference"));
    if text.Some? {
      var reference := text.value;
      var split := SplitOnce(reference, '@');
      if NamesPassword(reference) {
        var user, host :| Splits(reference, user, host) && ':' in user;
        SplitOnceAt(user, '@', host);
      } else if split.Some? {
        assert Splits(reference, split.value.0, split.value.1);
      }
    }
  }

  /** Endpoints are clean iff none has a colon before the first at sign of its
      reference. */
  lemma {:induction false} EndpointsFineIff(base: string, endpoints: seq<Json>)
    ensures EndpointErrors(base, endpoints) == [] <==> forall e :: e in endpoints ==> EndpointRight(e)
  {
    if endpoints != [] {
      var before, last := endpoints[..|endpoints| - 1], endpoints[|endpoints| - 1];
      assert endpoints == before + [last];
      EndpointsFineIff(base, before);
      CarriesIff(last);
    }
  }

  lemma {:induction false} IdErrorsIff(base: string, field: string, items: seq<Item>)
    ensures IdErrors(base, field, items) == [] <==> forall item :: item in items ==> Usable(item.text)
  {
    if items != [] {
      var before, last := items[..|items| - 1], items[|items| - 1];
      assert items == before + [last];
      IdErrorsIff(base, field, before);
      UsableIff(last.text);
    }
  }

  lemma IdsFineIff(base: string, field: string, values: seq<Json>)
    ensures IdErrors(base, field, StringItems(values)) == [] <==> IdsRight(values)
  {
    var items := StringItems(values);
    IdErrorsIff(base, field, items);
    if IdsRight(values) {
      forall item | item in items ensures Usable(item.text) {
        var n :| 0 <= n < |items| && items[n] == item;
        assert values[items[n].index] in values;
      }
    }
    if forall item :: item in items ==> Usable(item.text) {
      forall v | v in values && v.Str? ensures Usable(v.str) {
        var i :| 0 <= i < |values| && values[i] == v;
        assert Item(i, v.str) in items;
      }
    }
  }

  lemma {:induction false} TrimStartIff(text: string)
    ensures TrimStart(text) != "" <==> HasInk(text)
  {
    if text != "" {
      assert text == [text[0]] + text[1..];
      TrimStartIff(text[1..]);
    }
  }

  lemma UsableIff(id: string)
    ensures IdAccepted(id) <==> Usable(id)
    ensures Blank(id) <==> !HasInk(id)
  {
    TrimStartIff(id);
    if TrimStart(id) != "" { TrimEndKeeps(TrimStart(id)); }
  }

  lemma VersionIff(catalog: string, version: string)
    ensures VersionOf(catalog, version) <==> PinsCatalog(catalog, version)
  {
    if PinsCatalog(catalog, version) {
      var digest :| version == catalog + ['@'] + digest && LowerHexDigest(digest);
      assert version[..|catalog|] == catalog && version[|catalog|..] == ['@'] + digest;
      assert version[|catalog|..][1..] == digest;
    }
  }

  lemma PinFineIff(base: string, spec: Json)
    ensures PinErrors(base, spec) == [] <==>
      PinRight(AsStr(Get(spec, "catalogId")), AsStr(Get(spec, "catalogVersionId")))
  {
    var catalog, version := AsStr(Get(spec, "catalogId")), AsStr(Get(spec, "catalogVersionId"));
    if catalog.Some? && version.Some? {
      VersionIff(catalog.value, version.value);
      UsableIff(catalog.value);
      UsableIff(version.value);
      if PinsCatalog(catalog.value, version.value) { PinShape(catalog.value, version.value); }
    }
  }

  /** A version that pins a catalog is blank only with it, and has no more slashes. */
  lemma PinShape(catalog: string, version: string)
    requires PinsCatalog(catalog, version)
    ensures (HasInk(catalog) ==> HasInk(version)) && ('/' in catalog <==> '/' in version)
  {
  }

  lemma PresetFineIff(base: string, spec: Json)
    ensures PresetErrors(base, spec) == [] <==> PresetRight(spec)
  {
    var id := AsStr(Get(spec, "skillId"));
    if id.Some? { UsableIff(id.value); }
    PinFineIff(base, spec);
    IdsFineIff(base, "deployTo", AsArr(Get(spec, "deployTo")));
    IdsFineIff(base, "denyAgents", AsArr(Get(spec, "denyAgents")));
  }

  /** A project's remote is clean iff there is none or it can be parsed. */
  lemma RemoteFineIff(k: Checkers, base: string, remote: Option<string>)
    ensures RemoteErrors(k, base, remote) == [] <==> forall text :: remote == Some(text) ==> k.remote(text)
  {
  }

  // ------------------------------------------------------------ the document

  /** The semantic checks of a document report nothing iff it is sound. */
  lemma SemanticsFineIff(k: Checkers, document: Json, base: string)
    ensures SemanticErrors(k, document, base) == [] <==> Sound(k, document)
  {
    var kind := KindOf(document);
    if kind == "SkillPreset" {
      var spec := Get(document, "spec");
      if spec.Some? { PresetFineIff(base, spec.value); }
    } else if kind == "LabTemplate" {
      HardwareFineIff(base, AsArr(Get2(document, "spec", "hardware")));
    } else if kind == "Machine" {
      EndpointsFineIff(base, AsArr(Get2(document, "spec", "endpoints")));
    } else if kind == "Project" {
      RemoteFineIff(k, base, AsStr(Get2(document, "spec", "remote")));
    }
  }
}
