/** What the semantic checks report of each part of a document. */
module SemanticReports {
  import opened Wrappers
  import opened JsonValues
  import opened Diagnostics
  import opened Documents
  import opened Permutations
  import opened CatalogPins
  import opened DocumentChecks
  import opened SemanticMeaning
  import opened Registry
  import opened Validation
  import opened ReportFacts
  import opened DocumentReports
  import opened ReportMeaning

  // ------------------------------------------------------------ item by item

  lemma {:induction false} IdsReport(base: string, field: string, items: seq<Item>, i: nat)
    ensures Reports(IdErrors(base, field, items), InvalidSkillAssignment, SpecPath(base, [Key(field), Index(i)])) <==>
      exists item :: item in items && item.index == i && !Usable(item.text)
  {
    var at := SpecPath(base, [Key(field), Index(i)]);
    if items != [] {
      var before, last := items[..|items| - 1], items[|items| - 1];
      assert items == before + [last];
      IdsReport(base, field, before, i);
      UsableIff(last.text);
      IdLast(base, field, items, i);
    }
  }

  lemma IdLast(base: string, field: string, items: seq<Item>, i: nat)
    requires items != []
    ensures var before, last := items[..|items| - 1], items[|items| - 1];
      var at := SpecPath(base, [Key(field), Index(i)]);
      Reports(IdErrors(base, field, items), InvalidSkillAssignment, at) <==>
        Reports(IdErrors(base, field, before), InvalidSkillAssignment, at) || (last.index == i && !IdAccepted(last.text))
  {
    var before, last := items[..|items| - 1], items[|items| - 1];
    var at := SpecPath(base, [Key(field), Index(i)]);
    var own := Assignment(base, [Key(field), Index(last.index)]);
    if !IdAccepted(last.text) {
      ReportsSum(IdErrors(base, field, before), [own], InvalidSkillAssignment, at);
      ReportsOne(own, InvalidSkillAssignment, at);
      assert own.at.path[2] == Index(last.index) && at.path[2] == Index(i);
    }
  }

  /** An id of a list is reported iff it is a text and not usable. */
  lemma IdReportedIff(base: string, field: string, values: seq<Json>, i: nat)
    ensures Reports(IdErrors(base, field, StringItems(values)), InvalidSkillAssignment,
                    SpecPath(base, [Key(field), Index(i)])) <==>
      i < |values| && values[i].Str? && !Usable(values[i].str)
  {
    var items := StringItems(values);
    IdsReport(base, field, items, i);
    if item :| item in items && item.index == i && !Usable(item.text) {
      var n :| 0 <= n < |items| && items[n] == item;
      assert values[items[n].index] == Str(items[n].text);
    }
    if i < |values| && values[i].Str? && !Usable(values[i].str) {
      assert Item(i, values[i].str) in items;
    }
  }

  lemma {:induction false} HardwareReport(base: string, hardware: seq<Json>, i: nat)
    ensures Reports(HardwareErrors(base, hardware), DuplicateHardware,
                    SpecPath(base, [Key("hardware"), Index(i), Key("mapping")])) <==>
      i < |hardware| && Device(hardware[i]).Some? && Device(hardware[i]).value in DevicesOf(hardware[..i])
  {
    if hardware != [] {
      var last := |hardware| - 1;
      HardwareReport(base, hardware[..last], i);
      HardwareLast(base, hardware, i);
      if i < last { assert hardware[..last][..i] == hardware[..i]; }
    }
  }

  lemma HardwareLast(base: string, hardware: seq<Json>, i: nat)
    requires hardware != []
    ensures var last := |hardware| - 1;
      var at := SpecPath(base, [Key("hardware"), Index(i), Key("mapping")]);
      Reports(HardwareErrors(base, hardware), DuplicateHardware, at) <==>
        || Reports(HardwareErrors(base, hardware[..last]), DuplicateHardware, at)
        || (i == last && Device(hardware[i]).Some? && Device(hardware[i]).value in DevicesOf(hardware[..i]))
  {
    var last := |hardware| - 1;
    var at := SpecPath(base, [Key("hardware"), Index(i), Key("mapping")]);
    var d := Device(hardware[last]);
    if d.Some? && d.value in DevicesOf(hardware[..last]) {
      var place := SpecPath(base, [Key("hardware"), Index(last), Key("mapping")]);
      var own := Diagnostic(DuplicateHardware, place, [d.value.1]);
      ReportsSum(HardwareErrors(base, hardware[..last]), [own], DuplicateHardware, at);
      ReportsOne(own, DuplicateHardware, at);
      assert own.at.path[2] == Index(last) && at.path[2] == Index(i);
    }
  }

  lemma {:induction false} EndpointReport(base: string, endpoints: seq<Json>, i: nat)
    ensures Reports(EndpointErrors(base, endpoints), CredentialReference,
                    SpecPath(base, [Key("endpoints"), Index(i), Key("reference")])) <==>
      i < |endpoints| && !EndpointRight(endpoints[i])
  {
    if endpoints != [] {
      var last := |endpoints| - 1;
      EndpointReport(base, endpoints[..last], i);
      EndpointLast(base, endpoints, i);
      CarriesIff(endpoints[last]);
    }
  }

  lemma EndpointLast(base: string, endpoints: seq<Json>, i: nat)
    requires endpoints != []
    ensures var last := |endpoints| - 1;
      var at := SpecPath(base, [Key("endpoints"), Index(i), Key("reference")]);
      Reports(EndpointErrors(base, endpoints), CredentialReference, at) <==>
        Reports(EndpointErrors(base, endpoints[..last]), CredentialReference, at)
        || (i == last && CarriesCredential(endpoints[i]))
  {
    var last := |endpoints| - 1;
    var at := SpecPath(base, [Key("endpoints"), Index(i), Key("reference")]);
    if CarriesCredential(endpoints[last]) {
      var own := Diagnostic(CredentialReference, SpecPath(base, [Key("endpoints"), Index(last), Key("reference")]), []);
      ReportsSum(EndpointErrors(base, endpoints[..last]), [own], CredentialReference, at);
      ReportsOne(own, CredentialReference, at);
      assert own.at.path[2] == Index(last) && at.path[2] == Index(i);
    }
  }

  // --------------------------------------------------------------- a preset

  /** All diagnostics of the list begin with this segment below `spec`. */
  predicate Under(ds: seq<Diagnostic>, segment: Segment) {
    forall d :: d in ds ==> |d.at.path| > 1 && d.at.path[1] == segment
  }

  lemma {:induction false} IdsUnder(base: string, field: string, items: seq<Item>)
    ensures Under(IdErrors(base, field, items), Key(field))
  {
    if items != [] { IdsUnder(base, field, items[..|items| - 1]); }
  }

  lemma NotUnder(ds: seq<Diagnostic>, segment: Segment, code: Code, at: Location)
    requires Under(ds, segment) && (|at.path| <= 1 || at.path[1] != segment)
    ensures !Reports(ds, code, at)
  {
  }

  lemma PresetParts(base: string, spec: Json, at: Location)
    ensures Reports(PresetErrors(base, spec), InvalidSkillAssignment, at) <==>
      || Reports(PinErrors(base, spec), InvalidSkillAssignment, at)
      || Reports(SkillIdErrors(base, spec), InvalidSkillAssignment, at)
      || Reports(IdErrors(base, "deployTo", IdItems(spec, "deployTo")), InvalidSkillAssignment, at)
      || Reports(IdErrors(base, "denyAgents", IdItems(spec, "denyAgents")), InvalidSkillAssignment, at)
  {
    var pin, skill := PinErrors(base, spec), SkillIdErrors(base, spec);
    var ids, denied := IdErrors(base, "deployTo", IdItems(spec, "deployTo")),
      IdErrors(base, "denyAgents", IdItems(spec, "denyAgents"));
    ReportsSum(pin, skill, InvalidSkillAssignment, at);
    ReportsSum(pin + skill, ids, InvalidSkillAssignment, at);
    ReportsSum(pin + skill + ids, denied, InvalidSkillAssignment, at);
  }

  lemma FieldsApart()
    ensures Key("skillId") != Key("deployTo") && Key("skillId") != Key("denyAgents")
    ensures Key("deployTo") != Key("denyAgents")
  {
    assert "skillId"[0] == 's' && "deployTo"[2] == 'p' && "denyAgents"[2] == 'n' && "deployTo"[0] == 'd';
    assert "denyAgents"[0] == 'd';
  }

  /** What is reported where in a skill preset: the pin at `spec`, the skill's id, and
      each agent's id. */
  lemma PresetReportedIff(base: string, spec: Json, i: nat)
    ensures Reports(PresetErrors(base, spec), InvalidSkillAssignment, SpecPath(base, [])) <==>
      !PinRight(AsStr(Get(spec, "catalogId")), AsStr(Get(spec, "catalogVersionId")))
    ensures Reports(PresetErrors(base, spec), InvalidSkillAssignment, SpecPath(base, [Key("skillId")])) <==>
      exists id :: AsStr(Get(spec, "skillId")) == Some(id) && !Usable(id)
    ensures var agents := AsArr(Get(spec, "deployTo"));
      Reports(PresetErrors(base, spec), InvalidSkillAssignment, SpecPath(base, [Key("deployTo"), Index(i)])) <==>
        i < |agents| && agents[i].Str? && !Usable(agents[i].str)
    ensures var agents := AsArr(Get(spec, "denyAgents"));
      Reports(PresetErrors(base, spec), InvalidSkillAssignment, SpecPath(base, [Key("denyAgents"), Index(i)])) <==>
        i < |agents| && agents[i].Str? && !Usable(agents[i].str)
  {
    FieldsApart();
    IdsUnder(base, "deployTo", IdItems(spec, "deployTo"));
    IdsUnder(base, "denyAgents", IdItems(spec, "denyAgents"));
    PinReport(base, spec);
    SkillReport(base, spec);
    PresetAt(base, spec, SpecPath(base, []));
    PresetAt(base, spec, SpecPath(base, [Key("skillId")]));
    PresetAt(base, spec, SpecPath(base, [Key("deployTo"), Index(i)]));
    PresetAt(base, spec, SpecPath(base, [Key("denyAgents"), Index(i)]));
    IdReportedIff(base, "deployTo", AsArr(Get(spec, "deployTo")), i);
    IdReportedIff(base, "denyAgents", AsArr(Get(spec, "denyAgents")), i);
  }

  lemma PinReport(base: string, spec: Json)
    ensures Reports(PinErrors(base, spec), InvalidSkillAssignment, SpecPath(base, [])) <==>
      !PinRight(AsStr(Get(spec, "catalogId")), AsStr(Get(spec, "catalogVersionId")))
  {
    PinFineIff(base, spec);
    if PinErrors(base, spec) != [] { assert PinErrors(base, spec)[0] in PinErrors(base, spec); }
  }

  lemma SkillReport(base: string, spec: Json)
    ensures Reports(SkillIdErrors(base, spec), InvalidSkillAssignment, SpecPath(base, [Key("skillId")])) <==>
      exists id :: AsStr(Get(spec, "skillId")) == Some(id) && !Usable(id)
  {
    var id := AsStr(Get(spec, "skillId"));
    if id.Some? { UsableIff(id.value); }
    if SkillIdErrors(base, spec) != [] { assert SkillIdErrors(base, spec)[0] in SkillIdErrors(base, spec); }
  }

  /** Each place is one check's. */
  lemma PresetAt(base: string, spec: Json, at: Location)
    requires at.base == base && |at.path| > 0 && at.path[0] == Key("spec")
    ensures |at.path| == 1 ==>
      (Reports(PresetErrors(base, spec), InvalidSkillAssignment, at) <==>
         Reports(PinErrors(base, spec), InvalidSkillAssignment, at))
    ensures |at.path| > 1 && at.path[1] == Key("skillId") ==>
      (Reports(PresetErrors(base, spec), InvalidSkillAssignment, at) <==>
         Reports(SkillIdErrors(base, spec), InvalidSkillAssignment, at))
    ensures |at.path| > 1 && at.path[1] == Key("deployTo") ==>
      (Reports(PresetErrors(base, spec), InvalidSkillAssignment, at) <==>
         Reports(IdErrors(base, "deployTo", IdItems(spec, "deployTo")), InvalidSkillAssignment, at))
    ensures |at.path| > 1 && at.path[1] == Key("denyAgents") ==>
      (Reports(PresetErrors(base, spec), InvalidSkillAssignment, at) <==>
         Reports(IdErrors(base, "denyAgents", IdItems(spec, "denyAgents")), InvalidSkillAssignment, at))
  {
    FieldsApart();
    PresetParts(base, spec, at);
    IdsUnder(base, "deployTo", IdItems(spec, "deployTo"));
    IdsUnder(base, "denyAgents", IdItems(spec, "denyAgents"));
    var skill := SkillIdErrors(base, spec);
    assert Under(skill, Key("skillId"));
    if |at.path| <= 1 || at.path[1] != Key("skillId") { NotUnder(skill, Key("skillId"), InvalidSkillAssignment, at); }
    if |at.path| <= 1 || at.path[1] != Key("deployTo") {
      NotUnder(IdErrors(base, "deployTo", IdItems(spec, "deployTo")), Key("deployTo"), InvalidSkillAssignment, at);
    }
    if |at.path| <= 1 || at.path[1] != Key("denyAgents") {
      NotUnder(IdErrors(base, "denyAgents", IdItems(spec, "denyAgents")), Key("denyAgents"), InvalidSkillAssignment, at);
    }
    if |at.path| > 1 { NoPinThere(base, spec, at); }
  }

  lemma NoPinThere(base: string, spec: Json, at: Location)
    requires |at.path| > 1
    ensures !Reports(PinErrors(base, spec), InvalidSkillAssignment, at)
  {
  }

  // ------------------------------------------------------------- the report

  /** The document is met, and has a base of its own. */
  predicate Met(sources: seq<Source>, n: nat, e: Entry) {
    UniqueBy(BaseOf, Collection(Pieces(sources))) && n < |Pieces(sources)| && Pieces(sources)[n] == Parsed(e)
  }

  lemma SemanticsReported(k: Checkers, g: RegistrySpecs.Grammars, builtins: seq<Builtin>, sources: seq<Source>, n: nat,
                          e: Entry, code: Code, at: Location)
    requires Met(sources, n, e) && SemanticCode(code) && at.base == e.base
    ensures Reports(AllErrors(k, g, builtins, sources), code, at) <==>
      Reports(SemanticErrors(k, e.document, e.base), code, at)
  {
    CodesOfDocuments();
    DocumentReportedIff(k, g, builtins, sources, n, code, at);
    CheckReports(k, Firsts(Pieces(sources)[..n]), e, SemanticErrors(k, e.document, e.base), code, at);
  }

  lemma KindsApart()
    ensures "SkillPreset" != "LabTemplate" && "SkillPreset" != "Machine" && "SkillPreset" != "Project"
    ensures "LabTemplate" != "Machine" && "LabTemplate" != "Project" && "Machine" != "Project"
  {
    assert "SkillPreset"[0] == 'S' && "LabTemplate"[0] == 'L' && "Machine"[0] == 'M' && "Project"[0] == 'P';
  }

  /** The four kinds with checks of their own. */
  lemma ByKind(k: Checkers, document: Json, base: string)
    ensures AsStr(Get(document, "kind")) == Some("SkillPreset") && Get(document, "spec").Some? ==>
      SemanticErrors(k, document, base) == PresetErrors(base, Get(document, "spec").value)
    ensures AsStr(Get(document, "kind")) == Some("LabTemplate") ==>
      SemanticErrors(k, document, base) == HardwareErrors(base, AsArr(Get2(document, "spec", "hardware")))
    ensures AsStr(Get(document, "kind")) == Some("Machine") ==>
      SemanticErrors(k, document, base) == EndpointErrors(base, AsArr(Get2(document, "spec", "endpoints")))
    ensures AsStr(Get(document, "kind")) == Some("Project") ==>
      SemanticErrors(k, document, base) == RemoteErrors(k, base, AsStr(Get2(document, "spec", "remote")))
  {
    KindsApart();
  }

  lemma EarlierDevice(hardware: seq<Json>, i: nat)
    requires i < |hardware| && Device(hardware[i]).Some?
    ensures Device(hardware[i]).value in DevicesOf(hardware[..i]) <==>
      exists j :: 0 <= j < i && Device(hardware[j]) == Device(hardware[i])
  {
    if Device(hardware[i]).value in DevicesOf(hardware[..i]) {
      var d :| d in hardware[..i] && Device(d) == Device(hardware[i]);
      var j :| 0 <= j < i && hardware[..i][j] == d;
      assert Device(hardware[j]) == Device(hardware[i]);
    }
    if j :| 0 <= j < i && Device(hardware[j]) == Device(hardware[i]) {
      assert hardware[..i][j] in hardware[..i];
    }
  }

  /** In the report, hardware `i` of a lab template repeats a reservation iff one
      before it names the same. */
  lemma HardwareReportedIff(k: Checkers, g: RegistrySpecs.Grammars, builtins: seq<Builtin>, sources: seq<Source>,
                            n: nat, e: Entry, i: nat)
    requires Met(sources, n, e) && AsStr(Get(e.document, "kind")) == Some("LabTemplate")
    ensures var hardware := AsArr(Get2(e.document, "spec", "hardware"));
      Reports(AllErrors(k, g, builtins, sources), DuplicateHardware,
              SpecPath(e.base, [Key("hardware"), Index(i), Key("mapping")])) <==>
        i < |hardware| && Device(hardware[i]).Some?
          && exists j :: 0 <= j < i && Device(hardware[j]) == Device(hardware[i])
  {
    var hardware := AsArr(Get2(e.document, "spec", "hardware"));
    ByKind(k, e.document, e.base);
    HardwareReport(e.base, hardware, i);
    var at := SpecPath(e.base, [Key("hardware"), Index(i), Key("mapping")]);
    SemanticsReported(k, g, builtins, sources, n, e, DuplicateHardware, at);
    if i < |hardware| && Device(hardware[i]).Some? { EarlierDevice(hardware, i); }
  }

  /** Endpoint `i` of a machine is reported iff its reference carries a password. */
  lemma EndpointReportedIff(k: Checkers, g: RegistrySpecs.Grammars, builtins: seq<Builtin>, sources: seq<Source>,
                            n: nat, e: Entry, i: nat)
    requires Met(sources, n, e) && AsStr(Get(e.document, "kind")) == Some("Machine")
    ensures var endpoints := AsArr(Get2(e.document, "spec", "endpoints"));
      Reports(AllErrors(k, g, builtins, sources), CredentialReference,
              SpecPath(e.base, [Key("endpoints"), Index(i), Key("reference")])) <==>
        i < |endpoints| && !EndpointRight(endpoints[i])
  {
    ByKind(k, e.document, e.base);
    EndpointReport(e.base, AsArr(Get2(e.document, "spec", "endpoints")), i);
    var at := SpecPath(e.base, [Key("endpoints"), Index(i), Key("reference")]);
    SemanticsReported(k, g, builtins, sources, n, e, CredentialReference, at);
  }

  /** A project's remote is reported iff it is a text that does not parse. */
  lemma RemoteReportedIff(k: Checkers, g: RegistrySpecs.Grammars, builtins: seq<Builtin>, sources: seq<Source>,
                          n: nat, e: Entry)
    requires Met(sources, n, e) && AsStr(Get(e.document, "kind")) == Some("Project")
    ensures Reports(AllErrors(k, g, builtins, sources), InvalidRemote, SpecPath(e.base, [Key("remote")])) <==>
      exists text :: AsStr(Get2(e.document, "spec", "remote")) == Some(text) && !k.remote(text)
  {
    ByKind(k, e.document, e.base);
    var errors := RemoteErrors(k, e.base, AsStr(Get2(e.document, "spec", "remote")));
    if errors != [] { assert errors[0] in errors; }
    SemanticsReported(k, g, builtins, sources, n, e, InvalidRemote, SpecPath(e.base, [Key("remote")]));
  }

  /** What is reported where in a skill preset: `PresetReportedIff` says what that is. */
  lemma PresetInReport(k: Checkers, g: RegistrySpecs.Grammars, builtins: seq<Builtin>, sources: seq<Source>, n: nat,
                       e: Entry, spec: Json, at: Location)
    requires Met(sources, n, e) && AsStr(Get(e.document, "kind")) == Some("SkillPreset")
    requires Get(e.document, "spec") == Some(spec) && at.base == e.base
    ensures Reports(AllErrors(k, g, builtins, sources), InvalidSkillAssignment, at) <==>
      Reports(PresetErrors(e.base, spec), InvalidSkillAssignment, at)
  {
    ByKind(k, e.document, e.base);
    SemanticsReported(k, g, builtins, sources, n, e, InvalidSkillAssignment, at);
  }
}
