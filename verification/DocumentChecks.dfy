/** Checks of one desired-state document: discriminators, core values, semantics,
    and what of the schema's own errors is reported. */
module DocumentChecks {
  import opened Wrappers
  import opened Text
  import opened TextSearch
  import opened JsonValues
  import opened Diagnostics
  import opened Documents
  import opened Sequences
  import opened SchemaLinker
  import opened CatalogPins
  import opened RegistryNames

  const API_VERSION := "fleet.frogbyte.io/v1alpha1"

  /** The schema validator, as the instance paths of its errors, and the parser
      of remotes: not modelled. */
  datatype Checkers = Checkers(schema: Json -> seq<string>, remote: string -> bool)

  /** The path a JSON pointer spells. */
  function PointerPath(pointer: string): seq<Segment> {
    var parts := Split(pointer, '/');
    seq(|parts| - 1, i requires 0 <= i < |parts| - 1 => Key(parts[i + 1]))
  }

  predicate KnownKind(kind: string) {
    exists i :: 0 <= i < |ALL_KINDS| && ALL_KINDS[i].Id() == kind
  }

  predicate LowerHexChar(c: char) {
    '0' <= c <= '9' || 'a' <= c <= 'f'
  }

  /** A lowercase, hyphenated UUID of version 7. */
  predicate IsResourceId(text: string) {
    && |text| == 36 && text[14] == '7'
    && forall i :: 0 <= i < 36 ==>
      if i == 8 || i == 13 || i == 18 || i == 23 then text[i] == '-' else LowerHexChar(text[i])
  }

  // --------------------------------------------------- discriminators, core

  function VersionOfDocument(document: Json): Option<string> {
    AsStr(Get(document, "apiVersion"))
  }

  function KindText(document: Json): Option<string> {
    AsStr(Get(document, "kind"))
  }

  predicate WrongVersion(document: Json) {
    VersionOfDocument(document).Some? && VersionOfDocument(document).value != API_VERSION
  }

  predicate WrongKind(document: Json) {
    KindText(document).Some? && !KnownKind(KindText(document).value)
  }

  predicate WrongId(document: Json) {
    IdOf(document).Some? && !IsResourceId(IdOf(document).value)
  }

  predicate WrongName(document: Json) {
    NameOf(document).Some? && !IsSlug(NameOf(document).value)
  }

  function IdSegments(): seq<Segment> {
    [Key("metadata"), Key("id")]
  }

  function NameSegments(): seq<Segment> {
    [Key("metadata"), Key("name")]
  }

  function DiscriminatorErrors(document: Json, base: string): seq<Diagnostic> {
    (if WrongVersion(document)
      then [Diagnostic(UnknownApiVersion, Location(base, [Key("apiVersion")]), [VersionOfDocument(document).value])]
      else [])
    + if WrongKind(document)
      then [Diagnostic(Code.UnknownKind, Location(base, [Key("kind")]), [KindText(document).value])] else []
  }

  method ValidateDiscriminator(document: Json, base: string, log: Log)
    modifies log
    ensures log.items == old(log.items) + DiscriminatorErrors(document, base)
  {
    var version := VersionOfDocument(document);
    if version.Some? && version.value != API_VERSION {
      log.Push(Diagnostic(UnknownApiVersion, Location(base, [Key("apiVersion")]), [version.value]));
    }
    var kind := KindText(document);
    if kind.Some? && !KnownKind(kind.value) {
      log.Push(Diagnostic(Code.UnknownKind, Location(base, [Key("kind")]), [kind.value]));
    }
  }

  function CoreErrors(document: Json, base: string): seq<Diagnostic> {
    (if WrongId(document) then [Diagnostic(InvalidId, Location(base, IdSegments()), [])] else [])
    + if WrongName(document) then [Diagnostic(InvalidName, Location(base, NameSegments()), [])] else []
  }

  method ValidateCoreValues(document: Json, base: string, log: Log)
    modifies log
    ensures log.items == old(log.items) + CoreErrors(document, base)
  {
    if WrongId(document) {
      log.Push(Diagnostic(InvalidId, Location(base, IdSegments()), []));
    }
    if WrongName(document) {
      log.Push(Diagnostic(InvalidName, Location(base, NameSegments()), []));
    }
  }

  // ------------------------------------------------------------ schema errors

  /** Another pass reports what is wrong there, so the generic error is dropped. */
  predicate HasSpecificDiagnostic(document: Json, pointer: string) {
    if pointer == "/apiVersion" then WrongVersion(document)
    else if pointer == "/kind" then WrongKind(document)
    else if pointer == "/metadata/id" then WrongId(document)
    else if pointer == "/metadata/name" then WrongName(document)
    else false
  }

  function SchemaError(base: string, pointer: string): Diagnostic {
    Diagnostic(SchemaInvalid, Location(base, PointerPath(SanitizePointer(pointer))), [])
  }

  function SchemaErrorsOf(document: Json, base: string, pointer: string): seq<Diagnostic> {
    if HasSpecificDiagnostic(document, pointer) then [] else [SchemaError(base, pointer)]
  }

  function SchemaErrors(document: Json, base: string, pointers: seq<string>): seq<Diagnostic> {
    if pointers == [] then []
    else
      SchemaErrors(document, base, pointers[..|pointers| - 1])
        + SchemaErrorsOf(document, base, pointers[|pointers| - 1])
  }

  method ReportSchemaErrors(document: Json, base: string, pointers: seq<string>, log: Log)
    modifies log
    ensures log.items == old(log.items) + SchemaErrors(document, base, pointers)
  {
    for i := 0 to |pointers|
      invariant log.items == old(log.items) + SchemaErrors(document, base, pointers[..i])
    {
      SchemaErrorsStep(document, base, pointers, i, old(log.items));
      ReportSchemaError(document, base, pointers[i], log);
    }
    assert pointers[..|pointers|] == pointers;
  }

  method ReportSchemaError(document: Json, base: string, pointer: string, log: Log)
    modifies log
    ensures log.items == old(log.items) + SchemaErrorsOf(document, base, pointer)
  {
    if HasSpecificDiagnostic(document, pointer) {
      return;
    }
    log.Push(SchemaError(base, pointer));
  }

  lemma SchemaErrorsStep(document: Json, base: string, pointers: seq<string>, i: nat, start: seq<Diagnostic>)
    requires i < |pointers|
    ensures (start + SchemaErrors(document, base, pointers[..i])) + SchemaErrorsOf(document, base, pointers[i])
         == start + SchemaErrors(document, base, pointers[..i + 1])
  {
    assert pointers[..i + 1][..i] == pointers[..i];
    Associative(start, SchemaErrors(document, base, pointers[..i]), SchemaErrorsOf(document, base, pointers[i]));
  }

  // --------------------------------------------------------------- semantics

  function SpecPath(base: string, path: seq<Segment>): Location {
    Location(base, [Key("spec")] + path)
  }

  function Assignment(base: string, path: seq<Segment>): Diagnostic {
    Diagnostic(InvalidSkillAssignment, SpecPath(base, path), [])
  }

  /** The catalog pin of a skill preset is complete and well-formed, or absent. */
  predicate PinWell(spec: Json) {
    match (AsStr(Get(spec, "catalogId")), AsStr(Get(spec, "catalogVersionId")))
    case (Some(catalog), Some(version)) => PinAccepted(catalog, version)
    case (None, None) => true
    case _ => false
  }

  function IdItems(spec: Json, field: string): seq<Item> {
    StringItems(AsArr(Get(spec, field)))
  }

  function IdErrors(base: string, field: string, items: seq<Item>): seq<Diagnostic> {
    if items == [] then []
    else
      var last := items[|items| - 1];
      IdErrors(base, field, items[..|items| - 1]) + if IdAccepted(last.text) then []
        else [Assignment(base, [Key(field), Index(last.index)])]
  }

  function SkillIdErrors(base: string, spec: Json): seq<Diagnostic> {
    match AsStr(Get(spec, "skillId"))
    case Some(id) => if IdAccepted(id) then [] else [Assignment(base, [Key("skillId")])]
    case None => []
  }

  function PinErrors(base: string, spec: Json): seq<Diagnostic> {
    if PinWell(spec) then [] else [Assignment(base, [])]
  }

  function PresetErrors(base: string, spec: Json): seq<Diagnostic> {
    PinErrors(base, spec) + SkillIdErrors(base, spec)
    + IdErrors(base, "deployTo", IdItems(spec, "deployTo")) + IdErrors(base, "denyAgents", IdItems(spec, "denyAgents"))
  }

  method ValidatePreset(base: string, spec: Json, log: Log)
    modifies log
    ensures log.items == old(log.items) + PresetErrors(base, spec)
  {
    ghost var ids, denied := IdErrors(base, "deployTo", IdItems(spec, "deployTo")),
      IdErrors(base, "denyAgents", IdItems(spec, "denyAgents"));
    OneByOne(log.items, PinErrors(base, spec), SkillIdErrors(base, spec), ids, denied);
    ValidatePin(base, spec, log);
    ValidateSkillId(base, spec, log);
    ReportIds(base, "deployTo", IdItems(spec, "deployTo"), log);
    ReportIds(base, "denyAgents", IdItems(spec, "denyAgents"), log);
  }

  lemma OneByOne<T>(a: seq<T>, b: seq<T>, c: seq<T>, d: seq<T>, e: seq<T>)
    ensures a + b + c + d + e == a + (b + c + d + e)
  {
  }

  method ValidatePin(base: string, spec: Json, log: Log)
    modifies log
    ensures log.items == old(log.items) + PinErrors(base, spec)
  {
    match (AsStr(Get(spec, "catalogId")), AsStr(Get(spec, "catalogVersionId")))
    case (Some(catalog), Some(version)) =>
      if !PinAccepted(catalog, version) {
        log.Push(Assignment(base, []));
      }
    case (None, None) =>
    case _ => log.Push(Assignment(base, []));
  }

  method ValidateSkillId(base: string, spec: Json, log: Log)
    modifies log
    ensures log.items == old(log.items) + SkillIdErrors(base, spec)
  {
    var skill := AsStr(Get(spec, "skillId"));
    if skill.Some? && !IdAccepted(skill.value) {
      log.Push(Assignment(base, [Key("skillId")]));
    }
  }

  method ReportIds(base: string, field: string, items: seq<Item>, log: Log)
    modifies log
    ensures log.items == old(log.items) + IdErrors(base, field, items)
  {
    for i := 0 to |items|
      invariant log.items == old(log.items) + IdErrors(base, field, items[..i])
    {
      assert items[..i + 1][..i] == items[..i];
      if !IdAccepted(items[i].text) {
        log.Push(Assignment(base, [Key(field), Index(items[i].index)]));
      }
    }
    assert items[..|items|] == items;
  }

  /** The reservation a hardware device names, when it names one. */
  function Device(device: Json): Option<(string, string)> {
    var kind, mapping := AsStr(Get(device, "kind")), AsStr(Get(device, "mapping"));
    if kind.Some? && mapping.Some? then Some((kind.value, mapping.value)) else None
  }

  function DevicesOf(hardware: seq<Json>): set<(string, string)> {
    set d | d in hardware && Device(d).Some? :: Device(d).value
  }

  function HardwareErrors(base: string, hardware: seq<Json>): seq<Diagnostic> {
    if hardware == [] then []
    else
      var last := |hardware| - 1;
      HardwareErrors(base, hardware[..last])
      + match Device(hardware[last])
        case Some(d) => if d in DevicesOf(hardware[..last])
          then [Diagnostic(DuplicateHardware, SpecPath(base, [Key("hardware"), Index(last), Key("mapping")]), [d.1])]
          else []
        case None => []
  }

  lemma OneMoreDevice(base: string, hardware: seq<Json>, i: nat)
    requires i < |hardware|
    ensures var d, seen := Device(hardware[i]), DevicesOf(hardware[..i]);
      && DevicesOf(hardware[..i + 1]) == seen + (if d.Some? then {d.value} else {})
      && HardwareErrors(base, hardware[..i + 1]) == HardwareErrors(base, hardware[..i])
        + if d.Some? && d.value in seen
          then [Diagnostic(DuplicateHardware, SpecPath(base, [Key("hardware"), Index(i), Key("mapping")]), [d.value.1])]
          else []
  {
    assert hardware[..i + 1][..i] == hardware[..i];
    assert hardware[..i + 1] == hardware[..i] + [hardware[i]];
  }

  method ValidateHardware(base: string, hardware: seq<Json>, log: Log)
    modifies log
    ensures log.items == old(log.items) + HardwareErrors(base, hardware)
  {
    var seen: set<(string, string)> := {};
    for i := 0 to |hardware|
      invariant seen == DevicesOf(hardware[..i])
      invariant log.items == old(log.items) + HardwareErrors(base, hardware[..i])
    {
      OneMoreDevice(base, hardware, i);
      var d := Device(hardware[i]);
      if d.Some? {
        if d.value in seen {
          var at := SpecPath(base, [Key("hardware"), Index(i), Key("mapping")]);
          log.Push(Diagnostic(DuplicateHardware, at, [d.value.1]));
        }
        seen := seen + {d.value};
      }
    }
    assert hardware[..|hardware|] == hardware;
  }

  /** The endpoint's reference carries a user and a password. */
  predicate CarriesCredential(endpoint: Json) {
    match AsStr(Get(endpoint, "reference"))
    case Some(reference) =>
      (match SplitOnce(reference, '@')
       case Some((userinfo, _)) => ':' in userinfo
       case None => false)
    case None => false
  }

  function EndpointErrors(base: string, endpoints: seq<Json>): seq<Diagnostic> {
    if endpoints == [] then []
    else
      var last := |endpoints| - 1;
      EndpointErrors(base, endpoints[..last])
      + if CarriesCredential(endpoints[last])
        then [Diagnostic(CredentialReference, SpecPath(base, [Key("endpoints"), Index(last), Key("reference")]), [])]
          else []
  }

  method ValidateEndpoints(base: string, endpoints: seq<Json>, log: Log)
    modifies log
    ensures log.items == old(log.items) + EndpointErrors(base, endpoints)
  {
    for i := 0 to |endpoints|
      invariant log.items == old(log.items) + EndpointErrors(base, endpoints[..i])
    {
      assert endpoints[..i + 1][..i] == endpoints[..i];
      if CarriesCredential(endpoints[i]) {
        log.Push(Diagnostic(CredentialReference, SpecPath(base, [Key("endpoints"), Index(i), Key("reference")]), []));
      }
    }
    assert endpoints[..|endpoints|] == endpoints;
  }

  function RemoteErrors(k: Checkers, base: string, remote: Option<string>): seq<Diagnostic> {
    if remote.Some? && !k.remote(remote.value) then [Diagnostic(InvalidRemote, SpecPath(base, [Key("remote")]), [])]
      else []
  }

  function SemanticErrors(k: Checkers, document: Json, base: string): seq<Diagnostic> {
    var kind := KindOf(document);
    if kind == "SkillPreset"
      then (match Get(document, "spec") case Some(spec) => PresetErrors(base, spec) case None => [])
    else if kind == "LabTemplate" then HardwareErrors(base, AsArr(Get2(document, "spec", "hardware")))
    else if kind == "Machine" then EndpointErrors(base, AsArr(Get2(document, "spec", "endpoints")))
    else if kind == "Project" then RemoteErrors(k, base, AsStr(Get2(document, "spec", "remote")))
    else []
  }

  method ValidateSemantics(k: Checkers, document: Json, base: string, log: Log)
    modifies log
    ensures log.items == old(log.items) + SemanticErrors(k, document, base)
  {
    var kind := KindOf(document);
    if kind == "SkillPreset" {
      var spec := Get(document, "spec");
      if spec.Some? {
        ValidatePreset(base, spec.value, log);
      }
    } else if kind == "LabTemplate" {
      ValidateHardware(base, AsArr(Get2(document, "spec", "hardware")), log);
    } else if kind == "Machine" {
      ValidateEndpoints(base, AsArr(Get2(document, "spec", "endpoints")), log);
    } else if kind == "Project" {
      var remote := AsStr(Get2(document, "spec", "remote"));
      if remote.Some? && !k.remote(remote.value) {
        log.Push(Diagnostic(InvalidRemote, SpecPath(base, [Key("remote")]), []));
      }
    }
  }
}
