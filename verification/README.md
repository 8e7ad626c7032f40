# Fleet: models and proofs

A Dafny project beside the Fleet repository. It models the parts of Fleet whose
correctness rests on reasoning that no single function shows, and proves that
reasoning for every input, every run or every interleaving:

- **The schema linker** joins the kinds' JSON schemas into one document. Linking
  preserves meaning, references and cycles of references included
  (`SchemaLinker`, `SchemaMeaning`, `LinkedSchema`).
- **The collection validator**: per-document checks, references between
  documents, the Registry, and the snapshot a valid candidate becomes. Reference
  and cycle reports are exact, no schema error is lost, diagnostics do not depend
  on the texts they hide, and validity and snapshot do not depend on file order
  (`DocumentChecks`, `SemanticMeaning`, `References`, `ReferenceRules`,
  `ReferenceReports`, `BindingReports`, `RegistryNames`, `TextGrammars`,
  `RegistryScan`, `ScanMeaning`, `ScanPrivacy`, `RegistrySpecs`, `Registry`,
  `RegistryRules`, `RegistryOwn`, `RegistryReports`, `RegistryDuplicates`,
  `RegistryItems`, `TargetReports`, `RegistryOrder`, `RegistryMeaning`, `Validation`,
  `ValidationRules`, `ReportFacts`, `DocumentReports`, `ReportMeaning`,
  `SemanticReports`, `DocumentOrder`, `Snapshot`, `SnapshotOrder`, `DocumentBases`,
  `ValidCandidates`, `ValidSpecs`).
- **Plans**: the planner drops nothing and keeps dependency order, the apply loop
  accepts exactly its plans, and which accepted catalog pins are executed as
  written; the linear credential scan behind their identities is the quadratic one
  (`Planner`, `ApplyPlan`, `PlannedActions`, `Redaction`, `RedactionRules`,
  `CatalogPins`).
- **Uploads**: a transition system of puts with their handlers and detached
  tasks; which staged files are lost or leaked, over all runs, and what a replayed
  key answers (`ScopedKeys`, `UploadSteps`, `Uploads`, `UploadOwnership`,
  `UploadReplay`).
- **Paging** through recipes while they are created, edited, published and deleted
  (`RecipePages`, `RecipeEdits`, `RecipeAccount`, `RecipeStore`, `RecipeWalks`,
  `RecipeStamps`, `RecipeClock`).
- **The live-suite runner**: freezing a process tree that keeps forking, the
  matrix verdict, the laxer lab runner it refines, the result line and the JSON
  summary (`ProcessTable`, `FreezeTree`, `Acceptance`, `AcceptanceVerdict`,
  `LabAcceptance`, `ResultLine`, `JsonText`, `JsonLayout`, `SummaryJson`,
  `SummaryTotals`).

Code that changes things step by step is a class or a method with loops, proved
against a function of its inputs; the properties are lemmas about that function.
`dafny verify dfyconfig.toml` checks the whole project.

## What was found

Each of these is a property the code does not have, with an input that shows it
and the exact condition under which it holds.

- **A create that fails after storing loses a file.** `create_inner` stores an
  operation and then records it in the audit log; when the record fails, the put
  is answered with an error and its staged file is discarded, although the stored
  operation names it (`UploadOwnership.UnrecordedCreateLosesFile`). A run without
  a panic conserves its files iff no create did this (`CreateHarmlessIff`).
- **A panic of the queueing task** is handled by the waiting handler, which
  discards the file. `PanicHarmlessIff`: the file ends up where it belongs iff the
  handler waits exactly while no operation carries it; `PanicLosesFile` and
  `PanicLeaksFile` are runs where it does not, and `PanicSavesFile` is the one way
  an unrecorded create is made up for. `UploadsConserved` puts these together for
  every run.
- **A replay can go another way than asked.** The key of a machine put is said to
  be bound to the target, but binds the machine only: a retry that resolves to
  another endpoint, authentication or guest system is answered with the first put's
  operation, and its own file is discarded (`UploadReplay.ReplayGoesElsewhere`).
  That takes no other request: one that leaves the endpoint or the authentication
  open may resolve differently the second time. `ReplayReachesIff` is exact.
- **A cursor can skip and repeat.** A list response promises that its cursor, unlike
  an offset, does neither when the set changes. Editing a recipe moves it to the
  front of the list. Edited while it stands after the cursor, it is never returned
  (`RecipeEdits.EditSkips`); when the cursor's own recipe is edited, what was
  returned comes again (`RecipeEdits.CursorEditRepeats`); and when the clock is set
  back, an edit of a returned recipe brings it back although no cursor's recipe was
  edited (`RecipeClock.ClockSetBackRepeats`). In every walk a recipe is returned as
  often as it came to stand after the cursor, less the times it was passed over there
  (`RecipeAccount.TimesReturned`); `ComesBackIff` and `StampsDecide` say which
  changes, and under any clock which writes, do either. While the clock is not set
  back and no cursor's recipe is edited nothing repeats, and a recipe that was there
  throughout is returned iff no edit lifted it above the cursor
  (`RecipeClock.SteadyWalksSurvive`).
- **Ids that read as credentials** pass the schema and are scrubbed in a plan's
  identities. A catalog `a:b@c` is refused by the apply loop
  (`CatalogPins.CredentialCatalogRefused`); agents `u:p@h` and `v:q@h` share an
  identity, and the rollout is accepted and decoded to the agent `***@h`
  (`CredentialAgentsCollide`). `PinExecutableIff`, `PinDecodesIff` and
  `AcceptedPinsApart` are exact.
- **A password with a slash is printed.** The scrubber is to mask `user:password@`
  anywhere in a text, and does so for passwords with at signs and colons
  (`RedactionRules.PasswordMaskedInText`); but a slash begins a new token, so the
  password `left/right` is left alone (`SlashedPasswordKept`). `TokenMaskedIff`: what
  stands between the last slash, quote or white space and the at sign is masked iff it
  has text on both sides of its first colon.
- **"First declared" names the previous one.** The duplicate-name and
  duplicate-key messages quote what the map insert yields, the declaration before:
  a third one quotes the second (`ReferenceReports.ThirdQuotesSecond`,
  `RegistryDuplicates.ThirdKeyQuotesSecond`). The first is named iff nothing in
  between declares the same (`FirstDeclaredIff`, `FirstKeyQuotedIff`).
- **The lab runner accepts what the strict one refuses**: a key reported again
  (`LabAcceptance.RepeatsAreForgotten`) and a target that is not expected
  (`ColumnGrown`); a failure reported without a target is in no row at all
  (`FailureDropped`). When the lab runner accepts, the strict one does iff no key
  was reported twice and every report names an expected column
  (`StrictAgreesIff`); a report is dropped iff `LabDropsIff` says so.

## Assumptions

- A SHA-256 text has 64 characters. Where a statement needs digests to tell apart the
  texts that the keys of a run bind, it says so: `UploadReplay.SuchRunsExist` is such
  a run, and `CollisionMisleads` is what happens otherwise. Staging ids are not used
  twice.
- The scrubber of the Registry scan, the JSON Schema engine's errors, YAML parsing,
  reading a Registry spec into its structure, the grammars of single values and the
  remote parser are parameters: every statement holds for all of them. The snapshot
  theorem asks one thing of the schema, that a document it accepts has a text
  `kind`, identity and name. The scrubber of plan identities is modelled.
- The linker replaces the marker `#/$defs/` in every string of a spec schema, not
  only in references. The linking theorems therefore ask that the marker occur in
  references to definitions only; `LinkedSchema.MarkedConstantChanges` shows why. No
  kind's schema violates this: no constant of the checked-in generated schema
  contains the marker.
- Process ids are not used again, a stop takes effect before it returns, orphans go
  to the init process, and nobody else stops, continues or kills the tree. Each
  row of a scan is read at an instant of its own.
- A recipe write that is refused, for a taken name say, is no write.
- A method named `Interlude` or `Await` does nothing itself: its contract lets its
  caller rely only on the steps others can take, so what is proved of the caller
  holds in every interleaving.
- Diagnostics hold the texts their messages quote, not the fixed wording; a report
  is a set of them, since its order is that of the sorted set it is read from.

## Model

| member | source | states |
|---|---|---|
| LinkedSchema.LinkingPreservesMeaning | schemas/src/lib.rs:165-256 | For every document, the generated schema accepts it iff the envelope does and, for each kind its `kind` selects, that kind's own schema accepts its `spec`; at every depth of references |
| LinkedSchema.KindDecidesOutright | schemas/src/lib.rs:165-256 | Recursive definitions included: a document of one kind is accepted iff the envelope accepts it and its kind's schema accepts its spec |
| LinkedSchema.DefinitionPlaced | schemas/src/lib.rs:214-247 | The definition a `#/$defs/` reference meant stands, rewritten, at the root under `$defs:`, where the rewritten reference looks |
| LinkedSchema.BodyMembers | schemas/src/lib.rs:214-247 | Under its kind a spec schema keeps every member, rewritten, but its `$defs` and `$schema` |
| LinkedSchema.KindByName | schemas/src/lib.rs:71-90 | A kind is written as the text that names it, and as no other |
| LinkedSchema.KindIdsDistinct | schemas/src/lib.rs:71-90 | No two kinds share an id, so exactly one dispatch rule fires |
| LinkedSchema.MarkedConstantChanges | schemas/src/lib.rs:237-242 | The condition on the marker is needed: a constant that spells it changes its meaning when linked |
| SchemaLinker.GenerateSchema | schemas/src/lib.rs:165-256 | The loop over kinds hoists every definition and joins the kinds; its result is the linked document the theorems are about |
| SchemaMeaning.SameVerdict | schemas/src/lib.rs:214-247 | A schema placed in the linked document, its references rewritten, judges every instance as it does in its own document |
| References.ExtendsReaches | schemas/src/lib.rs:798-813 | The worklist search ends on cyclic graphs and answers whether a path exists |
| References.ValidateReferences | schemas/src/lib.rs:688-781 | The two passes append exactly the duplicate, unresolved and cycle diagnostics, in order |
| ReferenceRules.ReportsNothingIff | schemas/src/lib.rs:688-781 | Nothing is reported iff names are unique per bindable kind, every binding and `extends` resolves, and some rank falls along `extends` |
| ReferenceReports.CycleReportedIff | schemas/src/lib.rs:751-781 | With unique names and a base for each document, the report calls an `extends` item a cycle iff it lies on one |
| ReferenceReports.FirstDeclaredIff | schemas/src/lib.rs:688-727 | A repeated name is reported where it is repeated; the report says where it was first declared iff this is its second declaration |
| ReferenceReports.ThirdQuotesSecond | schemas/src/lib.rs:703-712 | Of three declarations of one name the third is reported with the second's place, not the first's |
| DocumentChecks.ReportSchemaErrors | schemas/src/lib.rs:449-466 | Every schema error is reported at its printable path unless another pass reports that place |
| DocumentChecks.ValidateSemantics | schemas/src/lib.rs:549-682 | The semantic checks append exactly the assignment, hardware, credential and remote diagnostics of the document's kind |
| SemanticMeaning.SemanticsFineIff | schemas/src/lib.rs:549-682 | A document is reported clean iff it is what its kind asks beyond the schema, for all four kinds with such checks |
| SemanticMeaning.HardwareFineIff | schemas/src/lib.rs:551-573 | A template's hardware is reported clean iff no two devices name one reservation |
| SemanticMeaning.EndpointsFineIff | schemas/src/lib.rs:648-669 | Endpoints are reported clean iff no reference has a colon before its first at sign |
| SemanticMeaning.RemoteFineIff | schemas/src/lib.rs:670-681 | A project's remote is reported clean iff there is none or it parses |
| SemanticMeaning.PresetFineIff | schemas/src/lib.rs:584-638 | A preset is reported clean iff the catalog's id and version are both left out or the version is that id, an at sign and a digest, and every skill and agent id is more than white space without a slash |
| ValidCandidates.ValidDocumentsSound | schemas/src/lib.rs:445-466 | Every document of a valid candidate is what its kind asks beyond the schema |
| Validation.ValidateSources | schemas/src/lib.rs:413-504 | The report holds exactly the diagnostics of every pass over every document of every source; the rows below say which those are |
| ReportMeaning.DiscriminatorsReportedIff | schemas/src/lib.rs:529-547 | The report has an unknown version at a document's `apiVersion` iff that is a text other than `fleet.frogbyte.io/v1alpha1`, and an unknown kind at its `kind` iff that is a text other than the twelve kinds |
| ReportMeaning.ErrorFreeDiscriminators | schemas/src/lib.rs:529-547 | An error-free candidate has only that version and those kinds |
| ReportMeaning.CoreReportedIff | schemas/src/lib.rs:467-484 | It has an invalid identity or name at a document iff that is a text but no identity, or no slug |
| ReportMeaning.DuplicateIdReportedIff | schemas/src/lib.rs:467-480 | It has a repeated identity at a document iff its identity is well-formed and some document before it has it |
| ReportMeaning.SchemaReportedIff | schemas/src/lib.rs:449-466 | It has a generic error at a place iff the schema has one there, unless that is a version, kind, identity or name reported by itself |
| ReportMeaning.ParseReportedIff | schemas/src/lib.rs:427-443 | It has a parse error for a file iff the file could not be parsed |
| SemanticReports.PresetReportedIff | schemas/src/lib.rs:584-638 | In a skill preset the pin is reported iff it is not right, and the skill's id and each agent's iff they are texts and not usable |
| SemanticReports.PresetInReport | schemas/src/lib.rs:583-638 | The report has exactly these for a skill preset |
| SemanticReports.HardwareReportedIff | schemas/src/lib.rs:551-573 | It has a repeated reservation at hardware `i` of a lab template iff one before it names the same |
| SemanticReports.EndpointReportedIff | schemas/src/lib.rs:648-669 | It has a credential at endpoint `i` of a machine iff its reference has a colon before the first at sign |
| SemanticReports.RemoteReportedIff | schemas/src/lib.rs:670-681 | It has an invalid remote for a project iff that is a text that does not parse |
| BindingReports.MachineReportedIff | schemas/src/lib.rs:729-750 | Profile or project `i` of a machine is reported iff it is a name and no document of kind `Profile`, or `Project`, has it |
| BindingReports.ExtendsReportedIff | schemas/src/lib.rs:751-781 | Profile `i` that a profile extends is reported as unresolved iff it is a name and no profile has it |
| BindingReports.CycleByNameIff | schemas/src/lib.rs:751-781 | It is reported as a cycle iff it leads back through the names that profiles extend |
| BindingReports.NameReportedIff | schemas/src/lib.rs:688-727 | A document's name is reported as declared again iff some machine, profile or project before it, of its own kind, has it |
| TextGrammars.SlugIff | schemas/src/registry.rs:90-99 | A slug is one to 63 lower-case letters, digits and hyphens, each hyphen between two others |
| TextGrammars.FieldNameIff | schemas/src/registry.rs:83-88 | A field name is at most 63 letters and digits, a lower-case letter first |
| TextGrammars.KeyIff | schemas/src/registry.rs:101-106 | A key is at most 128 letters, digits and `._@+-`, a letter or digit first |
| TextGrammars.ExternalIdIff | schemas/src/registry.rs:780-788 | An outside reference is 1 to 128 bytes without white space or controls |
| TextGrammars.ResourceIdIs | crates/fleet-core/src/id.rs:18-24 | Every identity accepted is a hyphenated lower-case UUID of version 7 |
| TextGrammars.ResourceIdMade | crates/fleet-core/src/id.rs:18-24 | And every such text is accepted |
| ValidationRules.NoSchemaErrorLost | schemas/src/lib.rs:445-547 | For every schema error of every document the report has a diagnostic at that place, generic or specific |
| ValidationRules.ErrorFreeFitsSchema | schemas/src/lib.rs:445-484 | Without errors every source parses and every document fits the generated schema |
| DocumentOrder.ReferencesAnyOrder | schemas/src/lib.rs:688-781 | Reordering named documents does not change whether their references are right |
| DocumentOrder.PiecesErrorsIff | schemas/src/lib.rs:413-484 | The documents pass iff every file parses, each document passes its own checks, and no well-formed identity is claimed twice |
| Snapshot.ParseResources | schemas/src/lib.rs:310-339 | Any error yields no resources; otherwise all of them, stably sorted, kinds ascending and identities ascending within a kind |
| Snapshot.SortSorts | schemas/src/lib.rs:337 | The sort yields an ascending permutation |
| SnapshotOrder.ValidAnyOrder | schemas/src/lib.rs:413-504 | The same documents, in any files under any paths and in any order, are valid together |
| SnapshotOrder.SnapshotAnyOrder | schemas/src/lib.rs:310-339 | The snapshot is strictly increasing by kind and identity, and every rearrangement is valid and has the identical snapshot |
| SnapshotOrder.ResourceIdsUnique | schemas/src/lib.rs:467-480 | Uniqueness of identities follows from the empty error set |
| SnapshotOrder.ResourceReads | schemas/src/lib.rs:318-336 | A resource of an error-free candidate is its document's, member by member |
| Text.StrLeIff | schemas/src/lib.rs:337 | The order of texts: a prefix first, else by the first character that differs |
| DocumentBases.BasesUnique | schemas/src/lib.rs:445-446 | In distinct files every document has a base of its own, whatever the paths contain |
| RegistryNames.SlugHasNoSlash | schemas/src/registry.rs:90-99 | A slug contains no slash, so a reference splits at its type |
| RegistryNames.LowerKeepsKey | schemas/src/registry.rs:101-106 | Case does not decide whether a text is a key |
| RegistryNames.SanitizedSegments | schemas/src/registry.rs:274-289 | A printed pointer keeps the number of segments and has only empty, numeric, field-name or placeholder ones |
| RegistryNames.SanitizeTwice | schemas/src/registry.rs:274-289 | Printing a printed pointer changes nothing |
| RegistryScan.CollectStrings | schemas/src/registry.rs:293-310 | Appends every string and key of a value with its printable path |
| ScanMeaning.StringsMention | schemas/src/registry.rs:291-310 | What is collected is exactly the texts and keys of the value, at every depth |
| RegistryScan.ScanCredentials | schemas/src/registry.rs:327-366 | Appends one diagnostic for each recognized string, key, field pair and link |
| ScanMeaning.ScanCleanIff | schemas/src/registry.rs:323-366 | The scan is clean iff no text or key at any depth is recognized, nor a field name joined with a text of the field, nor a link's label with its URL |
| ScanPrivacy.DiagnosticsHideText | schemas/src/registry.rs:327-366 | Specs that differ only in texts and unsafe keys judged alike give the same set of diagnostics |
| RegistrySpecs.ValidateTypeDefinition | schemas/src/registry.rs:372-458 | Appends exactly the key-field, field and relation diagnostics of a type definition |
| RegistrySpecs.ValidateFieldValue | schemas/src/registry.rs:460-497 | A scalar is judged by its type, a list item by item with repetitions named, at most 64 of them |
| RegistrySpecs.ValidateEntry | schemas/src/registry.rs:596-648 | Appends exactly the field, required-field, tag and link diagnostics of an entry |
| RegistryMeaning.DefinitionFineIff | schemas/src/registry.rs:372-458 | A type definition is reported clean iff its key is declared, required and textual and every field and relation type is well-formed |
| RegistryMeaning.ValueFineIff | schemas/src/registry.rs:460-497 | A value is reported clean iff it is of the field's type, and a list short, of items of its type and without repetition |
| RegistryMeaning.EntryFineIff | schemas/src/registry.rs:596-648 | An entry is reported clean against its type iff it conforms to it |
| RegistryMeaning.EveryEntryHasId | schemas/src/registry.rs:499-668 | In an error-free candidate every entry declares an id, so every entry can be referred to |
| RegistryItems.ReadByKind | schemas/src/registry.rs:531-575 | A type is read from a document of kind `RegistryType` under its `metadata.name`, an entry from one of kind `RegistryEntry` |
| RegistryItems.KeyFieldPlaces | schemas/src/registry.rs:381-411 | A definition's key is reported as undeclared, optional or of an odd type, each iff it is |
| RegistryItems.FieldSpecPlaces | schemas/src/registry.rs:412-447 | A field of a definition is reported for its name, its items or its suggestions, each iff they are wrong |
| RegistryItems.FieldSpecReportedIff | schemas/src/registry.rs:412-447 | What a definition is reported for its fields is what it is reported for some field |
| RegistryItems.RelationTypeReportedIff | schemas/src/registry.rs:448-457 | Relation type `i` is reported iff it is no slug or was given before |
| RegistryItems.ItemReportedIff | schemas/src/registry.rs:477-492 | Item `i` of a list is reported iff it is of the wrong type, and as repeated iff it is of the right one and was given before |
| RegistryItems.FieldReportedIff | schemas/src/registry.rs:596-609 | What an entry is reported for its fields is what it is reported for some field |
| RegistryItems.RequiredReportedIff | schemas/src/registry.rs:610-618 | A missing field is reported iff a required field is missing |
| RegistryItems.TagReportedIff | schemas/src/registry.rs:619-634 | Tag `i` is reported iff it is no slug or was given before |
| RegistryItems.LinkReportedIff | schemas/src/registry.rs:635-648 | Link `i` is reported at its URL iff that is none, and at its label iff that is blank or has a control |
| RegistryItems.StringReportedIff | schemas/src/registry.rs:327-334 | A credential is reported at a place iff a text or key there carries one |
| RegistryItems.PairReportedIff | schemas/src/registry.rs:335-355 | A field's value is reported iff it carries one when joined with the field's name |
| RegistryItems.LinkCarryReportedIff | schemas/src/registry.rs:356-366 | Link `i` is reported iff its label and URL carry one when joined |
| Registry.ValidateRegistry | schemas/src/registry.rs:509-721 | The three passes append exactly the errors, which do not mention what is known outside the candidate, and the warnings |
| Registry.CheckTarget | schemas/src/registry.rs:723-792 | A target is an error when malformed or of an unknown type, a warning when well-formed and known to be absent, else nothing |
| TargetReports.MachineWarnedIff | schemas/src/registry.rs:762-776 | A machine that is named is warned about iff machines were supplied, and it is neither among them nor a `Machine` of the candidate |
| TargetReports.ProjectWarnedIff | schemas/src/registry.rs:762-776 | The same for projects |
| TargetReports.CoolifyWarnedIff | schemas/src/registry.rs:777-791 | A Coolify resource is warned about iff such were supplied and it is not among them |
| TargetReports.ProxmoxWarnedIff | schemas/src/registry.rs:777-791 | The same for Proxmox guests |
| TargetReports.TargetReportedIff | schemas/src/registry.rs:732-791 | A relation's target is reported as malformed iff it has not the form of its kind, and as of an unknown type iff it names one |
| RegistryRules.ReferenceDenotesOne | schemas/src/registry.rs:499-668 | In an error-free candidate a reference denotes at most one entry, up to ASCII case |
| RegistryRules.PrintedReferenceDenotes | schemas/src/registry.rs:649-761 | The reference printed for an entry denotes that entry, however its letters are cased |
| RegistryRules.DanglingReportedIff | schemas/src/registry.rs:747-761 | The dangling warning for a relation to a known type is given iff no entry is what it names |
| DocumentBases.DanglingAmongFilesIff | schemas/src/registry.rs:747-761 | The same for any distinct files, with nothing assumed of their documents' bases |
| RegistryDuplicates.FirstKeyQuotedIff | schemas/src/registry.rs:649-659 | The Registry's report has a repeated key where it is repeated, and says where it was first declared iff this is its second declaration |
| RegistryDuplicates.ThirdKeyQuotesSecond | schemas/src/registry.rs:649-659 | Of three declarations of one key the Registry's report gives the third with the second's place, not the first's |
| RegistryRules.EnlargingAddsNoWarning | schemas/src/registry.rs:672-792 | Enlarging the known targets never adds a warning |
| RegistryRules.ResourceAddsNothing | schemas/src/registry.rs:509-721 | A machine or project anywhere in the candidate changes no Registry error and adds no warning |
| RegistryOrder.RegistryAnyOrder | schemas/src/registry.rs:509-721 | Whether the Registry part is error-free does not depend on the documents' order or files |
| RegistryOrder.TypeErrorsIff | schemas/src/registry.rs:531-565 | The type pass is silent iff every definition is right by itself, none redefines a built-in type, and no name is defined twice |
| RegistryOrder.EntryErrorsIff | schemas/src/registry.rs:567-721 | Entries and relations are silent iff each is right by itself under the known types and no key is declared twice |
| ValidCandidates.ValidPinsExecute | schemas/src/lib.rs:583-615 | Every catalog pin of a valid candidate is planned as a rollout; the apply loop accepts it and decodes it to the pin iff the scrubber leaves catalog and agent alone |
| ValidSpecs.ValidSpecsFit | schemas/src/lib.rs:445-466 | In a valid candidate judged by the linked schema, the envelope accepts every document and its own kind's schema accepts its spec |
| ValidCandidates.ValidReferencesReadBack | schemas/src/registry.rs:499-761 | In a valid candidate the reference printed for an entry denotes that entry and no other |
| ApplyPlan.ValidatePlan | crates/fleet-api/src/apply.rs:202-320 | The running check accepts iff there are actions and a plan id, orders strictly increase and every action is paired correctly; a refusal is at the first action that breaks this, and says what in its texts does |
| ApplyPlan.WellPairedIff | crates/fleet-api/src/apply.rs:226-311 | An action is accepted by itself iff its kind, state and identity are, as texts, a tool, catalog or checkout that is missing or changed or a skill that is missing or extra, and a rollout names `catalog-skill:` catalog `/` agent and pins that catalog at 64 hexadecimal digits |
| ApplyPlan.CheckRollout | crates/fleet-api/src/apply.rs:279-311 | A rollout is accepted iff its identity names a catalog and an agent and its version pins that catalog |
| PlannedActions.PairedIffPlanned | crates/fleet-application/src/planner.rs:74-112 | The apply loop pairs a kind with a difference exactly when the planner resolves the difference with it |
| PlannedActions.KindOfAction | crates/fleet-application/src/planner.rs:74-112 | Which prefix and state each of the five kinds of action is for |
| Planner.Plan | crates/fleet-application/src/planner.rs:116-179 | The actions are those of the resolvable differences in plan order, numbered from one; `projects.clone` comes before every other kind, `mise.install` before `skills.deploy` and `skills.catalog-rollout`, which interleave by identity, and `skills.undeploy` after all; all else is reported, unresolvable ones as unsupported |
| Planner.NothingDropped | crates/fleet-application/src/planner.rs:144-165 | Every difference is acted on or reported, exactly once |
| Planner.DependenciesFirst | crates/fleet-application/src/planner.rs:55-72 | The differences acted on ascend by rank and within a rank by identity |
| Planner.PlanOrdered | crates/fleet-application/src/planner.rs:55-72 | The same in the actions' own words, kind by kind |
| Planner.ReportedInOrder | crates/fleet-application/src/planner.rs:129-174 | What is not acted on is reported: first what no bounded operation resolves, as unsupported, then what is not actionable, as it is; each by identity |
| Planner.PlanAnyOrder | crates/fleet-application/src/planner.rs:119-128 | The same differences in any order yield the same plan, when no two have one identity |
| StableSort.SortStable | crates/fleet-application/src/planner.rs:122-128 | The sort keeps the order of elements that compare equal |
| Planner.PlanAcceptedIff | crates/fleet-application/src/planner.rs:116-179 | The apply loop accepts the plan of any differences iff the rollouts among them are well-formed and their number fits the order field |
| PlannedActions.ActionsAcceptedIff | crates/fleet-api/src/apply.rs:202-320 | The same for actions in any order |
| Redaction.RedactSchemeless | crates/fleet-core/src/redact.rs:45-101 | The linear scan yields, for every text, the output of the backward searches it replaced |
| Redaction.CredentialMasked | crates/fleet-core/src/redact.rs:41-101 | A user and a password before a host are masked, whatever they are |
| RedactionRules.PasswordMasked | crates/fleet-core/src/redact.rs:41-101 | So are passwords with at signs and colons, after a slash or a quote: what is printed is what stands before and after |
| RedactionRules.PasswordMaskedInText | crates/fleet-core/src/redact.rs:41-101 | Between white space or quotes a credential is masked, and what stands before and after it is redacted in turn |
| RedactionRules.RedactedApart | crates/fleet-core/src/redact.rs:41-101 | White space and quotes separate: either side is redacted as if it stood alone |
| RedactionRules.TokenMaskedIff | crates/fleet-core/src/redact.rs:41-101 | In a word with one at sign, the token before it is masked iff it has text on both sides of its first colon |
| RedactionRules.SlashedPasswordKept | crates/fleet-core/src/redact.rs:46-76 | A password with a slash, and no colon after it, is left alone |
| Redaction.NothingToRedact | crates/fleet-core/src/redact.rs:41-101 | A text in which no at sign follows a user and a password is left alone |
| CatalogPins.PinExecutableIff | crates/fleet-api/src/apply.rs:279-311 | A pin the schema accepts is accepted iff the scrubber leaves the catalog id alone and the agent id usable, at signs included |
| CatalogPins.PinDecodesIff | crates/fleet-api/src/apply.rs:279-311 | It is accepted and decoded to itself iff the scrubber leaves both ids alone |
| CatalogPins.PinRoundTrip | crates/fleet-application/src/observed.rs:424-432 | An accepted pin is planned as a rollout, and comes back through the apply loop as itself iff the scrubber leaves both ids alone |
| CatalogPins.PinsApart | crates/fleet-application/src/observed.rs:424-432 | Two pins share an identity iff the scrubber makes their ids the same |
| CatalogPins.AcceptedPinsApart | crates/fleet-application/src/observed.rs:424-432 | The same for the real scrubber and any pins the schema accepts |
| CatalogPins.CredentialCatalogRefused | crates/fleet-api/src/apply.rs:279-311 | Every catalog id that reads as a credential passes the schema and is refused |
| CatalogPins.CredentialAgentsCollide | crates/fleet-application/src/observed.rs:424-432 | Two agents that read as credentials for one host share an identity, which is accepted and decoded to neither |
| ScopedKeys.BuildScopedKey | crates/fleet-application/src/idempotency.rs:31-48 | Building part by part yields the scoped key |
| ScopedKeys.ScopedKeyInjective | crates/fleet-application/src/idempotency.rs:1-14 | With a fixed number of parts no two inputs share a scope, whatever colons and non-ASCII text they contain |
| ScopedKeys.NumberOfPartsMatters | crates/fleet-application/src/idempotency.rs:1-14 | With a varying number of parts they can |
| Uploads.Controller.StreamUpload | crates/fleet-api/src/lab_put.rs:80-125 | A file is staged iff the body is nothing but chunks within the cap and the writer finishes; otherwise the partial file is gone; every change is a protocol step |
| Uploads.Controller.QueuePut | crates/fleet-api/src/lab_put.rs:139-215 | The detached task ends, accepted iff the digest agrees, the request is granted and the create answers; every change is a protocol step |
| Uploads.Controller.PutFile | crates/fleet-api/src/lab_put.rs:262-347 | The whole put: accepted iff every condition along the way holds, whatever goes on around it |
| Uploads.DeclaredAcceptedIff | crates/fleet-api/src/lab_put.rs:276-296 | A put that declares a digest is accepted iff that is 64 lower-case hexadecimal digits and the digest of what arrives, and the put would be accepted without it |
| Uploads.ReceivedIs | crates/fleet-api/src/lab_put.rs:90-118 | What is staged is the chunks as sent, one after the other |
| UploadOwnership.UploadsConserved | crates/fleet-api/src/lab_put.rs:139-215 | Over all runs, panics and errors included: operations carry distinct files with the content they were asked to copy, and once every put has ended no partial file is left, and the staged files are exactly the carried ones iff no put is harmed |
| UploadOwnership.CreateHarmlessIff | crates/fleet-application/src/operation.rs:1908-1956 | At the end of a run without a panic the files are conserved iff no create stored an operation and then answered an error |
| UploadOwnership.UnrecordedCreateLosesFile | crates/fleet-api/src/lab_put.rs:190-202 | A run of one put after which an operation has no file |
| UploadOwnership.PanicHarmlessIff | crates/fleet-api/src/lab_put.rs:334-344 | From a panic on, whatever happens, its file is there exactly when an operation carries it, iff the handler waited exactly while none did |
| UploadOwnership.PanicLosesFile | crates/fleet-api/src/lab_put.rs:334-344 | A run of one put whose task panics after its create: the operation has no file |
| UploadOwnership.PanicLeaksFile | crates/fleet-api/src/lab_put.rs:334-344 | A run of one put whose client leaves and whose task panics before its create: the file is nobody's |
| UploadOwnership.PanicSavesFile | crates/fleet-api/src/lab_put.rs:190-202 | A run in which a panic makes up for an unrecorded create |
| UploadReplay.ReplayIsFaithful | crates/fleet-api/src/machine_access.rs:785-818 | In every run a key has at most one operation; the operation a put is answered with was stored by a put of the same route, caller, lease or machine and key, and copies what this put asks, as declared, iff the texts their keys bind agree, which they do unless their digests collide |
| UploadReplay.SameKeySameAnswer | crates/fleet-api/src/machine_access.rs:776-787 | Two keyed puts are answered with one operation iff their keys, callers, machines and digests of the bound text agree; without a collision in the run, iff paths, flags and content digests do |
| UploadReplay.KeyScopes | crates/fleet-application/src/idempotency.rs:31-48 | Two scoped keys are one iff route, caller, target, key and digest of the bound text are, whatever the digest |
| UploadReplay.CollisionMisleads | crates/fleet-api/src/lab_put.rs:176-187 | Where the digest collides on two paths, the second put is answered with an operation that copies to the first |
| UploadReplay.ApartIsMet | crates/fleet-api/src/lab_put.rs:176-187 | Where it does not, both puts are accepted with operations and files of their own |
| UploadReplay.SuchRunsExist | crates/fleet-api/src/lab_put.rs:176-187 | A digest of one length and a run with two accepted puts that meet the condition |
| UploadReplay.ReplayReachesIff | crates/fleet-application/src/machine_access.rs:766-819 | The operation goes the way this put resolved to iff the put goes to a lease, stored the operation, or resolved to the endpoint, authentication and guest system of the put that did |
| UploadReplay.StableReplayReachesIff | crates/fleet-application/src/machine_access.rs:1129-1200 | While targets resolve as they always do, the operation goes the way this put asks for iff its target and the storing put's resolve alike |
| UploadReplay.ReplayGoesElsewhere | crates/fleet-api/src/machine_access.rs:767-787 | Any retry, the same request included, that resolves to another way is answered with the first operation, and its file is discarded |
| UploadReplay.BindingTextInjective | crates/fleet-api/src/lab_put.rs:176-187 | The text a key is bound to tells path, flag and digest apart, even for a path with separators |
| RecipePages.ListRecipes | crates/fleet-api/src/images.rs:359-394 | The page after the cursor, or the first; an unknown cursor is refused |
| RecipePages.LimitIs | crates/fleet-api/src/images.rs:368-372 | Fifty to a page unless the client asks for another number, and never more than 200 |
| RecipePages.WalksSurviveChange | crates/fleet-api/src/images.rs:359-394 | However the list changes, while no cursor's recipe is edited: no recipe is returned twice, one that was there throughout is returned by the end iff no change edits it while it stands after the cursor, and the requests but the last ask together for no more than was due at first |
| RecipePages.FullWalkReturnsIff | crates/fleet-api/src/envelope.rs:27-32 | The same for what is in the first list and the last, when ids are not given out again |
| RecipePages.NextRequestAnswered | crates/fleet-api/src/images.rs:376-384 | The next request is answered, after the cursor's recipe, iff that recipe is not deleted |
| RecipePages.QuietWalkFinishes | crates/fleet-api/src/images.rs:385-388 | On a fixed list of n the pages make up the list, whatever the limits, and in n/limit + 1 requests when they ask for one |
| RecipeEdits.EditSkips | crates/fleet-api/src/envelope.rs:27-32 | A walk whose cursors are kept and that never returns a recipe that was there throughout |
| RecipeEdits.CursorEditRepeats | crates/fleet-api/src/envelope.rs:27-32 | A walk that returns a recipe twice |
| RecipeEdits.ComesAgainIff | crates/fleet-api/src/images.rs:376-388 | Whatever happened before, a returned recipe that stays comes again iff it stands after the cursor of the next request and no later change edits it ahead |
| RecipeAccount.TimesReturned | crates/fleet-api/src/images.rs:359-394 | In every walk, whatever the lists and limits: a recipe is returned as often as it came to stand after the cursor, less the times it was passed over there and less one if it is still ahead |
| RecipeAccount.RepeatsExactly | crates/fleet-api/src/envelope.rs:27-32 | A walk repeats nothing iff no recipe came to stand after the cursor more than once more often than it was passed over or is still ahead, for any number of edits |
| RecipeAccount.ComesBackIff | crates/fleet-api/src/images.rs:376-384 | Which changes bring a recipe back behind the cursor, only edits of the cursor's recipe, and which pass one over |
| RecipeAccount.UntouchedTimes | crates/fleet-api/src/images.rs:359-394 | A recipe that is left alone is returned once, if it was due, and once more for each edit of a cursor's recipe while it was not ahead |
| RecipeStore.WriteMoves | crates/fleet-storage-sqlite/src/images.rs:240-316 | Under the table's order a later write puts what it creates or edits first, takes out what it deletes and keeps the order of the rest; publishing moves nothing |
| RecipeStore.EditStandsFirstIff | crates/fleet-storage-sqlite/src/images.rs:278-301 | An edited recipe stands first iff its time, or at one time its id, is above that of every other |
| RecipeStamps.StandsAfterIff | crates/fleet-storage-sqlite/src/images.rs:278-284 | In the list a recipe stands after another iff its time, or at one time its id, is below |
| RecipeStamps.TimeFollowsWrites | crates/fleet-storage-sqlite/src/images.rs:240-316 | Whatever the clock, after any writes a recipe has the time of the last one that created or edited it, or the time it had |
| RecipeClock.StampsDecide | crates/fleet-api/src/images.rs:359-508 | Whatever the clock, while the cursor's recipe is not written: another comes back iff the last write to it gave it a stamp below the cursor's, and is passed over iff it gave one above |
| RecipeClock.SteadyWalksSurvive | crates/fleet-api/src/images.rs:359-508 | While the clock is not set back, whatever is created, edited, published and deleted between requests: no repetition while no cursor's recipe is edited, and a recipe never deleted is returned by the end iff no write lifts it above the cursor while it stands after it |
| RecipeClock.ClockSetBackRepeats | crates/fleet-api/src/images.rs:487-508 | With a clock set back, a walk whose cursors' recipes are not edited returns a recipe twice |
| FreezeTree.DescendantsIn | xtask/src/acceptance.rs:456-468 | Exactly the transitive children of the root in the table, each once |
| FreezeTree.Machine.Scan | xtask/src/acceptance.rs:490-503 | Each row was true at an instant of its own, and a process there from beginning to end has one |
| FreezeTree.NothingNewSeals | xtask/src/acceptance.rs:505-531 | A scan that finds nothing new leaves no running descendant, although its rows were read at different instants |
| FreezeTree.Freeze | xtask/src/acceptance.rs:505-531 | Each stop is of exactly what a scan of its own showed below the root and was not yet frozen, every earlier stop being in effect when the scan began; everything stopped was born into the tree, once, in answer order, and nobody else is stopped; it settles iff a scan shows nothing new, and then the tree is sealed, and otherwise froze more than `rounds` processes |
| FreezeTree.SealedForGood | xtask/src/acceptance.rs:505-531 | No later step of any process adds a descendant to a sealed tree |
| FreezeTree.OnlyOrphansEscape | xtask/src/acceptance.rs:589-603 | A live process that ever descended from the root is in the answer, or lost an ancestor that exited before it was stopped |
| Acceptance.Build | xtask/src/acceptance.rs:165-273 | The result rows are those of the cells and of the stray reports, in order |
| AcceptanceVerdict.NothingDropped | xtask/src/acceptance.rs:165-273 | Result keys are distinct and are exactly the cells and the reported keys |
| AcceptanceVerdict.VerdictExact | xtask/src/acceptance.rs:276-287 | The run is accepted iff the exit succeeded and the reported keys are a permutation of the cells with no failing row |
| AcceptanceVerdict.RowOfCell | xtask/src/acceptance.rs:179-224 | The row of scenario `i` and column `j` stands in matrix order: the report as it is if there was one, a failure for want of one if there was none, and a failure that says how many there were if there were several |
| AcceptanceVerdict.StrayFails | xtask/src/acceptance.rs:225-255 | A key the matrix has no cell for stands in a failed row of its own, with the time of its first report |
| LabAcceptance.BuildLab | xtask/src/lab_acceptance.rs:98-167 | The growing columns and the last-report-wins rows, and the unknown scenarios after them |
| LabAcceptance.GrownInOrder | xtask/src/lab_acceptance.rs:105-112 | The expected columns stay first and the others follow in the order they were first reported, each once |
| LabAcceptance.LabRowIs | xtask/src/lab_acceptance.rs:110-140 | A cell's row is its last report as it is, or a failure for want of one |
| LabAcceptance.LabVerdict | xtask/src/lab_acceptance.rs:170-181 | Accepted iff the exit succeeded, every scenario is listed and each cell of the grown matrix last reported no failure |
| LabAcceptance.StrictRefinesLab | xtask/src/lab_acceptance.rs:98-181 | Whenever the strict runner accepts, the lab runner does, with the same rows and targets |
| LabAcceptance.StrictAgreesIff | xtask/src/lab_acceptance.rs:98-181 | When the lab runner accepts, the strict one does iff no key is reported twice and every report names an expected column |
| LabAcceptance.RepeatsAreForgotten | xtask/src/lab_acceptance.rs:98-167 | Reporting a cell once more, before what the lab runner accepts and with any verdict, is accepted by it and refused by the strict one |
| LabAcceptance.LabDropsIff | xtask/src/lab_acceptance.rs:98-167 | A report has no row iff its scenario is listed, it names no target, and the grown matrix has targets |
| LabAcceptance.FailureDropped | xtask/src/lab_acceptance.rs:98-167 | A failure reported without a target is in no row of an accepted summary |
| ResultLine.ParseResultLine | xtask/src/acceptance.rs:92-123 | The parser loop reads what the line's fields denote |
| ResultLine.LineRoundTrip | xtask/src/acceptance.rs:92-123 | Every printable row, after any prefix without the marker, is read back |
| ResultLine.LineReads | xtask/src/acceptance.rs:92-123 | The line of a row is, letter for letter, the marker, `scenario=`, `target=` (`-` for none), `status=`, `duration_ms=` and `reason=` |
| ResultLine.AcceptedLine | xtask/src/acceptance.rs:92-123 | Every accepted line has all four fields, and a reason unless it passes |
| JsonText.WriteJsonString | xtask/src/acceptance.rs:359-378 | The loop writes the string literal |
| JsonText.StringRoundTrip | xtask/src/acceptance.rs:359-378 | A JSON parser decodes the literal of every string, controls, quotes and backslashes included, to that string |
| JsonLayout.RenderRead | xtask/src/acceptance.rs:291-350 | A parser of RFC 8259 reads every laid-out document back, whatever white space separates its parts |
| SummaryJson.ToJson | xtask/src/acceptance.rs:291-350 | The line by line writer yields the summary's layout |
| SummaryJson.SummaryRoundTrip | xtask/src/acceptance.rs:291-350 | For every summary the written text parses to exactly the summary's document |
| SummaryTotals.SummaryReads | xtask/src/acceptance.rs:291-350 | It parses to the summary member by member, each under its own name |
| SummaryTotals.TotalsAgree | xtask/src/acceptance.rs:276-350 | The parsed totals and `ok` are what the parsed rows and test exit imply |

## Left out

- SchemaLinker.GenerateSchema: keywords beyond the modelled classes (`patternProperties`, `prefixItems`, `contains` and the like) only annotate, and numbers are compared by their text.
- LinkedSchema.LinkingPreservesMeaning: asks that the marker occurs in references of the form `#/$defs/Name` only and that the envelope has no `allOf`; the generated schemas are such, but Schemars is not modelled.
- Registry.ValidateRegistry: reading a spec into its structure is a parameter, so a spec that cannot be read is skipped as in the code; the grammars of money, dates, hosts, emails and URLs are parameters.
- DocumentChecks.ValidateSemantics: the grammar of remotes is a parameter.
- Validation.ValidateSources: the line and column of a YAML error, and the order in which a report lists its diagnostics.
- Planner.Plan: the texts of reasons and the observed values a difference carries along.
- Redaction.RedactSchemeless: texts are sequences of characters, so the byte offsets of the scan are character offsets.
- Uploads.Controller.StreamUpload: the budget shared by all uploads is the event `Busy`; how many bytes are staged is not counted.
- UploadOwnership.UploadsConserved: the executor that uses up an operation's file, and the reclaiming of stale files at start, come after what is modelled.
- UploadReplay.ReplayReachesIff: how endpoint and authentication are looked up is not modelled; a put resolves to any way that agrees with what it spells out.
- RecipeStore.WriteMoves: a recipe's content is one text, and its name, which is unique, is part of that text.
- Acceptance.Build: quoting with `{:?}` escapes quotes and backslashes only; the deadline of a run and the processes it starts.
- FreezeTree.Freeze: a subreaper inside the tree; signals other than stop; `/proc` is the process table.
- The lease, reservation, removal and enrollment state machines, HTTP extraction, authorization and audit calls, DTO conversions, the web app and the packaging tasks.
