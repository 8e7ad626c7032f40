/** Validation diagnostics, and the list validators append them to. */
module Diagnostics {
  datatype Code =
    | YamlParse | UnknownApiVersion | UnknownKind | SchemaInvalid | DuplicateId | InvalidId | InvalidName
    | InvalidSkillAssignment | DuplicateHardware | CredentialReference | InvalidRemote
    | DuplicateName | UnresolvedReference | ProfileCycle
    | CredentialValue | BuiltinRedefined | DuplicateType | InvalidType | UnknownType | UnknownField
    | FieldType | DuplicateItem | MissingRequired | InvalidTag | InvalidLink | DuplicateKey | InvalidKey
    | InvalidRelationType | RelationNotAllowed | InvalidTarget | UnknownTargetType | DanglingRelation

  datatype Segment = Key(name: string) | Index(at: nat)

  /** Where a diagnostic points: the source document and a path in it. */
  datatype Location = Location(base: string, path: seq<Segment>)

  /** `detail` holds the texts the message quotes, in order. */
  datatype Diagnostic = Diagnostic(code: Code, at: Location, detail: seq<string>)

  class Log {
    var items: seq<Diagnostic>

    constructor ()
      ensures items == []
    {
      items := [];
    }

    method Push(d: Diagnostic)
      modifies this
      ensures items == old(items) + [d]
    {
      items := items + [d];
    }
  }
}
