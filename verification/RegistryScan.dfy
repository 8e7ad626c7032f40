/** Scanning a Registry spec for credentials, without ever printing one. */
module RegistryScan {
  import opened Text
  import opened JsonValues
  import opened Diagnostics
  import opened Sequences
  import opened RegistryNames

  /** Whether the credential scrubber would change a text: not modelled. */
  type Scrubber = string -> bool

  type Path = seq<Segment>

  datatype Found = Found(path: Path, text: string)

  // ------------------------------------------------- every string and key

  function MemberPath(path: Path, key: string): Path {
    path + [Key(SafeKey(key))]
  }

  function Strings(value: Json, path: Path): seq<Found>
    decreases value, 2, 0
  {
    match value
    case Str(text) => [Found(path, text)]
    case Arr(items) => StringsOfItems(value, |items|, path)
    case Obj(fields) => StringsOfMembers(value, SortedKeys(fields.Keys), path)
    case _ => []
  }

  function StringsOfItems(list: Json, n: nat, path: Path): seq<Found>
    requires list.Arr? && n <= |list.items|
    decreases list, 1, n
  {
    if n == 0 then [] else StringsOfItems(list, n - 1, path) + Strings(list.items[n - 1], path + [Index(n - 1)])
  }

  function StringsOfMembers(owner: Json, keys: seq<string>, path: Path): seq<Found>
    requires owner.Obj? && forall k :: k in keys ==> k in owner.fields
    decreases owner, 1, |keys|
  {
    if keys == [] then []
    else
      var key := keys[|keys| - 1];
      StringsOfMembers(owner, keys[..|keys| - 1], path)
      + [Found(MemberPath(path, key), key)] + Strings(owner.fields[key], MemberPath(path, key))
  }

  method CollectStrings(value: Json, path: Path, before: seq<Found>) returns (found: seq<Found>)
    ensures found == before + Strings(value, path)
    decreases value
  {
    found := before;
    match value
    case Str(text) =>
      found := found + [Found(path, text)];
    case Arr(items) =>
      for i := 0 to |items|
        invariant found == before + StringsOfItems(value, i, path)
      {
        Associative(before, StringsOfItems(value, i, path), Strings(items[i], path + [Index(i)]));
        found := CollectStrings(items[i], path + [Index(i)], found);
      }
    case Obj(fields) =>
      var keys := SortedKeys(fields.Keys);
      for i := 0 to |keys|
        invariant found == before + StringsOfMembers(value, keys[..i], path)
      {
        var at := MemberPath(path, keys[i]);
        OneMemberMore(value, keys, i, path, before);
        found := CollectStrings(fields[keys[i]], at, found + [Found(at, keys[i])]);
      }
      assert keys[..|keys|] == keys;
    case _ =>
  }

  lemma OneMemberMore(owner: Json, keys: seq<string>, i: nat, path: Path, before: seq<Found>)
    requires owner.Obj? && i < |keys| && forall k :: k in keys ==> k in owner.fields
    ensures before + StringsOfMembers(owner, keys[..i + 1], path)
         == before + StringsOfMembers(owner, keys[..i], path) + [Found(MemberPath(path, keys[i]), keys[i])]
            + Strings(owner.fields[keys[i]], MemberPath(path, keys[i]))
  {
    assert keys[..i + 1][..i] == keys[..i];
    var at := MemberPath(path, keys[i]);
    FourParts(before, StringsOfMembers(owner, keys[..i], path), [Found(at, keys[i])],
              Strings(owner.fields[keys[i]], at));
  }

  lemma FourParts<T>(a: seq<T>, b: seq<T>, c: seq<T>, d: seq<T>)
    ensures a + (b + c + d) == a + b + c + d
  {
  }

  // -------------------------------------------------------------- the scan

  function CredentialError(base: string, path: Path): Diagnostic {
    Diagnostic(CredentialValue, Location(base, path), [])
  }

  function StringErrors(carries: Scrubber, base: string, found: seq<Found>): seq<Diagnostic> {
    if found == [] then []
    else
      var last := found[|found| - 1];
      StringErrors(carries, base, found[..|found| - 1]) + if carries(last.text)
        then [CredentialError(base, last.path)] else []
  }

  /** A name and a value that the scrubber only recognizes joined. */
  function Joined(name: string, text: string): string {
    name + ": " + text
  }

  /** The values under one field, with where they are. */
  function FieldItems(name: string, value: Json): seq<(Path, Json)> {
    var at := [Key("spec"), Key("fields"), Key(SafeKey(name))];
    if value.Arr? then seq(|value.items|, i requires 0 <= i < |value.items| => (at + [Index(i)], value.items[i]))
      else [(at, value)]
  }

  function PairErrors(carries: Scrubber, base: string, name: string, items: seq<(Path, Json)>): seq<Diagnostic> {
    if items == [] then []
    else
      var (path, item) := items[|items| - 1];
      PairErrors(carries, base, name, items[..|items| - 1])
      + if item.Str? && carries(Joined(name, item.str)) then [CredentialError(base, path)] else []
  }

  function FieldErrors(carries: Scrubber, base: string, fields: map<string, Json>, keys: seq<string>): seq<Diagnostic>
    requires forall k :: k in keys ==> k in fields
  {
    if keys == [] then []
    else
      var key := keys[|keys| - 1];
      FieldErrors(carries, base, fields, keys[..|keys| - 1])
        + PairErrors(carries, base, key, FieldItems(key, fields[key]))
  }

  predicate LinkCarries(carries: Scrubber, link: Json) {
    var caption, url := AsStr(Get(link, "label")), AsStr(Get(link, "url"));
    caption.Some? && url.Some? && carries(Joined(caption.value, url.value))
  }

  function LinkErrors(carries: Scrubber, base: string, links: seq<Json>): seq<Diagnostic> {
    if links == [] then []
    else
      var last := |links| - 1;
      LinkErrors(carries, base, links[..last])
      + if LinkCarries(carries, links[last]) then [CredentialError(base, [Key("spec"), Key("links"), Index(last)])]
        else []
  }

  function FieldsOf(spec: Json): map<string, Json> {
    match Get(spec, "fields")
    case Some(Obj(fields)) => fields
    case _ => map[]
  }

  function ScanErrors(carries: Scrubber, base: string, spec: Json): seq<Diagnostic> {
    StringErrors(carries, base, Strings(spec, [Key("spec")]))
    + FieldErrors(carries, base, FieldsOf(spec), SortedKeys(FieldsOf(spec).Keys))
    + LinkErrors(carries, base, AsArr(Get(spec, "links")))
  }

  method ScanCredentials(carries: Scrubber, base: string, spec: Json, errors: Log)
    modifies errors
    ensures errors.items == old(errors.items) + ScanErrors(carries, base, spec)
  {
    var found := CollectStrings(spec, [Key("spec")], []);
    assert found == Strings(spec, [Key("spec")]);
    ReportStrings(carries, base, found, errors);
    ReportFields(carries, base, FieldsOf(spec), errors);
    ReportLinks(carries, base, AsArr(Get(spec, "links")), errors);
    FourParts(old(errors.items), StringErrors(carries, base, found),
              FieldErrors(carries, base, FieldsOf(spec), SortedKeys(FieldsOf(spec).Keys)),
              LinkErrors(carries, base, AsArr(Get(spec, "links"))));
  }

  method ReportStrings(carries: Scrubber, base: string, found: seq<Found>, errors: Log)
    modifies errors
    ensures errors.items == old(errors.items) + StringErrors(carries, base, found)
  {
    for i := 0 to |found|
      invariant errors.items == old(errors.items) + StringErrors(carries, base, found[..i])
    {
      assert found[..i + 1][..i] == found[..i];
      if carries(found[i].text) {
        errors.Push(CredentialError(base, found[i].path));
      }
    }
    assert found[..|found|] == found;
  }

  method ReportFields(carries: Scrubber, base: string, fields: map<string, Json>, errors: Log)
    modifies errors
    ensures errors.items == old(errors.items) + FieldErrors(carries, base, fields, SortedKeys(fields.Keys))
  {
    var keys := SortedKeys(fields.Keys);
    for i := 0 to |keys|
      invariant errors.items == old(errors.items) + FieldErrors(carries, base, fields, keys[..i])
    {
      assert keys[..i + 1][..i] == keys[..i];
      Associative(old(errors.items), FieldErrors(carries, base, fields, keys[..i]),
                  PairErrors(carries, base, keys[i], FieldItems(keys[i], fields[keys[i]])));
      ReportPairs(carries, base, keys[i], FieldItems(keys[i], fields[keys[i]]), errors);
    }
    assert keys[..|keys|] == keys;
  }

  method ReportPairs(carries: Scrubber, base: string, name: string, items: seq<(Path, Json)>, errors: Log)
    modifies errors
    ensures errors.items == old(errors.items) + PairErrors(carries, base, name, items)
  {
    for i := 0 to |items|
      invariant errors.items == old(errors.items) + PairErrors(carries, base, name, items[..i])
    {
      assert items[..i + 1][..i] == items[..i];
      var (path, item) := items[i];
      if item.Str? && carries(Joined(name, item.str)) {
        errors.Push(CredentialError(base, path));
      }
    }
    assert items[..|items|] == items;
  }

  method ReportLinks(carries: Scrubber, base: string, links: seq<Json>, errors: Log)
    modifies errors
    ensures errors.items == old(errors.items) + LinkErrors(carries, base, links)
  {
    for i := 0 to |links|
      invariant errors.items == old(errors.items) + LinkErrors(carries, base, links[..i])
    {
      assert links[..i + 1][..i] == links[..i];
      if LinkCarries(carries, links[i]) {
        errors.Push(CredentialError(base, [Key("spec"), Key("links"), Index(i)]));
      }
    }
    assert links[..|links|] == links;
  }
}
