/** What a credential scan reports does not depend on the texts it hides. */
module ScanPrivacy {
  import opened Text
  import opened JsonValues
  import opened Diagnostics
  import opened RegistryNames
  import opened RegistryScan

  // ---------------------------------------------------------------- twins

  /** Keys printed alike, with one verdict of the scrubber. */
  predicate KeysAlike(carries: Scrubber, a: string, b: string) {
    SafeKey(a) == SafeKey(b) && carries(a) == carries(b)
  }

  /** Values of one shape whose texts and unsafe keys may differ, as long as the
      scrubber judges them alike. */
  ghost predicate Twins(carries: Scrubber, a: Json, b: Json)
    decreases a, 1
  {
    match a
    case Str(text) => b.Str? && carries(text) == carries(b.str)
    case Arr(items) => b.Arr? && |b.items| == |items| && forall i :: 0 <= i < |items| ==>
      Twins(carries, items[i], b.items[i])
    case Obj(fields) =>
      && b.Obj?
      && (forall k :: k in fields ==> HasTwin(carries, a, k, b))
      && (forall m :: m in b.fields ==> IsTwin(carries, a, b, m))
    case _ => !b.Str? && !b.Arr? && !b.Obj?
  }

  /** Some member of `b` answers to member `k` of `a`. */
  ghost predicate HasTwin(carries: Scrubber, a: Json, k: string, b: Json)
    requires a.Obj? && k in a.fields && b.Obj?
    decreases a, 0
  {
    exists m :: m in b.fields && KeysAlike(carries, k, m) && Twins(carries, a.fields[k], b.fields[m])
  }

  /** Member `m` of `b` answers to some member of `a`. */
  ghost predicate IsTwin(carries: Scrubber, a: Json, b: Json, m: string)
    requires a.Obj? && b.Obj? && m in b.fields
    decreases a, 0
  {
    exists k :: k in a.fields && KeysAlike(carries, k, m) && Twins(carries, a.fields[k], b.fields[m])
  }

  predicate PairCarries(carries: Scrubber, name: string, item: Json) {
    item.Str? && carries(Joined(name, item.str))
  }

  /** Field values of one shape whose name/value pairs are judged alike. */
  predicate PairsAlike(carries: Scrubber, a: string, value: Json, b: string, other: Json) {
    && SafeKey(a) == SafeKey(b) && (value.Arr? <==> other.Arr?)
    && |FieldItems(a, value)| == |FieldItems(b, other)|
    && forall i :: 0 <= i < |FieldItems(a, value)| ==>
         (PairCarries(carries, a, FieldItems(a, value)[i].1) <==> PairCarries(carries, b, FieldItems(b, other)[i].1))
  }

  ghost predicate FieldsAlike(carries: Scrubber, a: map<string, Json>, b: map<string, Json>) {
    (forall k :: k in a ==> HasPair(carries, a, k, b)) && forall m :: m in b ==> IsPair(carries, a, b, m)
  }

  ghost predicate HasPair(carries: Scrubber, a: map<string, Json>, k: string, b: map<string, Json>)
    requires k in a
  {
    exists m :: m in b && PairsAlike(carries, k, a[k], m, b[m])
  }

  ghost predicate IsPair(carries: Scrubber, a: map<string, Json>, b: map<string, Json>, m: string)
    requires m in b
  {
    exists k :: k in a && PairsAlike(carries, k, a[k], m, b[m])
  }

  predicate LinksAlike(carries: Scrubber, a: seq<Json>, b: seq<Json>) {
    |a| == |b| && forall i :: 0 <= i < |a| ==> (LinkCarries(carries, a[i]) <==> LinkCarries(carries, b[i]))
  }

  ghost predicate SpecTwins(carries: Scrubber, a: Json, b: Json) {
    && Twins(carries, a, b) && FieldsAlike(carries, FieldsOf(a), FieldsOf(b))
    && LinksAlike(carries, AsArr(Get(a, "links")), AsArr(Get(b, "links")))
  }

  // ------------------------------------------------- strings and their spots

  /** The scrubber recognizes a text found at `at`. */
  ghost predicate Spotted(carries: Scrubber, found: seq<Found>, at: Path) {
    exists i :: 0 <= i < |found| && found[i].path == at && carries(found[i].text)
  }

  lemma SpottedSum(carries: Scrubber, a: seq<Found>, b: seq<Found>, at: Path)
    ensures Spotted(carries, a + b, at) <==> Spotted(carries, a, at) || Spotted(carries, b, at)
  {
    if Spotted(carries, a, at) {
      var i :| 0 <= i < |a| && a[i].path == at && carries(a[i].text);
      assert (a + b)[i] == a[i];
    }
    if Spotted(carries, b, at) {
      var i :| 0 <= i < |b| && b[i].path == at && carries(b[i].text);
      assert (a + b)[|a| + i] == b[i];
    }
  }

  lemma {:induction false} SpottedInItems(carries: Scrubber, list: Json, n: nat, path: Path, at: Path)
    requires list.Arr? && n <= |list.items|
    ensures Spotted(carries, StringsOfItems(list, n, path), at)
      <==> exists i :: 0 <= i < n && Spotted(carries, Strings(list.items[i], path + [Index(i)]), at)
  {
    if n > 0 {
      SpottedInItems(carries, list, n - 1, path, at);
      SpottedSum(carries, StringsOfItems(list, n - 1, path), Strings(list.items[n - 1], path + [Index(n - 1)]), at);
    }
  }

  /** The key, or something under it, is spotted. */
  ghost predicate SpottedUnder(carries: Scrubber, owner: Json, key: string, path: Path, at: Path)
    requires owner.Obj? && key in owner.fields
  {
    (carries(key) && at == MemberPath(path, key))
      || Spotted(carries, Strings(owner.fields[key], MemberPath(path, key)), at)
  }

  /** The strings of one more member: those before it, its key, and its own. */
  lemma OneMoreMember(carries: Scrubber, owner: Json, before: seq<string>, key: string, path: Path, at: Path)
    requires owner.Obj? && key in owner.fields && forall k :: k in before ==> k in owner.fields
    ensures forall k :: k in before + [key] ==> k in owner.fields
    ensures Spotted(carries, StringsOfMembers(owner, before + [key], path), at) <==>
      Spotted(carries, StringsOfMembers(owner, before, path), at) || SpottedUnder(carries, owner, key, path, at)
  {
    var keys, own := before + [key], [Found(MemberPath(path, key), key)];
    var first, last := StringsOfMembers(owner, before, path), Strings(owner.fields[key], MemberPath(path, key));
    assert keys != [] && keys[..|keys| - 1] == before && keys[|keys| - 1] == key;
    assert StringsOfMembers(owner, keys, path) == first + own + last;
    SpottedSum(carries, first + own, last, at);
    SpottedSum(carries, first, own, at);
    TextSpotted(carries, key, MemberPath(path, key), at);
  }

  lemma {:induction false} SpottedInMembers(carries: Scrubber, owner: Json, keys: seq<string>, path: Path, at: Path)
    requires owner.Obj? && forall k :: k in keys ==> k in owner.fields
    ensures Spotted(carries, StringsOfMembers(owner, keys, path), at)
      <==> exists k :: k in keys && SpottedUnder(carries, owner, k, path, at)
  {
    if keys != [] {
      var before, key := keys[..|keys| - 1], keys[|keys| - 1];
      assert keys == before + [key];
      SpottedInMembers(carries, owner, before, path, at);
      OneMoreMember(carries, owner, before, key, path, at);
      assert forall k :: k in keys <==> k == key || k in before;
    }
  }

  lemma TextSpotted(carries: Scrubber, text: string, path: Path, at: Path)
    ensures Spotted(carries, [Found(path, text)], at) <==> path == at && carries(text)
  {
    assert [Found(path, text)][0].text == text;
  }

  lemma {:induction false} TwinsSpotAlike(carries: Scrubber, a: Json, b: Json, path: Path, at: Path)
    requires Twins(carries, a, b)
    ensures Spotted(carries, Strings(a, path), at) <==> Spotted(carries, Strings(b, path), at)
    decreases a, 5
  {
    if a.Str? {
      TextSpotted(carries, a.str, path, at);
      TextSpotted(carries, b.str, path, at);
    } else if a.Arr? {
      ItemsSpotAlike(carries, a, b, path, at);
    } else if a.Obj? {
      ObjectsSpotAlike(carries, a, b, path, at);
    }
  }

  lemma {:induction false} ObjectsSpotAlike(carries: Scrubber, a: Json, b: Json, path: Path, at: Path)
    requires a.Obj? && b.Obj?
    ensures Twins(carries, a, b) ==>
      (Spotted(carries, Strings(a, path), at) <==> Spotted(carries, Strings(b, path), at))
    decreases a, 4
  {
    var keys := MembersOf(a, path);
    var others := MembersOf(b, path);
    MembersSpotAlike(carries, a, keys, b, others, path, at);
  }

  lemma MembersOf(owner: Json, path: Path) returns (keys: seq<string>)
    requires owner.Obj?
    ensures (forall k :: k in keys <==> k in owner.fields)
      && Strings(owner, path) == StringsOfMembers(owner, keys, path)
  {
    keys := SortedKeys(owner.fields.Keys);
  }

  lemma {:induction false} UnderAlike(carries: Scrubber, a: Json, k: string, b: Json, m: string, path: Path, at: Path)
    requires a.Obj? && k in a.fields && b.Obj? && m in b.fields
    requires KeysAlike(carries, k, m) && Twins(carries, a.fields[k], b.fields[m])
    ensures SpottedUnder(carries, a, k, path, at) <==> SpottedUnder(carries, b, m, path, at)
    decreases a, 0
  {
    TwinsSpotAlike(carries, a.fields[k], b.fields[m], MemberPath(path, k), at);
  }

  lemma {:induction false} TwinSpotted(carries: Scrubber, a: Json, k: string, b: Json, path: Path, at: Path)
      returns (m: string)
    requires a.Obj? && k in a.fields && b.Obj? && HasTwin(carries, a, k, b) && SpottedUnder(carries, a, k, path, at)
    ensures m in b.fields && SpottedUnder(carries, b, m, path, at)
    decreases a, 1
  {
    m :| m in b.fields && KeysAlike(carries, k, m) && Twins(carries, a.fields[k], b.fields[m]);
    UnderAlike(carries, a, k, b, m, path, at);
  }

  lemma {:induction false} SpottedTwin(carries: Scrubber, a: Json, b: Json, m: string, path: Path, at: Path)
      returns (k: string)
    requires a.Obj? && b.Obj? && m in b.fields && IsTwin(carries, a, b, m) && SpottedUnder(carries, b, m, path, at)
    ensures k in a.fields && SpottedUnder(carries, a, k, path, at)
    decreases a, 1
  {
    k :| k in a.fields && KeysAlike(carries, k, m) && Twins(carries, a.fields[k], b.fields[m]);
    UnderAlike(carries, a, k, b, m, path, at);
  }

  lemma SpottedMember(carries: Scrubber, owner: Json, keys: seq<string>, path: Path, at: Path) returns (k: string)
    requires owner.Obj? && (forall k :: k in keys ==> k in owner.fields)
      && Spotted(carries, StringsOfMembers(owner, keys, path), at)
    ensures k in keys && SpottedUnder(carries, owner, k, path, at)
  {
    SpottedInMembers(carries, owner, keys, path, at);
    k :| k in keys && SpottedUnder(carries, owner, k, path, at);
  }

  lemma MemberSpotted(carries: Scrubber, owner: Json, keys: seq<string>, k: string, path: Path, at: Path)
    requires owner.Obj? && (forall k :: k in keys ==> k in owner.fields) && k in keys
      && SpottedUnder(carries, owner, k, path, at)
    ensures Spotted(carries, StringsOfMembers(owner, keys, path), at)
  {
    SpottedInMembers(carries, owner, keys, path, at);
  }

  lemma {:induction false} MembersSpotForward(
      carries: Scrubber, a: Json, keys: seq<string>, b: Json, others: seq<string>, path: Path, at: Path)
    requires a.Obj? && b.Obj? && (forall k :: k in keys ==> k in a.fields) && forall m :: m in others <==> m in b.fields
    requires forall k :: k in a.fields ==> HasTwin(carries, a, k, b)
    ensures Spotted(carries, StringsOfMembers(a, keys, path), at) ==>
      Spotted(carries, StringsOfMembers(b, others, path), at)
    decreases a, 2
  {
    if Spotted(carries, StringsOfMembers(a, keys, path), at) {
      var k := SpottedMember(carries, a, keys, path, at);
      var m := TwinSpotted(carries, a, k, b, path, at);
      MemberSpotted(carries, b, others, m, path, at);
    }
  }

  lemma {:induction false} MembersSpotBackward(
      carries: Scrubber, a: Json, keys: seq<string>, b: Json, others: seq<string>, path: Path, at: Path)
    requires a.Obj? && b.Obj? && (forall k :: k in keys <==> k in a.fields) && forall m :: m in others ==> m in b.fields
    requires forall m :: m in b.fields ==> IsTwin(carries, a, b, m)
    ensures Spotted(carries, StringsOfMembers(b, others, path), at) ==>
      Spotted(carries, StringsOfMembers(a, keys, path), at)
    decreases a, 2
  {
    if Spotted(carries, StringsOfMembers(b, others, path), at) {
      var m := SpottedMember(carries, b, others, path, at);
      var k := SpottedTwin(carries, a, b, m, path, at);
      MemberSpotted(carries, a, keys, k, path, at);
    }
  }

  lemma {:induction false} MembersSpotAlike(
      carries: Scrubber, a: Json, keys: seq<string>, b: Json, others: seq<string>, path: Path, at: Path)
    requires a.Obj? && b.Obj? && (forall k :: k in keys <==> k in a.fields) && forall m :: m in others <==>
      m in b.fields
    ensures Twins(carries, a, b) ==>
      (Spotted(carries, StringsOfMembers(a, keys, path), at)
       <==> Spotted(carries, StringsOfMembers(b, others, path), at))
    decreases a, 3
  {
    if Twins(carries, a, b) {
      MembersSpotForward(carries, a, keys, b, others, path, at);
      MembersSpotBackward(carries, a, keys, b, others, path, at);
    }
  }

  lemma SpottedItem(carries: Scrubber, list: Json, path: Path, at: Path) returns (i: nat)
    requires list.Arr? && Spotted(carries, StringsOfItems(list, |list.items|, path), at)
    ensures i < |list.items| && Spotted(carries, Strings(list.items[i], path + [Index(i)]), at)
  {
    SpottedInItems(carries, list, |list.items|, path, at);
    i :| 0 <= i < |list.items| && Spotted(carries, Strings(list.items[i], path + [Index(i)]), at);
  }

  lemma ItemSpotted(carries: Scrubber, list: Json, i: nat, path: Path, at: Path)
    requires list.Arr? && i < |list.items| && Spotted(carries, Strings(list.items[i], path + [Index(i)]), at)
    ensures Spotted(carries, StringsOfItems(list, |list.items|, path), at)
  {
    SpottedInItems(carries, list, |list.items|, path, at);
  }

  lemma {:induction false} ItemsSpotAlike(carries: Scrubber, a: Json, b: Json, path: Path, at: Path)
    requires a.Arr? && b.Arr? && |a.items| == |b.items| && forall i :: 0 <= i < |a.items| ==>
      Twins(carries, a.items[i], b.items[i])
    ensures Spotted(carries, StringsOfItems(a, |a.items|, path), at) <==>
      Spotted(carries, StringsOfItems(b, |b.items|, path), at)
    decreases a, 2
  {
    if Spotted(carries, StringsOfItems(a, |a.items|, path), at) {
      var i := SpottedItem(carries, a, path, at);
      TwinsSpotAlike(carries, a.items[i], b.items[i], path + [Index(i)], at);
      ItemSpotted(carries, b, i, path, at);
    }
    if Spotted(carries, StringsOfItems(b, |b.items|, path), at) {
      var i := SpottedItem(carries, b, path, at);
      TwinsSpotAlike(carries, a.items[i], b.items[i], path + [Index(i)], at);
      ItemSpotted(carries, a, i, path, at);
    }
  }

  lemma {:induction false} StringErrorsAre(carries: Scrubber, base: string, found: seq<Found>, d: Diagnostic)
    ensures d in StringErrors(carries, base, found) <==>
      d == CredentialError(base, d.at.path) && Spotted(carries, found, d.at.path)
  {
    if found != [] {
      var last := |found| - 1;
      StringErrorsAre(carries, base, found[..last], d);
      assert found == found[..last] + [found[last]];
      SpottedSum(carries, found[..last], [found[last]], d.at.path);
      assert Spotted(carries, [found[last]], d.at.path) <==>
        found[last].path == d.at.path && carries(found[last].text) by {
        assert [found[last]][0] == found[last];
      }
    }
  }

  // ------------------------------------------------------- joined pairs

  /** A pair under this field is recognized at `at`. */
  ghost predicate PairSpotted(carries: Scrubber, name: string, items: seq<(Path, Json)>, at: Path) {
    exists i :: 0 <= i < |items| && items[i].0 == at && PairCarries(carries, name, items[i].1)
  }

  lemma {:induction false} PairErrorsAre(carries: Scrubber, base: string, name: string, items: seq<(Path, Json)>,
                                         d: Diagnostic)
    ensures d in PairErrors(carries, base, name, items) <==>
      d == CredentialError(base, d.at.path) && PairSpotted(carries, name, items, d.at.path)
  {
    if items != [] {
      var last := |items| - 1;
      PairErrorsAre(carries, base, name, items[..last], d);
      if PairSpotted(carries, name, items[..last], d.at.path) {
        var i :| 0 <= i < last && items[..last][i].0 == d.at.path && PairCarries(carries, name, items[..last][i].1);
        assert items[i] == items[..last][i];
      }
      if PairSpotted(carries, name, items, d.at.path) {
        var i :| 0 <= i < |items| && items[i].0 == d.at.path && PairCarries(carries, name, items[i].1);
        assert i < last ==> items[..last][i] == items[i];
      }
    }
  }

  lemma {:induction false} FieldErrorsAre(carries: Scrubber, base: string, fields: map<string, Json>,
                                          keys: seq<string>, d: Diagnostic)
    requires forall k :: k in keys ==> k in fields
    ensures d in FieldErrors(carries, base, fields, keys)
      <==> exists k :: k in keys && d in PairErrors(carries, base, k, FieldItems(k, fields[k]))
  {
    if keys != [] {
      var before, key := keys[..|keys| - 1], keys[|keys| - 1];
      assert keys == before + [key];
      FieldErrorsAre(carries, base, fields, before, d);
    }
  }

  lemma PairsReportAlike(carries: Scrubber, base: string, a: string, value: Json, b: string, other: Json, d: Diagnostic)
    requires PairsAlike(carries, a, value, b, other)
    ensures d in PairErrors(carries, base, a, FieldItems(a, value)) <==>
      d in PairErrors(carries, base, b, FieldItems(b, other))
  {
    var items, others := FieldItems(a, value), FieldItems(b, other);
    PairErrorsAre(carries, base, a, items, d);
    PairErrorsAre(carries, base, b, others, d);
    forall i | 0 <= i < |items| ensures items[i].0 == others[i].0 {
    }
  }

  lemma ReportedField(carries: Scrubber, base: string, fields: map<string, Json>, keys: seq<string>, d: Diagnostic)
      returns (k: string)
    requires (forall k :: k in keys ==> k in fields) && d in FieldErrors(carries, base, fields, keys)
    ensures k in keys && d in PairErrors(carries, base, k, FieldItems(k, fields[k]))
  {
    FieldErrorsAre(carries, base, fields, keys, d);
    k :| k in keys && d in PairErrors(carries, base, k, FieldItems(k, fields[k]));
  }

  lemma FieldReported(carries: Scrubber, base: string, fields: map<string, Json>, keys: seq<string>, k: string,
                      d: Diagnostic)
    requires (forall k :: k in keys ==> k in fields) && k in keys
      && d in PairErrors(carries, base, k, FieldItems(k, fields[k]))
    ensures d in FieldErrors(carries, base, fields, keys)
  {
    FieldErrorsAre(carries, base, fields, keys, d);
  }

  lemma PairReported(carries: Scrubber, base: string, a: map<string, Json>, k: string, b: map<string, Json>,
                     d: Diagnostic) returns (m: string)
    requires k in a && HasPair(carries, a, k, b) && d in PairErrors(carries, base, k, FieldItems(k, a[k]))
    ensures m in b && d in PairErrors(carries, base, m, FieldItems(m, b[m]))
  {
    m :| m in b && PairsAlike(carries, k, a[k], m, b[m]);
    PairsReportAlike(carries, base, k, a[k], m, b[m], d);
  }

  lemma ReportedPair(carries: Scrubber, base: string, a: map<string, Json>, b: map<string, Json>, m: string,
                     d: Diagnostic) returns (k: string)
    requires m in b && IsPair(carries, a, b, m) && d in PairErrors(carries, base, m, FieldItems(m, b[m]))
    ensures k in a && d in PairErrors(carries, base, k, FieldItems(k, a[k]))
  {
    k :| k in a && PairsAlike(carries, k, a[k], m, b[m]);
    PairsReportAlike(carries, base, k, a[k], m, b[m], d);
  }

  lemma FieldsReportAlike(
      carries: Scrubber, base: string, a: map<string, Json>, keys: seq<string>, b: map<string, Json>,
      others: seq<string>, d: Diagnostic)
    requires FieldsAlike(carries, a, b)
    requires (forall k :: k in keys <==> k in a) && forall m :: m in others <==> m in b
    ensures d in FieldErrors(carries, base, a, keys) <==> d in FieldErrors(carries, base, b, others)
  {
    if d in FieldErrors(carries, base, a, keys) {
      var k := ReportedField(carries, base, a, keys, d);
      var m := PairReported(carries, base, a, k, b, d);
      FieldReported(carries, base, b, others, m, d);
    }
    if d in FieldErrors(carries, base, b, others) {
      var m := ReportedField(carries, base, b, others, d);
      var k := ReportedPair(carries, base, a, b, m, d);
      FieldReported(carries, base, a, keys, k, d);
    }
  }

  lemma {:induction false} LinksReportAlike(carries: Scrubber, base: string, a: seq<Json>, b: seq<Json>)
    requires LinksAlike(carries, a, b)
    ensures LinkErrors(carries, base, a) == LinkErrors(carries, base, b)
  {
    if a != [] {
      var last := |a| - 1;
      assert forall i :: 0 <= i < last ==> a[..last][i] == a[i] && b[..last][i] == b[i];
      LinksReportAlike(carries, base, a[..last], b[..last]);
    }
  }

  // ---------------------------------------------------------- the theorem

  /** Two specs that differ only in texts and unsafe keys the scrubber judges
      alike give the same set of diagnostics: none of them shows which was
      scanned. */
  lemma DiagnosticsHideText(carries: Scrubber, base: string, a: Json, b: Json, d: Diagnostic)
    requires SpecTwins(carries, a, b)
    ensures d in ScanErrors(carries, base, a) <==> d in ScanErrors(carries, base, b)
  {
    TwinsSpotAlike(carries, a, b, [Key("spec")], d.at.path);
    StringErrorsAre(carries, base, Strings(a, [Key("spec")]), d);
    StringErrorsAre(carries, base, Strings(b, [Key("spec")]), d);
    var fields, others := FieldsOf(a), FieldsOf(b);
    FieldsReportAlike(carries, base, fields, SortedKeys(fields.Keys), others, SortedKeys(others.Keys), d);
    LinksReportAlike(carries, base, AsArr(Get(a, "links")), AsArr(Get(b, "links")));
  }
}
