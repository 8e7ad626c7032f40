/** What the report of a repeated Registry key quotes. */
module RegistryDuplicates {
  import opened Wrappers
  import opened JsonValues
  import opened Text
  import opened Diagnostics
  import opened Documents
  import opened Permutations
  import opened Sequences
  import opened RegistryScan
  import opened RegistrySpecs
  import opened Registry
  import opened RegistryRules
  import opened ReportFacts
  import opened RegistryOwn
  import opened RegistryReports

  /** Entry `i` declares the key. */
  predicate EnteredAt(g: Grammars, types: map<string, TypeSpec>, c: seq<Entry>, i: int, id: EntryId) {
    0 <= i < |c| && DeclaredId(g, types, c[i]) == Some(id)
  }

  predicate LastEntered(g: Grammars, types: map<string, TypeSpec>, c: seq<Entry>, p: int, id: EntryId) {
    EnteredAt(g, types, c, p, id) && forall j :: p < j < |c| ==> !EnteredAt(g, types, c, j, id)
  }

  lemma StillLast(g: Grammars, types: map<string, TypeSpec>, c: seq<Entry>, p: int, id: EntryId)
    requires c != [] && LastEntered(g, types, c[..|c| - 1], p, id) && DeclaredId(g, types, c[|c| - 1]) != Some(id)
    ensures LastEntered(g, types, c, p, id)
  {
    forall j | p < j < |c| ensures !EnteredAt(g, types, c, j, id) {
      assert j < |c| - 1 ==> !EnteredAt(g, types, c[..|c| - 1], j, id);
    }
  }

  lemma KeyOneMore(g: Grammars, types: map<string, TypeSpec>, s: Entries, e: Entry, id: EntryId)
    ensures var keys := Enter(g, types, s, e).keys;
      if DeclaredId(g, types, e) == Some(id) then id in keys && keys[id] == e.base
      else (id in keys <==> id in s.keys) && (id in keys ==> keys[id] == s.keys[id])
  {
  }

  /** The base on record for a key is its last declaration's. */
  lemma {:induction false} KeyIsLast(g: Grammars, types: map<string, TypeSpec>, c: seq<Entry>, id: EntryId)
      returns (p: nat)
    requires id in EnterAll(g, types, c).keys
    ensures LastEntered(g, types, c, p, id) && EnterAll(g, types, c).keys[id] == c[p].base
  {
    var before, last := c[..|c| - 1], |c| - 1;
    KeyOneMore(g, types, EnterAll(g, types, before), c[last], id);
    if DeclaredId(g, types, c[last]) == Some(id) {
      p := last;
    } else {
      p := KeyIsLast(g, types, before, id);
      StillLast(g, types, c, p, id);
    }
  }

  /** `first` is where the key is declared for the first time. */
  predicate FirstEntered(g: Grammars, types: map<string, TypeSpec>, c: seq<Entry>, first: nat, id: EntryId) {
    EnteredAt(g, types, c, first, id) && forall j :: 0 <= j < first ==> !EnteredAt(g, types, c, j, id)
  }

  /** No entry between the two declares the key. */
  predicate NoneBetween(g: Grammars, types: map<string, TypeSpec>, c: seq<Entry>, first: nat, k: nat, id: EntryId) {
    forall j :: first < j < k ==> !EnteredAt(g, types, c, j, id)
  }

  /** The base on record for a key after some entries is the first declaration's
      iff no later one among them declares the key. */
  lemma FirstKeyKeptIff(g: Grammars, types: map<string, TypeSpec>, c: seq<Entry>, first: nat, k: nat, id: EntryId)
    requires UniqueBy(BaseOf, c) && first < k <= |c| && FirstEntered(g, types, c, first, id)
    ensures var keys := EnterAll(g, types, c[..k]).keys;
      id in keys && (keys[id] == c[first].base <==> NoneBetween(g, types, c, first, k, id))
  {
    var before := c[..k];
    assert forall j :: 0 <= j < k ==> (EnteredAt(g, types, before, j, id) <==> EnteredAt(g, types, c, j, id));
    KeysAreDeclared(g, types, before, id);
    assert before[first] in before && DeclaredId(g, types, before[first]) == Some(id);
    var p := KeyIsLast(g, types, before, id);
    assert EnteredAt(g, types, c, p, id);
    if c[p].base == c[first].base { OneWithKey(BaseOf, c, p, first); }
  }

  /** The report that a key is declared again, first declared at `quoted`. */
  function KeyReport(base: string, spec: TypeSpec, id: EntryId, quoted: string): Diagnostic {
    Diagnostic(DuplicateKey, KeyLocation(base, spec), [id.0, quoted])
  }

  /** What an entry is reported for its key, after some entries. */
  function OwnKeyErrors(g: Grammars, types: map<string, TypeSpec>, s: Entries, e: Entry): seq<Diagnostic> {
    match EntryAt(g, e)
    case None => []
    case Some(entry) =>
      if entry.entryType in types then KeyErrors(types[entry.entryType], entry, s.keys, e.base) else []
  }

  /** A repeated key gets its entry one diagnostic, which quotes the base on record. */
  lemma RepeatedKeyErrors(g: Grammars, types: map<string, TypeSpec>, c: seq<Entry>, k: nat, id: EntryId)
    requires EnteredAt(g, types, c, k, id) && id in EnterAll(g, types, c[..k]).keys
    ensures id.0 in types
    ensures var s := EnterAll(g, types, c[..k]);
      OwnKeyErrors(g, types, s, c[k]) == [KeyReport(c[k].base, types[id.0], id, s.keys[id])]
  {
  }

  // ------------------------------------------- the report, entry by entry

  lemma KeyCode()
    ensures DuplicateKey !in TYPE_CODES && DuplicateKey !in RELATION_CODES && DuplicateKey !in FIELD_CODES
  {
  }

  lemma OwnKeysReported(g: Grammars, types: map<string, TypeSpec>, s: Entries, e: Entry, d: Diagnostic)
    requires d.code == DuplicateKey
    ensures d in EntryErrorsOf(g, types, s, e) <==> d in OwnKeyErrors(g, types, s, e)
  {
    var json := SpecOf(e, "RegistryEntry");
    if json.Some? {
      ScanOwn(g.carries, e.base, json.value);
      if EntryAt(g, e).Some? { OutcomeKeys(g, types, s.keys, e.base, EntryAt(g, e).value, d); }
    }
  }

  lemma OutcomeKeys(g: Grammars, types: map<string, TypeSpec>, keys: map<EntryId, string>, base: string,
                    entry: EntrySpec, d: Diagnostic)
    requires d.code == DuplicateKey
    ensures d in EntryOutcome(g, types, keys, base, entry) <==>
      entry.entryType in types && d in KeyErrors(types[entry.entryType], entry, keys, base)
  {
    KeyCode();
    if entry.entryType in types { EntryOwn(g, base, types[entry.entryType], entry); }
  }

  /** With bases of their own, what the whole Registry report says of keys at an
      entry's base is what the entry is reported for. */
  lemma KeyReportedIff(g: Grammars, builtins: seq<Builtin>, c: seq<Entry>, k: nat, d: Diagnostic)
    requires UniqueBy(BaseOf, c) && k < |c| && d.code == DuplicateKey && d.at.base == c[k].base
    ensures var types := DefineAll(g, builtins, c).specs;
      d in RegistryErrors(g, builtins, c) <==> d in OwnKeyErrors(g, types, EnterAll(g, types, c[..k]), c[k])
  {
    var types := DefineAll(g, builtins, c).specs;
    KeyCode();
    EntryReportedIff(g, builtins, c, k, d);
    OwnKeysReported(g, types, EnterAll(g, types, c[..k]), c[k], d);
  }

  /** A repeated key is reported where it is repeated; the report says where the key
      was first declared iff this is its second declaration. */
  lemma FirstKeyQuotedIff(g: Grammars, builtins: seq<Builtin>, c: seq<Entry>, first: nat, k: nat, id: EntryId)
    requires UniqueBy(BaseOf, c) && first < k < |c|
    requires FirstEntered(g, DefineAll(g, builtins, c).specs, c, first, id)
    requires EnteredAt(g, DefineAll(g, builtins, c).specs, c, k, id)
    ensures var types := DefineAll(g, builtins, c).specs;
      && id.0 in types
      && (exists quoted :: KeyReport(c[k].base, types[id.0], id, quoted) in RegistryErrors(g, builtins, c))
      && (KeyReport(c[k].base, types[id.0], id, c[first].base) in RegistryErrors(g, builtins, c) <==>
            NoneBetween(g, types, c, first, k, id))
  {
    var types := DefineAll(g, builtins, c).specs;
    var keys := EnterAll(g, types, c[..k]).keys;
    FirstKeyKeptIff(g, types, c, first, k, id);
    RepeatedKeyErrors(g, types, c, k, id);
    var made := KeyReport(c[k].base, types[id.0], id, keys[id]);
    var wanted := KeyReport(c[k].base, types[id.0], id, c[first].base);
    KeyReportedIff(g, builtins, c, k, made);
    KeyReportedIff(g, builtins, c, k, wanted);
    assert made.detail[1] == keys[id] && wanted.detail[1] == c[first].base;
  }

  /** Three declarations of one key: the third is reported with the second's place. */
  lemma ThirdKeyQuotesSecond(g: Grammars, builtins: seq<Builtin>, a: Entry, b: Entry, third: Entry, id: EntryId)
    requires a.base != b.base && a.base != third.base && b.base != third.base
    requires var types := DefineAll(g, builtins, [a, b, third]).specs;
      DeclaredId(g, types, a) == DeclaredId(g, types, b) == DeclaredId(g, types, third) == Some(id)
    ensures var types := DefineAll(g, builtins, [a, b, third]).specs;
      var report := RegistryErrors(g, builtins, [a, b, third]);
      && id.0 in types && KeyReport(third.base, types[id.0], id, b.base) in report
      && KeyReport(third.base, types[id.0], id, a.base) !in report
  {
    var c := [a, b, third];
    var types := DefineAll(g, builtins, c).specs;
    assert EnteredAt(g, types, c, 0, id) && EnteredAt(g, types, c, 1, id) && EnteredAt(g, types, c, 2, id);
    assert c[..2] == [a, b] && [a, b][..1] == [a];
    KeyOneMore(g, types, EnterAll(g, types, [a]), b, id);
    FirstKeyQuotedIff(g, builtins, c, 0, 2, id);
    RepeatedKeyErrors(g, types, c, 2, id);
    KeyReportedIff(g, builtins, c, 2, KeyReport(third.base, types[id.0], id, b.base));
  }
}
