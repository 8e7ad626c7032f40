/** What a Registry reference denotes, and what the observed side can change. */
module RegistryRules {
  import opened Wrappers
  import opened TextSearch
  import opened JsonValues
  import opened Diagnostics
  import opened Documents
  import opened Permutations
  import opened RegistryNames
  import opened RegistrySpecs
  import opened Registry

  // ------------------------------------------------------------ declared ids

  /** The id an entry of the candidate declares. */
  function DeclaredId(g: Grammars, types: map<string, TypeSpec>, e: Entry): Option<EntryId> {
    match EntryAt(g, e)
    case None => None
    case Some(entry) => IdOfEntry(types, entry)
  }

  function IdReader(g: Grammars, types: map<string, TypeSpec>): Entry -> Option<EntryId> {
    (e: Entry) => DeclaredId(g, types, e)
  }

  lemma EnterLast(g: Grammars, types: map<string, TypeSpec>, before: seq<Entry>, e: Entry)
    ensures EnterAll(g, types, before + [e]) == Enter(g, types, EnterAll(g, types, before), e)
    ensures EntriesErrors(g, types, before + [e]) ==
      EntriesErrors(g, types, before) + EntryErrorsOf(g, types, EnterAll(g, types, before), e)
  {
    assert (before + [e])[..|before|] == before;
  }

  lemma {:induction false} KeysAreDeclared(g: Grammars, types: map<string, TypeSpec>, c: seq<Entry>, id: EntryId)
    ensures id in EnterAll(g, types, c).keys <==> exists e :: e in c && DeclaredId(g, types, e) == Some(id)
  {
    if c != [] {
      var before, last := c[..|c| - 1], c[|c| - 1];
      assert c == before + [last];
      KeysAreDeclared(g, types, before, id);
      KeysOneMore(g, types, before, last, id);
      if e :| e in c && DeclaredId(g, types, e) == Some(id) {
        assert e == last || e in before;
      }
    }
  }

  lemma KeysOneMore(g: Grammars, types: map<string, TypeSpec>, before: seq<Entry>, e: Entry, id: EntryId)
    ensures id in EnterAll(g, types, before + [e]).keys <==>
      id in EnterAll(g, types, before).keys || DeclaredId(g, types, e) == Some(id)
  {
    EnterLast(g, types, before, e);
  }

  /** Without an error no two entries declare one id. */
  lemma {:induction false} NoErrorIdsUnique(g: Grammars, types: map<string, TypeSpec>, c: seq<Entry>)
    requires EntriesErrors(g, types, c) == []
    ensures UniqueBy(IdReader(g, types), c)
  {
    if c != [] {
      var before, last := c[..|c| - 1], c[|c| - 1];
      assert c == before + [last];
      EnterLast(g, types, before, last);
      NoErrorIdsUnique(g, types, before);
      LastIdIsNew(g, types, before, last);
      UniqueOneMore(IdReader(g, types), before, last);
    }
  }

  lemma LastIdIsNew(g: Grammars, types: map<string, TypeSpec>, before: seq<Entry>, e: Entry)
    requires EntryErrorsOf(g, types, EnterAll(g, types, before), e) == []
    ensures DeclaredId(g, types, e).Some? ==> forall other :: other in before ==>
      DeclaredId(g, types, other) != DeclaredId(g, types, e)
  {
    if DeclaredId(g, types, e).Some? {
      KeysAreDeclared(g, types, before, DeclaredId(g, types, e).value);
    }
  }

  /** The entry has a known type, fits it, and its key is valid and new. */
  predicate EntryFine(g: Grammars, types: map<string, TypeSpec>, taken: set<EntryId>, base: string, entry: EntrySpec) {
    && entry.entryType in types && EntryErrors(g, base, types[entry.entryType], entry) == []
    && (EntryKey(types[entry.entryType], entry).Some? ==>
          var key := EntryKey(types[entry.entryType], entry).value; IsKeyValue(key) && (entry.entryType, key) !in taken)
  }

  /** What is entered at `i` is fine, given what was entered before. */
  predicate FineAt(g: Grammars, types: map<string, TypeSpec>, before: seq<Entry>, e: Entry) {
    EntryAt(g, e).Some? ==> EntryFine(g, types, EnterAll(g, types, before).keys.Keys, e.base, EntryAt(g, e).value)
  }

  lemma LastFineAt(g: Grammars, types: map<string, TypeSpec>, before: seq<Entry>, e: Entry)
    ensures EntriesErrors(g, types, before + [e]) == [] ==>
      EntriesErrors(g, types, before) == [] && FineAt(g, types, before, e)
  {
    EnterLast(g, types, before, e);
  }

  lemma {:induction false} EachFineAt(g: Grammars, types: map<string, TypeSpec>, c: seq<Entry>, i: nat)
    requires i < |c|
    ensures EntriesErrors(g, types, c) == [] ==> FineAt(g, types, c[..i], c[i])
  {
    var before, last := c[..|c| - 1], c[|c| - 1];
    assert c == before + [last];
    LastFineAt(g, types, before, last);
    if i < |c| - 1 {
      assert before[..i] == c[..i];
      EachFineAt(g, types, before, i);
    }
  }

  lemma EachEntryFine(g: Grammars, types: map<string, TypeSpec>, c: seq<Entry>, i: nat)
    requires EntriesErrors(g, types, c) == [] && i < |c| && EntryAt(g, c[i]).Some?
    ensures EntryFine(g, types, EnterAll(g, types, c[..i]).keys.Keys, c[i].base, EntryAt(g, c[i]).value)
  {
    EachFineAt(g, types, c, i);
  }

  lemma ErrorFreeParts(g: Grammars, builtins: seq<Builtin>, c: seq<Entry>)
    requires RegistryErrors(g, builtins, c) == []
    ensures TypeErrors(g, builtins, c) == [] && EntriesErrors(g, DefineAll(g, builtins, c).specs, c) == []
  {
  }

  // --------------------------------------------------------------- references

  /** `reference` names the entry, up to ASCII case of the key. */
  predicate Denotes(g: Grammars, types: map<string, TypeSpec>, e: Entry, reference: string) {
    ParseReference(reference).Some?
    && DeclaredId(g, types, e) == Some((ParseReference(reference).value.0, Lower(ParseReference(reference).value.1)))
  }

  /** In an error-free candidate a reference denotes at most one entry. */
  lemma ReferenceDenotesOne(g: Grammars, builtins: seq<Builtin>, c: seq<Entry>, reference: string, i: nat, j: nat)
    requires RegistryErrors(g, builtins, c) == [] && i < |c| && j < |c|
    requires Denotes(g, DefineAll(g, builtins, c).specs, c[i], reference)
      && Denotes(g, DefineAll(g, builtins, c).specs, c[j], reference)
    ensures i == j
  {
    var types := DefineAll(g, builtins, c).specs;
    var id := (ParseReference(reference).value.0, Lower(ParseReference(reference).value.1));
    ErrorFreeParts(g, builtins, c);
    NoErrorIdsUnique(g, types, c);
    var f := IdReader(g, types);
    assert f(c[i]) == f(c[j]) == Some(id);
  }

  /** An entry's reference: its type and its key as written. */
  function Reference(entryType: string, key: string): string {
    entryType + ['/'] + key
  }

  lemma ReferenceReadsBack(entryType: string, key: string)
    requires IsSlug(entryType) && IsKeyValue(key)
    ensures ParseReference(Reference(entryType, key)) == Some((entryType, key))
  {
    SlugHasNoSlash(entryType);
    SplitOnceAt(entryType, '/', key);
  }

  /** In an error-free candidate the reference printed for any entry with a text
      key denotes that entry, however the key's letters are cased. */
  lemma PrintedReferenceDenotes(g: Grammars, builtins: seq<Builtin>, c: seq<Entry>, i: nat, entry: EntrySpec,
                                key: string, written: string)
    requires RegistryErrors(g, builtins, c) == [] && i < |c| && EntryAt(g, c[i]) == Some(entry)
      && IsSlug(entry.entryType)
    requires entry.entryType in DefineAll(g, builtins, c).specs ==>
      var spec := DefineAll(g, builtins, c).specs[entry.entryType];
      spec.key in entry.fields && entry.fields[spec.key] == Str(key)
    requires Lower(written) == Lower(key)
    ensures Denotes(g, DefineAll(g, builtins, c).specs, c[i], Reference(entry.entryType, written))
  {
    var types := DefineAll(g, builtins, c).specs;
    ErrorFreeParts(g, builtins, c);
    EachEntryFine(g, types, c, i);
    LowerKeepsKey(written);
    ReferenceReadsBack(entry.entryType, written);
  }

  // -------------------------------------------------------- dangling relations

  /** Relation `n` of some entry dangles, and `d` says so. */
  ghost predicate WarnedBy(types: map<string, TypeSpec>, keys: set<EntryId>, known: map<Class, set<string>>,
                           c: seq<Entry>,
                           list: seq<Located>, m: int, n: int, d: Diagnostic) {
    0 <= m < |list| && 0 <= n < |list[m].entry.relations| && d in RelationWarnings(types, keys, known, c, list[m], n)
  }

  lemma {:induction false} WarningOfOne(types: map<string, TypeSpec>, keys: set<EntryId>,
                                        known: map<Class, set<string>>, c: seq<Entry>, l: Located, n: nat,
                                        d: Diagnostic)
    requires n <= |l.entry.relations|
    ensures d in RelationsWarnings(types, keys, known, c, l, n) <==>
      exists i :: 0 <= i < n && d in RelationWarnings(types, keys, known, c, l, i)
  {
    if n > 0 {
      WarningOfOne(types, keys, known, c, l, n - 1, d);
    }
  }

  lemma {:induction false} WarningOfAll(types: map<string, TypeSpec>, keys: set<EntryId>,
                                        known: map<Class, set<string>>, c: seq<Entry>, list: seq<Located>,
                                        d: Diagnostic)
    ensures d in AllRelationsWarnings(types, keys, known, c, list) <==>
      exists m, n :: WarnedBy(types, keys, known, c, list, m, n, d)
  {
    if list != [] {
      var last := |list| - 1;
      WarningOfAll(types, keys, known, c, list[..last], d);
      WarningOfOne(types, keys, known, c, list[last], |list[last].entry.relations|, d);
      if m, n :| WarnedBy(types, keys, known, c, list[..last], m, n, d) {
        assert WarnedBy(types, keys, known, c, list, m, n, d);
      }
      if n :| 0 <= n < |list[last].entry.relations| && d in RelationWarnings(types, keys, known, c, list[last], n) {
        assert WarnedBy(types, keys, known, c, list, last, n, d);
      }
      if m, n :| WarnedBy(types, keys, known, c, list, m, n, d) {
        assert m == last || WarnedBy(types, keys, known, c, list[..last], m, n, d);
      }
    }
  }

  /** A relation to a known type is reported as dangling iff no entry of the
      candidate is what it names. */
  lemma DanglingIffNothingDenoted(g: Grammars, ctx: Context, c: seq<Entry>, l: Located, n: nat, reference: string)
    requires n < |l.entry.relations| && l.entry.relations[n].target == RegistryTarget(reference)
    requires ParseReference(reference).Some? && ParseReference(reference).value.0 in DefineAll(g, ctx.builtins, c).specs
    ensures var types := DefineAll(g, ctx.builtins, c).specs;
      RelationWarnings(types, EnterAll(g, types, c).keys.Keys, ctx.known, c, l, n) != [] <==>
        forall e :: e in c ==> !Denotes(g, types, e, reference)
  {
    var types := DefineAll(g, ctx.builtins, c).specs;
    var id := (ParseReference(reference).value.0, Lower(ParseReference(reference).value.1));
    KeysAreDeclared(g, types, c, id);
  }

  lemma {:induction false} ListedFrom(g: Grammars, types: map<string, TypeSpec>, c: seq<Entry>, l: Located)
      returns (e: Entry)
    requires l in EnterAll(g, types, c).list
    ensures e in c && e.base == l.base && EntryAt(g, e) == Some(l.entry)
  {
    var before, last := c[..|c| - 1], c[|c| - 1];
    assert c == before + [last];
    EnterLast(g, types, before, last);
    if l in EnterAll(g, types, before).list {
      e := ListedFrom(g, types, before, l);
    } else {
      e := last;
    }
  }

  /** With a base of its own for every document, two listed entries of one base
      are the same. */
  lemma SameBaseSameEntry(g: Grammars, types: map<string, TypeSpec>, c: seq<Entry>, l: Located, other: Located)
    requires UniqueBy(BaseOf, c) && l in EnterAll(g, types, c).list && other in EnterAll(g, types, c).list
      && l.base == other.base
    ensures l == other
  {
    var e := ListedFrom(g, types, c, l);
    var f := ListedFrom(g, types, c, other);
    var i :| 0 <= i < |c| && c[i] == e;
    var j :| 0 <= j < |c| && c[j] == f;
    OneWithKey(BaseOf, c, i, j);
  }

  /** With bases of their own, a relation is warned about iff its target dangles. */
  lemma WarnedIff(g: Grammars, ctx: Context, c: seq<Entry>, l: Located, n: nat)
    requires UniqueBy(BaseOf, c) && l in EnterAll(g, DefineAll(g, ctx.builtins, c).specs, c).list
    requires n < |l.entry.relations|
    ensures var types := DefineAll(g, ctx.builtins, c).specs;
      Dangling(RelationAt(l.base, n, "target")) in RegistryWarnings(g, ctx, c) <==>
        Dangles(types, EnterAll(g, types, c).keys.Keys, ctx.known, c, l.entry.relations[n].target)
  {
    var types := DefineAll(g, ctx.builtins, c).specs;
    var entries := EnterAll(g, types, c);
    var d := Dangling(RelationAt(l.base, n, "target"));
    WarningOfAll(types, entries.keys.Keys, ctx.known, c, entries.list, d);
    var m :| 0 <= m < |entries.list| && entries.list[m] == l;
    if RelationWarnings(types, entries.keys.Keys, ctx.known, c, l, n) != [] {
      assert WarnedBy(types, entries.keys.Keys, ctx.known, c, entries.list, m, n, d);
    }
    if p, q :| WarnedBy(types, entries.keys.Keys, ctx.known, c, entries.list, p, q, d) {
      WarningPlace(types, entries.keys.Keys, ctx.known, c, entries.list[p], q, d);
      assert d.at.path[2] == Index(n);
      SameBaseSameEntry(g, types, c, l, entries.list[p]);
    }
  }

  /** The dangling warning for a relation to a known type is among the warnings
      iff no entry of the candidate is what it names. */
  lemma DanglingReportedIff(g: Grammars, ctx: Context, c: seq<Entry>, l: Located, n: nat, reference: string)
    requires UniqueBy(BaseOf, c) && l in EnterAll(g, DefineAll(g, ctx.builtins, c).specs, c).list
    requires n < |l.entry.relations| && l.entry.relations[n].target == RegistryTarget(reference)
    requires ParseReference(reference).Some? && ParseReference(reference).value.0 in DefineAll(g, ctx.builtins, c).specs
    ensures Dangling(RelationAt(l.base, n, "target")) in RegistryWarnings(g, ctx, c)
      <==> forall e :: e in c ==> !Denotes(g, DefineAll(g, ctx.builtins, c).specs, e, reference)
  {
    WarnedIff(g, ctx, c, l, n);
    DanglingIffNothingDenoted(g, ctx, c, l, n, reference);
  }

  lemma WarningPlace(types: map<string, TypeSpec>, keys: set<EntryId>, known: map<Class, set<string>>, c: seq<Entry>,
                     l: Located, n: nat, d: Diagnostic)
    requires n < |l.entry.relations| && d in RelationWarnings(types, keys, known, c, l, n)
    ensures d.at.base == l.base && |d.at.path| == 4 && d.at.path[2] == Index(n)
  {
  }

  // ------------------------------------------------------- observed knowledge

  /** Whatever is checked with the second knowledge is checked with the first,
      against no more targets. */
  ghost predicate KnowsMore(known: map<Class, set<string>>, c: seq<Entry>, more: map<Class, set<string>>,
                            larger: seq<Entry>) {
    forall group: Class :: KnownOf(more, larger, group).Some? ==>
      KnownOf(known, c, group).Some? && KnownOf(known, c, group).value <= KnownOf(more, larger, group).value
  }

  lemma MoreKnownFewerWarnings(types: map<string, TypeSpec>, keys: set<EntryId>, list: seq<Located>,
                               known: map<Class, set<string>>, c: seq<Entry>, more: map<Class, set<string>>,
                               larger: seq<Entry>, d: Diagnostic)
    requires KnowsMore(known, c, more, larger) && d in AllRelationsWarnings(types, keys, more, larger, list)
    ensures d in AllRelationsWarnings(types, keys, known, c, list)
  {
    WarningOfAll(types, keys, more, larger, list, d);
    WarningOfAll(types, keys, known, c, list, d);
    var m, n :| WarnedBy(types, keys, more, larger, list, m, n, d);
    assert WarnedBy(types, keys, known, c, list, m, n, d);
  }

  /** Enlarging the known targets adds no warning. */
  lemma EnlargingAddsNoWarning(g: Grammars, ctx: Context, larger: Context, c: seq<Entry>, d: Diagnostic)
    requires larger.builtins == ctx.builtins
    requires forall group :: group in larger.known ==> group in ctx.known && ctx.known[group] <= larger.known[group]
    requires d in RegistryWarnings(g, larger, c)
    ensures d in RegistryWarnings(g, ctx, c)
  {
    var types := DefineAll(g, ctx.builtins, c).specs;
    var entries := EnterAll(g, types, c);
    MoreKnownFewerWarnings(types, entries.keys.Keys, entries.list, ctx.known, c, larger.known, c, d);
  }

  /** A document the Registry does not validate changes nothing it finds. */
  predicate Inert(e: Entry) {
    SpecOf(e, "RegistryType").None? && SpecOf(e, "RegistryEntry").None?
  }

  lemma DefineLast(g: Grammars, builtins: seq<Builtin>, before: seq<Entry>, e: Entry)
    ensures DefineAll(g, builtins, before + [e])
      == Define(g, BuiltinSpecs(builtins).Keys, DefineAll(g, builtins, before), e)
    ensures TypeErrors(g, builtins, before + [e])
         == TypeErrors(g, builtins, before)
            + TypeErrorsOf(g, BuiltinSpecs(builtins).Keys, DefineAll(g, builtins, before), e)
  {
    assert (before + [e])[..|before|] == before;
  }

  lemma InertDefines(g: Grammars, builtin: set<string>, t: Types, e: Entry)
    requires Inert(e)
    ensures Define(g, builtin, t, e) == t && TypeErrorsOf(g, builtin, t, e) == []
  {
  }

  lemma SameTypeStep(g: Grammars, builtins: seq<Builtin>, x: seq<Entry>, y: seq<Entry>, last: Entry)
    requires DefineAll(g, builtins, x) == DefineAll(g, builtins, y)
      && TypeErrors(g, builtins, x) == TypeErrors(g, builtins, y)
    ensures DefineAll(g, builtins, x + [last]) == DefineAll(g, builtins, y + [last])
    ensures TypeErrors(g, builtins, x + [last]) == TypeErrors(g, builtins, y + [last])
  {
    DefineLast(g, builtins, x, last);
    DefineLast(g, builtins, y, last);
  }

  lemma {:induction false} InertTypes(g: Grammars, builtins: seq<Builtin>, a: seq<Entry>, e: Entry, b: seq<Entry>)
    requires Inert(e)
    ensures DefineAll(g, builtins, a + [e] + b) == DefineAll(g, builtins, a + b)
    ensures TypeErrors(g, builtins, a + [e] + b) == TypeErrors(g, builtins, a + b)
  {
    if b == [] {
      NothingAfter(a + [e], b);
      NothingAfter(a, b);
      DefineLast(g, builtins, a, e);
      InertDefines(g, BuiltinSpecs(builtins).Keys, DefineAll(g, builtins, a), e);
    } else {
      var before, last := b[..|b| - 1], b[|b| - 1];
      InertTypes(g, builtins, a, e, before);
      EndsInLast(a + [e], b);
      EndsInLast(a, b);
      SameTypeStep(g, builtins, a + [e] + before, a + before, last);
    }
  }

  lemma InertEnters(g: Grammars, types: map<string, TypeSpec>, s: Entries, e: Entry)
    requires Inert(e)
    ensures Enter(g, types, s, e) == s && EntryErrorsOf(g, types, s, e) == []
  {
  }

  lemma SameStep(g: Grammars, types: map<string, TypeSpec>, x: seq<Entry>, y: seq<Entry>, last: Entry)
    requires EnterAll(g, types, x) == EnterAll(g, types, y) && EntriesErrors(g, types, x) == EntriesErrors(g, types, y)
    ensures EnterAll(g, types, x + [last]) == EnterAll(g, types, y + [last])
    ensures EntriesErrors(g, types, x + [last]) == EntriesErrors(g, types, y + [last])
  {
    EnterLast(g, types, x, last);
    EnterLast(g, types, y, last);
  }

  lemma EndsInLast<T>(a: seq<T>, b: seq<T>)
    requires b != []
    ensures a + b == (a + b[..|b| - 1]) + [b[|b| - 1]]
  {
  }

  lemma NothingAfter<T>(a: seq<T>, b: seq<T>)
    requires b == []
    ensures a + b == a
  {
  }

  lemma {:induction false} InertEntries(g: Grammars, types: map<string, TypeSpec>, a: seq<Entry>, e: Entry,
                                        b: seq<Entry>)
    requires Inert(e)
    ensures EnterAll(g, types, a + [e] + b) == EnterAll(g, types, a + b)
    ensures EntriesErrors(g, types, a + [e] + b) == EntriesErrors(g, types, a + b)
  {
    if b == [] {
      NothingAfter(a + [e], b);
      NothingAfter(a, b);
      EnterLast(g, types, a, e);
      InertEnters(g, types, EnterAll(g, types, a), e);
    } else {
      var before, last := b[..|b| - 1], b[|b| - 1];
      InertEntries(g, types, a, e, before);
      EndsInLast(a + [e], b);
      EndsInLast(a, b);
      SameStep(g, types, a + [e] + before, a + before, last);
    }
  }

  lemma ResourcesAddKnowledge(known: map<Class, set<string>>, a: seq<Entry>, e: Entry, b: seq<Entry>)
    ensures KnowsMore(known, a + b, known, a + [e] + b)
  {
    forall kind: string ensures NamesOfKind(a + b, kind) <= NamesOfKind(a + [e] + b, kind) {
      assert forall x :: x in a + b ==> x in a + [e] + b;
    }
  }

  /** A machine or a project anywhere in the candidate changes no Registry error
      and adds no warning. */
  lemma ResourceAddsNothing(g: Grammars, ctx: Context, a: seq<Entry>, e: Entry, b: seq<Entry>, d: Diagnostic)
    requires Inert(e)
    ensures RegistryErrors(g, ctx.builtins, a + [e] + b) == RegistryErrors(g, ctx.builtins, a + b)
    ensures d in RegistryWarnings(g, ctx, a + [e] + b) ==> d in RegistryWarnings(g, ctx, a + b)
  {
    InertTypes(g, ctx.builtins, a, e, b);
    var types := DefineAll(g, ctx.builtins, a + b).specs;
    InertEntries(g, types, a, e, b);
    var entries := EnterAll(g, types, a + b);
    ResourcesAddKnowledge(ctx.known, a, e, b);
    if d in RegistryWarnings(g, ctx, a + [e] + b) {
      MoreKnownFewerWarnings(types, entries.keys.Keys, entries.list, ctx.known, a + b, ctx.known, a + [e] + b, d);
    }
  }
}
