/** Which document each diagnostic of the Registry report is about, and what it
    takes. */
module RegistryReports {
  import opened Diagnostics
  import opened Documents
  import opened Permutations
  import opened RegistrySpecs
  import opened Registry
  import opened RegistryRules
  import opened RegistryOwn

  // ------------------------------------------------------ document by document

  /** Document `i` is reported so as a type definition. */
  predicate TypeErredAt(g: Grammars, builtins: seq<Builtin>, c: seq<Entry>, i: int, d: Diagnostic) {
    0 <= i < |c| && d in TypeErrorsOf(g, BuiltinSpecs(builtins).Keys, DefineAll(g, builtins, c[..i]), c[i])
  }

  lemma TypeErredBefore(g: Grammars, builtins: seq<Builtin>, c: seq<Entry>, i: int, d: Diagnostic)
    requires c != [] && i < |c| - 1
    ensures TypeErredAt(g, builtins, c, i, d) <==> TypeErredAt(g, builtins, c[..|c| - 1], i, d)
  {
    assert 0 <= i ==> c[..|c| - 1][..i] == c[..i];
  }

  lemma {:induction false} TypeErrorFound(g: Grammars, builtins: seq<Builtin>, c: seq<Entry>, d: Diagnostic)
      returns (i: nat)
    requires d in TypeErrors(g, builtins, c)
    ensures TypeErredAt(g, builtins, c, i, d)
  {
    i := |c| - 1;
    if !TypeErredAt(g, builtins, c, i, d) {
      i := TypeErrorFound(g, builtins, c[..|c| - 1], d);
      TypeErredBefore(g, builtins, c, i, d);
    }
  }

  lemma {:induction false} TypeErrorListed(g: Grammars, builtins: seq<Builtin>, c: seq<Entry>, i: nat, d: Diagnostic)
    requires TypeErredAt(g, builtins, c, i, d)
    ensures d in TypeErrors(g, builtins, c)
  {
    if i < |c| - 1 {
      TypeErredBefore(g, builtins, c, i, d);
      TypeErrorListed(g, builtins, c[..|c| - 1], i, d);
    }
  }

  /** Document `i` is reported so as an entry. */
  predicate EntryErredAt(g: Grammars, types: map<string, TypeSpec>, c: seq<Entry>, i: int, d: Diagnostic) {
    0 <= i < |c| && d in EntryErrorsOf(g, types, EnterAll(g, types, c[..i]), c[i])
  }

  lemma EntryErredBefore(g: Grammars, types: map<string, TypeSpec>, c: seq<Entry>, i: int, d: Diagnostic)
    requires c != [] && i < |c| - 1
    ensures EntryErredAt(g, types, c, i, d) <==> EntryErredAt(g, types, c[..|c| - 1], i, d)
  {
    assert 0 <= i ==> c[..|c| - 1][..i] == c[..i];
  }

  lemma {:induction false} EntryErrorFound(g: Grammars, types: map<string, TypeSpec>, c: seq<Entry>, d: Diagnostic)
      returns (i: nat)
    requires d in EntriesErrors(g, types, c)
    ensures EntryErredAt(g, types, c, i, d)
  {
    i := |c| - 1;
    if !EntryErredAt(g, types, c, i, d) {
      i := EntryErrorFound(g, types, c[..|c| - 1], d);
      EntryErredBefore(g, types, c, i, d);
    }
  }

  lemma {:induction false} EntryErrorListed(g: Grammars, types: map<string, TypeSpec>, c: seq<Entry>, i: nat,
                                            d: Diagnostic)
    requires EntryErredAt(g, types, c, i, d)
    ensures d in EntriesErrors(g, types, c)
  {
    if i < |c| - 1 {
      EntryErredBefore(g, types, c, i, d);
      EntryErrorListed(g, types, c[..|c| - 1], i, d);
    }
  }

  /** A relation of a listed entry is reported so. */
  ghost predicate RelationErredIn(types: map<string, TypeSpec>, list: seq<Located>, l: Located, d: Diagnostic)
    requires TypesKnown(types, list)
  {
    l in list && d in RelationsErrors(types, l, |l.entry.relations|)
  }

  lemma {:induction false} RelationErrorFound(types: map<string, TypeSpec>, list: seq<Located>, d: Diagnostic)
      returns (l: Located)
    requires TypesKnown(types, list) && d in AllRelationsErrors(types, list)
    ensures RelationErredIn(types, list, l, d)
  {
    var last := list[|list| - 1];
    if d in RelationsErrors(types, last, |last.entry.relations|) {
      l := last;
    } else {
      l := RelationErrorFound(types, list[..|list| - 1], d);
    }
  }

  lemma {:induction false} RelationErrorListed(types: map<string, TypeSpec>, list: seq<Located>, l: Located,
                                               d: Diagnostic)
    requires TypesKnown(types, list) && RelationErredIn(types, list, l, d)
    ensures d in AllRelationsErrors(types, list)
  {
    var before, last := list[..|list| - 1], list[|list| - 1];
    assert list == before + [last];
    if l != last { RelationErrorListed(types, before, l, d); }
  }

  /** An entry whose type is known is listed. */
  lemma {:induction false} EntryListed(g: Grammars, types: map<string, TypeSpec>, c: seq<Entry>, k: nat)
    requires k < |c| && EntryAt(g, c[k]).Some? && EntryAt(g, c[k]).value.entryType in types
    ensures Located(c[k].base, EntryAt(g, c[k]).value) in EnterAll(g, types, c).list
  {
    var before, last := c[..|c| - 1], c[|c| - 1];
    assert c == before + [last];
    EnterLast(g, types, before, last);
    if k < |c| - 1 { EntryListed(g, types, before, k); }
  }

  /** The document is an entry of a known type, and one of its relations is reported
      so. */
  ghost predicate RelationErred(g: Grammars, types: map<string, TypeSpec>, c: seq<Entry>, k: nat, d: Diagnostic)
    requires k < |c|
  {
    && EntryAt(g, c[k]).Some? && EntryAt(g, c[k]).value.entryType in types
    && var l := Located(c[k].base, EntryAt(g, c[k]).value); d in RelationsErrors(types, l, |l.entry.relations|)
  }

  lemma RelationIsOwn(g: Grammars, types: map<string, TypeSpec>, c: seq<Entry>, k: nat, d: Diagnostic)
    requires UniqueBy(BaseOf, c) && k < |c| && d.at.base == c[k].base
    requires TypesKnown(types, EnterAll(g, types, c).list) && d in AllRelationsErrors(types, EnterAll(g, types, c).list)
    ensures RelationErred(g, types, c, k, d) && d.code in RELATION_CODES
  {
    var l := RelationErrorFound(types, EnterAll(g, types, c).list, d);
    RelationsOwn(types, l, |l.entry.relations|);
    var e := ListedFrom(g, types, c, l);
    var i :| 0 <= i < |c| && c[i] == e;
    OneWithKey(BaseOf, c, i, k);
  }

  lemma TypePart(g: Grammars, builtins: seq<Builtin>, c: seq<Entry>, k: nat, d: Diagnostic)
    requires UniqueBy(BaseOf, c) && k < |c| && d.at.base == c[k].base
    ensures d in TypeErrors(g, builtins, c) <==> TypeErredAt(g, builtins, c, k, d)
    ensures d in TypeErrors(g, builtins, c) ==> d.code in TYPE_CODES
  {
    if d in TypeErrors(g, builtins, c) {
      var i := TypeErrorFound(g, builtins, c, d);
      OneTypeOwn(g, BuiltinSpecs(builtins).Keys, DefineAll(g, builtins, c[..i]), c[i]);
      OneWithKey(BaseOf, c, i, k);
    }
    if TypeErredAt(g, builtins, c, k, d) { TypeErrorListed(g, builtins, c, k, d); }
  }

  lemma EntryPart(g: Grammars, types: map<string, TypeSpec>, c: seq<Entry>, k: nat, d: Diagnostic)
    requires UniqueBy(BaseOf, c) && k < |c| && d.at.base == c[k].base
    ensures d in EntriesErrors(g, types, c) <==> EntryErredAt(g, types, c, k, d)
    ensures d in EntriesErrors(g, types, c) ==> d.code in ENTRY_CODES
  {
    if d in EntriesErrors(g, types, c) {
      var i := EntryErrorFound(g, types, c, d);
      OneEntryOwn(g, types, EnterAll(g, types, c[..i]), c[i]);
      OneWithKey(BaseOf, c, i, k);
    }
    if EntryErredAt(g, types, c, k, d) { EntryErrorListed(g, types, c, k, d); }
  }

  lemma RelationPart(g: Grammars, types: map<string, TypeSpec>, c: seq<Entry>, k: nat, d: Diagnostic)
    requires UniqueBy(BaseOf, c) && k < |c| && d.at.base == c[k].base
    requires TypesKnown(types, EnterAll(g, types, c).list)
    ensures d in AllRelationsErrors(types, EnterAll(g, types, c).list) <==> RelationErred(g, types, c, k, d)
    ensures d in AllRelationsErrors(types, EnterAll(g, types, c).list) ==> d.code in RELATION_CODES
  {
    var list := EnterAll(g, types, c).list;
    if d in AllRelationsErrors(types, list) { RelationIsOwn(g, types, c, k, d); }
    if RelationErred(g, types, c, k, d) {
      EntryListed(g, types, c, k);
      RelationErrorListed(types, list, Located(c[k].base, EntryAt(g, c[k]).value), d);
    }
  }

  lemma CodesApart()
    ensures TYPE_CODES !! RELATION_CODES && ENTRY_CODES !! RELATION_CODES
    ensures TYPE_CODES * ENTRY_CODES == {CredentialValue}
  {
  }

  /** The three passes. */
  lemma Passes(g: Grammars, builtins: seq<Builtin>, c: seq<Entry>, d: Diagnostic)
    ensures var types := DefineAll(g, builtins, c).specs;
      && TypesKnown(types, EnterAll(g, types, c).list)
      && (d in RegistryErrors(g, builtins, c) <==>
            d in TypeErrors(g, builtins, c) || d in EntriesErrors(g, types, c)
            || d in AllRelationsErrors(types, EnterAll(g, types, c).list))
  {
    EntriesTyped(g, DefineAll(g, builtins, c).specs, c);
  }

  /** With bases of their own, what is reported at a document's base is about it: as
      a type definition, as an entry, or for one of its relations. */
  lemma ReportedByOwn(g: Grammars, builtins: seq<Builtin>, c: seq<Entry>, k: nat, d: Diagnostic)
    requires UniqueBy(BaseOf, c) && k < |c| && d.at.base == c[k].base
    ensures var types := DefineAll(g, builtins, c).specs;
      d in RegistryErrors(g, builtins, c) <==>
        TypeErredAt(g, builtins, c, k, d) || EntryErredAt(g, types, c, k, d) || RelationErred(g, types, c, k, d)
    ensures TypeErredAt(g, builtins, c, k, d) ==> d.code in TYPE_CODES
    ensures EntryErredAt(g, DefineAll(g, builtins, c).specs, c, k, d) ==> d.code in ENTRY_CODES
    ensures RelationErred(g, DefineAll(g, builtins, c).specs, c, k, d) ==> d.code in RELATION_CODES
  {
    var types := DefineAll(g, builtins, c).specs;
    Passes(g, builtins, c, d);
    TypePart(g, builtins, c, k, d);
    EntryPart(g, types, c, k, d);
    RelationPart(g, types, c, k, d);
  }

  /** What only entries are reported for. */
  lemma EntryReportedIff(g: Grammars, builtins: seq<Builtin>, c: seq<Entry>, k: nat, d: Diagnostic)
    requires UniqueBy(BaseOf, c) && k < |c| && d.at.base == c[k].base
    requires d.code !in TYPE_CODES && d.code !in RELATION_CODES
    ensures d in RegistryErrors(g, builtins, c) <==> EntryErredAt(g, DefineAll(g, builtins, c).specs, c, k, d)
  {
    ReportedByOwn(g, builtins, c, k, d);
  }

  /** What only type definitions are reported for. */
  lemma TypeReportedIff(g: Grammars, builtins: seq<Builtin>, c: seq<Entry>, k: nat, d: Diagnostic)
    requires UniqueBy(BaseOf, c) && k < |c| && d.at.base == c[k].base
    requires d.code !in ENTRY_CODES && d.code !in RELATION_CODES
    ensures d in RegistryErrors(g, builtins, c) <==> TypeErredAt(g, builtins, c, k, d)
  {
    ReportedByOwn(g, builtins, c, k, d);
  }

  /** What only relations are reported for. */
  lemma RelationReportedIff(g: Grammars, builtins: seq<Builtin>, c: seq<Entry>, k: nat, d: Diagnostic)
    requires UniqueBy(BaseOf, c) && k < |c| && d.at.base == c[k].base
    requires d.code !in TYPE_CODES && d.code !in ENTRY_CODES
    ensures d in RegistryErrors(g, builtins, c) <==> RelationErred(g, DefineAll(g, builtins, c).specs, c, k, d)
  {
    ReportedByOwn(g, builtins, c, k, d);
  }
}
