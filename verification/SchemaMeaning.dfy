/** Linking preserves meaning: the generated schema judges every document as
    the envelope and the document kind's own spec schema judge it apart. */
module SchemaMeaning {
  import opened Wrappers
  import opened JsonValues
  import opened Text
  import opened SchemaLinker

  // ------------------------------------------------ what can be linked

  /** Text the rewriting leaves alone. */
  predicate Unmarked(s: string) {
    !Contains(s, LOCAL)
  }

  /** A value without the marker in any string or key. */
  ghost predicate Plain(j: Json) {
    match j
    case Str(s) => Unmarked(s)
    case Arr(items) => forall i :: 0 <= i < |items| ==> Plain(items[i])
    case Obj(m) => forall k :: k in m ==> Unmarked(k) && Plain(m[k])
    case _ => true
  }

  /** A reference to one of the document's own definitions, by name. */
  predicate NamesDefinition(reference: string, names: set<string>) {
    LOCAL <= reference && '/' !in reference[|LOCAL|..] && Unescape(reference[|LOCAL|..]) in names
  }

  /** Every reference names a definition, and the marker occurs in no other
      string that the schema's meaning depends on. Annotations are free. */
  ghost predicate Linkable(s: Json, names: set<string>)
    decreases s, 1
  {
    match s
    case Obj(m) => forall k :: k in m ==> Unmarked(k) && LinkableMember(m[k], Classify(k), names)
    case _ => s.Bool? || Plain(s)
  }

  ghost predicate LinkableMember(arg: Json, kw: Keyword, names: set<string>)
    decreases arg, 2
  {
    match kw
    case Reference => arg.Str? ==> NamesDefinition(arg.str, names)
    case AllOf | AnyOf | OneOf =>
      arg.Arr? ==> forall i :: 0 <= i < |arg.items| ==> Linkable(arg.items[i], names)
    case Not | If | Branch | Additional | Items => Linkable(arg, names)
    case Properties =>
      arg.Obj? ==> forall p :: p in arg.fields ==> Unmarked(p) && Linkable(arg.fields[p], names)
    case Const | Assertion => Plain(arg)
    case Annotation => true
  }

  /** A schema document whose definitions and own keywords can be linked. */
  ghost predicate LinkableDocument(doc: Json) {
    doc.Obj? && Linkable(doc, Defs(doc).Keys) && forall n :: n in Defs(doc) ==> Linkable(Defs(doc)[n], Defs(doc).Keys)
  }

  // ------------------------------------------------- rewriting one value

  lemma RewriteObject(m: map<string, Json>)
    requires forall k :: k in m ==> Unmarked(k)
    ensures Rewrite(Obj(m)).Obj? && Rewrite(Obj(m)).fields.Keys == m.Keys
    ensures forall k :: k in m ==> Rewrite(Obj(m)).fields[k] == Rewrite(m[k])
  {
    var values := map k | k in m :: Rewrite(m[k]);
    RenameNothing(values, SortedKeys(values.Keys));
  }

  lemma {:induction false} RenameNothing(m: map<string, Json>, keys: seq<string>)
    requires forall k :: k in keys ==> k in m && Unmarked(k)
    ensures RenameKeys(m, keys).Keys == set k | k in keys
    ensures forall k :: k in keys ==> RenameKeys(m, keys)[k] == m[k]
  {
    if keys != [] {
      var last := |keys| - 1;
      RenameNothing(m, keys[..last]);
      assert keys[last] in keys;
      ReplaceAbsent(keys[last], LOCAL, HOISTED);
    }
  }

  lemma RewriteArray(items: seq<Json>)
    ensures Rewrite(Arr(items)).Arr? && |Rewrite(Arr(items)).items| == |items|
    ensures forall i :: 0 <= i < |items| ==> Rewrite(Arr(items)).items[i] == Rewrite(items[i])
  {
  }

  lemma RewriteString(s: string)
    requires Unmarked(s)
    ensures Rewrite(Str(s)) == Str(s)
  {
    ReplaceAbsent(s, LOCAL, HOISTED);
  }

  lemma {:induction false} RewritePlain(j: Json)
    requires Plain(j)
    ensures Rewrite(j) == j
    decreases j, 1
  {
    match j
    case Str(s) => RewriteString(s);
    case Arr(items) => RewritePlainArray(items, j);
    case Obj(m) => RewritePlainObject(m, j);
    case _ =>
  }

  lemma {:induction false} RewritePlainArray(items: seq<Json>, j: Json)
    requires j == Arr(items) && Plain(j)
    ensures Rewrite(j) == j
    decreases j, 0
  {
    RewriteArray(items);
    forall i | 0 <= i < |items| ensures Rewrite(items[i]) == items[i] {
      RewritePlain(items[i]);
    }
  }

  lemma {:induction false} RewritePlainObject(m: map<string, Json>, j: Json)
    requires j == Obj(m) && Plain(j)
    ensures Rewrite(j) == j
    decreases j, 0
  {
    RewriteObject(m);
    var r := Rewrite(j).fields;
    forall k | k in m ensures r[k] == m[k] {
      RewritePlain(m[k]);
    }
    assert r == m;
  }

  // ---------------------------------------------- rewriting a reference

  lemma {:induction false} MarkedHasSlash(s: string)
    requires Contains(s, LOCAL)
    ensures '/' in s
  {
    if LOCAL <= s {
      assert s[1] == LOCAL[1];
    } else {
      MarkedHasSlash(s[1..]);
    }
  }

  lemma {:induction false} UnescapePrefix(p: string, t: string)
    requires '~' !in p
    ensures Unescape(p + t) == p + Unescape(t)
  {
    if p == [] {
      assert p + t == t;
    } else {
      UnescapePrefix(p[1..], t);
      PlainHead(p, t);
      UnescapeStep(p + t);
      assert [p[0]] + (p[1..] + Unescape(t)) == p + Unescape(t);
    }
  }

  lemma PlainHead(p: string, t: string)
    requires p != []
    ensures (p + t)[1..] == p[1..] + t && (p + t)[0] == p[0] && p[0] in p
  {
  }

  lemma UnescapeStep(token: string)
    requires token != [] && token[0] != '~'
    ensures Unescape(token) == [token[0]] + Unescape(token[1..])
  {
  }

  /** Where a reference to a definition leads before it is rewritten ... */
  lemma LocalTarget(root: Json, tail: string)
    requires '/' !in tail
    ensures Resolve(root, LOCAL + tail) == Get2(root, "$defs", Unescape(tail))
  {
    assert (LOCAL + tail)[2..] == "$defs" + ['/'] + tail;
    SplitFirst("$defs", '/', tail);
    SplitWhole(tail, '/');
    NavigateTwo(root, "$defs", tail);
    UnescapePrefix("$defs", "");
    assert "$defs" + "" == "$defs";
  }

  lemma NavigateTwo(root: Json, first: string, second: string)
    ensures Navigate(root, [first] + [second]) == Get2(root, Unescape(first), Unescape(second))
  {
    var tokens := [first] + [second];
    assert tokens[0] == first && tokens[1..] == [second];
    match Get(root, Unescape(first))
    case Some(mid) =>
      assert Navigate(root, tokens) == Navigate(mid, [second]);
      assert [second][1..] == [];
    case None =>
  }

  /** ... and after. */
  lemma HoistedTarget(root: Json, tail: string)
    requires '/' !in tail
    ensures Resolve(root, RewriteText(LOCAL + tail)) == Get(root, HoistedName(Unescape(tail)))
  {
    RewriteReference(tail);
    assert (HOISTED + tail)[2..] == DEFS_PREFIX + tail;
    SplitWhole(DEFS_PREFIX + tail, '/');
    NavigateOne(root, DEFS_PREFIX + tail);
    UnescapePrefix(DEFS_PREFIX, tail);
  }

  lemma RewriteReference(tail: string)
    requires '/' !in tail
    ensures RewriteText(LOCAL + tail) == HOISTED + tail
  {
    if !Unmarked(tail) { MarkedHasSlash(tail); }
    ReplaceAbsent(tail, LOCAL, HOISTED);
    assert (LOCAL + tail)[|LOCAL|..] == tail;
  }

  lemma NavigateOne(root: Json, token: string)
    ensures Navigate(root, [token]) == Get(root, Unescape(token))
  {
    assert [token][1..] == [];
  }

  // -------------------------------------------- one subschema, two roots

  /** A subschema as the linked document holds it: spec schemas are rewritten,
      the envelope is not. */
  function Placed(hoist: bool, s: Json): Json {
    if hoist then Rewrite(s) else s
  }

  function PlacedText(hoist: bool, s: string): string {
    if hoist then RewriteText(s) else s
  }

  /** The definition `doc` refers to as `tail`, if it has one, is found from
      `root`, as placed, under the reference as placed. */
  ghost predicate Reaches(hoist: bool, root: Json, doc: Json, tail: string) {
    '/' !in tail && Unescape(tail) in Defs(doc) ==>
      Resolve(root, PlacedText(hoist, LOCAL + tail)) == Some(Placed(hoist, Defs(doc)[Unescape(tail)]))
  }

  ghost predicate Reachable(hoist: bool, root: Json, doc: Json) {
    forall tail: string :: Reaches(hoist, root, doc, tail)
  }

  lemma PlacedFields(hoist: bool, s: Json, names: set<string>)
    requires s.Obj? && Linkable(s, names)
    ensures Placed(hoist, s).Obj? && Placed(hoist, s).fields.Keys == s.fields.Keys
    ensures forall k :: k in s.fields ==> Placed(hoist, s).fields[k] == Placed(hoist, s.fields[k])
  {
    if hoist { RewriteObject(s.fields); }
  }

  /** The two documents one subschema is judged in: its own, and the root it
      was placed into. */
  datatype Setting = Setting(hoist: bool, root: Json, doc: Json, voc: Vocabulary, cut: bool) {
    ghost predicate Valid() {
      LinkableDocument(doc) && Reachable(hoist, root, doc)
    }

    ghost predicate Fits(s: Json) {
      Linkable(s, Defs(doc).Keys)
    }

    /** `s` judges `v` alike in its own document and where it was placed. */
    ghost predicate Agrees(s: Json, v: Json, fuel: nat) {
      Accepts(voc, root, Placed(hoist, s), v, fuel, cut) == Accepts(voc, doc, s, v, fuel, cut)
    }
  }

  /** `t` is `s` as placed, member by member. */
  ghost predicate PlacedObject(hoist: bool, s: Json, t: Json) {
    s.Obj? && t.Obj? && t.fields.Keys == s.fields.Keys
    && forall k :: k in s.fields ==> t.fields[k] == Placed(hoist, s.fields[k])
  }

  /** One member of `s` judges alike before and after placement. */
  ghost predicate Alike(c: Setting, s: Json, t: Json, k: string, kw: Keyword, v: Json, fuel: nat)
    requires PlacedObject(c.hoist, s, t) && k in s.fields
  {
    Holds(c.voc, c.root, t, k, kw, v, fuel, c.cut) == Holds(c.voc, c.doc, s, k, kw, v, fuel, c.cut)
  }

  /** A linkable subschema means the same from either root, at every depth of
      reference and for every cut. */
  lemma {:induction false} SameVerdict(c: Setting, s: Json, v: Json, fuel: nat)
    requires c.Valid() && c.Fits(s)
    ensures c.Agrees(s, v, fuel)
    decreases fuel, s, 2
  {
    if s.Obj? {
      PlacedFields(c.hoist, s, Defs(c.doc).Keys);
      var t := Placed(c.hoist, s);
      forall k | k in s.fields ensures Alike(c, s, t, k, Classify(k), v, fuel) {
        SameMember(c, s, t, k, Classify(k), v, fuel);
      }
    }
  }

  lemma {:induction false} SameMember(c: Setting, s: Json, t: Json, k: string, kw: Keyword, v: Json, fuel: nat)
    requires c.Valid() && PlacedObject(c.hoist, s, t) && k in s.fields && c.Fits(s)
    requires LinkableMember(s.fields[k], kw, Defs(c.doc).Keys)
    ensures Alike(c, s, t, k, kw, v, fuel)
    decreases fuel, s, 1
  {
    match kw
    case Reference => SameReference(c, s, t, k, v, fuel);
    case AllOf | AnyOf | OneOf => SameList(c, s, t, k, kw, v, fuel);
    case If | Not => SameBranches(c, s, t, k, kw, v, fuel);
    case Properties => SameProperties(c, s, t, k, v, fuel);
    case Additional => SameAdditional(c, s, t, k, v, fuel);
    case Items => SameItems(c, s, t, k, v, fuel);
    case Const | Assertion => RewritePlain(s.fields[k]);
    case Branch | Annotation =>
  }

  lemma {:induction false} SameReference(c: Setting, s: Json, t: Json, k: string, v: Json, fuel: nat)
    requires c.Valid() && PlacedObject(c.hoist, s, t) && k in s.fields
    ensures LinkableMember(s.fields[k], Reference, Defs(c.doc).Keys) ==> Alike(c, s, t, k, Reference, v, fuel)
    decreases fuel, s, 0, 1
  {
    if s.fields[k].Str? && fuel > 0 {
      AlikeWithTarget(c, s, t, k, v, fuel);
    } else {
      AlikeWithoutTarget(c, s, t, k, v, fuel);
    }
  }

  lemma {:induction false} AlikeWithTarget(c: Setting, s: Json, t: Json, k: string, v: Json, fuel: nat)
    requires c.Valid() && PlacedObject(c.hoist, s, t) && k in s.fields && s.fields[k].Str? && fuel > 0
    ensures LinkableMember(s.fields[k], Reference, Defs(c.doc).Keys) ==> Alike(c, s, t, k, Reference, v, fuel)
    decreases fuel, s, 0, 0
  {
    if LinkableMember(s.fields[k], Reference, Defs(c.doc).Keys) {
      var target := PlacedTarget(c, s, t, k);
      var less := fuel - 1;
      SameVerdict(c, target, v, less);
      AlikeReference(c, s, t, k, v, fuel, target, less);
    }
  }

  lemma AlikeWithoutTarget(c: Setting, s: Json, t: Json, k: string, v: Json, fuel: nat)
    requires PlacedObject(c.hoist, s, t) && k in s.fields
    ensures !s.fields[k].Str? || fuel == 0 ==> Alike(c, s, t, k, Reference, v, fuel)
  {
  }

  /** The reference held by `s` leads to `target`, and as placed to `target` as placed. */
  ghost predicate Leads(c: Setting, s: Json, t: Json, k: string, target: Json)
    requires PlacedObject(c.hoist, s, t) && k in s.fields
  {
    s.fields[k].Str? && t.fields[k].Str?
    && Resolve(c.doc, s.fields[k].str) == Some(target)
    && Resolve(c.root, t.fields[k].str) == Some(Placed(c.hoist, target))
  }

  lemma PlacedTarget(c: Setting, s: Json, t: Json, k: string) returns (target: Json)
    requires c.Valid() && PlacedObject(c.hoist, s, t) && k in s.fields && s.fields[k].Str?
    requires NamesDefinition(s.fields[k].str, Defs(c.doc).Keys)
    ensures c.Fits(target) && Leads(c, s, t, k, target)
  {
    var reference := s.fields[k].str;
    var tail := reference[|LOCAL|..];
    assert reference == LOCAL + tail;
    LocalTarget(c.doc, tail);
    assert Reaches(c.hoist, c.root, c.doc, tail);
    target := Defs(c.doc)[Unescape(tail)];
  }

  lemma AlikeReference(c: Setting, s: Json, t: Json, k: string, v: Json, fuel: nat, target: Json, less: nat)
    requires PlacedObject(c.hoist, s, t) && k in s.fields && fuel == less + 1 && Leads(c, s, t, k, target)
    requires c.Agrees(target, v, less)
    ensures Alike(c, s, t, k, Reference, v, fuel)
  {
  }

  lemma {:induction false} SameList(c: Setting, s: Json, t: Json, k: string, kw: Keyword, v: Json, fuel: nat)
    requires c.Valid() && PlacedObject(c.hoist, s, t) && k in s.fields
    requires (kw.AllOf? || kw.AnyOf? || kw.OneOf?) && LinkableMember(s.fields[k], kw, Defs(c.doc).Keys)
    ensures Alike(c, s, t, k, kw, v, fuel)
    decreases fuel, s, 0
  {
    var arg := s.fields[k];
    if arg.Arr? {
      forall i | 0 <= i < |arg.items| ensures c.Agrees(arg.items[i], v, fuel) {
        SameVerdict(c, arg.items[i], v, fuel);
      }
    }
    AlikeList(c, s, t, k, kw, v, fuel);
  }

  lemma AlikeList(c: Setting, s: Json, t: Json, k: string, kw: Keyword, v: Json, fuel: nat)
    requires PlacedObject(c.hoist, s, t) && k in s.fields && (kw.AllOf? || kw.AnyOf? || kw.OneOf?)
    requires s.fields[k].Arr? ==> forall x :: x in s.fields[k].items ==> c.Agrees(x, v, fuel)
    ensures Alike(c, s, t, k, kw, v, fuel)
  {
    var arg, placed := s.fields[k], t.fields[k];
    if arg.Arr? {
      if c.hoist { RewriteArray(arg.items); }
      forall i | 0 <= i < |arg.items|
        ensures Accepts(c.voc, c.root, placed.items[i], v, fuel, c.cut)
          == Accepts(c.voc, c.doc, arg.items[i], v, fuel, c.cut)
      {
        assert placed.items[i] == Placed(c.hoist, arg.items[i]) && arg.items[i] in arg.items;
      }
      assert Accepting(c.voc, c.root, placed, v, fuel, c.cut) == Accepting(c.voc, c.doc, arg, v, fuel, c.cut);
    }
  }

  lemma {:induction false} SameBranches(c: Setting, s: Json, t: Json, k: string, kw: Keyword, v: Json, fuel: nat)
    requires c.Valid() && PlacedObject(c.hoist, s, t) && k in s.fields && c.Fits(s)
    requires (kw.If? || kw.Not?) && LinkableMember(s.fields[k], kw, Defs(c.doc).Keys)
    ensures Alike(c, s, t, k, kw, v, fuel)
    decreases fuel, s, 0
  {
    SameVerdict(c, s.fields[k], v, fuel);
    if "then" in s.fields {
      BranchFits(c, s, "then");
      SameVerdict(c, s.fields["then"], v, fuel);
    }
    if "else" in s.fields {
      BranchFits(c, s, "else");
      SameVerdict(c, s.fields["else"], v, fuel);
    }
    AlikeBranches(c, s, t, k, kw, v, fuel);
  }

  lemma BranchFits(c: Setting, s: Json, b: string)
    requires s.Obj? && c.Fits(s) && b in s.fields && (b == "then" || b == "else")
    ensures c.Fits(s.fields[b])
  {
    BranchKeywords();
    assert LinkableMember(s.fields[b], Classify(b), Defs(c.doc).Keys);
  }

  lemma BranchKeywords()
    ensures Classify("then").Branch? && Classify("else").Branch? && Classify("properties").Properties?
  {
  }

  lemma AlikeBranches(c: Setting, s: Json, t: Json, k: string, kw: Keyword, v: Json, fuel: nat)
    requires PlacedObject(c.hoist, s, t) && k in s.fields && (kw.If? || kw.Not?)
    requires forall b :: b in s.fields && b in {k, "then", "else"} ==> c.Agrees(s.fields[b], v, fuel)
    ensures Alike(c, s, t, k, kw, v, fuel)
  {
  }

  lemma {:induction false} SameProperties(c: Setting, s: Json, t: Json, k: string, v: Json, fuel: nat)
    requires c.Valid() && PlacedObject(c.hoist, s, t) && k in s.fields
    requires LinkableMember(s.fields[k], Properties, Defs(c.doc).Keys)
    ensures Alike(c, s, t, k, Properties, v, fuel)
    decreases fuel, s, 0
  {
    var arg := s.fields[k];
    if arg.Obj? && v.Obj? {
      forall p | p in arg.fields && p in v.fields
        ensures c.Agrees(arg.fields[p], v.fields[p], fuel)
      {
        SameVerdict(c, arg.fields[p], v.fields[p], fuel);
      }
      AlikeProperties(c, s, t, k, v, fuel);
    }
  }

  lemma AlikeProperties(c: Setting, s: Json, t: Json, k: string, v: Json, fuel: nat)
    requires PlacedObject(c.hoist, s, t) && k in s.fields && s.fields[k].Obj? && v.Obj?
    requires forall p :: p in s.fields[k].fields ==> Unmarked(p)
    requires forall p :: p in s.fields[k].fields && p in v.fields ==>
               c.Agrees(s.fields[k].fields[p], v.fields[p], fuel)
    ensures Alike(c, s, t, k, Properties, v, fuel)
  {
    var arg, placed := s.fields[k], t.fields[k];
    if c.hoist { RewriteObject(arg.fields); }
    forall p | p in arg.fields && p in v.fields
      ensures Accepts(c.voc, c.root, placed.fields[p], v.fields[p], fuel, c.cut)
           == Accepts(c.voc, c.doc, arg.fields[p], v.fields[p], fuel, c.cut)
    {
    }
  }

  lemma {:induction false} SameAdditional(c: Setting, s: Json, t: Json, k: string, v: Json, fuel: nat)
    requires c.Valid() && PlacedObject(c.hoist, s, t) && k in s.fields && c.Fits(s)
    requires LinkableMember(s.fields[k], Additional, Defs(c.doc).Keys)
    ensures Alike(c, s, t, k, Additional, v, fuel)
    decreases fuel, s, 0
  {
    SameDeclared(c, s, t);
    var arg := s.fields[k];
    if v.Obj? {
      forall p | p in v.fields ensures c.Agrees(arg, v.fields[p], fuel) {
        SameVerdict(c, arg, v.fields[p], fuel);
      }
    }
  }

  lemma {:induction false} SameItems(c: Setting, s: Json, t: Json, k: string, v: Json, fuel: nat)
    requires c.Valid() && PlacedObject(c.hoist, s, t) && k in s.fields
    requires LinkableMember(s.fields[k], Items, Defs(c.doc).Keys)
    ensures Alike(c, s, t, k, Items, v, fuel)
    decreases fuel, s, 0
  {
    var arg := s.fields[k];
    if v.Arr? {
      forall i | 0 <= i < |v.items| ensures c.Agrees(arg, v.items[i], fuel) {
        SameVerdict(c, arg, v.items[i], fuel);
      }
    }
  }

  lemma SameDeclared(c: Setting, s: Json, t: Json)
    requires c.Fits(s) && PlacedObject(c.hoist, s, t)
    ensures Declared(t) == Declared(s)
  {
    BranchKeywords();
    SameUnder(c, s, t, "properties");
    SameKeys(s, t, "properties");
  }

  lemma SameKeys(s: Json, t: Json, key: string)
    requires s.Obj? && t.Obj? && (key in t.fields <==> key in s.fields)
    requires key in s.fields ==> t.fields[key].Obj? == s.fields[key].Obj?
    requires key in s.fields && s.fields[key].Obj? ==> t.fields[key].fields.Keys == s.fields[key].fields.Keys
    ensures key == "properties" ==> Declared(t) == Declared(s)
  {
  }

  lemma SameUnder(c: Setting, s: Json, t: Json, key: string)
    requires c.Fits(s) && PlacedObject(c.hoist, s, t) && (key in s.fields ==> Classify(key).Properties?)
    ensures key in t.fields <==> key in s.fields
    ensures key in s.fields ==> t.fields[key].Obj? == s.fields[key].Obj?
    ensures key in s.fields && s.fields[key].Obj? ==> t.fields[key].fields.Keys == s.fields[key].fields.Keys
  {
    if key in s.fields {
      var arg := s.fields[key];
      assert LinkableMember(arg, Properties, Defs(c.doc).Keys);
      if arg.Obj? && c.hoist { RewriteObject(arg.fields); }
    }
  }
}
