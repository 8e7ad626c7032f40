/** What the Registry checks report of each item of a list and of each field. */
module RegistryItems {
  import opened Wrappers
  import opened Text
  import opened TextSearch
  import opened JsonValues
  import opened Diagnostics
  import opened Documents
  import opened RegistryNames
  import opened RegistryScan
  import opened RegistrySpecs
  import opened Registry
  import opened ReportFacts

  /** The two kinds of Registry documents, and where a type's name is. */
  lemma ReadByKind(g: Grammars, e: Entry)
    ensures EntryAt(g, e) == match Get(e.document, "spec")
      case Some(spec) => if AsStr(Get(e.document, "kind")) == Some("RegistryEntry") then g.readEntry(spec) else None
      case None => None
    ensures TypeAt(g, e).Some? <==>
      && AsStr(Get(e.document, "kind")) == Some("RegistryType") && Get(e.document, "spec").Some?
      && g.readType(Get(e.document, "spec").value).Some? && AsStr(Get2(e.document, "metadata", "name")).Some?
    ensures TypeAt(g, e).Some? ==>
      && TypeAt(g, e).value.name == AsStr(Get2(e.document, "metadata", "name")).value
      && TypeAt(g, e).value.spec == g.readType(Get(e.document, "spec").value).value
  {
    assert |"RegistryEntry"| == 13 && |"RegistryType"| == 12;
  }

  /** A list that grew by one diagnostic about its last item. */
  lemma OneMore(before: seq<Diagnostic>, reported: bool, own: Diagnostic, code: Code, at: Location)
    ensures Reports(before + (if reported then [own] else []), code, at) <==>
      Reports(before, code, at) || (reported && own.code == code && own.at == at)
  {
    if reported {
      ReportsSum(before, [own], code, at);
      ReportsOne(own, code, at);
    } else {
      assert before + [] == before;
    }
  }

  // -------------------------------------------------------------------- tags

  /** A tag is reported iff it is no slug or was given before. */
  lemma {:induction false} TagReportedIff(base: string, tags: seq<string>, i: nat)
    ensures Reports(TagErrors(base, tags), InvalidTag, At(base, [Key("tags"), Index(i)])) <==>
      i < |tags| && (!IsSlug(tags[i]) || tags[i] in tags[..i])
  {
    if tags != [] {
      var last := |tags| - 1;
      var before, at := TagErrors(base, tags[..last]), At(base, [Key("tags"), Index(i)]);
      TagReportedIff(base, tags[..last], i);
      var own, bad := Diagnostic(InvalidTag, At(base, [Key("tags"), Index(last)]), []),
        !(IsSlug(tags[last]) && tags[last] !in tags[..last]);
      OneMore(before, bad, own, InvalidTag, at);
      assert own.at.path[2] == Index(last) && at.path[2] == Index(i);
      if i < last { assert tags[..last][..i] == tags[..i]; }
    }
  }

  /** A relation type of a definition is reported iff it is no slug or was given
      before. */
  lemma {:induction false} RelationTypeReportedIff(base: string, relations: seq<string>, i: nat)
    ensures Reports(RelationTypeErrors(base, relations), InvalidType, At(base, [Key("relations"), Index(i)])) <==>
      i < |relations| && (!IsSlug(relations[i]) || relations[i] in relations[..i])
  {
    if relations != [] {
      var last := |relations| - 1;
      var before, at := RelationTypeErrors(base, relations[..last]), At(base, [Key("relations"), Index(i)]);
      RelationTypeReportedIff(base, relations[..last], i);
      var own, bad := Invalid(base, [Key("relations"), Index(last)], []),
        !(IsSlug(relations[last]) && relations[last] !in relations[..last]);
      OneMore(before, bad, own, InvalidType, at);
      assert own.at.path[2] == Index(last) && at.path[2] == Index(i);
      if i < last { assert relations[..last][..i] == relations[..i]; }
    }
  }

  // ------------------------------------------------------------------- links

  /** A link is reported at its URL iff that is none, and at its label iff that is
      blank or has a control character. */
  lemma {:induction false} LinkReportedIff(g: Grammars, base: string, links: seq<Link>, i: nat)
    ensures Reports(LinkProblems(g, base, links), InvalidLink, At(base, [Key("links"), Index(i), Key("url")])) <==>
      i < |links| && !g.url(links[i].url)
    ensures Reports(LinkProblems(g, base, links), InvalidLink, At(base, [Key("links"), Index(i), Key("label")])) <==>
      i < |links| && (Trim(links[i].caption) == ""
                      || exists c :: c in links[i].caption && (c < ' ' || '\U{7f}' <= c <= '\U{9f}'))
  {
    if links != [] {
      var last := |links| - 1;
      LinkReportedIff(g, base, links[..last], i);
      LastLink(g, base, links, i);
    }
  }

  lemma LastLink(g: Grammars, base: string, links: seq<Link>, i: nat)
    requires links != []
    ensures var last := |links| - 1;
      var url := At(base, [Key("links"), Index(i), Key("url")]);
      var caption := At(base, [Key("links"), Index(i), Key("label")]);
      var all, before := LinkProblems(g, base, links), LinkProblems(g, base, links[..last]);
      && (Reports(all, InvalidLink, url) <==> Reports(before, InvalidLink, url) || (i == last && !g.url(links[i].url)))
      && (Reports(all, InvalidLink, caption) <==>
            Reports(before, InvalidLink, caption) || (i == last && BadCaption(links[i].caption)))
  {
    var last := |links| - 1;
    var url := At(base, [Key("links"), Index(i), Key("url")]);
    var caption := At(base, [Key("links"), Index(i), Key("label")]);
    var before, own := LinkProblems(g, base, links[..last]), LinkProblemsOf(g, base, last, links[last]);
    ReportsSum(before, own, InvalidLink, url);
    ReportsSum(before, own, InvalidLink, caption);
    OwnLink(g, base, last, links[last], i);
  }

  lemma OwnLink(g: Grammars, base: string, last: nat, link: Link, i: nat)
    ensures var url := At(base, [Key("links"), Index(i), Key("url")]);
      var caption := At(base, [Key("links"), Index(i), Key("label")]);
      && (Reports(LinkProblemsOf(g, base, last, link), InvalidLink, url) <==> i == last && !g.url(link.url))
      && (Reports(LinkProblemsOf(g, base, last, link), InvalidLink, caption) <==> i == last && BadCaption(link.caption))
  {
    var url := At(base, [Key("links"), Index(i), Key("url")]);
    var caption := At(base, [Key("links"), Index(i), Key("label")]);
    var ownUrl, ownCaption := Diagnostic(InvalidLink, At(base, [Key("links"), Index(last), Key("url")]), []),
      Diagnostic(InvalidLink, At(base, [Key("links"), Index(last), Key("label")]), []);
    var first := if g.url(link.url) then [] else [ownUrl];
    assert Key("url") != Key("label");
    assert url.path[2] == Index(i) && caption.path[2] == Index(i) && url.path[3] == Key("url");
    assert ownUrl.at.path[2] == Index(last) && ownCaption.at.path[2] == Index(last);
    assert ownUrl.at.path[3] == Key("url") && ownCaption.at.path[3] == Key("label") && caption.path[3] == Key("label");
    OneMore([], !g.url(link.url), ownUrl, InvalidLink, url);
    OneMore([], !g.url(link.url), ownUrl, InvalidLink, caption);
    OneMore(first, BadCaption(link.caption), ownCaption, InvalidLink, url);
    OneMore(first, BadCaption(link.caption), ownCaption, InvalidLink, caption);
    assert [] + first == first;
    assert !Reports([], InvalidLink, url) && !Reports([], InvalidLink, caption);
  }

  // -------------------------------------------------------------- list items

  /** An item of a list value is reported as of the wrong type iff it is, and as
      repeated iff it is of the right type and was given before. */
  lemma {:induction false} ItemReportedIff(g: Grammars, base: string, path: Path, item: Scalar, items: seq<Json>,
                                           i: nat)
    ensures Reports(ItemErrors(g, base, path, item, items), FieldType, At(base, path + [Index(i)])) <==>
      i < |items| && !g.scalar(item, items[i])
    ensures Reports(ItemErrors(g, base, path, item, items), DuplicateItem, At(base, path + [Index(i)])) <==>
      i < |items| && g.scalar(item, items[i]) && items[i] in items[..i]
  {
    if items != [] {
      var last := |items| - 1;
      var before, at := ItemErrors(g, base, path, item, items[..last]), At(base, path + [Index(i)]);
      ItemReportedIff(g, base, path, item, items[..last], i);
      var mismatch, again := Mismatch(base, path + [Index(last)]),
        Diagnostic(DuplicateItem, At(base, path + [Index(last)]), []);
      var wrong := !g.scalar(item, items[last]);
      var own := if wrong then mismatch else again;
      OneMore(before, wrong || items[last] in items[..last], own, FieldType, at);
      OneMore(before, wrong || items[last] in items[..last], own, DuplicateItem, at);
      ItemPlaces(base, path, last, i);
      if i < last { assert items[..last][..i] == items[..i]; }
    }
  }

  lemma ItemPlaces(base: string, path: Path, a: nat, b: nat)
    ensures At(base, path + [Index(a)]) == At(base, path + [Index(b)]) <==> a == b
  {
    var x, y := At(base, path + [Index(a)]), At(base, path + [Index(b)]);
    assert x.path[|path| + 1] == Index(a) && y.path[|path| + 1] == Index(b);
  }

  // ------------------------------------------------------------------ fields

  /** What an entry is reported for its fields is what it is reported for one. */
  lemma {:induction false} FieldReportedIff(g: Grammars, base: string, spec: TypeSpec, entry: EntrySpec,
                                            names: seq<string>, d: Diagnostic)
    requires forall name :: name in names ==> name in entry.fields
    ensures d in EntryFieldErrors(g, base, spec, entry, names) <==>
      exists name :: name in names &&
        if name in spec.fields then d in ValueErrors(g, base, FieldPath(name), spec.fields[name], entry.fields[name])
        else d == Diagnostic(UnknownField, At(base, FieldPath(name)), [entry.entryType])
  {
    if names != [] {
      var before, last := names[..|names| - 1], names[|names| - 1];
      assert names == before + [last];
      FieldReportedIff(g, base, spec, entry, before, d);
    }
  }

  /** A required field is reported as missing iff some such field is. */
  lemma {:induction false} RequiredReportedIff(base: string, spec: TypeSpec, entry: EntrySpec, names: seq<string>,
                                               d: Diagnostic)
    requires forall name :: name in names ==> name in spec.fields
    ensures d in RequiredErrors(base, spec, entry, names) <==>
      exists name :: name in names && spec.fields[name].required && name !in entry.fields
                     && d == Diagnostic(MissingRequired, At(base, [Key("fields")]), [SafeKey(name)])
  {
    if names != [] {
      var before, last := names[..|names| - 1], names[|names| - 1];
      assert names == before + [last];
      RequiredReportedIff(base, spec, entry, before, d);
    }
  }

  /** What a definition is reported for its fields is what it is reported for one. */
  lemma {:induction false} FieldSpecReportedIff(base: string, fields: map<string, FieldSpec>, names: seq<string>,
                                                d: Diagnostic)
    requires forall name :: name in names ==> name in fields
    ensures d in FieldSpecsErrors(base, fields, names) <==>
      exists name :: name in names && d in FieldSpecErrors(base, name, fields[name])
  {
    if names != [] {
      var before, last := names[..|names| - 1], names[|names| - 1];
      assert names == before + [last];
      FieldSpecReportedIff(base, fields, before, d);
    }
  }

  /** Where a field of a definition is reported, and why. */
  lemma FieldSpecPlaces(base: string, name: string, field: FieldSpec)
    ensures Reports(FieldSpecErrors(base, name, field), InvalidType, At(base, FieldPath(name))) <==> !IsFieldName(name)
    ensures Reports(FieldSpecErrors(base, name, field), InvalidType, At(base, FieldPath(name) + [Key("items")])) <==>
      (field.scalar.None? <==> field.items.None?)
    ensures Reports(FieldSpecErrors(base, name, field), InvalidType,
                    At(base, FieldPath(name) + [Key("suggestions")])) <==>
      || (field.suggestions != [] && field.scalar !in {None, Some(String), Some(Enum)})
      || ((field.scalar == Some(Enum) || field.items == Some(Enum)) && field.suggestions == [])
  {
    var path := FieldPath(name);
    var named, itemed, suggested := Invalid(base, path, []), Invalid(base, path + [Key("items")], []),
      Invalid(base, path + [Key("suggestions")], []);
    assert named.at.path == [Key("spec")] + path && |named.at.path| == 3;
    assert itemed.at.path[3] == Key("items") && suggested.at.path[3] == Key("suggestions");
    assert Key("items") != Key("suggestions");
    SpecParts(base, name, field, named.at);
    SpecParts(base, name, field, itemed.at);
    SpecParts(base, name, field, suggested.at);
  }

  lemma SpecParts(base: string, name: string, field: FieldSpec, at: Location)
    ensures var path := FieldPath(name);
      Reports(FieldSpecErrors(base, name, field), InvalidType, at) <==>
        || (!IsFieldName(name) && at == At(base, path))
        || (field.scalar.None? == field.items.None? && at == At(base, path + [Key("items")]))
        || (field.suggestions != [] && !Suggestible(field) && at == At(base, path + [Key("suggestions")]))
        || (NeedsSuggestions(field) && field.suggestions == [] && at == At(base, path + [Key("suggestions")]))
  {
    var path := FieldPath(name);
    var suggested := Invalid(base, path + [Key("suggestions")], []);
    var a := if !IsFieldName(name) then [Invalid(base, path, [])] else [];
    var b := if field.scalar.None? == field.items.None? then [Invalid(base, path + [Key("items")], [])] else [];
    var c := if field.suggestions != [] && !Suggestible(field) then [suggested] else [];
    assert !Reports([], InvalidType, at) && [] + a == a;
    OneMore([], !IsFieldName(name), Invalid(base, path, []), InvalidType, at);
    OneMore(a, field.scalar.None? == field.items.None?, Invalid(base, path + [Key("items")], []), InvalidType, at);
    OneMore(a + b, field.suggestions != [] && !Suggestible(field), suggested, InvalidType, at);
    OneMore(a + b + c, NeedsSuggestions(field) && field.suggestions == [], suggested, InvalidType, at);
  }

  /** Where the key of a definition is reported, and why. */
  lemma KeyFieldPlaces(base: string, name: string, spec: TypeSpec)
    ensures Reports(KeyFieldErrors(base, name, spec), InvalidType, At(base, [Key("key")])) <==> spec.key !in spec.fields
    ensures Reports(KeyFieldErrors(base, name, spec), InvalidType, At(base, FieldPath(spec.key) + [Key("required")])) <==>
      spec.key in spec.fields && !spec.fields[spec.key].required
    ensures Reports(KeyFieldErrors(base, name, spec), InvalidType, At(base, FieldPath(spec.key) + [Key("type")])) <==>
      && spec.key in spec.fields
      && spec.fields[spec.key].scalar !in {Some(String), Some(Enum), Some(Hostname), Some(Email)}
  {
    var path := FieldPath(spec.key);
    var undeclared, optional, odd := Invalid(base, [Key("key")], [name]), Invalid(base, path + [Key("required")], []),
      Invalid(base, path + [Key("type")], []);
    assert |undeclared.at.path| == 2 && optional.at.path[3] == Key("required") && odd.at.path[3] == Key("type");
    assert Key("required") != Key("type");
    KeyParts(base, name, spec, undeclared.at);
    KeyParts(base, name, spec, optional.at);
    KeyParts(base, name, spec, odd.at);
  }

  lemma KeyParts(base: string, name: string, spec: TypeSpec, at: Location)
    ensures var path := FieldPath(spec.key);
      Reports(KeyFieldErrors(base, name, spec), InvalidType, at) <==>
        if spec.key !in spec.fields then at == At(base, [Key("key")])
        else
          || (!spec.fields[spec.key].required && at == At(base, path + [Key("required")]))
          || (!KeyScalar(spec.fields[spec.key].scalar) && at == At(base, path + [Key("type")]))
  {
    var path := FieldPath(spec.key);
    assert !Reports([], InvalidType, at);
    if spec.key in spec.fields {
      var field := spec.fields[spec.key];
      var first := if !field.required then [Invalid(base, path + [Key("required")], [])] else [];
      assert [] + first == first;
      OneMore([], !field.required, Invalid(base, path + [Key("required")], []), InvalidType, at);
      OneMore(first, !KeyScalar(field.scalar), Invalid(base, path + [Key("type")], []), InvalidType, at);
    } else {
      ReportsOne(Invalid(base, [Key("key")], [name]), InvalidType, at);
    }
  }

  // -------------------------------------------------------------- credentials

  /** A credential is reported where a text or a key carries one. */
  lemma {:induction false} StringReportedIff(carries: Scrubber, base: string, found: seq<Found>, path: Path)
    ensures Reports(StringErrors(carries, base, found), CredentialValue, Location(base, path)) <==>
      exists f :: f in found && f.path == path && carries(f.text)
  {
    if found != [] {
      var before, last := found[..|found| - 1], found[|found| - 1];
      assert found == before + [last];
      StringReportedIff(carries, base, before, path);
      OneMore(StringErrors(carries, base, before), carries(last.text), CredentialError(base, last.path), CredentialValue,
              Location(base, path));
    }
  }

  /** A value of a field is reported where it carries one joined with the field's name. */
  lemma {:induction false} PairReportedIff(carries: Scrubber, base: string, name: string, items: seq<(Path, Json)>,
                                           path: Path)
    ensures Reports(PairErrors(carries, base, name, items), CredentialValue, Location(base, path)) <==>
      exists item :: item in items && item.0 == path && item.1.Str? && carries(name + ": " + item.1.str)
  {
    if items != [] {
      var before, last := items[..|items| - 1], items[|items| - 1];
      assert items == before + [last];
      PairReportedIff(carries, base, name, before, path);
      OneMore(PairErrors(carries, base, name, before), last.1.Str? && carries(Joined(name, last.1.str)),
              CredentialError(base, last.0), CredentialValue, Location(base, path));
    }
  }

  /** A link is reported where its label and its URL carry one joined. */
  lemma {:induction false} LinkCarryReportedIff(carries: Scrubber, base: string, links: seq<Json>, i: nat)
    ensures Reports(LinkErrors(carries, base, links), CredentialValue,
                    Location(base, [Key("spec"), Key("links"), Index(i)])) <==>
      && i < |links| && AsStr(Get(links[i], "label")).Some? && AsStr(Get(links[i], "url")).Some?
      && carries(AsStr(Get(links[i], "label")).value + ": " + AsStr(Get(links[i], "url")).value)
  {
    if links != [] {
      var last := |links| - 1;
      var at := Location(base, [Key("spec"), Key("links"), Index(i)]);
      LinkCarryReportedIff(carries, base, links[..last], i);
      var own := CredentialError(base, [Key("spec"), Key("links"), Index(last)]);
      OneMore(LinkErrors(carries, base, links[..last]), LinkCarries(carries, links[last]), own, CredentialValue, at);
      assert own.at.path[2] == Index(last) && at.path[2] == Index(i);
    }
  }
}
