/** What the collection validators read of one desired-state document. */
module Documents {
  import opened Wrappers
  import opened JsonValues

  /** A parsed document under the name diagnostics give it. */
  datatype Entry = Entry(base: string, document: Json)

  function BaseOf(e: Entry): Option<string> {
    Some(e.base)
  }

  /** The kinds other documents bind to by name. */
  datatype Role = Machine | Profile | Project | Unbound

  function KindOf(document: Json): string {
    TextOf(Get(document, "kind"))
  }

  function RoleOf(document: Json): Role {
    var kind := KindOf(document);
    if kind == "Machine" then Machine
    else if kind == "Profile" then Profile
    else if kind == "Project" then Project
    else Unbound
  }

  function NameOf(document: Json): Option<string> {
    AsStr(Get2(document, "metadata", "name"))
  }

  function IdOf(document: Json): Option<string> {
    AsStr(Get2(document, "metadata", "id"))
  }

  /** A text item of a list, with its position. */
  datatype Item = Item(index: nat, text: string)

  /** The text items of a list; anything else in it is passed over. */
  function StringItems(items: seq<Json>): (r: seq<Item>)
    ensures forall k :: 0 <= k < |r| ==> r[k].index < |items| && items[r[k].index] == Str(r[k].text)
    ensures forall i :: 0 <= i < |items| && items[i].Str? ==> Item(i, items[i].str) in r
  {
    if items == [] then []
    else
      var last := |items| - 1;
      var rest := StringItems(items[..last]);
      if items[last].Str? then rest + [Item(last, items[last].str)] else rest
  }

  function SpecItems(document: Json, field: string): seq<Item> {
    StringItems(AsArr(match Get(document, "spec") case Some(spec) => Get(spec, field) case None => None))
  }

  function Texts(items: seq<Item>): seq<string> {
    seq(|items|, i requires 0 <= i < |items| => items[i].text)
  }
}
