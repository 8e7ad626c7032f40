/** JSON values as the validators see them: a number keeps its text, and an
    object is a map (its members are held sorted by key). */
module JsonValues {
  import opened Wrappers

  datatype Json =
    | Null
    | Bool(flag: bool)
    | Number(text: string)
    | Str(str: string)
    | Arr(items: seq<Json>)
    | Obj(fields: map<string, Json>)

  /** One member of an object; nothing when `j` is not an object. */
  function Get(j: Json, key: string): Option<Json> {
    if j.Obj? && key in j.fields then Some(j.fields[key]) else None
  }

  /** The value under two nested keys. */
  function Get2(j: Json, outer: string, inner: string): Option<Json> {
    match Get(j, outer)
    case Some(mid) => Get(mid, inner)
    case None => None
  }

  function AsStr(j: Option<Json>): Option<string> {
    match j
    case Some(Str(s)) => Some(s)
    case _ => None
  }

  function AsArr(j: Option<Json>): seq<Json> {
    match j
    case Some(Arr(items)) => items
    case _ => []
  }

  /** A text member, or the empty text. */
  function TextOf(j: Option<Json>): string {
    match AsStr(j)
    case Some(s) => s
    case None => ""
  }
}
