/** The JSON values the parsers work on, as Android's `org.json` holds them:
    an object is an insertion-ordered list of members (it is backed by a
    `LinkedHashMap`), and the accessors `opt`, `has`, `optString`,
    `optJSONObject`, `optJSONArray`, `put` and `remove` are modelled over that list.

    Parsing text into a value and serialising a value back to text belong to the
    JSON library, not to this model; they are passed in where needed (see `Codecs`). */
module Json {
  import opened Wrappers
  import opened OrderedMap

  /** A number is kept as the text Java's `toString` gives for it (`20`, `7.5`),
      which is all the modelled code ever observes of a number. */
  datatype Json =
    | JNull
    | JBool(b: bool)
    | JNum(text: string)
    | JStr(s: string)
    | JArr(items: seq<Json>)
    | JObj(members: Obj)

  type Obj = Map<Json>

  /** `JSON.toString(value)` / `String.valueOf(value)`: how `org.json` turns any
      stored value into text. Strings are returned as they are, `JSONObject.NULL`
      prints as `null`, and nested arrays and objects are serialised. */
  function ValueText(serialize: Json -> string, v: Json): string {
    match v
    case JStr(s) => s
    case JNull => "null"
    case JBool(b) => if b then "true" else "false"
    case JNum(t) => t
    case _ => serialize(v)
  }

  /** Android's `optString(key, null)`: nothing when the key is absent, else the
      value's text (so a JSON null reads as the text `null`). */
  function OptStringOrNone(serialize: Json -> string, o: Obj, k: string): (r: Option<string>)
    ensures r.None? <==> !Has(o, k)
    ensures Find(o, k) == Some(JNull) ==> r == Some("null")
    ensures forall s :: Find(o, k) == Some(JStr(s)) ==> r == Some(s)
  {
    match Find(o, k)
    case None => None
    case Some(v) => Some(ValueText(serialize, v))
  }

  /** Android's `optString(key, fallback)`. */
  function OptString(serialize: Json -> string, o: Obj, k: string, fallback: string): string {
    OptStringOrNone(serialize, o, k).GetOr(fallback)
  }

  /** `optJSONObject(key)`: the members when the value under `key` is an object. */
  function OptObject(o: Obj, k: string): (r: Option<Obj>)
    ensures r.Some? <==> Find(o, k).Some? && Find<Json>(o, k).value.JObj?
    ensures r.Some? ==> Find(o, k) == Some(JObj(r.value))
  {
    var f: Option<Json> := Find(o, k);
    match f
    case Some(JObj(m)) => Some(m)
    case _ => None
  }

  /** `optJSONArray(key)`: the items when the value under `key` is an array. */
  function OptArray(o: Obj, k: string): (r: Option<seq<Json>>)
    ensures r.Some? <==> Find(o, k).Some? && Find<Json>(o, k).value.JArr?
    ensures r.Some? ==> Find(o, k) == Some(JArr(r.value))
  {
    var f: Option<Json> := Find(o, k);
    match f
    case Some(JArr(items)) => Some(items)
    case _ => None
  }
}
