/** The part the JSON-based parsers (`SwarmUiParser`, `FooocusParser` and
    `NovelAiParser`) share: once the object and the positive prompt are known,
    the negative prompt is one key's trimmed text, the settings line is the
    object without the prompt keys, and the raw text lists the non-blank
    prompts and the whole object.

    Each parser first copies its object with `JSONObject(obj.toString())`; that
    serialise-then-parse copy is taken to give back the same members in the same
    order, so the copy is the object itself here. */
module JsonFields {
  import opened Wrappers
  import opened Text
  import opened Json
  import opened OrderedMap
  import opened Results
  import opened Codecs

  /** `text` is what `optString(key, "").trim()` gives on `obj` for a string
      value or a missing key. */
  ghost predicate Picks(obj: Obj, key: string, text: string) {
    && (forall s :: Find(obj, key) == Some(JStr(s)) ==> text == Trim(s))
    && (!Has(obj, key) ==> text == "")
  }

  lemma FieldTextPicks(ser: Json -> string, obj: Obj, key: string)
    ensures Picks(obj, key, FieldText(ser, obj, key))
  {
  }

  /** The record a parser returns for `obj`: the negative prompt under
      `negKey`, the settings line of `obj` without the `excluded` keys (the
      copy's `remove` calls), and the raw text. */
  function FromObject(c: Codecs, obj: Obj, positive: string, negKey: string, excluded: seq<string>): (r: Fields)
    ensures r.positive == positive
    ensures Picks(obj, negKey, r.negative)
    ensures r.setting == SettingText(c, Without(obj, excluded))
    ensures r.raw == RawText([positive, r.negative, c.serialize(JObj(obj))])
  {
    RemoveKeysIsWithout(obj, excluded);
    var negative := FieldText(c.serialize, obj, negKey);
    Fields(positive, negative, SettingText(c, RemoveKeys(obj, excluded)), RawText([positive, negative, c.serialize(JObj(obj))]))
  }

  /** The settings object holds exactly the members whose keys are not excluded. */
  lemma SettingMembers(obj: Obj, excluded: seq<string>, e: Entry<Json>)
    requires e in obj
    ensures e in Without(obj, excluded) <==> e.key !in excluded
  {
    if e in Without(obj, excluded) {
      var w := Without(obj, excluded);
      var i :| 0 <= i < |w| && w[i] == e;
    } else {
      var i :| 0 <= i < |obj| && obj[i] == e;
    }
  }
}
