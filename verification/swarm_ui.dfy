/** `SwarmUiParser.parse`: StableSwarmUI keeps its generation parameters in a
    `sui_image_params` object inside the JSON text. */
module SwarmUi {
  import opened Wrappers
  import opened Json
  import opened OrderedMap
  import opened Results
  import opened Codecs
  import opened JsonFields

  const PARAMS_KEY: string := "sui_image_params"

  /** The keys the copy removes before building the settings line. */
  const EXCLUDED: seq<string> := ["prompt", "negativeprompt"]

  /** The `sui_image_params` object, or an empty one when it is missing or not an object. */
  function Params(root: Obj): (r: Obj)
    ensures forall p :: Find(root, PARAMS_KEY) == Some(JObj(p)) ==> r == p
    ensures OptObject(root, PARAMS_KEY).None? ==> r == []
  {
    OptObject(root, PARAMS_KEY).GetOr([])
  }

  /** `parse(jsonText)`: `JSONObject(jsonText)` throws on anything but an object. */
  function Parse(c: Codecs, jsonText: string): (r: Outcome<Fields>)
    ensures r.Ok? <==> ParseObject(c, jsonText).Some?
    ensures !r.Ok? ==> r == Throws(NotJsonObject)
    ensures r.Ok? ==>
      var params := Params(ParseObject(c, jsonText).value);
      && Picks(params, "prompt", r.value.positive)
      && Picks(params, "negativeprompt", r.value.negative)
      && r.value.setting == SettingText(c, Without(params, EXCLUDED))
      && r.value.raw == RawText([r.value.positive, r.value.negative, c.serialize(JObj(params))])
  {
    var root :- FromOption(ParseObject(c, jsonText), NotJsonObject);
    var params := Params(root);
    var positive := FieldText(c.serialize, params, "prompt");
    FieldTextPicks(c.serialize, params, "prompt");
    Ok(FromObject(c, params, positive, "negativeprompt", EXCLUDED))
  }
}
