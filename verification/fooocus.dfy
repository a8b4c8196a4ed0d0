/** `FooocusParser.parse`: Fooocus writes its parameters as one flat JSON object. */
module Fooocus {
  import opened Wrappers
  import opened Json
  import opened OrderedMap
  import opened Results
  import opened Codecs
  import opened JsonFields

  /** The keys the copy removes before building the settings line. */
  const EXCLUDED: seq<string> := ["prompt", "negative_prompt"]

  /** `parse(jsonText)`: `JSONObject(jsonText)` throws on anything but an object. */
  function Parse(c: Codecs, jsonText: string): (r: Outcome<Fields>)
    ensures r.Ok? <==> ParseObject(c, jsonText).Some?
    ensures !r.Ok? ==> r == Throws(NotJsonObject)
    ensures r.Ok? ==>
      var data := ParseObject(c, jsonText).value;
      && Picks(data, "prompt", r.value.positive)
      && Picks(data, "negative_prompt", r.value.negative)
      && r.value.setting == SettingText(c, Without(data, EXCLUDED))
      && r.value.raw == RawText([r.value.positive, r.value.negative, c.serialize(JObj(data))])
  {
    var data :- FromOption(ParseObject(c, jsonText), NotJsonObject);
    var positive := FieldText(c.serialize, data, "prompt");
    FieldTextPicks(c.serialize, data, "prompt");
    Ok(FromObject(c, data, positive, "negative_prompt", EXCLUDED))
  }
}
