/** `NovelAiParser`: the legacy layout (the prompt in a `Description` text, the
    parameters as a JSON `Comment` text) and the object recovered from the
    alpha channel, whose `Comment` member may hold a further JSON object. */
module NovelAi {
  import opened Wrappers
  import opened Text
  import opened Json
  import opened OrderedMap
  import opened Results
  import opened Codecs
  import opened JsonFields

  const COMMENT_KEY: string := "Comment"

  /** The keys `parseStealth`'s copy removes before building the settings line. */
  const STEALTH_EXCLUDED: seq<string> := ["prompt", "uc", "Description"]

  /** `parseLegacy(description, commentJson)`. */
  function ParseLegacy(c: Codecs, description: string, commentJson: string): (r: Outcome<Fields>)
    ensures r.Ok? <==> ParseObject(c, commentJson).Some?
    ensures !r.Ok? ==> r == Throws(NotJsonObject)
    ensures r.Ok? ==>
      var data := ParseObject(c, commentJson).value;
      && r.value.positive == Trim(description)
      && Picks(data, "uc", r.value.negative)
      && r.value.setting == SettingText(c, Without(data, ["uc"]))
      && r.value.raw == RawText([r.value.positive, r.value.negative, c.serialize(JObj(data))])
  {
    var data :- FromOption(ParseObject(c, commentJson), NotJsonObject);
    Ok(FromObject(c, data, Trim(description), "uc", ["uc"]))
  }

  /** `optString("Comment", "")`. */
  function CommentText(ser: Json -> string, json: Obj): string {
    OptString(ser, json, COMMENT_KEY, "")
  }

  /** The object `parseStealth` reads from: when `Comment` is present, the
      members of the object its text parses to are put over the others (the
      `runCatching` block, which leaves the object as it was when the text does
      not parse), and `Comment` itself is removed either way. */
  function Merged(c: Codecs, json: Obj): (r: Obj)
    ensures !Has(json, COMMENT_KEY) ==> r == json
    ensures !Has(r, COMMENT_KEY)
    ensures ParseObject(c, CommentText(c.serialize, json)).None? ==>
      forall k :: k != COMMENT_KEY ==> Find(r, k) == Find(json, k)
    ensures forall co, k ::
      (ParseObject(c, CommentText(c.serialize, json)) == Some(co) && k != COMMENT_KEY && k !in KeySet(co))
      ==> Find(r, k) == Find(json, k)
    ensures UniqueKeys(json) ==> UniqueKeys(r)
  {
    if !Has(json, COMMENT_KEY) then json
    else
      match ParseObject(c, CommentText(c.serialize, json))
      case Some(co) => Remove(Overlay(json, co), COMMENT_KEY)
      case None => Remove(json, COMMENT_KEY)
  }

  /** With `Comment` present and parsed, each of its members (other than a
      nested `Comment`) replaces the member of the same key. */
  lemma CommentValuesWin(c: Codecs, json: Obj, co: Obj, k: string)
    requires Has(json, COMMENT_KEY)
    requires ParseObject(c, CommentText(c.serialize, json)) == Some(co)
    requires UniqueKeys(co)
    requires k in KeySet(co) && k != COMMENT_KEY
    ensures Find(Merged(c, json), k) == Find(co, k)
  {
    OverlayTopWins(json, co, k);
  }

  /** `parseStealth(json)`. */
  function ParseStealth(c: Codecs, json: Obj): (r: Fields)
    ensures
      var merged := Merged(c, json);
      && (forall s :: Find(merged, "prompt") == Some(JStr(s)) ==> r.positive == Trim(s))
      && (forall s :: !Has(merged, "prompt") && Find(merged, "Description") == Some(JStr(s)) ==> r.positive == Trim(s))
      && (!Has(merged, "prompt") && !Has(merged, "Description") ==> r.positive == "")
      && Picks(merged, "uc", r.negative)
      && r.setting == SettingText(c, Without(merged, STEALTH_EXCLUDED))
      && r.raw == RawText([r.positive, r.negative, c.serialize(JObj(merged))])
  {
    var merged := Merged(c, json);
    var positive := Trim(OptString(c.serialize, merged, "prompt", OptString(c.serialize, merged, "Description", "")));
    FromObject(c, merged, positive, "uc", STEALTH_EXCLUDED)
  }
}
