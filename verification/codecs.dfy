/** The records the parsers return. */
module Results {

  /** The `Result` record of `A1111Parser`, `SwarmUiParser`, `FooocusParser` and `NovelAiParser`. */
  datatype Fields = Fields(positive: string, negative: string, setting: string, raw: string)

  /** `PromptParseResult`, and the `Result` of `ComfyUiParser` (which carries its own tool label). */
  datatype Parsed = Parsed(tool: string, positive: string, negative: string, setting: string, raw: string)

  function WithTool(tool: string, f: Fields): (r: Parsed)
    ensures r.tool == tool && r.positive == f.positive && r.negative == f.negative
    ensures r.setting == f.setting && r.raw == f.raw
  {
    Parsed(tool, f.positive, f.negative, f.setting, f.raw)
  }
}

/** The library code the core calls but does not implement, passed in as
    functions: the `org.json` tokenizer and serialiser, `java.util.zip`
    inflation, UTF-8 decoding, and `ComfyUiParser.parseWorkflow` (which the
    shown `ComfyUiParser` does not define). A `None` result stands for the
    exception the library would throw. */
module Codecs {
  import opened Wrappers
  import opened Bytes
  import opened Json
  import opened Text
  import opened Results
  import opened OrderedMap

  datatype Codecs = Codecs(
    parseJson: string -> Option<Json>,        // JSONTokener(text).nextValue()
    serialize: Json -> string,                // JSONObject/JSONArray.toString()
    inflate: seq<byte> -> Option<seq<byte>>,  // InflaterInputStream read to the end
    utf8: seq<byte> -> string,                // String(bytes, Charsets.UTF_8), never fails
    gunzipText: seq<byte> -> Option<string>,  // GZIPInputStream read to the end, as UTF-8
    parseWorkflow: string -> Option<Parsed>   // ComfyUiParser.parseWorkflow
  )

  /** `JSONObject(text)`: the text must hold an object. */
  function ParseObject(c: Codecs, text: string): (r: Option<Obj>)
    ensures r.Some? <==> c.parseJson(text).Some? && c.parseJson(text).value.JObj?
    ensures r.Some? ==> c.parseJson(text) == Some(JObj(r.value))
  {
    match c.parseJson(text)
    case Some(JObj(m)) => Some(m)
    case _ => None
  }

  /** The display line the JSON-based parsers build from an object: its
      serialised text with the surrounding braces stripped, every double quote
      removed, and the surrounding whitespace trimmed. */
  function SettingText(c: Codecs, obj: Obj): (r: string)
    ensures forall i :: 0 <= i < |r| ==> r[i] != '"'
    ensures |r| > 0 ==> !IsWhitespace(r[0]) && !IsWhitespace(r[|r| - 1])
  {
    var unquoted := RemoveChar(TrimBraces(c.serialize(JObj(obj))), '"');
    var r := Trim(unquoted);
    TrimByInfix(unquoted, IsWhitespace);
    NoNewChar(unquoted, r, '"');
    r
  }

  /** When the object serialises as `{` + `inner` + `}` and `inner` neither
      starts nor ends with a brace, the settings line is `inner` with its
      double quotes deleted and its surrounding whitespace trimmed. */
  lemma SettingTextOfBraced(c: Codecs, obj: Obj, inner: string)
    requires c.serialize(JObj(obj)) == "{" + inner + "}"
    requires |inner| == 0 || (!IsBrace(inner[0]) && !IsBrace(inner[|inner| - 1]))
    ensures SettingText(c, obj) == Trim(RemoveChar(inner, '"'))
  {
    BracesAround(inner);
  }

  lemma BracesAround(inner: string)
    requires |inner| == 0 || (!IsBrace(inner[0]) && !IsBrace(inner[|inner| - 1]))
    ensures TrimBraces("{" + inner + "}") == inner
  {
    var t := "{" + inner + "}";
    assert t[1..] == inner + "}";
    assert TrimStart(t, IsBrace) == TrimStart(inner + "}", IsBrace);
    if |inner| > 0 {
      assert (inner + "}")[0] == inner[0];
      TrimStartIdentity(inner + "}", IsBrace);
      assert (inner + "}")[..|inner + "}"| - 1] == inner;
      TrimEndIdentity(inner, IsBrace);
    } else {
      assert inner + "}" == "}";
      assert TrimStart("}", IsBrace) == [];
    }
  }

  /** A string whose characters all come from `s` lacks whatever `s` lacks. */
  lemma NoNewChar(s: string, r: string, c: char)
    requires forall i :: 0 <= i < |s| ==> s[i] != c
    requires forall x :: x in r ==> x in s
    ensures forall i :: 0 <= i < |r| ==> r[i] != c
  {
    forall i | 0 <= i < |r| ensures r[i] != c {
      assert r[i] in r;
    }
  }

  /** A JSON null under `key` reads as the text `null`, not as "". */
  lemma NullFieldText(ser: Json -> string, o: Obj, k: string)
    requires Find(o, k) == Some(JNull)
    ensures FieldText(ser, o, k) == "null"
  {
    TrimIdentity("null");
  }

  /** The raw text: the non-blank parts, one per line. */
  function RawText(parts: seq<string>): string {
    JoinNonBlank(parts, "\n")
  }

  /** The raw text of three parts, by which of them are blank: the blank ones
      leave no line and no separator behind. */
  lemma RawTextOfThree(a: string, b: string, c: string)
    ensures !IsBlank(a) && !IsBlank(b) && !IsBlank(c) ==> RawText([a, b, c]) == a + "\n" + b + "\n" + c
    ensures !IsBlank(a) && IsBlank(b) && !IsBlank(c) ==> RawText([a, b, c]) == a + "\n" + c
    ensures IsBlank(a) && !IsBlank(b) && !IsBlank(c) ==> RawText([a, b, c]) == b + "\n" + c
    ensures IsBlank(a) && IsBlank(b) ==> RawText([a, b, c]) == (if IsBlank(c) then "" else c)
  {
    assert [a, b, c][1..] == [b, c] && [b, c][1..] == [c] && [c][1..] == [];
    assert NonBlank([c]) == (if IsBlank(c) then [] else [c]);
    assert NonBlank([b, c]) == (if IsBlank(b) then [] else [b]) + NonBlank([c]);
    assert NonBlank([a, b, c]) == (if IsBlank(a) then [] else [a]) + NonBlank([b, c]);
    assert Join([a, b, c], "\n") == a + "\n" + Join([b, c], "\n");
    assert Join([b, c], "\n") == b + "\n" + c;
    assert Join([a, c], "\n") == a + "\n" + c;
    if !IsBlank(a) && !IsBlank(b) && !IsBlank(c) {
      assert NonBlank([a, b, c]) == [a, b, c];
      assert a + "\n" + (b + "\n" + c) == a + "\n" + b + "\n" + c;
    }
  }

  /** `optString(key, "").trim()`: the trimmed text under `key`, or "" when absent. */
  function FieldText(ser: Json -> string, o: Obj, k: string): (r: string)
    ensures forall s :: Find(o, k) == Some(JStr(s)) ==> r == Trim(s)
    ensures !Has(o, k) ==> r == ""
    ensures |r| > 0 ==> !IsWhitespace(r[0]) && !IsWhitespace(r[|r| - 1])
  {
    Trim(OptString(ser, o, k, ""))
  }
}
