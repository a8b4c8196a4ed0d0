/** `PromptReader`: picks the container format from the first bytes of the file,
    then walks a fixed cascade of checks over the PNG text chunks or the EXIF
    tags, handing the first match to its parser.

    The platform reads (the content resolver, `ExifInterface`, `BitmapFactory`)
    are inputs here: the file's bytes, the three EXIF tags, and the decoded
    bitmap when there is one. The alpha-channel decoder is consulted only when
    the cascade reaches it, which the model states as "the result does not
    depend on the decoder's outcome" for every earlier route. */
module PromptReader {
  import opened Wrappers
  import opened Bytes
  import opened Text
  import opened Json
  import opened OrderedMap
  import opened Results
  import opened Codecs
  import PngTextChunks
  import StealthDecoder
  import A1111
  import SwarmUi
  import Fooocus
  import NovelAi
  import ComfyUi

  // ----- Container sniffing -----

  datatype Format = Png | Jpeg | Webp | Unsupported

  /** `readNBytesCompat(16)` on a fresh stream: at most the first 16 bytes. */
  const HEADER_SIZE: nat := 16

  function Header(file: seq<byte>): (r: seq<byte>)
    ensures |r| == if |file| < HEADER_SIZE then |file| else HEADER_SIZE
    ensures r == file[..|r|]
  {
    if |file| < HEADER_SIZE then file else file[..HEADER_SIZE]
  }

  predicate IsPngHeader(h: seq<byte>) {
    |h| >= 8 && h[..8] == PngTextChunks.PNG_SIGNATURE
  }

  predicate IsJpegHeader(h: seq<byte>) {
    |h| >= 2 && h[0] == 0xFF && h[1] == 0xD8
  }

  /** "RIFF" at bytes 0..3 and "WEBP" at bytes 8..11, each read as ISO-8859-1. */
  predicate IsWebpHeader(h: seq<byte>) {
    |h| >= 12 && Latin1(h[0..4]) == "RIFF" && Latin1(h[8..12]) == "WEBP"
  }

  /** The `when` over the three tests, in the source's order. */
  function Sniff(header: seq<byte>): (r: Format)
    ensures r == Png <==> IsPngHeader(header)
    ensures r == Jpeg <==> !IsPngHeader(header) && IsJpegHeader(header)
    ensures r == Webp <==> !IsPngHeader(header) && !IsJpegHeader(header) && IsWebpHeader(header)
    ensures r == Unsupported <==> !IsPngHeader(header) && !IsJpegHeader(header) && !IsWebpHeader(header)
  {
    if IsPngHeader(header) then Png
    else if IsJpegHeader(header) then Jpeg
    else if IsWebpHeader(header) then Webp
    else Unsupported
  }

  /** The three signatures exclude each other, so the order of the tests never
      decides between two of them. */
  lemma SignaturesExclusive(h: seq<byte>)
    ensures !(IsPngHeader(h) && IsJpegHeader(h))
    ensures !(IsPngHeader(h) && IsWebpHeader(h))
    ensures !(IsJpegHeader(h) && IsWebpHeader(h))
  {
    if IsPngHeader(h) {
      assert h[0] == h[..8][0] == 0x89;
      assert Latin1(h[0..4])[0] as int == h[0];
    }
    if IsWebpHeader(h) {
      assert Latin1(h[0..4])[0] as int == h[0];
    }
  }

  /** The WEBP test on characters is the byte test `52 49 46 46 .. .. .. .. 57 45 42 50`. */
  lemma WebpBytes(h: seq<byte>)
    requires |h| >= 12
    ensures IsWebpHeader(h) <==> h[0..4] == [0x52, 0x49, 0x46, 0x46] && h[8..12] == [0x57, 0x45, 0x42, 0x50]
  {
    var riff: seq<byte> := [0x52, 0x49, 0x46, 0x46];
    var webp: seq<byte> := [0x57, 0x45, 0x42, 0x50];
    assert Latin1(riff) == "RIFF";
    assert Latin1(webp) == "WEBP";
    if Latin1(h[0..4]) == "RIFF" {
      Latin1Injective(h[0..4], riff);
    }
    if Latin1(h[8..12]) == "WEBP" {
      Latin1Injective(h[8..12], webp);
    }
  }

  /** Only the first bytes decide: the format of a file is the format of any
      file sharing its first 12 bytes (both at least 12 long). */
  lemma SniffReadsTwelveBytes(f: seq<byte>, g: seq<byte>)
    requires |f| >= 12 && |g| >= 12 && f[..12] == g[..12]
    ensures Sniff(Header(f)) == Sniff(Header(g))
  {
    var hf, hg := Header(f), Header(g);
    assert hf[..8] == f[..12][..8] == g[..12][..8] == hg[..8];
    assert hf[0..4] == f[..12][0..4] == g[..12][0..4] == hg[0..4];
    assert hf[8..12] == f[..12][8..12] == g[..12][8..12] == hg[8..12];
    assert hf[0] == f[..12][0] && hg[0] == g[..12][0];
    assert hf[1] == f[..12][1] && hg[1] == g[..12][1];
  }

  // ----- Helpers of the cascades -----

  /** `!s.isNullOrBlank()`. */
  predicate Given(s: Option<string>) {
    s.Some? && !IsBlank(s.value)
  }

  /** `looksLikeFooocusComment(comment)`: the trimmed text opens with `{`, the
      tokenizer reads an object from it, and the object has `negative_prompt`
      and one of `prompt`, `styles` or `performance`. */
  predicate LooksLikeFooocusComment(c: Codecs, comment: string): (r: bool)
    ensures r <==>
      && |Trim(comment)| > 0 && Trim(comment)[0] == '{'
      && ParseObject(c, Trim(comment)).Some?
      && var o := ParseObject(c, Trim(comment)).value;
         Has(o, "negative_prompt") && (Has(o, "prompt") || Has(o, "styles") || Has(o, "performance"))
  {
    var trimmed := Trim(comment);
    OpensWithBrace(trimmed);
    && StartsWith(trimmed, "{")
    && match c.parseJson(trimmed)
       case Some(JObj(o)) =>
         Has(o, "negative_prompt") && (Has(o, "prompt") || Has(o, "styles") || Has(o, "performance"))
       case _ => false
  }

  lemma OpensWithBrace(s: string)
    ensures StartsWith(s, "{") <==> |s| > 0 && s[0] == '{'
  {
    if |s| > 0 && s[0] == '{' {
      assert s[..1] == "{";
    }
  }

  /** A comment that passes the test holds an object, read from the trimmed
      text, with the keys the test asks for. */
  lemma FooocusCommentKeys(c: Codecs, comment: string)
    requires LooksLikeFooocusComment(c, comment)
    ensures ParseObject(c, Trim(comment)).Some?
    ensures Has(ParseObject(c, Trim(comment)).value, "negative_prompt")
    ensures Has(ParseObject(c, Trim(comment)).value, "prompt")
         || Has(ParseObject(c, Trim(comment)).value, "styles")
         || Has(ParseObject(c, Trim(comment)).value, "performance")
    ensures |Trim(comment)| > 0 && Trim(comment)[0] == '{'
  {
  }

  /** Conversely, text that trims to an object opening with `{`, holding
      `negative_prompt` and one of `prompt`, `styles` or `performance`, passes
      the test. */
  lemma FooocusCommentAccepted(c: Codecs, comment: string, o: Obj)
    requires |Trim(comment)| > 0 && Trim(comment)[0] == '{'
    requires c.parseJson(Trim(comment)) == Some(JObj(o))
    requires Has(o, "negative_prompt") && (Has(o, "prompt") || Has(o, "styles") || Has(o, "performance"))
    ensures LooksLikeFooocusComment(c, comment)
  {
    assert Trim(comment)[..1] == "{";
  }

  /** The text from the first `{` to the end, trimmed; nothing without a `{`. */
  function WorkflowCandidate(text: string): (r: Option<string>)
    ensures r.None? <==> forall i :: !OccursAt(text, "{", i)
    ensures r.Some? ==> |r.value| > 0 && r.value[0] == '{'
    ensures r.Some? ==> exists a :: (0 <= a < |text| && OccursAt(text, "{", a) && r.value == Trim(text[a..]) &&
      forall i :: 0 <= i < a ==> !OccursAt(text, "{", i))
  {
    var start := IndexOf(text, "{");
    if start < 0 then None
    else
      assert text[start..start + 1] == "{";
      assert OccursAt(text, "{", start);
      TrimKeepsStart(text[start..], IsWhitespace);
      Some(Trim(text[start..]))
  }

  /** `extractComfyUiWorkflowJson(text)`: the candidate, when the tokenizer
      reads an object with `nodes` and `links` arrays from it. */
  function ExtractComfyUiWorkflowJson(c: Codecs, text: string): (r: Option<string>)
    ensures (forall i :: !OccursAt(text, "{", i)) ==> r.None?
    ensures r.Some? ==> WorkflowCandidate(text) == r
    ensures r.Some? ==>
      (&& ParseObject(c, r.value).Some?
       && OptArray(ParseObject(c, r.value).value, "nodes").Some?
       && OptArray(ParseObject(c, r.value).value, "links").Some?)
    ensures WorkflowCandidate(text).Some? ==>
      var candidate := WorkflowCandidate(text).value;
      (&& ParseObject(c, candidate).Some?
       && OptArray(ParseObject(c, candidate).value, "nodes").Some?
       && OptArray(ParseObject(c, candidate).value, "links").Some?) ==> r == Some(candidate)
  {
    match WorkflowCandidate(text)
    case None => None
    case Some(candidate) =>
      match c.parseJson(candidate)
      case Some(JObj(o)) =>
        if OptArray(o, "nodes").Some? && OptArray(o, "links").Some? then Some(candidate) else None
      case _ => None
  }

  /** A workflow object written after text with no `{` in it is found whole. */
  lemma ExtractFindsWorkflow(c: Codecs, prefix: string, w: string, o: Obj)
    requires forall i :: 0 <= i < |prefix| ==> prefix[i] != '{'
    requires |w| > 0 && w[0] == '{' && !IsWhitespace(w[|w| - 1])
    requires c.parseJson(w) == Some(JObj(o))
    requires OptArray(o, "nodes").Some? && OptArray(o, "links").Some?
    ensures ExtractComfyUiWorkflowJson(c, prefix + w) == Some(w)
  {
    CandidateAfterPrefix(prefix, w);
  }

  /** The candidate of a `{`-free prefix followed by unpadded text opening with `{` is that text. */
  lemma CandidateAfterPrefix(prefix: string, w: string)
    requires forall i :: 0 <= i < |prefix| ==> prefix[i] != '{'
    requires |w| > 0 && w[0] == '{' && !IsWhitespace(w[|w| - 1])
    ensures WorkflowCandidate(prefix + w) == Some(w)
  {
    var text := prefix + w;
    assert OccursAt(text, "{", |prefix|) by {
      assert text[|prefix|..|prefix| + 1] == [w[0]];
    }
    forall i | 0 <= i < |prefix| ensures !OccursAt(text, "{", i) {
      assert text[i..i + 1] == [prefix[i]];
    }
    assert IndexOf(text, "{") == |prefix|;
    assert text[|prefix|..] == w;
    TrimIdentity(w);
  }

  /** `textMap.toString()` of a `LinkedHashMap`: `{k1=v1, k2=v2}`. */
  function MapText(m: PngTextChunks.TextMap): (r: string)
    ensures |r| >= 2 && r[0] == '{' && r[|r| - 1] == '}'
  {
    "{" + Join(seq(|m|, i requires 0 <= i < |m| => m[i].key + "=" + m[i].value), ", ") + "}"
  }

  /** The record for a file nothing could be read from. */
  function Unknown(raw: string): (r: Parsed)
    ensures r.tool == "Unknown" && r.positive == "" && r.negative == "" && r.setting == "" && r.raw == raw
  {
    Parsed("Unknown", "", "", "", raw)
  }

  /** `tryDecodeStealth`: nothing when the bitmap could not be decoded, else the decoder's outcome. */
  function StealthRun(c: Codecs, bitmap: Option<StealthDecoder.Bitmap>): (r: Outcome<Option<Obj>>)
    ensures bitmap.None? ==> r == Ok(None)
    ensures r.Ok? || r.Hangs?
  {
    match bitmap
    case None => Ok(None)
    case Some(b) => StealthDecoder.TryDecode(c, b)
  }

  // ----- The PNG cascade -----

  /** The branches of `parsePng`, in the order they are tried. */
  datatype PngRoute =
    | PngSwarm                          // `parameters` mentions `sui_image_params`
    | PngNovelAiLegacy                  // `Software` is NovelAI, with `Description` and `Comment`
    | PngFooocus                        // `Comment` looks like a Fooocus object
    | PngWorkflowOnly                   // a `workflow` but no `prompt` graph
    | PngComfyUi                        // a `prompt` graph
    | PngEmbeddedWorkflow(json: string) // `parameters` carries a workflow object
    | PngA1111                          // `parameters` as A1111 text
    | PngFallback                       // no usable chunk: the alpha channel, else Unknown

  function PngRank(r: PngRoute): nat {
    match r
    case PngSwarm => 0
    case PngNovelAiLegacy => 1
    case PngFooocus => 2
    case PngWorkflowOnly => 3
    case PngComfyUi => 4
    case PngEmbeddedWorkflow(_) => 5
    case PngA1111 => 6
    case PngFallback => 7
  }

  /** The condition guarding each branch, on its own. */
  predicate PngApplies(c: Codecs, m: PngTextChunks.TextMap, r: PngRoute) {
    var parameters := Find(m, "parameters");
    var prompt := Find(m, "prompt");
    var comment := Find(m, "Comment");
    match r
    case PngSwarm => Given(parameters) && Contains(parameters.value, SwarmUi.PARAMS_KEY)
    case PngNovelAiLegacy =>
      Find(m, "Software") == Some("NovelAI") && Given(Find(m, "Description")) && Given(comment)
    case PngFooocus => Given(comment) && LooksLikeFooocusComment(c, comment.value)
    case PngWorkflowOnly => !Given(prompt) && Given(Find(m, "workflow"))
    case PngComfyUi => Given(prompt)
    case PngEmbeddedWorkflow(w) => Given(parameters) && ExtractComfyUiWorkflowJson(c, parameters.value) == Some(w)
    case PngA1111 => Given(parameters)
    case PngFallback => true
  }

  /** The branch `parsePng` takes: the first one whose condition holds. */
  function RoutePng(c: Codecs, m: PngTextChunks.TextMap): (r: PngRoute)
    ensures PngApplies(c, m, r)
    ensures PngRank(r) > 0 ==> !PngApplies(c, m, PngSwarm)
    ensures PngRank(r) > 1 ==> !PngApplies(c, m, PngNovelAiLegacy)
    ensures PngRank(r) > 2 ==> !PngApplies(c, m, PngFooocus)
    ensures PngRank(r) > 3 ==> !PngApplies(c, m, PngWorkflowOnly)
    ensures PngRank(r) > 4 ==> !PngApplies(c, m, PngComfyUi)
    ensures PngRank(r) > 5 ==> forall w :: !PngApplies(c, m, PngEmbeddedWorkflow(w))
    ensures PngRank(r) > 6 ==> !PngApplies(c, m, PngA1111)
  {
    var parameters := Find(m, "parameters");
    var prompt := Find(m, "prompt");
    var comment := Find(m, "Comment");
    if Given(parameters) && Contains(parameters.value, SwarmUi.PARAMS_KEY) then PngSwarm
    else if Find(m, "Software") == Some("NovelAI") && Given(Find(m, "Description")) && Given(comment) then PngNovelAiLegacy
    else if Given(comment) && LooksLikeFooocusComment(c, comment.value) then PngFooocus
    else if !Given(prompt) && Given(Find(m, "workflow")) then PngWorkflowOnly
    else if Given(prompt) then PngComfyUi
    else if Given(parameters) then
      match ExtractComfyUiWorkflowJson(c, parameters.value)
      case Some(w) => PngEmbeddedWorkflow(w)
      case None => PngA1111
    else PngFallback
  }

  /** No branch ranked before the one taken applies. */
  lemma PngFirstMatch(c: Codecs, m: PngTextChunks.TextMap)
    ensures forall q :: PngRank(q) < PngRank(RoutePng(c, m)) ==> !PngApplies(c, m, q)
  {
    var r := RoutePng(c, m);
    forall q | PngRank(q) < PngRank(r) ensures !PngApplies(c, m, q) {
      match q
      case PngEmbeddedWorkflow(w) =>
      case _ =>
    }
  }

  /** The label of the A1111 branch: `containsKey("prompt")`. */
  function PngA1111Tool(m: PngTextChunks.TextMap): string {
    if Has(m, "prompt") then "ComfyUI (A1111 compatible)" else "A1111 webUI"
  }

  /** `parsePng` once the text chunks are read; `stealth` is what
      `tryDecodeStealth` would give, used only by the last branch. */
  function ParsePng(c: Codecs, m: PngTextChunks.TextMap, stealth: Outcome<Option<Obj>>): (r: Outcome<Parsed>)
    requires !stealth.Throws?
    ensures r.Hangs? ==> RoutePng(c, m) == PngFallback && stealth.Hangs?
    ensures r.Throws? ==> r.fault in {NotJsonObject, StackOverflow, StringIndexOutOfBounds, WorkflowParseFailed}
  {
    match RoutePng(c, m)
    case PngSwarm =>
      var f :- SwarmUi.Parse(c, Find(m, "parameters").value);
      Ok(WithTool("StableSwarmUI", f))
    case PngNovelAiLegacy =>
      var f :- NovelAi.ParseLegacy(c, Find(m, "Description").value, Find(m, "Comment").value);
      Ok(WithTool("NovelAI", f))
    case PngFooocus =>
      var f :- Fooocus.Parse(c, Find(m, "Comment").value);
      Ok(WithTool("Fooocus", f))
    case PngWorkflowOnly =>
      FromOption(c.parseWorkflow(Find(m, "workflow").value), WorkflowParseFailed)
    case PngComfyUi =>
      ComfyUi.Parse(c, Find(m, "prompt").value, Find(m, "workflow"), None, None)
    case PngEmbeddedWorkflow(w) =>
      FromOption(c.parseWorkflow(w), WorkflowParseFailed)
    case PngA1111 =>
      var f :- A1111.Parse(Find(m, "parameters").value);
      Ok(WithTool(PngA1111Tool(m), f))
    case PngFallback =>
      var found :- stealth;
      match found
      case Some(obj) => Ok(WithTool("NovelAI", NovelAi.ParseStealth(c, obj)))
      case None => Ok(Unknown(MapText(m)))
  }

  /** Every branch before the last leaves the bitmap alone: its outcome,
      even a decoder that never ends, changes nothing. */
  lemma PngStealthOnlyLast(c: Codecs, m: PngTextChunks.TextMap, s1: Outcome<Option<Obj>>, s2: Outcome<Option<Obj>>)
    requires !s1.Throws? && !s2.Throws?
    requires RoutePng(c, m) != PngFallback
    ensures ParsePng(c, m, s1) == ParsePng(c, m, s2)
  {
  }

  /** A Swarm `parameters` text wins over every other chunk. */
  lemma PngSwarmFirst(c: Codecs, m: PngTextChunks.TextMap)
    requires Given(Find(m, "parameters")) && Contains(Find(m, "parameters").value, SwarmUi.PARAMS_KEY)
    ensures RoutePng(c, m) == PngSwarm
  {
  }

  /** The NovelAI legacy branch comes before the Fooocus one: a NovelAI
      `Comment` is never handed to the Fooocus parser, however it looks. */
  lemma PngLegacyBeforeFooocus(c: Codecs, m: PngTextChunks.TextMap)
    requires Find(m, "Software") == Some("NovelAI") && Given(Find(m, "Description")) && Given(Find(m, "Comment"))
    ensures RoutePng(c, m) == PngSwarm || RoutePng(c, m) == PngNovelAiLegacy
  {
    assert PngApplies(c, m, PngNovelAiLegacy);
  }

  /** The A1111 branch is reached only with a blank `prompt`, so the
      "ComfyUI (A1111 compatible)" label means a `prompt` chunk that is present
      but blank, and the label is "A1111 webUI" exactly when there is none. */
  lemma PngA1111Label(c: Codecs, m: PngTextChunks.TextMap, s: Outcome<Option<Obj>>)
    requires !s.Throws?
    requires RoutePng(c, m) == PngA1111
    ensures Has(m, "prompt") ==> IsBlank(Find(m, "prompt").value)
    ensures A1111.Parse(Find(m, "parameters").value).Ok? <==> ParsePng(c, m, s).Ok?
    ensures ParsePng(c, m, s).Ok? ==>
      (ParsePng(c, m, s).value.tool == "A1111 webUI" <==> !Has(m, "prompt"))
      && (ParsePng(c, m, s).value.tool == "ComfyUI (A1111 compatible)" <==> Has(m, "prompt"))
  {
    assert !PngApplies(c, m, PngComfyUi);
  }

  /** A text map none of whose keys is one the cascade reads, with no stealth
      payload, is shown as Unknown with the map's text. */
  lemma PngNothingReadable(c: Codecs, m: PngTextChunks.TextMap)
    requires forall k :: k in KeySet(m) ==> k !in {"parameters", "prompt", "workflow", "Comment", "Description"}
    ensures RoutePng(c, m) == PngFallback
    ensures ParsePng(c, m, Ok(None)) == Ok(Unknown(MapText(m)))
  {
    assert !Has(m, "parameters") && !Has(m, "prompt") && !Has(m, "workflow");
    assert !Has(m, "Comment") && !Has(m, "Description");
  }

  /** When the tokenizer reads the untrimmed `Comment` as it reads the trimmed
      one, the Fooocus branch always succeeds. */
  lemma PngFooocusSucceeds(c: Codecs, m: PngTextChunks.TextMap, s: Outcome<Option<Obj>>)
    requires !s.Throws?
    requires RoutePng(c, m) == PngFooocus
    requires c.parseJson(Find(m, "Comment").value) == c.parseJson(Trim(Find(m, "Comment").value))
    ensures ParsePng(c, m, s).Ok? && ParsePng(c, m, s).value.tool == "Fooocus"
  {
    FooocusCommentKeys(c, Find(m, "Comment").value);
  }

  // ----- The EXIF cascade -----

  /** The three tags `parseExifLike` reads; a tag the file lacks is `None`. */
  datatype ExifTags = ExifTags(userComment: Option<string>, software: Option<string>, imageDescription: Option<string>)

  /** The branches of `parseExifLike`, in the order they are tried. */
  datatype ExifRoute =
    | ExifSwarm                          // UserComment mentions `sui_image_params`
    | ExifEmbeddedWorkflow(json: string) // UserComment carries a workflow object
    | ExifFooocus                        // UserComment opens with `{` and mentions `negative_prompt`
    | ExifA1111                          // any other UserComment
    | ExifStealth(obj: Obj)              // the alpha channel holds an object
    | ExifNovelAiLegacy                  // Software is NovelAI, with an ImageDescription
    | ExifUnknown

  function ExifRank(r: ExifRoute): nat {
    match r
    case ExifSwarm => 0
    case ExifEmbeddedWorkflow(_) => 1
    case ExifFooocus => 2
    case ExifA1111 => 3
    case ExifStealth(_) => 4
    case ExifNovelAiLegacy => 5
    case ExifUnknown => 6
  }

  /** The condition guarding each branch, on its own; `stealth` is what the
      decoder found. */
  predicate ExifApplies(c: Codecs, tags: ExifTags, stealth: Option<Obj>, r: ExifRoute) {
    var uc := tags.userComment;
    match r
    case ExifSwarm => Given(uc) && Contains(uc.value, SwarmUi.PARAMS_KEY)
    case ExifEmbeddedWorkflow(w) => Given(uc) && ExtractComfyUiWorkflowJson(c, uc.value) == Some(w)
    case ExifFooocus => Given(uc) && StartsWith(Trim(uc.value), "{") && Contains(uc.value, "negative_prompt")
    case ExifA1111 => Given(uc)
    case ExifStealth(o) => stealth == Some(o)
    case ExifNovelAiLegacy => tags.software == Some("NovelAI") && Given(tags.imageDescription)
    case ExifUnknown => true
  }

  /** The branch `parseExifLike` takes: the first one whose condition holds. */
  function RouteExif(c: Codecs, tags: ExifTags, stealth: Option<Obj>): (r: ExifRoute)
    ensures ExifApplies(c, tags, stealth, r)
  {
    var uc := tags.userComment;
    if Given(uc) && Contains(uc.value, SwarmUi.PARAMS_KEY) then ExifSwarm
    else if Given(uc) && ExtractComfyUiWorkflowJson(c, uc.value).Some? then
      ExifEmbeddedWorkflow(ExtractComfyUiWorkflowJson(c, uc.value).value)
    else if Given(uc) && StartsWith(Trim(uc.value), "{") && Contains(uc.value, "negative_prompt") then ExifFooocus
    else if Given(uc) then ExifA1111
    else if stealth.Some? then ExifStealth(stealth.value)
    else if tags.software == Some("NovelAI") && Given(tags.imageDescription) then ExifNovelAiLegacy
    else ExifUnknown
  }

  /** No branch ranked before the one taken applies. */
  lemma ExifFirstMatch(c: Codecs, tags: ExifTags, stealth: Option<Obj>)
    ensures forall q :: ExifRank(q) < ExifRank(RouteExif(c, tags, stealth)) ==> !ExifApplies(c, tags, stealth, q)
  {
    var r := RouteExif(c, tags, stealth);
    var uc := tags.userComment;
    forall q | ExifRank(q) < ExifRank(r) ensures !ExifApplies(c, tags, stealth, q) {
      match q
      case ExifSwarm =>
      case ExifEmbeddedWorkflow(w) =>
        assert r != ExifSwarm;
      case ExifFooocus =>
      case ExifA1111 =>
      case ExifStealth(o) =>
      case ExifNovelAiLegacy =>
      case ExifUnknown =>
    }
  }

  /** `parseExifLike` once the tags are read; the decoder runs only when no
      UserComment branch applies. */
  function ParseExif(c: Codecs, tags: ExifTags, stealth: Outcome<Option<Obj>>): (r: Outcome<Parsed>)
    requires !stealth.Throws?
    ensures r.Hangs? ==> !Given(tags.userComment) && stealth.Hangs?
    ensures r.Throws? ==> r.fault in {NotJsonObject, StringIndexOutOfBounds, WorkflowParseFailed}
  {
    if Given(tags.userComment) then ParseExifRoute(c, tags, RouteExif(c, tags, None))
    else
      var found :- stealth;
      ParseExifRoute(c, tags, RouteExif(c, tags, found))
  }

  /** What each EXIF branch returns. */
  function ParseExifRoute(c: Codecs, tags: ExifTags, route: ExifRoute): (r: Outcome<Parsed>)
    requires route == ExifSwarm || route == ExifFooocus || route == ExifA1111 ==> Given(tags.userComment)
    requires route == ExifNovelAiLegacy ==> tags.imageDescription.Some?
    ensures r.Ok? || (r.Throws? && r.fault in {NotJsonObject, StringIndexOutOfBounds, WorkflowParseFailed})
  {
    match route
    case ExifSwarm =>
      var f :- SwarmUi.Parse(c, tags.userComment.value);
      Ok(WithTool("StableSwarmUI", f))
    case ExifEmbeddedWorkflow(w) =>
      FromOption(c.parseWorkflow(w), WorkflowParseFailed)
    case ExifFooocus =>
      var f :- Fooocus.Parse(c, tags.userComment.value);
      Ok(WithTool("Fooocus", f))
    case ExifA1111 =>
      var f :- A1111.Parse(tags.userComment.value);
      Ok(WithTool("A1111 webUI", f))
    case ExifStealth(obj) =>
      Ok(WithTool("NovelAI", NovelAi.ParseStealth(c, obj)))
    case ExifNovelAiLegacy =>
      var f :- NovelAi.ParseLegacy(c, tags.imageDescription.value, tags.userComment.GetOr("{}"));
      Ok(WithTool("NovelAI", f))
    case ExifUnknown =>
      Ok(Unknown("No readable metadata"))
  }

  /** With a non-blank UserComment one of the first four branches always
      applies, so the bitmap is never decoded and the result is an A1111 one
      at worst. */
  lemma ExifCommentDecides(c: Codecs, tags: ExifTags, s: Outcome<Option<Obj>>)
    requires !s.Throws?
    requires Given(tags.userComment)
    ensures RouteExif(c, tags, None) in {ExifSwarm, ExifFooocus, ExifA1111} || RouteExif(c, tags, None).ExifEmbeddedWorkflow?
    ensures forall o :: RouteExif(c, tags, o) == RouteExif(c, tags, None)
    ensures ParseExif(c, tags, s) == ParseExif(c, tags, Ok(None))
  {
    forall o ensures RouteExif(c, tags, o) == RouteExif(c, tags, None) {
    }
    assert ParseExif(c, tags, s) == ParseExifRoute(c, tags, RouteExif(c, tags, None));
  }

  /** The A1111 branch of the EXIF cascade is always labelled "A1111 webUI". */
  lemma ExifA1111Label(c: Codecs, tags: ExifTags, s: Outcome<Option<Obj>>)
    requires !s.Throws?
    requires Given(tags.userComment)
    requires RouteExif(c, tags, None) == ExifA1111
    requires A1111.Parse(tags.userComment.value).Ok?
    ensures ParseExif(c, tags, s).Ok? && ParseExif(c, tags, s).value.tool == "A1111 webUI"
  {
  }

  /** The NovelAI legacy branch is reached only without a usable UserComment;
      with none at all it parses the text `{}`, but a present blank one is
      handed to the JSON parser as it is, and fails when the parser rejects it. */
  lemma ExifLegacyComment(c: Codecs, tags: ExifTags, found: Option<Obj>)
    requires RouteExif(c, tags, found) == ExifNovelAiLegacy
    ensures !Given(tags.userComment) && found.None?
    ensures tags.userComment.None? && ParseObject(c, "{}") == Some([]) ==>
      ParseExifRoute(c, tags, ExifNovelAiLegacy).Ok?
      && ParseExifRoute(c, tags, ExifNovelAiLegacy).value.positive == Trim(tags.imageDescription.value)
      && ParseExifRoute(c, tags, ExifNovelAiLegacy).value.negative == ""
    ensures tags.userComment.Some? && ParseObject(c, tags.userComment.value).None? ==>
      ParseExifRoute(c, tags, ExifNovelAiLegacy) == Throws(NotJsonObject)
  {
    assert !ExifApplies(c, tags, found, ExifA1111);
    assert !ExifApplies(c, tags, found, ExifStealth(found.GetOr([])));
  }

  /** A file with none of the tags and nothing in its alpha channel is Unknown. */
  lemma ExifNothingReadable(c: Codecs, bitmap: Option<StealthDecoder.Bitmap>)
    requires StealthRun(c, bitmap) == Ok(None)
    ensures ParseExif(c, ExifTags(None, None, None), StealthRun(c, bitmap)) == Ok(Unknown("No readable metadata"))
  {
  }

  // ----- The entry point -----

  /** `parse(context, uri)`: `file` is the content the resolver streams, `exif`
      the tags `ExifInterface` reads from it, and `bitmap` what `BitmapFactory`
      decodes from it. */
  function Parse(c: Codecs, file: seq<byte>, exif: ExifTags, bitmap: Option<StealthDecoder.Bitmap>): (r: Outcome<Parsed>)
    ensures Sniff(Header(file)) == Unsupported ==> r == Ok(Unknown("Unsupported file"))
    ensures Sniff(Header(file)) == Png ==> r != Throws(NotPng)
  {
    var stealth := StealthRun(c, bitmap);
    match Sniff(Header(file))
    case Png =>
      PngReadsPastSignature(c, file);
      var m :- PngTextChunks.ReadTextChunks(c, file);
      ParsePng(c, m, stealth)
    case Jpeg => ParseExif(c, exif, stealth)
    case Webp => ParseExif(c, exif, stealth)
    case Unsupported => Ok(Unknown("Unsupported file"))
  }

  /** A file the sniff calls PNG passes the chunk reader's own signature check,
      so reading it never fails with "Not a PNG". */
  lemma PngReadsPastSignature(c: Codecs, file: seq<byte>)
    requires Sniff(Header(file)) == Png
    ensures PngTextChunks.ReadTextChunks(c, file) != Throws(NotPng)
  {
    var h := Header(file);
    assert h[..8] == file[..8];
    ChunksNeverNotPng(c, file, 8, []);
  }

  /** The chunk loop fails only at end of stream, on a negative length, or on
      a failed inflation. */
  lemma {:induction false} ChunksNeverNotPng(c: Codecs, input: seq<byte>, pos: nat, out: PngTextChunks.TextMap)
    requires pos <= |input|
    ensures PngTextChunks.ReadChunks(PngTextChunks.AbsorbStep(c), input, pos, out) != Throws(NotPng)
    decreases |input| - pos
  {
    var absorb := PngTextChunks.AbsorbStep(c);
    if |input| - pos >= 4 {
      var chunk := PngTextChunks.ChunkAt(input, pos);
      if chunk.Ok? && chunk.value.0 != "IEND" {
        var step := absorb(out, chunk.value.0, chunk.value.1);
        PngTextChunks.AbsorbStepOutcome(c, out, chunk.value.0, chunk.value.1);
        if step.Ok? {
          var next := pos + 12 + |chunk.value.1|;
          ChunksNeverNotPng(c, input, next, step.value);
          assert PngTextChunks.ReadChunks(absorb, input, pos, out) == PngTextChunks.ReadChunks(absorb, input, next, step.value);
        } else {
          assert PngTextChunks.ReadChunks(absorb, input, pos, out) == step;
        }
      } else if !chunk.Ok? {
        assert PngTextChunks.ReadChunks(absorb, input, pos, out) == chunk.PropagateFailure();
      }
    }
  }

  /** JPEG and WEBP files go through the same EXIF cascade. */
  lemma JpegAndWebpAlike(c: Codecs, f: seq<byte>, g: seq<byte>, exif: ExifTags, bitmap: Option<StealthDecoder.Bitmap>)
    requires Sniff(Header(f)) == Jpeg && Sniff(Header(g)) == Webp
    ensures Parse(c, f, exif, bitmap) == Parse(c, g, exif, bitmap)
  {
  }
}
