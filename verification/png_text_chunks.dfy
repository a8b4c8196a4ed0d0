/** `PngTextChunkReader`: reads the textual chunks (`tEXt`, `zTXt`, `iTXt`) of a
    PNG byte stream into an insertion-ordered keyword -> text map.

    The stream is the whole file as a byte sequence; a read past its end is the
    `EOFException` of `DataInputStream`. Chunk framing follows section 5.3 of
    the PNG specification (ISO/IEC 15948): a 4-byte big-endian length, a 4-byte
    type, the data, and a 4-byte CRC, which this reader skips without checking. */
module PngTextChunks {
  import opened Wrappers
  import opened Bytes
  import opened Text
  import opened OrderedMap
  import opened Codecs

  const PNG_SIGNATURE: seq<byte> := [0x89, 0x50, 0x4E, 0x47, 0x0D, 0x0A, 0x1A, 0x0A]

  type TextMap = Map<string>

  /** `parseText`: `keyword NUL latin1-text`. A missing NUL, or a NUL in first
      position, gives the empty pair. */
  function ParseText(data: seq<byte>): (r: (string, string))
    ensures r.0 == "" <==> IndexOfByte(data, 0, 0) <= 0
    ensures r.0 == "" ==> r.1 == ""
    ensures forall i :: 0 <= i < |r.0| ==> r.0[i] != '\0'
    ensures r.0 != "" ==> |r.0| + 1 + |r.1| == |data|
  {
    var idx := IndexOfByte(data, 0, 0);
    if idx <= 0 then ("", "")
    else (Latin1(data[..idx]), Latin1(data[idx + 1..]))
  }

  /** A tEXt payload as a writer would produce it. */
  function EncodeText(key: string, value: string): seq<byte>
    requires forall i :: 0 <= i < |key| ==> key[i] as int < 0x100
    requires forall i :: 0 <= i < |value| ==> value[i] as int < 0x100
  {
    Latin1Bytes(key) + [0] + Latin1Bytes(value)
  }

  /** A keyword of Latin-1 characters without NUL comes back unchanged, with its text. */
  lemma ParseTextRoundTrip(key: string, value: string)
    requires 0 < |key|
    requires forall i :: 0 <= i < |key| ==> 0 < key[i] as int < 0x100
    requires forall i :: 0 <= i < |value| ==> value[i] as int < 0x100
    ensures ParseText(EncodeText(key, value)) == (key, value)
  {
    var data := EncodeText(key, value);
    var kb := Latin1Bytes(key);
    assert data[|kb|] == 0;
    assert forall i :: 0 <= i < |kb| ==> data[i] != 0 by {
      forall i | 0 <= i < |kb| ensures data[i] != 0 {
        assert Latin1(kb)[i] as int == kb[i];
      }
    }
    assert IndexOfByte(data, 0, 0) == |kb|;
    assert data[..|kb|] == kb;
    assert data[|kb| + 1..] == Latin1Bytes(value);
  }

  /** `parseZtxt`: `keyword NUL method compressed-text`. Only method 0 is
      inflated; an inflation error escapes. */
  function ParseZtxt(c: Codecs, data: seq<byte>): (r: Outcome<(string, string)>)
    ensures r.Ok? || r == Throws(InflateFailed)
    ensures var idx := IndexOfByte(data, 0, 0);
      idx <= 0 || idx + 2 > |data| ==> r == Ok(("", ""))
    ensures var idx := IndexOfByte(data, 0, 0);
      0 < idx && idx + 2 <= |data| && data[idx + 1] != 0 ==> r == Ok((Latin1(data[..idx]), ""))
    ensures var idx := IndexOfByte(data, 0, 0);
      0 < idx && idx + 2 <= |data| && data[idx + 1] == 0 ==>
        r == match c.inflate(data[idx + 2..])
             case None => Throws(InflateFailed)
             case Some(t) => Ok((Latin1(data[..idx]), c.utf8(t)))
    ensures r == Throws(InflateFailed) ==> c.inflate(data[IndexOfByte(data, 0, 0) + 2..]).None?
  {
    var idx := IndexOfByte(data, 0, 0);
    if idx <= 0 || idx + 2 > |data| then Ok(("", ""))
    else
      var key := Latin1(data[..idx]);
      if data[idx + 1] != 0 then Ok((key, ""))
      else
        match c.inflate(data[idx + 2..])
        case None => Throws(InflateFailed)
        case Some(text) => Ok((key, c.utf8(text)))
  }

  /** `parseItxt`: `keyword NUL flag method language NUL translated-keyword NUL text`.
      Any missing separator gives an empty text under the keyword; the text is
      inflated only when the flag is 1 and the method is 0. */
  function ParseItxt(c: Codecs, data: seq<byte>): (r: Outcome<(string, string)>)
    ensures r.Ok? || r == Throws(InflateFailed)
    ensures IndexOfByte(data, 0, 0) <= 0 ==> r == Ok(("", ""))
    ensures var k := IndexOfByte(data, 0, 0);
      0 < k && k + 3 > |data| ==> r == Ok((Latin1(data[..k]), ""))
    ensures var k := IndexOfByte(data, 0, 0);
      0 < k && k + 3 <= |data| ==> r == ItxtAfterKeyword(c, Latin1(data[..k]), data, k + 1)
  {
    var keywordEnd := IndexOfByte(data, 0, 0);
    if keywordEnd <= 0 then Ok(("", ""))
    else
      var key := Latin1(data[..keywordEnd]);
      if keywordEnd + 3 > |data| then Ok((key, ""))
      else ItxtAfterKeyword(c, key, data, keywordEnd + 1)
  }

  /** The rest of an iTXt payload under `key`, from its compression flag at `p`. */
  function ItxtAfterKeyword(c: Codecs, key: string, data: seq<byte>, p: nat): (r: Outcome<(string, string)>)
    requires p + 2 <= |data|
    ensures r.Ok? || r == Throws(InflateFailed)
    ensures !(data[p] == 1 && data[p + 1] == 0) ==> r.Ok?
    ensures var lang := IndexOfByte(data, 0, p + 2);
      lang < 0 || IndexOfByte(data, 0, lang + 1) < 0 ==> r == Ok((key, ""))
    ensures var lang := IndexOfByte(data, 0, p + 2);
      0 <= lang ==>
        var trans := IndexOfByte(data, 0, lang + 1);
        0 <= trans ==>
          var body := data[trans + 1..];
          r == if data[p] == 1 && data[p + 1] == 0 then
                 match c.inflate(body)
                 case None => Throws(InflateFailed)
                 case Some(t) => Ok((key, c.utf8(t)))
               else Ok((key, c.utf8(body)))
  {
    var flag := data[p];
    var compression := data[p + 1];
    var langEnd := IndexOfByte(data, 0, p + 2);
    if langEnd < 0 then Ok((key, ""))
    else
      var transEnd := IndexOfByte(data, 0, langEnd + 1);
      if transEnd < 0 then Ok((key, ""))
      else
        var textBytes := data[transEnd + 1..];
        if flag == 1 && compression == 0 then
          (match c.inflate(textBytes)
           case None => Throws(InflateFailed)
           case Some(t) => Ok((key, c.utf8(t))))
        else Ok((key, c.utf8(textBytes)))
  }

  /** A run of bytes none of which is NUL: the keyword, language tag and
      translated keyword of a text chunk. */
  predicate NoNul(bs: seq<byte>) {
    forall i :: 0 <= i < |bs| ==> bs[i] != 0
  }

  /** The first NUL after a prefix is the one that ends the NUL-free run following it. */
  lemma NulAfterRun(prefix: seq<byte>, run: seq<byte>, rest: seq<byte>)
    requires NoNul(run)
    ensures IndexOfByte(prefix + run + [0] + rest, 0, |prefix|) == |prefix| + |run|
  {
    var data := prefix + run + [0] + rest;
    assert forall i :: |prefix| <= i < |prefix| + |run| ==> data[i] == run[i - |prefix|];
    assert data[|prefix| + |run|] == 0;
  }

  /** A zTXt payload as a writer would produce it: method 0 and a zlib stream. */
  function EncodeZtxt(keyword: seq<byte>, compressed: seq<byte>): seq<byte> {
    keyword + [0, 0] + compressed
  }

  /** A NUL-free keyword comes back with the decoded text of its stream, or the
      inflation error when the stream is corrupt. */
  lemma ParseZtxtRoundTrip(c: Codecs, keyword: seq<byte>, compressed: seq<byte>)
    requires 0 < |keyword| && NoNul(keyword)
    ensures ParseZtxt(c, EncodeZtxt(keyword, compressed))
      == match c.inflate(compressed)
         case None => Throws(InflateFailed)
         case Some(t) => Ok((Latin1(keyword), c.utf8(t)))
  {
    var data := EncodeZtxt(keyword, compressed);
    assert data == [] + keyword + [0] + ([0] + compressed);
    NulAfterRun([], keyword, [0] + compressed);
    assert data[..|keyword|] == keyword;
    assert data[|keyword| + 2..] == compressed;
  }

  /** An iTXt payload as a writer would produce it. */
  function EncodeItxt(keyword: seq<byte>, compressed: bool, language: seq<byte>,
                      translated: seq<byte>, body: seq<byte>): seq<byte> {
    keyword + [0, if compressed then 1 else 0, 0] + language + [0] + (translated + [0] + body)
  }

  /** A well-formed iTXt payload yields its keyword and its body as UTF-8,
      inflated first when the compression flag is set. */
  lemma ParseItxtRoundTrip(c: Codecs, keyword: seq<byte>, compressed: bool, language: seq<byte>,
                           translated: seq<byte>, body: seq<byte>)
    requires 0 < |keyword| && NoNul(keyword) && NoNul(language) && NoNul(translated)
    ensures ParseItxt(c, EncodeItxt(keyword, compressed, language, translated, body))
      == if compressed then
           match c.inflate(body)
           case None => Throws(InflateFailed)
           case Some(t) => Ok((Latin1(keyword), c.utf8(t)))
         else Ok((Latin1(keyword), c.utf8(body)))
  {
    var data := EncodeItxt(keyword, compressed, language, translated, body);
    ItxtSeparators(data, keyword, if compressed then 1 else 0, language, translated, body);
  }

  /** Where the three NULs of a written iTXt payload are found, and its body. */
  lemma ItxtSeparators(data: seq<byte>, keyword: seq<byte>, f: byte, language: seq<byte>,
                       translated: seq<byte>, body: seq<byte>)
    requires NoNul(keyword) && NoNul(language) && NoNul(translated)
    requires data == keyword + [0, f, 0] + language + [0] + (translated + [0] + body)
    ensures IndexOfByte(data, 0, 0) == |keyword|
    ensures data[..|keyword|] == keyword && data[|keyword| + 1] == f && data[|keyword| + 2] == 0
    ensures IndexOfByte(data, 0, |keyword| + 3) == |keyword| + 3 + |language|
    ensures IndexOfByte(data, 0, |keyword| + 4 + |language|) == |keyword| + 4 + |language| + |translated|
    ensures data[|keyword| + 5 + |language| + |translated|..] == body
  {
    var head := keyword + [0, f, 0];
    var tail := translated + [0] + body;
    ItxtKeywordEnd(keyword, f, language, tail);
    ItxtLanguageEnd(head, language, tail);
    var front := head + language + [0];
    ConcatAssoc(front, translated + [0], body);
    ConcatAssoc(front, translated, [0]);
    ItxtTranslatedEnd(front, translated, body);
  }

  lemma ConcatAssoc(x: seq<byte>, y: seq<byte>, z: seq<byte>)
    ensures x + (y + z) == x + y + z
  {
  }

  lemma ItxtKeywordEnd(keyword: seq<byte>, f: byte, language: seq<byte>, tail: seq<byte>)
    requires NoNul(keyword)
    ensures IndexOfByte(keyword + [0, f, 0] + language + [0] + tail, 0, 0) == |keyword|
    ensures var data := keyword + [0, f, 0] + language + [0] + tail;
      data[..|keyword|] == keyword && data[|keyword| + 1] == f && data[|keyword| + 2] == 0
  {
    var rest := [f, 0] + language + [0] + tail;
    assert keyword + [0, f, 0] + language + [0] + tail == [] + keyword + [0] + rest;
    NulAfterRun([], keyword, rest);
  }

  lemma ItxtLanguageEnd(head: seq<byte>, language: seq<byte>, tail: seq<byte>)
    requires NoNul(language)
    ensures IndexOfByte(head + language + [0] + tail, 0, |head|) == |head| + |language|
  {
    NulAfterRun(head, language, tail);
  }

  lemma ItxtTranslatedEnd(front: seq<byte>, translated: seq<byte>, body: seq<byte>)
    requires NoNul(translated)
    ensures IndexOfByte(front + translated + [0] + body, 0, |front|) == |front| + |translated|
    ensures (front + translated + [0] + body)[|front| + |translated| + 1..] == body
  {
    NulAfterRun(front, translated, body);
  }

  /** `if (k.isNotBlank()) out[k] = v`. */
  function Store(out: TextMap, kv: (string, string)): (r: TextMap)
    ensures IsBlank(kv.0) ==> r == out
    ensures !IsBlank(kv.0) ==> Find(r, kv.0) == Some(kv.1)
    ensures forall k :: k != kv.0 ==> Find(r, k) == Find(out, k)
    ensures KeepsOrder(out, r)
  {
    if IsBlank(kv.0) then out else Put(out, kv.0, kv.1)
  }

  /** What one chunk does to the map being built: text chunks are parsed and
      stored, every other type is ignored. (`IEND` is handled by the caller.) */
  function Absorb(c: Codecs, out: TextMap, kind: string, data: seq<byte>): (r: Outcome<TextMap>)
    ensures kind !in {"tEXt", "zTXt", "iTXt"} ==> r == Ok(out)
    ensures r.Ok? || r == Throws(InflateFailed)
  {
    if kind == "tEXt" then Ok(Store(out, ParseText(data)))
    else if kind == "zTXt" then
      var kv :- ParseZtxt(c, data);
      Ok(Store(out, kv))
    else if kind == "iTXt" then
      var kv :- ParseItxt(c, data);
      Ok(Store(out, kv))
    else Ok(out)
  }

  /** Reads the chunk starting at `pos` (at least 4 bytes remain): length,
      type, data and CRC, in that order, each read failing at end of stream.
      A negative length fails when the data array is allocated, after the type
      has been read. */
  function ChunkAt(input: seq<byte>, pos: nat): (r: Outcome<(string, seq<byte>)>)
    requires pos + 4 <= |input|
    ensures r.Ok? || r == Throws(EndOfStream) || r == Throws(NegativeArraySize)
    ensures r.Ok? ==> pos + 12 + |r.value.1| <= |input|
  {
    var length := ToInt32(U32BE(input[pos], input[pos + 1], input[pos + 2], input[pos + 3]));
    if |input| - (pos + 4) < 4 then Throws(EndOfStream)
    else if length < 0 then Throws(NegativeArraySize)
    else if |input| - (pos + 8) < length then Throws(EndOfStream)
    else if |input| - (pos + 8 + length) < 4 then Throws(EndOfStream)  // the CRC
    else Ok((Latin1Four(input[pos + 4], input[pos + 5], input[pos + 6], input[pos + 7]), input[pos + 8..pos + 8 + length]))
  }

  /** What one chunk does to the map being built, as the chunk loop applies it. */
  type Step = (TextMap, string, seq<byte>) -> Outcome<TextMap>

  function AbsorbStep(c: Codecs): Step {
    (out: TextMap, kind: string, data: seq<byte>) => Absorb(c, out, kind, data)
  }

  /** A chunk absorbed into the map either succeeds or fails to inflate. */
  lemma AbsorbStepOutcome(c: Codecs, out: TextMap, kind: string, data: seq<byte>)
    ensures AbsorbStep(c)(out, kind, data).Ok? || AbsorbStep(c)(out, kind, data) == Throws(InflateFailed)
  {
  }

  /** The chunk loop of `readTextChunks`, from byte offset `pos`: end of stream
      while reading a length ends the map; an `IEND` chunk ends it too; every
      other chunk goes through `absorb`, whose failure ends the loop. */
  function ReadChunks(absorb: Step, input: seq<byte>, pos: nat, out: TextMap): (r: Outcome<TextMap>)
    requires pos <= |input|
    ensures |input| - pos < 4 ==> r == Ok(out)
    decreases |input| - pos
  {
    if |input| - pos < 4 then Ok(out)
    else
      var chunk := ChunkAt(input, pos);
      if !chunk.Ok? then chunk.PropagateFailure()
      else if chunk.value.0 == "IEND" then Ok(out)
      else
        var step := absorb(out, chunk.value.0, chunk.value.1);
        if step.Ok? then ReadChunks(absorb, input, pos + 12 + |chunk.value.1|, step.value)
        else step
  }

  /** `readTextChunks`: the 8-byte signature must be present and exact. */
  function ReadTextChunks(c: Codecs, input: seq<byte>): (r: Outcome<TextMap>)
    ensures |input| < 8 ==> r == Throws(EndOfStream)
    ensures |input| >= 8 && input[..8] != PNG_SIGNATURE ==> r == Throws(NotPng)
    ensures r.Ok? ==> input[..8] == PNG_SIGNATURE
  {
    if |input| < 8 then Throws(EndOfStream)
    else if input[..8] != PNG_SIGNATURE then Throws(NotPng)
    else ReadChunks(AbsorbStep(c), input, 8, [])
  }

  // ----- The writer side, used to state what the reader recovers -----

  /** A chunk as a writer lays it out: type, data and an arbitrary CRC. */
  datatype Chunk = Chunk(kind: string, data: seq<byte>, crc: seq<byte>)

  predicate WellFormedChunk(ch: Chunk) {
    && |ch.kind| == 4
    && (forall i :: 0 <= i < 4 ==> ch.kind[i] as int < 0x100)
    && |ch.data| < 0x8000_0000
    && |ch.crc| == 4
  }

  function EncodeChunk(ch: Chunk): (r: seq<byte>)
    requires WellFormedChunk(ch)
    ensures |r| == 12 + |ch.data|
  {
    BE32Bytes(|ch.data|) + Latin1Bytes(ch.kind) + ch.data + ch.crc
  }

  /** No chunk of the list is an `IEND` chunk. */
  predicate NoEndChunk(chs: seq<Chunk>) {
    |chs| == 0 || (chs[0].kind != "IEND" && NoEndChunk(chs[1..]))
  }

  /** The number of bytes a list of chunks occupies in the stream. */
  function Span(chs: seq<Chunk>): nat {
    if |chs| == 0 then 0 else 12 + |chs[0].data| + Span(chs[1..])
  }

  /** The chunks `chs` are written one after another in `input` from `pos` on. */
  predicate LaidOut(input: seq<byte>, pos: nat, chs: seq<Chunk>)
    decreases |chs|
  {
    if |chs| == 0 then pos <= |input|
    else
    (&& WellFormedChunk(chs[0])
     && pos + 12 + |chs[0].data| <= |input|
     && input[pos..pos + 12 + |chs[0].data|] == EncodeChunk(chs[0])
     && LaidOut(input, pos + 12 + |chs[0].data|, chs[1..]))
  }

  /** The reference meaning of a chunk list: absorb each chunk in order,
      stopping at the first error. */
  function AbsorbAll(absorb: Step, out: TextMap, chs: seq<Chunk>): Outcome<TextMap>
    decreases |chs|
  {
    if |chs| == 0 then Ok(out)
    else
      match absorb(out, chs[0].kind, chs[0].data)
      case Ok(next) => AbsorbAll(absorb, next, chs[1..])
      case failed => failed
  }

  /** The parts of an encoded chunk, as slices of the stream holding it. */
  lemma EncodedParts(input: seq<byte>, pos: nat, ch: Chunk)
    requires WellFormedChunk(ch)
    requires pos + 12 + |ch.data| <= |input|
    requires input[pos..pos + 12 + |ch.data|] == EncodeChunk(ch)
    ensures input[pos..pos + 4] == BE32Bytes(|ch.data|)
    ensures input[pos + 4..pos + 8] == Latin1Bytes(ch.kind)
    ensures input[pos + 8..pos + 8 + |ch.data|] == ch.data
  {
    var n := |ch.data|;
    var w := input[pos..pos + 12 + n];
    assert w[..4] == BE32Bytes(n);
    assert w[4..8] == Latin1Bytes(ch.kind);
    assert w[8..8 + n] == ch.data;
    assert input[pos..pos + 4] == w[..4];
    assert input[pos + 4..pos + 8] == w[4..8];
    assert input[pos + 8..pos + 8 + n] == w[8..8 + n];
  }

  /** A chunk whose length field, type field and data are known is read as that type and data. */
  lemma ChunkAtParts(input: seq<byte>, pos: nat, kind: string, data: seq<byte>)
    requires pos + 12 + |data| <= |input| && |data| < 0x8000_0000
    requires U32BE(input[pos], input[pos + 1], input[pos + 2], input[pos + 3]) == |data|
    requires Latin1Four(input[pos + 4], input[pos + 5], input[pos + 6], input[pos + 7]) == kind
    requires input[pos + 8..pos + 8 + |data|] == data
    ensures ChunkAt(input, pos) == Ok((kind, data))
  {
  }

  /** Reading one encoded chunk recovers its length, type and data whatever its CRC. */
  lemma DecodeOneChunk(input: seq<byte>, pos: nat, ch: Chunk)
    requires WellFormedChunk(ch)
    requires pos + 12 + |ch.data| <= |input|
    requires input[pos..pos + 12 + |ch.data|] == EncodeChunk(ch)
    ensures ChunkAt(input, pos) == Ok((ch.kind, ch.data))
  {
    EncodedParts(input, pos, ch);
    var len := input[pos..pos + 4];
    assert input[pos] == len[0] && input[pos + 1] == len[1] && input[pos + 2] == len[2] && input[pos + 3] == len[3];
    var kind := input[pos + 4..pos + 8];
    assert Latin1Four(input[pos + 4], input[pos + 5], input[pos + 6], input[pos + 7]) == Latin1(kind) by {
      assert [input[pos + 4], input[pos + 5], input[pos + 6], input[pos + 7]] == kind;
    }
    ChunkAtParts(input, pos, ch.kind, ch.data);
  }

  /** The chunks the reader finds one after another from `pos` on are `chs`. */
  predicate ChunksFrom(input: seq<byte>, pos: nat, chs: seq<Chunk>)
    decreases |chs|
  {
    |chs| == 0 ||
    (pos + 4 <= |input| && ChunkAt(input, pos) == Ok((chs[0].kind, chs[0].data))
     && ChunksFrom(input, pos + 12 + |chs[0].data|, chs[1..]))
  }

  /** Chunks laid out one after another are found again, one by one, by the reader. */
  lemma {:induction false} DecodeChunks(input: seq<byte>, pos: nat, chs: seq<Chunk>)
    requires LaidOut(input, pos, chs)
    ensures pos + Span(chs) <= |input|
    ensures ChunksFrom(input, pos, chs)
    decreases |chs|
  {
    if |chs| > 0 {
      DecodeOneChunk(input, pos, chs[0]);
      DecodeChunks(input, pos + 12 + |chs[0].data|, chs[1..]);
      FoundFirst(input, pos, chs);
    }
  }

  /** A chunk found at `pos`, followed by the rest found after it. */
  lemma FoundFirst(input: seq<byte>, pos: nat, chs: seq<Chunk>)
    requires |chs| > 0
    requires pos + 4 <= |input| && ChunkAt(input, pos) == Ok((chs[0].kind, chs[0].data))
    requires ChunksFrom(input, pos + 12 + |chs[0].data|, chs[1..])
    ensures ChunksFrom(input, pos, chs)
  {
  }

  /** A found chunk other than `IEND` is absorbed, and the loop goes on
      right after its CRC. */
  lemma ReadFoundStep(absorb: Step, input: seq<byte>, pos: nat, out: TextMap, ch: Chunk)
    requires pos + 4 <= |input| && ChunkAt(input, pos) == Ok((ch.kind, ch.data))
    requires ch.kind != "IEND"
    ensures pos + 12 + |ch.data| <= |input|
    ensures var step := absorb(out, ch.kind, ch.data);
      ReadChunks(absorb, input, pos, out) ==
        if step.Ok? then ReadChunks(absorb, input, pos + 12 + |ch.data|, step.value) else step
  {
  }

  /** The chunk loop over found chunks (none of them `IEND`) means exactly
      absorbing those chunks, and whatever follows them is then read on. */
  lemma {:induction false} ReadChunksFound(absorb: Step, input: seq<byte>, pos: nat, out: TextMap, chs: seq<Chunk>)
    requires NoEndChunk(chs)
    requires pos + Span(chs) <= |input|
    requires ChunksFrom(input, pos, chs)
    ensures AbsorbAll(absorb, out, chs).Ok? ==>
      ReadChunks(absorb, input, pos, out) == ReadChunks(absorb, input, pos + Span(chs), AbsorbAll(absorb, out, chs).value)
    ensures !AbsorbAll(absorb, out, chs).Ok? ==> ReadChunks(absorb, input, pos, out) == AbsorbAll(absorb, out, chs)
    decreases |chs|
  {
    if |chs| > 0 {
      var ch := chs[0];
      var step := absorb(out, ch.kind, ch.data);
      ReadFoundStep(absorb, input, pos, out, ch);
      if step.Ok? {
        ReadChunksFound(absorb, input, pos + 12 + |ch.data|, step.value, chs[1..]);
      }
    }
  }

  /** Framing round trip: the chunk loop over chunks laid out from `pos`
      (none of them `IEND`) means exactly absorbing those chunks, and
      whatever follows them is then read on. */
  lemma ReadChunksRoundTrip(absorb: Step, input: seq<byte>, pos: nat, out: TextMap, chs: seq<Chunk>)
    requires NoEndChunk(chs)
    requires LaidOut(input, pos, chs)
    ensures pos + Span(chs) <= |input|
    ensures AbsorbAll(absorb, out, chs).Ok? ==>
      ReadChunks(absorb, input, pos, out) == ReadChunks(absorb, input, pos + Span(chs), AbsorbAll(absorb, out, chs).value)
    ensures !AbsorbAll(absorb, out, chs).Ok? ==> ReadChunks(absorb, input, pos, out) == AbsorbAll(absorb, out, chs)
  {
    DecodeChunks(input, pos, chs);
    ReadChunksFound(absorb, input, pos, out, chs);
  }

  /** An `IEND` chunk ends the loop with the map built so far. */
  lemma EndChunkStops(absorb: Step, input: seq<byte>, pos: nat, out: TextMap)
    requires pos + 4 <= |input|
    requires ChunkAt(input, pos).Ok? && ChunkAt(input, pos).value.0 == "IEND"
    ensures ReadChunks(absorb, input, pos, out) == Ok(out)
  {
  }

  /** After an exact signature the chunk loop starts at byte 8 with an empty map. */
  lemma SignatureAccepted(c: Codecs, input: seq<byte>)
    requires |input| >= 8 && input[..8] == PNG_SIGNATURE
    ensures ReadTextChunks(c, input) == ReadChunks(AbsorbStep(c), input, 8, [])
  {
  }

  /** Found chunks followed by an `IEND` chunk: the loop yields exactly what
      absorbing the chunks yields. */
  lemma ReadFoundThenEnd(absorb: Step, input: seq<byte>, pos: nat, out: TextMap, chs: seq<Chunk>)
    requires NoEndChunk(chs)
    requires pos + Span(chs) + 4 <= |input|
    requires ChunksFrom(input, pos, chs)
    requires ChunkAt(input, pos + Span(chs)).Ok? && ChunkAt(input, pos + Span(chs)).value.0 == "IEND"
    ensures ReadChunks(absorb, input, pos, out) == AbsorbAll(absorb, out, chs)
  {
    ReadChunksFound(absorb, input, pos, out, chs);
    var all := AbsorbAll(absorb, out, chs);
    if all.Ok? {
      EndChunkStops(absorb, input, pos + Span(chs), all.value);
    }
  }

  /** Chunks laid out from `pos`, none of them `IEND`, then an `IEND` chunk:
      the loop yields exactly what absorbing the chunks yields. */
  lemma LaidOutThenEnd(absorb: Step, input: seq<byte>, pos: nat, chs: seq<Chunk>, iend: Chunk)
    requires NoEndChunk(chs) && LaidOut(input, pos, chs)
    requires iend.kind == "IEND" && LaidOut(input, pos + Span(chs), [iend])
    ensures ReadChunks(absorb, input, pos, []) == AbsorbAll(absorb, [], chs)
  {
    DecodeChunks(input, pos, chs);
    DecodeChunks(input, pos + Span(chs), [iend]);
    ReadFoundThenEnd(absorb, input, pos, [], chs);
  }

  /** A PNG made of the signature, text-bearing chunks and an `IEND` chunk
      yields exactly the map the chunks describe; nothing after `IEND` is read. */
  lemma ReadTextChunksRoundTrip(c: Codecs, input: seq<byte>, chs: seq<Chunk>, iend: Chunk)
    requires |input| >= 8 && input[..8] == PNG_SIGNATURE
    requires NoEndChunk(chs) && LaidOut(input, 8, chs)
    requires iend.kind == "IEND" && LaidOut(input, 8 + Span(chs), [iend])
    ensures ReadTextChunks(c, input) == AbsorbAll(AbsorbStep(c), [], chs)
  {
    LaidOutThenEnd(AbsorbStep(c), input, 8, chs, iend);
    SignatureAccepted(c, input);
  }
}
