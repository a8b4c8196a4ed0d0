# Prompt Reader: a Dafny model of the metadata cascade

Prompt Reader shows the generation parameters (positive prompt, negative prompt,
settings line, raw text) that Stable Diffusion front ends embed in the images
they write. This project models the Android reader and the two helper objects
of the command-line core:

- **Format sniffing.** The first 16 bytes of the file decide between PNG, JPEG,
  WEBP and "Unsupported file".
- **PNG text chunks.** The chunk loop reads `tEXt`, `zTXt` and `iTXt` chunks
  into an insertion-ordered keyword map and stops at `IEND` or at end of
  stream.
- **The PNG cascade.** It tries the map in a fixed order:
  1. StableSwarmUI `parameters`;
  2. a NovelAI legacy `Comment`;
  3. a Fooocus `Comment`;
  4. a ComfyUI workflow-only file;
  5. a ComfyUI prompt graph;
  6. a workflow embedded in `parameters`;
  7. A1111 `parameters`;
  8. the NovelAI alpha-channel ("stealth") payload;
  9. Unknown.
- **The EXIF cascade** for JPEG and WEBP. It reads UserComment, Software and
  ImageDescription and tries, in order: Swarm, embedded workflow, Fooocus,
  A1111, stealth, NovelAI legacy, Unknown.
- **The per-tool parsers.**
  - `A1111Parser` splits the text at the first `\nNegative prompt:` and
    `\nSteps:` markers.
  - `SwarmUiParser`, `FooocusParser` and `NovelAiParser` work on JSON objects.
  - `ComfyUiParser` walks the node graph from each image saver or sampler and
    keeps the traversal that visits the most nodes.
- **The NovelAI stealth decoder.** It reads the least significant alpha bit of
  every pixel, column by column, into a byte stream. The stream holds the
  magic, a signed 32-bit bit count and a gzip payload.
- **`MergeUtil.mergeDict` and `TextUtil`** from the command-line core.

## Modelling choices

- **Exceptions and non-termination.** Every operation returns an `Outcome`:
  - `Ok`;
  - `Throws(fault)`, for an exception that escapes;
  - `Hangs`, for a loop that never ends.

  The `Hangs` case is needed because the stealth decoder's `nextByte` loop
  spins for ever when a bitmap with rows runs out of pixels while reading a
  byte, including a read that starts exactly at the end of the grid.
- **Library code becomes parameters.** The library calls the core makes but
  does not implement are fields of a `Codecs` record: the `org.json`
  tokenizer and serialiser, zlib inflation, UTF-8 decoding, gunzip-to-text and
  `ComfyUiParser.parseWorkflow`. Every property is proved for all such
  functions.
- **JSON null and `optString`.** JSON values follow `org.json` on Android.
  `optString` of a JSON null yields the text `null`, numbers are kept as the
  text Java prints for them, and objects are insertion-ordered member lists.
- **Overflow as cycle detection.** `traverseToText` recursing for ever on a
  cyclic chain of links is the JVM's `StackOverflowError`. The model detects
  the cycle with a set of the nodes already on the chain.
- **Opening the file.** Opening the file, `ExifInterface` and `BitmapFactory`
  become inputs of `PromptReader.Parse`: the file's bytes, the three tags, and
  the decoded bitmap (or none).

Some behaviours of the code that are easy to misread, kept as written:

- **Duplicate PNG keywords.** The last chunk carrying a keyword wins (`out[k] = v`).
- **Inflation failures.** A failure inflating a `zTXt` or `iTXt` chunk escapes
  `readTextChunks`; it is not caught per chunk.
- **The stealth bit count** is a signed 32-bit value. A negative count, or one
  under eight, gives no payload.
- **The stealth magic** is the 15 bytes of `stealth_pngcomp`.
- **A present but blank EXIF UserComment** reaches the NovelAI legacy branch
  unchanged. Only a missing one becomes `{}`.

## Model

| member | source | states |
|---|---|---|
| PromptReader.Header | prompt-reader-android/app/src/main/java/com/promptreader/android/parser/PromptReader.kt:336-345 | the header is the file's first 16 bytes, or the whole file when it is shorter |
| PromptReader.Sniff | prompt-reader-android/app/src/main/java/com/promptreader/android/parser/PromptReader.kt:19-38 | each format is chosen exactly when its signature matches and no earlier signature does: PNG first, then JPEG, then WEBP, else Unsupported |
| PromptReader.SignaturesExclusive | prompt-reader-android/app/src/main/java/com/promptreader/android/parser/PromptReader.kt:20-24 | no header matches two of the three signatures, so the order of the tests never matters |
| PromptReader.WebpBytes | prompt-reader-android/app/src/main/java/com/promptreader/android/parser/PromptReader.kt:24 | the Latin-1 text test for WEBP is the byte test `RIFF` at 0..4 and `WEBP` at 8..12 |
| PromptReader.SniffReadsTwelveBytes | prompt-reader-android/app/src/main/java/com/promptreader/android/parser/PromptReader.kt:19-24 | two files sharing their first 12 bytes are sniffed alike |
| PromptReader.FooocusCommentKeys | prompt-reader-android/app/src/main/java/com/promptreader/android/parser/PromptReader.kt:188-196 | a comment passing the Fooocus test trims to text opening with `{` that parses to an object holding `negative_prompt` and one of `prompt`, `styles`, `performance` |
| PromptReader.FooocusCommentAccepted | prompt-reader-android/app/src/main/java/com/promptreader/android/parser/PromptReader.kt:188-196 | conversely, padded text trimming to an object that opens with `{` and holds `negative_prompt` and one of `prompt`, `styles`, `performance` passes the test |
| PromptReader.LooksLikeFooocusComment | prompt-reader-android/app/src/main/java/com/promptreader/android/parser/PromptReader.kt:188-196 | the test holds exactly when the trimmed comment opens with `{` and parses to an object holding `negative_prompt` and one of `prompt`, `styles`, `performance` |
| PromptReader.WorkflowCandidate | prompt-reader-android/app/src/main/java/com/promptreader/android/parser/PromptReader.kt:318-320 | there is a candidate exactly when the text holds a `{`; it starts with `{` and is the trimmed suffix from the first `{` |
| PromptReader.ExtractComfyUiWorkflowJson | prompt-reader-android/app/src/main/java/com/promptreader/android/parser/PromptReader.kt:317-325 | the result is the candidate exactly when the candidate parses to an object with `nodes` and `links` arrays; no `{` gives nothing |
| PromptReader.ExtractFindsWorkflow | prompt-reader-android/app/src/main/java/com/promptreader/android/parser/PromptReader.kt:317-325 | a workflow object written after any text free of `{` is extracted whole |
| PromptReader.CandidateAfterPrefix | prompt-reader-android/app/src/main/java/com/promptreader/android/parser/PromptReader.kt:318-320 | after text free of `{`, an unpadded text opening with `{` is the candidate |
| PromptReader.MapText | prompt-reader-android/app/src/main/java/com/promptreader/android/parser/PromptReader.kt:183 | the map's text is enclosed in braces |
| PromptReader.Unknown | prompt-reader-android/app/src/main/java/com/promptreader/android/parser/PromptReader.kt:178-185 | the Unknown record has empty prompts and setting and carries only its raw text |
| PromptReader.StealthRun | prompt-reader-android/app/src/main/java/com/promptreader/android/parser/PromptReader.kt:327-334 | an undecodable bitmap gives no object; the decoder itself never throws, at worst it does not return |
| PromptReader.RoutePng | prompt-reader-android/app/src/main/java/com/promptreader/android/parser/PromptReader.kt:57-176 | the branch taken has its condition true, and no earlier branch's condition holds |
| PromptReader.PngFirstMatch | prompt-reader-android/app/src/main/java/com/promptreader/android/parser/PromptReader.kt:57-176 | for every branch ranked before the one taken, its condition is false: the cascade is first-match |
| PromptReader.ParsePng | prompt-reader-android/app/src/main/java/com/promptreader/android/parser/PromptReader.kt:41-186 | the PNG cascade hangs only in the stealth branch with a hanging decoder, and throws only a JSON, overflow, substring or workflow-parser failure |
| PromptReader.PngStealthOnlyLast | prompt-reader-android/app/src/main/java/com/promptreader/android/parser/PromptReader.kt:162-176 | outside the last branch the bitmap's outcome, even a hang, does not affect the result |
| PromptReader.PngSwarmFirst | prompt-reader-android/app/src/main/java/com/promptreader/android/parser/PromptReader.kt:57-70 | a non-blank `parameters` holding `sui_image_params` always goes to the Swarm parser |
| PromptReader.PngLegacyBeforeFooocus | prompt-reader-android/app/src/main/java/com/promptreader/android/parser/PromptReader.kt:72-100 | a NovelAI `Software` with `Description` and `Comment` never reaches the Fooocus branch |
| PromptReader.PngA1111Label | prompt-reader-android/app/src/main/java/com/promptreader/android/parser/PromptReader.kt:132-160 | the A1111 branch sees only a blank or absent `prompt`; it succeeds exactly when the A1111 parser does, labelled "ComfyUI (A1111 compatible)" exactly when `prompt` is present |
| PromptReader.PngNothingReadable | prompt-reader-android/app/src/main/java/com/promptreader/android/parser/PromptReader.kt:178-185 | a map without any key the cascade reads, and no stealth payload, gives Unknown with the map's text |
| PromptReader.PngFooocusSucceeds | prompt-reader-android/app/src/main/java/com/promptreader/android/parser/PromptReader.kt:87-100 | when the tokenizer reads the untrimmed comment as the trimmed one, the Fooocus branch succeeds with the Fooocus label |
| PromptReader.RouteExif | prompt-reader-android/app/src/main/java/com/promptreader/android/parser/PromptReader.kt:213-314 | the EXIF branch taken has its condition true |
| PromptReader.ExifFirstMatch | prompt-reader-android/app/src/main/java/com/promptreader/android/parser/PromptReader.kt:213-314 | no EXIF branch ranked before the one taken applies |
| PromptReader.ParseExif | prompt-reader-android/app/src/main/java/com/promptreader/android/parser/PromptReader.kt:198-315 | the EXIF cascade hangs only without a usable UserComment and with a hanging decoder; it throws only a JSON, substring or workflow-parser failure |
| PromptReader.ParseExifRoute | prompt-reader-android/app/src/main/java/com/promptreader/android/parser/PromptReader.kt:213-314 | each EXIF branch either succeeds or throws one of those three failures |
| PromptReader.ExifCommentDecides | prompt-reader-android/app/src/main/java/com/promptreader/android/parser/PromptReader.kt:213-273 | a non-blank UserComment always ends in Swarm, workflow, Fooocus or A1111, whatever the bitmap holds |
| PromptReader.ExifA1111Label | prompt-reader-android/app/src/main/java/com/promptreader/android/parser/PromptReader.kt:260-273 | the EXIF A1111 branch is always labelled "A1111 webUI" |
| PromptReader.ExifLegacyComment | prompt-reader-android/app/src/main/java/com/promptreader/android/parser/PromptReader.kt:291-305 | legacy is reached only without a usable comment and stealth object; a missing comment reads as `{}`, a present unparsable one throws |
| PromptReader.ExifNothingReadable | prompt-reader-android/app/src/main/java/com/promptreader/android/parser/PromptReader.kt:307-314 | no tags and no stealth payload give Unknown "No readable metadata" |
| PromptReader.Parse | prompt-reader-android/app/src/main/java/com/promptreader/android/parser/PromptReader.kt:15-39 | an unsupported file gives Unknown "Unsupported file"; a file sniffed as PNG never fails with "Not a PNG" |
| PromptReader.PngReadsPastSignature | prompt-reader-android/app/src/main/java/com/promptreader/android/png/PngTextChunkReader.kt:17-23 | the sniff's PNG test implies the chunk reader's own signature check passes |
| PromptReader.ChunksNeverNotPng | prompt-reader-android/app/src/main/java/com/promptreader/android/png/PngTextChunkReader.kt:27-58 | the chunk loop never fails with "Not a PNG", from any position |
| PromptReader.JpegAndWebpAlike | prompt-reader-android/app/src/main/java/com/promptreader/android/parser/PromptReader.kt:28-29 | a JPEG and a WEBP file with the same tags and bitmap give the same result |
| PngTextChunks.ParseText | prompt-reader-android/app/src/main/java/com/promptreader/android/png/PngTextChunkReader.kt:63-69 | the keyword is empty exactly when there is no NUL or it comes first, and then the text is empty too |
| PngTextChunks.ParseTextRoundTrip | prompt-reader-android/app/src/main/java/com/promptreader/android/png/PngTextChunkReader.kt:63-69 | decoding an encoded Latin-1 keyword and text gives both back |
| PngTextChunks.ParseZtxt | prompt-reader-android/app/src/main/java/com/promptreader/android/png/PngTextChunkReader.kt:71-81 | only an inflation failure escapes; a missing NUL or method byte gives the empty pair, a method other than 0 an empty text, method 0 the keyword with the UTF-8 text of the inflated stream |
| PngTextChunks.ParseZtxtRoundTrip | prompt-reader-android/app/src/main/java/com/promptreader/android/png/PngTextChunkReader.kt:71-81 | a zTXt payload written with a NUL-free keyword and method 0 reads back as that keyword and the decoded inflated text, or the inflation error |
| PngTextChunks.ParseItxt | prompt-reader-android/app/src/main/java/com/promptreader/android/png/PngTextChunkReader.kt:83-116 | only an inflation failure escapes; a missing or leading keyword NUL gives the empty pair, no room for the flag and method bytes an empty text, otherwise the rest is read under the Latin-1 keyword |
| PngTextChunks.ItxtAfterKeyword | prompt-reader-android/app/src/main/java/com/promptreader/android/png/PngTextChunkReader.kt:92-115 | a missing language or translated-keyword NUL gives an empty text; the bytes after the third NUL are inflated and then decoded when flag is 1 and method 0 (an inflation failure escapes), and decoded as they are otherwise |
| PngTextChunks.ParseItxtRoundTrip | prompt-reader-android/app/src/main/java/com/promptreader/android/png/PngTextChunkReader.kt:83-116 | an iTXt payload written with NUL-free keyword, language tag and translated keyword reads back as the keyword and its body, inflated first exactly when the compression flag is set |
| PngTextChunks.Store | prompt-reader-android/app/src/main/java/com/promptreader/android/png/PngTextChunkReader.kt:44-55 | a blank keyword leaves the map alone; any other is mapped to its text, later chunks overriding earlier ones |
| PngTextChunks.Absorb | prompt-reader-android/app/src/main/java/com/promptreader/android/png/PngTextChunkReader.kt:43-57 | chunk types other than the three text types leave the map unchanged; the only failure is inflation |
| PngTextChunks.ChunkAt | prompt-reader-android/app/src/main/java/com/promptreader/android/png/PngTextChunkReader.kt:28-41 | reading one chunk fails only at end of stream or on a negative length |
| PngTextChunks.ReadChunks | prompt-reader-android/app/src/main/java/com/promptreader/android/png/PngTextChunkReader.kt:27-58 | fewer than four bytes left ends the loop with the map built so far |
| PngTextChunks.ReadTextChunks | prompt-reader-android/app/src/main/java/com/promptreader/android/png/PngTextChunkReader.kt:17-23 | a stream shorter than the signature hits end of stream; a wrong signature throws "Not a PNG" |
| PngTextChunks.DecodeOneChunk | prompt-reader-android/app/src/main/java/com/promptreader/android/png/PngTextChunkReader.kt:28-41 | a chunk as a writer lays it out is read back as its type and data, whatever its CRC |
| PngTextChunks.DecodeChunks | prompt-reader-android/app/src/main/java/com/promptreader/android/png/PngTextChunkReader.kt:27-41 | chunks laid out one after another are found again one by one |
| PngTextChunks.ReadChunksFound | prompt-reader-android/app/src/main/java/com/promptreader/android/png/PngTextChunkReader.kt:27-58 | the loop over found chunks means absorbing those chunks in order, then reading on |
| PngTextChunks.ReadChunksRoundTrip | prompt-reader-android/app/src/main/java/com/promptreader/android/png/PngTextChunkReader.kt:27-58 | framing round trip: the loop over laid-out chunks equals the reference fold over the chunk list |
| PngTextChunks.EndChunkStops | prompt-reader-android/app/src/main/java/com/promptreader/android/png/PngTextChunkReader.kt:56 | an `IEND` chunk ends the loop with the map built so far |
| PngTextChunks.SignatureAccepted | prompt-reader-android/app/src/main/java/com/promptreader/android/png/PngTextChunkReader.kt:19-27 | after an exact signature the loop starts at byte 8 with an empty map |
| PngTextChunks.LaidOutThenEnd | prompt-reader-android/app/src/main/java/com/promptreader/android/png/PngTextChunkReader.kt:27-60 | chunks followed by `IEND` yield exactly the fold over the chunks |
| PngTextChunks.ReadTextChunksRoundTrip | prompt-reader-android/app/src/main/java/com/promptreader/android/png/PngTextChunkReader.kt:17-61 | a PNG made of the signature, chunks and `IEND` yields the map the chunks describe, and nothing after `IEND` matters |
| StealthDecoder.AlphaBit | prompt-reader-android/app/src/main/java/com/promptreader/android/novelai/NovelAiStealthDecoder.kt:55-56 | the extracted alpha bit is 0 or 1 |
| StealthDecoder.NextBit | prompt-reader-android/app/src/main/java/com/promptreader/android/novelai/NovelAiStealthDecoder.kt:52-67 | the cursor stays put exactly when it is outside the grid; otherwise one more bit is held |
| StealthDecoder.FillByte | prompt-reader-android/app/src/main/java/com/promptreader/android/novelai/NovelAiStealthDecoder.kt:70-73 | the loop ends with eight bits, or with both row and column past the grid, or never ends |
| StealthDecoder.NextByte | prompt-reader-android/app/src/main/java/com/promptreader/android/novelai/NovelAiStealthDecoder.kt:69-78 | after a byte the cursor holds no bits |
| StealthDecoder.NextBytes | prompt-reader-android/app/src/main/java/com/promptreader/android/novelai/NovelAiStealthDecoder.kt:80-86 | `nextBytes(n)` yields exactly n bytes or never returns |
| StealthDecoder.ReadInt32BE | prompt-reader-android/app/src/main/java/com/promptreader/android/novelai/NovelAiStealthDecoder.kt:88-95 | the count read is always present and is a signed 32-bit value |
| StealthDecoder.TryDecode | prompt-reader-android/app/src/main/java/com/promptreader/android/novelai/NovelAiStealthDecoder.kt:12-26 | decoding never throws: a failure is no object, or the read never ends |
| StealthDecoder.AfterMagic | prompt-reader-android/app/src/main/java/com/promptreader/android/novelai/NovelAiStealthDecoder.kt:19-25 | the stages after the magic never throw either |
| StealthDecoder.NextBitInGrid | prompt-reader-android/app/src/main/java/com/promptreader/android/novelai/NovelAiStealthDecoder.kt:52-67 | inside the grid, `nextBit` shifts in stream bit k (column-major order) and moves to bit k + 1 |
| StealthDecoder.NextBitPastGrid | prompt-reader-android/app/src/main/java/com/promptreader/android/novelai/NovelAiStealthDecoder.kt:53 | once every pixel has been read, `nextBit` changes nothing |
| StealthDecoder.FillByteReads | prompt-reader-android/app/src/main/java/com/promptreader/android/novelai/NovelAiStealthDecoder.kt:69-78 | the byte loop completes the next stream byte, most significant bit first, when the grid holds its bits, and hangs otherwise |
| StealthDecoder.FillByteHangsPastGrid | prompt-reader-android/app/src/main/java/com/promptreader/android/novelai/NovelAiStealthDecoder.kt:70-73 | with rows present and all pixels read, the byte loop never ends |
| StealthDecoder.NextByteReads | prompt-reader-android/app/src/main/java/com/promptreader/android/novelai/NovelAiStealthDecoder.kt:69-78 | `nextByte` yields the value of the next eight stream bits |
| StealthDecoder.NextBytesReads | prompt-reader-android/app/src/main/java/com/promptreader/android/novelai/NovelAiStealthDecoder.kt:80-86 | `nextBytes(n)` yields the next n stream bytes when the grid holds them, and hangs otherwise |
| StealthDecoder.HeaderReads | prompt-reader-android/app/src/main/java/com/promptreader/android/novelai/NovelAiStealthDecoder.kt:88-95 | after the magic, the count is the next four stream bytes read big-endian as a signed value |
| StealthDecoder.PayloadReads | prompt-reader-android/app/src/main/java/com/promptreader/android/novelai/NovelAiStealthDecoder.kt:23-25 | the payload stage reads the next stream bytes, gunzips them and parses an object |
| StealthDecoder.TryDecodeReadsStream | prompt-reader-android/app/src/main/java/com/promptreader/android/novelai/NovelAiStealthDecoder.kt:12-26 | for a bitmap with rows, decoding equals the reference reading of the alpha bit stream: magic, count, payload |
| StealthDecoder.AfterMagicReadsStream | prompt-reader-android/app/src/main/java/com/promptreader/android/novelai/NovelAiStealthDecoder.kt:19-25 | past the magic, the decoder agrees with the stream reading |
| StealthDecoder.LengthAccepted | prompt-reader-android/app/src/main/java/com/promptreader/android/novelai/NovelAiStealthDecoder.kt:20-21 | with division toward zero, a count is accepted exactly when it is between 8 and 8 × 50,000,001 − 1 |
| StealthDecoder.EmptyBitmapReadsZeros | prompt-reader-android/app/src/main/java/com/promptreader/android/novelai/NovelAiStealthDecoder.kt:69-78 | a bitmap with no rows and no columns reads every byte as 0 |
| StealthDecoder.EmptyBitmapHasNothing | prompt-reader-android/app/src/main/java/com/promptreader/android/novelai/NovelAiStealthDecoder.kt:12-17 | so an empty bitmap carries no magic and gives no object |
| StealthDecoder.ZeroHeightHangs | prompt-reader-android/app/src/main/java/com/promptreader/android/novelai/NovelAiStealthDecoder.kt:69-73 | columns without rows make decoding never end |
| A1111.Parse | prompt-reader-android/app/src/main/java/com/promptreader/android/parser/A1111Parser.kt:11-38 | the only failure is the substring exception; a blank text gives four empty fields |
| A1111.ParseAtTrims | prompt-reader-android/app/src/main/java/com/promptreader/android/parser/A1111Parser.kt:11-38 | for a non-blank text whose first negative marker comes before its first steps marker, the fields are the trimmed texts before the negative marker, between the two markers, and after the steps marker's newline |
| A1111.ParseAtMarkers | prompt-reader-android/app/src/main/java/com/promptreader/android/parser/A1111Parser.kt:11-38 | the layout case of the above: when the text is exactly a trimmed positive prompt, the negative marker, one space, a trimmed negative prompt, then the steps marker and a trimmed settings line, with the negative marker ending before the steps marker, the three parts come back unchanged |
| A1111.NoMarkers | prompt-reader-android/app/src/main/java/com/promptreader/android/parser/A1111Parser.kt:14-37 | without markers the whole trimmed text is the positive prompt and the raw text |
| A1111.StepsOnly | prompt-reader-android/app/src/main/java/com/promptreader/android/parser/A1111Parser.kt:19-24 | with a steps marker and no negative marker, the positive prompt is the trimmed text before the first steps marker, the negative prompt is empty, the settings line is the trimmed text from `Steps:` on, and the raw text is the trimmed input |
| A1111.NegativeOnly | prompt-reader-android/app/src/main/java/com/promptreader/android/parser/A1111Parser.kt:26-34 | with a negative marker and no steps marker, the positive prompt is the trimmed text before the first negative marker, the negative prompt is the trimmed text after the marker to the end of the input, the settings line is empty, and the raw text is the trimmed input |
| A1111.SettingStartsWithSteps | prompt-reader-android/app/src/main/java/com/promptreader/android/parser/A1111Parser.kt:19-21 | with a steps marker the settings line begins with `Steps:` |
| A1111.InvertedMarkersThrow | prompt-reader-android/app/src/main/java/com/promptreader/android/parser/A1111Parser.kt:26-35 | the parser throws exactly when both markers occur and the negative one comes after the steps one |
| A1111.MarkersApart | prompt-reader-android/app/src/main/java/com/promptreader/android/parser/A1111Parser.kt:28-31 | an earlier negative marker ends before the steps marker begins, so that substring is well formed |
| A1111.ComposeRoundTrip | prompt-reader-android/app/src/main/java/com/promptreader/android/parser/A1111Parser.kt:11-38 | parsing the web UI's own layout of three trimmed parts gives the parts back |
| A1111.ParseLaidOut | prompt-reader-android/app/src/main/java/com/promptreader/android/parser/A1111Parser.kt:11-38 | the same, stated for a text and the index of its steps marker |
| SwarmUi.Params | prompt-reader-android/app/src/main/java/com/promptreader/android/parser/SwarmUiParser.kt:15 | the parameters are the `sui_image_params` object, or empty when it is absent or not an object |
| SwarmUi.Parse | prompt-reader-android/app/src/main/java/com/promptreader/android/parser/SwarmUiParser.kt:13-29 | succeeds exactly on an object text; prompts are the trimmed `prompt` and `negativeprompt` of the parameters, the setting excludes both, the raw text lists the non-blank parts |
| Fooocus.Parse | prompt-reader-android/app/src/main/java/com/promptreader/android/parser/FooocusParser.kt:13-26 | succeeds exactly on an object text; prompts are the trimmed `prompt` and `negative_prompt`, the setting excludes both, the raw text lists the non-blank parts |
| NovelAi.ParseLegacy | prompt-reader-android/app/src/main/java/com/promptreader/android/parser/NovelAiParser.kt:13-25 | succeeds exactly on an object comment; the positive is the trimmed description, the negative is `uc`, the setting excludes `uc` |
| NovelAi.Merged | prompt-reader-android/app/src/main/java/com/promptreader/android/parser/NovelAiParser.kt:28-40 | `Comment` is always gone; an unparsable comment leaves the other members as they were, and members the comment does not carry keep their values |
| NovelAi.CommentValuesWin | prompt-reader-android/app/src/main/java/com/promptreader/android/parser/NovelAiParser.kt:31-40 | each member of a parsed comment replaces the member of the same key |
| NovelAi.ParseStealth | prompt-reader-android/app/src/main/java/com/promptreader/android/parser/NovelAiParser.kt:27-54 | the positive is `prompt`, else `Description`, else empty; the negative is `uc`; the setting excludes `prompt`, `uc` and `Description` |
| JsonFields.FromObject | prompt-reader-android/app/src/main/java/com/promptreader/android/parser/FooocusParser.kt:15-23 | the shared tail of the JSON parsers: negative, setting without the excluded keys, and raw text |
| JsonFields.SettingMembers | prompt-reader-android/app/src/main/java/com/promptreader/android/parser/FooocusParser.kt:18-22 | a member appears in the settings object exactly when its key is not excluded |
| Codecs.ParseObject | prompt-reader-android/app/src/main/java/com/promptreader/android/parser/FooocusParser.kt:14 | `JSONObject(text)` succeeds exactly when the tokenizer yields an object |
| Codecs.SettingText | prompt-reader-android/app/src/main/java/com/promptreader/android/parser/FooocusParser.kt:22 | the settings line holds no double quote and has no surrounding whitespace |
| Codecs.SettingTextOfBraced | prompt-reader-android/app/src/main/java/com/promptreader/android/parser/FooocusParser.kt:22 | when the object serialises as `{` + inner + `}` with no brace at either end of inner, the settings line is inner with every double quote deleted, then trimmed |
| Codecs.FieldText | prompt-reader-android/app/src/main/java/com/promptreader/android/parser/FooocusParser.kt:15-16 | a string member gives its trimmed text, an absent key gives "" |
| Codecs.NullFieldText | prompt-reader-android/app/src/main/java/com/promptreader/android/parser/FooocusParser.kt:15-16 | a JSON null member reads as `null`, not as "" |
| Codecs.RawTextOfThree | prompt-reader-android/app/src/main/java/com/promptreader/android/parser/FooocusParser.kt:23 | blank parts leave neither a line nor a separator in the raw text |
| ComfyUi.InputsOf | prompt-reader-android/app/src/main/java/com/promptreader/android/parser/ComfyUiParser.kt:99 | a node without an `inputs` object has no inputs |
| ComfyUi.FirstLink | prompt-reader-android/app/src/main/java/com/promptreader/android/parser/ComfyUiParser.kt:214-225 | a link exists exactly for a non-empty array, and it is the text of its first item |
| ComfyUi.FirstLinkIn | prompt-reader-android/app/src/main/java/com/promptreader/android/parser/ComfyUiParser.kt:165-174 | the result is the link of the first input holding one, or none when no input does |
| ComfyUi.FirstPresent | prompt-reader-android/app/src/main/java/com/promptreader/android/parser/ComfyUiParser.kt:155 | the value of the first of `text`, `text_g`, `text_l` present, or none |
| ComfyUi.TextCandidate | prompt-reader-android/app/src/main/java/com/promptreader/android/parser/ComfyUiParser.kt:199-203 | the first candidate input holding a string, or none when no candidate does |
| ComfyUi.TextStepOf | prompt-reader-android/app/src/main/java/com/promptreader/android/parser/ComfyUiParser.kt:184-211 | a `CLIPTextEncode` with a string `text`, or another node with a string candidate, yields that text; otherwise the link of `text` (for `CLIPTextEncode`) or the first link among the inputs is followed; nothing is found exactly when there is neither |
| ComfyUi.Traverse | prompt-reader-android/app/src/main/java/com/promptreader/android/parser/ComfyUiParser.kt:93-176 | a visited node is skipped; otherwise it becomes visited; the only failure is stack overflow |
| ComfyUi.SamplerInputs | prompt-reader-android/app/src/main/java/com/promptreader/android/parser/ComfyUiParser.kt:111-140 | the sampler loop only adds visited nodes; the only failure is stack overflow |
| ComfyUi.WithCheckpoint | prompt-reader-android/app/src/main/java/com/promptreader/android/parser/ComfyUiParser.kt:144-150 | only `flow` may change: it maps `ckpt_name` to the non-blank `ckpt_name` of the inputs of the node the `model` input links to, every other key unchanged; a missing link, node, inputs object or name, or a blank name, leaves the context as it was |
| ComfyUi.TextOf | prompt-reader-android/app/src/main/java/com/promptreader/android/parser/ComfyUiParser.kt:178-212 | returning to a node on the current chain overflows; otherwise the node becomes visited |
| ComfyUi.TextOfFollowsChain | prompt-reader-android/app/src/main/java/com/promptreader/android/parser/ComfyUiParser.kt:178-212 | the text found equals the reference chain-following over the graph alone, whatever was visited before |
| ComfyUi.CyclicChainOverflows | prompt-reader-android/app/src/main/java/com/promptreader/android/parser/ComfyUiParser.kt:178-212 | a chain that comes back on itself overflows, whatever was visited before |
| ComfyUi.ScalarInputs | prompt-reader-android/app/src/main/java/com/promptreader/android/parser/ComfyUiParser.kt:130-138 | every unlinked input other than `positive` and `negative` is recorded, and every recorded entry is one of the node's inputs |
| ComfyUi.SamplerStepWithoutLink | prompt-reader-android/app/src/main/java/com/promptreader/android/parser/ComfyUiParser.kt:135-137 | an unlinked input is recorded in `flow` and the loop moves on |
| ComfyUi.SamplerStepPrompt | prompt-reader-android/app/src/main/java/com/promptreader/android/parser/ComfyUiParser.kt:114-128 | a linked `positive` or `negative` input is resolved by `traverseToText`; a text replaces that prompt, no text keeps it, then the loop moves on; an overflow ends the loop |
| ComfyUi.SamplerStepLinked | prompt-reader-android/app/src/main/java/com/promptreader/android/parser/ComfyUiParser.kt:130-134 | any other linked input is traversed and the loop moves on from the context it leaves; an overflow ends the loop |
| ComfyUi.SamplerWithoutLinks | prompt-reader-android/app/src/main/java/com/promptreader/android/parser/ComfyUiParser.kt:111-140 | a sampler without links only lays its scalar inputs over `flow`, in key order |
| ComfyUi.Shown | prompt-reader-android/app/src/main/java/com/promptreader/android/parser/ComfyUiParser.kt:70-72 | a value is shown exactly when present and its text is not `null` |
| ComfyUi.ShownUnquoted | prompt-reader-android/app/src/main/java/com/promptreader/android/parser/ComfyUiParser.kt:71-74 | likewise after trimming quotes, and a shown name neither starts nor ends with a quote |
| ComfyUi.Part | prompt-reader-android/app/src/main/java/com/promptreader/android/parser/ComfyUiParser.kt:77-82 | a missing value contributes no part |
| ComfyUi.FullSetting | prompt-reader-android/app/src/main/java/com/promptreader/android/parser/ComfyUiParser.kt:69-84 | a full flow gives the six labelled parts in the fixed order |
| ComfyUi.FullSettingText | prompt-reader-android/app/src/main/java/com/promptreader/android/parser/ComfyUiParser.kt:69-84 | a full flow gives exactly the line `Steps: <steps>, Sampler: <sampler>, CFG scale: <cfg>, Seed: <seed>, Size: <w>x<h>, Model: <model>`, the six parts joined by `, ` |
| ComfyUi.BuildSetting | prompt-reader-android/app/src/main/java/com/promptreader/android/parser/ComfyUiParser.kt:69-84 | the setting line is empty exactly when no part is shown, and otherwise opens with the first shown part |
| ComfyUi.NoiseSeedFallback | prompt-reader-android/app/src/main/java/com/promptreader/android/parser/ComfyUiParser.kt:73 | without `seed`, the seed part comes from `noise_seed` |
| ComfyUi.NullSeedHidesNoiseSeed | prompt-reader-android/app/src/main/java/com/promptreader/android/parser/ComfyUiParser.kt:73 | a JSON-null `seed` blocks the `noise_seed` fallback and shows no seed |
| ComfyUi.QuotesTrimmed | prompt-reader-android/app/src/main/java/com/promptreader/android/parser/ComfyUiParser.kt:71 | a quoted sampler name is shown without its quotes |
| ComfyUi.NullFlowEmptySetting | prompt-reader-android/app/src/main/java/com/promptreader/android/parser/ComfyUiParser.kt:69-84 | an all-null flow and no size give an empty setting |
| ComfyUi.EndNodes | prompt-reader-android/app/src/main/java/com/promptreader/android/parser/ComfyUiParser.kt:30-36 | the end nodes are exactly the ids whose class is an image saver or a sampler |
| ComfyUi.EndNodesConcat | prompt-reader-android/app/src/main/java/com/promptreader/android/parser/ComfyUiParser.kt:29-35 | the end nodes keep the key order: those of a concatenation of ids are those of the first part followed by those of the second |
| ComfyUi.EndNodesOne | prompt-reader-android/app/src/main/java/com/promptreader/android/parser/ComfyUiParser.kt:29-35 | a single id is kept exactly when its class is an image saver or a sampler |
| ComfyUi.Traversals | prompt-reader-android/app/src/main/java/com/promptreader/android/parser/ComfyUiParser.kt:44-46 | one fresh traversal per end node, in order; the only failure is stack overflow |
| ComfyUi.PickBest | prompt-reader-android/app/src/main/java/com/promptreader/android/parser/ComfyUiParser.kt:42-53 | the winner visits the most nodes and is the earliest on a tie; none wins exactly when no traversal visits anything |
| ComfyUi.Parse | prompt-reader-android/app/src/main/java/com/promptreader/android/parser/ComfyUiParser.kt:27-67 | a non-object text throws; a result is labelled ComfyUI with trimmed prompts; the only other failure is stack overflow |
| ComfyUi.Assemble | prompt-reader-android/app/src/main/java/com/promptreader/android/parser/ComfyUiParser.kt:55-66 | prompts are the winner's trimmed prompts and the setting is built from its flow, all empty without a winner; the raw text joins the non-empty prompts, the graph and a non-blank workflow with newlines |
| ComfyUi.ParseReportsBestRun | prompt-reader-android/app/src/main/java/com/promptreader/android/parser/ComfyUiParser.kt:42-66 | once every end node is traversed, the result is assembled from the run that visits the most nodes, the earliest on a tie, and from no run when none visits anything |
| ComfyUi.BestRunIsPicked | prompt-reader-android/app/src/main/java/com/promptreader/android/parser/ComfyUiParser.kt:43-53 | the run the loop keeps is the unique one that visits the most nodes and comes first among those |
| ComfyUi.NoEndNodes | prompt-reader-android/app/src/main/java/com/promptreader/android/parser/ComfyUiParser.kt:27-67 | a graph without end nodes gives empty fields; the raw text is the graph, then the workflow when given |
| MergeUtil.MergeDict | prompt-reader-kotlin/core/src/main/kotlin/com/promptreader/core/parse/MergeUtil.kt:4-18 | an empty side gives the other map; the keys are the union, and a's keys keep their order in front |
| MergeUtil.MergeIntoFind | prompt-reader-kotlin/core/src/main/kotlin/com/promptreader/core/parse/MergeUtil.kt:9-16 | each key of b holds what its member made of the value found; other keys are untouched |
| MergeUtil.KeptFromA | prompt-reader-kotlin/core/src/main/kotlin/com/promptreader/core/parse/MergeUtil.kt:4-18 | a key only in a keeps its value |
| MergeUtil.TakenFromB | prompt-reader-kotlin/core/src/main/kotlin/com/promptreader/core/parse/MergeUtil.kt:10-12 | a key missing or null in a takes b's value |
| MergeUtil.Collision | prompt-reader-kotlin/core/src/main/kotlin/com/promptreader/core/parse/MergeUtil.kt:13-24 | a collision appends to an existing list, or else gives `[incoming, existing]` |
| MergeUtil.MergeValue | prompt-reader-kotlin/core/src/main/kotlin/com/promptreader/core/parse/MergeUtil.kt:20-24 | the merge is always a list: an existing list gains `incoming` as one more element at its end, any other value gives `[incoming, existing]` |
| TextUtil.RemoveQuotes | prompt-reader-kotlin/core/src/main/kotlin/com/promptreader/core/parse/TextUtil.kt:4-5 | null gives ""; the result has no quotes and holds exactly the other characters of the input |
| TextUtil.RemoveQuotesConcat | prompt-reader-kotlin/core/src/main/kotlin/com/promptreader/core/parse/TextUtil.kt:4-5 | quote removal keeps the order of the other characters: removing from a concatenation removes from each half |
| TextUtil.RemoveQuotesOne | prompt-reader-kotlin/core/src/main/kotlin/com/promptreader/core/parse/TextUtil.kt:4-5 | a single double or single quote is dropped and any other character is kept |
| Text.RemoveCharConcat | prompt-reader-android/app/src/main/java/com/promptreader/android/parser/FooocusParser.kt:22 | deleting one character keeps the order of the rest: deleting from a concatenation deletes from each half |
| Text.RemoveCharOne | prompt-reader-android/app/src/main/java/com/promptreader/android/parser/FooocusParser.kt:22 | a single character is dropped when it is the deleted one and kept otherwise |
| TextUtil.RemoveQuotesIdempotent | prompt-reader-kotlin/core/src/main/kotlin/com/promptreader/core/parse/TextUtil.kt:4-5 | removing quotes twice is removing them once |
| TextUtil.Concat | prompt-reader-kotlin/core/src/main/kotlin/com/promptreader/core/parse/TextUtil.kt:7-11 | a blank base gives the addition; a non-blank base opens the result and a non-blank addition ends it, with the separator between when both are non-blank |
| TextUtil.ConcatJoinsNonBlank | prompt-reader-kotlin/core/src/main/kotlin/com/promptreader/core/parse/TextUtil.kt:7-11 | unless both are blank, `concat` joins the non-blank parts with the separator |
| TextUtil.ConcatBlank | prompt-reader-kotlin/core/src/main/kotlin/com/promptreader/core/parse/TextUtil.kt:7-11 | the result is blank exactly when both parts are |
| TextUtil.MapToSettingString | prompt-reader-kotlin/core/src/main/kotlin/com/promptreader/core/parse/TextUtil.kt:13-16 | the settings string has no quotes and no surrounding whitespace |
| TextUtil.OneBracePair | prompt-reader-kotlin/core/src/main/kotlin/com/promptreader/core/parse/TextUtil.kt:13-16 | a braced map text loses only its outer braces and padding |
| TextUtil.NestedBracesKept | prompt-reader-kotlin/core/src/main/kotlin/com/promptreader/core/parse/TextUtil.kt:13-16 | inner braces survive, unlike with `trim('{', '}')` |
| OrderedMap.Put | prompt-reader-android/app/src/main/java/com/promptreader/android/png/PngTextChunkReader.kt:46 | `out[k] = v` maps k to v, leaves other keys alone, keeps existing keys in place and appends a new key |
| OrderedMap.Remove | prompt-reader-android/app/src/main/java/com/promptreader/android/parser/NovelAiParser.kt:39 | `remove(k)` drops k and only k |
| OrderedMap.Overlay | prompt-reader-android/app/src/main/java/com/promptreader/android/parser/NovelAiParser.kt:35-37 | putting every member of a top map keeps the base order and the base values of keys the top lacks |
| OrderedMap.OverlayTopWins | prompt-reader-android/app/src/main/java/com/promptreader/android/parser/NovelAiParser.kt:35-37 | keys of the top map take the top's values |
| OrderedMap.RemoveKeysIsWithout | prompt-reader-android/app/src/main/java/com/promptreader/android/parser/FooocusParser.kt:18-20 | successive `remove` calls equal filtering out the keys |

## Left out

- Opening the content URI, `ExifInterface`, and `BitmapFactory.decodeStream` are not modelled. Their results (the file's bytes, the three EXIF tags, the decoded bitmap or none) are inputs of `PromptReader.Parse`. A failure to open the stream is not modelled.
- The `detectionPath`, `settingEntries` and `settingDetail` fields of the result are not modelled. They are diagnostics that no branch decision depends on.
- `ComfyUiParser.parseWorkflow` is called by the cascade but is not in ComfyUiParser.kt. It is not part of this model: it is an uninterpreted `Codecs` function whose failure is `WorkflowParseFailed`.
- `org.json` tokenizing and serialising, zlib inflation, gunzip and UTF-8 decoding are uninterpreted `Codecs` functions. No property depends on their internals.
- `JSONObject(obj.toString())`, the copy each JSON parser makes, is taken to give back the same members in the same order.
- `JSONTokener(text).nextValue()` on padded text is not assumed to agree with its reading of trimmed text. PromptReader.PngFooocusSucceeds therefore takes that agreement as a precondition.
- A JVM stack overflow in `traverse` depends on stack depth, which is not modelled. Only the unbounded recursion of a cyclic `traverseToText` chain is modelled, as `StackOverflow`. `traverse` itself always terminates because it marks nodes visited.
- The `List` branch of `firstLink` is not modelled. Values read from a `JSONObject` are never Kotlin lists.
- MergeUtil.MergeDict models `Any?` as a small value type (null, list, other). A map whose `toString` refers to itself is out of scope.
- StealthDecoder.TryDecode compares the magic with the decoded bytes, not with their UTF-8 text. For this ASCII magic the two tests agree, because UTF-8 decoding yields an ASCII character only from that same byte.
- `readNBytesCompat` is modelled by its result only (PromptReader.Header). Short reads from the stream are not modelled.
- PngTextChunks.ChunkAt does not model arrays too large to allocate: a huge positive length fails at end of stream rather than with an out-of-memory error.
