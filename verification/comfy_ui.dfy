/** `ComfyUiParser.parse`: reads the positive and negative prompt texts and the
    sampler settings out of a ComfyUI prompt graph.

    The graph is a JSON object from node id to node; a node has a `class_type`
    and an `inputs` object, and an input holding `[id, index]` is a link to the
    output of node `id`. Traversal starts from every end node (an image saver or
    a sampler) and the traversal that visits the most nodes wins. */
module ComfyUi {
  import opened Wrappers
  import opened Text
  import opened OrderedMap
  import opened Json
  import opened Codecs
  import opened Results

  const KSAMPLER_TYPES: set<string> := {"KSampler", "KSamplerAdvanced", "KSampler (Efficient)"}
  const SAVE_IMAGE_TYPES: set<string> := {"SaveImage", "Image Save", "SDPromptSaver"}
  const CLIP_TEXT_TYPES: set<string> := {"CLIPTextEncode", "CLIPTextEncodeSDXL", "CLIPTextEncodeSDXLRefiner"}

  /** The inputs `traverseToText` accepts a string from, in order of preference. */
  const TEXT_CANDIDATES: seq<string> := ["text", "positive", "prompt", "string"]

  /** The inputs a text encoder takes its text from, in order of preference. */
  const CLIP_TEXT_INPUTS: seq<string> := ["text", "text_g", "text_l"]

  // ----- Reading nodes -----

  /** `node.optString("class_type", "")`. */
  function ClassType(ser: Json -> string, node: Obj): string {
    OptString(ser, node, "class_type", "")
  }

  /** The node's `inputs` object, or no inputs when it has none. */
  function InputsOf(node: Obj): (r: Obj)
    ensures OptObject(node, "inputs").None? ==> r == []
  {
    OptObject(node, "inputs").GetOr([])
  }

  /** `firstLink`: the first element of an array, as text; nothing for an empty
      array or a value that is not an array. (`org.json` never hands out a
      Kotlin `List`, so that branch of the source cannot be taken.) */
  function FirstLink(ser: Json -> string, v: Option<Json>): (r: Option<string>)
    ensures r.Some? <==> v.Some? && v.value.JArr? && |v.value.items| > 0
    ensures r.Some? ==> r.value == ValueText(ser, v.value.items[0])
  {
    match v
    case Some(JArr(items)) => if |items| > 0 then Some(ValueText(ser, items[0])) else None
    case _ => None
  }

  /** The link of an entry's value. */
  function EntryLink(ser: Json -> string, e: Entry<Json>): Option<string> {
    FirstLink(ser, Some(e.value))
  }

  /** The link of the first input, in key order, that holds one. */
  function FirstLinkIn(ser: Json -> string, inputs: Obj): (r: Option<string>)
    ensures r.None? <==> forall i :: 0 <= i < |inputs| ==> EntryLink(ser, inputs[i]).None?
    ensures r.Some? ==> exists i :: (0 <= i < |inputs| && EntryLink(ser, inputs[i]) == r &&
      forall j :: 0 <= j < i ==> EntryLink(ser, inputs[j]).None?)
  {
    if |inputs| == 0 then None
    else if EntryLink(ser, inputs[0]).Some? then EntryLink(ser, inputs[0])
    else
      var r := FirstLinkIn(ser, inputs[1..]);
      assert forall i :: 1 <= i < |inputs| ==> inputs[1..][i - 1] == inputs[i];
      if r.Some? then
        ghost var i :| 0 <= i < |inputs[1..]| && EntryLink(ser, inputs[1..][i]) == r &&
          forall j :: 0 <= j < i ==> EntryLink(ser, inputs[1..][j]).None?;
        assert EntryLink(ser, inputs[i + 1]) == r;
        r
      else r
  }

  /** The value of the first of `names` present among the inputs. */
  function FirstPresent(inputs: Obj, names: seq<string>): (r: Option<Json>)
    ensures r.None? <==> forall i :: 0 <= i < |names| ==> !Has(inputs, names[i])
    ensures r.Some? ==> exists i :: (0 <= i < |names| && Find(inputs, names[i]) == r &&
      forall j :: 0 <= j < i ==> !Has(inputs, names[j]))
  {
    if |names| == 0 then None
    else if Has(inputs, names[0]) then Find(inputs, names[0])
    else
      var r := FirstPresent(inputs, names[1..]);
      if r.Some? then
        ghost var i :| 0 <= i < |names[1..]| && Find(inputs, names[1..][i]) == r &&
          forall j :: 0 <= j < i ==> !Has(inputs, names[1..][j]);
        assert Find(inputs, names[i + 1]) == r;
        r
      else r
  }

  /** A present value that is a JSON string. */
  predicate IsText(v: Option<Json>) {
    v.Some? && v.value.JStr?
  }

  /** The first of `names` whose input holds a JSON string, and that string. */
  function TextCandidate(inputs: Obj, names: seq<string>): (r: Option<string>)
    ensures r.None? <==> forall i :: 0 <= i < |names| ==> !IsText(Find(inputs, names[i]))
    ensures r.Some? ==> exists i :: (0 <= i < |names| && Find(inputs, names[i]) == Some(JStr(r.value)) &&
      forall j :: 0 <= j < i ==> !IsText(Find(inputs, names[j])))
  {
    if |names| == 0 then None
    else if IsText(Find(inputs, names[0])) then Some(Find(inputs, names[0]).value.s)
    else
      var r := TextCandidate(inputs, names[1..]);
      if r.Some? then
        ghost var i :| 0 <= i < |names[1..]| && Find(inputs, names[1..][i]) == Some(JStr(r.value)) &&
          forall j :: 0 <= j < i ==> !IsText(Find(inputs, names[1..][j]));
        assert Find(inputs, names[i + 1]) == Some(JStr(r.value));
        r
      else r
  }

  /** What `traverseToText` does at one node, apart from traversing it: a text
      found, a link to follow, or nothing. */
  datatype TextStep = Found(text: string) | Follow(upstream: string) | NoText

  function TextStepOf(ser: Json -> string, node: Obj): (r: TextStep)
    ensures ClassType(ser, node) == "CLIPTextEncode" && IsText(Find(InputsOf(node), "text")) ==>
      r == Found(Find(InputsOf(node), "text").value.s)
    ensures ClassType(ser, node) != "CLIPTextEncode" && TextCandidate(InputsOf(node), TEXT_CANDIDATES).Some? ==>
      r == Found(TextCandidate(InputsOf(node), TEXT_CANDIDATES).value)
    ensures ClassType(ser, node) == "CLIPTextEncode" && !IsText(Find(InputsOf(node), "text")) ==>
      var link := FirstLink(ser, Find(InputsOf(node), "text"));
      (link.Some? ==> r == Follow(link.value)) && (link.None? ==> r == NoText)
    ensures ClassType(ser, node) != "CLIPTextEncode" && TextCandidate(InputsOf(node), TEXT_CANDIDATES).None? ==>
      var link := FirstLinkIn(ser, InputsOf(node));
      (link.Some? ==> r == Follow(link.value)) && (link.None? ==> r == NoText)
    ensures r.NoText? <==>
      if ClassType(ser, node) == "CLIPTextEncode" then
        !IsText(Find(InputsOf(node), "text")) && FirstLink(ser, Find(InputsOf(node), "text")).None?
      else
        (forall i :: 0 <= i < |TEXT_CANDIDATES| ==> !IsText(Find(InputsOf(node), TEXT_CANDIDATES[i]))) &&
        (forall i :: 0 <= i < |InputsOf(node)| ==> EntryLink(ser, InputsOf(node)[i]).None?)
  {
    var inputs := InputsOf(node);
    if ClassType(ser, node) == "CLIPTextEncode" then
      var text := Find(inputs, "text");
      if IsText(text) then Found(text.value.s)
      else
        match FirstLink(ser, text)
        case Some(up) => Follow(up)
        case None => NoText
    else
      match TextCandidate(inputs, TEXT_CANDIDATES)
      case Some(s) => Found(s)
      case None =>
        match FirstLinkIn(ser, inputs)
        case Some(up) => Follow(up)
        case None => NoText
  }

  // ----- The traversal -----

  /** `TraverseContext`: the nodes visited, the scalar sampler inputs collected
      (`flow`), and the texts found for the positive and negative prompts. */
  datatype Ctx = Ctx(visited: set<string>, flow: Map<Json>, positive: string, negative: string)

  const EMPTY_CTX := Ctx({}, [], "", "")

  /** The node ids of the graph not yet visited: the traversal's measure. */
  function Remaining(prompt: Obj, visited: set<string>): nat {
    |KeySet(prompt) - visited|
  }

  lemma SubsetCard(a: set<string>, b: set<string>, x: string)
    requires a <= b
    ensures |a| <= |b|
    ensures x in b && x !in a ==> |a| < |b|
    decreases b
  {
    if b == {} {
      assert a == {};
    } else {
      var y :| y in b;
      SubsetCard(a - {y}, b - {y}, x);
    }
  }

  /** Visiting more nodes leaves fewer; visiting a node of the graph for the first time leaves strictly fewer. */
  lemma RemainingShrinks(prompt: Obj, a: set<string>, b: set<string>, x: string)
    requires a <= b
    ensures Remaining(prompt, b) <= Remaining(prompt, a)
    ensures x in KeySet(prompt) && x !in a && x in b ==> Remaining(prompt, b) < Remaining(prompt, a)
  {
    var keys := KeySet(prompt);
    SubsetCard(keys - b, keys - a, x);
  }

  /** A node found in the graph has its id among the graph's keys. */
  lemma NodeIsKey(prompt: Obj, x: string)
    requires OptObject(prompt, x).Some?
    ensures x in KeySet(prompt)
  {
  }

  /** `traverse(nodeId)`. A node already visited is skipped; otherwise it is
      marked visited and, when the graph holds it, its class decides what is
      followed: an image saver follows its `images` link, a sampler goes
      through its inputs, a text encoder resolves its text link, and any
      other node follows its first link. */
  function Traverse(ser: Json -> string, prompt: Obj, ctx: Ctx, x: string): (r: Outcome<Ctx>)
    ensures x in ctx.visited ==> r == Ok(ctx)
    ensures r.Ok? ==> ctx.visited + {x} <= r.value.visited
    ensures r.Ok? || r == Throws(StackOverflow)
    decreases Remaining(prompt, ctx.visited), 1, 0
  {
    if x in ctx.visited then Ok(ctx)
    else
      var ctx1 := ctx.(visited := ctx.visited + {x});
      match OptObject(prompt, x)
      case None => Ok(ctx1)
      case Some(node) =>
        NodeIsKey(prompt, x);
        RemainingShrinks(prompt, ctx.visited, ctx1.visited, x);
        var cls := ClassType(ser, node);
        var inputs := InputsOf(node);
        if cls in SAVE_IMAGE_TYPES then
          match FirstLink(ser, Find(inputs, "images"))
          case Some(up) => Traverse(ser, prompt, ctx1, up)
          case None => Ok(ctx1)
        else if cls in KSAMPLER_TYPES then
          var ctx2 :- SamplerInputs(ser, prompt, ctx1, inputs);
          Ok(WithCheckpoint(ser, prompt, ctx2, inputs))
        else if cls in CLIP_TEXT_TYPES then
          match FirstLink(ser, FirstPresent(inputs, CLIP_TEXT_INPUTS))
          case Some(up) =>
            var found :- TextOf(ser, prompt, ctx1, up, {});
            Ok(found.0)
          case None => Ok(ctx1)
        else
          match FirstLinkIn(ser, inputs)
          case Some(up) => Traverse(ser, prompt, ctx1, up)
          case None => Ok(ctx1)
  }

  /** The loop over the inputs of a sampler node, in key order: `positive` and
      `negative` links are resolved to texts, which replace the ones held
      (a link without a text keeps them); any other linked input is
      traversed; an input without a link is recorded in `flow`. */
  function SamplerInputs(ser: Json -> string, prompt: Obj, ctx: Ctx, inputs: Obj): (r: Outcome<Ctx>)
    ensures r.Ok? ==> ctx.visited <= r.value.visited
    ensures r.Ok? || r == Throws(StackOverflow)
    decreases Remaining(prompt, ctx.visited) + 1, 0, |inputs|
  {
    if |inputs| == 0 then Ok(ctx)
    else
      var key, v := inputs[0].key, inputs[0].value;
      var up := FirstLink(ser, Some(v));
      var next: Outcome<Ctx> :=
        if key == "positive" || key == "negative" then
          if up.None? then Ok(ctx)
          else
            var found :- TextOf(ser, prompt, ctx, up.value, {});
            if found.1.None? then Ok(found.0)
            else if key == "positive" then Ok(found.0.(positive := found.1.value))
            else Ok(found.0.(negative := found.1.value))
        else if up.Some? then Traverse(ser, prompt, ctx, up.value)
        else Ok(ctx.(flow := Put(ctx.flow, key, v)));
      if !next.Ok? then next
      else
        RemainingShrinks(prompt, ctx.visited, next.value.visited, key);
        SamplerInputs(ser, prompt, next.value, inputs[1..])
  }

  /** The inputs of the node a sampler's `model` input links to, when that
      node is in the graph and has an `inputs` object. */
  function ModelInputs(ser: Json -> string, prompt: Obj, inputs: Obj): Option<Obj> {
    match FirstLink(ser, Find(inputs, "model"))
    case None => None
    case Some(up) =>
      match OptObject(prompt, up)
      case None => None
      case Some(modelNode) => OptObject(modelNode, "inputs")
  }

  /** After a sampler's inputs: when its `model` input links to a node whose
      inputs hold a non-blank `ckpt_name`, that name is recorded in `flow`. */
  function WithCheckpoint(ser: Json -> string, prompt: Obj, ctx: Ctx, inputs: Obj): (r: Ctx)
    ensures r.visited == ctx.visited && r.positive == ctx.positive && r.negative == ctx.negative
    ensures r.flow == ctx.flow || exists name :: !IsBlank(name) && r.flow == Put(ctx.flow, "ckpt_name", JStr(name))
    ensures FirstLink(ser, Find(inputs, "model")).None? ==> r == ctx
    ensures ModelInputs(ser, prompt, inputs).None? ==> r == ctx
    ensures ModelInputs(ser, prompt, inputs).Some? ==>
      var name := OptStringOrNone(ser, ModelInputs(ser, prompt, inputs).value, "ckpt_name");
      (name.None? || IsBlank(name.value) ==> r == ctx) &&
      (name.Some? && !IsBlank(name.value) ==>
        Find(r.flow, "ckpt_name") == Some(JStr(name.value)) &&
        forall k :: k != "ckpt_name" ==> Find(r.flow, k) == Find(ctx.flow, k))
  {
    var ckpt :=
      match ModelInputs(ser, prompt, inputs)
      case None => None
      case Some(modelInputs) => OptStringOrNone(ser, modelInputs, "ckpt_name");
    if ckpt.Some? && !IsBlank(ckpt.value) then ctx.(flow := Put(ctx.flow, "ckpt_name", JStr(ckpt.value)))
    else ctx
  }

  /** `traverseToText(nodeId)`: the node is traversed, then its text is taken
      or its link followed. `seen` holds the nodes of the current chain of
      `traverseToText` calls: coming back to one of them means the same
      chain repeats without end, every node on it being visited already, so
      the recursion overflows the stack. */
  function TextOf(ser: Json -> string, prompt: Obj, ctx: Ctx, x: string, seen: set<string>): (r: Outcome<(Ctx, Option<string>)>)
    ensures x in seen ==> r == Throws(StackOverflow)
    ensures r.Ok? ==> ctx.visited + {x} <= r.value.0.visited
    ensures r.Ok? || r == Throws(StackOverflow)
    decreases Remaining(prompt, ctx.visited), 2 + |KeySet(prompt) - seen|, 0
  {
    if x in seen then Throws(StackOverflow)
    else
      var ctx2 :- Traverse(ser, prompt, ctx, x);
      match OptObject(prompt, x)
      case None => Ok((ctx2, None))
      case Some(node) =>
        match TextStepOf(ser, node)
        case Found(text) => Ok((ctx2, Some(text)))
        case NoText => Ok((ctx2, None))
        case Follow(up) =>
          NodeIsKey(prompt, x);
          RemainingShrinks(prompt, ctx.visited, ctx2.visited, x);
          SeenGrows(prompt, seen, x);
          TextOf(ser, prompt, ctx2, up, seen + {x})
  }

  lemma SeenGrows(prompt: Obj, seen: set<string>, x: string)
    requires x in KeySet(prompt) && x !in seen
    ensures |KeySet(prompt) - (seen + {x})| < |KeySet(prompt) - seen|
  {
    SubsetCard(KeySet(prompt) - (seen + {x}), KeySet(prompt) - seen, x);
  }

  /** The reference for `traverseToText`'s result, from the graph alone:
      follow the chain of links from node to node until a text is found, the
      chain ends, or it comes back on itself. */
  function ChainText(ser: Json -> string, prompt: Obj, x: string, seen: set<string>): Outcome<Option<string>>
    decreases |KeySet(prompt) - seen|
  {
    if x in seen then Throws(StackOverflow)
    else
      match OptObject(prompt, x)
      case None => Ok(None)
      case Some(node) =>
        match TextStepOf(ser, node)
        case Found(text) => Ok(Some(text))
        case NoText => Ok(None)
        case Follow(up) =>
          NodeIsKey(prompt, x);
          SeenGrows(prompt, seen, x);
          ChainText(ser, prompt, up, seen + {x})
  }

  /** The text `traverseToText` returns does not depend on what was visited
      before: it is the text at the end of the node's chain of links. */
  lemma {:induction false} TextOfFollowsChain(ser: Json -> string, prompt: Obj, ctx: Ctx, x: string, seen: set<string>)
    requires TextOf(ser, prompt, ctx, x, seen).Ok?
    ensures ChainText(ser, prompt, x, seen) == Ok(TextOf(ser, prompt, ctx, x, seen).value.1)
    decreases |KeySet(prompt) - seen|
  {
    var ctx2 := Traverse(ser, prompt, ctx, x).value;
    match OptObject(prompt, x)
    case None =>
    case Some(node) =>
      match TextStepOf(ser, node)
      case Found(text) =>
      case NoText =>
      case Follow(up) =>
        NodeIsKey(prompt, x);
        SeenGrows(prompt, seen, x);
        TextOfFollowsChain(ser, prompt, ctx2, up, seen + {x});
  }

  /** A chain that comes back on itself makes `traverseToText` overflow, whatever was visited before. */
  lemma {:induction false} CyclicChainOverflows(ser: Json -> string, prompt: Obj, ctx: Ctx, x: string, seen: set<string>)
    requires ChainText(ser, prompt, x, seen) == Throws(StackOverflow)
    ensures TextOf(ser, prompt, ctx, x, seen) == Throws(StackOverflow)
    decreases |KeySet(prompt) - seen|
  {
    if x !in seen {
      var t := Traverse(ser, prompt, ctx, x);
      if t.Ok? {
        var node := OptObject(prompt, x).value;
        var up := TextStepOf(ser, node).upstream;
        NodeIsKey(prompt, x);
        SeenGrows(prompt, seen, x);
        CyclicChainOverflows(ser, prompt, t.value, up, seen + {x});
      }
    }
  }

  // ----- The flow collected from a sampler -----

  /** The inputs of a sampler recorded in `flow`: neither `positive` nor
      `negative`, and not a link. */
  function ScalarInputs(ser: Json -> string, inputs: Obj): (r: Obj)
    ensures forall i :: 0 <= i < |r| ==> r[i] in inputs
    ensures forall e :: e in inputs && e.key != "positive" && e.key != "negative" && EntryLink(ser, e).None? ==> e in r
  {
    if |inputs| == 0 then []
    else
      var e := inputs[0];
      (if e.key != "positive" && e.key != "negative" && EntryLink(ser, e).None? then [e] else []) + ScalarInputs(ser, inputs[1..])
  }

  /** No input holds a link. */
  predicate NoLinks(ser: Json -> string, inputs: Obj) {
    |inputs| == 0 || (EntryLink(ser, inputs[0]).None? && NoLinks(ser, inputs[1..]))
  }

  /** A sampler input without a link is recorded in `flow` (unless it is
      `positive` or `negative`), and the loop goes on with the next input. */
  lemma SamplerStepWithoutLink(ser: Json -> string, prompt: Obj, ctx: Ctx, inputs: Obj)
    requires |inputs| > 0 && EntryLink(ser, inputs[0]).None?
    ensures var e := inputs[0];
      var next := if e.key == "positive" || e.key == "negative" then ctx else ctx.(flow := Put(ctx.flow, e.key, e.value));
      SamplerInputs(ser, prompt, ctx, inputs) == SamplerInputs(ser, prompt, next, inputs[1..])
  {
  }

  /** A linked `positive` or `negative` sampler input is resolved with
      `traverseToText`: a text replaces the one held for that prompt, no text
      keeps it, an overflow ends the loop; then the loop goes on with the next
      input, so the last such input with a text decides. */
  lemma SamplerStepPrompt(ser: Json -> string, prompt: Obj, ctx: Ctx, inputs: Obj)
    requires |inputs| > 0 && (inputs[0].key == "positive" || inputs[0].key == "negative")
    requires EntryLink(ser, inputs[0]).Some?
    ensures var found := TextOf(ser, prompt, ctx, EntryLink(ser, inputs[0]).value, {});
      found.Ok? ==>
        var next :=
          if found.value.1.None? then found.value.0
          else if inputs[0].key == "positive" then found.value.0.(positive := found.value.1.value)
          else found.value.0.(negative := found.value.1.value);
        SamplerInputs(ser, prompt, ctx, inputs) == SamplerInputs(ser, prompt, next, inputs[1..])
    ensures var found := TextOf(ser, prompt, ctx, EntryLink(ser, inputs[0]).value, {});
      !found.Ok? ==> SamplerInputs(ser, prompt, ctx, inputs) == Throws(StackOverflow)
  {
  }

  /** Any other linked sampler input is traversed, and the loop goes on from
      the context that traversal leaves. */
  lemma SamplerStepLinked(ser: Json -> string, prompt: Obj, ctx: Ctx, inputs: Obj)
    requires |inputs| > 0 && inputs[0].key != "positive" && inputs[0].key != "negative"
    requires EntryLink(ser, inputs[0]).Some?
    ensures var t := Traverse(ser, prompt, ctx, EntryLink(ser, inputs[0]).value);
      t.Ok? ==> SamplerInputs(ser, prompt, ctx, inputs) == SamplerInputs(ser, prompt, t.value, inputs[1..])
    ensures var t := Traverse(ser, prompt, ctx, EntryLink(ser, inputs[0]).value);
      !t.Ok? ==> SamplerInputs(ser, prompt, ctx, inputs) == Throws(StackOverflow)
  {
  }

  lemma OverlayCons<V>(base: Map<V>, e: Entry<V>, rest: Map<V>)
    ensures Overlay(base, [e] + rest) == Overlay(Put(base, e.key, e.value), rest)
  {
    assert ([e] + rest)[1..] == rest;
  }

  /** A sampler whose inputs hold no links only records its scalar inputs,
      in key order, over the flow held before, and changes nothing else. */
  lemma {:induction false} SamplerWithoutLinks(ser: Json -> string, prompt: Obj, ctx: Ctx, inputs: Obj)
    requires NoLinks(ser, inputs)
    ensures SamplerInputs(ser, prompt, ctx, inputs) == Ok(ctx.(flow := Overlay(ctx.flow, ScalarInputs(ser, inputs))))
    decreases |inputs|
  {
    if |inputs| > 0 {
      var e := inputs[0];
      var rest := ScalarInputs(ser, inputs[1..]);
      SamplerStepWithoutLink(ser, prompt, ctx, inputs);
      if e.key == "positive" || e.key == "negative" {
        assert ScalarInputs(ser, inputs) == rest;
        SamplerWithoutLinks(ser, prompt, ctx, inputs[1..]);
      } else {
        assert ScalarInputs(ser, inputs) == [e] + rest;
        var next := ctx.(flow := Put(ctx.flow, e.key, e.value));
        SamplerWithoutLinks(ser, prompt, next, inputs[1..]);
        OverlayCons(ctx.flow, e, rest);
      }
    }
  }

  // ----- The setting line -----

  /** A present value's text, unless that text reads `null`. */
  function Shown(ser: Json -> string, v: Option<Json>): (r: Option<string>)
    ensures r.Some? <==> v.Some? && ValueText(ser, v.value) != "null"
    ensures r.Some? ==> r.value == ValueText(ser, v.value)
  {
    match v
    case None => None
    case Some(j) => var t := ValueText(ser, j); if t != "null" then Some(t) else None
  }

  predicate IsQuote(c: char) {
    c == '"' || c == '\''
  }

  /** As `Shown`, with every leading and trailing double or single quote trimmed first. */
  function ShownUnquoted(ser: Json -> string, v: Option<Json>): (r: Option<string>)
    ensures r.Some? <==> v.Some? && TrimBy(ValueText(ser, v.value), IsQuote) != "null"
    ensures r.Some? && |r.value| > 0 ==> !IsQuote(r.value[0]) && !IsQuote(r.value[|r.value| - 1])
  {
    match v
    case None => None
    case Some(j) =>
      var t := TrimBy(ValueText(ser, j), IsQuote);
      assert |t| > 0 ==> !IsQuote(t[0]) && !IsQuote(t[|t| - 1]);
      if t != "null" then Some(t) else None
  }

  /** `name + text` when the text is there. */
  function Part(name: string, text: Option<string>): (r: seq<string>)
    ensures text.None? ==> r == []
    ensures text.Some? ==> r == [name + text.value]
  {
    match text
    case None => []
    case Some(t) => [name + t]
  }

  /** The size part: width, `x`, height, in decimal. */
  function SizeText(width: int, height: int): string {
    IntText(width) + "x" + IntText(height)
  }

  /** The setting parts of `buildSetting`, before they are joined. */
  function SettingParts(ser: Json -> string, flow: Map<Json>, width: Option<int>, height: Option<int>): seq<string> {
    var seed := if Has(flow, "seed") then Find(flow, "seed") else Find(flow, "noise_seed");
    var size := if width.Some? && height.Some? then Some(SizeText(width.value, height.value)) else None;
    Part("Steps: ", Shown(ser, Find(flow, "steps")))
    + (Part("Sampler: ", ShownUnquoted(ser, Find(flow, "sampler_name")))
    + (Part("CFG scale: ", Shown(ser, Find(flow, "cfg")))
    + (Part("Seed: ", Shown(ser, seed))
    + (Part("Size: ", size)
    + Part("Model: ", ShownUnquoted(ser, Find(flow, "ckpt_name")))))))
  }

  /** Every setting part carries its label, so none is empty. */
  lemma SettingPartsNonEmpty(ser: Json -> string, flow: Map<Json>, width: Option<int>, height: Option<int>)
    ensures NoneEmpty(SettingParts(ser, flow, width, height))
  {
    var seed := if Has(flow, "seed") then Find(flow, "seed") else Find(flow, "noise_seed");
    var size := if width.Some? && height.Some? then Some(SizeText(width.value, height.value)) else None;
    var p0 := Part("Steps: ", Shown(ser, Find(flow, "steps")));
    var p1 := Part("Sampler: ", ShownUnquoted(ser, Find(flow, "sampler_name")));
    var p2 := Part("CFG scale: ", Shown(ser, Find(flow, "cfg")));
    var p3 := Part("Seed: ", Shown(ser, seed));
    var p4 := Part("Size: ", size);
    var p5 := Part("Model: ", ShownUnquoted(ser, Find(flow, "ckpt_name")));
    LabelledPart("Model: ", ShownUnquoted(ser, Find(flow, "ckpt_name")));
    LabelledPart("Size: ", size);
    LabelledAppend(p4, p5);
    LabelledPart("Seed: ", Shown(ser, seed));
    LabelledAppend(p3, p4 + p5);
    LabelledPart("CFG scale: ", Shown(ser, Find(flow, "cfg")));
    LabelledAppend(p2, p3 + (p4 + p5));
    LabelledPart("Sampler: ", ShownUnquoted(ser, Find(flow, "sampler_name")));
    LabelledAppend(p1, p2 + (p3 + (p4 + p5)));
    LabelledPart("Steps: ", Shown(ser, Find(flow, "steps")));
    LabelledAppend(p0, p1 + (p2 + (p3 + (p4 + p5))));
  }

  predicate NoneEmpty(ps: seq<string>) {
    forall i :: 0 <= i < |ps| ==> |ps[i]| > 0
  }

  lemma LabelledPart(name: string, text: Option<string>)
    requires |name| > 0
    ensures NoneEmpty(Part(name, text))
  {
  }

  lemma LabelledAppend(a: seq<string>, b: seq<string>)
    requires NoneEmpty(a) && NoneEmpty(b)
    ensures NoneEmpty(a + b)
  {
    forall i | 0 <= i < |a + b| ensures |(a + b)[i]| > 0 {
      if i >= |a| { assert (a + b)[i] == b[i - |a|]; }
    }
  }

  /** `buildSetting`: the parts joined with `, `; empty exactly when no part is shown. */
  function BuildSetting(ser: Json -> string, flow: Map<Json>, width: Option<int>, height: Option<int>): (r: string)
    ensures r == "" <==> |SettingParts(ser, flow, width, height)| == 0
    ensures |SettingParts(ser, flow, width, height)| > 0 ==>
      var first := SettingParts(ser, flow, width, height)[0];
      |first| <= |r| && r[..|first|] == first
  {
    SettingPartsNonEmpty(ser, flow, width, height);
    Join(SettingParts(ser, flow, width, height), ", ")
  }

  /** Text with no quote at either end, which quote trimming leaves alone. */
  predicate Unquoted(s: string) {
    |s| == 0 || (!IsQuote(s[0]) && !IsQuote(s[|s| - 1]))
  }

  /** A flow holding every setting gives all six labels, in the fixed order, each
      followed by its value's text, and the size as `<width>x<height>`. */
  lemma FullSetting(ser: Json -> string, flow: Map<Json>, steps: string, sampler: string, cfg: string,
                    seed: string, model: string, width: int, height: int)
    requires Find(flow, "steps") == Some(JNum(steps)) && steps != "null"
    requires Find(flow, "sampler_name") == Some(JStr(sampler)) && Unquoted(sampler) && sampler != "null"
    requires Find(flow, "cfg") == Some(JNum(cfg)) && cfg != "null"
    requires Find(flow, "seed") == Some(JNum(seed)) && seed != "null"
    requires Find(flow, "ckpt_name") == Some(JStr(model)) && Unquoted(model) && model != "null"
    ensures SettingParts(ser, flow, Some(width), Some(height))
      == (["Steps: " + steps, "Sampler: " + sampler, "CFG scale: " + cfg, "Seed: " + seed,
               "Size: " + SizeText(width, height), "Model: " + model])
  {
    ShownNumber(ser, Find(flow, "steps"), steps);
    ShownNumber(ser, Find(flow, "cfg"), cfg);
    ShownNumber(ser, Find(flow, "seed"), seed);
    ShownName(ser, Find(flow, "sampler_name"), sampler);
    ShownName(ser, Find(flow, "ckpt_name"), model);
    SettingPartsShape(ser, flow, width, height, "Steps: " + steps, "Sampler: " + sampler, "CFG scale: " + cfg,
                      "Seed: " + seed, "Model: " + model);
  }

  /** The same flow gives the whole settings line: the six parts in their fixed
      order, joined with `, `. */
  lemma FullSettingText(ser: Json -> string, flow: Map<Json>, steps: string, sampler: string, cfg: string,
                        seed: string, model: string, width: int, height: int)
    requires Find(flow, "steps") == Some(JNum(steps)) && steps != "null"
    requires Find(flow, "sampler_name") == Some(JStr(sampler)) && Unquoted(sampler) && sampler != "null"
    requires Find(flow, "cfg") == Some(JNum(cfg)) && cfg != "null"
    requires Find(flow, "seed") == Some(JNum(seed)) && seed != "null"
    requires Find(flow, "ckpt_name") == Some(JStr(model)) && Unquoted(model) && model != "null"
    ensures BuildSetting(ser, flow, Some(width), Some(height))
      == ("Steps: " + steps) + ", " + ("Sampler: " + sampler) + ", " + ("CFG scale: " + cfg) + ", "
         + ("Seed: " + seed) + ", " + ("Size: " + SizeText(width, height)) + ", " + ("Model: " + model)
  {
    var parts := SettingParts(ser, flow, Some(width), Some(height));
    FullSetting(ser, flow, steps, sampler, cfg, seed, model, width, height);
    assert BuildSetting(ser, flow, Some(width), Some(height)) == Join(parts, ", ");
    JoinSix("Steps: " + steps, "Sampler: " + sampler, "CFG scale: " + cfg, "Seed: " + seed,
            "Size: " + SizeText(width, height), "Model: " + model, ", ");
  }

  /** Six parts joined with `sep` are the parts with `sep` between neighbours. */
  lemma JoinSix(x0: string, x1: string, x2: string, x3: string, x4: string, x5: string, sep: string)
    ensures Join([x0, x1, x2, x3, x4, x5], sep) == x0 + sep + x1 + sep + x2 + sep + x3 + sep + x4 + sep + x5
  {
    JoinCons(x4, [x5], sep);
    JoinCons(x3, [x4, x5], sep);
    JoinCons(x2, [x3, x4, x5], sep);
    JoinCons(x1, [x2, x3, x4, x5], sep);
    JoinCons(x0, [x1, x2, x3, x4, x5], sep);
    assert [x4] + [x5] == [x4, x5];
    assert [x3] + [x4, x5] == [x3, x4, x5];
    assert [x2] + [x3, x4, x5] == [x2, x3, x4, x5];
    assert [x1] + [x2, x3, x4, x5] == [x1, x2, x3, x4, x5];
    assert [x0] + [x1, x2, x3, x4, x5] == [x0, x1, x2, x3, x4, x5];
  }

  lemma ShownNumber(ser: Json -> string, v: Option<Json>, t: string)
    requires v == Some(JNum(t)) && t != "null"
    ensures Shown(ser, v) == Some(t)
  {
  }

  lemma ShownName(ser: Json -> string, v: Option<Json>, t: string)
    requires v == Some(JStr(t)) && Unquoted(t) && t != "null"
    ensures ShownUnquoted(ser, v) == Some(t)
  {
    UnquotedKept(t);
  }

  /** The parts of a setting whose five flow fields each give one part. */
  lemma SettingPartsShape(ser: Json -> string, flow: Map<Json>, width: int, height: int,
                          x0: string, x1: string, x2: string, x3: string, x5: string)
    requires Has(flow, "seed")
    requires Part("Steps: ", Shown(ser, Find(flow, "steps"))) == [x0]
    requires Part("Sampler: ", ShownUnquoted(ser, Find(flow, "sampler_name"))) == [x1]
    requires Part("CFG scale: ", Shown(ser, Find(flow, "cfg"))) == [x2]
    requires Part("Seed: ", Shown(ser, Find(flow, "seed"))) == [x3]
    requires Part("Model: ", ShownUnquoted(ser, Find(flow, "ckpt_name"))) == [x5]
    ensures SettingParts(ser, flow, Some(width), Some(height)) == [x0, x1, x2, x3, "Size: " + SizeText(width, height), x5]
  {
    var p4 := Part("Size: ", Some(SizeText(width, height)));
    SixSingletons(Part("Steps: ", Shown(ser, Find(flow, "steps"))),
                  Part("Sampler: ", ShownUnquoted(ser, Find(flow, "sampler_name"))),
                  Part("CFG scale: ", Shown(ser, Find(flow, "cfg"))),
                  Part("Seed: ", Shown(ser, Find(flow, "seed"))), p4,
                  Part("Model: ", ShownUnquoted(ser, Find(flow, "ckpt_name"))),
                  x0, x1, x2, x3, "Size: " + SizeText(width, height), x5);
  }

  /** Without a `seed`, the seed part comes from `noise_seed` (the inputs of a
      `KSamplerAdvanced`). */
  lemma NoiseSeedFallback(ser: Json -> string, flow: Map<Json>, t: string, width: Option<int>, height: Option<int>)
    requires !Has(flow, "seed") && Find(flow, "noise_seed") == Some(JNum(t)) && t != "null"
    ensures "Seed: " + t in SettingParts(ser, flow, width, height)
  {
    ShownNumber(ser, Find(flow, "noise_seed"), t);
  }

  /** A `seed` that is JSON null still wins over `noise_seed` (it is not a Kotlin
      null, so `?:` does not fall back) and then prints nothing: the parts are
      those of the flow with neither seed at all. */
  lemma NullSeedHidesNoiseSeed(ser: Json -> string, flow: Map<Json>, width: Option<int>, height: Option<int>)
    requires Find(flow, "seed") == Some(JNull)
    ensures SettingParts(ser, flow, width, height) == SettingParts(ser, RemoveKeys(flow, ["seed", "noise_seed"]), width, height)
  {
    var bare := RemoveKeys(flow, ["seed", "noise_seed"]);
    ShownNothing(ser, Find(flow, "seed"));
    ShownNothing(ser, Find(bare, "noise_seed"));
    assert !Has(bare, "seed");
    SameParts(ser, flow, bare, width, height);
  }

  /** Two flows agreeing on the five fields other than the seed, and whose
      seeds both print nothing, give the same parts. */
  lemma SameParts(ser: Json -> string, a: Map<Json>, b: Map<Json>, width: Option<int>, height: Option<int>)
    requires forall k :: k in ["steps", "sampler_name", "cfg", "ckpt_name"] ==> Find(a, k) == Find(b, k)
    requires Shown(ser, if Has(a, "seed") then Find(a, "seed") else Find(a, "noise_seed")) == None
    requires Shown(ser, if Has(b, "seed") then Find(b, "seed") else Find(b, "noise_seed")) == None
    ensures SettingParts(ser, a, width, height) == SettingParts(ser, b, width, height)
  {
    assert Find(a, "steps") == Find(b, "steps");
    assert Find(a, "sampler_name") == Find(b, "sampler_name");
    assert Find(a, "cfg") == Find(b, "cfg");
    assert Find(a, "ckpt_name") == Find(b, "ckpt_name");
  }

  /** An absent value and a JSON null both print nothing. */
  lemma ShownNothing(ser: Json -> string, v: Option<Json>)
    requires v == None || v == Some(JNull)
    ensures Shown(ser, v) == None && ShownUnquoted(ser, v) == None
  {
    if v.Some? {
      assert ValueText(ser, v.value) == "null";
      assert Unquoted("null");
      UnquotedKept("null");
    }
  }

  /** With no size and every flow value JSON null, the setting is empty. */
  lemma NullFlowEmptySetting(ser: Json -> string, flow: Map<Json>, height: Option<int>)
    requires forall i :: 0 <= i < |flow| ==> flow[i].value == JNull
    ensures BuildSetting(ser, flow, None, height) == ""
  {
    NullOrAbsent(flow, "steps");
    ShownNothing(ser, Find(flow, "steps"));
    NullOrAbsent(flow, "sampler_name");
    ShownNothing(ser, Find(flow, "sampler_name"));
    NullOrAbsent(flow, "cfg");
    ShownNothing(ser, Find(flow, "cfg"));
    NullOrAbsent(flow, "seed");
    ShownNothing(ser, Find(flow, "seed"));
    NullOrAbsent(flow, "noise_seed");
    ShownNothing(ser, Find(flow, "noise_seed"));
    NullOrAbsent(flow, "ckpt_name");
    ShownNothing(ser, Find(flow, "ckpt_name"));
    ShownNothing(ser, if Has(flow, "seed") then Find(flow, "seed") else Find(flow, "noise_seed"));
    NoParts(ser, flow, height);
  }

  lemma NoParts(ser: Json -> string, flow: Map<Json>, height: Option<int>)
    requires Shown(ser, Find(flow, "steps")) == None && ShownUnquoted(ser, Find(flow, "sampler_name")) == None
    requires Shown(ser, Find(flow, "cfg")) == None && ShownUnquoted(ser, Find(flow, "ckpt_name")) == None
    requires Shown(ser, if Has(flow, "seed") then Find(flow, "seed") else Find(flow, "noise_seed")) == None
    ensures SettingParts(ser, flow, None, height) == []
  {
  }

  lemma NullOrAbsent(flow: Map<Json>, k: string)
    requires forall i :: 0 <= i < |flow| ==> flow[i].value == JNull
    ensures Find(flow, k) == None || Find(flow, k) == Some(JNull)
  {
  }

  /** Six one-element lists, nested to the right, are the list of their elements. */
  lemma SixSingletons(p0: seq<string>, p1: seq<string>, p2: seq<string>, p3: seq<string>, p4: seq<string>, p5: seq<string>,
                      x0: string, x1: string, x2: string, x3: string, x4: string, x5: string)
    requires p0 == [x0] && p1 == [x1] && p2 == [x2] && p3 == [x3] && p4 == [x4] && p5 == [x5]
    ensures p0 + (p1 + (p2 + (p3 + (p4 + p5)))) == [x0, x1, x2, x3, x4, x5]
  {
  }

  /** A part in front of a non-empty list is followed by `sep` and the rest's join. */
  lemma JoinCons(x: string, rest: seq<string>, sep: string)
    requires |rest| > 0
    ensures Join([x] + rest, sep) == x + sep + Join(rest, sep)
  {
    assert ([x] + rest)[1..] == rest;
  }

  lemma UnquotedKept(s: string)
    requires Unquoted(s)
    ensures TrimBy(s, IsQuote) == s
  {
    TrimStartIdentity(s, IsQuote);
    TrimEndIdentity(s, IsQuote);
  }

  /** Quotes around a model or sampler name are dropped from the setting. */
  lemma QuotesTrimmed(ser: Json -> string, s: string)
    requires Unquoted(s) && s != "null"
    ensures ShownUnquoted(ser, Some(JStr("'" + s + "'"))) == Some(s)
    ensures ShownUnquoted(ser, Some(JStr("\"" + s + "\""))) == Some(s)
  {
    QuotesAround(s, '\'');
    QuotesAround(s, '"');
  }

  lemma QuotesAround(s: string, q: char)
    requires Unquoted(s) && IsQuote(q)
    ensures TrimBy([q] + s + [q], IsQuote) == s
  {
    var t := [q] + s + [q];
    assert t[1..] == s + [q];
    assert TrimStart(t, IsQuote) == TrimStart(s + [q], IsQuote);
    if |s| > 0 {
      assert (s + [q])[0] == s[0];
      TrimStartIdentity(s + [q], IsQuote);
      assert (s + [q])[..|s + [q]| - 1] == s;
      TrimEndIdentity(s, IsQuote);
    } else {
      assert s + [q] == [q];
      assert TrimStart([q], IsQuote) == [];
    }
  }

  // ----- Choosing the traversal -----

  /** An end node: an object in the graph whose class is an image saver or a sampler. */
  predicate IsEndNode(ser: Json -> string, prompt: Obj, id: string) {
    OptObject(prompt, id).Some? && ClassType(ser, OptObject(prompt, id).value) in SAVE_IMAGE_TYPES + KSAMPLER_TYPES
  }

  /** The end node ids, in key order. */
  function EndNodes(ser: Json -> string, prompt: Obj, ids: seq<string>): (r: seq<string>)
    ensures forall i :: 0 <= i < |r| ==> r[i] in ids && IsEndNode(ser, prompt, r[i])
    ensures forall i :: 0 <= i < |ids| && IsEndNode(ser, prompt, ids[i]) ==> ids[i] in r
    ensures |r| <= |ids|
  {
    if |ids| == 0 then []
    else (if IsEndNode(ser, prompt, ids[0]) then [ids[0]] else []) + EndNodes(ser, prompt, ids[1..])
  }

  /** The end nodes keep the key order: those of a concatenation are those of
      the first part followed by those of the second. */
  lemma {:induction false} EndNodesConcat(ser: Json -> string, prompt: Obj, a: seq<string>, b: seq<string>)
    ensures EndNodes(ser, prompt, a + b) == EndNodes(ser, prompt, a) + EndNodes(ser, prompt, b)
  {
    if |a| == 0 {
      assert a + b == b;
    } else {
      assert (a + b)[0] == a[0] && (a + b)[1..] == a[1..] + b;
      EndNodesConcat(ser, prompt, a[1..], b);
    }
  }

  /** One id is kept exactly when it names an end node. */
  lemma EndNodesOne(ser: Json -> string, prompt: Obj, id: string)
    ensures EndNodes(ser, prompt, [id]) == if IsEndNode(ser, prompt, id) then [id] else []
  {
    assert [id][1..] == [];
  }

  /** One fresh traversal per end node, in order; the first failure ends the loop. */
  function Traversals(ser: Json -> string, prompt: Obj, ends: seq<string>): (r: Outcome<seq<Ctx>>)
    ensures r.Ok? ==> |r.value| == |ends|
    ensures r.Ok? ==> forall i :: 0 <= i < |ends| ==> Traverse(ser, prompt, EMPTY_CTX, ends[i]) == Ok(r.value[i])
    ensures r.Ok? || r == Throws(StackOverflow)
  {
    if |ends| == 0 then Ok([])
    else
      var first :- Traverse(ser, prompt, EMPTY_CTX, ends[0]);
      var rest :- Traversals(ser, prompt, ends[1..]);
      assert forall i :: 1 <= i < |ends| ==> ends[1..][i - 1] == ends[i];
      Ok([first] + rest)
  }

  /** The search for the run visiting strictly more nodes than the best so far,
      from index `i` on, the best so far being `best` (-1 for none yet) with
      `bestSize` nodes. */
  function PickBestFrom(runs: seq<Ctx>, i: nat, best: int, bestSize: nat): (r: int)
    requires i <= |runs|
    requires best == -1 ==> bestSize == 0
    requires best != -1 ==> 0 <= best < i && |runs[best].visited| == bestSize > 0
    requires forall j :: 0 <= j < i ==> |runs[j].visited| <= bestSize
    requires best != -1 ==> forall j :: 0 <= j < best ==> |runs[j].visited| < bestSize
    ensures r == -1 ==> forall j :: 0 <= j < |runs| ==> |runs[j].visited| == 0
    ensures r != -1 ==> 0 <= r < |runs| && |runs[r].visited| > 0
    ensures r != -1 ==> forall j :: 0 <= j < |runs| ==> |runs[j].visited| <= |runs[r].visited|
    ensures r != -1 ==> forall j :: 0 <= j < r ==> |runs[j].visited| < |runs[r].visited|
    decreases |runs| - i
  {
    if i == |runs| then best
    else if |runs[i].visited| > bestSize then PickBestFrom(runs, i + 1, i, |runs[i].visited|)
    else PickBestFrom(runs, i + 1, best, bestSize)
  }

  /** The traversal that visits the most nodes, the earliest one on a tie;
      -1 when no traversal visits anything. */
  function PickBest(runs: seq<Ctx>): (r: int)
    ensures r == -1 <==> forall j :: 0 <= j < |runs| ==> |runs[j].visited| == 0
    ensures r != -1 ==> 0 <= r < |runs| && |runs[r].visited| > 0
    ensures r != -1 ==> forall j :: 0 <= j < |runs| ==> |runs[j].visited| <= |runs[r].visited|
    ensures r != -1 ==> forall j :: 0 <= j < r ==> |runs[j].visited| < |runs[r].visited|
  {
    PickBestFrom(runs, 0, -1, 0)
  }

  /** `parse(promptJsonText, workflowText, width, height)`. */
  function Parse(c: Codecs, promptText: string, workflow: Option<string>, width: Option<int>, height: Option<int>): (r: Outcome<Parsed>)
    ensures c.parseJson(promptText).None? || !c.parseJson(promptText).value.JObj? ==> r == Throws(NotJsonObject)
    ensures r.Ok? ==> r.value.tool == "ComfyUI"
    ensures r.Ok? ==> Unpadded(r.value.positive) && Unpadded(r.value.negative)
    ensures r.Ok? || r == Throws(NotJsonObject) || r == Throws(StackOverflow)
  {
    var prompt :- FromOption(ParseObject(c, promptText), NotJsonObject);
    var ser := c.serialize;
    var runs :- Traversals(ser, prompt, EndNodes(ser, prompt, Keys(prompt)));
    var best := PickBest(runs);
    Ok(Assemble(ser, prompt, if best == -1 then None else Some(runs[best]), workflow, width, height))
  }

  /** The record `parse` returns, from the winning traversal when there is one. */
  function Assemble(ser: Json -> string, prompt: Obj, best: Option<Ctx>, workflow: Option<string>,
                    width: Option<int>, height: Option<int>): (r: Parsed)
    ensures r.tool == "ComfyUI"
    ensures Unpadded(r.positive) && Unpadded(r.negative)
    ensures best.None? ==> r.positive == "" && r.negative == "" && r.setting == ""
    ensures best.Some? ==> r.positive == Trim(best.value.positive) && r.negative == Trim(best.value.negative)
    ensures best.Some? ==> r.setting == BuildSetting(ser, best.value.flow, width, height)
    ensures r.raw == Join((if r.positive == "" then [] else [r.positive])
                          + (if r.negative == "" then [] else [r.negative])
                          + [ser(JObj(prompt))]
                          + (if workflow.None? || IsBlank(workflow.value) then [] else [workflow.value]), "\n")
  {
    // A blank prompt is one that trims to nothing.
    var positive := if best.None? then "" else Trim(best.value.positive);
    var negative := if best.None? then "" else Trim(best.value.negative);
    var setting := if best.None? then "" else BuildSetting(ser, best.value.flow, width, height);
    var raw :=
      (if positive == "" then [] else [positive])
      + (if negative == "" then [] else [negative])
      + [ser(JObj(prompt))]
      + (if workflow.None? || IsBlank(workflow.value) then [] else [workflow.value]);
    TrimIdentity("");
    Parsed("ComfyUI", positive, negative, setting, Join(raw, "\n"))
  }

  /** Run `b` visits the most nodes, and is the earliest to do so, and visits some. */
  predicate IsBestRun(runs: seq<Ctx>, b: int) {
    0 <= b < |runs| && |runs[b].visited| > 0 &&
    (forall j :: 0 <= j < |runs| ==> |runs[j].visited| <= |runs[b].visited|) &&
    (forall j :: 0 <= j < b ==> |runs[j].visited| < |runs[b].visited|)
  }

  /** Once every end node has been traversed, `parse` reports the traversal
      that visits the most nodes (the earliest on a tie), or empty prompts and
      setting when none visits any. */
  lemma ParseReportsBestRun(c: Codecs, promptText: string, prompt: Obj, runs: seq<Ctx>,
                            workflow: Option<string>, width: Option<int>, height: Option<int>)
    requires ParseObject(c, promptText) == Some(prompt)
    requires Traversals(c.serialize, prompt, EndNodes(c.serialize, prompt, Keys(prompt))) == Ok(runs)
    ensures Parse(c, promptText, workflow, width, height).Ok?
    ensures (forall j :: 0 <= j < |runs| ==> |runs[j].visited| == 0) ==>
      Parse(c, promptText, workflow, width, height) == Ok(Assemble(c.serialize, prompt, None, workflow, width, height))
    ensures forall b :: IsBestRun(runs, b) ==>
      Parse(c, promptText, workflow, width, height) == Ok(Assemble(c.serialize, prompt, Some(runs[b]), workflow, width, height))
  {
    var p := PickBest(runs);
    assert Parse(c, promptText, workflow, width, height)
      == Ok(Assemble(c.serialize, prompt, if p == -1 then None else Some(runs[p]), workflow, width, height));
    forall b | IsBestRun(runs, b) ensures p == b {
      BestRunIsPicked(runs, b);
    }
  }

  /** The run `PickBest` finds is the only best one. */
  lemma BestRunIsPicked(runs: seq<Ctx>, b: int)
    requires IsBestRun(runs, b)
    ensures PickBest(runs) == b
  {
    var p := PickBest(runs);
    assert p != -1;
    assert !(b < p) && !(p < b);
  }

  /** No whitespace at either end. */
  predicate Unpadded(s: string) {
    |s| == 0 || (!IsWhitespace(s[0]) && !IsWhitespace(s[|s| - 1]))
  }

  lemma {:induction false} NoneAreEndNodes(ser: Json -> string, prompt: Obj, ids: seq<string>)
    requires forall j :: 0 <= j < |ids| ==> !IsEndNode(ser, prompt, ids[j])
    ensures EndNodes(ser, prompt, ids) == []
  {
    if |ids| > 0 {
      NoneAreEndNodes(ser, prompt, ids[1..]);
    }
  }

  /** A graph without an image saver or a sampler gives empty prompts and an
      empty setting; the raw text is the graph, then the workflow when given. */
  lemma NoEndNodes(c: Codecs, promptText: string, prompt: Obj, workflow: Option<string>, width: Option<int>, height: Option<int>)
    requires ParseObject(c, promptText) == Some(prompt)
    requires forall i :: 0 <= i < |prompt| ==> !IsEndNode(c.serialize, prompt, prompt[i].key)
    ensures Parse(c, promptText, workflow, width, height) == Ok(Assemble(c.serialize, prompt, None, workflow, width, height))
    ensures Assemble(c.serialize, prompt, None, workflow, width, height).raw ==
      Join([c.serialize(JObj(prompt))] + (if workflow.None? || IsBlank(workflow.value) then [] else [workflow.value]), "\n")
  {
    var ids := Keys(prompt);
    assert forall j :: 0 <= j < |ids| ==> !IsEndNode(c.serialize, prompt, ids[j]);
    NoneAreEndNodes(c.serialize, prompt, ids);
    var ends := EndNodes(c.serialize, prompt, ids);
    assert Traversals(c.serialize, prompt, ends) == Ok([]);
    assert PickBest([]) == -1;
    assert IsBlank("");
  }
}
