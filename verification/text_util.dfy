/** `TextUtil`: the small string helpers of the command-line core. */
module TextUtil {
  import opened Wrappers
  import opened Text

  const DEFAULT_SEPARATOR: string := ", "

  /** `removeQuotes`, applied to the text of a value (none for null): every
      double and single quote dropped, and null read as "". */
  function RemoveQuotes(value: Option<string>): (r: string)
    ensures value.None? ==> r == ""
    ensures NoQuotes(r)
    ensures value.Some? ==> multiset(r) == multiset(value.value)['"' := 0]['\'' := 0]
  {
    match value
    case None => ""
    case Some(s) =>
      var t := RemoveChar(s, '"');
      var r := RemoveChar(t, '\'');
      forall i | 0 <= i < |r| ensures r[i] != '"' {
        assert r[i] in multiset(r);
      }
      r
  }

  /** Neither a double nor a single quote anywhere in `s`. */
  predicate NoQuotes(s: string) {
    forall i :: 0 <= i < |s| ==> s[i] != '"' && s[i] != '\''
  }

  lemma NoQuotesSlice(s: string, a: int, b: int)
    requires NoQuotes(s) && 0 <= a <= b <= |s|
    ensures NoQuotes(s[a..b])
  {
    assert forall i :: 0 <= i < b - a ==> s[a..b][i] == s[a + i];
  }

  /** Quote removal keeps the order of what it keeps: removing quotes from a
      concatenation removes them from each half. */
  lemma RemoveQuotesConcat(a: string, b: string)
    ensures RemoveQuotes(Some(a + b)) == RemoveQuotes(Some(a)) + RemoveQuotes(Some(b))
  {
    RemoveCharConcat(a, b, '"');
    RemoveCharConcat(RemoveChar(a, '"'), RemoveChar(b, '"'), '\'');
  }

  /** A single quote character is dropped, any other character is kept. */
  lemma RemoveQuotesOne(x: char)
    ensures RemoveQuotes(Some([x])) == if x == '"' || x == '\'' then "" else [x]
  {
    RemoveCharOne(x, '"');
    RemoveCharOne(x, '\'');
    assert RemoveChar([], '\'') == [];
  }

  /** Removing quotes a second time changes nothing. */
  lemma RemoveQuotesIdempotent(value: Option<string>)
    ensures RemoveQuotes(Some(RemoveQuotes(value))) == RemoveQuotes(value)
  {
    var r := RemoveQuotes(value);
    assert RemoveChar(r, '"') == r;
    assert RemoveChar(RemoveChar(r, '"'), '\'') == r;
  }

  /** `concat(base, addition, separator)`. */
  function Concat(base: string, addition: string, separator: string): (r: string)
    ensures IsBlank(base) ==> r == addition
    ensures !IsBlank(base) ==> |base| <= |r| && r[..|base|] == base
    ensures !IsBlank(addition) ==> |addition| <= |r| && r[|r| - |addition|..] == addition
    ensures !IsBlank(base) && !IsBlank(addition) ==> |r| == |base| + |separator| + |addition|
    ensures IsBlank(addition) && !IsBlank(base) ==> r == base
  {
    if IsBlank(base) then addition
    else if IsBlank(addition) then base
    else base + separator + addition
  }

  /** Unless both parts are blank, `concat` is the non-blank parts of
      `[base, addition]` joined with the separator. */
  lemma ConcatJoinsNonBlank(base: string, addition: string, separator: string)
    requires !IsBlank(base) || !IsBlank(addition)
    ensures Concat(base, addition, separator) == JoinNonBlank([base, addition], separator)
  {
    assert [base, addition][1..] == [addition];
    assert [addition][1..] == [];
    assert NonBlank([addition]) == (if IsBlank(addition) then [] else [addition]);
    assert NonBlank([base, addition]) == (if IsBlank(base) then [] else [base]) + NonBlank([addition]);
    if !IsBlank(base) && !IsBlank(addition) {
      assert NonBlank([base, addition]) == [base, addition];
    }
  }

  /** The result is blank exactly when both parts are. */
  lemma ConcatBlank(base: string, addition: string, separator: string)
    ensures IsBlank(Concat(base, addition, separator)) <==> IsBlank(base) && IsBlank(addition)
  {
    if !IsBlank(base) && !IsBlank(addition) {
      var i :| 0 <= i < |base| && !IsWhitespace(base[i]);
      assert (base + separator + addition)[i] == base[i];
    }
  }

  /** `removePrefix(prefix)`. */
  function RemovePrefix(s: string, prefix: string): (r: string)
    ensures |r| <= |s| && r == s[|s| - |r|..]
  {
    if StartsWith(s, prefix) then s[|prefix|..] else s
  }

  /** `removeSuffix(suffix)`. */
  function RemoveSuffix(s: string, suffix: string): (r: string)
    ensures |r| <= |s| && r == s[..|r|]
  {
    if |suffix| <= |s| && s[|s| - |suffix|..] == suffix then s[..|s| - |suffix|] else s
  }

  /** `mapToSettingString(map)`, given the map's `toString()` text: quotes
      removed, then at most one `{` in front and one `}` at the end, then
      surrounding whitespace. */
  function MapToSettingString(mapText: string): (r: string)
    ensures NoQuotes(r)
    ensures |r| > 0 ==> !IsWhitespace(r[0]) && !IsWhitespace(r[|r| - 1])
  {
    var unquoted := RemoveQuotes(Some(mapText));
    var inner := RemoveSuffix(RemovePrefix(unquoted, "{"), "}");
    UnbracedNoQuotes(unquoted);
    TrimmedNoQuotes(inner);
    Trim(inner)
  }

  lemma UnbracedNoQuotes(s: string)
    requires NoQuotes(s)
    ensures NoQuotes(RemoveSuffix(RemovePrefix(s, "{"), "}"))
  {
    var front := RemovePrefix(s, "{");
    NoQuotesSlice(s, |s| - |front|, |s|);
    NoQuotesSlice(front, 0, |RemoveSuffix(front, "}")|);
  }

  lemma TrimmedNoQuotes(s: string)
    requires NoQuotes(s)
    ensures NoQuotes(Trim(s))
  {
    TrimByInfix(s, IsWhitespace);
    var a, b :| 0 <= a <= b <= |s| && Trim(s) == s[a..b];
    NoQuotesSlice(s, a, b);
  }

  /** Only the outermost pair of braces goes: what lies between them is kept,
      braces included, and only trimmed. */
  lemma OneBracePair(inner: string)
    requires NoQuotes(inner)
    ensures MapToSettingString("{" + inner + "}") == Trim(inner)
  {
    BracedKeepsNoQuotes(inner);
    BracesRemoved(inner);
  }

  lemma BracedKeepsNoQuotes(inner: string)
    requires NoQuotes(inner)
    ensures RemoveQuotes(Some("{" + inner + "}")) == "{" + inner + "}"
  {
    var text := "{" + inner + "}";
    assert NoQuotes(text) by {
      assert forall i :: 1 <= i <= |inner| ==> text[i] == inner[i - 1];
    }
    assert RemoveChar(text, '"') == text;
  }

  lemma BracesRemoved(inner: string)
    ensures RemoveSuffix(RemovePrefix("{" + inner + "}", "{"), "}") == inner
  {
    var text := "{" + inner + "}";
    assert text[..1] == "{" && text[1..] == inner + "}";
    assert (inner + "}")[|inner|..] == "}" && (inner + "}")[..|inner|] == inner;
  }

  /** Braces inside the outer pair are kept (`{{a=1}}` gives `{a=1}`), where
      `trim('{', '}')` would strip them all. */
  lemma NestedBracesKept(inner: string)
    requires NoQuotes(inner)
    ensures MapToSettingString("{" + ("{" + inner + "}") + "}") == "{" + inner + "}"
  {
    var middle := "{" + inner + "}";
    assert NoQuotes(middle) by {
      assert forall i :: 1 <= i <= |inner| ==> middle[i] == inner[i - 1];
    }
    OneBracePair(middle);
    TrimIdentity(middle);
  }
}
