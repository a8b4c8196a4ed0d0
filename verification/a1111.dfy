/** `A1111Parser.parse`: splits the AUTOMATIC1111 parameters text into the
    positive prompt, the negative prompt and the settings line. The text is
    laid out as `<positive>\nNegative prompt: <negative>\nSteps: ...`, and the
    parser finds the first occurrence of each marker. */
module A1111 {
  import opened Wrappers
  import opened Text
  import opened Results

  const STEPS_MARKER: string := "\nSteps:"
  const NEGATIVE_MARKER: string := "\nNegative prompt:"

  /** `parse(raw)`. `substring(begin, end)` with `begin > end` throws, which is
      what happens when the negative marker comes after the steps marker. */
  function Parse(raw: string): (r: Outcome<Fields>)
    ensures r.Ok? || r == Throws(StringIndexOutOfBounds)
    ensures IsBlank(raw) ==> r == Ok(Fields("", "", "", ""))
    ensures r.Ok? && !IsBlank(raw) ==> r.value.raw == Trim(raw)
  {
    if IsBlank(raw) then Ok(Fields("", "", "", ""))
    else Split(raw, IndexOf(raw, STEPS_MARKER), IndexOf(raw, NEGATIVE_MARKER))
  }

  /** The split of a non-blank text at the first steps marker (at `stepsIndex`,
      or -1) and the first negative marker (at `negIndex`, or -1). */
  function Split(raw: string, stepsIndex: int, negIndex: int): (r: Outcome<Fields>)
    requires stepsIndex == -1 || OccursAt(raw, STEPS_MARKER, stepsIndex)
    requires negIndex == -1 || OccursAt(raw, NEGATIVE_MARKER, negIndex)
    ensures r.Ok? || r == Throws(StringIndexOutOfBounds)
    ensures r.Ok? ==> r.value.raw == Trim(raw)
  {
    var setting := if stepsIndex != -1 then Trim(raw[stepsIndex + 1..]) else "";
    if negIndex == -1 then
      var positive := if stepsIndex != -1 then Trim(raw[..stepsIndex]) else Trim(raw);
      Ok(Fields(positive, "", setting, Trim(raw)))
    else
      var start := negIndex + |NEGATIVE_MARKER|;
      if stepsIndex != -1 && start > stepsIndex then Throws(StringIndexOutOfBounds)
      else
        var negative := if stepsIndex != -1 then Trim(raw[start..stepsIndex]) else Trim(raw[start..]);
        Ok(Fields(Trim(raw[..negIndex]), negative, setting, Trim(raw)))
  }

  /** `parse` of a text whose first negative marker at `negIndex` is followed
      by its first steps marker at `stepsIndex`, with the three parts between. */
  lemma ParseAtMarkers(raw: string, stepsIndex: int, negIndex: int, positive: string, negative: string, setting: string)
    requires !IsBlank(raw)
    requires IndexOf(raw, STEPS_MARKER) == stepsIndex && IndexOf(raw, NEGATIVE_MARKER) == negIndex
    requires 0 <= negIndex && negIndex + 18 <= stepsIndex < |raw|
    requires Trimmed(positive) && Trimmed(negative) && Trimmed(setting)
    requires raw[..negIndex] == positive
    requires raw[negIndex + 17..stepsIndex] == " " + negative
    requires raw[stepsIndex + 1..] == setting
    ensures Gives(Parse(raw), positive, negative, setting)
  {
    TrimmedPrefix(raw, negIndex, positive);
    SpacedSlice(raw, negIndex + 17, stepsIndex, negative);
    TrimmedSuffix(raw, stepsIndex + 1, setting);
    ParseAtTrims(raw, stepsIndex, negIndex, positive, negative, setting);
  }

  lemma ParseAtTrims(raw: string, stepsIndex: int, negIndex: int, positive: string, negative: string, setting: string)
    requires !IsBlank(raw)
    requires IndexOf(raw, STEPS_MARKER) == stepsIndex && IndexOf(raw, NEGATIVE_MARKER) == negIndex
    requires 0 <= negIndex && negIndex + 17 <= stepsIndex < |raw|
    requires Trim(raw[..negIndex]) == positive
    requires Trim(raw[negIndex + 17..stepsIndex]) == negative
    requires Trim(raw[stepsIndex + 1..]) == setting
    ensures Gives(Parse(raw), positive, negative, setting)
  {
    assert |NEGATIVE_MARKER| == 17;
  }

  /** With neither marker, the whole trimmed text is the positive prompt. */
  lemma NoMarkers(raw: string)
    requires !IsBlank(raw) && !Contains(raw, STEPS_MARKER) && !Contains(raw, NEGATIVE_MARKER)
    ensures Parse(raw) == Ok(Fields(Trim(raw), "", "", Trim(raw)))
  {
  }

  /** With a steps marker and no negative marker, the text before the marker is
      the positive prompt, the text from its `Steps:` on is the settings line,
      and the negative prompt is empty. */
  lemma StepsOnly(raw: string)
    requires !IsBlank(raw) && Contains(raw, STEPS_MARKER) && !Contains(raw, NEGATIVE_MARKER)
    ensures var s := IndexOf(raw, STEPS_MARKER);
      0 <= s && Parse(raw) == Ok(Fields(Trim(raw[..s]), "", Trim(raw[s + 1..]), Trim(raw)))
  {
  }

  /** With a negative marker and no steps marker, the text before the marker is
      the positive prompt, everything after it is the negative prompt, and the
      settings line is empty. */
  lemma NegativeOnly(raw: string)
    requires !IsBlank(raw) && Contains(raw, NEGATIVE_MARKER) && !Contains(raw, STEPS_MARKER)
    ensures var n := IndexOf(raw, NEGATIVE_MARKER);
      0 <= n && Parse(raw) == Ok(Fields(Trim(raw[..n]), Trim(raw[n + 17..]), "", Trim(raw)))
  {
  }

  /** The settings line starts at the newline of the first steps marker, so it
      begins with `Steps:`. */
  lemma SettingStartsWithSteps(raw: string)
    requires Contains(raw, STEPS_MARKER)
    ensures Parse(raw).Ok? ==> StartsWith(Parse(raw).value.setting, "Steps:")
  {
    var i := IndexOf(raw, STEPS_MARKER);
    BlankHasNoMarker(raw, STEPS_MARKER, i);
    SplitSettingStartsWithSteps(raw, i, IndexOf(raw, NEGATIVE_MARKER));
  }

  lemma SplitSettingStartsWithSteps(raw: string, stepsIndex: int, negIndex: int)
    requires OccursAt(raw, STEPS_MARKER, stepsIndex)
    requires negIndex == -1 || OccursAt(raw, NEGATIVE_MARKER, negIndex)
    ensures var r := Split(raw, stepsIndex, negIndex);
      r.Ok? ==> StartsWith(r.value.setting, "Steps:")
  {
    var tail := raw[stepsIndex + 1..];
    assert tail[..6] == raw[stepsIndex..stepsIndex + 7][1..];
    assert STEPS_MARKER[1..] == "Steps:";
    KeepsNonBlankPrefix(tail, 6);
    var r := Split(raw, stepsIndex, negIndex);
    assert r.Ok? ==> r.value.setting == Trim(tail);
  }

  /** A blank text holds no marker (both begin with a newline followed by a letter). */
  lemma BlankHasNoMarker(raw: string, marker: string, i: int)
    requires |marker| > 1 && !IsWhitespace(marker[1]) && OccursAt(raw, marker, i)
    ensures !IsBlank(raw)
  {
    assert raw[i + 1] == marker[1];
  }

  /** Trimming keeps a prefix that starts and ends with non-whitespace. */
  lemma KeepsNonBlankPrefix(s: string, n: nat)
    requires 0 < n <= |s| && !IsWhitespace(s[0]) && !IsWhitespace(s[n - 1])
    ensures |Trim(s)| >= n && Trim(s)[..n] == s[..n]
  {
    TrimStartIdentity(s, IsWhitespace);
    var u := TrimEnd(s, IsWhitespace);
    assert |u| >= n;
  }

  /** The call throws exactly when both markers occur and the first negative
      marker comes after the first steps marker. */
  lemma InvertedMarkersThrow(raw: string)
    ensures Parse(raw).Throws? <==>
      Contains(raw, STEPS_MARKER) && Contains(raw, NEGATIVE_MARKER)
      && IndexOf(raw, NEGATIVE_MARKER) > IndexOf(raw, STEPS_MARKER)
  {
    var s := IndexOf(raw, STEPS_MARKER);
    var n := IndexOf(raw, NEGATIVE_MARKER);
    if s != -1 && n != -1 {
      BlankHasNoMarker(raw, STEPS_MARKER, s);
      if n <= s {
        MarkersApart(raw, n, s);
      }
    }
  }

  /** An earlier negative marker ends before the steps marker begins: neither
      can start inside the other, since only their first character is a newline. */
  lemma MarkersApart(raw: string, n: int, s: int)
    requires OccursAt(raw, NEGATIVE_MARKER, n) && OccursAt(raw, STEPS_MARKER, s) && n <= s
    ensures n + |NEGATIVE_MARKER| <= s
  {
    if s == n {
      CharOfOccurrence(raw, NEGATIVE_MARKER, n, n + 1);
      CharOfOccurrence(raw, STEPS_MARKER, s, s + 1);
      assert false;
    } else if s < n + |NEGATIVE_MARKER| {
      CharOfOccurrence(raw, NEGATIVE_MARKER, n, s);
      CharOfOccurrence(raw, STEPS_MARKER, s, s);
      assert false;
    }
  }

  // ----- Writing the text back -----

  /** A successful split into these three texts. */
  predicate Gives(r: Outcome<Fields>, positive: string, negative: string, setting: string) {
    r.Ok? && r.value.positive == positive && r.value.negative == negative && r.value.setting == setting
  }

  /** A trimmed string: no whitespace at either end. */
  predicate Trimmed(s: string) {
    |s| == 0 || (!IsWhitespace(s[0]) && !IsWhitespace(s[|s| - 1]))
  }

  /** The parameters text as the web UI writes it. */
  function Compose(positive: string, negative: string, setting: string): string {
    positive + NEGATIVE_MARKER + " " + negative + "\n" + setting
  }

  /** Reading back what the web UI wrote gives the three parts again, provided
      the positive prompt holds neither marker, the negative prompt holds no
      steps marker, and the settings line is the one starting with `Steps:`. */
  lemma ComposeRoundTrip(positive: string, negative: string, setting: string)
    requires Trimmed(positive) && Trimmed(negative) && Trimmed(setting)
    requires !Contains(positive, NEGATIVE_MARKER) && !Contains(positive, STEPS_MARKER)
    requires !Contains(negative, STEPS_MARKER)
    requires StartsWith(setting, "Steps:")
    ensures var raw := Compose(positive, negative, setting);
      Gives(Parse(raw), positive, negative, setting)
  {
    var steps := |positive| + 18 + |negative|;
    ComposeLayout(positive, negative, setting, steps);
    ParseLaidOut(Compose(positive, negative, setting), positive, negative, setting, steps);
  }

  /** Parsing a text laid out as the web UI writes it. */
  lemma ParseLaidOut(raw: string, positive: string, negative: string, setting: string, steps: int)
    requires Trimmed(positive) && Trimmed(negative) && Trimmed(setting)
    requires !Contains(positive, NEGATIVE_MARKER) && !Contains(positive, STEPS_MARKER)
    requires !Contains(negative, STEPS_MARKER)
    requires steps == |positive| + 18 + |negative|
    requires
      && |setting| >= 6
      && |raw| == steps + 1 + |setting|
      && raw[..|positive|] == positive
      && raw[|positive|..|positive| + 17] == NEGATIVE_MARKER
      && raw[|positive| + 17..steps] == " " + negative
      && raw[|positive| + 18..steps] == negative
      && raw[steps..steps + 7] == STEPS_MARKER
      && raw[steps + 1..] == setting
    ensures Gives(Parse(raw), positive, negative, setting)
  {
    NegativeFoundAt(raw, positive);
    StepsFoundAt(raw, positive, negative, steps);
    BlankHasNoMarker(raw, STEPS_MARKER, steps);
    ParseAtMarkers(raw, steps, |positive|, positive, negative, setting);
  }

  /** The trimmed slices between the markers of a laid-out text. */
  lemma TrimmedPrefix(raw: string, n: int, t: string)
    requires 0 <= n <= |raw| && raw[..n] == t && Trimmed(t)
    ensures Trim(raw[..n]) == t
  {
    TrimIdentity(t);
  }

  lemma TrimmedSuffix(raw: string, n: int, t: string)
    requires 0 <= n <= |raw| && raw[n..] == t && Trimmed(t)
    ensures Trim(raw[n..]) == t
  {
    TrimIdentity(t);
  }

  lemma SpacedSlice(raw: string, a: int, b: int, t: string)
    requires 0 <= a <= b <= |raw| && raw[a..b] == " " + t && Trimmed(t)
    ensures Trim(raw[a..b]) == t
  {
    TrimLeadingSpace(t);
    TrimIdentity(t);
  }

  /** Where each part of a composed text sits. */
  lemma ComposeLayout(positive: string, negative: string, setting: string, steps: int)
    requires StartsWith(setting, "Steps:")
    requires steps == |positive| + 18 + |negative|
    ensures |setting| >= 6
    ensures |Compose(positive, negative, setting)| == steps + 1 + |setting|
    ensures Compose(positive, negative, setting)[..|positive|] == positive
    ensures Compose(positive, negative, setting)[|positive|..|positive| + 17] == NEGATIVE_MARKER
    ensures Compose(positive, negative, setting)[|positive| + 17..steps] == " " + negative
    ensures Compose(positive, negative, setting)[|positive| + 18..steps] == negative
    ensures Compose(positive, negative, setting)[steps..steps + 7] == STEPS_MARKER
    ensures Compose(positive, negative, setting)[steps + 1..] == setting
  {
    var raw := Compose(positive, negative, setting);
    var p := |positive|;
    assert raw == positive + (NEGATIVE_MARKER + (" " + (negative + ("\n" + setting))));
    assert raw[steps..steps + 7] == "\n" + setting[..6];
  }

  /** An occurrence lying inside a slice is an occurrence in that slice. */
  lemma OccursInSlice(s: string, pat: string, i: int, a: int, b: int)
    requires OccursAt(s, pat, i) && 0 <= a <= i && i + |pat| <= b <= |s|
    ensures OccursAt(s[a..b], pat, i - a)
  {
    var t := s[a..b];
    assert forall k :: i - a <= k < i - a + |pat| ==> t[k] == s[a + k];
    assert t[i - a..i - a + |pat|] == s[i..i + |pat|];
  }

  /** The first negative marker is the one after the positive prompt. */
  lemma NegativeFoundAt(raw: string, positive: string)
    requires |positive| + 17 <= |raw| && raw[..|positive|] == positive
    requires raw[|positive|..|positive| + 17] == NEGATIVE_MARKER
    requires !Contains(positive, NEGATIVE_MARKER)
    ensures IndexOf(raw, NEGATIVE_MARKER) == |positive|
  {
    var p := |positive|;
    forall i | 0 <= i < p ensures !OccursAt(raw, NEGATIVE_MARKER, i) {
      if OccursAt(raw, NEGATIVE_MARKER, i) {
        if i + 17 <= p {
          OccursInSlice(raw, NEGATIVE_MARKER, i, 0, p);
          assert false;
        } else {
          CharOfOccurrence(raw, NEGATIVE_MARKER, i, p);
          CharOfOccurrence(raw, NEGATIVE_MARKER, p, p);
          assert false;
        }
      }
    }
    assert OccursAt(raw, NEGATIVE_MARKER, p);
  }

  /** The first steps marker is the one before the settings line. */
  lemma StepsFoundAt(raw: string, positive: string, negative: string, steps: int)
    requires steps == |positive| + 18 + |negative|
    requires
      && steps + 7 <= |raw|
      && raw[..|positive|] == positive
      && raw[|positive|..|positive| + 17] == NEGATIVE_MARKER
      && raw[|positive| + 17..steps] == " " + negative
      && raw[|positive| + 18..steps] == negative
      && raw[steps..steps + 7] == STEPS_MARKER
    requires !Contains(positive, STEPS_MARKER) && !Contains(negative, STEPS_MARKER)
    ensures IndexOf(raw, STEPS_MARKER) == steps
  {
    forall i | 0 <= i < steps ensures !OccursAt(raw, STEPS_MARKER, i) {
      NoStepsBefore(raw, positive, negative, steps, i);
    }
    assert OccursAt(raw, STEPS_MARKER, steps);
  }

  lemma NoStepsBefore(raw: string, positive: string, negative: string, steps: int, i: int)
    requires steps == |positive| + 18 + |negative|
    requires
      && steps + 7 <= |raw|
      && raw[..|positive|] == positive
      && raw[|positive|..|positive| + 17] == NEGATIVE_MARKER
      && raw[|positive| + 17..steps] == " " + negative
      && raw[|positive| + 18..steps] == negative
      && raw[steps..steps + 7] == STEPS_MARKER
    requires !Contains(positive, STEPS_MARKER) && !Contains(negative, STEPS_MARKER)
    requires 0 <= i < steps
    ensures !OccursAt(raw, STEPS_MARKER, i)
  {
    var p := |positive|;
    if OccursAt(raw, STEPS_MARKER, i) {
      if i + 7 <= p {
        OccursInSlice(raw, STEPS_MARKER, i, 0, p);
        assert false;
      } else if i < p {
        CharOfOccurrence(raw, STEPS_MARKER, i, p);
        CharOfSlice(raw, p, p + 17, p, NEGATIVE_MARKER);
        assert false;
      } else if i == p {
        CharOfOccurrence(raw, STEPS_MARKER, i, p + 1);
        CharOfSlice(raw, p, p + 17, p + 1, NEGATIVE_MARKER);
        assert false;
      } else if i < p + 17 {
        CharOfOccurrence(raw, STEPS_MARKER, i, i);
        CharOfSlice(raw, p, p + 17, i, NEGATIVE_MARKER);
        assert false;
      } else if i == p + 17 {
        CharOfOccurrence(raw, STEPS_MARKER, i, i);
        CharOfSlice(raw, p + 17, steps, i, " " + negative);
        assert false;
      } else if i + 7 <= steps {
        OccursInSlice(raw, STEPS_MARKER, i, p + 18, steps);
        assert false;
      } else {
        CharOfOccurrence(raw, STEPS_MARKER, i, steps);
        CharOfSlice(raw, steps, steps + 7, steps, STEPS_MARKER);
        assert false;
      }
    }
  }

  /** The character at `j` inside an occurrence of `pat` at `i`. */
  lemma CharOfOccurrence(s: string, pat: string, i: int, j: int)
    requires OccursAt(s, pat, i) && i <= j < i + |pat|
    ensures s[j] == pat[j - i]
  {
    assert s[i..i + |pat|][j - i] == s[j];
  }

  /** The character at `j` of a slice known to equal `t`. */
  lemma CharOfSlice(s: string, a: int, b: int, j: int, t: string)
    requires 0 <= a <= j < b <= |s| && s[a..b] == t
    ensures s[j] == t[j - a]
  {
    assert s[a..b][j - a] == s[j];
  }

  lemma TrimLeadingSpace(s: string)
    ensures Trim(" " + s) == Trim(s)
  {
    assert (" " + s)[1..] == s;
    assert TrimStart(" " + s, IsWhitespace) == TrimStart(s, IsWhitespace);
  }

  /** The parameters text of the web UI's own example,
      `a cat\nNegative prompt: a dog\nSteps: 20, Sampler: Euler`. */
  lemma Example(raw: string)
    requires raw == Compose("a cat", "a dog", "Steps: 20, Sampler: Euler")
    ensures Parse(raw) == Ok(Fields("a cat", "a dog", "Steps: 20, Sampler: Euler", raw))
  {
    var positive := "a cat";
    var negative := "a dog";
    var setting := "Steps: 20, Sampler: Euler";
    NoNewline(positive, NEGATIVE_MARKER);
    NoNewline(positive, STEPS_MARKER);
    NoNewline(negative, STEPS_MARKER);
    assert StartsWith(setting, "Steps:");
    ComposeRoundTrip(positive, negative, setting);
    TrimIdentity(raw);
  }

  /** A text without newlines holds no marker that starts with one. */
  lemma NoNewline(s: string, marker: string)
    requires |marker| > 0 && marker[0] == '\n' && forall i :: 0 <= i < |s| ==> s[i] != '\n'
    ensures !Contains(s, marker)
  {
    if Contains(s, marker) {
      var i := IndexOf(s, marker);
      CharOfOccurrence(s, marker, i, i);
      assert false;
    }
  }
}
