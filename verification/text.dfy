/** The Kotlin string operations the parsers rely on: `isBlank`, `trim`,
    `trim(vararg chars)`, `replace`, `indexOf`, `contains`, `startsWith`,
    `substring` and `joinToString`. Strings are sequences of characters; no
    case folding or normalisation is involved anywhere in the modelled code. */
module Text {

  /** Kotlin's `Char.isWhitespace()` on the JVM: `Character.isWhitespace` or
      `Character.isSpaceChar` (the Unicode space, line and paragraph separators,
      the ASCII controls HT, LF, VT, FF, CR and the information separators
      FS, GS, RS, US). */
  predicate IsWhitespace(c: char) {
    || c == ' ' || c == '\t' || c == '\n' || c == '\U{B}' || c == '\U{C}' || c == '\r'
    || ('\U{1C}' <= c <= '\U{1F}')
    || c == '\U{A0}' || c == '\U{1680}' || ('\U{2000}' <= c <= '\U{200A}')
    || c == '\U{2028}' || c == '\U{2029}' || c == '\U{202F}' || c == '\U{205F}' || c == '\U{3000}'
  }

  /** `String.isBlank()`: empty or whitespace only. */
  predicate IsBlank(s: string) {
    forall i :: 0 <= i < |s| ==> IsWhitespace(s[i])
  }

  /** Drops the longest prefix whose characters all satisfy `drop`. */
  function TrimStart(s: string, drop: char -> bool): (r: string)
    ensures |r| <= |s| && r == s[|s| - |r|..]
    ensures forall i :: 0 <= i < |s| - |r| ==> drop(s[i])
    ensures |r| > 0 ==> !drop(r[0])
  {
    if |s| > 0 && drop(s[0]) then TrimStart(s[1..], drop) else s
  }

  /** Drops the longest suffix whose characters all satisfy `drop`. */
  function TrimEnd(s: string, drop: char -> bool): (r: string)
    ensures |r| <= |s| && r == s[..|r|]
    ensures forall i :: |r| <= i < |s| ==> drop(s[i])
    ensures |r| > 0 ==> !drop(r[|r| - 1])
  {
    if |s| > 0 && drop(s[|s| - 1]) then TrimEnd(s[..|s| - 1], drop) else s
  }

  /** Kotlin's `CharSequence.trim(predicate)`: the longest infix of `s` that
      neither starts nor ends with a dropped character. */
  function TrimBy(s: string, drop: char -> bool): (r: string)
    ensures |r| > 0 ==> !drop(r[0]) && !drop(r[|r| - 1])
    ensures |r| == 0 <==> forall i :: 0 <= i < |s| ==> drop(s[i])
  {
    var t := TrimStart(s, drop);
    var u := TrimEnd(t, drop);
    TrimBothEnds(s, drop, t, u);
    u
  }

  /** What trimming the start and then the end leaves of `s`. */
  lemma TrimBothEnds(s: string, drop: char -> bool, t: string, u: string)
    requires |t| <= |s| && t == s[|s| - |t|..]
    requires forall i :: 0 <= i < |s| - |t| ==> drop(s[i])
    requires |t| > 0 ==> !drop(t[0])
    requires |u| <= |t| && u == t[..|u|]
    requires forall i :: |u| <= i < |t| ==> drop(t[i])
    ensures 0 <= |s| - |t| <= |s| - |t| + |u| <= |s| && u == s[|s| - |t|..|s| - |t| + |u|]
    ensures forall x :: x in u ==> x in s
    ensures |u| == 0 <==> forall i :: 0 <= i < |s| ==> drop(s[i])
  {
    var a := |s| - |t|;
    assert u == s[a..a + |u|];
    forall x | x in u ensures x in s {
      var i :| 0 <= i < |u| && u[i] == x;
      assert s[a + i] == x;
    }
    if |u| == 0 {
      assert |t| == 0;
    }
  }

  /** A trim keeps a contiguous run of the string's own characters. */
  lemma TrimByInfix(s: string, drop: char -> bool)
    ensures exists a, b :: 0 <= a <= b <= |s| && TrimBy(s, drop) == s[a..b]
    ensures forall x :: x in TrimBy(s, drop) ==> x in s
  {
    var t := TrimStart(s, drop);
    TrimBothEnds(s, drop, t, TrimEnd(t, drop));
  }

  /** `String.trim()`. */
  function Trim(s: string): string {
    TrimBy(s, IsWhitespace)
  }

  predicate IsBrace(c: char) {
    c == '{' || c == '}'
  }

  /** `String.trim('{', '}')`: strips every leading and trailing brace. */
  function TrimBraces(s: string): string {
    TrimBy(s, IsBrace)
  }

  lemma {:induction false} TrimStartIdentity(s: string, drop: char -> bool)
    requires |s| == 0 || !drop(s[0])
    ensures TrimStart(s, drop) == s
  {
  }

  lemma {:induction false} TrimEndIdentity(s: string, drop: char -> bool)
    requires |s| == 0 || !drop(s[|s| - 1])
    ensures TrimEnd(s, drop) == s
  {
  }

  /** A string that begins with a kept character keeps its first character through a trim. */
  lemma TrimKeepsStart(s: string, drop: char -> bool)
    requires |s| > 0 && !drop(s[0])
    ensures |TrimBy(s, drop)| > 0 && TrimBy(s, drop)[0] == s[0]
  {
    TrimStartIdentity(s, drop);
    var u := TrimEnd(s, drop);
    assert !(forall i :: 0 <= i < |s| ==> drop(s[i]));
  }

  /** A string already without surrounding whitespace is its own trim. */
  lemma TrimIdentity(s: string)
    requires |s| == 0 || (!IsWhitespace(s[0]) && !IsWhitespace(s[|s| - 1]))
    ensures Trim(s) == s
  {
    TrimStartIdentity(s, IsWhitespace);
    TrimEndIdentity(s, IsWhitespace);
  }

  /** `String.replace(c.toString(), "")`: every occurrence of `c` removed. */
  function RemoveChar(s: string, c: char): (r: string)
    ensures forall i :: 0 <= i < |r| ==> r[i] != c
    ensures |r| <= |s|
    ensures (forall i :: 0 <= i < |s| ==> s[i] != c) ==> r == s
    ensures multiset(r) == multiset(s)[c := 0]
  {
    if |s| == 0 then ""
    else
      assert s == [s[0]] + s[1..];
      (if s[0] == c then "" else [s[0]]) + RemoveChar(s[1..], c)
  }

  /** Removal works character by character and keeps the order of the rest:
      removing from a concatenation removes from each half. */
  lemma {:induction false} RemoveCharConcat(a: string, b: string, c: char)
    ensures RemoveChar(a + b, c) == RemoveChar(a, c) + RemoveChar(b, c)
  {
    if |a| == 0 {
      assert a + b == b;
    } else {
      assert (a + b)[0] == a[0] && (a + b)[1..] == a[1..] + b;
      RemoveCharConcat(a[1..], b, c);
    }
  }

  /** A single character is dropped when it is `c` and kept otherwise. */
  lemma RemoveCharOne(x: char, c: char)
    ensures RemoveChar([x], c) == if x == c then "" else [x]
  {
    assert [x][1..] == [];
  }

  /** `pat` occurs in `s` at index `i`. */
  predicate OccursAt(s: string, pat: string, i: int) {
    0 <= i && i + |pat| <= |s| && s[i..i + |pat|] == pat
  }

  /** Java's `String.indexOf(pat, from)`: the first occurrence at or after `from`, or -1. */
  function IndexOfFrom(s: string, pat: string, from: nat): (r: int)
    requires from <= |s|
    ensures r == -1 || (from <= r && OccursAt(s, pat, r))
    ensures r != -1 ==> forall i :: from <= i < r ==> !OccursAt(s, pat, i)
    ensures r == -1 <==> forall i :: from <= i ==> !OccursAt(s, pat, i)
    decreases |s| - from
  {
    if OccursAt(s, pat, from) then from
    else if from == |s| then
      assert forall i :: from <= i ==> !OccursAt(s, pat, i) by {
        forall i | from <= i ensures !OccursAt(s, pat, i) {
          if i > from {
            assert i + |pat| > |s|;
          }
        }
      }
      -1
    else IndexOfFrom(s, pat, from + 1)
  }

  /** `String.indexOf(pat)`. */
  function IndexOf(s: string, pat: string): (r: int)
    ensures r == -1 || OccursAt(s, pat, r)
    ensures r != -1 ==> forall i :: 0 <= i < r ==> !OccursAt(s, pat, i)
    ensures r == -1 <==> forall i :: !OccursAt(s, pat, i)
  {
    IndexOfFrom(s, pat, 0)
  }

  /** `String.contains(pat)`. */
  predicate Contains(s: string, pat: string) {
    IndexOf(s, pat) != -1
  }

  /** `String.startsWith(p)`. */
  predicate StartsWith(s: string, p: string) {
    |p| <= |s| && s[..|p|] == p
  }

  /** The parts joined with `sep` between neighbours. */
  function Join(parts: seq<string>, sep: string): (r: string)
    ensures |parts| == 1 ==> r == parts[0]
    ensures |parts| == 0 ==> r == ""
    ensures |parts| > 0 ==> |parts[0]| <= |r| && r[..|parts[0]|] == parts[0]
  {
    if |parts| == 0 then ""
    else if |parts| == 1 then parts[0]
    else parts[0] + sep + Join(parts[1..], sep)
  }

  /** The parts that are not blank, in order. */
  function NonBlank(parts: seq<string>): (r: seq<string>)
    ensures forall i :: 0 <= i < |r| ==> !IsBlank(r[i])
    ensures forall p :: p in r ==> p in parts
    ensures forall p :: p in parts && !IsBlank(p) ==> p in r
    ensures |r| <= |parts|
  {
    if |parts| == 0 then []
    else (if IsBlank(parts[0]) then [] else [parts[0]]) + NonBlank(parts[1..])
  }

  /** The non-blank parts joined with `sep`. */
  function JoinNonBlank(parts: seq<string>, sep: string): string {
    Join(NonBlank(parts), sep)
  }

  /** `Int.toString()` of a natural number: its decimal digits, most significant first. */
  function NatText(n: nat): (r: string)
    ensures |r| > 0 && forall i :: 0 <= i < |r| ==> '0' <= r[i] <= '9'
    decreases n
  {
    var last := [(0x30 + n % 10) as char];
    if n < 10 then last else NatText(n / 10) + last
  }

  /** `Int.toString()`: a minus sign before the digits of a negative number. */
  function IntText(i: int): string {
    if i < 0 then "-" + NatText(-i) else NatText(i)
  }

  /** The number a string of decimal digits spells. */
  function DigitsValue(s: string): nat
    requires forall i :: 0 <= i < |s| ==> '0' <= s[i] <= '9'
  {
    if |s| == 0 then 0 else DigitsValue(s[..|s| - 1]) * 10 + (s[|s| - 1] as int - 0x30)
  }

  /** The digits printed for `n` spell `n` again. */
  lemma {:induction false} NatTextRoundTrip(n: nat)
    ensures DigitsValue(NatText(n)) == n
    decreases n
  {
    var r := NatText(n);
    if n >= 10 {
      NatTextRoundTrip(n / 10);
      assert r[..|r| - 1] == NatText(n / 10);
    }
  }
}
