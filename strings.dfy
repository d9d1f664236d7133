/**
 * String helpers shared by the models: the JavaScript `split`/`join`/`trim`
 * and `indexOf(...) === 0` operations and the PHP `str_replace`/truthiness
 * rules, on `string == seq<char>`.
 */
module Strings {

  /** A path separator as the regular expression `[\/\\]` matches it. */
  predicate IsSeparator(ch: char) {
    ch == '/' || ch == '\\'
  }

  predicate HasSeparator(s: string) {
    exists i :: 0 <= i < |s| && IsSeparator(s[i])
  }

  /** The position of the last path separator of `s`. */
  function LastSeparator(s: string): (i: nat)
    requires HasSeparator(s)
    ensures i < |s| && IsSeparator(s[i])
    ensures forall j :: i < j < |s| ==> !IsSeparator(s[j])
  {
    if IsSeparator(s[|s| - 1]) then |s| - 1
    else
      assert HasSeparator(s[..|s| - 1]) by {
        var k :| 0 <= k < |s| && IsSeparator(s[k]);
        assert k < |s| - 1 && s[..|s| - 1][k] == s[k];
      }
      LastSeparator(s[..|s| - 1])
  }

  /** PHP truthiness of a string: only `""` and `"0"` are falsy. */
  predicate PhpTruthy(s: string) {
    s != "" && s != "0"
  }

  /** The position of the first `c` in `s`. */
  function FirstIndexOf(s: string, c: char): (i: nat)
    requires c in s
    ensures i < |s| && s[i] == c && c !in s[..i]
  {
    if s[0] == c then 0 else FirstIndexOf(s[1..], c) + 1
  }

  /** JavaScript `s.split(c)` (and PHP `explode(c, s)`) for a one-character separator. */
  function Split(s: string, c: char): (parts: seq<string>)
    ensures |parts| >= 1
    ensures forall k :: 0 <= k < |parts| ==> c !in parts[k]
    decreases |s|
  {
    if c !in s then [s]
    else
      var i := FirstIndexOf(s, c);
      [s[..i]] + Split(s[i + 1..], c)
  }

  /** JavaScript `parts.join(c)`: the empty list gives the empty string. */
  function Join(parts: seq<string>, c: char): string
  {
    if |parts| == 0 then ""
    else if |parts| == 1 then parts[0]
    else parts[0] + [c] + Join(parts[1..], c)
  }

  /** Joining the pieces of a split gives back the original string. */
  lemma {:induction false} JoinSplit(s: string, c: char)
    ensures Join(Split(s, c), c) == s
    decreases |s|
  {
    if c in s {
      var i := FirstIndexOf(s, c);
      var rest := s[i + 1..];
      JoinSplit(rest, c);
      assert Split(s, c) == [s[..i]] + Split(rest, c);
      assert s == s[..i] + [c] + rest;
    }
  }

  /** Splitting a join of separator-free pieces gives back the pieces. */
  lemma {:induction false} SplitJoin(parts: seq<string>, c: char)
    requires |parts| >= 1
    requires forall k :: 0 <= k < |parts| ==> c !in parts[k]
    ensures Split(Join(parts, c), c) == parts
  {
    if |parts| > 1 {
      var s := Join(parts, c);
      var tail := Join(parts[1..], c);
      assert s == parts[0] + [c] + tail;
      assert s[|parts[0]|] == c;
      assert s[..|parts[0]|] == parts[0];
      assert c in s;
      assert FirstIndexOf(s, c) == |parts[0]|;
      assert s[|parts[0]| + 1..] == tail;
      SplitJoin(parts[1..], c);
    }
  }

  /** The first separator of a string is the first separator of any extension of it. */
  lemma {:induction false} FirstIndexOfExtended(s: string, t: string, c: char)
    requires c in s
    ensures FirstIndexOf(s + t, c) == FirstIndexOf(s, c)
  {
    if s[0] != c {
      assert (s + t)[1..] == s[1..] + t;
      FirstIndexOfExtended(s[1..], t, c);
    }
  }

  /** Without a separator in `s`, the first one of `s + [c] + x` is the one right after `s`. */
  lemma FirstIndexOfAfter(s: string, c: char, x: string)
    requires c !in s
    ensures FirstIndexOf(s + [c] + x, c) == |s|
  {
    var t := s + [c] + x;
    var i := FirstIndexOf(t, c);
    assert t[..|s|] == s;
    assert t[|s|] == c;
  }

  /** A separator in `s` ends the first piece of any extension of `s` there. */
  lemma SplitExtended(s: string, c: char, rest: string)
    requires c in s
    ensures Split(s + rest, c) == [s[..FirstIndexOf(s, c)]] + Split(s[FirstIndexOf(s, c) + 1..] + rest, c)
  {
    var j := FirstIndexOf(s, c);
    FirstIndexOfExtended(s, rest, c);
    assert (s + rest)[j + 1..] == s[j + 1..] + rest && (s + rest)[..j] == s[..j];
  }

  /** Exactly one separator splits into the two sides. */
  lemma SplitOnce(s: string, c: char, x: string)
    requires c !in s && c !in x
    ensures Split(s + [c] + x, c) == [s, x]
  {
    var t := s + [c] + x;
    FirstIndexOfAfter(s, c, x);
    assert t[|s| + 1..] == x && t[..|s|] == s;
  }

  /** Appending a separator and a separator-free tail adds exactly that tail as the last piece. */
  lemma {:induction false} SplitAppend(s: string, c: char, x: string)
    requires c !in x
    ensures Split(s + [c] + x, c) == Split(s, c) + [x]
    decreases |s|
  {
    if c in s {
      var j := FirstIndexOf(s, c);
      assert s + [c] + x == s + ([c] + x);
      SplitExtended(s, c, [c] + x);
      assert s[j + 1..] + ([c] + x) == s[j + 1..] + [c] + x;
      SplitAppend(s[j + 1..], c, x);
      assert Split(s, c) == [s[..j]] + Split(s[j + 1..], c);
    } else {
      SplitOnce(s, c, x);
    }
  }

  /** The whitespace that JavaScript's `trim` removes, restricted to ASCII. */
  predicate IsSpace(ch: char) {
    ch == ' ' || ch == '\t' || ch == '\n' || ch == '\r' || ch == '\U{B}' || ch == '\U{C}'
  }

  /** The first index at or after `i` that does not hold whitespace, or `|s|`. */
  function SkipSpaces(s: string, i: nat): (j: nat)
    requires i <= |s|
    ensures i <= j <= |s|
    ensures forall k :: i <= k < j ==> IsSpace(s[k])
    ensures j < |s| ==> !IsSpace(s[j])
    decreases |s| - i
  {
    if i < |s| && IsSpace(s[i]) then SkipSpaces(s, i + 1) else i
  }

  /** The index down to which `s[lo..j]` ends in whitespace: `s[e..j]` is all whitespace and `s[e - 1]` is not. */
  function BackSpaces(s: string, lo: nat, j: nat): (e: nat)
    requires lo <= j <= |s|
    ensures lo <= e <= j
    ensures forall k :: e <= k < j ==> IsSpace(s[k])
    ensures e > lo ==> !IsSpace(s[e - 1])
  {
    if j > lo && IsSpace(s[j - 1]) then BackSpaces(s, lo, j - 1) else j
  }

  /**
   * JavaScript `s.trim()`: the slice of `s` after its leading whitespace and
   * before its trailing whitespace, which neither starts nor ends with
   * whitespace.
   */
  function Trim(s: string): (r: string)
    ensures r == [] || (!IsSpace(r[0]) && !IsSpace(r[|r| - 1]))
    ensures var i := SkipSpaces(s, 0);
      i + |r| <= |s| && r == s[i..i + |r|] && forall k :: i + |r| <= k < |s| ==> IsSpace(s[k])
    ensures s == [] || (!IsSpace(s[0]) && !IsSpace(s[|s| - 1])) ==> r == s
  {
    var i := SkipSpaces(s, 0);
    s[i..BackSpaces(s, i, |s|)]
  }

  /** A slice holds only characters of the whole. */
  lemma SliceKeepsAbsent(s: string, i: nat, j: nat, ch: char)
    requires i <= j <= |s| && ch !in s
    ensures ch !in s[i..j]
  {
    forall k | 0 <= k < j - i ensures s[i..j][k] != ch {
      assert s[i..j][k] == s[i + k];
    }
  }

  /** Trimming adds no character: what is absent from `s` is absent from `Trim(s)`. */
  lemma TrimKeepsAbsent(s: string, ch: char)
    requires ch !in s
    ensures ch !in Trim(s)
  {
    var i := SkipSpaces(s, 0);
    SliceKeepsAbsent(s, i, i + |Trim(s)|, ch);
  }

  /** True when `needle` occurs in `s` starting at position `i`. */
  predicate OccursAt(needle: string, s: string, i: int) {
    0 <= i <= |s| - |needle| && s[i..i + |needle|] == needle
  }

  /** True when `needle` occurs in `s` at some position. */
  ghost predicate Occurs(needle: string, s: string) {
    exists i :: OccursAt(needle, s, i)
  }

  /** PHP `str_replace(needle, repl, s)`: every occurrence, scanned left to right. */
  function ReplaceAll(s: string, needle: string, repl: string): (r: string)
    ensures !Occurs(needle, s) ==> r == s
    ensures repl == "" ==> |r| <= |s|
    ensures forall ch :: ch in r ==> ch in s || ch in repl
    decreases |s|
  {
    if needle == [] || |s| < |needle| then s
    else if needle <= s then
      assert OccursAt(needle, s, 0);
      repl + ReplaceAll(s[|needle|..], needle, repl)
    else
      var r := [s[0]] + ReplaceAll(s[1..], needle, repl);
      assert Occurs(needle, s[1..]) ==> Occurs(needle, s) by {
        if Occurs(needle, s[1..]) {
          var i :| OccursAt(needle, s[1..], i);
          assert s[i + 1..i + 1 + |needle|] == s[1..][i..i + |needle|];
          assert OccursAt(needle, s, i + 1);
        }
      }
      r
  }

  /** Removing a needle that starts with a character absent from `x` leaves `x` alone. */
  lemma {:induction false} ReplaceAllTrailing(x: string, needle: string)
    requires needle != [] && needle[0] !in x
    ensures ReplaceAll(x + needle, needle, "") == x
    decreases |x|
  {
    var s := x + needle;
    if x == [] {
      assert s == needle && s[|needle|..] == [];
    } else {
      assert !(needle <= s) by {
        assert s[0] == x[0];
      }
      assert s[1..] == x[1..] + needle;
      ReplaceAllTrailing(x[1..], needle);
    }
  }

  /** PHP `str_replace` with an array of needles: applied one after the other. */
  function ReplaceEach(s: string, needles: seq<string>, repl: string): (r: string)
    ensures repl == "" ==> |r| <= |s|
    decreases needles
  {
    if needles == [] then s else ReplaceEach(ReplaceAll(s, needles[0], repl), needles[1..], repl)
  }

  /** PHP `str_replace(a, b, s)` for one-character strings: every `a` becomes `b`. */
  function ReplaceChar(s: string, a: char, b: char): (r: string)
    ensures |r| == |s|
    ensures forall k :: 0 <= k < |s| ==> r[k] == (if s[k] == a then b else s[k])
    ensures a != b ==> a !in r
  {
    seq(|s|, k requires 0 <= k < |s| => if s[k] == a then b else s[k])
  }
}
