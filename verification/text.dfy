/**
 * The few string operations of Python's `str` the rollout engine relies on:
 * `strip`, `lower`, `startswith`, `endswith`, `in` and `split(sep)[0]`.
 * Whitespace and case are the ASCII ones.
 */
module Text {

  /** Python's `str.isspace` on the ASCII range. */
  predicate IsSpace(c: char) {
    c == ' ' || c == '\t' || c == '\n' || c == '\r' || c == '\U{0B}' || c == '\U{0C}'
    || ('\U{1C}' <= c <= '\U{1F}')
  }

  /** `r` sits in `s` at offset `i` with nothing but whitespace around it. */
  predicate PaddedAt(s: string, r: string, i: int) {
    && 0 <= i <= |s| - |r|
    && r == s[i..i + |r|]
    && (forall j :: 0 <= j < i ==> IsSpace(s[j]))
    && (forall j :: i + |r| <= j < |s| ==> IsSpace(s[j]))
  }

  /** Python's `s.strip()`: drops whitespace from both ends. */
  function Strip(s: string): string
    decreases |s|
  {
    if |s| > 0 && IsSpace(s[0]) then Strip(s[1..])
    else if |s| > 0 && IsSpace(s[|s| - 1]) then Strip(s[..|s| - 1])
    else s
  }

  /** Framing survives putting whitespace back at the front. */
  lemma PaddedConsSpace(s: string, r: string, i: int)
    requires |s| > 0 && IsSpace(s[0])
    requires PaddedAt(s[1..], r, i)
    ensures PaddedAt(s, r, i + 1)
  {
    assert s[1..][i..i + |r|] == s[i + 1..i + 1 + |r|];
    forall j | 0 <= j < i + 1 ensures IsSpace(s[j]) {
      if j > 0 { assert s[j] == s[1..][j - 1]; }
    }
    forall j | i + 1 + |r| <= j < |s| ensures IsSpace(s[j]) {
      assert s[j] == s[1..][j - 1];
    }
  }

  /** Framing survives putting whitespace back at the end. */
  lemma PaddedSnocSpace(s: string, r: string, i: int)
    requires |s| > 0 && IsSpace(s[|s| - 1])
    requires PaddedAt(s[..|s| - 1], r, i)
    ensures PaddedAt(s, r, i)
  {
    assert s[..|s| - 1][i..i + |r|] == s[i..i + |r|];
    forall j | 0 <= j < i ensures IsSpace(s[j]) {
      assert s[j] == s[..|s| - 1][j];
    }
    forall j | i + |r| <= j < |s| ensures IsSpace(s[j]) {
      if j < |s| - 1 { assert s[j] == s[..|s| - 1][j]; }
    }
  }

  /**
   * The stripped string is the infix of `s` framed by whitespace on both
   * sides that neither starts nor ends with whitespace.
   */
  lemma {:induction false} StripSpec(s: string)
    ensures exists i :: PaddedAt(s, Strip(s), i)
    ensures |Strip(s)| > 0 ==> !IsSpace(Strip(s)[0]) && !IsSpace(Strip(s)[|Strip(s)| - 1])
    decreases |s|
  {
    if |s| > 0 && IsSpace(s[0]) {
      StripSpec(s[1..]);
      var i :| PaddedAt(s[1..], Strip(s[1..]), i);
      PaddedConsSpace(s, Strip(s), i);
    } else if |s| > 0 && IsSpace(s[|s| - 1]) {
      StripSpec(s[..|s| - 1]);
      var i :| PaddedAt(s[..|s| - 1], Strip(s[..|s| - 1]), i);
      PaddedSnocSpace(s, Strip(s), i);
    } else {
      assert PaddedAt(s, Strip(s), 0);
    }
  }

  /** Stripping a stripped string changes nothing. */
  lemma StripIdempotent(s: string)
    ensures Strip(Strip(s)) == Strip(s)
  {
    StripSpec(s);
  }

  /** Python's `str.lower` on one ASCII character. */
  function LowerChar(c: char): char {
    if 'A' <= c <= 'Z' then (c as int + 32) as char else c
  }

  /** Python's `s.lower()`: length-preserving, letter by letter. */
  function Lower(s: string): (r: string)
    ensures |r| == |s|
    ensures forall i :: 0 <= i < |s| ==> r[i] == LowerChar(s[i])
  {
    if s == [] then [] else [LowerChar(s[0])] + Lower(s[1..])
  }

  /** Lower-casing twice is lower-casing once. */
  lemma LowerIdempotent(s: string)
    ensures Lower(Lower(s)) == Lower(s)
  {
    assert forall i :: 0 <= i < |s| ==> LowerChar(LowerChar(s[i])) == LowerChar(s[i]);
  }

  /** Python's `s.startswith(p)`. */
  predicate StartsWith(s: string, p: string) {
    |p| <= |s| && s[..|p|] == p
  }

  /** Python's `s.endswith(p)`. */
  predicate EndsWith(s: string, p: string) {
    |p| <= |s| && s[|s| - |p|..] == p
  }

  /** Python's `p in s` for strings. */
  predicate Contains(s: string, p: string) {
    exists i | 0 <= i <= |s| - |p| :: OccursAt(s, p, i)
  }

  /** `p` occurs in `s` starting at index `i`. */
  predicate OccursAt(s: string, p: string, i: int) {
    0 <= i <= |s| - |p| && s[i..i + |p|] == p
  }

  /** Python's `s.split(sep)[0]`: everything before the first `sep`. */
  function SplitFirst(s: string, sep: char): (r: string)
    ensures StartsWith(s, r)
    ensures sep !in r
    ensures |r| == |s| || s[|r|] == sep
  {
    if s == [] || s[0] == sep then [] else [s[0]] + SplitFirst(s[1..], sep)
  }
}
