/** The string operations the scorer and the rule engine rely on: lower-casing,
    whitespace trimming and substring search. Strings are sequences of
    characters; nothing here normalises or re-encodes them. */
module Text {

  /** Lower-cases one character. Only the ASCII letters are mapped. */
  function LowerChar(c: char): char {
    if 'A' <= c <= 'Z' then (c as int + 32) as char else c
  }

  predicate IsUpperAscii(c: char) {
    'A' <= c <= 'Z'
  }

  /** `str::to_lowercase`, restricted to ASCII letters. */
  function ToLower(s: string): (r: string)
    ensures |r| == |s|
    ensures forall i :: 0 <= i < |r| ==> !IsUpperAscii(r[i])
    ensures forall i :: 0 <= i < |s| && !IsUpperAscii(s[i]) ==> r[i] == s[i]
  {
    seq(|s|, i requires 0 <= i < |s| => LowerChar(s[i]))
  }

  /** Lower-casing twice is lower-casing once. */
  lemma ToLowerIdempotent(s: string)
    ensures ToLower(ToLower(s)) == ToLower(s)
  {
  }

  /** A string without upper-case ASCII letters is its own lower-case form. */
  lemma LowerKeepsLower(s: string)
    requires forall i :: 0 <= i < |s| ==> !IsUpperAscii(s[i])
    ensures ToLower(s) == s
  {
  }

  /** The characters with the Unicode White_Space property, which is what
      `char::is_whitespace` and therefore `str::trim` use. */
  predicate IsWhitespace(c: char) {
    || ('\t' <= c <= '\r')
    || c == ' '
    || c == '\U{0085}'
    || c == '\U{00A0}'
    || c == '\U{1680}'
    || ('\U{2000}' <= c <= '\U{200A}')
    || c == '\U{2028}'
    || c == '\U{2029}'
    || c == '\U{202F}'
    || c == '\U{205F}'
    || c == '\U{3000}'
  }

  /** Drops leading whitespace: the result is the longest suffix of `s` that
      does not start with whitespace. */
  function TrimStart(s: string): (r: string)
    ensures |r| <= |s| && r == s[|s| - |r|..]
    ensures forall k :: 0 <= k < |s| - |r| ==> IsWhitespace(s[k])
    ensures |r| > 0 ==> !IsWhitespace(r[0])
  {
    if |s| > 0 && IsWhitespace(s[0]) then TrimStart(s[1..]) else s
  }

  /** Drops trailing whitespace: the result is the longest prefix of `s` that
      does not end with whitespace. */
  function TrimEnd(s: string): (r: string)
    ensures |r| <= |s| && r == s[..|r|]
    ensures forall k :: |r| <= k < |s| ==> IsWhitespace(s[k])
    ensures |r| > 0 ==> !IsWhitespace(r[|r| - 1])
  {
    if |s| > 0 && IsWhitespace(s[|s| - 1]) then TrimEnd(s[..|s| - 1]) else s
  }

  /** `str::trim`: `s` without its leading and trailing whitespace. Neither
      end of the result is whitespace; `TrimSpec` says where in `s` the
      result sits. */
  function Trim(s: string): (r: string)
    ensures |r| <= |s|
    ensures |r| > 0 ==> !IsWhitespace(r[0]) && !IsWhitespace(r[|r| - 1])
  {
    var t := TrimStart(s);
    var r := TrimEnd(t);
    if |r| > 0 then
      assert r[0] == t[0];
      r
    else
      r
  }

  /** The trimmed string is a slice of the original outside which there is
      only whitespace, and it neither starts nor ends with whitespace. */
  lemma {:induction false} TrimSpec(s: string)
    ensures exists lo :: TrimmedAt(s, Trim(s), lo)
    ensures var r := Trim(s); |r| > 0 ==> !IsWhitespace(r[0]) && !IsWhitespace(r[|r| - 1])
  {
    TrimSlice(s);
  }

  /** The trimmed string sits where leading whitespace ends. */
  lemma {:induction false} TrimSlice(s: string)
    ensures TrimmedAt(s, Trim(s), |s| - |TrimStart(s)|)
  {
    var t := TrimStart(s);
    var r := TrimEnd(t);
    SliceTrimmed(s, |s| - |t|, t, r);
  }

  /** Conversely, a non-empty slice of `s` with only whitespace outside it
      and no whitespace at either end is the trim of `s`: the trim is
      determined by these properties. */
  lemma {:induction false} TrimmedUnique(s: string, r: string, lo: int)
    requires TrimmedAt(s, r, lo)
    requires |r| > 0 && !IsWhitespace(r[0]) && !IsWhitespace(r[|r| - 1])
    ensures Trim(s) == r
  {
    assert s[lo] == r[0];
    StartUnique(s, lo);
    var t := s[lo..];
    SuffixPrefix(s, lo, |r|);
    forall k | |r| <= k < |t|
      ensures IsWhitespace(t[k])
    {
      assert t[k] == s[lo + k];
    }
    assert t[|r| - 1] == r[|r| - 1];
    EndUnique(t, |r|);
  }

  /** Leading whitespace ending just before a non-whitespace character at
      `lo` is exactly what `TrimStart` drops. */
  lemma StartUnique(s: string, lo: int)
    requires 0 <= lo < |s| && !IsWhitespace(s[lo])
    requires forall k :: 0 <= k < lo ==> IsWhitespace(s[k])
    ensures TrimStart(s) == s[lo..]
  {
    var t := TrimStart(s);
    var start := |s| - |t|;
    if start < lo {
      assert false;
    } else if start > lo {
      assert false;
    }
  }

  /** Trailing whitespace starting just after a non-whitespace character at
      `n - 1` is exactly what `TrimEnd` drops. */
  lemma EndUnique(t: string, n: int)
    requires 0 < n <= |t| && !IsWhitespace(t[n - 1])
    requires forall k :: n <= k < |t| ==> IsWhitespace(t[k])
    ensures TrimEnd(t) == t[..n]
  {
    var e := TrimEnd(t);
    if |e| < n {
      assert false;
    } else if |e| > n {
      assert false;
    }
  }

  /** Trimming `s` gives a string `r` that neither starts nor ends with
      whitespace exactly when `r` sits in `s` with only whitespace around
      it. */
  lemma TrimEquals(s: string, r: string)
    requires |r| > 0 && !IsWhitespace(r[0]) && !IsWhitespace(r[|r| - 1])
    ensures Trim(s) == r <==> exists lo :: TrimmedAt(s, r, lo)
  {
    TrimSlice(s);
    if lo :| TrimmedAt(s, r, lo) {
      TrimmedUnique(s, r, lo);
    }
  }

  /** A string that neither starts nor ends with whitespace is its own
      trim. */
  lemma TrimUnpadded(s: string)
    requires |s| > 0 && !IsWhitespace(s[0]) && !IsWhitespace(s[|s| - 1])
    ensures Trim(s) == s
  {
    assert TrimmedAt(s, s, 0);
    TrimmedUnique(s, s, 0);
  }

  /** `r` is trimmed out of `s` at `lo` when it is a prefix of the suffix
      `t` starting at `lo`, with only whitespace before `t` and after `r`. */
  lemma SliceTrimmed(s: string, lo: nat, t: string, r: string)
    requires lo <= |s| && t == s[lo..]
    requires |r| <= |t| && r == t[..|r|]
    requires forall k :: 0 <= k < lo ==> IsWhitespace(s[k])
    requires forall k :: |r| <= k < |t| ==> IsWhitespace(t[k])
    ensures TrimmedAt(s, r, lo)
  {
    SuffixPrefix(s, lo, |r|);
    WhitespaceTail(s, lo, |r|);
  }

  /** A prefix of a suffix is a slice. */
  lemma SuffixPrefix(s: string, lo: nat, n: nat)
    requires lo + n <= |s|
    ensures s[lo..][..n] == s[lo..lo + n]
  {
  }

  /** Whitespace at the end of a suffix is whitespace at the end of the
      whole string. */
  lemma WhitespaceTail(s: string, lo: nat, n: nat)
    requires lo + n <= |s|
    requires forall k :: n <= k < |s[lo..]| ==> IsWhitespace(s[lo..][k])
    ensures forall k :: lo + n <= k < |s| ==> IsWhitespace(s[k])
  {
    forall k | lo + n <= k < |s|
      ensures IsWhitespace(s[k])
    {
      assert s[k] == s[lo..][k - lo];
    }
  }

  /** `r` is the slice of `s` starting at `lo`, and everything of `s` outside
      that slice is whitespace. */
  predicate TrimmedAt(s: string, r: string, lo: int) {
    && 0 <= lo <= |s| - |r|
    && r == s[lo..lo + |r|]
    && (forall k :: 0 <= k < lo ==> IsWhitespace(s[k]))
    && (forall k :: lo + |r| <= k < |s| ==> IsWhitespace(s[k]))
  }

  /** Trimming is idempotent. */
  lemma {:induction false} TrimIdempotent(s: string)
    ensures Trim(Trim(s)) == Trim(s)
  {
    var t := Trim(s);
    if |t| > 0 {
      TrimUnpadded(t);
    }
  }

  /** `str::starts_with`. */
  predicate StartsWith(s: string, prefix: string) {
    |prefix| <= |s| && s[..|prefix|] == prefix
  }

  /** `str::contains`: `needle` occurs in `s` at some position. The empty
      needle occurs in every string. */
  function Contains(s: string, needle: string): (r: bool)
    ensures r <==> exists i :: OccursAt(s, needle, i)
  {
    if StartsWith(s, needle) then
      assert OccursAt(s, needle, 0);
      true
    else if |s| == 0 then
      false
    else
      var r := Contains(s[1..], needle);
      assert forall i :: OccursAt(s[1..], needle, i) <==> OccursAt(s, needle, i + 1);
      assert forall i :: OccursAt(s, needle, i) ==> i == 0 || OccursAt(s[1..], needle, i - 1);
      r
  }

  /** `needle` occurs in `s` starting at index `i`. */
  predicate OccursAt(s: string, needle: string, i: int) {
    0 <= i <= |s| - |needle| && s[i..i + |needle|] == needle
  }
}
