/** The string operations the source relies on: `startsWith`, `includes`, `toLowerCase`, `trim`. */
module Text {
  import Common

  /** `s.startsWith(p)`. */
  predicate StartsWith(s: string, p: string) {
    |p| <= |s| && s[..|p|] == p
  }

  /** `s.includes(t)`: `t` occurs in `s` at some offset (the empty string occurs everywhere). */
  predicate Contains(s: string, t: string)
    decreases |s|
  {
    StartsWith(s, t) || (|s| > 0 && Contains(s[1..], t))
  }

  lemma StartsWithConcat(p: string, s: string)
    ensures StartsWith(p + s, p)
  {
    assert (p + s)[..|p|] == p;
  }

  /** A string occurs in itself, and the empty string occurs in every string. */
  lemma ContainsItself(s: string)
    ensures Contains(s, s) && Contains(s, "")
  {
    assert s[..|s|] == s;
  }

  /** If `t` holds a character that `s` lacks, `t` does not occur in `s`. */
  lemma {:induction false} NotContainsMissingChar(s: string, t: string, c: char)
    requires c in t && c !in s
    ensures !Contains(s, t)
    decreases |s|
  {
    var k :| 0 <= k < |t| && t[k] == c;
    if |t| <= |s| {
      assert s[..|t|][k] != t[k];
    }
    if |s| > 0 {
      NotContainsMissingChar(s[1..], t, c);
    }
  }

  /** `toLowerCase` on the ASCII range; other characters are kept as they are. */
  function LowerChar(c: char): (r: char)
    ensures 'A' <= c <= 'Z' ==> r as int == c as int + 32
    ensures !('A' <= c <= 'Z') ==> r == c
  {
    if 'A' <= c <= 'Z' then (c as int + 32) as char else c
  }

  function Lower(s: string): (r: string)
    ensures |r| == |s|
    ensures forall i :: 0 <= i < |s| ==> r[i] == LowerChar(s[i])
  {
    seq(|s|, i requires 0 <= i < |s| => LowerChar(s[i]))
  }

  /** The white-space characters `trim` removes (the ASCII ones, no-break space and the byte-order mark). */
  predicate IsSpace(c: char) {
    c == ' ' || c == '\t' || c == '\n' || c == '\r' || c == '\U{000B}' || c == '\U{000C}' || c == '\U{00A0}' || c == '\U{FEFF}'
  }

  function TrimStart(s: string): (r: string)
    ensures |r| <= |s|
    decreases |s|
  {
    if s != [] && IsSpace(s[0]) then TrimStart(s[1..]) else s
  }

  function TrimEnd(s: string): (r: string)
    ensures |r| <= |s|
    decreases |s|
  {
    if s != [] && IsSpace(s[|s| - 1]) then TrimEnd(s[..|s| - 1]) else s
  }

  /** `s.trim()`. */
  function Trim(s: string): string {
    TrimEnd(TrimStart(s))
  }

  /** `t` is a suffix of `s` that does not start with white space, and `s` has only white space before it. */
  predicate StartTrimmed(s: string, t: string) {
    |t| <= |s| && t == s[|s| - |t|..]
    && (t == [] || !IsSpace(t[0]))
    && (forall k :: 0 <= k < |s| - |t| ==> IsSpace(s[k]))
  }

  /** `r` is a prefix of `t` that does not end with white space, and `t` has only white space after it. */
  predicate EndTrimmed(t: string, r: string) {
    |r| <= |t| && r == t[..|r|]
    && (r == [] || !IsSpace(r[|r| - 1]))
    && (forall k :: |r| <= k < |t| ==> IsSpace(t[k]))
  }

  /** `trimStart` drops white space only, and stops at the first other character. */
  lemma {:induction false} TrimStartDropsSpace(s: string)
    ensures StartTrimmed(s, TrimStart(s))
    decreases |s|
  {
    if s != [] && IsSpace(s[0]) {
      TrimStartDropsSpace(s[1..]);
      assert forall k :: 1 <= k < |s| ==> s[k] == s[1..][k - 1];
    }
  }

  /** `trimEnd` drops white space only, and stops at the last other character. */
  lemma {:induction false} TrimEndDropsSpace(t: string)
    ensures EndTrimmed(t, TrimEnd(t))
    decreases |t|
  {
    if t != [] && IsSpace(t[|t| - 1]) {
      TrimEndDropsSpace(t[..|t| - 1]);
      assert forall k :: 0 <= k < |t| - 1 ==> t[k] == t[..|t| - 1][k];
    }
  }

  /**
   * `r` is the slice of `s` starting at `i`, it neither starts nor ends with
   * white space, and everything of `s` around it is white space.
   */
  predicate SpaceAround(s: string, i: nat, r: string) {
    i + |r| <= |s| && r == s[i..i + |r|]
    && (r == [] || (!IsSpace(r[0]) && !IsSpace(r[|r| - 1])))
    && (forall k :: 0 <= k < i ==> IsSpace(s[k]))
    && (forall k :: i + |r| <= k < |s| ==> IsSpace(s[k]))
  }

  /**
   * `trim` keeps a contiguous middle part of the string that neither starts
   * nor ends with white space, and drops only white space around it.
   */
  lemma TrimIsCore(s: string)
    ensures SpaceAround(s, |s| - |TrimStart(s)|, Trim(s))
  {
    var t := TrimStart(s);
    TrimStartDropsSpace(s);
    TrimEndDropsSpace(t);
    MiddleSlice(s, t, TrimEnd(t));
  }

  /**
   * A prefix `r` of a suffix `t` of `s`, where `s` has only white space
   * before `t` and `t` only white space after `r`, is the middle of `s`.
   */
  lemma MiddleSlice(s: string, t: string, r: string)
    requires StartTrimmed(s, t) && EndTrimmed(t, r)
    ensures SpaceAround(s, |s| - |t|, r)
  {
    var i := |s| - |t|;
    PrefixOfSuffix(s, i, |r|);
    if r != [] {
      assert r[0] == t[0];
    }
    forall k | i + |r| <= k < |s| ensures IsSpace(s[k]) {
      assert s[k] == t[k - i];
    }
  }

  lemma PrefixOfSuffix(s: string, i: nat, n: nat)
    requires i + n <= |s|
    ensures s[i..][..n] == s[i..i + n]
  {
  }

  /** A string made only of white space trims to the empty string. */
  lemma {:induction false} TrimAllSpace(s: string)
    requires forall i :: 0 <= i < |s| ==> IsSpace(s[i])
    ensures Trim(s) == ""
    decreases |s|
  {
    if s != [] {
      TrimAllSpace(s[1..]);
    }
  }

  /** `s.trim() || null`: the trimmed text, or `null` when nothing is left. */
  function TrimOrNull(s: string): (r: Common.Option<string>)
    ensures r.Some? ==> r.value != "" && r.value == Trim(s)
    ensures r.None? <==> Trim(s) == ""
  {
    var t := Trim(s);
    if t == "" then Common.None else Common.Some(t)
  }
}
