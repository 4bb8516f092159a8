/**
 * The string normalisations the game applies to typed text: Java's
 * `String.trim` (which strips every character up to and including U+0020 from
 * both ends) and upper/lower-casing, here restricted to the ASCII letters.
 */
module Text {

  /** The characters `String.trim` removes. */
  predicate IsTrimmable(c: char)
  {
    c <= ' '
  }

  /** The first index at or after `i` whose character survives trimming, or
      `|s|` when there is none: the forward scan of `String.trim`. */
  function FirstKept(s: string, i: nat): (k: nat)
    requires i <= |s|
    ensures i <= k <= |s|
    ensures forall j :: i <= j < k ==> IsTrimmable(s[j])
    ensures k == |s| || !IsTrimmable(s[k])
    decreases |s| - i
  {
    if i < |s| && IsTrimmable(s[i]) then FirstKept(s, i + 1) else i
  }

  /** The end of the kept text: the backward scan of `String.trim`, which
      stops at `lo` or just after the last character that survives. */
  function LastKept(s: string, lo: nat, hi: nat): (k: nat)
    requires lo <= hi <= |s|
    ensures lo <= k <= hi
    ensures forall j :: k <= j < hi ==> IsTrimmable(s[j])
    ensures k == lo || !IsTrimmable(s[k - 1])
    decreases hi
  {
    if lo < hi && IsTrimmable(s[hi - 1]) then LastKept(s, lo, hi - 1) else hi
  }

  /** `r` is the slice of `s` that starts at `i`, and everything of `s` before
      and after that slice is trimmable. */
  predicate CutAt(s: string, r: string, i: int)
  {
    && 0 <= i <= |s| - |r|
    && r == s[i..i + |r|]
    && (forall j :: 0 <= j < i ==> IsTrimmable(s[j]))
    && (forall j :: i + |r| <= j < |s| ==> IsTrimmable(s[j]))
  }

  /** `String.trim`: the longest infix of `s` that neither starts nor ends with
      a trimmable character; everything cut off on either side is trimmable. */
  function Trim(s: string): (r: string)
    ensures |r| <= |s|
    ensures r == [] || (!IsTrimmable(r[0]) && !IsTrimmable(r[|r| - 1]))
    ensures exists i :: CutAt(s, r, i)
  {
    var st := FirstKept(s, 0);
    var len := LastKept(s, st, |s|);
    assert CutAt(s, s[st..len], st);
    s[st..len]
  }

  function UpperChar(c: char): char
  {
    if 'a' <= c <= 'z' then (c as int - 'a' as int + 'A' as int) as char else c
  }

  function LowerChar(c: char): char
  {
    if 'A' <= c <= 'Z' then (c as int - 'A' as int + 'a' as int) as char else c
  }

  /** `toUpperCase` on ASCII: every lower-case letter replaced by its capital,
      nothing else touched, so no lower-case letter remains. */
  function ToUpper(s: string): (r: string)
    ensures |r| == |s|
    ensures forall i :: 0 <= i < |s| ==> r[i] == UpperChar(s[i])
    ensures forall i :: 0 <= i < |r| ==> !('a' <= r[i] <= 'z')
  {
    if s == [] then [] else [UpperChar(s[0])] + ToUpper(s[1..])
  }

  /** `toLowerCase` on ASCII. */
  function ToLower(s: string): (r: string)
    ensures |r| == |s|
    ensures forall i :: 0 <= i < |s| ==> r[i] == LowerChar(s[i])
    ensures forall i :: 0 <= i < |r| ==> !('A' <= r[i] <= 'Z')
  {
    if s == [] then [] else [LowerChar(s[0])] + ToLower(s[1..])
  }

  /** Every character of `s` is one `String.trim` removes. */
  predicate Blank(s: string)
  {
    forall i :: 0 <= i < |s| ==> IsTrimmable(s[i])
  }

  /** A character that trimming keeps lies inside the cut. */
  lemma KeptInsideCut(s: string, r: string, i: int, k: int)
    requires CutAt(s, r, i) && 0 <= k < |s| && !IsTrimmable(s[k])
    ensures i <= k < i + |r|
  {
  }

  /** Trimming removes exactly the blank padding around a text whose two ends
      are not blank. */
  lemma TrimPadded(pre: string, core: string, post: string)
    requires Blank(pre) && Blank(post)
    requires core != [] && !IsTrimmable(core[0]) && !IsTrimmable(core[|core| - 1])
    ensures Trim(pre + core + post) == core
  {
    var s := pre + core + post;
    var a, b := |pre|, |pre| + |core|;
    var r := Trim(s);
    var i :| CutAt(s, r, i);
    assert s[a] == core[0] && s[b - 1] == core[|core| - 1];
    KeptInsideCut(s, r, i, a);
    KeptInsideCut(s, r, i, b - 1);
    assert i == a by {
      assert r[0] == s[i];
    }
    assert i + |r| == b by {
      assert r[|r| - 1] == s[i + |r| - 1];
    }
    assert s[a..b] == core;
  }

  /** Trimming twice is trimming once. */
  lemma TrimIdempotent(s: string)
    ensures Trim(Trim(s)) == Trim(s)
  {
    var t := Trim(s);
    assert FirstKept(t, 0) == 0;
    assert LastKept(t, 0, |t|) == |t|;
    assert t[0..|t|] == t;
  }
}
