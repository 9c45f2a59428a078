/** Go's `strings.ReplaceAll(s, old, "")` for a non-empty `old`: every
    occurrence of `old` found by a left-to-right scan is removed; after a
    match the scan resumes just past it, so matches never overlap. */
module Strings {

  predicate OccursAt(s: string, pat: string, i: int) {
    0 <= i && i + |pat| <= |s| && s[i..i + |pat|] == pat
  }

  /** `pat` does not occur anywhere in `s`. */
  predicate Free(s: string, pat: string) {
    forall i :: 0 <= i <= |s| - |pat| ==> !OccursAt(s, pat, i)
  }

  /** No proper prefix of `pat` is also a suffix of it, so two occurrences of
      `pat` can never overlap. */
  predicate Unbordered(pat: string) {
    forall k :: 0 < k < |pat| ==> pat[..k] != pat[|pat| - k..]
  }

  /** `strings.ReplaceAll(s, pat, "")`: the leftmost match is removed and the
      scan resumes after it; otherwise the first character is kept. */
  function RemoveAll(s: string, pat: string): (r: string)
    requires |pat| > 0
    ensures |r| <= |s|
    decreases |s|
  {
    if |s| < |pat| then s
    else if s[..|pat|] == pat then RemoveAll(s[|pat|..], pat)
    else [s[0]] + RemoveAll(s[1..], pat)
  }

  /** Dropping the first character keeps a string free of `pat`. */
  lemma FreeTail(s: string, pat: string)
    requires |s| > 0 && Free(s, pat)
    ensures Free(s[1..], pat)
  {
    forall i | 0 <= i <= |s[1..]| - |pat|
      ensures !OccursAt(s[1..], pat, i)
    {
      assert !OccursAt(s, pat, i + 1);
      assert s[1..][i..i + |pat|] == s[i + 1..i + 1 + |pat|];
    }
  }

  /** A string in which `pat` does not occur is left unchanged. */
  lemma {:induction false} RemoveAllFree(s: string, pat: string)
    requires |pat| > 0 && Free(s, pat)
    ensures RemoveAll(s, pat) == s
    decreases |s|
  {
    if |s| >= |pat| {
      assert !OccursAt(s, pat, 0);
      FreeTail(s, pat);
      RemoveAllFree(s[1..], pat);
    }
  }

  /** No match starts inside a non-empty, pattern-free `a` in front of `pat`. */
  lemma NoMatchBefore(a: string, pat: string, b: string)
    requires |pat| > 0 && Unbordered(pat) && Free(a, pat) && a != []
    ensures (a + pat + b)[..|pat|] != pat
  {
    var s := a + pat + b;
    if |a| >= |pat| {
      assert s[..|pat|] == a[0..|pat|];
      assert !OccursAt(a, pat, 0);
    } else {
      var k := |pat| - |a|;
      assert pat[..k] != pat[|pat| - k..];
      assert s[..|pat|][|a|..] == pat[..k];
    }
  }

  /** For an unbordered `pat`: when `a` holds no occurrence, the first match in
      `a + pat + b` is exactly the `pat` after `a`, and the scan goes on in `b`. */
  lemma {:induction false} RemoveAllSplit(a: string, pat: string, b: string)
    requires |pat| > 0 && Unbordered(pat) && Free(a, pat)
    ensures RemoveAll(a + pat + b, pat) == a + RemoveAll(b, pat)
    decreases |a|
  {
    var s := a + pat + b;
    if a == [] {
      assert s == pat + b;
      assert s[..|pat|] == pat && s[|pat|..] == b;
    } else {
      NoMatchBefore(a, pat, b);
      assert RemoveAll(s, pat) == [s[0]] + RemoveAll(s[1..], pat);
      FreeTail(a, pat);
      assert s[1..] == a[1..] + pat + b;
      RemoveAllSplit(a[1..], pat, b);
      assert s[0] == a[0];
      ConsAppend(a, RemoveAll(b, pat));
    }
  }

  lemma ConsAppend<T>(xs: seq<T>, ys: seq<T>)
    requires |xs| > 0
    ensures [xs[0]] + (xs[1..] + ys) == xs + ys
  {
    assert xs == [xs[0]] + xs[1..];
  }
}
