/**
 * Hand-written matchers for the small fixed patterns: a whitespace run
 * (`\s+`) and two words separated by one (`word\s+word`, matched without
 * regard to case), with the facts that let a match move between a string, its
 * slices and its upper-cased form.
 */
module Patterns {
  import opened Wrappers
  import opened Text

  /** End of the whitespace run that starts at `i`. */
  function SpaceRunEnd(s: string, i: nat): (j: nat)
    requires i <= |s|
    ensures i <= j <= |s|
    ensures forall k :: i <= k < j ==> IsSpace(s[k])
    ensures j < |s| ==> !IsSpace(s[j])
    decreases |s| - i
  {
    if i < |s| && IsSpace(s[i]) then SpaceRunEnd(s, i + 1) else i
  }

  /**
   * `a\s+b` at `i`, ignoring case (`a` and `b` are written in lower case):
   * the index just past `b`.
   */
  function PhraseAt(s: string, i: nat, a: string, b: string): (e: Option<nat>)
    requires i <= |s|
    ensures e.Some? ==> i + |a| + |b| < e.value <= |s|
    ensures e.Some? ==> Lower(s[i..i + |a|]) == a
  {
    if i + |a| <= |s| && Lower(s[i..i + |a|]) == a then
      var j := SpaceRunEnd(s, i + |a|);
      if j > i + |a| && j + |b| <= |s| && Lower(s[j..j + |b|]) == b then Some(j + |b|) else None
    else None
  }

  /** `re.search(r'a\s+b', s, re.IGNORECASE)` found something. */
  predicate ContainsPhrase(s: string, a: string, b: string)
  {
    exists k :: 0 <= k <= |s| && PhraseAt(s, k, a, b).Some?
  }

  lemma {:induction false} SpaceRunEndSlice(x: string, lo: nat, hi: nat, j: nat)
    requires lo <= hi <= |x| && j <= hi - lo
    ensures SpaceRunEnd(x[lo..hi], j) < hi - lo ==> SpaceRunEnd(x, lo + j) == lo + SpaceRunEnd(x[lo..hi], j)
    decreases hi - lo - j
  {
    var y := x[lo..hi];
    if j < |y| && IsSpace(y[j]) {
      SpaceRunEndSlice(x, lo, hi, j + 1);
    }
  }

  /** A match inside a slice is a match of the whole string at the shifted place. */
  lemma PhraseAtSlice(x: string, lo: nat, hi: nat, k: nat, a: string, b: string)
    requires lo <= hi <= |x| && k <= hi - lo
    requires b != [] && !IsSpace(b[0])
    ensures PhraseAt(x[lo..hi], k, a, b).Some? ==> PhraseAt(x, lo + k, a, b).Some?
  {
    var y := x[lo..hi];
    if PhraseAt(y, k, a, b).Some? {
      var j := PhraseAtParts(y, k, a, b);
      LowerOfSliceOfSlice(x, lo, hi, k, a);
      SpaceRunEndSlice(x, lo, hi, k + |a|);
      LowerOfSliceOfSlice(x, lo, hi, j, b);
      PhraseAtOf(x, lo + k, a, b, lo + j);
    }
  }

  lemma LowerOfSliceOfSlice(x: string, lo: nat, hi: nat, i: nat, w: string)
    requires lo <= hi <= |x| && i + |w| <= hi - lo
    requires Lower(x[lo..hi][i..i + |w|]) == w
    ensures Lower(x[lo + i..lo + i + |w|]) == w
  {
    SliceOfSlice(x, lo, hi, i, i + |w|);
  }

  /** A match, taken apart: `a` at `i`, a whitespace run up to `e`, then `b` starting with no whitespace. */
  lemma PhraseAtParts(x: string, i: nat, a: string, b: string) returns (e: nat)
    requires i <= |x| && PhraseAt(x, i, a, b).Some?
    requires b != [] && !IsSpace(b[0])
    ensures i + |a| <= |x| && Lower(x[i..i + |a|]) == a
    ensures SpaceRunEnd(x, i + |a|) == e && i + |a| < e < |x|
    ensures e + |b| <= |x| && Lower(x[e..e + |b|]) == b
  {
    e := SpaceRunEnd(x, i + |a|);
    assert Lower(x[e..e + |b|])[0] == ToLowerChar(x[e]);
  }

  /** The pieces of a match: `a` at `i`, a whitespace run up to `e`, then `b`. */
  lemma PhraseAtOf(x: string, i: nat, a: string, b: string, e: nat)
    requires i + |a| <= |x| && Lower(x[i..i + |a|]) == a
    requires SpaceRunEnd(x, i + |a|) == e && e > i + |a|
    requires e + |b| <= |x| && Lower(x[e..e + |b|]) == b
    ensures PhraseAt(x, i, a, b).Some?
  {
  }

  /** A string without the phrase has none in any slice either. */
  lemma NoPhraseSlice(x: string, lo: nat, hi: nat, a: string, b: string)
    requires lo <= hi <= |x| && b != [] && !IsSpace(b[0])
    requires forall k :: 0 <= k <= |x| ==> PhraseAt(x, k, a, b).None?
    ensures forall k :: 0 <= k <= hi - lo ==> PhraseAt(x[lo..hi], k, a, b).None?
  {
    forall k | 0 <= k <= hi - lo
      ensures PhraseAt(x[lo..hi], k, a, b).None?
    {
      PhraseAtSlice(x, lo, hi, k, a, b);
    }
  }

  lemma {:induction false} SpaceRunEndUpper(x: string, j: nat)
    requires j <= |x|
    ensures SpaceRunEnd(Upper(x), j) == SpaceRunEnd(x, j)
    decreases |x| - j
  {
    UpperPreservesSpaces(x);
    if j < |x| && IsSpace(x[j]) {
      SpaceRunEndUpper(x, j + 1);
    }
  }

  lemma LowerOfUpperSlice(x: string, lo: nat, hi: nat)
    requires lo <= hi <= |x|
    ensures Lower(Upper(x)[lo..hi]) == Lower(x[lo..hi])
  {
    assert Upper(x)[lo..hi] == Upper(x[lo..hi]);
    LowerOfUpper(x[lo..hi]);
  }

  /** Upper-casing neither creates nor removes a match. */
  lemma PhraseAtUpper(x: string, k: nat, a: string, b: string)
    requires k <= |x|
    ensures PhraseAt(Upper(x), k, a, b) == PhraseAt(x, k, a, b)
  {
    if k + |a| <= |x| {
      LowerOfUpperSlice(x, k, k + |a|);
      SpaceRunEndUpper(x, k + |a|);
      var j := SpaceRunEnd(x, k + |a|);
      if j + |b| <= |x| {
        LowerOfUpperSlice(x, j, j + |b|);
      }
      PhraseAtAgree(x, Upper(x), k, a, b, j);
    }
  }

  /** Two strings that look the same to the matcher around `k` match there alike. */
  lemma PhraseAtAgree(x: string, y: string, k: nat, a: string, b: string, j: nat)
    requires |x| == |y| && k + |a| <= |x|
    requires Lower(y[k..k + |a|]) == Lower(x[k..k + |a|])
    requires SpaceRunEnd(y, k + |a|) == j && SpaceRunEnd(x, k + |a|) == j
    requires j + |b| <= |x| ==> Lower(y[j..j + |b|]) == Lower(x[j..j + |b|])
    ensures PhraseAt(y, k, a, b) == PhraseAt(x, k, a, b)
  {
  }

  lemma NoNewlineSlice(c: string, lo: nat, hi: nat)
    requires lo <= hi <= |c| && '\n' !in c
    ensures '\n' !in c[lo..hi]
  {
    assert forall i :: 0 <= i < hi - lo ==> c[lo..hi][i] == c[lo + i];
  }
}
