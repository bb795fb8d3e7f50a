/**
 * The two pure steps of `callback_size_nodes` (app.py:137-148): picking the
 * attribute named by the last word of the dropdown label, and mapping an
 * attribute value linearly from its column's bounds onto the node sizes.
 */
module Sizing {

  /** The characters `str.split()` separates words on (`str.isspace`). */
  predicate IsSpace(c: char) {
    || c == ' ' || '\t' <= c <= '\r' || '\U{1C}' <= c <= '\U{1F}'
    || c == '\U{85}' || c == '\U{A0}' || c == '\U{1680}'
    || '\U{2000}' <= c <= '\U{200A}' || c == '\U{2028}' || c == '\U{2029}'
    || c == '\U{202F}' || c == '\U{205F}' || c == '\U{3000}'
  }

  predicate NoSpace(s: string) {
    forall i :: 0 <= i < |s| ==> !IsSpace(s[i])
  }

  predicate AllSpace(s: string) {
    forall i :: 0 <= i < |s| ==> IsSpace(s[i])
  }

  /** `s.split()` is not empty. */
  predicate HasWord(s: string) {
    exists i :: 0 <= i < |s| && !IsSpace(s[i])
  }

  /** `s` with its trailing whitespace removed. */
  function TrimTrailingSpace(s: string): (r: string)
    ensures |r| <= |s| && r == s[..|r|]
    ensures AllSpace(s[|r|..])
    ensures r == [] || !IsSpace(r[|r| - 1])
    ensures forall i :: 0 <= i < |s| && !IsSpace(s[i]) ==> i < |r|
  {
    if s != [] && IsSpace(s[|s| - 1]) then
      var r := TrimTrailingSpace(s[..|s| - 1]);
      assert s[|r|..] == s[..|s| - 1][|r|..] + [s[|s| - 1]];
      assert forall i :: 0 <= i < |s| - 1 ==> s[..|s| - 1][i] == s[i];
      r
    else s
  }

  /** The longest suffix of `s` without whitespace. */
  function TrailingRun(s: string): (w: string)
    ensures |w| <= |s| && w == s[|s| - |w|..]
    ensures NoSpace(w)
    ensures |w| == |s| || IsSpace(s[|s| - |w| - 1])
    ensures s != [] && !IsSpace(s[|s| - 1]) ==> w != []
  {
    if s == [] || IsSpace(s[|s| - 1]) then []
    else
      var s' := s[..|s| - 1];
      var w := TrailingRun(s');
      var r := w + [s[|s| - 1]];
      assert s[|s| - |r|..] == s'[|s'| - |w|..] + [s[|s| - 1]];
      assert |r| == |s| || s[|s| - |r| - 1] == s'[|s'| - |w| - 1];
      assert forall i :: 0 <= i < |w| ==> r[i] == w[i];
      r
  }

  /**
   * `s.split()[-1]`, which raises on a text without words: the last
   * maximal run of non-whitespace characters.
   */
  function LastWord(s: string): (w: string)
    requires HasWord(s)
    ensures w != [] && NoSpace(w)
  {
    TrailingRun(TrimTrailingSpace(s))
  }

  /**
   * The word found ends the text up to whitespace and starts it or follows
   * whitespace.
   */
  lemma LastWordEnds(s: string)
    requires HasWord(s)
    ensures exists p, t :: WordAtEnd(s, p, LastWord(s), t)
  {
    var r := TrimTrailingSpace(s);
    var w := TrailingRun(r);
    assert w == LastWord(s);
    SplitAtRun(s, r, w);
  }

  lemma SplitAtRun(s: string, r: string, w: string)
    requires |r| <= |s| && r == s[..|r|] && AllSpace(s[|r|..])
    requires |w| <= |r| && w == r[|r| - |w|..] && (|w| == |r| || IsSpace(r[|r| - |w| - 1]))
    ensures WordAtEnd(s, r[..|r| - |w|], w, s[|r|..])
  {
    var p, t := r[..|r| - |w|], s[|r|..];
    assert r == p + w;
    assert s == r + t;
  }

  /** `s` is `p`, then the word `w`, then whitespace, and `p` does not run into `w`. */
  predicate WordAtEnd(s: string, p: string, w: string, t: string) {
    s == p + w + t && AllSpace(t) && (p == [] || IsSpace(p[|p| - 1]))
  }

  /**
   * The word found is the one that ends the text: any text made of a prefix
   * ending in whitespace, a word and trailing whitespace has that word last.
   */
  lemma LastWordOf(p: string, w: string, t: string)
    requires w != [] && NoSpace(w) && AllSpace(t)
    requires p == [] || IsSpace(p[|p| - 1])
    ensures HasWord(p + w + t)
    ensures LastWord(p + w + t) == w
  {
    var s := p + w + t;
    assert s[|p|] == w[0];
    TrimTrailingOf(p + w, t);
    assert s[..|p + w|] == p + w;
    TrailingRunOf(p, w);
  }

  lemma {:induction false} TrimTrailingOf(r: string, t: string)
    requires r != [] && !IsSpace(r[|r| - 1]) && AllSpace(t)
    ensures TrimTrailingSpace(r + t) == r
  {
    if t != [] {
      var init := t[..|t| - 1];
      assert (r + t)[..|r + t| - 1] == r + init;
      TrimTrailingOf(r, init);
    } else {
      assert r + t == r;
    }
  }

  lemma {:induction false} TrailingRunOf(p: string, w: string)
    requires NoSpace(w) && (p == [] || IsSpace(p[|p| - 1]))
    ensures TrailingRun(p + w) == w
  {
    if w != [] {
      var init, last := w[..|w| - 1], w[|w| - 1];
      assert w == init + [last];
      assert p + w == (p + init) + [last];
      TrailingRunOf(p, init);
    } else {
      assert p + w == p;
    }
  }

  /** A dropdown label "Number of <w>" sizes nodes by the column `w`. */
  lemma NumberOfLabel(w: string)
    requires w != [] && NoSpace(w)
    ensures HasWord("Number of " + w) && LastWord("Number of " + w) == w
  {
    var p := "Number of ";
    assert IsSpace(p[|p| - 1]);
    assert p + w + "" == p + w;
    LastWordOf(p, w, "");
  }

  /**
   * app.py:141-144: `v` mapped linearly from `[lo, hi]` (the column's
   * `min` and `max`) onto `[minSize, maxSize]`. The source divides by
   * `hi - lo` unguarded.
   */
  function Rescale(v: real, lo: real, hi: real, minSize: real, maxSize: real): real
    requires hi != lo
  {
    (v - lo) * ((maxSize - minSize) / (hi - lo)) + minSize
  }

  /** The column's minimum gets the smallest size and its maximum the largest. */
  lemma RescaleEnds(lo: real, hi: real, minSize: real, maxSize: real)
    requires hi != lo
    ensures Rescale(lo, lo, hi, minSize, maxSize) == minSize
    ensures Rescale(hi, lo, hi, minSize, maxSize) == maxSize
  {
    var k := (maxSize - minSize) / (hi - lo);
    assert (hi - lo) * k == maxSize - minSize;
  }

  /** Larger values never get smaller nodes. */
  lemma RescaleMonotone(v: real, v': real, lo: real, hi: real, minSize: real, maxSize: real)
    requires lo < hi && minSize <= maxSize && v <= v'
    ensures Rescale(v, lo, hi, minSize, maxSize) <= Rescale(v', lo, hi, minSize, maxSize)
  {
    var k := (maxSize - minSize) / (hi - lo);
    assert k >= 0.0;
    assert (v' - v) * k >= 0.0;
  }

  /** Values within the column's bounds get sizes within the size bounds. */
  lemma RescaleWithin(v: real, lo: real, hi: real, minSize: real, maxSize: real)
    requires lo < hi && minSize <= maxSize && lo <= v <= hi
    ensures minSize <= Rescale(v, lo, hi, minSize, maxSize) <= maxSize
  {
    RescaleEnds(lo, hi, minSize, maxSize);
    RescaleMonotone(lo, v, lo, hi, minSize, maxSize);
    RescaleMonotone(v, hi, lo, hi, minSize, maxSize);
  }

  /** The sizes keep the proportions of the values: equal steps in value give equal steps in size. */
  lemma RescaleAffine(v: real, v': real, lo: real, hi: real, minSize: real, maxSize: real)
    requires hi != lo
    ensures (Rescale(v', lo, hi, minSize, maxSize) - Rescale(v, lo, hi, minSize, maxSize)) * (hi - lo)
         == (v' - v) * (maxSize - minSize)
  {
    var k := (maxSize - minSize) / (hi - lo);
    assert (hi - lo) * k == maxSize - minSize;
    assert Rescale(v', lo, hi, minSize, maxSize) - Rescale(v, lo, hi, minSize, maxSize) == (v' - v) * k;
  }
}
