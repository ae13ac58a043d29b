/** The search `re.search(open + r'(.*?)' + close, text, re.DOTALL)` that both
    code extractors perform, specified directly on strings: a match is an
    occurrence of `open` at `i` followed, at some `j >= i + |open|`, by an
    occurrence of `close`; the regex engine reports the leftmost `i` and, for
    it, the smallest `j` (the lazy group). */
module Fences {
  import opened Wrappers
  import opened Text

  const Fence := "```"

  /** The pattern matches `s` with `open` at `i` and `close` at `j`. */
  ghost predicate IsMatch(s: string, open: string, close: string, i: nat, j: nat) {
    OccursAt(s, open, i) && i + |open| <= j && OccursAt(s, close, j)
  }

  /** `(i, j)` is the match `re.search` reports: leftmost start, then shortest
      group. */
  ghost predicate IsLeftmostLazy(s: string, open: string, close: string, i: nat, j: nat) {
    IsMatch(s, open, close, i, j)
    && (forall i': nat, j': nat :: IsMatch(s, open, close, i', j') ==> i <= i')
    && (forall j': nat :: IsMatch(s, open, close, i, j') ==> j <= j')
  }

  ghost predicate NoMatch(s: string, open: string, close: string) {
    forall i: nat, j: nat :: !IsMatch(s, open, close, i, j)
  }

  /** Finds the first `open`, then the first `close` after it. When that
      `close` is missing no later `open` can help, since it would need a
      `close` even further on. */
  function Search(s: string, open: string, close: string): (r: Option<(nat, nat)>)
    ensures r.Some? ==> IsLeftmostLazy(s, open, close, r.value.0, r.value.1)
    ensures r.None? <==> NoMatch(s, open, close)
  {
    match FindFrom(s, open, 0)
    case None => None
    case Some(i) =>
      match FindFrom(s, close, i + |open|)
      case None => None
      case Some(j) => Some((i, j))
  }

  /** Group 1 of the match, if there is one. */
  function Group(s: string, open: string, close: string): (r: Option<string>)
    ensures r.None? <==> NoMatch(s, open, close)
    ensures forall i: nat, j: nat :: IsLeftmostLazy(s, open, close, i, j) ==>
              r == Some(s[i + |open|..j])
  {
    match Search(s, open, close)
    case None => None
    case Some((i, j)) => Some(s[i + |open|..j])
  }

  /** The group is a substring of the text and, because the lazy group stops
      at the first `close`, it does not contain `close`. */
  lemma GroupIsCloseFree(s: string, open: string, close: string)
    requires |close| > 0 && Group(s, open, close).Some?
    ensures Contains(s, Group(s, open, close).value)
    ensures !Contains(Group(s, open, close).value, close)
  {
    var (i, j) := Search(s, open, close).value;
    var lo := i + |open|;
    var g := s[lo..j];
    assert OccursAt(s, g, lo);
    forall k: nat | k + |close| <= |g|
      ensures !OccursAt(g, close, k)
    {
      assert !IsMatch(s, open, close, i, lo + k);
      OccursInSlice(s, lo, j, close, k);
    }
  }

  /** A text consisting of `open`, then `c`, then a fence: the group is `c`
      when `c` holds no fence and does not end in a backtick (a trailing
      backtick would let the closing fence start one place early). */
  lemma {:induction false} GroupOfFenced(open: string, c: string)
    requires !Contains(c, Fence)
    requires c == [] || c[|c| - 1] != '`'
    ensures Group(open + c + Fence, open, Fence) == Some(c)
  {
    var s := open + c + Fence;
    var lo, hi := |open|, |open| + |c|;
    assert s[..lo] == open && s[lo..hi] == c && s[hi..] == Fence;
    assert IsMatch(s, open, Fence, 0, hi);
    forall j': nat | lo <= j' < hi
      ensures !OccursAt(s, Fence, j')
    {
      if j' + 3 <= hi {
        assert !OccursAt(c, Fence, j' - lo);
        OccursInSlice(s, lo, hi, Fence, j' - lo);
      } else if j' + 3 <= |s| {
        assert s[j'..j' + 3][hi - 1 - j'] == c[|c| - 1];
        assert Fence[hi - 1 - j'] == '`';
      }
    }
    assert IsLeftmostLazy(s, open, Fence, 0, hi);
  }

  /** A string without backticks holds no fence and does not end in a
      backtick. */
  lemma NoBacktickNoFence(s: string)
    requires forall k :: 0 <= k < |s| ==> s[k] != '`'
    ensures !Contains(s, Fence)
    ensures s == [] || s[|s| - 1] != '`'
  {
    forall k: nat | k + 3 <= |s|
      ensures !OccursAt(s, Fence, k)
    {
      assert s[k..k + 3][0] != Fence[0];
    }
  }
}
