/** The Python string primitives both scripts rely on: `str.isspace`,
    `str.strip()`, substring search and `str(n)` for a non-negative `int`. */
module Text {
  import opened Wrappers

  /** Python's `str.isspace` on one character: the ASCII blanks \t \n \v \f \r
      and space, the separators U+001C..U+001F, and the Unicode spaces. */
  predicate IsSpace(c: char) {
    c == ' ' || ('\t' <= c <= '\r') || ('\U{1c}' <= c <= '\U{1f}')
    || c == '\U{85}' || c == '\U{a0}' || c == '\U{1680}'
    || ('\U{2000}' <= c <= '\U{200a}') || c == '\U{2028}' || c == '\U{2029}'
    || c == '\U{202f}' || c == '\U{205f}' || c == '\U{3000}'
  }

  /** No leading and no trailing whitespace. */
  predicate IsStripped(s: string) {
    s == [] || (!IsSpace(s[0]) && !IsSpace(s[|s| - 1]))
  }

  /** The index of the first non-whitespace character of `s` at or after
      `from`, or `|s|` when there is none. */
  function SkipSpace(s: string, from: nat): (a: nat)
    requires from <= |s|
    decreases |s| - from
    ensures from <= a <= |s|
    ensures forall k :: from <= k < a ==> IsSpace(s[k])
    ensures a < |s| ==> !IsSpace(s[a])
  {
    if from == |s| || !IsSpace(s[from]) then from else SkipSpace(s, from + 1)
  }

  /** One past the last non-whitespace character of `s[lo..hi]`, or `lo`
      when there is none. */
  function SkipSpaceBack(s: string, lo: nat, hi: nat): (b: nat)
    requires lo <= hi <= |s|
    decreases hi
    ensures lo <= b <= hi
    ensures forall k :: b <= k < hi ==> IsSpace(s[k])
    ensures b > lo ==> !IsSpace(s[b - 1])
  {
    if hi == lo || !IsSpace(s[hi - 1]) then hi else SkipSpaceBack(s, lo, hi - 1)
  }

  /** `r` is what is left of `s` once the whitespace before index `a` and
      from index `a + |r|` on is dropped, and `r` itself neither starts nor
      ends with whitespace. */
  ghost predicate StripsTo(s: string, a: int, r: string) {
    0 <= a <= |s| - |r| && r == s[a..a + |r|] && IsStripped(r)
    && (forall k :: 0 <= k < a ==> IsSpace(s[k]))
    && (forall k :: a + |r| <= k < |s| ==> IsSpace(s[k]))
  }

  /** `s.strip()`: drops the whitespace at both ends. */
  function Strip(s: string): (r: string)
    ensures StripsTo(s, SkipSpace(s, 0), r)
  {
    var a := SkipSpace(s, 0);
    s[a..SkipSpaceBack(s, a, |s|)]
  }

  /** At most one string is left by stripping `s`, so `StripsTo` describes
      Python's `strip` completely. */
  lemma StripsToUnique(s: string, a1: int, r1: string, a2: int, r2: string)
    requires StripsTo(s, a1, r1) && StripsTo(s, a2, r2)
    ensures r1 == r2
  {
    assert r1 != [] ==> s[a1] == r1[0] && s[a1 + |r1| - 1] == r1[|r1| - 1];
    assert r2 != [] ==> s[a2] == r2[0] && s[a2 + |r2| - 1] == r2[|r2| - 1];
    if r1 != [] && r2 != [] {
      assert a1 == a2;
      assert a1 + |r1| == a2 + |r2|;
    }
  }

  /** Stripping a string that is already stripped changes nothing. */
  lemma StripStripped(s: string)
    requires IsStripped(s)
    ensures Strip(s) == s
  {
    assert StripsTo(s, 0, s);
    StripsToUnique(s, SkipSpace(s, 0), Strip(s), 0, s);
  }

  /** `strip` is idempotent. */
  lemma StripIdempotent(s: string)
    ensures Strip(Strip(s)) == Strip(s)
  {
    StripStripped(Strip(s));
  }

  /** Whitespace in front does not change what `strip` keeps. */
  lemma StripLeadingSpace(c: char, s: string)
    requires IsSpace(c)
    ensures Strip([c] + s) == Strip(s)
  {
    var a, r, t := SkipSpace(s, 0), Strip(s), [c] + s;
    assert t[a + 1..a + 1 + |r|] == s[a..a + |r|];
    assert StripsTo(t, a + 1, r);
    StripsToUnique(t, SkipSpace(t, 0), Strip(t), a + 1, r);
  }

  /** Whitespace at the end does not change what `strip` keeps. */
  lemma StripTrailingSpace(s: string, c: char)
    requires IsSpace(c)
    ensures Strip(s + [c]) == Strip(s)
  {
    var a, r, t := SkipSpace(s, 0), Strip(s), s + [c];
    assert t[a..a + |r|] == s[a..a + |r|];
    assert StripsTo(t, a, r);
    StripsToUnique(t, SkipSpace(t, 0), Strip(t), a, r);
  }

  /** `pat` occurs in `s` at index `i`. */
  predicate OccursAt(s: string, pat: string, i: nat) {
    i + |pat| <= |s| && s[i..i + |pat|] == pat
  }

  /** Python's `pat in s`: `pat` is a substring of `s`. */
  predicate Contains(s: string, pat: string) {
    exists i: nat :: i <= |s| && OccursAt(s, pat, i)
  }

  /** `s.find(pat, from)`: the first index at or after `from` where `pat`
      occurs, if any. */
  function FindFrom(s: string, pat: string, from: nat): (r: Option<nat>)
    decreases |s| + 1 - from
    ensures r.Some? ==> from <= r.value && OccursAt(s, pat, r.value)
    ensures forall k: nat :: from <= k && OccursAt(s, pat, k) ==> r.Some? && r.value <= k
  {
    if from + |pat| > |s| then None
    else if OccursAt(s, pat, from) then Some(from)
    else FindFrom(s, pat, from + 1)
  }

  /** An occurrence inside a slice is an occurrence in the whole string, and
      the other way round. */
  lemma OccursInSlice(s: string, lo: nat, hi: nat, pat: string, k: nat)
    requires lo <= hi <= |s| && k + |pat| <= hi - lo
    ensures OccursAt(s[lo..hi], pat, k) <==> OccursAt(s, pat, lo + k)
  {
    var t := s[lo..hi];
    assert forall p :: k <= p < k + |pat| ==> t[p] == s[lo + p];
    assert t[k..k + |pat|] == s[lo + k..lo + k + |pat|];
  }

  /** Where a string occurs, each of its prefixes occurs too. */
  lemma OccursPrefix(s: string, pat: string, n: nat, k: nat)
    requires n <= |pat|
    ensures OccursAt(s, pat, k) ==> OccursAt(s, pat[..n], k)
  {
    if OccursAt(s, pat, k) {
      assert s[k..k + |pat|][..n] == s[k..k + n];
    }
  }

  /** Being a substring is transitive. */
  lemma ContainsTransitive(s: string, t: string, pat: string)
    requires Contains(s, t) && Contains(t, pat)
    ensures Contains(s, pat)
  {
    var a: nat :| a <= |s| && OccursAt(s, t, a);
    var k: nat :| k <= |t| && OccursAt(t, pat, k);
    OccursInSlice(s, a, a + |t|, pat, k);
  }

  function Digit(d: nat): (c: char)
    requires d < 10
    ensures '0' <= c <= '9'
  {
    ('0' as int + d) as char
  }

  predicate AllDigits(s: string) {
    forall k :: 0 <= k < |s| ==> '0' <= s[k] <= '9'
  }

  /** Python's `str(n)` for `n >= 0`: decimal digits, no leading zero. */
  function NatToString(n: nat): (r: string)
    ensures |r| >= 1 && AllDigits(r)
    ensures r[0] == '0' ==> n == 0
  {
    if n < 10 then [Digit(n)] else NatToString(n / 10) + [Digit(n % 10)]
  }

  /** The value of a string of decimal digits (`int(s)`). */
  function DigitsValue(s: string): nat
    requires AllDigits(s)
  {
    if s == [] then 0
    else DigitsValue(s[..|s| - 1]) * 10 + (s[|s| - 1] as int - '0' as int)
  }

  /** Reading back the decimal form of `n` gives `n`. */
  lemma {:induction false} NatToStringRoundTrip(n: nat)
    ensures DigitsValue(NatToString(n)) == n
  {
    var s := NatToString(n);
    if n >= 10 {
      assert s[..|s| - 1] == NatToString(n / 10);
      NatToStringRoundTrip(n / 10);
    }
  }

  /** Distinct numbers have distinct decimal forms. */
  lemma NatToStringInjective(a: nat, b: nat)
    ensures NatToString(a) == NatToString(b) ==> a == b
  {
    NatToStringRoundTrip(a);
    NatToStringRoundTrip(b);
  }
}
