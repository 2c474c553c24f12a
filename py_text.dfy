/** Python's `str.strip()` with no argument. */
module PyText {

  /** `c.isspace()`: the characters `str.strip()` removes by default. */
  predicate IsSpace(c: char) {
    || ('\t' <= c <= '\r')
    || ('\U{1C}' <= c <= '\U{1F}')
    || c == ' '
    || c == '\U{85}'
    || c == '\U{A0}'
    || c == '\U{1680}'
    || ('\U{2000}' <= c <= '\U{200A}')
    || c == '\U{2028}'
    || c == '\U{2029}'
    || c == '\U{202F}'
    || c == '\U{205F}'
    || c == '\U{3000}'
  }

  /** Every character of `s` from `lo` up to (not including) `hi` is whitespace. */
  predicate AllSpaceIn(s: string, lo: nat, hi: nat)
    requires lo <= hi <= |s|
  {
    forall k :: lo <= k < hi ==> IsSpace(s[k])
  }

  /** Neither end of `t` is whitespace. */
  predicate IsStripped(t: string) {
    t == [] || (!IsSpace(t[0]) && !IsSpace(t[|t| - 1]))
  }

  /** `r` is `s` with a run of whitespace cut from each end and nothing else:
      a slice of `s`, everything outside it whitespace, neither end of it whitespace. */
  ghost predicate IsStripOf(s: string, r: string) {
    exists i: nat, j: nat :: i <= j <= |s| && r == s[i..j] && AllSpaceIn(s, 0, i) && AllSpaceIn(s, j, |s|) && IsStripped(r)
  }

  /** The scan from the left: the first position from `i` on that is not whitespace, or `|s|`. */
  function SkipSpace(s: string, i: nat): (k: nat)
    requires i <= |s|
    ensures i <= k <= |s| && AllSpaceIn(s, i, k)
    ensures k < |s| ==> !IsSpace(s[k])
    decreases |s| - i
  {
    if i < |s| && IsSpace(s[i]) then SkipSpace(s, i + 1) else i
  }

  /** The scan from the right, stopping at `lo`: the end of the text before the
      trailing whitespace of `s[lo..j]`. */
  function SkipSpaceBack(s: string, lo: nat, j: nat): (k: nat)
    requires lo <= j <= |s|
    ensures lo <= k <= j && AllSpaceIn(s, k, j)
    ensures k > lo ==> !IsSpace(s[k - 1])
    decreases j - lo
  {
    if j > lo && IsSpace(s[j - 1]) then SkipSpaceBack(s, lo, j - 1) else j
  }

  /** `s.strip()`: scan past the leading whitespace, then back past the trailing
      whitespace of what is left. */
  function Strip(s: string): (r: string)
    ensures IsStripped(r)
    ensures IsStripOf(s, r)
  {
    var i := SkipSpace(s, 0);
    var j := SkipSpaceBack(s, i, |s|);
    assert AllSpaceIn(s, 0, i) && AllSpaceIn(s, j, |s|);
    s[i..j]
  }

  lemma {:induction false} SkipSpaceAt(s: string, i: nat, k: nat)
    requires i <= k <= |s| && AllSpaceIn(s, i, k)
    requires k < |s| ==> !IsSpace(s[k])
    ensures SkipSpace(s, i) == k
    decreases k - i
  {
    if i < k {
      SkipSpaceAt(s, i + 1, k);
    }
  }

  lemma {:induction false} SkipSpaceBackAt(s: string, lo: nat, j: nat, k: nat)
    requires lo <= k <= j <= |s| && AllSpaceIn(s, k, j)
    requires k > lo ==> !IsSpace(s[k - 1])
    ensures SkipSpaceBack(s, lo, j) == k
    decreases j - k
  {
    if k < j {
      SkipSpaceBackAt(s, lo, j - 1, k);
    }
  }

  /** What `IsStripOf` describes is unique, so `Strip` is the only function meeting it. */
  lemma StripUnique(s: string, r: string)
    requires IsStripOf(s, r)
    ensures Strip(s) == r
  {
    var i: nat, j: nat :| i <= j <= |s| && r == s[i..j] && AllSpaceIn(s, 0, i) && AllSpaceIn(s, j, |s|) && IsStripped(r);
    if r == [] {
      assert AllSpaceIn(s, 0, |s|);
      SkipSpaceAt(s, 0, |s|);
    } else {
      assert s[i] == r[0] && s[j - 1] == r[|r| - 1];
      SkipSpaceAt(s, 0, i);
      SkipSpaceBackAt(s, i, |s|, j);
    }
  }

  /** A text with no whitespace at either end is left unchanged. */
  lemma StripOfStripped(t: string)
    requires IsStripped(t)
    ensures Strip(t) == t
  {
    assert t[0..|t|] == t;
    StripUnique(t, t);
  }

  lemma StripIdempotent(s: string)
    ensures Strip(Strip(s)) == Strip(s)
  {
    StripOfStripped(Strip(s));
  }
}
