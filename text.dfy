/** Literal occurrences inside strings, for the fixed parts of the tag pattern
    and for `str.split(" UTC")`. */
module Text {

  /** `lit` occurs in `s` at position `i`. */
  predicate HasAt(s: string, i: nat, lit: string) {
    i + |lit| <= |s| && s[i..i + |lit|] == lit
  }

  /** Both halves of a concatenation occur in it, where they were put. */
  lemma HasAtJoin(x: string, y: string)
    ensures HasAt(x + y, 0, x) && HasAt(x + y, |x|, y)
  {
    assert (x + y)[..|x|] == x;
    assert (x + y)[|x|..] == y;
  }

  /** Two occurrences side by side are an occurrence of their concatenation. */
  lemma HasAtConcat(s: string, i: nat, x: string, y: string)
    requires HasAt(s, i, x) && HasAt(s, i + |x|, y)
    ensures HasAt(s, i, x + y)
  {
    assert s[i..i + |x| + |y|] == s[i..i + |x|] + s[i + |x|..i + |x| + |y|];
  }

  /** An occurrence inside an occurrence. */
  lemma HasAtWithin(s: string, i: nat, big: string, j: nat, small: string)
    requires HasAt(s, i, big) && HasAt(big, j, small)
    ensures HasAt(s, i + j, small)
  {
    forall k | 0 <= k < |small|
      ensures s[i + j..i + j + |small|][k] == small[k]
    {
      assert s[i..i + |big|][j + k] == big[j..j + |small|][k];
    }
  }

  /** The first position at or after `i` where `lit` occurs, or `|s|` when it
      occurs nowhere there (what `str.find` reports, with `|s|` for -1). */
  function FindFrom(s: string, lit: string, i: nat): (r: nat)
    requires i <= |s|
    ensures i <= r <= |s|
    ensures r == |s| || HasAt(s, r, lit)
    ensures forall k :: i <= k < r ==> !HasAt(s, k, lit)
    decreases |s| - i
  {
    if i == |s| || HasAt(s, i, lit) then i else FindFrom(s, lit, i + 1)
  }
}
