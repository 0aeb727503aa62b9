/** Python list slicing with step 1: `s[lo:hi]`, where a negative bound counts
    from the end and every bound is clamped to the list. */
module Slices {

  function Min(a: int, b: int): int {
    if a <= b then a else b
  }

  /** The index a slice bound `i` denotes in a list of length `n`. */
  function Bound(i: int, n: nat): (k: nat)
    ensures k <= n
    ensures 0 <= i ==> k == Min(i, n)
    ensures i < 0 ==> k == if n + i < 0 then 0 else n + i
  {
    if i < 0 then (if n + i < 0 then 0 else n + i) else if i > n then n else i
  }

  /** `s[lo:hi]`: empty when the normalised bounds cross. */
  function Slice<T>(s: seq<T>, lo: int, hi: int): (r: seq<T>)
    ensures |r| <= |s|
  {
    var a := Bound(lo, |s|);
    var b := Bound(hi, |s|);
    if a <= b then s[a..b] else []
  }

  /** `s[0:count]` is a prefix of `s`; for a non-negative count it keeps the
      first `min(count, |s|)` elements. */
  lemma PrefixSlice<T>(s: seq<T>, count: int)
    ensures Slice(s, 0, count) == s[..Bound(count, |s|)]
    ensures 0 <= count ==> Slice(s, 0, count) == s[..Min(count, |s|)]
  {
  }

  /** `s[-limit:]` keeps the last `min(limit, |s|)` elements when `limit` is
      positive, the whole list when it is zero (`-0` is `0`), and drops the
      first `-limit` elements when it is negative. */
  lemma TailSlice<T>(s: seq<T>, limit: int)
    ensures 0 < limit ==> Slice(s, -limit, |s|) == s[|s| - Min(limit, |s|)..]
    ensures limit == 0 ==> Slice(s, -limit, |s|) == s
    ensures limit < 0 ==> Slice(s, -limit, |s|) == s[Min(-limit, |s|)..]
  {
  }
}
