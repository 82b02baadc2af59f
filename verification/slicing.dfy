/** Python's slicing of sequences and strings, for the non-negative bounds the action uses. */
module Slicing {

  function Min(a: int, b: int): int
  {
    if a <= b then a else b
  }

  /** `s[lo:hi]`: both bounds are clamped to the length of `s`, and a slice whose
      clamped start is not below its clamped end is empty (Python never raises here). */
  function Slice<T>(s: seq<T>, lo: nat, hi: nat): (r: seq<T>)
    ensures |r| == if lo < hi && lo < |s| then Min(hi, |s|) - lo else 0
    ensures forall i :: 0 <= i < |r| ==> r[i] == s[lo + i]
  {
    var a := Min(lo, |s|);
    var b := Min(hi, |s|);
    if a < b then s[a..b] else []
  }

  /** `s[:n]` is the longest prefix of `s` of length at most `n`. */
  lemma PrefixSlice<T>(s: seq<T>, n: nat)
    ensures Slice(s, 0, n) <= s
    ensures |Slice(s, 0, n)| == Min(n, |s|)
  {
  }
}
