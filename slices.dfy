/** Python's prefix slice `s[:k]`, which both the precomputed and the online
    path apply to their result. */
module Slices {

  /** `s[:k]`: a negative stop counts from the end, and the stop is then
      clamped to `0..|s|`. */
  function Take<T>(s: seq<T>, k: int): (r: seq<T>)
    ensures r <= s
    ensures 0 <= k ==> |r| == if k <= |s| then k else |s|
    ensures k < 0 ==> |r| == if -k <= |s| then |s| - (-k) else 0
  {
    var stop := if k < 0 then k + |s| else k;
    var clamped := if stop < 0 then 0 else if stop > |s| then |s| else stop;
    s[..clamped]
  }

  /** A negative stop drops exactly `-k` elements from the end (when there are
      that many): `s[:k] + s[len(s)+k:] == s`. */
  lemma TakeNegativeDropsTail<T>(s: seq<T>, k: int)
    requires k < 0 && -k <= |s|
    ensures Take(s, k) + s[|s| + k..] == s
    ensures |s[|s| + k..]| == -k
  {
    assert Take(s, k) == s[..|s| + k];
  }
}
