/** The `slice(-n)` of a sequence: its last `n` entries, shared by the walk history and the speed buffer. */
module Sequences {

  /** The last `n` entries of `s`, or all of them when there are fewer. */
  function LastN<T>(s: seq<T>, n: nat): (r: seq<T>)
    ensures |r| == if |s| < n then |s| else n
    ensures r == s[|s| - |r|..]
  {
    if |s| <= n then s else s[|s| - n..]
  }

  /** Taking the last `n` before appending more does not change the last `n` after it. */
  lemma LastNOfSuffix<T>(s: seq<T>, t: seq<T>, n: nat)
    ensures LastN(LastN(s, n) + t, n) == LastN(s + t, n)
  {
    if |s| > n {
      var u := s[|s| - n..] + t;
      var w := s + t;
      assert u == w[|s| - n..];
      assert |u| == n + |t| && |w| == |s| + |t|;
      assert u[|u| - n..] == w[|w| - n..];
    }
  }
}
