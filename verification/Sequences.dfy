/** Sequences in general. */
module Sequences {
  lemma Regroup<T>(a: seq<T>, b: seq<T>, c: seq<T>)
    ensures a + (b + c) == (a + b) + c
  {
  }

  /** vector::resize, which fills up with zero. */
  function Resize<T>(s: seq<T>, n: nat, zero: T): (t: seq<T>)
    ensures |t| == n && forall k :: 0 <= k < n ==> t[k] == if k < |s| then s[k] else zero
  {
    seq(n, k => if 0 <= k < |s| then s[k] else zero)
  }
}
