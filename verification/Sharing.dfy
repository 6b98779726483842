/** Additive and XOR secret sharing: what the shares of all parties reconstruct to. */
module Sharing {
  import opened Modular

  function Sum(shares: seq<int>): int {
    if |shares| == 0 then 0 else Sum(shares[..|shares| - 1]) + shares[|shares| - 1]
  }

  /** The value modulo m that the parties hold together. */
  function Reconstruct(shares: seq<int>, m: int): int
    requires m > 0
  {
    Sum(shares) % m
  }

  lemma ReconstructCong(shares: seq<int>, v: int, m: int)
    requires m > 0 && Cong(Sum(shares), v, m)
    ensures Cong(Reconstruct(shares, m), v, m)
  {
    CongMod(Sum(shares), m);
  }

  /** Changing one share changes the sum by the difference. */
  lemma {:induction false} SumUpdate(shares: seq<int>, i: nat, v: int)
    requires i < |shares|
    ensures Sum(shares[i := v]) == Sum(shares) - shares[i] + v
  {
    var n := |shares| - 1;
    if i == n {
      assert shares[i := v][..n] == shares[..n];
    } else {
      SumUpdate(shares[..n], i, v);
      assert shares[i := v][..n] == shares[..n][i := v];
    }
  }

  lemma {:induction false} SumFront(front: int, rest: seq<int>)
    ensures Sum([front] + rest) == front + Sum(rest)
  {
    if |rest| == 0 {
      assert [front] + rest == [front];
      assert [front][..0] == [];
    } else {
      var n := |rest| - 1;
      SumFront(front, rest[..n]);
      assert ([front] + rest)[..n + 1] == [front] + rest[..n];
    }
  }

  lemma {:induction false} SumZeros(shares: seq<int>)
    requires forall i :: 0 <= i < |shares| ==> shares[i] == 0
    ensures Sum(shares) == 0
  {
    if |shares| > 0 {
      SumZeros(shares[..|shares| - 1]);
    }
  }

  /** Shares that are congruent one by one hold the same value. */
  lemma {:induction false} SumCong(a: seq<int>, b: seq<int>, m: int)
    requires m > 0 && |a| == |b| && forall i :: 0 <= i < |a| ==> Cong(a[i], b[i], m)
    ensures Cong(Sum(a), Sum(b), m)
  {
    if |a| > 0 {
      var n := |a| - 1;
      SumCong(a[..n], b[..n], m);
      CongAdd(Sum(a[..n]), Sum(b[..n]), a[n], b[n], m);
    }
  }

  /** Local linear work: shares of u + factor * v. */
  lemma {:induction false} SumLinear(a: seq<int>, b: seq<int>, c: seq<int>, factor: int)
    requires |a| == |b| == |c| && forall i :: 0 <= i < |a| ==> c[i] == a[i] + factor * b[i]
    ensures Sum(c) == Sum(a) + factor * Sum(b)
  {
    if |a| > 0 {
      var n := |a| - 1;
      SumLinear(a[..n], b[..n], c[..n], factor);
      assert factor * (Sum(b[..n]) + b[n]) == factor * Sum(b[..n]) + factor * b[n];
    }
  }

  /** The exclusive or of all shares. */
  function XorAll(shares: seq<bv8>): bv8 {
    if |shares| == 0 then 0 else XorAll(shares[..|shares| - 1]) ^ shares[|shares| - 1]
  }

  lemma {:induction false} XorUpdate(shares: seq<bv8>, i: nat, v: bv8)
    requires i < |shares|
    ensures XorAll(shares[i := v]) == XorAll(shares) ^ shares[i] ^ v
  {
    var n := |shares| - 1;
    if i == n {
      assert shares[i := v][..n] == shares[..n];
      XorCancel(XorAll(shares[..n]), shares[i], v);
    } else {
      XorUpdate(shares[..n], i, v);
      assert shares[i := v][..n] == shares[..n][i := v];
      XorSwap(XorAll(shares[..n]), shares[i], v, shares[n]);
    }
  }

  lemma XorCancel(x: bv8, a: bv8, b: bv8)
    ensures x ^ b == (x ^ a) ^ a ^ b
  {
  }

  lemma XorSwap(x: bv8, a: bv8, b: bv8, c: bv8)
    ensures (x ^ a ^ b) ^ c == (x ^ c) ^ a ^ b
  {
  }

  lemma {:induction false} XorFront(front: bv8, rest: seq<bv8>)
    ensures XorAll([front] + rest) == front ^ XorAll(rest)
  {
    if |rest| == 0 {
      assert [front] + rest == [front];
      assert XorAll([front]) == XorAll([]) ^ front;
    } else {
      var n := |rest| - 1;
      XorFront(front, rest[..n]);
      assert ([front] + rest)[..n + 1] == [front] + rest[..n];
      XorAssoc(front, XorAll(rest[..n]), rest[n]);
    }
  }

  lemma XorAssoc(a: bv8, b: bv8, c: bv8)
    ensures (a ^ b) ^ c == a ^ (b ^ c)
  {
  }

  /** The exclusive or of pairwise exclusive ors. */
  lemma {:induction false} XorBoth(a: seq<bv8>, b: seq<bv8>, c: seq<bv8>)
    requires |a| == |b| == |c| && forall i :: 0 <= i < |a| ==> c[i] == a[i] ^ b[i]
    ensures XorAll(c) == XorAll(a) ^ XorAll(b)
  {
    if |a| > 0 {
      var n := |a| - 1;
      XorBoth(a[..n], b[..n], c[..n]);
      XorExchange(XorAll(a[..n]), XorAll(b[..n]), a[n], b[n]);
    }
  }

  lemma XorExchange(x: bv8, y: bv8, a: bv8, b: bv8)
    ensures (x ^ y) ^ (a ^ b) == (x ^ a) ^ (y ^ b)
  {
  }
}
