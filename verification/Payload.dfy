/** Cross products of a matched pair: the triangular packing of each side and the full Gram matrix. */
module Payload {
  import opened Modular
  import opened Sharing
  import opened Sequences

  /** Pairs (a, b) with a <= b < d and a < i: where row i of the packed triangle starts. */
  function Before(d: nat, i: nat): (k: nat)
    requires i <= d
  {
    if i == 0 then 0 else Before(d, i - 1) + (d - (i - 1))
  }

  /** The closed form the packed indices use: 1 + 2 + ... + n, by integer division. */
  function Triangle(n: nat): nat {
    n * (n + 1) / 2
  }

  lemma TriangleStep(n: nat)
    requires n > 0
    ensures Triangle(n) == Triangle(n - 1) + n
  {
    assert n * (n + 1) == (n - 1) * n + n * 2;
  }

  /** The index arithmetic of the source counts the rows of the triangle. */
  lemma {:induction false} BeforeClosed(d: nat, i: nat)
    requires i <= d
    ensures Before(d, i) == Triangle(d) - Triangle(d - i)
  {
    if i > 0 {
      BeforeClosed(d, i - 1);
      TriangleStep(d - (i - 1));
      hide Triangle;
    }
  }

  lemma {:induction false} BeforeGrows(d: nat, a: nat, i: nat)
    requires a < i <= d
    ensures Before(d, a) + (d - a) <= Before(d, i)
    decreases i
  {
    if a + 1 < i {
      BeforeGrows(d, a, i - 1);
    }
  }

  /** Where the product of columns a <= b sits, in a block that starts at base. */
  function PairIndex(base: nat, d: nat, a: nat, b: nat): nat
    requires a <= b < d
  {
    base + Before(d, a) + (b - a)
  }

  function ModMul(a: nat, b: nat, m: nat): nat
    requires m > 0
  {
    (a * b) % m
  }

  /** The products of the pairs before (i, j) are in their places, at the end of v so far. */
  ghost predicate Packed(v: seq<nat>, base: nat, d: nat, i: nat, j: nat, m: nat) {
    && m > 0 && d <= base && i <= d && (i < d ==> i <= j <= d) && (i == d ==> j == i)
    && |v| == base + Before(d, i) + (j - i)
    && forall a, b :: 0 <= a <= b < d && (a < i || (a == i && b < j)) ==>
         PairIndex(base, d, a, b) < |v| && v[PairIndex(base, d, a, b)] == ModMul(v[a], v[b], m)
  }

  lemma PackedPush(v: seq<nat>, base: nat, d: nat, i: nat, j: nat, m: nat)
    requires Packed(v, base, d, i, j, m) && i <= j < d
    ensures Packed(v + [ModMul(v[i], v[j], m)], base, d, i, j + 1, m)
  {
    hide ModMul, Before;
  }

  lemma PackedRow(v: seq<nat>, base: nat, d: nat, i: nat, m: nat)
    requires Packed(v, base, d, i, d, m) && i < d
    ensures Packed(v, base, d, i + 1, i + 1, m)
  {
    hide ModMul;
  }

  /** The doubly nested push loop both sides share. */
  method PushCrossProducts(cols: seq<nat>, d: nat, m: nat) returns (v: seq<nat>)
    requires d <= |cols| && m > 0
    ensures Packed(v, |cols|, d, d, d, m) && v[..|cols|] == cols
  {
    v := cols;
    for i := 0 to d
      invariant Packed(v, |cols|, d, i, i, m) && |cols| <= |v| && v[..|cols|] == cols
    {
      for j := i to d
        invariant Packed(v, |cols|, d, i, j, m) && |cols| <= |v| && v[..|cols|] == cols
      {
        PackedPush(v, |cols|, d, i, j, m);
        v := v + [ModMul(v[i], v[j], m)];
      }
      PackedRow(v, |cols|, d, i, m);
    }
  }

  function Max(a: nat, b: nat): nat {
    if a < b then b else a
  }

  /** computePayloadLength: room for either side. */
  function PayloadLength(d1: nat, d2: nat): nat {
    Max(d1 + Triangle(d1), (d2 + 1) + d2 * (d2 + 3) / 2 + 3)
  }

  /** What the party without the dependent variable puts into a record. */
  ghost predicate NonDVRecord(v: seq<nat>, x: seq<nat>, d1: nat, m: nat, length: nat) {
    && m > 0 && |x| == d1 && |v| == length && d1 + Triangle(d1) <= length
    && (forall i :: 0 <= i < d1 ==> v[i] == x[i])
    && (forall a, b :: 0 <= a <= b < d1 ==>
         PairIndex(d1, d1, a, b) < length && v[PairIndex(d1, d1, a, b)] == ModMul(x[a], x[b], m))
    && (forall k :: d1 + Triangle(d1) <= k < length ==> v[k] == 0)
  }

  /** Where the squared dependent variable sits; the variable itself and the one follow. */
  function YSquaredIndex(d2: nat): nat {
    (d2 + 1) + d2 * (d2 + 3) / 2
  }

  lemma YSquaredPlace(d2: nat)
    ensures YSquaredIndex(d2) == (d2 + 1) + Triangle(d2) + d2
  {
    assert d2 * (d2 + 3) == d2 * (d2 + 1) + d2 * 2;
  }

  /** The length holds the record of either side, and one of them fills it to the end. */
  lemma PayloadLengthTight(d1: nat, d2: nat)
    ensures var length, nonDV, dv := PayloadLength(d1, d2), d1 + Triangle(d1), (d2 + 1) + Triangle(d2) + d2 + 3;
      nonDV <= length && dv <= length && (length == nonDV || length == dv)
  {
    YSquaredPlace(d2);
  }

  /** What the party with the dependent variable puts into a record. */
  ghost predicate DVRecord(v: seq<nat>, x: seq<nat>, y: nat, d2: nat, m: nat, length: nat) {
    && m > 0 && |x| == d2 && |v| == length && YSquaredIndex(d2) + 3 <= length
    && YSquaredIndex(d2) == (d2 + 1) + Triangle(d2) + d2
    && (forall i :: 0 <= i < d2 ==> v[i] == x[i]) && v[d2] == y
    && (forall a, b :: 0 <= a <= b < d2 ==>
         PairIndex(d2 + 1, d2, a, b) < length && v[PairIndex(d2 + 1, d2, a, b)] == ModMul(x[a], x[b], m))
    && (forall i :: 0 <= i < d2 ==> v[(d2 + 1) + Triangle(d2) + i] == ModMul(x[i], y, m))
    && v[YSquaredIndex(d2)] == ModMul(y, y, m)
    && v[YSquaredIndex(d2) + 1] == y
    && v[YSquaredIndex(d2) + 2] == 1
    && (forall k :: YSquaredIndex(d2) + 3 <= k < length ==> v[k] == 0)
  }

  /** computePayloadVectorAndPadList on one record, without the dependent variable. */
  method ComputeNonDV(x: seq<nat>, d1: nat, d2: nat, m: nat) returns (v: seq<nat>)
    requires |x| == d1 && m > 0
    ensures NonDVRecord(v, x, d1, m, PayloadLength(d1, d2))
  {
    v := PushCrossProducts(x, d1, m);
    BeforeClosed(d1, d1);
    assert |v| == d1 + Triangle(d1);
    PackedPrefix(v, x, d1, m);
    hide Packed, ModMul, Triangle, Before;
    ghost var w := v;
    v := Resize(v, PayloadLength(d1, d2), 0);
  }

  lemma PackedPrefix(v: seq<nat>, cols: seq<nat>, d: nat, m: nat)
    requires Packed(v, |cols|, d, d, d, m) && v[..|cols|] == cols && d <= |cols|
    ensures forall i :: 0 <= i < |cols| ==> v[i] == cols[i]
    ensures forall a, b :: 0 <= a <= b < d ==>
      PairIndex(|cols|, d, a, b) < |v| && v[PairIndex(|cols|, d, a, b)] == ModMul(cols[a], cols[b], m)
  {
    hide ModMul, Before;
    forall i | 0 <= i < |cols|
      ensures v[i] == cols[i]
    {
      assert v[..|cols|][i] == v[i];
    }
  }

  /** computePayloadVectorAndPadList on one record, with the dependent variable. */
  method ComputeDV(x: seq<nat>, y: nat, d1: nat, d2: nat, m: nat) returns (v: seq<nat>)
    requires |x| == d2 && m > 0
    ensures DVRecord(v, x, y, d2, m, PayloadLength(d1, d2))
  {
    v := PushCrossProducts(x + [y], d2, m);
    BeforeClosed(d2, d2);
    assert |v| == (d2 + 1) + Triangle(d2);
    PackedPrefix(v, x + [y], d2, m);
    YSquaredPlace(d2);
    hide Packed, ModMul, Triangle, Before;
    ghost var base := v;
    for i := 0 to d2
      invariant |v| == |base| + i && v[..|base|] == base
      invariant forall k :: 0 <= k < i ==> v[|base| + k] == ModMul(x[k], y, m)
    {
      assert v[i] == base[i] == x[i] && v[d2] == base[d2] == y;
      v := v + [ModMul(v[i], v[d2], m)];
    }
    ghost var products := v;
    v := v + [ModMul(v[d2], v[d2], m)];
    v := v + [v[d2]];
    v := v + [1];
    v := Resize(v, PayloadLength(d1, d2), 0);
    assert products == base + products[|base|..];
    PayloadLengthTight(d1, d2);
    FinishDV(base, products[|base|..], v, x, y, d2, d2 + 1, m, PayloadLength(d1, d2));
  }

  /** Record, triangle, products with y, the last three, and zeros. */
  lemma FinishDV(base: seq<nat>, times: seq<nat>, v: seq<nat>, x: seq<nat>, y: nat, d2: nat, start: nat, m: nat,
                 length: nat)
    requires start == d2 + 1 && |x| == d2 == |times| && m > 0 && |base| == start + Triangle(d2)
    requires YSquaredIndex(d2) + 3 <= length
    requires YSquaredIndex(d2) == (d2 + 1) + Triangle(d2) + d2
    requires (forall i :: 0 <= i < d2 ==> base[i] == x[i]) && base[d2] == y
    requires forall a, b :: 0 <= a <= b < d2 ==>
      PairIndex(start, d2, a, b) < |base| && base[PairIndex(start, d2, a, b)] == ModMul(x[a], x[b], m)
    requires forall i :: 0 <= i < d2 ==> times[i] == ModMul(x[i], y, m)
    requires v == Resize(base + times + [ModMul(y, y, m), y, 1], length, 0)
    ensures DVRecord(v, x, y, d2, m, length)
  {
    hide ModMul, Triangle, Before, PairIndex, YSquaredIndex, Resize, DVRecord;
    ResizedAt(base, times, ModMul(y, y, m), y, 1, v, length);
    forall i | 0 <= i < d2
      ensures v[start + Triangle(d2) + i] == ModMul(x[i], y, m)
    {
      assert v[|base| + i] == times[i];
    }
    forall a, b | 0 <= a <= b < d2
      ensures PairIndex(start, d2, a, b) < length && v[PairIndex(start, d2, a, b)] == ModMul(x[a], x[b], m)
    {
      assert base[PairIndex(start, d2, a, b)] == v[PairIndex(start, d2, a, b)];
    }
    IsDVRecord(v, x, y, d2, start, m, length);
  }

  lemma IsDVRecord(v: seq<nat>, x: seq<nat>, y: nat, d2: nat, start: nat, m: nat, length: nat)
    requires start == d2 + 1 && |x| == d2 && m > 0 && |v| == length && YSquaredIndex(d2) + 3 <= length
    requires YSquaredIndex(d2) == start + Triangle(d2) + d2
    requires (forall i :: 0 <= i < d2 ==> v[i] == x[i]) && v[d2] == y
    requires forall a, b :: 0 <= a <= b < d2 ==>
      PairIndex(start, d2, a, b) < length && v[PairIndex(start, d2, a, b)] == ModMul(x[a], x[b], m)
    requires forall i :: 0 <= i < d2 ==> v[start + Triangle(d2) + i] == ModMul(x[i], y, m)
    requires var q := YSquaredIndex(d2); v[q] == ModMul(y, y, m) && v[q + 1] == y && v[q + 2] == 1
    requires forall k :: YSquaredIndex(d2) + 3 <= k < length ==> v[k] == 0
    ensures DVRecord(v, x, y, d2, m, length)
  {
    hide ModMul, Triangle, Before, PairIndex, YSquaredIndex;
  }

  lemma ResizedAt(a: seq<nat>, b: seq<nat>, p: nat, q: nat, r: nat, v: seq<nat>, length: nat)
    requires v == Resize(a + b + [p, q, r], length, 0) && |a| + |b| + 3 <= length
    ensures |v| == length && forall k :: 0 <= k < |a| ==> v[k] == a[k]
    ensures forall k :: 0 <= k < |b| ==> v[|a| + k] == b[k]
    ensures var n := |a| + |b|; v[n] == p && v[n + 1] == q && v[n + 2] == r
    ensures forall k :: |a| + |b| + 3 <= k < length ==> v[k] == 0
  {
    var all := a + b + [p, q, r];
    forall k | 0 <= k < |b|
      ensures v[|a| + k] == b[k]
    {
      assert all[|a| + k] == b[k];
    }
  }
}
