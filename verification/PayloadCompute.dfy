/** RegressionPayloadCompute: the full Gram matrix of a matched pair from its two packed records. */
module PayloadCompute {
  import opened Modular
  import opened Sharing
  import opened Payload

  /** Row-major position (i, j) in rows of the given width. */
  function Flat(i: nat, j: nat, width: nat): nat {
    i * width + j
  }

  /** Position i behind a square matrix of the given width. */
  function Tail(width: nat, i: nat): nat {
    width * width + i
  }

  lemma FlatSteps(i: nat, j: nat, width: nat)
    ensures Flat(i, j + 1, width) == Flat(i, j, width) + 1
    ensures Flat(i, width, width) == Flat(i + 1, 0, width)
    ensures Flat(i, 0, width) == i * width && Flat(0, 0, width) == 0
  {
  }

  lemma FlatBelow(i: nat, j: nat, rows: nat, width: nat)
    requires i < rows && j < width
    ensures Flat(i, j, width) < rows * width
  {
    assert (i + 1) * width <= rows * width;
    assert (i + 1) * width == i * width + width;
  }

  lemma FlatInjective(i: nat, j: nat, a: nat, b: nat, width: nat)
    requires j < width && b < width && (i != a || j != b)
    ensures Flat(i, j, width) != Flat(a, b, width)
  {
    if i < a {
      assert (i + 1) * width <= a * width;
      assert (i + 1) * width == i * width + width;
    } else if a < i {
      assert (a + 1) * width <= i * width;
      assert (a + 1) * width == a * width + width;
    }
  }

  /** The two records and the cross products are as long as the indices reach. */
  ghost predicate Sized(vec1: seq<nat>, vec2: seq<nat>, products: seq<nat>, d1: nat, d2: nat) {
    && d1 + Triangle(d1) <= |vec1| && YSquaredIndex(d2) + 3 <= |vec2| && |products| == d1 * (d2 + 1)
  }

  /** Where the triangle of d columns keeps row i, column j, in the closed form of the source. */
  function TriangleIndex(base: nat, d: nat, i: nat, j: nat): (k: nat)
    requires i <= j < d
    ensures k == PairIndex(base, d, i, j) < base + Triangle(d)
  {
    BeforeClosed(d, i);
    BeforeClosed(d, d);
    BeforeGrows(d, i, d);
    base + Triangle(d) - Triangle(d - i) + (j - i)
  }

  lemma Vec2Reach(d2: nat)
    ensures (d2 + 1) + Triangle(d2) + d2 == YSquaredIndex(d2)
  {
    YSquaredPlace(d2);
  }

  function AccessMatrixShare(vec1: seq<nat>, vec2: seq<nat>, products: seq<nat>, i: nat, j: nat, d1: nat,
                             d2: nat): nat
    requires i < d1 + d2 && j < d1 + d2 && Sized(vec1, vec2, products, d1, d2)
    decreases i > j
  {
    if i > j then
      AccessMatrixShare(vec1, vec2, products, j, i, d1, d2)
    else if j < d1 then
      vec1[TriangleIndex(d1, d1, i, j)]
    else if i < d1 then
      FlatBelow(i, j - d1, d1, d2 + 1);
      products[Flat(i, j - d1, d2 + 1)]
    else
      Vec2Reach(d2);
      vec2[TriangleIndex(d2 + 1, d2, i - d1, j - d1)]
  }

  /** Column d * d + i of the output. */
  function AccessVectorShare(vec2: seq<nat>, products: seq<nat>, i: nat, d1: nat, d2: nat): nat
    requires i < d1 + d2 && YSquaredIndex(d2) + 3 <= |vec2| && |products| == d1 * (d2 + 1)
  {
    if i < d1 then
      FlatBelow(i, d2, d1, d2 + 1);
      products[Flat(i, d2, d2 + 1)]
    else
      Vec2Reach(d2);
      vec2[(d2 + 1) + Triangle(d2) + (i - d1)]
  }

  /** The first i rows, and row i up to column j, are in place. */
  ghost predicate MatrixFilled(output: seq<nat>, vec1: seq<nat>, vec2: seq<nat>, products: seq<nat>, i: nat, j: nat,
                               d1: nat, d2: nat) {
    var d := d1 + d2;
    && Sized(vec1, vec2, products, d1, d2) && |output| == d * d + d + 3
    && forall a, b :: 0 <= a < d && 0 <= b < d && (a < i || (a == i && b < j)) ==>
         Flat(a, b, d) < d * d && output[Flat(a, b, d)] == AccessMatrixShare(vec1, vec2, products, a, b, d1, d2)
  }

  ghost predicate VectorFilled(output: seq<nat>, vec2: seq<nat>, products: seq<nat>, i: nat, d1: nat, d2: nat) {
    var d := d1 + d2;
    && YSquaredIndex(d2) + 3 <= |vec2| && |products| == d1 * (d2 + 1) && |output| == d * d + d + 3
    && forall a :: 0 <= a < d && a < i ==> output[d * d + a] == AccessVectorShare(vec2, products, a, d1, d2)
  }

  /** The output of one party: a selection of its own shares. */
  ghost predicate IsOutput(output: seq<nat>, vec1: seq<nat>, vec2: seq<nat>, products: seq<nat>, d1: nat, d2: nat) {
    var d := d1 + d2;
    && MatrixFilled(output, vec1, vec2, products, d, 0, d1, d2)
    && VectorFilled(output, vec2, products, d, d1, d2)
    && output[d * d + d] == vec2[YSquaredIndex(d2)]
    && output[d * d + d + 1] == vec2[YSquaredIndex(d2) + 1]
    && output[d * d + d + 2] == vec2[YSquaredIndex(d2) + 2]
  }

  lemma MatrixStep(output: seq<nat>, vec1: seq<nat>, vec2: seq<nat>, products: seq<nat>, i: nat, j: nat, d1: nat,
                   d2: nat)
    requires MatrixFilled(output, vec1, vec2, products, i, j, d1, d2) && i < d1 + d2 && j < d1 + d2
    ensures var d := d1 + d2;
      Flat(i, j, d) < d * d && Flat(i, j, d) < |output| &&
      MatrixFilled(output[Flat(i, j, d) := AccessMatrixShare(vec1, vec2, products, i, j, d1, d2)],
                   vec1, vec2, products, i, j + 1, d1, d2)
  {
    var d := d1 + d2;
    FlatBelow(i, j, d, d);
    hide Sized, AccessMatrixShare, Flat;
    forall a, b | 0 <= a < d && 0 <= b < d && (a < i || (a == i && b < j))
      ensures Flat(a, b, d) != Flat(i, j, d)
    {
      FlatInjective(i, j, a, b, d);
    }
  }

  lemma MatrixRow(output: seq<nat>, vec1: seq<nat>, vec2: seq<nat>, products: seq<nat>, i: nat, d1: nat, d2: nat)
    requires MatrixFilled(output, vec1, vec2, products, i, d1 + d2, d1, d2)
    ensures MatrixFilled(output, vec1, vec2, products, i + 1, 0, d1, d2)
  {
    hide Sized, AccessMatrixShare, Flat;
  }

  class RegressionPayloadCompute {
    const vec1: seq<nat>
    const vec2: seq<nat>
    const verticalNonDV: nat
    const verticalDV: nat

    /** The multiplications asked for: operands and the index their result goes to. */
    var requests: seq<(nat, nat, nat)>
    var multiplyResults: seq<nat>
    var output: seq<nat>
    var completed: bool

    constructor (vec1: seq<nat>, vec2: seq<nat>, d1: nat, d2: nat)
      ensures this.vec1 == vec1 && this.vec2 == vec2 && verticalNonDV == d1 && verticalDV == d2
      ensures requests == [] && !completed
    {
      this.vec1, this.vec2, verticalNonDV, verticalDV := vec1, vec2, d1, d2;
      requests, multiplyResults, output, completed := [], [], [], false;
    }

    /** Every product of a column of the first side with a column or y of the second is asked for. */
    method Init()
      requires requests == [] && verticalNonDV <= |vec1| && verticalDV + 1 <= |vec2|
      modifies this
      ensures |multiplyResults| == |requests| == verticalNonDV * (verticalDV + 1)
      ensures forall i, j :: 0 <= i < verticalNonDV && 0 <= j < verticalDV + 1 ==>
                Flat(i, j, verticalDV + 1) < |requests| &&
                requests[Flat(i, j, verticalDV + 1)] == (vec1[i], vec2[j], Flat(i, j, verticalDV + 1))
    {
      hide Flat;
      var d1, width := verticalNonDV, verticalDV + 1;
      multiplyResults := seq(d1 * width, _ => 0);
      FlatSteps(0, 0, width);
      for i := 0 to d1
        invariant |multiplyResults| == d1 * width && |requests| == Flat(i, 0, width)
        invariant forall a, b :: 0 <= a < i && 0 <= b < width ==>
                    Flat(a, b, width) < |requests| &&
                    requests[Flat(a, b, width)] == (vec1[a], vec2[b], Flat(a, b, width))
      {
        for j := 0 to width
          invariant |multiplyResults| == d1 * width && |requests| == Flat(i, j, width)
          invariant forall a, b :: 0 <= a <= i && 0 <= b < width && (a < i || b < j) ==>
                      Flat(a, b, width) < |requests| &&
                      requests[Flat(a, b, width)] == (vec1[a], vec2[b], Flat(a, b, width))
        {
          FlatSteps(i, j, width);
          requests := requests + [(vec1[i], vec2[j], Flat(i, j, width))];
        }
        FlatSteps(i, 0, width);
      }
      FlatSteps(d1, 0, width);
    }

    method HandleComplete()
      requires Sized(vec1, vec2, multiplyResults, verticalNonDV, verticalDV)
      modifies this`output, this`completed
      ensures IsOutput(output, vec1, vec2, multiplyResults, verticalNonDV, verticalDV) && completed
    {
      FillMatrix();
      FillVector();
      var d := verticalNonDV + verticalDV;
      var offset := YSquaredIndex(verticalDV);
      ghost var filled := output;
      output := output[d * d + d := vec2[offset]];
      output := output[d * d + d + 1 := vec2[offset + 1]];
      output := output[d * d + d + 2 := vec2[offset + 2]];
      KeepFilled(filled, output, vec1, vec2, multiplyResults, verticalNonDV, verticalDV, d);
      completed := true;
    }

    method FillMatrix()
      requires Sized(vec1, vec2, multiplyResults, verticalNonDV, verticalDV)
      modifies this`output
      ensures MatrixFilled(output, vec1, vec2, multiplyResults, verticalNonDV + verticalDV, 0, verticalNonDV,
                           verticalDV)
    {
      var d1, d2 := verticalNonDV, verticalDV;
      var d := d1 + d2;
      output := seq(d * d + d + 3, _ => 0);
      for i := 0 to d
        invariant MatrixFilled(output, vec1, vec2, multiplyResults, i, 0, d1, d2)
      {
        for j := 0 to d
          invariant MatrixFilled(output, vec1, vec2, multiplyResults, i, j, d1, d2)
        {
          MatrixStep(output, vec1, vec2, multiplyResults, i, j, d1, d2);
          hide MatrixFilled;
          output := output[Flat(i, j, d) := AccessMatrixShare(vec1, vec2, multiplyResults, i, j, d1, d2)];
        }
        MatrixRow(output, vec1, vec2, multiplyResults, i, d1, d2);
      }
    }

    /** The two loops over the columns times y. */
    method FillVector()
      requires MatrixFilled(output, vec1, vec2, multiplyResults, verticalNonDV + verticalDV, 0, verticalNonDV,
                            verticalDV)
      modifies this`output
      ensures MatrixFilled(output, vec1, vec2, multiplyResults, verticalNonDV + verticalDV, 0, verticalNonDV,
                           verticalDV)
      ensures VectorFilled(output, vec2, multiplyResults, verticalNonDV + verticalDV, verticalNonDV, verticalDV)
    {
      hide *;
      var d1, d2 := verticalNonDV, verticalDV;
      var d := d1 + d2;
      VectorStart(output, vec1, vec2, multiplyResults, d1, d2);
      for i := 0 to d1
        invariant MatrixFilled(output, vec1, vec2, multiplyResults, d, 0, d1, d2)
        invariant VectorFilled(output, vec2, multiplyResults, i, d1, d2)
      {
        ProductStep(output, vec1, vec2, multiplyResults, i, d1, d2);
        output := output[Tail(d, i) := multiplyResults[Flat(i, d2, d2 + 1)]];
      }
      for i := d1 to d
        invariant MatrixFilled(output, vec1, vec2, multiplyResults, d, 0, d1, d2)
        invariant VectorFilled(output, vec2, multiplyResults, i, d1, d2)
      {
        SecondStep(output, vec1, vec2, multiplyResults, i, d1, d2);
        output := output[Tail(d, i) := vec2[(d2 + 1) + Triangle(d2) + (i - d1)]];
      }
    }
  }

  lemma VectorStart(output: seq<nat>, vec1: seq<nat>, vec2: seq<nat>, products: seq<nat>, d1: nat, d2: nat)
    requires MatrixFilled(output, vec1, vec2, products, d1 + d2, 0, d1, d2)
    ensures VectorFilled(output, vec2, products, 0, d1, d2)
  {
  }

  lemma ProductStep(output: seq<nat>, vec1: seq<nat>, vec2: seq<nat>, products: seq<nat>, i: nat, d1: nat, d2: nat)
    requires MatrixFilled(output, vec1, vec2, products, d1 + d2, 0, d1, d2) && i < d1
    requires VectorFilled(output, vec2, products, i, d1, d2)
    ensures Tail(d1 + d2, i) < |output| && Flat(i, d2, d2 + 1) < |products|
    ensures var next := output[Tail(d1 + d2, i) := products[Flat(i, d2, d2 + 1)]];
      && MatrixFilled(next, vec1, vec2, products, d1 + d2, 0, d1, d2)
      && VectorFilled(next, vec2, products, i + 1, d1, d2)
  {
    FlatBelow(i, d2, d1, d2 + 1);
    StoreVector(output, vec1, vec2, products, i, d1, d2);
  }

  lemma SecondStep(output: seq<nat>, vec1: seq<nat>, vec2: seq<nat>, products: seq<nat>, i: nat, d1: nat, d2: nat)
    requires MatrixFilled(output, vec1, vec2, products, d1 + d2, 0, d1, d2) && d1 <= i < d1 + d2
    requires VectorFilled(output, vec2, products, i, d1, d2)
    ensures Tail(d1 + d2, i) < |output| && (d2 + 1) + Triangle(d2) + (i - d1) < |vec2|
    ensures var next := output[Tail(d1 + d2, i) := vec2[(d2 + 1) + Triangle(d2) + (i - d1)]];
      && MatrixFilled(next, vec1, vec2, products, d1 + d2, 0, d1, d2)
      && VectorFilled(next, vec2, products, i + 1, d1, d2)
  {
    Vec2Reach(d2);
    StoreVector(output, vec1, vec2, products, i, d1, d2);
  }

  /** The matrix is not touched by what happens behind it. */
  lemma MatrixKept(output: seq<nat>, next: seq<nat>, vec1: seq<nat>, vec2: seq<nat>, products: seq<nat>, d1: nat,
                   d2: nat, d: nat)
    requires d == d1 + d2 && |next| == |output|
    requires MatrixFilled(output, vec1, vec2, products, d, 0, d1, d2)
    requires forall k :: 0 <= k < Tail(d, 0) && k < |next| ==> next[k] == output[k]
    ensures MatrixFilled(next, vec1, vec2, products, d, 0, d1, d2)
  {
    hide AccessMatrixShare, Flat;
  }

  lemma VectorStored(output: seq<nat>, vec2: seq<nat>, products: seq<nat>, i: nat, d1: nat, d2: nat)
    requires VectorFilled(output, vec2, products, i, d1, d2) && i < d1 + d2
    ensures var d := d1 + d2;
      Tail(d, i) < |output| &&
      VectorFilled(output[Tail(d, i) := AccessVectorShare(vec2, products, i, d1, d2)], vec2, products, i + 1, d1, d2)
  {
    hide AccessVectorShare;
  }

  lemma StoreVector(output: seq<nat>, vec1: seq<nat>, vec2: seq<nat>, products: seq<nat>, i: nat, d1: nat, d2: nat)
    requires MatrixFilled(output, vec1, vec2, products, d1 + d2, 0, d1, d2) && i < d1 + d2
    requires VectorFilled(output, vec2, products, i, d1, d2)
    ensures var d := d1 + d2;
      Tail(d, i) < |output| &&
      var next := output[Tail(d, i) := AccessVectorShare(vec2, products, i, d1, d2)];
      && MatrixFilled(next, vec1, vec2, products, d, 0, d1, d2)
      && VectorFilled(next, vec2, products, i + 1, d1, d2)
  {
    hide AccessVectorShare, MatrixFilled;
    VectorStored(output, vec2, products, i, d1, d2);
    var next := output[Tail(d1 + d2, i) := AccessVectorShare(vec2, products, i, d1, d2)];
    MatrixKept(output, next, vec1, vec2, products, d1, d2, d1 + d2);
  }

  lemma KeepFilled(output: seq<nat>, next: seq<nat>, vec1: seq<nat>, vec2: seq<nat>, products: seq<nat>, d1: nat,
                   d2: nat, d: nat)
    requires d == d1 + d2 && |next| == |output|
    requires MatrixFilled(output, vec1, vec2, products, d, 0, d1, d2) && VectorFilled(output, vec2, products, d, d1, d2)
    requires forall k :: 0 <= k < d * d + d ==> next[k] == output[k]
    ensures MatrixFilled(next, vec1, vec2, products, d, 0, d1, d2) && VectorFilled(next, vec2, products, d, d1, d2)
  {
    hide AccessMatrixShare, AccessVectorShare, Flat;
  }

  // ----- what the shares of all parties hold

  /** Entry k of every party's vector. */
  function ColumnAt(vectors: seq<seq<nat>>, k: nat): (column: seq<int>)
    requires forall p :: 0 <= p < |vectors| ==> k < |vectors[p]|
    ensures |column| == |vectors| && forall p :: 0 <= p < |vectors| ==> column[p] == vectors[p][k]
  {
    seq(|vectors|, p requires 0 <= p < |vectors| => vectors[p][k])
  }

  /** The parties' vectors additively share v modulo m. */
  ghost predicate Shared(vectors: seq<seq<nat>>, v: seq<nat>, m: nat) {
    && m > 0 && (forall p :: 0 <= p < |vectors| ==> |vectors[p]| == |v|)
    && forall k :: 0 <= k < |v| ==> Cong(Sum(ColumnAt(vectors, k)), v[k], m)
  }

  /** What ideal multiplication returns: shares of the products of what the operands share. */
  ghost predicate Multiplied(products: seq<seq<nat>>, v1: seq<nat>, v2: seq<nat>, d1: nat, d2: nat, m: nat) {
    && m > 0 && d1 <= |v1| && d2 + 1 <= |v2|
    && (forall p :: 0 <= p < |products| ==> |products[p]| == d1 * (d2 + 1))
    && forall i, j :: 0 <= i < d1 && 0 <= j < d2 + 1 ==>
         Flat(i, j, d2 + 1) < d1 * (d2 + 1) &&
         Cong(Sum(ColumnAt(products, Flat(i, j, d2 + 1))), v1[i] * v2[j], m)
  }

  /** The parties' outputs share the value v at position k. */
  ghost predicate HoldsAt(outputs: seq<seq<nat>>, k: nat, v: int, m: nat) {
    && m > 0 && (forall p :: 0 <= p < |outputs| ==> k < |outputs[p]|)
    && Cong(Sum(ColumnAt(outputs, k)), v, m)
  }

  ghost predicate AllOutputs(outputs: seq<seq<nat>>, vec1s: seq<seq<nat>>, vec2s: seq<seq<nat>>,
                             products: seq<seq<nat>>, d1: nat, d2: nat) {
    && |outputs| == |vec1s| == |vec2s| == |products|
    && forall p :: 0 <= p < |outputs| ==> IsOutput(outputs[p], vec1s[p], vec2s[p], products[p], d1, d2)
  }

  /** Which column of the inputs a cell of the outputs is. */
  lemma CellColumn(outputs: seq<seq<nat>>, vec1s: seq<seq<nat>>, vec2s: seq<seq<nat>>, products: seq<seq<nat>>,
                   d1: nat, d2: nat, i: nat, j: nat, k: nat)
    requires AllOutputs(outputs, vec1s, vec2s, products, d1, d2) && i <= j < d1 + d2
    requires k == Flat(i, j, d1 + d2) || k == Flat(j, i, d1 + d2)
    ensures |vec1s| == |vec2s| == |products| == |outputs|
    ensures forall p :: 0 <= p < |outputs| ==>
      && Sized(vec1s[p], vec2s[p], products[p], d1, d2) && k < |outputs[p]|
      && outputs[p][k] == AccessMatrixShare(vec1s[p], vec2s[p], products[p], i, j, d1, d2)
  {
    var d := d1 + d2;
    forall p | 0 <= p < |outputs|
      ensures Sized(vec1s[p], vec2s[p], products[p], d1, d2) && k < |outputs[p]|
      ensures outputs[p][k] == AccessMatrixShare(vec1s[p], vec2s[p], products[p], i, j, d1, d2)
    {
      assert IsOutput(outputs[p], vec1s[p], vec2s[p], products[p], d1, d2);
      CellSwap(vec1s[p], vec2s[p], products[p], i, j, d1, d2);
      hide AccessMatrixShare, Flat, Sized;
      assert outputs[p][Flat(i, j, d)] == AccessMatrixShare(vec1s[p], vec2s[p], products[p], i, j, d1, d2);
      assert outputs[p][Flat(j, i, d)] == AccessMatrixShare(vec1s[p], vec2s[p], products[p], j, i, d1, d2);
    }
  }

  /** The matrix is symmetric. */
  lemma CellSwap(vec1: seq<nat>, vec2: seq<nat>, products: seq<nat>, i: nat, j: nat, d1: nat, d2: nat)
    requires i <= j < d1 + d2 && Sized(vec1, vec2, products, d1, d2)
    ensures AccessMatrixShare(vec1, vec2, products, j, i, d1, d2)
            == AccessMatrixShare(vec1, vec2, products, i, j, d1, d2)
  {
  }

  lemma FirstAccess(vec1: seq<nat>, vec2: seq<nat>, products: seq<nat>, i: nat, j: nat, d1: nat, d2: nat)
    requires i <= j < d1 && Sized(vec1, vec2, products, d1, d2)
    ensures TriangleIndex(d1, d1, i, j) < |vec1|
    ensures AccessMatrixShare(vec1, vec2, products, i, j, d1, d2) == vec1[TriangleIndex(d1, d1, i, j)]
  {
  }

  lemma CrossAccess(vec1: seq<nat>, vec2: seq<nat>, products: seq<nat>, i: nat, j: nat, d1: nat, d2: nat)
    requires i < d1 <= j < d1 + d2 && Sized(vec1, vec2, products, d1, d2)
    ensures Flat(i, j - d1, d2 + 1) < |products|
    ensures AccessMatrixShare(vec1, vec2, products, i, j, d1, d2) == products[Flat(i, j - d1, d2 + 1)]
  {
    FlatBelow(i, j - d1, d1, d2 + 1);
  }

  lemma SecondAccess(vec1: seq<nat>, vec2: seq<nat>, products: seq<nat>, i: nat, j: nat, d1: nat, d2: nat)
    requires d1 <= i <= j < d1 + d2 && Sized(vec1, vec2, products, d1, d2)
    ensures TriangleIndex(d2 + 1, d2, i - d1, j - d1) < |vec2|
    ensures AccessMatrixShare(vec1, vec2, products, i, j, d1, d2) == vec2[TriangleIndex(d2 + 1, d2, i - d1, j - d1)]
  {
    Vec2Reach(d2);
  }

  lemma SameColumn(outputs: seq<seq<nat>>, inputs: seq<seq<nat>>, k: nat, t: nat, v: int, m: nat)
    requires |outputs| == |inputs| && HoldsAt(inputs, t, v, m)
    requires forall p :: 0 <= p < |outputs| ==> k < |outputs[p]| && outputs[p][k] == inputs[p][t]
    ensures HoldsAt(outputs, k, v, m)
  {
    assert ColumnAt(outputs, k) == ColumnAt(inputs, t);
  }

  lemma SharedEntry(vectors: seq<seq<nat>>, v: seq<nat>, m: nat, k: nat)
    requires Shared(vectors, v, m) && k < |v|
    ensures HoldsAt(vectors, k, v[k], m)
  {
  }

  lemma ReducedEntry(vectors: seq<seq<nat>>, k: nat, a: nat, b: nat, m: nat)
    requires m > 0 && HoldsAt(vectors, k, ModMul(a, b, m), m)
    ensures HoldsAt(vectors, k, a * b, m)
  {
    CongMod(a * b, m);
    hide Sum;
  }

  lemma FirstTriangle(vec1s: seq<seq<nat>>, v1: seq<nat>, x1: seq<nat>, d1: nat, m: nat, i: nat, j: nat)
    requires |x1| == d1 && i <= j < d1
    requires Shared(vec1s, v1, m) && NonDVRecord(v1, x1, d1, m, |v1|)
    ensures HoldsAt(vec1s, TriangleIndex(d1, d1, i, j), x1[i] * x1[j], m)
  {
    var k := TriangleIndex(d1, d1, i, j);
    assert v1[k] == ModMul(x1[i], x1[j], m);
    SharedEntry(vec1s, v1, m, k);
    ReducedEntry(vec1s, k, x1[i], x1[j], m);
  }

  lemma SecondTriangle(vec2s: seq<seq<nat>>, v2: seq<nat>, x2: seq<nat>, y: nat, d2: nat, m: nat, i: nat, j: nat)
    requires |x2| == d2 && i <= j < d2
    requires Shared(vec2s, v2, m) && DVRecord(v2, x2, y, d2, m, |v2|)
    ensures HoldsAt(vec2s, TriangleIndex(d2 + 1, d2, i, j), x2[i] * x2[j], m)
  {
    var k := TriangleIndex(d2 + 1, d2, i, j);
    assert k < |v2| && v2[k] == ModMul(x2[i], x2[j], m);
    SharedEntry(vec2s, v2, m, k);
    ReducedEntry(vec2s, k, x2[i], x2[j], m);
  }

  /** The reconstructed records and the ideal products, for one matched pair. */
  ghost predicate MatchedPair(vec1s: seq<seq<nat>>, vec2s: seq<seq<nat>>, products: seq<seq<nat>>, v1: seq<nat>,
                              v2: seq<nat>, x1: seq<nat>, x2: seq<nat>, y: nat, m: nat) {
    && Shared(vec1s, v1, m) && NonDVRecord(v1, x1, |x1|, m, |v1|)
    && Shared(vec2s, v2, m) && DVRecord(v2, x2, y, |x2|, m, |v2|)
    && Multiplied(products, v1, v2, |x1|, |x2|, m)
  }

  /** The independent variables of both sides, the other party's first. */
  function Variable(x1: seq<nat>, x2: seq<nat>, i: nat): nat
    requires i < |x1| + |x2|
  {
    (x1 + x2)[i]
  }

  lemma VariableIs(x1: seq<nat>, x2: seq<nat>, i: nat)
    requires i < |x1| + |x2|
    ensures Variable(x1, x2, i) == if i < |x1| then x1[i] else x2[i - |x1|]
  {
  }

  lemma PairParts(vec1s: seq<seq<nat>>, vec2s: seq<seq<nat>>, products: seq<seq<nat>>, v1: seq<nat>,
                  v2: seq<nat>, x1: seq<nat>, x2: seq<nat>, y: nat, m: nat)
    requires MatchedPair(vec1s, vec2s, products, v1, v2, x1, x2, y, m)
    ensures m > 0 && Shared(vec1s, v1, m) && NonDVRecord(v1, x1, |x1|, m, |v1|)
    ensures Shared(vec2s, v2, m) && DVRecord(v2, x2, y, |x2|, m, |v2|)
    ensures Multiplied(products, v1, v2, |x1|, |x2|, m)
  {
  }

  lemma FirstCell(outputs: seq<seq<nat>>, vec1s: seq<seq<nat>>, vec2s: seq<seq<nat>>, products: seq<seq<nat>>,
                  v1: seq<nat>, v2: seq<nat>, x1: seq<nat>, x2: seq<nat>, y: nat, m: nat, i: nat, j: nat, k: nat)
    requires AllOutputs(outputs, vec1s, vec2s, products, |x1|, |x2|) && i <= j < |x1| + |x2|
    requires MatchedPair(vec1s, vec2s, products, v1, v2, x1, x2, y, m)
    requires k == Flat(i, j, |x1| + |x2|) || k == Flat(j, i, |x1| + |x2|)
    requires j < |x1|
    ensures HoldsAt(outputs, k, Variable(x1, x2, i) * Variable(x1, x2, j), m)
  {
    hide *;
    var d1, d2 := |x1|, |x2|;
    CellColumn(outputs, vec1s, vec2s, products, d1, d2, i, j, k);
    PairParts(vec1s, vec2s, products, v1, v2, x1, x2, y, m);
    VariableIs(x1, x2, i);
    VariableIs(x1, x2, j);
    forall p | 0 <= p < |outputs|
      ensures TriangleIndex(d1, d1, i, j) < |vec1s[p]| && outputs[p][k] == vec1s[p][TriangleIndex(d1, d1, i, j)]
    {
      FirstAccess(vec1s[p], vec2s[p], products[p], i, j, d1, d2);
    }
    FirstTriangle(vec1s, v1, x1, d1, m, i, j);
    SameCell(outputs, vec1s, k, TriangleIndex(d1, d1, i, j), x1[i], x1[j],
             Variable(x1, x2, i), Variable(x1, x2, j), m);
  }

  lemma CrossCell(outputs: seq<seq<nat>>, vec1s: seq<seq<nat>>, vec2s: seq<seq<nat>>, products: seq<seq<nat>>,
                  v1: seq<nat>, v2: seq<nat>, x1: seq<nat>, x2: seq<nat>, y: nat, m: nat, i: nat, j: nat, k: nat)
    requires AllOutputs(outputs, vec1s, vec2s, products, |x1|, |x2|) && i <= j < |x1| + |x2|
    requires MatchedPair(vec1s, vec2s, products, v1, v2, x1, x2, y, m)
    requires k == Flat(i, j, |x1| + |x2|) || k == Flat(j, i, |x1| + |x2|)
    requires i < |x1| <= j
    ensures HoldsAt(outputs, k, Variable(x1, x2, i) * Variable(x1, x2, j), m)
  {
    hide *;
    var d1, d2 := |x1|, |x2|;
    CellColumn(outputs, vec1s, vec2s, products, d1, d2, i, j, k);
    PairParts(vec1s, vec2s, products, v1, v2, x1, x2, y, m);
    VariableIs(x1, x2, i);
    VariableIs(x1, x2, j);
    forall p | 0 <= p < |outputs|
      ensures Flat(i, j - d1, d2 + 1) < |products[p]| && outputs[p][k] == products[p][Flat(i, j - d1, d2 + 1)]
    {
      CrossAccess(vec1s[p], vec2s[p], products[p], i, j, d1, d2);
    }
    ProductCell(products, v1, v2, x1, x2, y, m, i, j - d1);
    SameCell(outputs, products, k, Flat(i, j - d1, d2 + 1), x1[i], x2[j - d1],
             Variable(x1, x2, i), Variable(x1, x2, j), m);
  }

  lemma SecondCell(outputs: seq<seq<nat>>, vec1s: seq<seq<nat>>, vec2s: seq<seq<nat>>, products: seq<seq<nat>>,
                   v1: seq<nat>, v2: seq<nat>, x1: seq<nat>, x2: seq<nat>, y: nat, m: nat, i: nat, j: nat, k: nat)
    requires AllOutputs(outputs, vec1s, vec2s, products, |x1|, |x2|) && i <= j < |x1| + |x2|
    requires MatchedPair(vec1s, vec2s, products, v1, v2, x1, x2, y, m)
    requires k == Flat(i, j, |x1| + |x2|) || k == Flat(j, i, |x1| + |x2|)
    requires |x1| <= i
    ensures HoldsAt(outputs, k, Variable(x1, x2, i) * Variable(x1, x2, j), m)
  {
    hide *;
    var d1, d2 := |x1|, |x2|;
    CellColumn(outputs, vec1s, vec2s, products, d1, d2, i, j, k);
    PairParts(vec1s, vec2s, products, v1, v2, x1, x2, y, m);
    VariableIs(x1, x2, i);
    VariableIs(x1, x2, j);
    forall p | 0 <= p < |outputs|
      ensures TriangleIndex(d2 + 1, d2, i - d1, j - d1) < |vec2s[p]|
      ensures outputs[p][k] == vec2s[p][TriangleIndex(d2 + 1, d2, i - d1, j - d1)]
    {
      SecondAccess(vec1s[p], vec2s[p], products[p], i, j, d1, d2);
    }
    SecondTriangle(vec2s, v2, x2, y, d2, m, i - d1, j - d1);
    SameCell(outputs, vec2s, k, TriangleIndex(d2 + 1, d2, i - d1, j - d1), x2[i - d1], x2[j - d1],
             Variable(x1, x2, i), Variable(x1, x2, j), m);
  }

  lemma UpperCell(outputs: seq<seq<nat>>, vec1s: seq<seq<nat>>, vec2s: seq<seq<nat>>, products: seq<seq<nat>>,
                  v1: seq<nat>, v2: seq<nat>, x1: seq<nat>, x2: seq<nat>, y: nat, m: nat, i: nat, j: nat, k: nat)
    requires AllOutputs(outputs, vec1s, vec2s, products, |x1|, |x2|) && i <= j < |x1| + |x2|
    requires MatchedPair(vec1s, vec2s, products, v1, v2, x1, x2, y, m)
    requires k == Flat(i, j, |x1| + |x2|) || k == Flat(j, i, |x1| + |x2|)
    ensures HoldsAt(outputs, k, Variable(x1, x2, i) * Variable(x1, x2, j), m)
  {
    hide *;
    if j < |x1| {
      FirstCell(outputs, vec1s, vec2s, products, v1, v2, x1, x2, y, m, i, j, k);
    } else if i < |x1| {
      CrossCell(outputs, vec1s, vec2s, products, v1, v2, x1, x2, y, m, i, j, k);
    } else {
      SecondCell(outputs, vec1s, vec2s, products, v1, v2, x1, x2, y, m, i, j, k);
    }
  }

  lemma SameCell(outputs: seq<seq<nat>>, inputs: seq<seq<nat>>, k: nat, t: nat, a: nat, b: nat, u: nat, v: nat,
                 m: nat)
    requires |outputs| == |inputs| && HoldsAt(inputs, t, a * b, m) && a == u && b == v
    requires forall p :: 0 <= p < |outputs| ==> k < |outputs[p]| && outputs[p][k] == inputs[p][t]
    ensures HoldsAt(outputs, k, u * v, m)
  {
    SameColumn(outputs, inputs, k, t, a * b, m);
  }

  /** A cross product of the two sides, or of the first side with y. */
  lemma ProductCell(products: seq<seq<nat>>, v1: seq<nat>, v2: seq<nat>, x1: seq<nat>, x2: seq<nat>, y: nat, m: nat,
                    i: nat, j: nat)
    requires i < |x1| && j <= |x2| && m > 0 && NonDVRecord(v1, x1, |x1|, m, |v1|)
    requires DVRecord(v2, x2, y, |x2|, m, |v2|) && Multiplied(products, v1, v2, |x1|, |x2|, m)
    ensures HoldsAt(products, Flat(i, j, |x2| + 1), x1[i] * (if j < |x2| then x2[j] else y), m)
  {
    assert v1[i] == x1[i];
    assert v2[j] == if j < |x2| then x2[j] else y;
    hide NonDVRecord, DVRecord, Flat, Sum, Cong;
  }

  /**
   The matrix part: every cell (i, j), above or below the diagonal, shares the product of
   independent variables i and j.
   */
  lemma GramMatrix(outputs: seq<seq<nat>>, vec1s: seq<seq<nat>>, vec2s: seq<seq<nat>>, products: seq<seq<nat>>,
                   v1: seq<nat>, v2: seq<nat>, x1: seq<nat>, x2: seq<nat>, y: nat, m: nat, i: nat, j: nat)
    requires AllOutputs(outputs, vec1s, vec2s, products, |x1|, |x2|) && i < |x1| + |x2| && j < |x1| + |x2|
    requires MatchedPair(vec1s, vec2s, products, v1, v2, x1, x2, y, m)
    ensures HoldsAt(outputs, Flat(i, j, |x1| + |x2|), Variable(x1, x2, i) * Variable(x1, x2, j), m)
  {
    hide *;
    if i <= j {
      UpperCell(outputs, vec1s, vec2s, products, v1, v2, x1, x2, y, m, i, j, Flat(i, j, |x1| + |x2|));
    } else {
      UpperCell(outputs, vec1s, vec2s, products, v1, v2, x1, x2, y, m, j, i, Flat(i, j, |x1| + |x2|));
      assert Variable(x1, x2, i) * Variable(x1, x2, j) == Variable(x1, x2, j) * Variable(x1, x2, i);
    }
  }

  /** The rest of the record: every variable times y, then y squared, y and one. */
  lemma GramVector(outputs: seq<seq<nat>>, vec1s: seq<seq<nat>>, vec2s: seq<seq<nat>>, products: seq<seq<nat>>,
                   v1: seq<nat>, v2: seq<nat>, x1: seq<nat>, x2: seq<nat>, y: nat, m: nat)
    requires AllOutputs(outputs, vec1s, vec2s, products, |x1|, |x2|)
    requires MatchedPair(vec1s, vec2s, products, v1, v2, x1, x2, y, m)
    ensures var d := |x1| + |x2|;
      && (forall i :: 0 <= i < d ==> HoldsAt(outputs, Tail(d, i), Variable(x1, x2, i) * y, m))
      && HoldsAt(outputs, Tail(d, d), y * y, m)
      && HoldsAt(outputs, Tail(d, d + 1), y, m)
      && HoldsAt(outputs, Tail(d, d + 2), 1, m)
  {
    hide *;
    var d := |x1| + |x2|;
    forall i | 0 <= i < d
      ensures HoldsAt(outputs, Tail(d, i), Variable(x1, x2, i) * y, m)
    {
      VectorCell(outputs, vec1s, vec2s, products, v1, v2, x1, x2, y, m, i);
    }
    TailCells(outputs, vec1s, vec2s, products, v1, v2, x1, x2, y, m);
  }

  lemma VectorCell(outputs: seq<seq<nat>>, vec1s: seq<seq<nat>>, vec2s: seq<seq<nat>>, products: seq<seq<nat>>,
                   v1: seq<nat>, v2: seq<nat>, x1: seq<nat>, x2: seq<nat>, y: nat, m: nat, i: nat)
    requires AllOutputs(outputs, vec1s, vec2s, products, |x1|, |x2|) && i < |x1| + |x2|
    requires MatchedPair(vec1s, vec2s, products, v1, v2, x1, x2, y, m)
    ensures HoldsAt(outputs, Tail(|x1| + |x2|, i), Variable(x1, x2, i) * y, m)
  {
    hide *;
    var d1, d2 := |x1|, |x2|;
    var k := Tail(d1 + d2, i);
    VectorColumn(outputs, vec1s, vec2s, products, d1, d2, i);
    PairParts(vec1s, vec2s, products, v1, v2, x1, x2, y, m);
    VariableIs(x1, x2, i);
    if i < d1 {
      ProductCell(products, v1, v2, x1, x2, y, m, i, d2);
      SameCell(outputs, products, k, Flat(i, d2, d2 + 1), x1[i], y, Variable(x1, x2, i), y, m);
    } else {
      TimesY(vec2s, v2, x2, y, m, i - d1);
      SameCell(outputs, vec2s, k, (d2 + 1) + Triangle(d2) + (i - d1), x2[i - d1], y, Variable(x1, x2, i), y, m);
    }
  }

  lemma TimesY(vec2s: seq<seq<nat>>, v2: seq<nat>, x2: seq<nat>, y: nat, m: nat, i: nat)
    requires i < |x2| && Shared(vec2s, v2, m) && DVRecord(v2, x2, y, |x2|, m, |v2|)
    ensures HoldsAt(vec2s, (|x2| + 1) + Triangle(|x2|) + i, x2[i] * y, m)
  {
    var t := (|x2| + 1) + Triangle(|x2|) + i;
    assert v2[t] == ModMul(x2[i], y, m);
    SharedEntry(vec2s, v2, m, t);
    ReducedEntry(vec2s, t, x2[i], y, m);
  }

  lemma VectorColumn(outputs: seq<seq<nat>>, vec1s: seq<seq<nat>>, vec2s: seq<seq<nat>>, products: seq<seq<nat>>,
                     d1: nat, d2: nat, i: nat)
    requires AllOutputs(outputs, vec1s, vec2s, products, d1, d2) && i < d1 + d2
    ensures |outputs| == |products| == |vec2s|
    ensures forall p :: 0 <= p < |outputs| ==>
      var k := Tail(d1 + d2, i);
      && k < |outputs[p]|
      && (i < d1 ==> Flat(i, d2, d2 + 1) < |products[p]| && outputs[p][k] == products[p][Flat(i, d2, d2 + 1)])
      && (d1 <= i ==> (d2 + 1) + Triangle(d2) + (i - d1) < |vec2s[p]| &&
                      outputs[p][k] == vec2s[p][(d2 + 1) + Triangle(d2) + (i - d1)])
  {
    Vec2Reach(d2);
    if i < d1 {
      FlatBelow(i, d2, d1, d2 + 1);
    }
    forall p | 0 <= p < |outputs|
      ensures Tail(d1 + d2, i) < |outputs[p]|
      ensures outputs[p][Tail(d1 + d2, i)] == AccessVectorShare(vec2s[p], products[p], i, d1, d2)
    {
      assert IsOutput(outputs[p], vec1s[p], vec2s[p], products[p], d1, d2);
      hide AccessVectorShare, Flat, Triangle, MatrixFilled;
    }
    hide Flat, Triangle, IsOutput;
  }

  lemma TailCells(outputs: seq<seq<nat>>, vec1s: seq<seq<nat>>, vec2s: seq<seq<nat>>, products: seq<seq<nat>>,
                  v1: seq<nat>, v2: seq<nat>, x1: seq<nat>, x2: seq<nat>, y: nat, m: nat)
    requires AllOutputs(outputs, vec1s, vec2s, products, |x1|, |x2|)
    requires MatchedPair(vec1s, vec2s, products, v1, v2, x1, x2, y, m)
    ensures var d := |x1| + |x2|;
      && HoldsAt(outputs, Tail(d, d), y * y, m)
      && HoldsAt(outputs, Tail(d, d + 1), y, m)
      && HoldsAt(outputs, Tail(d, d + 2), 1, m)
  {
    hide *;
    var d, t := |x1| + |x2|, YSquaredIndex(|x2|);
    TailColumn(outputs, vec1s, vec2s, products, |x1|, |x2|, 0);
    TailColumn(outputs, vec1s, vec2s, products, |x1|, |x2|, 1);
    TailColumn(outputs, vec1s, vec2s, products, |x1|, |x2|, 2);
    PairParts(vec1s, vec2s, products, v1, v2, x1, x2, y, m);
    YTerms(vec2s, v2, x2, y, m);
    SameColumn(outputs, vec2s, Tail(d, d), t, y * y, m);
    SameColumn(outputs, vec2s, Tail(d, d + 1), t + 1, y, m);
    SameColumn(outputs, vec2s, Tail(d, d + 2), t + 2, 1, m);
  }

  lemma YTerms(vec2s: seq<seq<nat>>, v2: seq<nat>, x2: seq<nat>, y: nat, m: nat)
    requires Shared(vec2s, v2, m) && DVRecord(v2, x2, y, |x2|, m, |v2|)
    ensures var t := YSquaredIndex(|x2|);
      HoldsAt(vec2s, t, y * y, m) && HoldsAt(vec2s, t + 1, y, m) && HoldsAt(vec2s, t + 2, 1, m)
  {
    var t := YSquaredIndex(|x2|);
    assert t + 3 <= |v2| && v2[t] == ModMul(y, y, m) && v2[t + 1] == y && v2[t + 2] == 1;
    hide DVRecord;
    SharedEntry(vec2s, v2, m, t);
    SharedEntry(vec2s, v2, m, t + 1);
    SharedEntry(vec2s, v2, m, t + 2);
    ReducedEntry(vec2s, t, y, y, m);
  }

  /** The three entries behind the vector, in one party's output. */
  lemma OutputTail(output: seq<nat>, vec1: seq<nat>, vec2: seq<nat>, products: seq<nat>, d1: nat, d2: nat)
    requires IsOutput(output, vec1, vec2, products, d1, d2)
    ensures var d, t := d1 + d2, YSquaredIndex(d2);
      && |output| == Tail(d, d + 3) && t + 3 <= |vec2|
      && output[Tail(d, d)] == vec2[t]
      && output[Tail(d, d + 1)] == vec2[t + 1]
      && output[Tail(d, d + 2)] == vec2[t + 2]
  {
    hide YSquaredIndex, MatrixFilled, AccessVectorShare;
  }

  lemma TailColumn(outputs: seq<seq<nat>>, vec1s: seq<seq<nat>>, vec2s: seq<seq<nat>>, products: seq<seq<nat>>,
                   d1: nat, d2: nat, k: nat)
    requires AllOutputs(outputs, vec1s, vec2s, products, d1, d2) && k < 3
    ensures |outputs| == |vec2s|
    ensures forall p :: 0 <= p < |outputs| ==>
      && Tail(d1 + d2, d1 + d2 + k) < |outputs[p]| && YSquaredIndex(d2) + k < |vec2s[p]|
      && outputs[p][Tail(d1 + d2, d1 + d2 + k)] == vec2s[p][YSquaredIndex(d2) + k]
  {
    hide YSquaredIndex, IsOutput;
    forall p | 0 <= p < |outputs|
      ensures Tail(d1 + d2, d1 + d2 + k) < |outputs[p]| && YSquaredIndex(d2) + k < |vec2s[p]|
      ensures outputs[p][Tail(d1 + d2, d1 + d2 + k)] == vec2s[p][YSquaredIndex(d2) + k]
    {
      OutputTail(outputs[p], vec1s[p], vec2s[p], products[p], d1, d2);
      TailOrder(d1 + d2, d1 + d2 + k, d1 + d2 + 3);
    }
  }

  lemma TailOrder(width: nat, i: nat, j: nat)
    requires i < j
    ensures Tail(width, i) < Tail(width, j)
  {
  }
}
