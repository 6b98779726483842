/** The two batches of multiplications that weight the Gram sums by the coefficients and the count. */
module WeightedProducts {
  import opened Modular
  import opened Sharing
  import opened Payload
  import opened PayloadCompute
  import opened ErrorTerms
  import opened GramSums

  /** Where a product goes: the fields of Regression that the two batches fill. */
  datatype Slot =
    | BetaBeta(i: nat, j: nat) | XXN(i: nat, j: nat) | BetaTimesXY(i: nat) | YSquaredN | YSumThenSquared
    | BetaBetaXXN(i: nat, j: nat) | BetaBetaXX(i: nat, j: nat) | BetaTimesXYN(i: nat)

  /** What is multiplied: a coefficient, an entry of the matrix (x * y in column d), or a product of the first batch. */
  datatype Operand = Coefficient(i: nat) | Entry(i: nat, j: nat) | Count | YSquared | YSum | Product(slot: Slot)

  type Requests = map<Slot, (nat, nat)>
  type Products = map<Slot, nat>

  /** One party's shares: coefficients, the d x (d + 1) matrix of Gram sums, the count, y squared and y. */
  datatype Shares = Shares(beta: seq<nat>, gram: seq<nat>, one: nat, ySquared: nat, y: nat)

  ghost predicate Shaped(p: Shares, d: nat) {
    |p.beta| == d && |p.gram| == d * (d + 1)
  }

  /** Row-major position (i, j) in the matrix of d rows and d + 1 columns. */
  function MatrixIndex(i: nat, j: nat, d: nat): nat {
    Flat(i, j, d + 1)
  }

  lemma IndexBelow(i: nat, j: nat, d: nat)
    requires i < d && j <= d
    ensures MatrixIndex(i, j, d) < d * (d + 1)
  {
    FlatBelow(i, j, d, d + 1);
  }

  lemma IndexInjective(i: nat, j: nat, a: nat, b: nat, d: nat)
    requires j <= d && b <= d && (i != a || j != b)
    ensures MatrixIndex(i, j, d) != MatrixIndex(a, b, d)
  {
    FlatInjective(i, j, a, b, d + 1);
  }

  function GramAt(p: Shares, i: nat, j: nat, d: nat): nat
    requires Shaped(p, d) && i < d && j <= d
  {
    IndexBelow(i, j, d);
    p.gram[MatrixIndex(i, j, d)]
  }

  function CoefficientAt(p: Shares, i: nat, d: nat): nat
    requires Shaped(p, d) && i < d
  {
    p.beta[i]
  }

  predicate SlotInRange(s: Slot, d: nat) {
    match s
    case BetaBeta(i, j) => i <= j < d
    case XXN(i, j) => i <= j < d
    case BetaTimesXY(i) => i < d
    case YSquaredN => true
    case YSumThenSquared => true
    case BetaBetaXXN(i, j) => i <= j < d
    case BetaBetaXX(i, j) => i <= j < d
    case BetaTimesXYN(i) => i < d
  }

  /** The loops in program order; the second batch starts at 5. */
  function Turn(s: Slot): nat {
    match s
    case BetaBeta(_, _) => 0
    case XXN(_, _) => 1
    case BetaTimesXY(_) => 2
    case YSquaredN => 3
    case YSumThenSquared => 4
    case BetaBetaXXN(_, _) => 5
    case BetaBetaXX(_, _) => 6
    case BetaTimesXYN(_) => 7
  }

  const SECOND_BATCH: nat := 5
  const END: nat := 8

  function SlotRow(s: Slot): nat {
    if s.YSquaredN? || s.YSumThenSquared? then 0 else s.i
  }

  function SlotCol(s: Slot): nat {
    if s.YSquaredN? || s.YSumThenSquared? || s.BetaTimesXY? || s.BetaTimesXYN? then 0 else s.j
  }

  /** The two factors of every product. */
  function Factors(s: Slot, d: nat): (Operand, Operand) {
    match s
    case BetaBeta(i, j) => (Coefficient(i), Coefficient(j))
    case XXN(i, j) => (Entry(i, j), Count)
    case BetaTimesXY(i) => (Entry(i, d), Coefficient(i))
    case YSquaredN => (YSquared, Count)
    case YSumThenSquared => (YSum, YSum)
    case BetaBetaXXN(i, j) => (Product(BetaBeta(i, j)), Product(XXN(i, j)))
    case BetaBetaXX(i, j) => (Product(BetaBeta(i, j)), Entry(i, j))
    case BetaTimesXYN(i) => (Count, Product(BetaTimesXY(i)))
  }

  /** The products of the first batch are there. */
  ghost predicate HasFirst(first: Products, d: nat) {
    forall s :: InBatch(s, d, 0, SECOND_BATCH) ==> s in first
  }

  ghost predicate Available(first: Products, o: Operand, d: nat) {
    match o
    case Coefficient(i) => i < d
    case Entry(i, j) => i < d && j <= d
    case Product(s) => s in first
    case _ => true
  }

  ghost function ShareOf(p: Shares, first: Products, o: Operand, d: nat): nat
    requires Shaped(p, d) && Available(first, o, d)
  {
    match o
    case Coefficient(i) => CoefficientAt(p, i, d)
    case Entry(i, j) => GramAt(p, i, j, d)
    case Count => p.one
    case YSquared => p.ySquared
    case YSum => p.y
    case Product(s) => first[s]
  }

  /** The request multiplies the party's shares of the two factors of s. */
  ghost predicate Requested(requests: Requests, s: Slot, p: Shares, first: Products, d: nat) {
    && s in requests && Shaped(p, d)
    && Available(first, Factors(s, d).0, d) && Available(first, Factors(s, d).1, d)
    && requests[s] == (ShareOf(p, first, Factors(s, d).0, d), ShareOf(p, first, Factors(s, d).1, d))
  }

  predicate InBatch(s: Slot, d: nat, from: nat, end: nat) {
    SlotInRange(s, d) && from <= Turn(s) < end
  }

  /** Exactly the slots of some stages, each with its factors. */
  ghost predicate Batch(requests: Requests, p: Shares, first: Products, d: nat, from: nat, end: nat) {
    && (forall s :: s in requests <==> InBatch(s, d, from, end))
    && forall s :: s in requests ==> Requested(requests, s, p, first, d)
  }

  /** The slots from one stage on that come before place (i, j) of another. */
  predicate Issued(s: Slot, d: nat, from: nat, stage: nat, i: nat, j: nat) {
    && SlotInRange(s, d) && from <= Turn(s)
    && (Turn(s) < stage || (Turn(s) == stage && (SlotRow(s) < i || (SlotRow(s) == i && SlotCol(s) < j))))
  }

  ghost predicate UpTo(requests: Requests, p: Shares, first: Products, d: nat, from: nat, stage: nat, i: nat, j: nat) {
    && (forall s :: s in requests <==> Issued(s, d, from, stage, i, j))
    && forall s :: s in requests ==> Requested(requests, s, p, first, d)
  }

  lemma NextRequest(requests: Requests, s: Slot, p: Shares, first: Products, d: nat, from: nat, next: Requests)
    requires UpTo(requests, p, first, d, from, Turn(s), SlotRow(s), SlotCol(s))
    requires SlotInRange(s, d) && from <= Turn(s) && s in next && next == requests[s := next[s]]
    requires Requested(next, s, p, first, d)
    ensures UpTo(next, p, first, d, from, Turn(s), SlotRow(s), SlotCol(s) + 1)
  {
    hide ShareOf, Factors, Available;
    forall t | t in next
      ensures Requested(next, t, p, first, d)
    {
      if t != s {
        assert Requested(requests, t, p, first, d);
      }
    }
  }

  lemma NotYetThere(requests: Requests, s: Slot, p: Shares, first: Products, d: nat, from: nat)
    requires UpTo(requests, p, first, d, from, Turn(s), SlotRow(s), SlotCol(s))
    ensures s !in requests
  {
    hide Requested;
  }

  /** One more request: the slot at the current place. */
  lemma AddRequest(requests: Requests, s: Slot, p: Shares, first: Products, d: nat, from: nat, next: Requests)
    requires UpTo(requests, p, first, d, from, Turn(s), SlotRow(s), SlotCol(s))
    requires SlotInRange(s, d) && from <= Turn(s) && s in next && next == requests[s := next[s]]
    requires Requested(next, s, p, first, d)
    ensures UpTo(next, p, first, d, from, Turn(s), SlotRow(s), SlotCol(s) + 1) && |next| == |requests| + 1
  {
    hide UpTo, Requested, SlotInRange, Turn, SlotRow, SlotCol;
    NotYetThere(requests, s, p, first, d, from);
    NextRequest(requests, s, p, first, d, from, next);
    assert next.Keys == requests.Keys + {s};
    assert |next| == |next.Keys| && |requests| == |requests.Keys|;
  }

  lemma AllPairsBefore(d: nat)
    ensures Before(d, 0) == 0 && Before(d, d) == Triangle(d)
  {
    BeforeClosed(d, d);
  }

  lemma BeforeRow(d: nat, i: nat)
    requires i < d
    ensures Before(d, i + 1) == Before(d, i) + (d - i)
  {
  }

  /** The end of row i is the start of the next one; before the diagonal there is nothing in it. */
  lemma NextRow(requests: Requests, p: Shares, first: Products, d: nat, from: nat, stage: nat, i: nat)
    requires stage in {0, 1, 5, 6} && UpTo(requests, p, first, d, from, stage, i, d)
    ensures UpTo(requests, p, first, d, from, stage, i + 1, i + 1)
  {
    hide Requested;
  }

  lemma NextEntry(requests: Requests, p: Shares, first: Products, d: nat, from: nat, stage: nat, i: nat)
    requires stage !in {0, 1, 5, 6} && UpTo(requests, p, first, d, from, stage, i, 1)
    ensures UpTo(requests, p, first, d, from, stage, i + 1, 0)
  {
    hide Requested;
  }

  /** The loop is over. */
  lemma NextStage(requests: Requests, p: Shares, first: Products, d: nat, from: nat, stage: nat, i: nat, j: nat)
    requires UpTo(requests, p, first, d, from, stage, i, j)
    requires i >= (if stage in {3, 4} then 1 else d)
    ensures UpTo(requests, p, first, d, from, stage + 1, 0, 0)
  {
    hide Requested;
  }

  lemma NoRequests(p: Shares, first: Products, d: nat, from: nat)
    ensures UpTo(map[], p, first, d, from, from, 0, 0)
  {
  }

  /** All pairs of coefficients, Gram entries by the count, every x * y by its coefficient, and two more products. */
  method FirstBatch(p: Shares, d: nat) returns (requests: Requests)
    requires Shaped(p, d)
    ensures Batch(requests, p, map[], d, 0, SECOND_BATCH) && |requests| == 2 * Triangle(d) + d + 2
  {
    hide UpTo, GramAt, Triangle, Before;
    AllPairsBefore(d);
    requests := map[];
    NoRequests(p, map[], d, 0);
    for i := 0 to d
      invariant UpTo(requests, p, map[], d, 0, 0, i, i) && |requests| == Before(d, i)
    {
      for j := i to d
        invariant UpTo(requests, p, map[], d, 0, 0, i, j) && |requests| == Before(d, i) + (j - i)
      {
        ghost var before := requests;
        requests := requests[BetaBeta(i, j) := (p.beta[i], p.beta[j])];
        AddRequest(before, BetaBeta(i, j), p, map[], d, 0, requests);
      }
      BeforeRow(d, i);
      NextRow(requests, p, map[], d, 0, 0, i);
    }
    NextStage(requests, p, map[], d, 0, 0, d, d);
    for i := 0 to d
      invariant UpTo(requests, p, map[], d, 0, 1, i, i) && |requests| == Triangle(d) + Before(d, i)
    {
      for j := i to d
        invariant UpTo(requests, p, map[], d, 0, 1, i, j) && |requests| == Triangle(d) + Before(d, i) + (j - i)
      {
        ghost var before := requests;
        requests := requests[XXN(i, j) := (GramAt(p, i, j, d), p.one)];
        AddRequest(before, XXN(i, j), p, map[], d, 0, requests);
      }
      BeforeRow(d, i);
      NextRow(requests, p, map[], d, 0, 1, i);
    }
    NextStage(requests, p, map[], d, 0, 1, d, d);
    for i := 0 to d
      invariant UpTo(requests, p, map[], d, 0, 2, i, 0) && |requests| == 2 * Triangle(d) + i
    {
      ghost var before := requests;
      requests := requests[BetaTimesXY(i) := (GramAt(p, i, d, d), p.beta[i])];
      AddRequest(before, BetaTimesXY(i), p, map[], d, 0, requests);
      NextEntry(requests, p, map[], d, 0, 2, i);
    }
    NextStage(requests, p, map[], d, 0, 2, d, 0);
    ghost var loops := requests;
    requests := requests[YSquaredN := (p.ySquared, p.one)];
    AddRequest(loops, YSquaredN, p, map[], d, 0, requests);
    NextEntry(requests, p, map[], d, 0, 3, 0);
    NextStage(requests, p, map[], d, 0, 3, 1, 0);
    ghost var before := requests;
    requests := requests[YSumThenSquared := (p.y, p.y)];
    AddRequest(before, YSumThenSquared, p, map[], d, 0, requests);
    NextEntry(requests, p, map[], d, 0, 4, 0);
    NextStage(requests, p, map[], d, 0, 4, 1, 0);
    WholeBatch(requests, p, map[], d, 0, SECOND_BATCH);
  }

  /** The pairs of coefficients by the Gram entries, with and without the count, and the rest by the count. */
  method SecondBatch(p: Shares, first: Products, d: nat) returns (requests: Requests)
    requires Shaped(p, d) && HasFirst(first, d)
    ensures Batch(requests, p, first, d, SECOND_BATCH, END) && |requests| == 2 * Triangle(d) + d
  {
    hide UpTo, GramAt, Triangle, Before;
    AllPairsBefore(d);
    requests := map[];
    NoRequests(p, first, d, SECOND_BATCH);
    for i := 0 to d
      invariant UpTo(requests, p, first, d, SECOND_BATCH, 5, i, i) && |requests| == Before(d, i)
    {
      for j := i to d
        invariant UpTo(requests, p, first, d, SECOND_BATCH, 5, i, j)
        invariant |requests| == Before(d, i) + (j - i)
      {
        ghost var before := requests;
        requests := requests[BetaBetaXXN(i, j) := (first[BetaBeta(i, j)], first[XXN(i, j)])];
        AddRequest(before, BetaBetaXXN(i, j), p, first, d, SECOND_BATCH, requests);
      }
      BeforeRow(d, i);
      NextRow(requests, p, first, d, SECOND_BATCH, 5, i);
    }
    NextStage(requests, p, first, d, SECOND_BATCH, 5, d, d);
    for i := 0 to d
      invariant UpTo(requests, p, first, d, SECOND_BATCH, 6, i, i) && |requests| == Triangle(d) + Before(d, i)
    {
      for j := i to d
        invariant UpTo(requests, p, first, d, SECOND_BATCH, 6, i, j)
        invariant |requests| == Triangle(d) + Before(d, i) + (j - i)
      {
        ghost var before := requests;
        requests := requests[BetaBetaXX(i, j) := (first[BetaBeta(i, j)], GramAt(p, i, j, d))];
        AddRequest(before, BetaBetaXX(i, j), p, first, d, SECOND_BATCH, requests);
      }
      BeforeRow(d, i);
      NextRow(requests, p, first, d, SECOND_BATCH, 6, i);
    }
    NextStage(requests, p, first, d, SECOND_BATCH, 6, d, d);
    for i := 0 to d
      invariant UpTo(requests, p, first, d, SECOND_BATCH, 7, i, 0) && |requests| == 2 * Triangle(d) + i
    {
      ghost var before := requests;
      requests := requests[BetaTimesXYN(i) := (p.one, first[BetaTimesXY(i)])];
      AddRequest(before, BetaTimesXYN(i), p, first, d, SECOND_BATCH, requests);
      NextEntry(requests, p, first, d, SECOND_BATCH, 7, i);
    }
    NextStage(requests, p, first, d, SECOND_BATCH, 7, d, 0);
    WholeBatch(requests, p, first, d, SECOND_BATCH, END);
  }

  lemma WholeBatch(requests: Requests, p: Shares, first: Products, d: nat, from: nat, end: nat)
    requires UpTo(requests, p, first, d, from, end, 0, 0)
    ensures Batch(requests, p, first, d, from, end)
  {
    hide Requested;
    forall s
      ensures Issued(s, d, from, end, 0, 0) <==> InBatch(s, d, from, end)
    {
    }
  }

  // ----- the shares the batches start from

  /** The party's shares come from its Gram vector. */
  ghost predicate Arranged(p: Shares, converted: seq<nat>, d: nat) {
    && Shaped(p, d) && |converted| == Width(d)
    && (forall i: nat, j: nat :: i < d && j < d ==> GramAt(p, i, j, d) == converted[PlaceOf(XX(i, j), d)])
    && (forall i: nat :: i < d ==> GramAt(p, i, d, d) == converted[PlaceOf(XY(i), d)])
    && p.ySquared == converted[PlaceOf(YY, d)] && p.y == converted[PlaceOf(Y, d)] && p.one == converted[PlaceOf(One, d)]
  }

  ghost predicate MatrixMerged(merged: seq<nat>, converted: seq<nat>, d: nat, i: nat, j: nat) {
    && |merged| == d * (d + 1) && |converted| == Width(d)
    && forall a: nat, b: nat :: a < d && b < d && (a < i || (a == i && b < j)) ==>
         MatrixIndex(a, b, d) < d * (d + 1) && merged[MatrixIndex(a, b, d)] == converted[PlaceOf(XX(a, b), d)]
  }

  ghost predicate VectorMerged(merged: seq<nat>, converted: seq<nat>, d: nat, i: nat) {
    && |merged| == d * (d + 1) && |converted| == Width(d)
    && forall a: nat :: a < d && a < i ==>
         MatrixIndex(a, d, d) < d * (d + 1) && merged[MatrixIndex(a, d, d)] == converted[PlaceOf(XY(a), d)]
  }

  lemma MergeCell(merged: seq<nat>, converted: seq<nat>, d: nat, i: nat, j: nat)
    requires MatrixMerged(merged, converted, d, i, j) && i < d && j < d
    ensures MatrixIndex(i, j, d) < d * (d + 1)
    ensures MatrixMerged(merged[MatrixIndex(i, j, d) := converted[PlaceOf(XX(i, j), d)]], converted, d, i, j + 1)
  {
    hide MatrixIndex, PlaceOf;
    IndexBelow(i, j, d);
    forall a: nat, b: nat | a < d && b < d && (a < i || (a == i && b < j))
      ensures MatrixIndex(a, b, d) != MatrixIndex(i, j, d)
    {
      IndexInjective(i, j, a, b, d);
    }
  }

  lemma MergeEntry(merged: seq<nat>, converted: seq<nat>, d: nat, i: nat)
    requires MatrixMerged(merged, converted, d, d, 0) && VectorMerged(merged, converted, d, i) && i < d
    ensures MatrixIndex(i, d, d) < d * (d + 1)
    ensures var next := merged[MatrixIndex(i, d, d) := converted[PlaceOf(XY(i), d)]];
      MatrixMerged(next, converted, d, d, 0) && VectorMerged(next, converted, d, i + 1)
  {
    hide MatrixIndex, PlaceOf;
    IndexBelow(i, d, d);
    forall a: nat, b: nat | a < d && b <= d && (a != i || b != d)
      ensures MatrixIndex(a, b, d) != MatrixIndex(i, d, d)
    {
      IndexInjective(i, d, a, b, d);
    }
  }

  /** The converted Gram vector becomes the matrix with the vector as last column, and three shares. */
  method Arrange(converted: seq<nat>, beta: seq<nat>, d: nat) returns (p: Shares)
    requires |converted| == Width(d) && |beta| == d
    ensures Arranged(p, converted, d) && p.beta == beta
  {
    hide PlaceOf;
    var cells: nat := d * (d + 1);
    var merged: seq<nat> := seq(cells, _ => 0);
    for i := 0 to d
      invariant MatrixMerged(merged, converted, d, i, 0)
    {
      for j := 0 to d
        invariant MatrixMerged(merged, converted, d, i, j)
      {
        MergeCell(merged, converted, d, i, j);
        merged := merged[MatrixIndex(i, j, d) := converted[PlaceOf(XX(i, j), d)]];
      }
    }
    for i := 0 to d
      invariant MatrixMerged(merged, converted, d, d, 0) && VectorMerged(merged, converted, d, i)
    {
      MergeEntry(merged, converted, d, i);
      merged := merged[MatrixIndex(i, d, d) := converted[PlaceOf(XY(i), d)]];
    }
    p := Shares(beta, merged, converted[PlaceOf(One, d)], converted[PlaceOf(YY, d)], converted[PlaceOf(Y, d)]);
  }

  // ----- what the products share

  /** What the product is of. */
  function SlotValue(data: seq<Sample>, beta: nat -> int, s: Slot): int {
    match s
    case BetaBeta(i, j) => beta(i) * beta(j)
    case XXN(i, j) => |data| * SumXX(data, i, j)
    case BetaTimesXY(i) => BetaXY(data, beta)(i)
    case YSquaredN => |data| * SumYY(data)
    case YSumThenSquared => SumY(data) * SumY(data)
    case BetaBetaXXN(i, j) => |data| * BetaXX(data, beta)(i, j)
    case BetaBetaXX(i, j) => BetaXX(data, beta)(i, j)
    case BetaTimesXYN(i) => |data| * BetaXY(data, beta)(i)
  }

  function Value(data: seq<Sample>, beta: nat -> int, o: Operand, d: nat): int {
    match o
    case Coefficient(i) => beta(i)
    case Entry(i, j) => if j < d then SumXX(data, i, j) else SumXY(data, i)
    case Count => |data|
    case YSquared => SumYY(data)
    case YSum => SumY(data)
    case Product(s) => SlotValue(data, beta, s)
  }

  lemma FactorValues(data: seq<Sample>, beta: nat -> int, s: Slot, d: nat)
    requires SlotInRange(s, d)
    ensures Value(data, beta, Factors(s, d).0, d) * Value(data, beta, Factors(s, d).1, d) == SlotValue(data, beta, s)
  {
    hide SumXX, SumXY, SumYY, SumY;
    match s
    case BetaBetaXXN(i, j) => CountInFront(beta(i) * beta(j), |data|, SumXX(data, i, j));
    case _ =>
  }

  lemma CountInFront(b: int, n: int, x: int)
    ensures b * (n * x) == n * (b * x)
  {
  }

  /** The shares that all parties hold of one operand. */
  ghost function OperandColumn(shares: seq<Shares>, firsts: seq<Products>, o: Operand, d: nat): (column: seq<int>)
    requires |shares| == |firsts|
    requires forall p :: 0 <= p < |shares| ==> Shaped(shares[p], d) && Available(firsts[p], o, d)
    ensures |column| == |shares|
    ensures forall p :: 0 <= p < |shares| ==> column[p] == ShareOf(shares[p], firsts[p], o, d)
  {
    seq(|shares|, p requires 0 <= p < |shares| => ShareOf(shares[p], firsts[p], o, d))
  }

  ghost predicate HoldsOperand(shares: seq<Shares>, firsts: seq<Products>, o: Operand, v: int, d: nat, m: nat) {
    && m > 0 && |shares| == |firsts|
    && (forall p :: 0 <= p < |shares| ==> Shaped(shares[p], d) && Available(firsts[p], o, d))
    && Cong(Sum(OperandColumn(shares, firsts, o, d)), v, m)
  }

  ghost function ProductColumn(products: seq<Products>, s: Slot): (column: seq<int>)
    requires forall p :: 0 <= p < |products| ==> s in products[p]
    ensures |column| == |products| && forall p :: 0 <= p < |products| ==> column[p] == products[p][s]
  {
    seq(|products|, p requires 0 <= p < |products| => products[p][s])
  }

  ghost predicate HoldsProduct(products: seq<Products>, s: Slot, v: int, m: nat) {
    && m > 0 && (forall p :: 0 <= p < |products| ==> s in products[p])
    && Cong(Sum(ProductColumn(products, s)), v, m)
  }

  ghost function FactorColumn(requests: seq<Requests>, s: Slot, second: bool): (column: seq<int>)
    requires forall p :: 0 <= p < |requests| ==> s in requests[p]
    ensures |column| == |requests|
    ensures forall p :: 0 <= p < |requests| ==> column[p] == if second then requests[p][s].1 else requests[p][s].0
  {
    seq(|requests|, p requires 0 <= p < |requests| => if second then requests[p][s].1 else requests[p][s].0)
  }

  /** What ideal multiplication returns: the outputs share the product of what the two factors share. */
  ghost predicate MultipliedAll(requests: seq<Requests>, products: seq<Products>, m: nat) {
    && m > 0 && |requests| == |products|
    && forall s :: (forall p :: 0 <= p < |requests| ==> s in requests[p]) ==>
         HoldsProduct(products, s, Sum(FactorColumn(requests, s, false)) * Sum(FactorColumn(requests, s, true)), m)
  }

  /** All parties ask for the same batch. */
  ghost predicate SameBatch(requests: seq<Requests>, shares: seq<Shares>, firsts: seq<Products>, d: nat, from: nat,
                            end: nat) {
    && |requests| == |shares| == |firsts|
    && forall p :: 0 <= p < |requests| ==> Batch(requests[p], shares[p], firsts[p], d, from, end)
  }

  lemma OneProduct(requests: seq<Requests>, products: seq<Products>, shares: seq<Shares>, firsts: seq<Products>,
                   s: Slot, u: int, v: int, d: nat, from: nat, end: nat, m: nat)
    requires SameBatch(requests, shares, firsts, d, from, end) && MultipliedAll(requests, products, m)
    requires InBatch(s, d, from, end)
    requires HoldsOperand(shares, firsts, Factors(s, d).0, u, d, m)
    requires HoldsOperand(shares, firsts, Factors(s, d).1, v, d, m)
    ensures HoldsProduct(products, s, u * v, m)
  {
    hide ShareOf, Available, Factors, Sum, Cong, Shaped, InBatch;
    var left, right := FactorColumn(requests, s, false), FactorColumn(requests, s, true);
    forall p | 0 <= p < |requests|
      ensures Requested(requests[p], s, shares[p], firsts[p], d)
    {
      assert s in requests[p];
    }
    assert left == OperandColumn(shares, firsts, Factors(s, d).0, d);
    assert right == OperandColumn(shares, firsts, Factors(s, d).1, d);
    CongMul(Sum(left), u, Sum(right), v, m);
    assert HoldsProduct(products, s, Sum(left) * Sum(right), m);
    HoldsSame(products, s, Sum(left) * Sum(right), u * v, m);
  }

  lemma HoldsSame(products: seq<Products>, s: Slot, u: int, v: int, m: nat)
    requires HoldsProduct(products, s, u, m) && Cong(u, v, m)
    ensures HoldsProduct(products, s, v, m)
  {
  }

  // ----- both batches

  ghost function BetaColumn(shares: seq<Shares>, i: nat, d: nat): (column: seq<int>)
    requires i < d && forall p :: 0 <= p < |shares| ==> Shaped(shares[p], d)
    ensures |column| == |shares| && forall p :: 0 <= p < |shares| ==> column[p] == CoefficientAt(shares[p], i, d)
  {
    seq(|shares|, p requires 0 <= p < |shares| => CoefficientAt(shares[p], i, d))
  }

  /** The parties' shares come from the converted Gram vectors, and those of the coefficients add up to beta. */
  ghost predicate Prepared(shares: seq<Shares>, converted: seq<seq<nat>>, beta: nat -> int, d: nat, m: nat) {
    && m > 0 && |shares| == |converted|
    && (forall p :: 0 <= p < |shares| ==> Arranged(shares[p], converted[p], d))
    && forall i: nat :: i < d ==> Cong(Sum(BetaColumn(shares, i, d)), beta(i), m)
  }

  /** The parties share the coefficients and, after the change of modulus, the Gram sums. */
  ghost predicate StartingShares(shares: seq<Shares>, converted: seq<seq<nat>>, data: seq<Sample>, beta: nat -> int,
                                 d: nat, m: nat) {
    Prepared(shares, converted, beta, d, m) && SharesGram(converted, data, d, m)
  }

  /** The Gram entry an operand is. */
  function CellOf(o: Operand, d: nat): GramCell
    requires !o.Coefficient? && !o.Product?
  {
    match o
    case Entry(i, j) => if j < d then XX(i, j) else XY(i)
    case Count => One
    case YSquared => YY
    case YSum => Y
  }

  lemma PlainShare(p: Shares, converted: seq<nat>, first: Products, o: Operand, d: nat)
    requires Arranged(p, converted, d) && Available(first, o, d) && !o.Coefficient? && !o.Product?
    ensures InRange(CellOf(o, d), d) && ShareOf(p, first, o, d) == converted[PlaceOf(CellOf(o, d), d)]
  {
    hide PlaceOf, GramAt;
  }

  lemma PlainOperand(shares: seq<Shares>, converted: seq<seq<nat>>, firsts: seq<Products>, o: Operand,
                     data: seq<Sample>, beta: nat -> int, d: nat, m: nat)
    requires StartingShares(shares, converted, data, beta, d, m) && |firsts| == |shares| && !o.Product?
    requires Available(map[], o, d)
    ensures HoldsOperand(shares, firsts, o, Value(data, beta, o, d), d, m)
  {
    hide PlaceOf, GramAt, Sum, Cong;
    if o.Coefficient? {
      assert OperandColumn(shares, firsts, o, d) == BetaColumn(shares, o.i, d);
    } else {
      var c := CellOf(o, d);
      assert InRange(c, d);
      assert HoldsAt(converted, PlaceOf(c, d), Gram(data, c), m);
      forall p | 0 <= p < |shares|
        ensures ShareOf(shares[p], firsts[p], o, d) == converted[p][PlaceOf(c, d)]
      {
        PlainShare(shares[p], converted[p], firsts[p], o, d);
      }
      hide ShareOf, SharesGram;
      assert OperandColumn(shares, firsts, o, d) == ColumnAt(converted, PlaceOf(c, d));
    }
  }

  /** What the first batch gave is an operand of the second. */
  lemma ProductOperand(shares: seq<Shares>, converted: seq<seq<nat>>, firsts: seq<Products>, s: Slot, v: int,
                       data: seq<Sample>, beta: nat -> int, d: nat, m: nat)
    requires StartingShares(shares, converted, data, beta, d, m) && |firsts| == |shares|
    requires HoldsProduct(firsts, s, v, m)
    ensures HoldsOperand(shares, firsts, Product(s), v, d, m)
  {
    hide GramAt, PlaceOf, Sum, Cong, SharesGram;
    assert OperandColumn(shares, firsts, Product(s), d) == ProductColumn(firsts, s);
  }

  /** All products of these stages share what they should. */
  ghost predicate AllHeld(products: seq<Products>, data: seq<Sample>, beta: nat -> int, d: nat, from: nat, end: nat,
                          m: nat) {
    forall s :: InBatch(s, d, from, end) ==> HoldsProduct(products, s, SlotValue(data, beta, s), m)
  }

  function NoProducts(parties: nat): (firsts: seq<Products>)
    ensures |firsts| == parties && forall p :: 0 <= p < parties ==> firsts[p] == map[]
  {
    seq(parties, _ => map[])
  }

  lemma FirstProduct(shares: seq<Shares>, converted: seq<seq<nat>>, requests: seq<Requests>, firsts: seq<Products>,
                     data: seq<Sample>, beta: nat -> int, s: Slot, d: nat, m: nat)
    requires StartingShares(shares, converted, data, beta, d, m) && MultipliedAll(requests, firsts, m)
    requires SameBatch(requests, shares, NoProducts(|shares|), d, 0, SECOND_BATCH) && InBatch(s, d, 0, SECOND_BATCH)
    ensures HoldsProduct(firsts, s, SlotValue(data, beta, s), m)
  {
    hide StartingShares, MultipliedAll, SameBatch, HoldsOperand, HoldsProduct, Value, SlotValue;
    var none, f := NoProducts(|shares|), Factors(s, d);
    PlainOperand(shares, converted, none, f.0, data, beta, d, m);
    PlainOperand(shares, converted, none, f.1, data, beta, d, m);
    OneProduct(requests, firsts, shares, none, s, Value(data, beta, f.0, d), Value(data, beta, f.1, d), d, 0,
               SECOND_BATCH, m);
    FactorValues(data, beta, s, d);
  }

  lemma FirstProducts(shares: seq<Shares>, converted: seq<seq<nat>>, requests: seq<Requests>, firsts: seq<Products>,
                      data: seq<Sample>, beta: nat -> int, d: nat, m: nat)
    requires StartingShares(shares, converted, data, beta, d, m) && MultipliedAll(requests, firsts, m)
    requires SameBatch(requests, shares, NoProducts(|shares|), d, 0, SECOND_BATCH)
    ensures AllHeld(firsts, data, beta, d, 0, SECOND_BATCH, m)
  {
    hide StartingShares, MultipliedAll, SameBatch, HoldsProduct, SlotValue, InBatch;
    forall s | InBatch(s, d, 0, SECOND_BATCH)
      ensures HoldsProduct(firsts, s, SlotValue(data, beta, s), m)
    {
      FirstProduct(shares, converted, requests, firsts, data, beta, s, d, m);
    }
  }

  lemma AnyOperand(shares: seq<Shares>, converted: seq<seq<nat>>, firsts: seq<Products>, o: Operand,
                   data: seq<Sample>, beta: nat -> int, d: nat, m: nat)
    requires StartingShares(shares, converted, data, beta, d, m) && AllHeld(firsts, data, beta, d, 0, SECOND_BATCH, m)
    requires |firsts| == |shares|
    requires if o.Product? then InBatch(o.slot, d, 0, SECOND_BATCH) else Available(map[], o, d)
    ensures HoldsOperand(shares, firsts, o, Value(data, beta, o, d), d, m)
  {
    hide StartingShares, HoldsOperand, HoldsProduct, SlotValue;
    if o.Product? {
      ProductOperand(shares, converted, firsts, o.slot, SlotValue(data, beta, o.slot), data, beta, d, m);
    } else {
      PlainOperand(shares, converted, firsts, o, data, beta, d, m);
    }
  }

  lemma SecondFactors(s: Slot, d: nat)
    requires InBatch(s, d, SECOND_BATCH, END)
    ensures forall o <- [Factors(s, d).0, Factors(s, d).1] ::
      if o.Product? then InBatch(o.slot, d, 0, SECOND_BATCH) else Available(map[], o, d)
  {
  }

  lemma SecondProduct(shares: seq<Shares>, converted: seq<seq<nat>>, firsts: seq<Products>, requests: seq<Requests>,
                      seconds: seq<Products>, data: seq<Sample>, beta: nat -> int, s: Slot, d: nat, m: nat)
    requires StartingShares(shares, converted, data, beta, d, m) && AllHeld(firsts, data, beta, d, 0, SECOND_BATCH, m)
    requires MultipliedAll(requests, seconds, m) && SameBatch(requests, shares, firsts, d, SECOND_BATCH, END)
    requires InBatch(s, d, SECOND_BATCH, END) && |firsts| == |shares|
    ensures HoldsProduct(seconds, s, SlotValue(data, beta, s), m)
  {
    hide *;
    var f := Factors(s, d);
    SecondFactors(s, d);
    assert f.0 in [f.0, f.1] && f.1 in [f.0, f.1];
    AnyOperand(shares, converted, firsts, f.0, data, beta, d, m);
    AnyOperand(shares, converted, firsts, f.1, data, beta, d, m);
    OneProduct(requests, seconds, shares, firsts, s, Value(data, beta, f.0, d), Value(data, beta, f.1, d), d,
               SECOND_BATCH, END, m);
    RangeOf(s, d, SECOND_BATCH, END);
    FactorValues(data, beta, s, d);
  }

  lemma RangeOf(s: Slot, d: nat, from: nat, end: nat)
    requires InBatch(s, d, from, end)
    ensures SlotInRange(s, d)
  {
  }

  lemma SecondProducts(shares: seq<Shares>, converted: seq<seq<nat>>, firsts: seq<Products>, requests: seq<Requests>,
                       seconds: seq<Products>, data: seq<Sample>, beta: nat -> int, d: nat, m: nat)
    requires StartingShares(shares, converted, data, beta, d, m) && AllHeld(firsts, data, beta, d, 0, SECOND_BATCH, m)
    requires MultipliedAll(requests, seconds, m) && SameBatch(requests, shares, firsts, d, SECOND_BATCH, END)
    ensures AllHeld(seconds, data, beta, d, SECOND_BATCH, END, m)
  {
    assert |firsts| == |shares|;
    hide StartingShares, MultipliedAll, SameBatch, HoldsProduct, SlotValue, InBatch;
    forall s | InBatch(s, d, SECOND_BATCH, END)
      ensures HoldsProduct(seconds, s, SlotValue(data, beta, s), m)
    {
      SecondProduct(shares, converted, firsts, requests, seconds, data, beta, s, d, m);
    }
  }

  // ----- the error terms read the products

  /** The fields that the error terms read are the outputs of the two batches. */
  ghost predicate Filled(party: ErrorTerms, p: Shares, first: Products, second: Products, d: nat) {
    && party.d == d && party.Valid() && party.ySquaredShare == p.ySquared && party.oneShare == p.one
    && (forall s :: InBatch(s, d, 0, SECOND_BATCH) ==> s in first)
    && (forall s :: InBatch(s, d, SECOND_BATCH, END) ==> s in second)
    && party.ySquaredN == first[YSquaredN] && party.ySumThenSquared == first[YSumThenSquared]
    && (forall i: nat :: i < d ==> party.betaXY[i] == first[BetaTimesXY(i)])
    && (forall i: nat :: i < d ==> party.betaXYN[i] == second[BetaTimesXYN(i)])
    && (forall i: nat, j: nat :: i <= j < d ==> Cells(party.betaBetaXX, d)(i, j) == second[BetaBetaXX(i, j)])
    && (forall i: nat, j: nat :: i <= j < d ==> Cells(party.betaBetaXXN, d)(i, j) == second[BetaBetaXXN(i, j)])
  }

  ghost predicate AllFilled(parties: seq<ErrorTerms>, shares: seq<Shares>, firsts: seq<Products>,
                            seconds: seq<Products>, d: nat) {
    && |parties| == |shares| == |firsts| == |seconds|
    && forall p :: 0 <= p < |parties| ==> Filled(parties[p], shares[p], firsts[p], seconds[p], d)
  }

  lemma Held(products: seq<Products>, data: seq<Sample>, beta: nat -> int, s: Slot, d: nat, from: nat, end: nat, m: nat)
    requires AllHeld(products, data, beta, d, from, end, m) && InBatch(s, d, from, end)
    ensures HoldsProduct(products, s, SlotValue(data, beta, s), m)
  {
    hide HoldsProduct, SlotValue;
  }

  lemma HeldCell(products: seq<Products>, s: Slot, v: int, f: seq<(nat, nat) -> int>, i: nat, j: nat, m: nat)
    requires HoldsProduct(products, s, v, m) && |f| == |products|
    requires forall p :: 0 <= p < |f| ==> f[p](i, j) == products[p][s]
    ensures Cong(SumCells(f)(i, j), v, m)
  {
    assert ProductColumn(products, s) == seq(|f|, p requires 0 <= p < |f| => f[p](i, j));
  }

  lemma HeldEntry(products: seq<Products>, s: Slot, v: int, g: seq<nat -> int>, i: nat, m: nat)
    requires HoldsProduct(products, s, v, m) && |g| == |products|
    requires forall p :: 0 <= p < |g| ==> g[p](i) == products[p][s]
    ensures Cong(SumEntries(g)(i), v, m)
  {
    assert ProductColumn(products, s) == seq(|g|, p requires 0 <= p < |g| => g[p](i));
  }

  lemma CellsHeld(parties: seq<ErrorTerms>, shares: seq<Shares>, firsts: seq<Products>, seconds: seq<Products>,
                  data: seq<Sample>, beta: nat -> int, i: nat, j: nat, d: nat, m: nat)
    requires AllFilled(parties, shares, firsts, seconds, d) && i <= j < d && m > 0
    requires AllHeld(seconds, data, beta, d, SECOND_BATCH, END, m)
    ensures var c := ColumnsOf(parties);
      && Cong(SumCells(c.xx)(i, j), 1 * BetaXX(data, beta)(i, j), m)
      && Cong(SumCells(c.xxN)(i, j), |data| * BetaXX(data, beta)(i, j), m)
  {
    hide Sum, Cong, SumCells, Cells, HoldsProduct, BetaXX, AllHeld;
    var c := ColumnsOf(parties);
    Held(seconds, data, beta, BetaBetaXX(i, j), d, SECOND_BATCH, END, m);
    Held(seconds, data, beta, BetaBetaXXN(i, j), d, SECOND_BATCH, END, m);
    HeldCell(seconds, BetaBetaXX(i, j), BetaXX(data, beta)(i, j), c.xx, i, j, m);
    HeldCell(seconds, BetaBetaXXN(i, j), |data| * BetaXX(data, beta)(i, j), c.xxN, i, j, m);
  }

  lemma EntryFilled(party: ErrorTerms, p: Shares, first: Products, second: Products, i: nat, d: nat)
    requires Filled(party, p, first, second, d) && i < d
    ensures BetaTimesXY(i) in first && Entries(party.betaXY)(i) == first[BetaTimesXY(i)]
    ensures BetaTimesXYN(i) in second && Entries(party.betaXYN)(i) == second[BetaTimesXYN(i)]
  {
    hide Cells;
  }

  lemma EntriesHeld(parties: seq<ErrorTerms>, shares: seq<Shares>, firsts: seq<Products>, seconds: seq<Products>,
                    data: seq<Sample>, beta: nat -> int, i: nat, d: nat, m: nat)
    requires AllFilled(parties, shares, firsts, seconds, d) && i < d && m > 0
    requires AllHeld(firsts, data, beta, d, 0, SECOND_BATCH, m) && AllHeld(seconds, data, beta, d, SECOND_BATCH, END, m)
    ensures var c := ColumnsOf(parties);
      && Cong(SumEntries(c.xy)(i), 1 * BetaXY(data, beta)(i), m)
      && Cong(SumEntries(c.xyN)(i), |data| * BetaXY(data, beta)(i), m)
  {
    hide Sum, Cong, SumEntries, Entries, HoldsProduct, BetaXY, AllHeld, Filled;
    var c := ColumnsOf(parties);
    forall p | 0 <= p < |parties|
      ensures BetaTimesXY(i) in firsts[p] && c.xy[p](i) == firsts[p][BetaTimesXY(i)]
      ensures BetaTimesXYN(i) in seconds[p] && c.xyN[p](i) == seconds[p][BetaTimesXYN(i)]
    {
      EntryFilled(parties[p], shares[p], firsts[p], seconds[p], i, d);
    }
    Held(firsts, data, beta, BetaTimesXY(i), d, 0, SECOND_BATCH, m);
    Held(seconds, data, beta, BetaTimesXYN(i), d, SECOND_BATCH, END, m);
    HeldEntry(firsts, BetaTimesXY(i), BetaXY(data, beta)(i), c.xy, i, m);
    HeldEntry(seconds, BetaTimesXYN(i), |data| * BetaXY(data, beta)(i), c.xyN, i, m);
  }

  /** The fields that are no matrix and no vector. */
  lemma ScalarsHeld(parties: seq<ErrorTerms>, shares: seq<Shares>, converted: seq<seq<nat>>, firsts: seq<Products>,
                    seconds: seq<Products>, data: seq<Sample>, beta: nat -> int, d: nat, m: nat)
    requires StartingShares(shares, converted, data, beta, d, m) && AllFilled(parties, shares, firsts, seconds, d)
    requires AllHeld(firsts, data, beta, d, 0, SECOND_BATCH, m)
    ensures var c := ColumnsOf(parties);
      && Cong(Sum(c.ySquared), 1 * SumYY(data), m) && Cong(Sum(c.one), |data|, m)
      && Cong(Sum(c.ySquaredN), |data| * SumYY(data), m)
      && Cong(Sum(c.ySumThenSquared), SumY(data) * SumY(data), m)
  {
    hide Sum, Cong, StartingShares, Cells, Entries, SumYY, SumY, AllHeld, Shaped;
    var c := ColumnsOf(parties);
    PlainOperand(shares, converted, firsts, YSquared, data, beta, d, m);
    PlainOperand(shares, converted, firsts, Count, data, beta, d, m);
    assert c.ySquared == OperandColumn(shares, firsts, YSquared, d);
    assert c.one == OperandColumn(shares, firsts, Count, d);
    Held(firsts, data, beta, YSquaredN, d, 0, SECOND_BATCH, m);
    Held(firsts, data, beta, YSumThenSquared, d, 0, SECOND_BATCH, m);
    assert c.ySquaredN == ProductColumn(firsts, YSquaredN);
    assert c.ySumThenSquared == ProductColumn(firsts, YSumThenSquared);
  }

  lemma FormHeld(y2s: seq<int>, fs: seq<(nat, nat) -> int>, gs: seq<nat -> int>, factor: int, data: seq<Sample>,
                 beta: nat -> int, d: nat, m: nat)
    requires m > 0 && |y2s| == |fs| == |gs| && Cong(Sum(y2s), factor * SumYY(data), m)
    requires forall i: nat, j: nat :: i <= j < d ==> Cong(SumCells(fs)(i, j), factor * BetaXX(data, beta)(i, j), m)
    requires forall i: nat :: i < d ==> Cong(SumEntries(gs)(i), factor * BetaXY(data, beta)(i), m)
    ensures HoldGram(y2s, fs, gs, factor, data, beta, d, m)
  {
    hide Sum, Cong, SumYY, SumCells, SumEntries, BetaXX, BetaXY;
  }

  lemma ColumnLengths(parties: seq<ErrorTerms>)
    ensures var c := ColumnsOf(parties);
      |c.ySquared| == |c.xx| == |c.xy| == |c.ySquaredN| == |c.xxN| == |c.xyN|
  {
  }

  /** Without the count. */
  lemma GramHeld(parties: seq<ErrorTerms>, shares: seq<Shares>, converted: seq<seq<nat>>, firsts: seq<Products>,
                 seconds: seq<Products>, data: seq<Sample>, beta: nat -> int, d: nat, m: nat)
    requires StartingShares(shares, converted, data, beta, d, m) && AllFilled(parties, shares, firsts, seconds, d)
    requires AllHeld(firsts, data, beta, d, 0, SECOND_BATCH, m) && AllHeld(seconds, data, beta, d, SECOND_BATCH, END, m)
    ensures var c := ColumnsOf(parties); HoldGram(c.ySquared, c.xx, c.xy, 1, data, beta, d, m)
  {
    assert m > 0;
    hide StartingShares, AllFilled, AllHeld, Sum, Cong, SumYY, SumCells, SumEntries, BetaXX, BetaXY, Cells, Entries;
    hide ColumnsOf, HoldGram;
    var c := ColumnsOf(parties);
    ColumnLengths(parties);
    ScalarsHeld(parties, shares, converted, firsts, seconds, data, beta, d, m);
    forall i: nat, j: nat | i <= j < d
      ensures Cong(SumCells(c.xx)(i, j), 1 * BetaXX(data, beta)(i, j), m)
    {
      CellsHeld(parties, shares, firsts, seconds, data, beta, i, j, d, m);
    }
    forall i: nat | i < d
      ensures Cong(SumEntries(c.xy)(i), 1 * BetaXY(data, beta)(i), m)
    {
      EntriesHeld(parties, shares, firsts, seconds, data, beta, i, d, m);
    }
    FormHeld(c.ySquared, c.xx, c.xy, 1, data, beta, d, m);
  }

  /** With the count. */
  lemma ScaledGramHeld(parties: seq<ErrorTerms>, shares: seq<Shares>, converted: seq<seq<nat>>, firsts: seq<Products>,
                       seconds: seq<Products>, data: seq<Sample>, beta: nat -> int, d: nat, m: nat)
    requires StartingShares(shares, converted, data, beta, d, m) && AllFilled(parties, shares, firsts, seconds, d)
    requires AllHeld(firsts, data, beta, d, 0, SECOND_BATCH, m) && AllHeld(seconds, data, beta, d, SECOND_BATCH, END, m)
    ensures var c := ColumnsOf(parties); HoldGram(c.ySquaredN, c.xxN, c.xyN, |data|, data, beta, d, m)
  {
    assert m > 0;
    hide StartingShares, AllFilled, AllHeld, Sum, Cong, SumYY, SumCells, SumEntries, BetaXX, BetaXY, Cells, Entries;
    hide ColumnsOf, HoldGram;
    var c := ColumnsOf(parties);
    ColumnLengths(parties);
    ScalarsHeld(parties, shares, converted, firsts, seconds, data, beta, d, m);
    forall i: nat, j: nat | i <= j < d
      ensures Cong(SumCells(c.xxN)(i, j), |data| * BetaXX(data, beta)(i, j), m)
    {
      CellsHeld(parties, shares, firsts, seconds, data, beta, i, j, d, m);
    }
    forall i: nat | i < d
      ensures Cong(SumEntries(c.xyN)(i), |data| * BetaXY(data, beta)(i), m)
    {
      EntriesHeld(parties, shares, firsts, seconds, data, beta, i, d, m);
    }
    FormHeld(c.ySquaredN, c.xxN, c.xyN, |data|, data, beta, d, m);
  }

  /**
   Two batches of ideal multiplications turn shares of the coefficients and the Gram sums into all
   the shares that the error terms are computed from.
   */
  lemma InputsHeld(parties: seq<ErrorTerms>, shares: seq<Shares>, converted: seq<seq<nat>>,
                   firstRequests: seq<Requests>, firsts: seq<Products>, secondRequests: seq<Requests>,
                   seconds: seq<Products>, data: seq<Sample>, beta: nat -> int, d: nat, m: nat)
    requires StartingShares(shares, converted, data, beta, d, m) && AllFilled(parties, shares, firsts, seconds, d)
    requires SameBatch(firstRequests, shares, NoProducts(|shares|), d, 0, SECOND_BATCH)
    requires MultipliedAll(firstRequests, firsts, m)
    requires SameBatch(secondRequests, shares, firsts, d, SECOND_BATCH, END)
    requires MultipliedAll(secondRequests, seconds, m)
    ensures Inputs(ColumnsOf(parties), data, beta, d, m)
  {
    assert m > 0;
    hide MultipliedAll, SameBatch, HoldGram, Sum, Cong, StartingShares, AllHeld, AllFilled, ColumnsOf, SumYY, SumY;
    FirstProducts(shares, converted, firstRequests, firsts, data, beta, d, m);
    SecondProducts(shares, converted, firsts, secondRequests, seconds, data, beta, d, m);
    ScalarsHeld(parties, shares, converted, firsts, seconds, data, beta, d, m);
    GramHeld(parties, shares, converted, firsts, seconds, data, beta, d, m);
    ScaledGramHeld(parties, shares, converted, firsts, seconds, data, beta, d, m);
  }

  /**
   From the sums over the joined rows to the results: converted, arranged and multiplied, shares of
   Gram sums below the start modulus give shares of the error terms of the joined data.
   */
  lemma ErrorTermsOfGram(totals: seq<seq<nat>>, converted: seq<seq<nat>>, startModulus: nat,
                         parties: seq<ErrorTerms>, shares: seq<Shares>, firstRequests: seq<Requests>,
                         firsts: seq<Products>, secondRequests: seq<Requests>, seconds: seq<Products>,
                         data: seq<Sample>, beta: nat -> int, d: nat, m: nat, fit: bool)
    requires SharesGram(totals, data, d, startModulus) && ConvertedUp(totals, converted, d, startModulus, m)
    requires forall c: GramCell :: InRange(c, d) ==> 0 <= Gram(data, c) < startModulus
    requires Prepared(shares, converted, beta, d, m) && AllFilled(parties, shares, firsts, seconds, d)
    requires SameBatch(firstRequests, shares, NoProducts(|shares|), d, 0, SECOND_BATCH)
    requires MultipliedAll(firstRequests, firsts, m)
    requires SameBatch(secondRequests, shares, firsts, d, SECOND_BATCH, END)
    requires MultipliedAll(secondRequests, seconds, m)
    requires SameRun(parties, d, m, fit) && forall p :: 0 <= p < |parties| ==> parties[p].Computed()
    ensures var r, error := ResultsOf(parties), SquaredError(data, beta, d);
      && Cong(Sum(r.numerMSE), error, m)
      && Cong(Sum(r.denomMSE), |data| - d, m)
      && Cong(Sum(r.denomRSquared), TotalVariation(data, fit), m)
      && Cong(Sum(r.numerRSquared), TotalVariation(data, fit) - |data| * error, m)
      && Cong(Sum(r.denomF), |data| * error * d, m)
  {
    hide MultipliedAll, SameBatch, Sum, Cong, Prepared, AllFilled, ColumnsOf, Gram, Inputs, SharesGram, ConvertedUp;
    ConvertGram(totals, converted, data, d, startModulus, m);
    InputsHeld(parties, shares, converted, firstRequests, firsts, secondRequests, seconds, data, beta, d, m);
    AllErrorTerms(parties, data, beta, d, m, fit);
  }
}
