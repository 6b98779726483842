/** The randomness a regression is dealt, and what each of its states takes from the dispensers. */
module Budget {
  import opened Modular
  import opened Payload
  import PayloadCompute
  import GramSums
  import WeightedProducts

  /** The dispensers of a RegressionRandomness; the pairwise ones are indexed by cross party. */
  datatype Dispenser =
    | ModConvUp | Divide | ZipAdjacent(party: nat) | FactoryTriple(party: nat) | MatrixTriple | RandomMatrix
    | FinalTriple | CompareEnd | CompareStart | TypeCast | LookupF | LookupT

  /** The sizes a query fixes: independent variables of both sides, list length, table rows, cross parties. */
  datatype Sizes = Sizes(d1: nat, d2: nat, maxListSize: nat, fRows: nat, tRows: nat, crossParties: nat) {
    function D(): nat {
      d1 + d2
    }
  }

  /** The tables have a row, or their size minus one would wrap; so would the batch size of empty lists. */
  predicate Sane(z: Sizes) {
    z.fRows >= 1 && z.tRows >= 1 && z.maxListSize >= 1
  }

  /** Which dispensers exist: the pairwise ones only for actual cross parties. */
  predicate Exists(z: Sizes, k: Dispenser) {
    match k
    case ZipAdjacent(i) => i < z.crossParties
    case FactoryTriple(i) => i < z.crossParties
    case _ => true
  }

  function Square(d: nat): nat {
    d * d
  }

  /** Scalar products in a d x d by d x (d + 1) matrix product. */
  function MatrixProducts(d: nat): nat {
    d * d * (d + 1)
  }

  /** One payload computation per pair of neighbours in the zipped list, d1 * (d2 + 1) products each. */
  function FactoryProducts(z: Sizes): nat
    requires Sane(z)
  {
    (2 * z.maxListSize - 1) * (z.d1 * (z.d2 + 1))
  }

  /** All triples of numbers below three bounds. */
  ghost function Box(x: nat, y: nat, w: nat): set<(nat, nat, nat)> {
    set a: nat, b: nat, c: nat | a < x && b < y && c < w :: (a, b, c)
  }

  ghost function Layer(a: nat, y: nat, w: nat): set<(nat, nat, nat)> {
    set b: nat, c: nat | b < y && c < w :: (a, b, c)
  }

  ghost function Line(a: nat, b: nat, w: nat): set<(nat, nat, nat)> {
    set c: nat | c < w :: (a, b, c)
  }

  lemma {:induction false} LineCount(a: nat, b: nat, w: nat)
    ensures |Line(a, b, w)| == w
  {
    if w > 0 {
      LineCount(a, b, w - 1);
      assert Line(a, b, w) == Line(a, b, w - 1) + {(a, b, w - 1)};
    } else {
      assert Line(a, b, 0) == {};
    }
  }

  lemma LayerStep(a: nat, y: nat, w: nat)
    ensures Layer(a, 0, w) == {}
    ensures Layer(a, y + 1, w) == Layer(a, y, w) + Line(a, y, w) && Layer(a, y, w) !! Line(a, y, w)
  {
  }

  lemma {:induction false} LayerCount(a: nat, y: nat, w: nat)
    ensures |Layer(a, y, w)| == y * w
  {
    hide Layer, Line;
    if y == 0 {
      LayerStep(a, 0, w);
    } else {
      LayerCount(a, y - 1, w);
      LayerStep(a, y - 1, w);
      LineCount(a, y - 1, w);
      StepUp(y - 1, y, w);
    }
  }

  lemma BoxStep(x: nat, y: nat, w: nat)
    ensures Box(0, y, w) == {}
    ensures Box(x + 1, y, w) == Box(x, y, w) + Layer(x, y, w) && Box(x, y, w) !! Layer(x, y, w)
  {
  }

  lemma {:induction false} BoxCount(x: nat, y: nat, w: nat)
    ensures |Box(x, y, w)| == x * (y * w)
  {
    hide Box, Layer;
    if x == 0 {
      BoxStep(0, y, w);
    } else {
      BoxCount(x - 1, y, w);
      BoxStep(x - 1, y, w);
      LayerCount(x - 1, y, w);
      StepUp(x - 1, x, y * w);
    }
  }

  /** One product for each row i, inner index k and column j <= d; one for each row and cross pair of columns. */
  lemma ProductCounts(z: Sizes)
    requires Sane(z)
    ensures MatrixProducts(z.D()) == |Box(z.D(), z.D(), z.D() + 1)|
    ensures FactoryProducts(z) == |Box(2 * z.maxListSize - 1, z.d1, z.d2 + 1)|
  {
    hide Box;
    var d := z.D();
    BoxCount(d, d, d + 1);
    BoxCount(2 * z.maxListSize - 1, z.d1, z.d2 + 1);
    assert d * d * (d + 1) == d * (d * (d + 1));
  }

  /** The counts of the patron's constructor, for one regression. */
  function Dealt(z: Sizes, k: Dispenser): nat
    requires Sane(z)
  {
    var d := z.D();
    match k
    case ModConvUp => Square(d) + d + 3
    case Divide => d + 2 + d + 1 + d
    case ZipAdjacent(_) => 1
    case FactoryTriple(_) => FactoryProducts(z)
    case MatrixTriple => MatrixProducts(d)
    case RandomMatrix => 1
    case FinalTriple => d + 2 * d + Square(d) + 2 * d + 2 + Square(d) + 3 * d + d + 2 + d + d + 1
    case CompareEnd => d + 1 + d
    case CompareStart => z.fRows + z.tRows
    case TypeCast => d + z.fRows + z.tRows + 1 + d
    case LookupF => 1
    case LookupT => d
  }

  /** The states of RegressionRun after the join, in order; Finished is after complete(). */
  datatype Stage =
    | AwaitingSISOSort
    | AwaitingZipAdjacent
    | AwaitingZipReduce
    | AwaitingBatchedModConvUp
    | AwaitingMatrixMultiply
    | AwaitingMatrixReveal
    | AwaitingRegressionMultiply
    | AwaitingFirstCompare
    | AwaitingFirstTypeCastFromBit
    | AwaitingNegativeCorrectionMultiply
    | AwaitingDivision
    | AwaitingNegativeRecorrectionMultiply
    | AwaitingFirstMultiplyForErrorTerms
    | AwaitingSecondMultiplyForErrorTerms
    | AwaitingThirdMultiplyForErrorTerms
    | AwaitingFourthMultiplyForErrorTerms
    | AwaitingDivisionForErrorTerms
    | AwaitingCompareForFtStatistics
    | AwaitingBatchedTypeCastFromBit
    | AwaitingCompareForFtStatisticsEndModulus
    | AwaitingBatchedTypeCastFromBitLast
    | AwaitingFifthMultiplyForErrorTerms
    | Finished

  function Next(s: Stage): Stage {
    match s
    case AwaitingSISOSort => AwaitingZipAdjacent
    case AwaitingZipAdjacent => AwaitingZipReduce
    case AwaitingZipReduce => AwaitingBatchedModConvUp
    case AwaitingBatchedModConvUp => AwaitingMatrixMultiply
    case AwaitingMatrixMultiply => AwaitingMatrixReveal
    case AwaitingMatrixReveal => AwaitingRegressionMultiply
    case AwaitingRegressionMultiply => AwaitingFirstCompare
    case AwaitingFirstCompare => AwaitingFirstTypeCastFromBit
    case AwaitingFirstTypeCastFromBit => AwaitingNegativeCorrectionMultiply
    case AwaitingNegativeCorrectionMultiply => AwaitingDivision
    case AwaitingDivision => AwaitingNegativeRecorrectionMultiply
    case AwaitingNegativeRecorrectionMultiply => AwaitingFirstMultiplyForErrorTerms
    case AwaitingFirstMultiplyForErrorTerms => AwaitingSecondMultiplyForErrorTerms
    case AwaitingSecondMultiplyForErrorTerms => AwaitingThirdMultiplyForErrorTerms
    case AwaitingThirdMultiplyForErrorTerms => AwaitingFourthMultiplyForErrorTerms
    case AwaitingFourthMultiplyForErrorTerms => AwaitingDivisionForErrorTerms
    case AwaitingDivisionForErrorTerms => AwaitingCompareForFtStatistics
    case AwaitingCompareForFtStatistics => AwaitingBatchedTypeCastFromBit
    case AwaitingBatchedTypeCastFromBit => AwaitingCompareForFtStatisticsEndModulus
    case AwaitingCompareForFtStatisticsEndModulus => AwaitingBatchedTypeCastFromBitLast
    case AwaitingBatchedTypeCastFromBitLast => AwaitingFifthMultiplyForErrorTerms
    case AwaitingFifthMultiplyForErrorTerms => Finished
    case Finished => Finished
  }

  /** Stages still to go. */
  function Distance(s: Stage): nat {
    match s
    case AwaitingSISOSort => 22
    case AwaitingZipAdjacent => 21
    case AwaitingZipReduce => 20
    case AwaitingBatchedModConvUp => 19
    case AwaitingMatrixMultiply => 18
    case AwaitingMatrixReveal => 17
    case AwaitingRegressionMultiply => 16
    case AwaitingFirstCompare => 15
    case AwaitingFirstTypeCastFromBit => 14
    case AwaitingNegativeCorrectionMultiply => 13
    case AwaitingDivision => 12
    case AwaitingNegativeRecorrectionMultiply => 11
    case AwaitingFirstMultiplyForErrorTerms => 10
    case AwaitingSecondMultiplyForErrorTerms => 9
    case AwaitingThirdMultiplyForErrorTerms => 8
    case AwaitingFourthMultiplyForErrorTerms => 7
    case AwaitingDivisionForErrorTerms => 6
    case AwaitingCompareForFtStatistics => 5
    case AwaitingBatchedTypeCastFromBit => 4
    case AwaitingCompareForFtStatisticsEndModulus => 3
    case AwaitingBatchedTypeCastFromBitLast => 2
    case AwaitingFifthMultiplyForErrorTerms => 1
    case Finished => 0
  }

  /** Multiplication triples of the end modulus taken in state s. */
  function UseFinal(s: Stage, d: nat): nat {
    if s.AwaitingMatrixReveal? || s.AwaitingFirstTypeCastFromBit? || s.AwaitingDivision? then d
    else if s.AwaitingNegativeRecorrectionMultiply? then Triangle(d) + Triangle(d) + d + 1 + 1
    else if s.AwaitingFirstMultiplyForErrorTerms? then Triangle(d) + Triangle(d) + d + d
    else if s.AwaitingSecondMultiplyForErrorTerms? then d + 1 + 1
    else if s.AwaitingThirdMultiplyForErrorTerms? then d
    else if s.AwaitingBatchedTypeCastFromBitLast? then 1 + d
    else 0
  }

  /** Casts from bits taken in state s. */
  function UseCast(s: Stage, d: nat, z: Sizes): nat
    requires Sane(z)
  {
    if s.AwaitingFirstCompare? then d
    else if s.AwaitingCompareForFtStatistics? then (z.fRows - 1) + (z.tRows - 1)
    else if s.AwaitingCompareForFtStatisticsEndModulus? then 1 + d
    else 0
  }

  /** What handleComplete takes from dispenser k in each state. */
  function Use(s: Stage, z: Sizes, k: Dispenser): nat
    requires Sane(z)
  {
    var d := z.D();
    match k
    case ZipAdjacent(_) => if s.AwaitingSISOSort? then 1 else 0
    case FactoryTriple(_) => if s.AwaitingZipAdjacent? then FactoryProducts(z) else 0
    case ModConvUp => if s.AwaitingZipReduce? then Square(d) + d + 3 else 0
    case RandomMatrix => if s.AwaitingBatchedModConvUp? then 1 else 0
    case MatrixTriple => if s.AwaitingBatchedModConvUp? then MatrixProducts(d) else 0
    case FinalTriple => UseFinal(s, d)
    case CompareEnd =>
      if s.AwaitingRegressionMultiply? then d else if s.AwaitingBatchedTypeCastFromBit? then 1 + d else 0
    case TypeCast => UseCast(s, d, z)
    case Divide =>
      if s.AwaitingNegativeCorrectionMultiply? then d
      else if s.AwaitingFourthMultiplyForErrorTerms? then 1 + 1 + d + 1 + d
      else 0
    case CompareStart => if s.AwaitingDivisionForErrorTerms? then (z.fRows - 1) + (z.tRows - 1) else 0
    case LookupF => if s.AwaitingFifthMultiplyForErrorTerms? then 1 else 0
    case LookupT => if s.AwaitingFifthMultiplyForErrorTerms? then d else 0
  }

  /** What a completed run leaves over. */
  function Surplus(k: Dispenser): nat {
    if k.CompareStart? || k.TypeCast? then 2 else 0
  }

  lemma {:induction false} TwiceTriangle(n: nat)
    ensures 2 * Triangle(n) == Square(n) + n
  {
    if n > 0 {
      TwiceTriangle(n - 1);
      TriangleStep(n);
      assert n * n == (n - 1) * (n - 1) + 2 * (n - 1) + 1;
    }
  }

  /** What every state from s on takes from dispenser k, together. */
  function Drawn(s: Stage, z: Sizes, k: Dispenser): nat
    requires Sane(z)
    decreases Distance(s)
  {
    if s.Finished? then 0 else Use(s, z, k) + Drawn(Next(s), z, k)
  }

  lemma DrawnStep(s: Stage, z: Sizes, k: Dispenser)
    requires Sane(z) && !s.Finished?
    ensures Drawn(s, z, k) == Use(s, z, k) + Drawn(Next(s), z, k)
  {
  }

  lemma DrawnDone(z: Sizes, k: Dispenser)
    requires Sane(z)
    ensures Drawn(Finished, z, k) == 0
  {
  }

  /** The last eleven states, written out. */
  lemma DrawnLate(z: Sizes, k: Dispenser)
    requires Sane(z)
    ensures Drawn(AwaitingNegativeRecorrectionMultiply, z, k) ==
      Use(AwaitingNegativeRecorrectionMultiply, z, k)
      + Use(AwaitingFirstMultiplyForErrorTerms, z, k)
      + Use(AwaitingSecondMultiplyForErrorTerms, z, k)
      + Use(AwaitingThirdMultiplyForErrorTerms, z, k)
      + Use(AwaitingFourthMultiplyForErrorTerms, z, k)
      + Use(AwaitingDivisionForErrorTerms, z, k)
      + Use(AwaitingCompareForFtStatistics, z, k)
      + Use(AwaitingBatchedTypeCastFromBit, z, k)
      + Use(AwaitingCompareForFtStatisticsEndModulus, z, k)
      + Use(AwaitingBatchedTypeCastFromBitLast, z, k)
      + Use(AwaitingFifthMultiplyForErrorTerms, z, k)
  {
    hide Use, Distance, Drawn;
    DrawnStep(AwaitingNegativeRecorrectionMultiply, z, k);
    DrawnStep(AwaitingFirstMultiplyForErrorTerms, z, k);
    DrawnStep(AwaitingSecondMultiplyForErrorTerms, z, k);
    DrawnStep(AwaitingThirdMultiplyForErrorTerms, z, k);
    DrawnStep(AwaitingFourthMultiplyForErrorTerms, z, k);
    DrawnStep(AwaitingDivisionForErrorTerms, z, k);
    DrawnStep(AwaitingCompareForFtStatistics, z, k);
    DrawnStep(AwaitingBatchedTypeCastFromBit, z, k);
    DrawnStep(AwaitingCompareForFtStatisticsEndModulus, z, k);
    DrawnStep(AwaitingBatchedTypeCastFromBitLast, z, k);
    DrawnStep(AwaitingFifthMultiplyForErrorTerms, z, k);
    DrawnDone(z, k);
  }

  /** The first eleven states, written out. */
  lemma DrawnEarly(z: Sizes, k: Dispenser)
    requires Sane(z)
    ensures Drawn(AwaitingSISOSort, z, k) ==
      Use(AwaitingSISOSort, z, k)
      + Use(AwaitingZipAdjacent, z, k)
      + Use(AwaitingZipReduce, z, k)
      + Use(AwaitingBatchedModConvUp, z, k)
      + Use(AwaitingMatrixMultiply, z, k)
      + Use(AwaitingMatrixReveal, z, k)
      + Use(AwaitingRegressionMultiply, z, k)
      + Use(AwaitingFirstCompare, z, k)
      + Use(AwaitingFirstTypeCastFromBit, z, k)
      + Use(AwaitingNegativeCorrectionMultiply, z, k)
      + Use(AwaitingDivision, z, k)
      + Drawn(AwaitingNegativeRecorrectionMultiply, z, k)
  {
    hide Use, Distance, Drawn;
    DrawnStep(AwaitingSISOSort, z, k);
    DrawnStep(AwaitingZipAdjacent, z, k);
    DrawnStep(AwaitingZipReduce, z, k);
    DrawnStep(AwaitingBatchedModConvUp, z, k);
    DrawnStep(AwaitingMatrixMultiply, z, k);
    DrawnStep(AwaitingMatrixReveal, z, k);
    DrawnStep(AwaitingRegressionMultiply, z, k);
    DrawnStep(AwaitingFirstCompare, z, k);
    DrawnStep(AwaitingFirstTypeCastFromBit, z, k);
    DrawnStep(AwaitingNegativeCorrectionMultiply, z, k);
    DrawnStep(AwaitingDivision, z, k);
  }

  lemma ConservationFinal(z: Sizes)
    requires Sane(z)
    ensures Dealt(z, FinalTriple) == Drawn(AwaitingSISOSort, z, FinalTriple)
  {
    hide Drawn, Triangle, Sizes.D, Square, MatrixProducts, FactoryProducts;
    DrawnEarly(z, FinalTriple);
    DrawnLate(z, FinalTriple);
    TwiceTriangle(z.D());
  }

  lemma ConservationCast(z: Sizes)
    requires Sane(z)
    ensures Dealt(z, TypeCast) == Drawn(AwaitingSISOSort, z, TypeCast) + 2
  {
    hide Drawn, Triangle, Sizes.D, Square, MatrixProducts, FactoryProducts;
    DrawnEarly(z, TypeCast);
    DrawnLate(z, TypeCast);
  }

  lemma ConservationOther(z: Sizes, k: Dispenser)
    requires Sane(z) && !k.FinalTriple? && !k.TypeCast?
    ensures Dealt(z, k) == Drawn(AwaitingSISOSort, z, k) + Surplus(k)
  {
    hide Drawn, Triangle, Sizes.D, Square, MatrixProducts, FactoryProducts;
    DrawnEarly(z, k);
    DrawnLate(z, k);
  }

  /** Conservation: for every dispenser, a full run draws what was dealt, but for two comparisons and two casts. */
  lemma Conservation(z: Sizes, k: Dispenser)
    requires Sane(z)
    ensures Dealt(z, k) == Drawn(AwaitingSISOSort, z, k) + Surplus(k)
  {
    hide Drawn, Dealt;
    match k
    case FinalTriple => ConservationFinal(z);
    case TypeCast => ConservationCast(z);
    case _ => ConservationOther(z, k);
  }

  /** The totals in closed form, for every kind; the modulus of every entry of a payload is converted. */
  lemma ClosedTotals(z: Sizes)
    requires Sane(z)
    ensures var d := z.d1 + z.d2;
      && Drawn(AwaitingSISOSort, z, FinalTriple) == 2 * (d * d) + 11 * d + 5
      && Drawn(AwaitingSISOSort, z, Divide) == 3 * d + 3
      && Drawn(AwaitingSISOSort, z, CompareEnd) == 2 * d + 1
      && Drawn(AwaitingSISOSort, z, ModConvUp) == d * d + d + 3 == GramSums.Width(d)
      && Drawn(AwaitingSISOSort, z, CompareStart) == z.fRows + z.tRows - 2
      && Drawn(AwaitingSISOSort, z, TypeCast) == 2 * d + z.fRows + z.tRows - 1
      && Drawn(AwaitingSISOSort, z, LookupF) == 1
      && Drawn(AwaitingSISOSort, z, LookupT) == d
      && Drawn(AwaitingSISOSort, z, RandomMatrix) == 1
  {
    hide Drawn, MatrixProducts, FactoryProducts;
    Conservation(z, FinalTriple);
    Conservation(z, Divide);
    Conservation(z, CompareEnd);
    Conservation(z, ModConvUp);
    Conservation(z, CompareStart);
    Conservation(z, TypeCast);
    Conservation(z, LookupF);
    Conservation(z, LookupT);
    Conservation(z, RandomMatrix);
  }

  /** The bit of every comparison a state starts is cast by the next state, and no other. */
  lemma EveryBitIsCast(s: Stage, z: Sizes)
    requires Sane(z)
    ensures Use(s, z, CompareEnd) + Use(s, z, CompareStart) == Use(Next(s), z, TypeCast)
    ensures Use(AwaitingSISOSort, z, TypeCast) == 0
  {
  }

  /** The totals of products: d cubed plus d squared for the matrices; rows times cross pairs with each cross party. */
  lemma ProductTotals(z: Sizes, party: nat)
    requires Sane(z)
    ensures var d := z.d1 + z.d2;
      && Drawn(AwaitingSISOSort, z, MatrixTriple) == d * d * d + d * d
      && Drawn(AwaitingSISOSort, z, MatrixTriple) == |Box(d, d, d + 1)|
    ensures var rows := 2 * z.maxListSize - 1;
      && Drawn(AwaitingSISOSort, z, FactoryTriple(party)) == rows * (z.d1 * z.d2 + z.d1)
      && Drawn(AwaitingSISOSort, z, FactoryTriple(party)) == |Box(rows, z.d1, z.d2 + 1)|
    ensures Drawn(AwaitingSISOSort, z, ZipAdjacent(party)) == 1
  {
    hide Drawn, Box;
    Conservation(z, MatrixTriple);
    Conservation(z, FactoryTriple(party));
    Conservation(z, ZipAdjacent(party));
    ProductCounts(z);
    var d := z.D();
    assert d * d * (d + 1) == d * d * d + d * d;
    assert z.d1 * (z.d2 + 1) == z.d1 * z.d2 + z.d1;
  }

  /** The two batches that weight the Gram sums ask for the triples of their states, the second for d more. */
  method BatchTriples(p: WeightedProducts.Shares, first: WeightedProducts.Products, d: nat)
    returns (firstTriples: nat, secondTriples: nat)
    requires WeightedProducts.Shaped(p, d) && WeightedProducts.HasFirst(first, d)
    ensures firstTriples == UseFinal(AwaitingNegativeRecorrectionMultiply, d)
    ensures secondTriples + d == UseFinal(AwaitingFirstMultiplyForErrorTerms, d)
  {
    hide Triangle;
    var firstRequests := WeightedProducts.FirstBatch(p, d);
    var secondRequests := WeightedProducts.SecondBatch(p, first, d);
    firstTriples, secondTriples := |firstRequests|, |secondRequests|;
  }

  /** What the dispensers hold on entry to s: all that the states still to come draw, and the surplus. */
  ghost predicate Stocked(left: map<Dispenser, nat>, s: Stage, z: Sizes)
    requires Sane(z)
  {
    forall k: Dispenser :: Exists(z, k) ==> k in left && left[k] == Drawn(s, z, k) + Surplus(k)
  }

  /** Enough for this state. */
  ghost predicate Enough(left: map<Dispenser, nat>, s: Stage, z: Sizes)
    requires Sane(z)
  {
    forall k: Dispenser :: Exists(z, k) ==> k in left && left[k] >= Use(s, z, k)
  }

  /** Exactly this state's draws are gone. */
  ghost predicate Spent(before: map<Dispenser, nat>, after: map<Dispenser, nat>, s: Stage, z: Sizes)
    requires Sane(z)
  {
    forall k: Dispenser :: Exists(z, k) ==> k in before && k in after && after[k] == before[k] - Use(s, z, k)
  }

  lemma StockedIsEnough(left: map<Dispenser, nat>, s: Stage, z: Sizes)
    requires Sane(z) && Stocked(left, s, z) && !s.Finished?
    ensures Enough(left, s, z)
  {
    hide Use, Distance;
    forall k: Dispenser | Exists(z, k)
      ensures k in left && left[k] >= Use(s, z, k)
    {
      DrawnStep(s, z, k);
    }
  }

  lemma StockedNext(before: map<Dispenser, nat>, after: map<Dispenser, nat>, s: Stage, z: Sizes)
    requires Sane(z) && Stocked(before, s, z) && !s.Finished? && Spent(before, after, s, z)
    ensures Stocked(after, Next(s), z)
  {
    hide Use, Distance, Drawn, Next;
    forall k: Dispenser | Exists(z, k)
      ensures k in after && after[k] == Drawn(Next(s), z, k) + Surplus(k)
    {
      DrawnStep(s, z, k);
    }
  }

  /** States that do not draw from exactly one dispenser. */
  predicate SpecialDraws(s: Stage) {
    s.AwaitingSISOSort? || s.AwaitingZipAdjacent? || s.AwaitingBatchedModConvUp? || s.AwaitingMatrixMultiply?
    || s.AwaitingFifthMultiplyForErrorTerms? || s.Finished?
  }

  /** The one dispenser every other state draws from. */
  function MainDispenser(s: Stage): Dispenser {
    if s.AwaitingZipReduce? then ModConvUp
    else if s.AwaitingNegativeCorrectionMultiply? || s.AwaitingFourthMultiplyForErrorTerms? then Divide
    else if s.AwaitingRegressionMultiply? || s.AwaitingBatchedTypeCastFromBit? then CompareEnd
    else if s.AwaitingDivisionForErrorTerms? then CompareStart
    else if s.AwaitingFirstCompare? || s.AwaitingCompareForFtStatistics? then TypeCast
    else if s.AwaitingCompareForFtStatisticsEndModulus? then TypeCast
    else FinalTriple
  }

  lemma OnlyMain(s: Stage, z: Sizes, k: Dispenser)
    requires Sane(z) && !SpecialDraws(s) && k != MainDispenser(s)
    ensures Use(s, z, k) == 0
  {
  }

  /** The dispensers after a state that draws from one of them. */
  ghost function DrawnFrom(before: map<Dispenser, nat>, s: Stage, z: Sizes): map<Dispenser, nat>
    requires Sane(z) && Enough(before, s, z)
  {
    EnoughOfMain(before, s, z);
    before[MainDispenser(s) := before[MainDispenser(s)] - Use(s, z, MainDispenser(s))]
  }

  lemma EnoughOfMain(left: map<Dispenser, nat>, s: Stage, z: Sizes)
    requires Sane(z) && Enough(left, s, z)
    ensures MainDispenser(s) in left && left[MainDispenser(s)] >= Use(s, z, MainDispenser(s))
  {
    hide Use;
    assert Exists(z, MainDispenser(s));
  }

  lemma DrawnFromIsSpent(before: map<Dispenser, nat>, s: Stage, z: Sizes)
    requires Sane(z) && Enough(before, s, z) && !SpecialDraws(s)
    ensures Spent(before, DrawnFrom(before, s, z), s, z)
  {
    hide Use, SpecialDraws, MainDispenser;
    forall k: Dispenser | Exists(z, k) && k != MainDispenser(s)
      ensures Use(s, z, k) == 0
    {
      OnlyMain(s, z, k);
    }
  }

  /** Opening the product of the matrices takes no randomness. */
  lemma NothingSpent(left: map<Dispenser, nat>, s: Stage, z: Sizes)
    requires Sane(z) && Enough(left, s, z) && s.AwaitingMatrixMultiply?
    ensures Spent(left, left, s, z)
  {
  }

  /** A regression's view of its randomness: dispensers that must not be asked for more than they hold. */
  class RegressionRun {
    const z: Sizes
    var state: Stage
    var left: map<Dispenser, nat>

    constructor (z: Sizes, randomness: map<Dispenser, nat>)
      requires Sane(z)
      requires forall k: Dispenser :: Exists(z, k) ==> k in randomness && randomness[k] == Dealt(z, k)
      ensures this.z == z && state == AwaitingSISOSort && Stocked(left, state, z)
    {
      this.z := z;
      state := AwaitingSISOSort;
      left := randomness;
      new;
      hide Dealt, Drawn, Surplus;
      forall k: Dispenser | Exists(z, k)
        ensures k in left && left[k] == Drawn(AwaitingSISOSort, z, k) + Surplus(k)
      {
        Conservation(z, k);
      }
    }

    /** RandomnessDispenser::get, which fails on an empty dispenser. */
    method Get(k: Dispenser)
      requires k in left && left[k] > 0
      modifies this`left
      ensures left == old(left)[k := old(left)[k] - 1]
    {
      left := left[k := left[k] - 1];
    }

    /** One get per child of a batch. */
    method GetMany(k: Dispenser, n: nat)
      requires k in left && left[k] >= n
      modifies this`left
      ensures left == old(left)[k := old(left)[k] - n]
    {
      for i := 0 to n
        invariant left == old(left)[k := old(left)[k] - i]
      {
        Get(k);
      }
    }

    /** One get per pair i <= j of independent variables. */
    method GetPairs(k: Dispenser, d: nat)
      requires k in left && left[k] >= Triangle(d)
      modifies this`left
      ensures left == old(left)[k := old(left)[k] - Triangle(d)]
    {
      BeforeClosed(d, d);
      for i := 0 to d
        invariant Before(d, i) <= Triangle(d)
        invariant left == old(left)[k := old(left)[k] - Before(d, i)]
      {
        BeforeGrows(d, i, d);
        for j := i to d
          invariant left == old(left)[k := old(left)[k] - (Before(d, i) + (j - i))]
        {
          Get(k);
        }
      }
    }

    /** One get from the ZipAdjacent dispenser of each cross party. */
    method GetZipAdjacent()
      requires forall i: nat :: i < z.crossParties ==> ZipAdjacent(i) in left && left[ZipAdjacent(i)] >= 1
      modifies this`left
      ensures left.Keys == old(left).Keys
      ensures forall k: Dispenser :: k in left ==>
        left[k] == old(left)[k] - (if k.ZipAdjacent? && k.party < z.crossParties then 1 else 0)
    {
      for i := 0 to z.crossParties
        invariant left.Keys == old(left).Keys
        invariant forall k: Dispenser :: k in left ==>
          left[k] == old(left)[k] - (if k.ZipAdjacent? && k.party < i then 1 else 0)
      {
        Get(ZipAdjacent(i));
      }
    }

    /** ZipReduce with each cross party: every pair of neighbours gets a payload computation of its own. */
    method GetFactoryTriples()
      requires Sane(z)
      requires forall i: nat :: i < z.crossParties ==>
        FactoryTriple(i) in left && left[FactoryTriple(i)] >= FactoryProducts(z)
      modifies this`left
      ensures left.Keys == old(left).Keys
      ensures forall k: Dispenser :: k in left ==>
        left[k] == old(left)[k] - (if k.FactoryTriple? && k.party < z.crossParties then FactoryProducts(z) else 0)
    {
      hide FactoryProducts;
      for i := 0 to z.crossParties
        invariant left.Keys == old(left).Keys
        invariant forall k: Dispenser :: k in left ==>
          left[k] == old(left)[k] - (if k.FactoryTriple? && k.party < i then FactoryProducts(z) else 0)
      {
        GetPayloadTriples(FactoryTriple(i));
      }
    }

    /** RegressionPayloadCompute once per pair of neighbours; what it asks for depends on the widths only. */
    method GetPayloadTriples(k: Dispenser)
      requires Sane(z) && k in left && left[k] >= FactoryProducts(z)
      modifies this`left
      ensures left == old(left)[k := old(left)[k] - FactoryProducts(z)]
    {
      var rows, each := 2 * z.maxListSize - 1, z.d1 * (z.d2 + 1);
      var vec1, vec2 := seq(z.d1, _ => 0), seq(z.d2 + 1, _ => 0);
      ghost var taken := 0;
      for i := 0 to rows
        invariant 0 <= taken == i * each <= rows * each
        invariant left == old(left)[k := old(left)[k] - taken]
      {
        StepUp(i, rows, each);
        var compute := new PayloadCompute.RegressionPayloadCompute(vec1, vec2, z.d1, z.d2);
        compute.Init();
        GetMany(k, |compute.requests|);
        taken := taken + each;
      }
    }

    method GetRepeatedly(k: Dispenser, n: nat, each: nat)
      requires k in left && left[k] >= n * each
      modifies this`left
      ensures left == old(left)[k := old(left)[k] - n * each]
    {
      ghost var taken := 0;
      for i := 0 to n
        invariant 0 <= taken == i * each <= n * each
        invariant left == old(left)[k := old(left)[k] - taken]
      {
        StepUp(i, n, each);
        GetMany(k, each);
        taken := taken + each;
      }
    }

    /** The joined lists: one protocol run with each cross party. */
    method HandlePairs()
      requires Sane(z) && Enough(left, state, z) && (state.AwaitingSISOSort? || state.AwaitingZipAdjacent?)
      modifies this
      ensures state == Next(old(state)) && Spent(old(left), left, old(state), z)
    {
      hide FactoryProducts;
      if state.AwaitingSISOSort? {
        GetZipAdjacent();
        state := AwaitingZipAdjacent;
      } else {
        GetFactoryTriples();
        state := AwaitingZipReduce;
      }
    }

    /** One scalar product of length d for each of d rows and d + 1 columns. */
    method GetMatrixTriples(d: nat)
      requires MatrixTriple in left && left[MatrixTriple] >= MatrixProducts(d)
      modifies this`left
      ensures left == old(left)[MatrixTriple := old(left)[MatrixTriple] - MatrixProducts(d)]
    {
      assert d * d * (d + 1) == d * ((d + 1) * d);
      ghost var taken, each := 0, (d + 1) * d;
      for i := 0 to d
        invariant 0 <= taken == i * each <= d * each
        invariant left == old(left)[MatrixTriple := old(left)[MatrixTriple] - taken]
      {
        StepUp(i, d, each);
        GetRepeatedly(MatrixTriple, d + 1, d);
        taken := taken + each;
      }
    }

    method HandleModConvUp()
      requires Sane(z) && Enough(left, state, z) && state.AwaitingBatchedModConvUp?
      modifies this
      ensures state == Next(old(state)) && Spent(old(left), left, old(state), z)
    {
      hide MatrixProducts, Sizes.D;
      Get(RandomMatrix);
      GetMatrixTriples(z.D());
      state := AwaitingMatrixMultiply;
    }

    method HandleFifthMultiply()
      requires Sane(z) && Enough(left, state, z) && state.AwaitingFifthMultiplyForErrorTerms?
      modifies this
      ensures state == Next(old(state)) && Spent(old(left), left, old(state), z)
    {
      hide Sizes.D;
      Get(LookupF);
      GetMany(LookupT, z.D());
      state := Finished;
    }

    /** The states that draw from one dispenser, up to the regression coefficients. */
    method DrawWeights()
      requires Sane(z) && Enough(left, state, z) && 12 <= Distance(state) <= 20 && !SpecialDraws(state)
      modifies this`left
      ensures left == DrawnFrom(old(left), state, z)
    {
      hide Triangle, Square, Sizes.D, Enough;
      EnoughOfMain(left, state, z);
      var d := z.D();
      if state.AwaitingZipReduce? {
        GetMany(ModConvUp, Square(d) + d + 3);
      } else if state.AwaitingMatrixReveal? {
        GetMany(FinalTriple, d);
      } else if state.AwaitingRegressionMultiply? {
        GetMany(CompareEnd, d);
      } else if state.AwaitingFirstCompare? {
        GetMany(TypeCast, d);
      } else if state.AwaitingFirstTypeCastFromBit? {
        GetMany(FinalTriple, d);
      } else if state.AwaitingNegativeCorrectionMultiply? {
        GetMany(Divide, d);
      } else {
        GetMany(FinalTriple, d);
      }
    }

    /** The products of the error terms. */
    method DrawErrorTerms()
      requires Sane(z) && Enough(left, state, z) && 8 <= Distance(state) < 12
      modifies this`left
      ensures left == DrawnFrom(old(left), state, z)
    {
      hide Triangle, Sizes.D, Enough;
      EnoughOfMain(left, state, z);
      var d := z.D();
      if state.AwaitingNegativeRecorrectionMultiply? {
        GetPairs(FinalTriple, d);
        GetPairs(FinalTriple, d);
        GetMany(FinalTriple, d);
        Get(FinalTriple);
        Get(FinalTriple);
      } else if state.AwaitingFirstMultiplyForErrorTerms? {
        GetPairs(FinalTriple, d);
        GetPairs(FinalTriple, d);
        GetMany(FinalTriple, d);
        GetMany(FinalTriple, d);
      } else if state.AwaitingSecondMultiplyForErrorTerms? {
        GetMany(FinalTriple, d);
        Get(FinalTriple);
        Get(FinalTriple);
      } else {
        GetMany(FinalTriple, d);
      }
    }

    /** The statistics and their places in the tables. */
    method DrawStatistics()
      requires Sane(z) && Enough(left, state, z) && 2 <= Distance(state) < 8
      modifies this`left
      ensures left == DrawnFrom(old(left), state, z)
    {
      hide Triangle, Sizes.D, Enough;
      EnoughOfMain(left, state, z);
      var d := z.D();
      if state.AwaitingFourthMultiplyForErrorTerms? {
        Get(Divide);
        Get(Divide);
        GetMany(Divide, d);
        Get(Divide);
        GetMany(Divide, d);
      } else if state.AwaitingDivisionForErrorTerms? {
        GetMany(CompareStart, z.fRows - 1);
        GetMany(CompareStart, z.tRows - 1);
      } else if state.AwaitingCompareForFtStatistics? {
        GetMany(TypeCast, (z.fRows - 1) + (z.tRows - 1));
      } else if state.AwaitingBatchedTypeCastFromBit? {
        Get(CompareEnd);
        GetMany(CompareEnd, d);
      } else if state.AwaitingCompareForFtStatisticsEndModulus? {
        GetMany(TypeCast, 1 + d);
      } else {
        Get(FinalTriple);
        GetMany(FinalTriple, d);
      }
    }

    method HandleComplete()
      requires Sane(z) && !state.Finished? && Stocked(left, state, z)
      modifies this
      ensures state == Next(old(state)) && Stocked(left, state, z)
    {
      hide Use, Drawn, Enough, Stocked, Spent, DrawnFrom;
      StockedIsEnough(left, state, z);
      if state.AwaitingSISOSort? || state.AwaitingZipAdjacent? {
        HandlePairs();
      } else if state.AwaitingBatchedModConvUp? {
        HandleModConvUp();
      } else if state.AwaitingMatrixMultiply? {
        NothingSpent(left, state, z);
        state := AwaitingMatrixReveal;
      } else if state.AwaitingFifthMultiplyForErrorTerms? {
        HandleFifthMultiply();
      } else {
        DrawnFromIsSpent(left, state, z);
        if Distance(state) >= 12 {
          DrawWeights();
        } else if Distance(state) >= 8 {
          DrawErrorTerms();
        } else {
          DrawStatistics();
        }
        state := Next(state);
      }
      StockedNext(old(left), left, old(state), z);
    }
  }

  /** A whole run: no get ever meets an empty dispenser, and what is left at the end is the surplus. */
  method Run(z: Sizes, randomness: map<Dispenser, nat>) returns (left: map<Dispenser, nat>)
    requires Sane(z)
    requires forall k: Dispenser :: Exists(z, k) ==> k in randomness && randomness[k] == Dealt(z, k)
    ensures forall k: Dispenser :: Exists(z, k) ==> k in left && left[k] == Surplus(k)
  {
    hide Use, Dealt;
    var r := new RegressionRun(z, randomness);
    while !r.state.Finished?
      invariant r.z == z && Stocked(r.left, r.state, z)
      decreases Distance(r.state)
    {
      r.HandleComplete();
    }
    left := r.left;
  }
}
