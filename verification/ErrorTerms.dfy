/** The residual and R-squared terms of the regression, from shares of products to sums of squares. */
module ErrorTerms {
  import opened Modular
  import opened Sharing

  // ----- sums over the upper triangle

  /** Diagonal terms count once, the others stand for their mirror image too. */
  function Weight(i: nat, j: nat): int {
    if i == j then 1 else 2
  }

  /** The weighted terms (i, i), ..., (i, j - 1). */
  function UpperRow(f: (nat, nat) -> int, i: nat, j: nat): int {
    if j <= i then 0 else UpperRow(f, i, j - 1) + Weight(i, j - 1) * f(i, j - 1)
  }

  /** The first i rows, up to column d. */
  function Upper(f: (nat, nat) -> int, d: nat, i: nat): int {
    if i == 0 then 0 else Upper(f, d, i - 1) + UpperRow(f, i - 1, d)
  }

  function Total(g: nat -> int, d: nat): int {
    if d == 0 then 0 else Total(g, d - 1) + g(d - 1)
  }

  lemma {:induction false} UpperRowCombination(f: (nat, nat) -> int, g: (nat, nat) -> int, h: (nat, nat) -> int,
                                               i: nat, j: nat)
    requires forall a: nat, b: nat :: h(a, b) == f(a, b) + g(a, b)
    ensures UpperRow(h, i, j) == UpperRow(f, i, j) + UpperRow(g, i, j)
  {
    if j > i {
      UpperRowCombination(f, g, h, i, j - 1);
      assert h(i, j - 1) == f(i, j - 1) + g(i, j - 1);
    }
  }

  lemma {:induction false} UpperCombination(f: (nat, nat) -> int, g: (nat, nat) -> int, h: (nat, nat) -> int,
                                            d: nat, i: nat)
    requires forall a: nat, b: nat :: h(a, b) == f(a, b) + g(a, b)
    ensures Upper(h, d, i) == Upper(f, d, i) + Upper(g, d, i)
  {
    if i > 0 {
      UpperCombination(f, g, h, d, i - 1);
      UpperRowCombination(f, g, h, i - 1, d);
    }
  }

  lemma {:induction false} TotalCombination(f: nat -> int, g: nat -> int, h: nat -> int, d: nat)
    requires forall a: nat :: h(a) == f(a) + g(a)
    ensures Total(h, d) == Total(f, d) + Total(g, d)
  {
    if d > 0 {
      TotalCombination(f, g, h, d - 1);
    }
  }

  lemma {:induction false} UpperRowCong(f: (nat, nat) -> int, g: (nat, nat) -> int, i: nat, j: nat, d: nat, m: int)
    requires m > 0 && j <= d
    requires forall a: nat, b: nat :: a <= b < d ==> Cong(f(a, b), g(a, b), m)
    ensures Cong(UpperRow(f, i, j), UpperRow(g, i, j), m)
  {
    if j > i {
      UpperRowCong(f, g, i, j - 1, d, m);
      CongScale(f(i, j - 1), g(i, j - 1), Weight(i, j - 1), m);
      CongAdd(UpperRow(f, i, j - 1), UpperRow(g, i, j - 1),
              Weight(i, j - 1) * f(i, j - 1), Weight(i, j - 1) * g(i, j - 1), m);
    }
  }

  lemma {:induction false} UpperCong(f: (nat, nat) -> int, g: (nat, nat) -> int, d: nat, i: nat, m: int)
    requires m > 0
    requires forall a: nat, b: nat :: a <= b < d ==> Cong(f(a, b), g(a, b), m)
    ensures Cong(Upper(f, d, i), Upper(g, d, i), m)
  {
    if i > 0 {
      UpperCong(f, g, d, i - 1, m);
      UpperRowCong(f, g, i - 1, d, d, m);
      CongAdd(Upper(f, d, i - 1), Upper(g, d, i - 1), UpperRow(f, i - 1, d), UpperRow(g, i - 1, d), m);
    }
  }

  lemma {:induction false} TotalCong(f: nat -> int, g: nat -> int, d: nat, m: int)
    requires m > 0 && forall a: nat :: a < d ==> Cong(f(a), g(a), m)
    ensures Cong(Total(f, d), Total(g, d), m)
  {
    if d > 0 {
      TotalCong(f, g, d - 1, m);
      CongAdd(Total(f, d - 1), Total(g, d - 1), f(d - 1), g(d - 1), m);
    }
  }

  /** y2 + weighted upper triangle - 2 * cross terms: the shape of both numerators. */
  function Form(y2: int, f: (nat, nat) -> int, g: nat -> int, d: nat): int {
    y2 + Upper(f, d, d) - 2 * Total(g, d)
  }

  // ----- the square of a sum

  lemma {:induction false} WiderUpper(z: nat -> int, f: (nat, nat) -> int, d: nat, i: nat)
    requires i <= d && forall a: nat, b: nat :: f(a, b) == z(a) * z(b)
    ensures Upper(f, d + 1, i) == Upper(f, d, i) + 2 * (Total(z, i) * z(d))
  {
    if i > 0 {
      WiderUpper(z, f, d, i - 1);
      WiderRow(f, d, i - 1);
      WiderStep(Upper(f, d, i - 1), UpperRow(f, i - 1, d), UpperRow(f, i - 1, d + 1), Total(z, i - 1),
                z(i - 1), z(d), f(i - 1, d));
      hide UpperRow;
    }
  }

  /** The doubled upper triangle of products is the square of the sum. */
  lemma {:induction false} SquareOfSum(z: nat -> int, f: (nat, nat) -> int, d: nat)
    requires forall a: nat, b: nat :: f(a, b) == z(a) * z(b)
    ensures Upper(f, d, d) == Total(z, d) * Total(z, d)
  {
    if d > 0 {
      var e := d - 1;
      SquareOfSum(z, f, e);
      WiderUpper(z, f, e, e);
      LastRow(f, e);
      assert UpperRow(f, e, d) == z(e) * z(e);
      BinomialSquare(Total(z, e), z(e));
    }
  }

  lemma WiderStep(u: int, row: int, wider: int, t: int, zi: int, zd: int, f: int)
    requires wider == row + 2 * f && f == zi * zd
    ensures u + 2 * (t * zd) + wider == u + row + 2 * ((t + zi) * zd)
  {
    assert (t + zi) * zd == t * zd + zi * zd;
  }

  lemma WiderRow(f: (nat, nat) -> int, d: nat, i: nat)
    requires i < d
    ensures UpperRow(f, i, d + 1) == UpperRow(f, i, d) + 2 * f(i, d)
  {
  }

  lemma LastRow(f: (nat, nat) -> int, e: nat)
    ensures UpperRow(f, e, e + 1) == f(e, e)
  {
    assert UpperRow(f, e, e) == 0;
  }

  lemma BinomialSquare(a: int, b: int)
    ensures (a + b) * (a + b) == a * a + 2 * (a * b) + b * b
  {
  }

  // ----- observations

  datatype Sample = Sample(x: nat -> int, y: int)

  /** Sums over all observations, the entries of the Gram matrix. */
  function SumXX(data: seq<Sample>, i: nat, j: nat): int {
    if |data| == 0 then 0 else
    SumXX(data[..|data| - 1], i, j) + data[|data| - 1].x(i) * data[|data| - 1].x(j)
  }

  function SumXY(data: seq<Sample>, i: nat): int {
    if |data| == 0 then 0 else SumXY(data[..|data| - 1], i) + data[|data| - 1].x(i) * data[|data| - 1].y
  }

  function SumYY(data: seq<Sample>): int {
    if |data| == 0 then 0 else SumYY(data[..|data| - 1]) + data[|data| - 1].y * data[|data| - 1].y
  }

  function SumY(data: seq<Sample>): int {
    if |data| == 0 then 0 else SumY(data[..|data| - 1]) + data[|data| - 1].y
  }

  /** y minus its prediction from the first d coefficients. */
  function Residual(o: Sample, beta: nat -> int, d: nat): int {
    o.y - Total((i: nat) => beta(i) * o.x(i), d)
  }

  function SquaredError(data: seq<Sample>, beta: nat -> int, d: nat): int {
    if |data| == 0 then 0 else
    SquaredError(data[..|data| - 1], beta, d)
    + Residual(data[|data| - 1], beta, d) * Residual(data[|data| - 1], beta, d)
  }

  function BetaXX(data: seq<Sample>, beta: nat -> int): (nat, nat) -> int {
    (i: nat, j: nat) => beta(i) * beta(j) * SumXX(data, i, j)
  }

  function BetaXY(data: seq<Sample>, beta: nat -> int): nat -> int {
    (i: nat) => beta(i) * SumXY(data, i)
  }

  lemma {:induction false} ScaledTotal(z: nat -> int, g: nat -> int, y: int, d: nat)
    requires forall a: nat :: g(a) == z(a) * y
    ensures Total(g, d) == Total(z, d) * y
  {
    if d > 0 {
      ScaledTotal(z, g, y, d - 1);
      assert Total(z, d) * y == Total(z, d - 1) * y + z(d - 1) * y;
    }
  }

  /** One observation: its squared residual. */
  lemma OneResidual(o: Sample, beta: nat -> int, f: (nat, nat) -> int, g: nat -> int, d: nat)
    requires forall i: nat, j: nat :: f(i, j) == beta(i) * beta(j) * (o.x(i) * o.x(j))
    requires forall i: nat :: g(i) == beta(i) * (o.x(i) * o.y)
    ensures Form(o.y * o.y, f, g, d) == Residual(o, beta, d) * Residual(o, beta, d)
  {
    var z := (i: nat) => beta(i) * o.x(i);
    forall i: nat, j: nat
      ensures f(i, j) == z(i) * z(j)
    {
      SwapFactors(beta(i), beta(j), o.x(i), o.x(j));
    }
    forall i: nat
      ensures g(i) == z(i) * o.y
    {
    }
    SquareOfSum(z, f, d);
    ScaledTotal(z, g, o.y, d);
    SquareOfDifference(o.y, Total(z, d));
  }

  lemma SwapFactors(a: int, b: int, x: int, y: int)
    ensures a * b * (x * y) == (a * x) * (b * y)
  {
    assert a * b * (x * y) == a * (b * (x * y));
    assert (a * x) * (b * y) == a * (x * (b * y));
    assert b * (x * y) == x * (b * y);
  }

  lemma SquareOfDifference(y: int, p: int)
    ensures y * y + p * p - 2 * (p * y) == (y - p) * (y - p)
  {
  }

  lemma BetaXXStep(data: seq<Sample>, beta: nat -> int, i: nat, j: nat)
    requires |data| > 0
    ensures var o := data[|data| - 1];
      BetaXX(data, beta)(i, j)
      == BetaXX(data[..|data| - 1], beta)(i, j) + beta(i) * beta(j) * (o.x(i) * o.x(j))
  {
    var o := data[|data| - 1];
    Spread(beta(i) * beta(j), SumXX(data[..|data| - 1], i, j), o.x(i) * o.x(j));
  }

  lemma BetaXYStep(data: seq<Sample>, beta: nat -> int, i: nat)
    requires |data| > 0
    ensures var o := data[|data| - 1];
      BetaXY(data, beta)(i) == BetaXY(data[..|data| - 1], beta)(i) + beta(i) * (o.x(i) * o.y)
  {
    var o := data[|data| - 1];
    Spread(beta(i), SumXY(data[..|data| - 1], i), o.x(i) * o.y);
  }

  /** The form grows by the squared residual of each observation. */
  lemma FormStep(data: seq<Sample>, beta: nat -> int, d: nat)
    requires |data| > 0
    ensures var n := |data| - 1;
      Form(SumYY(data), BetaXX(data, beta), BetaXY(data, beta), d)
      == Form(SumYY(data[..n]), BetaXX(data[..n], beta), BetaXY(data[..n], beta), d)
         + Residual(data[n], beta, d) * Residual(data[n], beta, d)
  {
    var n := |data| - 1;
    var o := data[n];
    var f := (i: nat, j: nat) => beta(i) * beta(j) * (o.x(i) * o.x(j));
    var g := (i: nat) => beta(i) * (o.x(i) * o.y);
    OneResidual(o, beta, f, g, d);
    forall i: nat, j: nat
      ensures BetaXX(data, beta)(i, j) == BetaXX(data[..n], beta)(i, j) + f(i, j)
    {
      BetaXXStep(data, beta, i, j);
    }
    forall i: nat
      ensures BetaXY(data, beta)(i) == BetaXY(data[..n], beta)(i) + g(i)
    {
      BetaXYStep(data, beta, i);
    }
    UpperCombination(BetaXX(data[..n], beta), f, BetaXX(data, beta), d, d);
    TotalCombination(BetaXY(data[..n], beta), g, BetaXY(data, beta), d);
    assert SumYY(data) == SumYY(data[..n]) + o.y * o.y;
    hide BetaXX, BetaXY, Residual, SumYY, Upper, Total;
  }

  /** The form on the Gram entries is the sum of squared residuals. */
  lemma {:induction false} FormIsSquaredError(data: seq<Sample>, beta: nat -> int, d: nat)
    ensures Form(SumYY(data), BetaXX(data, beta), BetaXY(data, beta), d) == SquaredError(data, beta, d)
  {
    if |data| == 0 {
      forall i: nat, j: nat
        ensures BetaXX(data, beta)(i, j) == 0
      {
        assert beta(i) * beta(j) * 0 == 0;
      }
      forall i: nat
        ensures BetaXY(data, beta)(i) == 0
      {
        assert beta(i) * 0 == 0;
      }
      UpperZero(BetaXX(data, beta), d, d);
      TotalZero(BetaXY(data, beta), d);
    } else {
      FormIsSquaredError(data[..|data| - 1], beta, d);
      FormStep(data, beta, d);
    }
  }

  lemma Spread(a: int, b: int, c: int)
    ensures a * (b + c) == a * b + a * c
  {
  }

  lemma {:induction false} UpperRowZero(f: (nat, nat) -> int, i: nat, j: nat)
    requires forall a: nat, b: nat :: f(a, b) == 0
    ensures UpperRow(f, i, j) == 0
  {
    if j > i {
      UpperRowZero(f, i, j - 1);
      assert f(i, j - 1) == 0;
    }
  }

  lemma {:induction false} UpperZero(f: (nat, nat) -> int, d: nat, i: nat)
    requires forall a: nat, b: nat :: f(a, b) == 0
    ensures Upper(f, d, i) == 0
  {
    if i > 0 {
      UpperZero(f, d, i - 1);
      UpperRowZero(f, i - 1, d);
    }
  }

  lemma {:induction false} TotalZero(g: nat -> int, d: nat)
    requires forall a: nat :: g(a) == 0
    ensures Total(g, d) == 0
  {
    if d > 0 {
      TotalZero(g, d - 1);
    }
  }

  // ----- shares

  /** A matrix share stored row by row. */
  function Cells(v: seq<nat>, d: nat): (nat, nat) -> int {
    (i: nat, j: nat) => if 0 <= i * d + j < |v| then v[i * d + j] as int else 0
  }

  function Entries(v: seq<nat>): nat -> int {
    (i: nat) => if i < |v| then v[i] as int else 0
  }

  function ModAdd(a: nat, b: nat, m: nat): (c: nat)
    requires m > 0
    ensures c < m
  {
    (a + b) % m
  }

  lemma AddTerm(sum: int, exact: int, term: int, target: int, m: int)
    requires m > 0 && Cong(sum, exact, m) && Cong(term, target, m)
    ensures Cong((sum + term) % m, exact + target, m)
  {
    CongAdd(sum, exact, term, target, m);
    CongMod(sum + term, m);
  }

  lemma Negated(v: int, m: int)
    requires m > 0
    ensures Cong(2 * (m - v), -2 * v, m)
  {
    AddMultiple(-2 * v, 2, m);
  }

  lemma CellInside(v: seq<nat>, i: nat, j: nat, d: nat)
    requires i < d && j < d && |v| == d * d
    ensures 0 <= i * d + j < |v| && Cells(v, d)(i, j) == v[i * d + j]
  {
    InSquare(i, j, d);
  }

  lemma InSquare(i: nat, j: nat, d: nat)
    requires i < d && j < d
    ensures 0 <= i * d + j < d * d
  {
    StepUp(i, d, d);
  }

  /** The form summed so far: i full rows, row i up to column j, and the cross terms of the full rows. */
  ghost function Partial(y2: int, f: (nat, nat) -> int, g: nat -> int, d: nat, i: nat, j: nat): int {
    y2 + Upper(f, d, i) + UpperRow(f, i, j) - 2 * Total(g, i)
  }

  lemma PartialCell(y2: int, f: (nat, nat) -> int, g: nat -> int, d: nat, i: nat, j: nat, numer: nat, v: nat, m: nat)
    requires m > 0 && i <= j && Cong(numer, Partial(y2, f, g, d, i, j), m) && f(i, j) == v
    ensures Cong((numer + Weight(i, j) * v) % m, Partial(y2, f, g, d, i, j + 1), m)
  {
    AddTerm(numer, Partial(y2, f, g, d, i, j), Weight(i, j) * v, Weight(i, j) * f(i, j), m);
    hide Cong;
  }

  lemma PartialRow(y2: int, f: (nat, nat) -> int, g: nat -> int, d: nat, i: nat, numer: nat, v: nat, m: nat)
    requires m > 0 && i < d && Cong(numer, Partial(y2, f, g, d, i, d), m) && g(i) == v && v <= m
    ensures Cong((numer + 2 * (m - v)) % m, Partial(y2, f, g, d, i + 1, i + 1), m)
  {
    Negated(v, m);
    AddTerm(numer, Partial(y2, f, g, d, i, d), 2 * (m - v), -2 * v, m);
    assert UpperRow(f, i + 1, i + 1) == 0;
    hide Cong;
  }

  /** The loops that build numer_MSE. */
  method ErrorForm(y2: nat, products: seq<nat>, cross: seq<nat>, d: nat, m: nat) returns (numer: nat)
    requires m > 0 && |products| == d * d && |cross| == d && forall i :: 0 <= i < d ==> cross[i] <= m
    ensures Cong(numer, Form(y2, Cells(products, d), Entries(cross), d), m)
  {
    numer := y2;
    ghost var f, g := Cells(products, d), Entries(cross);
    assert Partial(y2, f, g, d, 0, 0) == y2;
    for i := 0 to d
      invariant Cong(numer, Partial(y2, f, g, d, i, i), m)
    {
      for j := i to d
        invariant Cong(numer, Partial(y2, f, g, d, i, j), m)
      {
        CellInside(products, i, j, d);
        PartialCell(y2, f, g, d, i, j, numer, products[i * d + j], m);
        if i == j {
          numer := numer + products[i * d + i];
        } else {
          numer := numer + 2 * products[i * d + j];
        }
        numer := numer % m;
      }
      assert g(i) == cross[i];
      PartialRow(y2, f, g, d, i, numer, cross[i], m);
      numer := numer + 2 * (m - cross[i]);
      numer := numer % m;
    }
    assert Partial(y2, f, g, d, d, d) == Form(y2, f, g, d);
  }

  /** The loops that build numer_RSquared, with modAdd. */
  method ScaledForm(y2: nat, products: seq<nat>, cross: seq<nat>, d: nat, m: nat) returns (numer: nat)
    requires m > 0 && |products| == d * d && |cross| == d && forall i :: 0 <= i < d ==> cross[i] <= m
    requires y2 < m
    ensures numer < m && Cong(numer, Form(y2, Cells(products, d), Entries(cross), d), m)
  {
    numer := y2;
    ghost var f, g := Cells(products, d), Entries(cross);
    assert Partial(y2, f, g, d, 0, 0) == y2;
    for i := 0 to d
      invariant numer < m && Cong(numer, Partial(y2, f, g, d, i, i), m)
    {
      for j := i to d
        invariant numer < m && Cong(numer, Partial(y2, f, g, d, i, j), m)
      {
        CellInside(products, i, j, d);
        PartialCell(y2, f, g, d, i, j, numer, products[i * d + j], m);
        if i == j {
          numer := ModAdd(numer, products[i * d + i], m);
        } else {
          numer := ModAdd(numer, 2 * products[i * d + j], m);
        }
      }
      assert g(i) == cross[i];
      PartialRow(y2, f, g, d, i, numer, cross[i], m);
      numer := ModAdd(numer, 2 * (m - cross[i]), m);
    }
    assert Partial(y2, f, g, d, d, d) == Form(y2, f, g, d);
  }

  /** One party's numerators and denominators from its shares. */
  class ErrorTerms {
    const d: nat
    const modulus: nat
    const isRevealer: bool
    const fitIntercept: bool
    const ySquaredShare: nat
    const oneShare: nat
    const betaBetaXX: seq<nat>
    const betaXY: seq<nat>
    const ySquaredN: nat
    const ySumThenSquared: nat
    const betaBetaXXN: seq<nat>
    const betaXYN: seq<nat>

    var numerMSE: nat
    var denomMSE: nat
    var numerRSquared: nat
    var denomRSquared: nat
    var denomFStatistic: nat

    /** Shares are residues modulo endModulus. */
    ghost predicate Valid() {
      && 0 < modulus && d <= modulus && |betaBetaXX| == |betaBetaXXN| == d * d && |betaXY| == |betaXYN| == d
      && ySquaredN < modulus && ySumThenSquared <= modulus
      && (forall i :: 0 <= i < d ==> betaXY[i] <= modulus && betaXYN[i] <= modulus)
    }

    constructor (d: nat, modulus: nat, isRevealer: bool, fitIntercept: bool, ySquaredShare: nat, oneShare: nat,
                 betaBetaXX: seq<nat>, betaXY: seq<nat>, ySquaredN: nat, ySumThenSquared: nat,
                 betaBetaXXN: seq<nat>, betaXYN: seq<nat>)
      ensures this.d == d && this.modulus == modulus && this.isRevealer == isRevealer
      ensures this.fitIntercept == fitIntercept && this.ySquaredShare == ySquaredShare && this.oneShare == oneShare
      ensures this.betaBetaXX == betaBetaXX && this.betaXY == betaXY && this.ySquaredN == ySquaredN
      ensures this.ySumThenSquared == ySumThenSquared && this.betaBetaXXN == betaBetaXXN && this.betaXYN == betaXYN
    {
      this.d, this.modulus, this.isRevealer, this.fitIntercept := d, modulus, isRevealer, fitIntercept;
      this.ySquaredShare, this.oneShare, this.betaBetaXX, this.betaXY := ySquaredShare, oneShare, betaBetaXX, betaXY;
      this.ySquaredN, this.ySumThenSquared := ySquaredN, ySumThenSquared;
      this.betaBetaXXN, this.betaXYN := betaBetaXXN, betaXYN;
      numerMSE, denomMSE, numerRSquared, denomRSquared, denomFStatistic := 0, 0, 0, 0, 0;
    }

    /** Share of n * (sum of squared errors), before it is taken from the denominator. */
    ghost function ScaledError(): int {
      Form(ySquaredN, Cells(betaBetaXXN, d), Entries(betaXYN), d)
    }

    ghost function Denominator(): int {
      if fitIntercept then ySquaredN - ySumThenSquared else ySquaredN
    }

    /** This party's results in terms of its shares. */
    ghost predicate Computed()
      requires Valid()
      reads this
    {
      && Cong(numerMSE, Form(ySquaredShare, Cells(betaBetaXX, d), Entries(betaXY), d), modulus)
      && Cong(denomMSE, if isRevealer then oneShare - d else oneShare, modulus)
      && Cong(denomRSquared, Denominator(), modulus)
      && Cong(denomFStatistic, ScaledError() * d, modulus)
      && Cong(numerRSquared, Denominator() - ScaledError(), modulus)
    }

    /** The local computation of awaitingSecondMultiplyForErrorTerms. */
    method Compute()
      requires Valid()
      modifies this
      ensures Computed()
    {
      hide Cong, Form, Cells, Entries;
      numerMSE := ErrorForm(ySquaredShare, betaBetaXX, betaXY, d, modulus);
      denomMSE := oneShare;
      if isRevealer {
        Subtracted(denomMSE, d, modulus);
        denomMSE := ModAdd(denomMSE, modulus - d, modulus);
      }
      Itself(oneShare, modulus);
      numerRSquared := ScaledForm(ySquaredN, betaBetaXXN, betaXYN, d, modulus);
      ghost var scaled := numerRSquared;
      denomRSquared := ySquaredN;
      if fitIntercept {
        Subtracted(denomRSquared, ySumThenSquared, modulus);
        denomRSquared := denomRSquared + (modulus - ySumThenSquared);
        denomRSquared := denomRSquared % modulus;
      }
      Itself(ySquaredN, modulus);
      TimesCount(scaled, ScaledError(), d, modulus);
      denomFStatistic := numerRSquared * d;
      denomFStatistic := denomFStatistic % modulus;
      Complemented(scaled, ScaledError(), denomRSquared, Denominator(), modulus);
      numerRSquared := modulus - numerRSquared;
      numerRSquared := numerRSquared + denomRSquared;
      numerRSquared := numerRSquared % modulus;
    }
  }

  lemma Itself(a: int, m: int)
    requires m > 0
    ensures Cong(a, a, m)
  {
  }

  lemma Subtracted(a: nat, b: nat, m: nat)
    requires 0 < m && b <= m
    ensures Cong((a + (m - b)) % m, a - b, m) && ModAdd(a, m - b, m) == (a + (m - b)) % m
  {
    AddMultiple(a - b, 1, m);
    CongMod(a + (m - b), m);
  }

  lemma TimesCount(scaled: nat, exact: int, d: nat, m: nat)
    requires m > 0 && Cong(scaled, exact, m)
    ensures Cong((scaled * d) % m, exact * d, m)
  {
    CongScale(scaled, exact, d, m);
    CongMod(scaled * d, m);
  }

  lemma Complemented(scaled: nat, exact: int, denom: nat, target: int, m: nat)
    requires m > 0 && scaled <= m && Cong(scaled, exact, m) && Cong(denom, target, m)
    ensures Cong(((m - scaled) + denom) % m, target - exact, m)
  {
    var minus := 0 - scaled;
    AddMultiple(minus, 1, m);
    CongSub(0, 0, scaled, exact, m);
    AddTerm(m - scaled, -exact, denom, target, m);
  }

  // ----- what the shares of all parties hold

  /** The shares of all parties at (i, j), added up. */
  function SumCells(fs: seq<(nat, nat) -> int>): (nat, nat) -> int {
    (i: nat, j: nat) => Sum(seq(|fs|, p requires 0 <= p < |fs| => fs[p](i, j)))
  }

  function SumEntries(gs: seq<nat -> int>): nat -> int {
    (i: nat) => Sum(seq(|gs|, p requires 0 <= p < |gs| => gs[p](i)))
  }

  /** The form is linear: the sum over the parties is the form of the sums. */
  lemma {:induction false} FormOfSums(y2s: seq<int>, fs: seq<(nat, nat) -> int>, gs: seq<nat -> int>,
                                      forms: seq<int>, d: nat)
    requires |y2s| == |fs| == |gs| == |forms|
    requires forall p :: 0 <= p < |forms| ==> forms[p] == Form(y2s[p], fs[p], gs[p], d)
    ensures Sum(forms) == Form(Sum(y2s), SumCells(fs), SumEntries(gs), d)
  {
    if |forms| == 0 {
      UpperZero(SumCells(fs), d, d);
      TotalZero(SumEntries(gs), d);
    } else {
      var n := |forms| - 1;
      FormOfSums(y2s[..n], fs[..n], gs[..n], forms[..n], d);
      SumCellsStep(fs);
      SumEntriesStep(gs);
      UpperCombination(SumCells(fs[..n]), fs[n], SumCells(fs), d, d);
      TotalCombination(SumEntries(gs[..n]), gs[n], SumEntries(gs), d);
      hide SumCells, SumEntries, Upper, Total;
    }
  }

  lemma SumCellsStep(fs: seq<(nat, nat) -> int>)
    requires |fs| > 0
    ensures var n := |fs| - 1;
      forall i: nat, j: nat :: SumCells(fs)(i, j) == SumCells(fs[..n])(i, j) + fs[n](i, j)
  {
    var n := |fs| - 1;
    forall i: nat, j: nat
      ensures SumCells(fs)(i, j) == SumCells(fs[..n])(i, j) + fs[n](i, j)
    {
      var all := seq(|fs|, p requires 0 <= p < |fs| => fs[p](i, j));
      assert all[..n] == seq(n, p requires 0 <= p < n => fs[..n][p](i, j));
    }
  }

  lemma SumEntriesStep(gs: seq<nat -> int>)
    requires |gs| > 0
    ensures var n := |gs| - 1;
      forall i: nat :: SumEntries(gs)(i) == SumEntries(gs[..n])(i) + gs[n](i)
  {
    var n := |gs| - 1;
    forall i: nat
      ensures SumEntries(gs)(i) == SumEntries(gs[..n])(i) + gs[n](i)
    {
      var all := seq(|gs|, p requires 0 <= p < |gs| => gs[p](i));
      assert all[..n] == seq(n, p requires 0 <= p < n => gs[..n][p](i));
    }
  }

  /** The parties' shares reconstruct to factor times the Gram entries weighted by the coefficients. */
  ghost predicate HoldGram(y2s: seq<int>, fs: seq<(nat, nat) -> int>, gs: seq<nat -> int>, factor: int,
                           data: seq<Sample>, beta: nat -> int, d: nat, m: int) {
    && m > 0 && |y2s| == |fs| == |gs|
    && Cong(Sum(y2s), factor * SumYY(data), m)
    && (forall i: nat, j: nat :: i <= j < d ==>
         Cong(SumCells(fs)(i, j), factor * BetaXX(data, beta)(i, j), m))
    && (forall i: nat :: i < d ==> Cong(SumEntries(gs)(i), factor * BetaXY(data, beta)(i), m))
  }

  lemma {:induction false} UpperScaled(f: (nat, nat) -> int, h: (nat, nat) -> int, factor: int, d: nat, i: nat)
    requires forall a: nat, b: nat :: h(a, b) == factor * f(a, b)
    ensures Upper(h, d, i) == factor * Upper(f, d, i)
  {
    if i > 0 {
      UpperScaled(f, h, factor, d, i - 1);
      UpperRowScaled(f, h, factor, i - 1, d);
      Spread(factor, Upper(f, d, i - 1), UpperRow(f, i - 1, d));
    }
  }

  lemma {:induction false} UpperRowScaled(f: (nat, nat) -> int, h: (nat, nat) -> int, factor: int, i: nat, j: nat)
    requires forall a: nat, b: nat :: h(a, b) == factor * f(a, b)
    ensures UpperRow(h, i, j) == factor * UpperRow(f, i, j)
  {
    if j > i {
      UpperRowScaled(f, h, factor, i, j - 1);
      assert h(i, j - 1) == factor * f(i, j - 1);
      Spread(factor, UpperRow(f, i, j - 1), Weight(i, j - 1) * f(i, j - 1));
      assert Weight(i, j - 1) * (factor * f(i, j - 1)) == factor * (Weight(i, j - 1) * f(i, j - 1));
    }
  }

  lemma {:induction false} TotalScaled(g: nat -> int, h: nat -> int, factor: int, d: nat)
    requires forall a: nat :: h(a) == factor * g(a)
    ensures Total(h, d) == factor * Total(g, d)
  {
    if d > 0 {
      TotalScaled(g, h, factor, d - 1);
      Spread(factor, Total(g, d - 1), g(d - 1));
    }
  }

  lemma FormScaled(y2: int, f: (nat, nat) -> int, g: nat -> int, factor: int, d: nat)
    ensures Form(factor * y2, (i: nat, j: nat) => factor * f(i, j), (i: nat) => factor * g(i), d)
            == factor * Form(y2, f, g, d)
  {
    UpperScaled(f, (i: nat, j: nat) => factor * f(i, j), factor, d, d);
    TotalScaled(g, (i: nat) => factor * g(i), factor, d);
    SpreadForm(factor, y2, Upper(f, d, d), Total(g, d));
  }

  lemma SpreadForm(factor: int, a: int, b: int, c: int)
    ensures factor * a + factor * b - 2 * (factor * c) == factor * (a + b - 2 * c)
  {
  }

  lemma FormCong(y2: int, f: (nat, nat) -> int, g: nat -> int, y2': int, f': (nat, nat) -> int, g': nat -> int,
                 d: nat, m: int)
    requires m > 0 && Cong(y2, y2', m)
    requires forall i: nat, j: nat :: i <= j < d ==> Cong(f(i, j), f'(i, j), m)
    requires forall i: nat :: i < d ==> Cong(g(i), g'(i), m)
    ensures Cong(Form(y2, f, g, d), Form(y2', f', g', d), m)
  {
    UpperCong(f, f', d, d, m);
    TotalCong(g, g', d, m);
    CongAdd(y2, y2', Upper(f, d, d), Upper(f', d, d), m);
    CongScale(Total(g, d), Total(g', d), 2, m);
    CongSub(y2 + Upper(f, d, d), y2' + Upper(f', d, d), 2 * Total(g, d), 2 * Total(g', d), m);
    hide Cong, Upper, Total;
  }

  /** The reconstructed form is the (scaled) sum of squared residuals, although only the upper triangle is read. */
  lemma ReconstructedError(y2s: seq<int>, fs: seq<(nat, nat) -> int>, gs: seq<nat -> int>, numers: seq<int>,
                           factor: int, data: seq<Sample>, beta: nat -> int, d: nat, m: int)
    requires HoldGram(y2s, fs, gs, factor, data, beta, d, m) && |numers| == |y2s|
    requires forall p :: 0 <= p < |numers| ==> Cong(numers[p], Form(y2s[p], fs[p], gs[p], d), m)
    ensures Cong(Sum(numers), factor * SquaredError(data, beta, d), m)
  {
    var forms := seq(|numers|, p requires 0 <= p < |numers| => Form(y2s[p], fs[p], gs[p], d));
    hide Form, Cong, Upper, Total, SquaredError;
    SumCong(numers, forms, m);
    FormOfSums(y2s, fs, gs, forms, d);
    FormCong(Sum(y2s), SumCells(fs), SumEntries(gs), factor * SumYY(data),
             (i: nat, j: nat) => factor * BetaXX(data, beta)(i, j), (i: nat) => factor * BetaXY(data, beta)(i), d, m);
    FormScaled(SumYY(data), BetaXX(data, beta), BetaXY(data, beta), factor, d);
    FormIsSquaredError(data, beta, d);
    CongTrans(Sum(numers), Sum(forms), factor * SquaredError(data, beta, d), m);
  }

  lemma CongTrans(a: int, b: int, c: int, m: int)
    requires m > 0 && Cong(a, b, m) && Cong(b, c, m)
    ensures Cong(a, c, m)
  {
  }

  // ----- all parties together

  /** The shares the parties hold, column by column. */
  datatype Columns = Columns(ySquared: seq<int>, xx: seq<(nat, nat) -> int>, xy: seq<nat -> int>, one: seq<int>,
                             ySquaredN: seq<int>, xxN: seq<(nat, nat) -> int>, xyN: seq<nat -> int>,
                             ySumThenSquared: seq<int>)

  function ColumnsOf(parties: seq<ErrorTerms>): Columns {
    var n := |parties|;
    Columns(
      seq(n, p requires 0 <= p < n => parties[p].ySquaredShare),
      seq(n, p requires 0 <= p < n => Cells(parties[p].betaBetaXX, parties[p].d)),
      seq(n, p requires 0 <= p < n => Entries(parties[p].betaXY)),
      seq(n, p requires 0 <= p < n => parties[p].oneShare),
      seq(n, p requires 0 <= p < n => parties[p].ySquaredN),
      seq(n, p requires 0 <= p < n => Cells(parties[p].betaBetaXXN, parties[p].d)),
      seq(n, p requires 0 <= p < n => Entries(parties[p].betaXYN)),
      seq(n, p requires 0 <= p < n => parties[p].ySumThenSquared))
  }

  /** The results of all parties. */
  datatype Results = Results(numerMSE: seq<int>, denomMSE: seq<int>, numerRSquared: seq<int>,
                             denomRSquared: seq<int>, denomF: seq<int>)

  function ResultsOf(parties: seq<ErrorTerms>): Results
    reads parties
  {
    var n := |parties|;
    Results(
      seq(n, p requires 0 <= p < n reads parties => parties[p].numerMSE),
      seq(n, p requires 0 <= p < n reads parties => parties[p].denomMSE),
      seq(n, p requires 0 <= p < n reads parties => parties[p].numerRSquared),
      seq(n, p requires 0 <= p < n reads parties => parties[p].denomRSquared),
      seq(n, p requires 0 <= p < n reads parties => parties[p].denomFStatistic))
  }

  ghost predicate SameRun(parties: seq<ErrorTerms>, d: nat, m: nat, fit: bool) {
    && m > 0 && |parties| >= 1
    && forall p :: 0 <= p < |parties| ==>
         && parties[p].Valid() && parties[p].d == d && parties[p].modulus == m && parties[p].fitIntercept == fit
         && (parties[p].isRevealer <==> p == 0)
  }

  /** What ideal multiplication left in the parties' hands, for k observations. */
  ghost predicate Inputs(c: Columns, data: seq<Sample>, beta: nat -> int, d: nat, m: nat) {
    && HoldGram(c.ySquared, c.xx, c.xy, 1, data, beta, d, m)
    && HoldGram(c.ySquaredN, c.xxN, c.xyN, |data|, data, beta, d, m)
    && Cong(Sum(c.one), |data|, m) && Cong(Sum(c.ySumThenSquared), SumY(data) * SumY(data), m)
  }

  /** n * (sum of y squared), less the square of the sum of y when an intercept is fitted. */
  function TotalVariation(data: seq<Sample>, fit: bool): int {
    |data| * SumYY(data) - if fit then SumY(data) * SumY(data) else 0
  }

  /** How far every y, times n, is from s: the sum of the squares. */
  function Deviations(data: seq<Sample>, n: int, s: int): int {
    if |data| == 0 then 0 else
    Deviations(data[..|data| - 1], n, s) + (n * data[|data| - 1].y - s) * (n * data[|data| - 1].y - s)
  }

  lemma {:induction false} DeviationsExpanded(data: seq<Sample>, n: int, s: int)
    ensures Deviations(data, n, s) == n * n * SumYY(data) - 2 * (n * s * SumY(data)) + |data| * (s * s)
  {
    if |data| > 0 {
      var most, y := data[..|data| - 1], data[|data| - 1].y;
      DeviationsExpanded(most, n, s);
      OneDeviation(n, y, s);
      Spread(n * n, SumYY(most), y * y);
      Spread(n * s, SumY(most), y);
      Spread(s * s, |most|, 1);
    }
  }

  lemma OneDeviation(n: int, y: int, s: int)
    ensures (n * y - s) * (n * y - s) == n * n * (y * y) - 2 * (n * s * y) + s * s
  {
    var p := n * y;
    assert p * p == n * n * (y * y) by {
      SwapFactors(n, n, y, y);
    }
    assert p * s == n * s * y;
    assert (p - s) * (p - s) == p * p - 2 * (p * s) + s * s;
  }

  /** With an intercept, n times the total variation is the sum of the squared deviations of n * y from the sum of y. */
  lemma VariationIsDeviations(data: seq<Sample>)
    ensures |data| * TotalVariation(data, true) == Deviations(data, |data|, SumY(data))
  {
    var n, s, q := |data|, SumY(data), SumYY(data);
    DeviationsExpanded(data, n, s);
    hide SumY, SumYY, Deviations;
    VariationAlgebra(n, s, q);
  }

  lemma VariationAlgebra(n: int, s: int, q: int)
    ensures n * (n * q - s * s) == n * n * q - 2 * (n * s * s) + n * (s * s)
  {
    assert n * (n * q) == n * n * q;
    assert n * s * s == n * (s * s);
    assert n * (n * q - s * s) == n * (n * q) - n * (s * s);
  }

  lemma AllNumerators(parties: seq<ErrorTerms>, data: seq<Sample>, beta: nat -> int, d: nat, m: nat,
                      fit: bool)
    requires SameRun(parties, d, m, fit) && Inputs(ColumnsOf(parties), data, beta, d, m)
    requires forall p :: 0 <= p < |parties| ==> parties[p].Computed()
    ensures Cong(Sum(ResultsOf(parties).numerMSE), SquaredError(data, beta, d), m)
  {
    var c, r := ColumnsOf(parties), ResultsOf(parties);
    hide Form, SquaredError, HoldGram, Sum, Cong, Cells, Entries;
    ReconstructedError(c.ySquared, c.xx, c.xy, r.numerMSE, 1, data, beta, d, m);
    assert 1 * SquaredError(data, beta, d) == SquaredError(data, beta, d);
  }

  lemma {:induction false} DenominatorSum(ones: seq<int>, denoms: seq<int>, d: nat, m: nat)
    requires m > 0 && |ones| == |denoms| >= 1
    requires forall p :: 0 <= p < |ones| ==> Cong(denoms[p], if p == 0 then ones[p] - d else ones[p], m)
    ensures Cong(Sum(denoms), Sum(ones) - d, m)
  {
    var exact := ones[0 := ones[0] - d];
    SumCong(denoms, exact, m);
    SumUpdate(ones, 0, ones[0] - d);
  }

  lemma {:induction false} DifferenceSum(a: seq<int>, b: seq<int>, c: seq<int>, m: nat)
    requires m > 0 && |a| == |b| == |c| && forall p :: 0 <= p < |c| ==> Cong(c[p], a[p] - b[p], m)
    ensures Cong(Sum(c), Sum(a) - Sum(b), m)
  {
    var exact := seq(|c|, p requires 0 <= p < |c| => a[p] + (-1) * b[p]);
    SumLinear(a, b, exact, -1);
    SumCong(c, exact, m);
  }

  lemma {:induction false} ProductSum(a: seq<int>, c: seq<int>, factor: nat, m: nat)
    requires m > 0 && |a| == |c| && forall p :: 0 <= p < |c| ==> Cong(c[p], a[p] * factor, m)
    ensures Cong(Sum(c), Sum(a) * factor, m)
  {
    var zeros, exact := seq(|c|, _ => 0), seq(|c|, p requires 0 <= p < |c| => 0 + factor * a[p]);
    SumZeros(zeros);
    SumLinear(zeros, a, exact, factor);
    SumCong(c, exact, m);
    assert factor * Sum(a) == Sum(a) * factor;
  }

  /** The shares of n * (sum of squared errors) that each party holds before the last subtraction. */
  function ScaledErrors(parties: seq<ErrorTerms>): (shares: seq<int>)
    ensures |shares| == |parties|
  {
    seq(|parties|, p requires 0 <= p < |parties| =>
      Form(parties[p].ySquaredN, Cells(parties[p].betaBetaXXN, parties[p].d), Entries(parties[p].betaXYN),
           parties[p].d))
  }

  function Denominators(parties: seq<ErrorTerms>): (shares: seq<int>)
    ensures |shares| == |parties|
  {
    seq(|parties|, p requires 0 <= p < |parties| =>
      if parties[p].fitIntercept then parties[p].ySquaredN - parties[p].ySumThenSquared
      else parties[p].ySquaredN as int)
  }

  lemma ScaledErrorsSum(parties: seq<ErrorTerms>, data: seq<Sample>, beta: nat -> int, d: nat, m: nat,
                        fit: bool)
    requires SameRun(parties, d, m, fit) && Inputs(ColumnsOf(parties), data, beta, d, m)
    ensures Cong(Sum(ScaledErrors(parties)), |data| * SquaredError(data, beta, d), m)
  {
    var c := ColumnsOf(parties);
    hide Form, SquaredError, HoldGram, Sum, Cells, Entries;
    ReconstructedError(c.ySquaredN, c.xxN, c.xyN, ScaledErrors(parties), |data|, data, beta, d, m);
  }

  lemma DenominatorsSum(parties: seq<ErrorTerms>, data: seq<Sample>, beta: nat -> int, d: nat, m: nat,
                        fit: bool)
    requires SameRun(parties, d, m, fit) && Inputs(ColumnsOf(parties), data, beta, d, m)
    ensures Cong(Sum(Denominators(parties)), TotalVariation(data, fit), m)
  {
    var c := ColumnsOf(parties);
    assert Cong(Sum(c.ySquaredN), |data| * SumYY(data), m);
    if fit {
      var exact := seq(|parties|, p requires 0 <= p < |parties| => c.ySquaredN[p] + (-1) * c.ySumThenSquared[p]);
      SumLinear(c.ySquaredN, c.ySumThenSquared, exact, -1);
      assert Denominators(parties) == exact;
      CongSub(Sum(c.ySquaredN), |data| * SumYY(data), Sum(c.ySumThenSquared), SumY(data) * SumY(data), m);
    } else {
      assert Denominators(parties) == c.ySquaredN;
    }
  }

  /**
   Reconstructed over all parties: the mean-square numerator is the sum of squared residuals, its
   denominator the observations less the coefficients, and the R-squared numerator its denominator
   less n times the squared residuals.
   */
  lemma AllErrorTerms(parties: seq<ErrorTerms>, data: seq<Sample>, beta: nat -> int, d: nat, m: nat,
                      fit: bool)
    requires SameRun(parties, d, m, fit) && Inputs(ColumnsOf(parties), data, beta, d, m)
    requires forall p :: 0 <= p < |parties| ==> parties[p].Computed()
    ensures var r, error := ResultsOf(parties), SquaredError(data, beta, d);
      && Cong(Sum(r.numerMSE), error, m)
      && Cong(Sum(r.denomMSE), |data| - d, m)
      && Cong(Sum(r.denomRSquared), TotalVariation(data, fit), m)
      && Cong(Sum(r.numerRSquared), TotalVariation(data, fit) - |data| * error, m)
      && Cong(Sum(r.denomF), |data| * error * d, m)
  {
    AllNumerators(parties, data, beta, d, m, fit);
    AllDenominators(parties, data, beta, d, m, fit);
    AllRSquared(parties, data, beta, d, m, fit);
    hide *;
  }

  lemma AllDenominators(parties: seq<ErrorTerms>, data: seq<Sample>, beta: nat -> int, d: nat, m: nat,
                        fit: bool)
    requires SameRun(parties, d, m, fit) && Inputs(ColumnsOf(parties), data, beta, d, m)
    requires forall p :: 0 <= p < |parties| ==> parties[p].Computed()
    ensures Cong(Sum(ResultsOf(parties).denomMSE), |data| - d, m)
  {
    var c, r := ColumnsOf(parties), ResultsOf(parties);
    hide Form, HoldGram, Sum, Cong, Cells, Entries;
    DenominatorSum(c.one, r.denomMSE, d, m);
    Itself(d, m);
    CongSub(Sum(c.one), |data|, d, d, m);
    CongTrans(Sum(r.denomMSE), Sum(c.one) - d, |data| - d, m);
  }

  lemma AllRSquared(parties: seq<ErrorTerms>, data: seq<Sample>, beta: nat -> int, d: nat, m: nat,
                    fit: bool)
    requires SameRun(parties, d, m, fit) && Inputs(ColumnsOf(parties), data, beta, d, m)
    requires forall p :: 0 <= p < |parties| ==> parties[p].Computed()
    ensures var r, error := ResultsOf(parties), SquaredError(data, beta, d);
      && Cong(Sum(r.denomRSquared), TotalVariation(data, fit), m)
      && Cong(Sum(r.numerRSquared), TotalVariation(data, fit) - |data| * error, m)
      && Cong(Sum(r.denomF), |data| * error * d, m)
  {
    hide *;
    var r := ResultsOf(parties);
    ScaledErrorsSum(parties, data, beta, d, m, fit);
    DenominatorsSum(parties, data, beta, d, m, fit);
    ResultShares(parties, d, m, fit);
    Conclude(ScaledErrors(parties), Denominators(parties), r.denomRSquared, r.numerRSquared, r.denomF,
             |data| * SquaredError(data, beta, d), TotalVariation(data, fit), d, m);
  }

  lemma Conclude(errors: seq<int>, denoms: seq<int>, denomR: seq<int>, numerR: seq<int>, denomF: seq<int>,
                 error: int, total: int, d: nat, m: nat)
    requires m > 0 && |errors| == |denoms| == |denomR| == |numerR| == |denomF|
    requires Cong(Sum(errors), error, m) && Cong(Sum(denoms), total, m)
    requires forall p :: 0 <= p < |errors| ==> Cong(denomR[p], denoms[p], m)
    requires forall p :: 0 <= p < |errors| ==> Cong(numerR[p], denoms[p] - errors[p], m)
    requires forall p :: 0 <= p < |errors| ==> Cong(denomF[p], errors[p] * d, m)
    ensures Cong(Sum(denomR), total, m) && Cong(Sum(numerR), total - error, m) && Cong(Sum(denomF), error * d, m)
  {
    hide *;
    SumCong(denomR, denoms, m);
    CongTrans(Sum(denomR), Sum(denoms), total, m);
    ConcludeDifference(errors, denoms, numerR, error, total, m);
    ConcludeProduct(errors, denomF, error, d, m);
  }

  lemma ConcludeDifference(errors: seq<int>, denoms: seq<int>, numerR: seq<int>, error: int, total: int, m: nat)
    requires m > 0 && |errors| == |denoms| == |numerR|
    requires Cong(Sum(errors), error, m) && Cong(Sum(denoms), total, m)
    requires forall p :: 0 <= p < |errors| ==> Cong(numerR[p], denoms[p] - errors[p], m)
    ensures Cong(Sum(numerR), total - error, m)
  {
    hide *;
    DifferenceSum(denoms, errors, numerR, m);
    CongSub(Sum(denoms), total, Sum(errors), error, m);
    CongTrans(Sum(numerR), Sum(denoms) - Sum(errors), total - error, m);
  }

  lemma ConcludeProduct(errors: seq<int>, denomF: seq<int>, error: int, d: nat, m: nat)
    requires m > 0 && |errors| == |denomF| && Cong(Sum(errors), error, m)
    requires forall p :: 0 <= p < |errors| ==> Cong(denomF[p], errors[p] * d, m)
    ensures Cong(Sum(denomF), error * d, m)
  {
    hide *;
    ProductSum(errors, denomF, d, m);
    CongScale(Sum(errors), error, d, m);
    CongTrans(Sum(denomF), Sum(errors) * d, error * d, m);
  }

  lemma ResultShares(parties: seq<ErrorTerms>, d: nat, m: nat, fit: bool)
    requires SameRun(parties, d, m, fit)
    requires forall p :: 0 <= p < |parties| ==> parties[p].Computed()
    ensures var r := ResultsOf(parties);
      && m > 0 && |r.denomRSquared| == |r.numerRSquared| == |r.denomF| == |parties|
      && (forall p :: 0 <= p < |parties| ==> Cong(r.denomRSquared[p], Denominators(parties)[p], m))
      && (forall p :: 0 <= p < |parties| ==>
           Cong(r.numerRSquared[p], Denominators(parties)[p] - ScaledErrors(parties)[p], m))
      && (forall p :: 0 <= p < |parties| ==> Cong(r.denomF[p], ScaledErrors(parties)[p] * d, m))
  {
    hide Form, Cong, Cells, Entries;
  }
}
