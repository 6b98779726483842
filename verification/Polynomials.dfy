/** Integer polynomials, constant term first, as the exact counterpart of the coefficients modulo s. */
module Polynomials {
  import opened Modular

  type Poly = seq<int>

  /** Horner evaluation. */
  function Eval(c: Poly, x: int): int {
    if |c| == 0 then 0 else c[0] + x * Eval(c[1..], x)
  }

  /** Coefficient k, zero outside the polynomial. */
  function Coeff(c: Poly, k: int): int {
    if 0 <= k < |c| then c[k] else 0
  }

  /** The product with (x - a). */
  function MulLinear(c: Poly, a: int): (d: Poly)
    ensures |d| == |c| + 1
  {
    seq(|c| + 1, k => Coeff(c, k - 1) - a * Coeff(c, k))
  }

  /** (x - 1)(x - 2)...(x - m), without the factor (x - skip). */
  function RootProduct(m: nat, skip: nat): (c: Poly)
    ensures |c| == if 1 <= skip <= m then m else m + 1
  {
    if m == 0 then [1]
    else if m == skip then RootProduct(m - 1, skip)
    else MulLinear(RootProduct(m - 1, skip), m)
  }

  /** The product of (x - k) over k = 1..m, k != x. */
  function Differences(m: nat, x: int): int {
    if m == 0 then 1
    else if m == x then Differences(m - 1, x)
    else Differences(m - 1, x) * (x - m)
  }

  lemma {:induction false} EvalShiftHead(d: Poly, v: int, x: int)
    requires |d| > 0
    ensures Eval(d[0 := d[0] + v], x) == Eval(d, x) + v
  {
    assert d[0 := d[0] + v][1..] == d[1..];
  }

  /** Splitting off the constant term. */
  lemma MulLinearCons(c: Poly, a: int)
    requires |c| > 0
    ensures MulLinear(c, a)[0] == -a * c[0]
    ensures MulLinear(c, a)[1..] == MulLinear(c[1..], a)[0 := MulLinear(c[1..], a)[0] + c[0]]
  {
    var left, right := MulLinear(c, a)[1..], MulLinear(c[1..], a)[0 := MulLinear(c[1..], a)[0] + c[0]];
    assert |left| == |right|;
    forall k | 0 <= k < |left|
      ensures left[k] == right[k]
    {
      assert left[k] == MulLinear(c, a)[k + 1];
    }
  }

  /** Multiplying by (x - a) multiplies every value by it. */
  lemma {:induction false} EvalMulLinear(c: Poly, a: int, x: int)
    ensures Eval(MulLinear(c, a), x) == Eval(c, x) * (x - a)
  {
    if |c| == 0 {
      assert MulLinear(c, a) == [0];
      assert Eval([0], x) == 0 + x * Eval([], x);
    } else {
      EvalMulLinear(c[1..], a, x);
      EvalShiftHead(MulLinear(c[1..], a), c[0], x);
      MulLinearCons(c, a);
      HornerStep(c[0], Eval(c[1..], x), a, x);
      hide MulLinear;
    }
  }

  lemma HornerStep(c: int, e: int, a: int, x: int)
    ensures -a * c + x * (e * (x - a) + c) == (c + x * e) * (x - a)
  {
    assert x * (e * (x - a) + c) == (x * e) * (x - a) + x * c;
    assert (c + x * e) * (x - a) == c * (x - a) + (x * e) * (x - a);
  }

  /** Linear factors may be multiplied in either order. */
  lemma MulLinearCommutes(c: Poly, a: int, b: int)
    ensures MulLinear(MulLinear(c, a), b) == MulLinear(MulLinear(c, b), a)
  {
    forall k | 0 <= k < |c| + 2
      ensures MulLinear(MulLinear(c, a), b)[k] == MulLinear(MulLinear(c, b), a)[k]
    {
      CoeffTwice(c, a, b, k);
      CoeffTwice(c, b, a, k);
      hide *;
    }
  }

  lemma CoeffTwice(c: Poly, a: int, b: int, k: int)
    requires 0 <= k < |c| + 2
    ensures MulLinear(MulLinear(c, a), b)[k]
            == Coeff(c, k - 2) - (a + b) * Coeff(c, k - 1) + (a * b) * Coeff(c, k)
  {
    CoeffMulLinear(MulLinear(c, a), b, k);
    CoeffMulLinear(c, a, k);
    CoeffMulLinear(c, a, k - 1);
    SwapRoots(Coeff(c, k - 2), Coeff(c, k - 1), Coeff(c, k), a, b);
    hide MulLinear;
  }

  lemma SwapRoots(u: int, v: int, w: int, a: int, b: int)
    ensures u - a * v - b * (v - a * w) == u - (a + b) * v + (a * b) * w
  {
    assert b * (v - a * w) == b * v - (a * b) * w;
  }

  lemma CoeffMulLinear(c: Poly, a: int, k: int)
    ensures Coeff(MulLinear(c, a), k) == Coeff(c, k - 1) - a * Coeff(c, k)
  {
  }

  lemma {:induction false} RootProductSkipsBeyond(m: nat, skip: nat)
    requires skip > m
    ensures RootProduct(m, skip) == RootProduct(m, 0)
  {
    if m > 0 {
      RootProductSkipsBeyond(m - 1, skip);
    }
  }

  /** The skipped factor completes the product. */
  lemma {:induction false} RestoreFactor(m: nat, i: nat)
    requires 1 <= i <= m
    ensures MulLinear(RootProduct(m, i), i) == RootProduct(m, 0)
  {
    if m == i {
      RootProductSkipsBeyond(m - 1, i);
    } else {
      RestoreFactor(m - 1, i);
      MulLinearCommutes(RootProduct(m - 1, i), m, i);
    }
  }

  lemma {:induction false} RootProductMonic(m: nat, skip: nat)
    ensures var c := RootProduct(m, skip); |c| > 0 && c[|c| - 1] == 1
  {
    if m > 0 {
      RootProductMonic(m - 1, skip);
    }
  }

  /** Every kept root is a root. */
  lemma {:induction false} RootProductVanishes(m: nat, skip: nat, x: nat)
    requires 1 <= x <= m && x != skip
    ensures Eval(RootProduct(m, skip), x) == 0
  {
    hide MulLinear, Eval;
    if m == skip {
      RootProductVanishes(m - 1, skip, x);
    } else {
      EvalMulLinear(RootProduct(m - 1, skip), m, x);
      if m != x {
        RootProductVanishes(m - 1, skip, x);
      }
    }
  }

  /** At the skipped root the product is the product of the differences. */
  lemma {:induction false} RootProductAtSkip(m: nat, skip: nat)
    ensures Eval(RootProduct(m, skip), skip) == Differences(m, skip)
  {
    if m == 0 {
      assert Eval([1], skip) == 1 + skip * Eval([], skip);
    } else {
      RootProductAtSkip(m - 1, skip);
      if m != skip {
        EvalMulLinear(RootProduct(m - 1, skip), m, skip);
      }
    }
  }

  /** Modulo a prime above all the points, the product of the differences is a unit. */
  lemma {:induction false} DifferencesNonzero(m: nat, x: nat, p: int)
    requires Prime(p) && m < p && x < p
    ensures Differences(m, x) % p != 0
  {
    if m == 0 {
      SmallMod(1, p);
    } else {
      DifferencesNonzero(m - 1, x, p);
      if m != x {
        if Differences(m, x) % p == 0 {
          NoZeroDivisors(Differences(m - 1, x), x - m, p);
          var k := Difference(x - m, 0, p);
          OnlyZeroIsSmall(k, p);
        }
      }
    }
  }

  // ----- congruent polynomials

  ghost predicate CongPoly(c: Poly, d: Poly, m: int)
    requires m > 0
  {
    |c| == |d| && forall k :: 0 <= k < |c| ==> Cong(c[k], d[k], m)
  }

  /** f + w * r, coefficient by coefficient modulo m, has the value of f plus w times that of r. */
  lemma {:induction false} EvalCombination(f: Poly, r: Poly, w: int, g: Poly, x: int, m: int)
    requires m > 0 && |f| == |r| == |g|
    requires forall k :: 0 <= k < |f| ==> Cong(g[k], f[k] + w * r[k], m)
    ensures Cong(Eval(g, x), Eval(f, x) + w * Eval(r, x), m)
  {
    if |f| > 0 {
      EvalCombination(f[1..], r[1..], w, g[1..], x, m);
      var ef, er, eg := Eval(f[1..], x), Eval(r[1..], x), Eval(g[1..], x);
      CongScale(eg, ef + w * er, x, m);
      CongAdd(g[0], f[0] + w * r[0], x * eg, x * (ef + w * er), m);
      CombineHorner(f[0], r[0], ef, er, w, x);
    }
  }

  lemma CombineHorner(f: int, r: int, ef: int, er: int, w: int, x: int)
    ensures f + w * r + x * (ef + w * er) == (f + x * ef) + w * (r + x * er)
  {
    assert x * (ef + w * er) == x * ef + w * (x * er);
    assert w * (r + x * er) == w * r + w * (x * er);
  }
}
