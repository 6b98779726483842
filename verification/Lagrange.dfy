/** The Lagrange polynomial of prefix-or, on wrapping 32-bit coefficients. */
module Lagrange {
  import opened Modular
  import opened Polynomials
  import opened Words


  /** The result of a 32-bit operation. */
  function U32(x: int): nat {
    x % WORD32
  }

  lemma ProductBound(a: nat, x: nat, top: nat)
    requires a <= top && x <= top
    ensures a * x <= top * top
  {
    assert a * x <= top * x;
  }

  /** For moduli up to 65536 no product plus sum of residues wraps. */
  lemma NoWrap(a: nat, x: nat, y: nat, s: nat)
    requires a < s && x < s && y < s && s <= 65536
    ensures a * x + y < WORD32 && U32(a * x) == a * x && U32(U32(a * x) + y) == a * x + y
  {
    ProductBound(a, x, 65535);
    var product := a * x;
    assert product <= 65535 * 65535;
    SmallMod(product, WORD32);
    SmallMod(product + y, WORD32);
  }

  /** One past the bound the scaling step does wrap: it stores 0 for the residue 1. */
  lemma BoundIsSharp()
    ensures U32(65536 * 65536) % 65537 == 0
    ensures (65536 * 65536) % 65537 == 1
  {
  }

  /** Residues stored in the array, coefficient by coefficient congruent to a polynomial. */
  ghost predicate Represents(c: seq<nat>, d: Poly, s: nat) {
    s > 0 && |c| == |d| && forall k :: 0 <= k < |c| ==> c[k] < s && Cong(c[k], d[k], s)
  }

  lemma AddModulus(a: int, s: nat)
    requires s > 0
    ensures Cong(s + a, a, s)
  {
    AddMultiple(a, 1, s);
  }

  lemma NegatedTerm(s: nat, i: nat, c: nat, d: int)
    requires s > 0 && i < s && Cong(c, d, s)
    ensures Cong((s - i) * c, 0 - i * d, s)
  {
    hide Cong;
    var minus := 0 - i;
    AddModulus(minus, s);
    CongMul(s - i, minus, c, d, s);
    assert minus * d == 0 - i * d;
  }

  lemma NegatedRoot(s: nat, i: nat, c: nat, below: nat, d: int, dBelow: int)
    requires 0 < i < s && Cong(c, d, s) && Cong(below, dBelow, s)
    ensures Cong(((s - i) * c + below) % s, dBelow - i * d, s)
  {
    NegatedTerm(s, i, c, d);
    var term := (s - i) * c;
    CongAdd(term, 0 - i * d, below, dBelow, s);
    CongMod(term + below, s);
  }

  // ----- the product of all linear factors

  /**
   What coefficient k should be while factor (x - i) is multiplied in from the top down to j:
   the new product from j on, the old one below, and the ones of the initial fill above.
   */
  function Expected(i: nat, j: nat, k: nat): int
    requires i >= 1
  {
    if k >= i then 1
    else if k >= j then RootProduct(i, 0)[k]
    else RootProduct(i - 1, 0)[k]
  }

  ghost predicate Progress(c: seq<nat>, s: nat, ell: nat, i: nat, j: nat) {
    s > 0 && |c| == ell + 2 && 2 <= i <= ell + 2 && j <= i
    && forall k :: 0 <= k < |c| ==> c[k] < s && Cong(c[k], Expected(i, j, k), s)
  }

  lemma ProgressStart(c: seq<nat>, s: nat, ell: nat)
    requires 1 < s && |c| == ell + 2 && c[0] == s - 1 && forall k :: 1 <= k < |c| ==> c[k] == 1
    ensures Progress(c, s, ell, 2, 2)
  {
    AddMultiple(-1, 1, s);
    assert RootProduct(0, 0) == [1];
    assert RootProduct(1, 0) == MulLinear([1], 1) == [-1, 1];
  }

  lemma ProgressStep(c: seq<nat>, s: nat, ell: nat, i: nat, j: nat)
    requires Progress(c, s, ell, i, j + 1) && j < i < s
    ensures var below := if j == 0 then 0 else c[j - 1];
            Progress(c[j := ((s - i) * c[j] + below) % s], s, ell, i, j)
  {
    var below := if j == 0 then 0 else c[j - 1];
    var d := RootProduct(i - 1, 0);
    assert RootProduct(i, 0)[j] == Coeff(d, j - 1) - i * Coeff(d, j);
    NegatedRoot(s, i, c[j], below, d[j], Coeff(d, j - 1));
    hide RootProduct, MulLinear;
  }

  lemma ProgressNext(c: seq<nat>, s: nat, ell: nat, i: nat)
    requires Progress(c, s, ell, i, 0) && i < ell + 2
    ensures Progress(c, s, ell, i + 1, i + 1)
  {
    RootProductMonic(i, 0);
    hide RootProduct;
  }

  lemma ProgressDone(c: seq<nat>, s: nat, ell: nat)
    requires Progress(c, s, ell, ell + 2, ell + 2)
    ensures Represents(c, RootProduct(ell + 1, 0), s)
  {
    hide RootProduct;
  }

  lemma SmallWord(x: nat)
    requires x <= 0xFFFF
    ensures U32(x) == x
  {
  }

  /** The new coefficient, each 32-bit operation and the final reduction. */
  function UpdatedCoefficient(s: nat, i: nat, c: nat, below: nat): nat
    requires 0 < s
  {
    U32(U32(U32(s - i) * c) + below) % s
  }

  lemma UpdateExact(s: nat, i: nat, c: nat, below: nat)
    requires 0 < i < s <= 65536 && c < s && below < s
    ensures UpdatedCoefficient(s, i, c, below) == ((s - i) * c + below) % s
    ensures U32(c * U32(s - i)) % s == ((s - i) * c) % s
  {
    SmallMod(s - i, WORD32);
    NoWrap(s - i, c, below, s);
    assert c * (s - i) == (s - i) * c;
  }

  /** One coefficient of the in-place update. */
  method UpdateCoefficient(coeffs: array<nat>, s: nat, ghost ell: nat, i: nat, j: nat)
    requires Progress(coeffs[..], s, ell, i, j + 1) && j < i < s <= 65536
    modifies coeffs
    ensures Progress(coeffs[..], s, ell, i, j)
  {
    ghost var was := coeffs[..];
    ghost var below := if j == 0 then 0 else was[j - 1];
    assert was[j] < s && below < s;
    UpdateExact(s, i, was[j], below);
    ProgressStep(was, s, ell, i, j);
    hide Progress, U32, UpdatedCoefficient;
    ghost var v := ((s - i) * was[j] + below) % s;
    if j == 0 {
      coeffs[0] := U32(coeffs[0] * U32(s - i)) % s;
    } else {
      coeffs[j] := UpdatedCoefficient(s, i, coeffs[j], coeffs[j - 1]);
    }
    assert coeffs[..] == was[j := v];
  }

  /** computeProductOneToEllPlusOne: the monic product (x - 1)...(x - (ell + 1)) modulo s. */
  method ProductOneToEllPlusOne(s: nat, ell: nat) returns (coeffs: array<nat>)
    requires ell + 1 < s <= 65536
    ensures fresh(coeffs) && Represents(coeffs[..], RootProduct(ell + 1, 0), s)
  {
    hide *;
    SmallWord(s - 1);
    coeffs := new nat[ell + 2](_ => 1);
    coeffs[0] := U32(s - 1);
    ProgressStart(coeffs[..], s, ell);
    for i := 2 to ell + 2
      invariant fresh(coeffs) && Progress(coeffs[..], s, ell, i, i)
    {
      for j := i downto 1
        invariant fresh(coeffs) && Progress(coeffs[..], s, ell, i, j)
      {
        UpdateCoefficient(coeffs, s, ell, i, j);
      }
      UpdateCoefficient(coeffs, s, ell, i, 0);
      ProgressNext(coeffs[..], s, ell, i);
    }
    ProgressDone(coeffs[..], s, ell);
  }

  // ----- division, scaling, addition

  lemma DivisionStep(c: nat, out: nat, a: nat, r: int, above: int, s: nat)
    requires s > 0 && Cong(c, r - a * above, s) && Cong(out, above, s)
    ensures Cong((c + a * out) % s, r, s)
  {
    CongScale(out, above, a, s);
    CongAdd(c, r - a * above, a * out, a * above, s);
    CongMod(c + a * out, s);
  }

  /** divideByDegreeOnePolynomial: synthetic division is exact on a multiple of (x - a). */
  method DivideByDegreeOne(coeffs: array<nat>, output: array<nat>, s: nat, a: nat, ell: nat, ghost r: Poly)
    requires coeffs != output && output.Length == ell + 1 && a < s <= 65536 && s > 1
    requires |r| == ell + 1 && r[ell] == 1 && Represents(coeffs[..], MulLinear(r, a), s)
    modifies output
    ensures Represents(output[..], r, s)
  {
    output[ell] := 1;
    for i := ell downto 0
      invariant forall k :: i <= k <= ell ==> output[k] < s && Cong(output[k], r[k], s)
    {
      assert coeffs[..][i + 1] < s && Cong(coeffs[i + 1], r[i] - a * r[i + 1], s);
      NoWrap(a, output[i + 1], coeffs[i + 1], s);
      DivisionStep(coeffs[i + 1], output[i + 1], a, r[i], r[i + 1], s);
      output[i] := U32(coeffs[i + 1] + U32(a * output[i + 1]));
      output[i] := output[i] % s;
    }
  }

  /** The division undoes the multiplication: quotient times (x - a) is the dividend modulo s. */
  lemma QuotientTimesDivisor(quotient: seq<nat>, r: Poly, a: nat, s: nat)
    requires Represents(quotient, r, s)
    ensures CongPoly(MulLinear(quotient, a), MulLinear(r, a), s)
  {
    forall k | 0 <= k <= |r|
      ensures Cong(MulLinear(quotient, a)[k], MulLinear(r, a)[k], s)
    {
      var q, t := Coeff(quotient, k), Coeff(r, k);
      CongScale(q, t, a, s);
      CongSub(Coeff(quotient, k - 1), Coeff(r, k - 1), a * q, a * t, s);
    }
  }

  ghost predicate Residues(c: seq<nat>, s: nat) {
    forall k :: 0 <= k < |c| ==> c[k] < s
  }

  function ScaleAll(c: seq<nat>, w: nat, s: nat): (d: seq<nat>)
    requires s > 0
    ensures |d| == |c| && Residues(d, s)
  {
    seq(|c|, k requires 0 <= k < |c| => (c[k] * w) % s)
  }

  function AddAll(c: seq<nat>, d: seq<nat>, s: nat): (e: seq<nat>)
    requires s > 0 && |c| == |d|
    ensures |e| == |c| && Residues(e, s)
  {
    seq(|c|, k requires 0 <= k < |c| => (c[k] + d[k]) % s)
  }

  method MultiplyByScalar(coeffs: array<nat>, scalar: nat, s: nat, degree: nat)
    requires coeffs.Length == degree + 1 && scalar < s <= 65536 && Residues(coeffs[..], s)
    modifies coeffs
    ensures coeffs[..] == ScaleAll(old(coeffs[..]), scalar, s)
  {
    for i := 0 to degree + 1
      invariant forall k :: 0 <= k < i ==> coeffs[k] == (old(coeffs[k]) * scalar) % s
      invariant forall k :: i <= k <= degree ==> coeffs[k] == old(coeffs[..])[k]
    {
      NoWrap(scalar, coeffs[i], 0, s);
      assert coeffs[i] * scalar == scalar * coeffs[i];
      coeffs[i] := U32(coeffs[i] * scalar);
      coeffs[i] := coeffs[i] % s;
    }
  }

  method Add(left: array<nat>, right: array<nat>, s: nat, degree: nat)
    requires left != right && left.Length == right.Length == degree + 1 && 0 < s <= 65536
    requires Residues(left[..], s) && Residues(right[..], s)
    modifies left
    ensures left[..] == AddAll(old(left[..]), right[..], s)
  {
    for i := 0 to degree + 1
      invariant forall k :: 0 <= k < i ==> left[k] == (old(left[k]) + right[k]) % s
      invariant forall k :: i <= k <= degree ==> left[k] == old(left[..])[k]
    {
      assert left[i] < s && right[..][i] < s;
      SmallMod(left[i] + right[i], WORD32);
      left[i] := U32(left[i] + right[i]);
      left[i] := left[i] % s;
    }
  }

  // ----- the denominators

  lemma DifferenceFactor(product: nat, d: int, a: nat, i: nat, s: nat)
    requires s > 0 && Cong(product, d, s)
    ensures Cong((product * ((s + a - i) % s)) % s, d * (a - i), s)
  {
    AddMultiple(a - i, 1, s);
    CongMod(s + a - i, s);
    CongMul(product, d, (s + a - i) % s, a - i, s);
    CongMod(product * ((s + a - i) % s), s);
  }

  lemma NoDifferences(a: nat, s: nat)
    requires s > 0
    ensures Cong(1, Differences(0, a), s)
  {
  }

  lemma SkipSelf(i: nat, a: nat)
    requires i > 0
    ensures Differences(i, a) == if i == a then Differences(i - 1, a) else Differences(i - 1, a) * (a - i)
  {
  }

  lemma WordDifference(s: nat, a: nat, i: nat)
    requires a < s <= 65536 && 0 < i < s
    ensures U32(U32(s + a) - i) == s + a - i
  {
    SmallMod(s + a, WORD32);
    SmallMod(s + a - i, WORD32);
  }

  /** multiplyDifferentXValues: the product of (a - i) over the other points i. */
  method MultiplyDifferentXValues(s: nat, ell: nat, a: nat) returns (product: nat)
    requires ell + 1 < s <= 65536 && a < s
    ensures product < s && Cong(product, Differences(ell + 1, a), s)
  {
    hide Cong, Differences, U32;
    NoDifferences(a, s);
    product := 1;
    for i := 1 to ell + 2
      invariant product < s && Cong(product, Differences(i - 1, a), s)
    {
      SkipSelf(i, a);
      if i != a {
        WordDifference(s, a, i);
        NoWrap(product, (s + a - i) % s, 0, s);
        DifferenceFactor(product, Differences(i - 1, a), a, i, s);
        product := U32(product * (U32(U32(s + a) - i) % s)) % s;
      }
    }
  }

  // ----- modular inversion

  function Abs(x: int): nat {
    if x < 0 then -x else x
  }

  /**
   The loop state of invert: the 32-bit t values are signed Bezout coefficients u, v modulo 2^32,
   whose sizes are tied to the remainders and whose signs alternate.
   */
  ghost predicate BezoutState(s: nat, a: nat, r0: nat, r1: nat, t0: nat, t1: nat, u: int, v: int) {
    && 0 < s && 0 < r0 && Gcd(r0, r1) == Gcd(s, a)
    && Cong(u * a, r0, s) && Cong(v * a, r1, s)
    && t0 == U32(u) && t1 == U32(v)
    && Abs(v) * r0 + Abs(u) * r1 == s
    && ((u <= 0 && v >= 0) || (u >= 0 && v <= 0))
    && Abs(u) <= s
  }

  lemma BezoutStart(s: nat, a: nat)
    requires 0 < s < WORD32
    ensures BezoutState(s, a, s, a, 0, 1, 0, 1)
  {
    AddMultiple(0, 1, s);
  }

  lemma BezoutSigns(u: int, v: int, q: nat, r0: nat, r1: nat, s: nat)
    requires Abs(v) * r0 + Abs(u) * r1 == s && ((u <= 0 && v >= 0) || (u >= 0 && v <= 0))
    requires r0 > 0 && r1 > 0 && q * r1 <= r0
    ensures var w := u - q * v;
      && Abs(w) * r1 + Abs(v) * (r0 - q * r1) == s
      && ((v <= 0 && w >= 0) || (v >= 0 && w <= 0))
      && Abs(v) <= s
  {
    var w := u - q * v;
    AbsCombination(u, v, q);
    assert (Abs(u) + q * Abs(v)) * r1 == Abs(u) * r1 + Abs(v) * (q * r1);
    assert Abs(v) * (r0 - q * r1) == Abs(v) * r0 - Abs(v) * (q * r1);
    ScaleUp(Abs(v), r0);
    ScaleUp(Abs(u), r1);
  }

  lemma AbsCombination(u: int, v: int, q: nat)
    requires (u <= 0 && v >= 0) || (u >= 0 && v <= 0)
    ensures Abs(u - q * v) == Abs(u) + q * Abs(v)
    ensures (v <= 0 && u - q * v >= 0) || (v >= 0 && u - q * v <= 0)
  {
    if v >= 0 {
      assert q * v >= 0;
    } else {
      assert q * v <= 0 && q * Abs(v) == -(q * v);
    }
  }

  lemma ScaleUp(x: nat, r: nat)
    requires r > 0
    ensures x <= x * r
  {
  }

  lemma BezoutWord(t0: nat, t1: nat, u: int, v: int, q: nat)
    requires t0 == U32(u) && t1 == U32(v)
    ensures WordStep(t0, q, t1) == U32(u - q * v)
  {
    CongMod(u, WORD32);
    CongMod(v, WORD32);
    CongScale(t1, v, q, WORD32);
    CongMod(q * t1, WORD32);
    CongSub(t0, u, U32(q * t1), q * v, WORD32);
  }

  /** What WordStep does to the signed coefficients. */
  ghost function SignedStep(u: int, q: nat, v: int): int {
    u - q * v
  }

  lemma BezoutStep(s: nat, a: nat, r0: nat, r1: nat, t0: nat, t1: nat, u: int, v: int, q: nat, r2: nat)
    requires BezoutState(s, a, r0, r1, t0, t1, u, v) && r0 < WORD32 && r1 > 0
    requires q == Quotient(r0, r1) && r2 == WordStep(r0, q, r1)
    ensures r2 < r1 && BezoutState(s, a, r1, r2, t1, WordStep(t0, q, t1), v, SignedStep(u, q, v))
  {
    RemainderExact(r0, r1);
    var p := q * r1;
    assert r2 == r0 - p by {
      DivMod(r0, r1);
    }
    BezoutSigns(u, v, q, r0, r1, s);
    BezoutWord(t0, t1, u, v, q);
    BezoutCong(s, a, r0, r1, u, v, q);
    hide Cong, U32, Abs;
  }

  lemma BezoutCong(s: nat, a: nat, r0: nat, r1: nat, u: int, v: int, q: nat)
    requires s > 0 && Cong(u * a, r0, s) && Cong(v * a, r1, s)
    ensures Cong((u - q * v) * a, r0 - q * r1, s)
  {
    CongScale(v * a, r1, q, s);
    CongSub(u * a, r0, q * (v * a), q * r1, s);
    assert (u - q * v) * a == u * a - q * (v * a);
  }

  lemma BezoutEnd(s: nat, a: nat, r0: nat, t0: nat, t1: nat, u: int, v: int)
    requires BezoutState(s, a, r0, 0, t0, t1, u, v) && s < SIGNED32
    ensures U32(t0 + s) % s < s && Cong(a * (U32(t0 + s) % s), Gcd(s, a), s)
  {
    CongMod(u, WORD32);
    CongAdd(t0, u, s, s, WORD32);
    SmallMod(u + s, WORD32);
    AddMultiple(u, 1, s);
    CongMod(u + s, s);
    CongScale((u + s) % s, u, a, s);
  }

  function Quotient(x: nat, y: nat): nat
    requires y > 0
  {
    x / y
  }

  /** r_zero - q * r_one and t_zero - q * t_one on 32-bit words. */
  function WordStep(x: nat, q: nat, y: nat): nat {
    U32(x - U32(q * y))
  }

  /** The remainder arithmetic of invert does not wrap. */
  lemma RemainderExact(r0: nat, r1: nat)
    requires r0 < WORD32 && 0 < r1
    ensures WordStep(r0, Quotient(r0, r1), r1) == r0 % r1 < r1
  {
    DivMod(r0, r1);
    var p := (r0 / r1) * r1;
    SmallMod(p, WORD32);
    SmallMod(r0 - p, WORD32);
  }

  /**
   invert: for any 32-bit a the result is a residue t with a * t = gcd(a, s) modulo s,
   so it is the inverse of a exactly when the two are coprime (for s > 1).
   */
  method Invert(s: nat, a: nat) returns (t: nat)
    requires 0 < s < SIGNED32 && a < WORD32
    ensures t < s && Cong(a * t, Gcd(s, a), s)
  {
    assert 0 < s < WORD32;
    var r0: nat, r1: nat, t0: nat, t1: nat := s, a, 0, 1;
    ghost var u, v := 0, 1;
    BezoutStart(s, a);
    hide *;
    while r1 != 0
      invariant r0 < WORD32 && r1 < WORD32 && BezoutState(s, a, r0, r1, t0, t1, u, v)
      decreases r1
    {
      var q := Quotient(r0, r1);
      var r2 := WordStep(r0, q, r1);
      var t2 := WordStep(t0, q, t1);
      BezoutStep(s, a, r0, r1, t0, t1, u, v, q, r2);
      r0, t0, r1, t1 := r1, t1, r2, t2;
      u, v := v, SignedStep(u, q, v);
    }
    BezoutEnd(s, a, r0, t0, t1, u, v);
    t0 := U32(t0 + s);
    t := t0 % s;
  }

  lemma GcdRange(s: nat, a: nat)
    requires 0 < s
    ensures 1 <= Gcd(s, a) <= s
  {
    GcdDivides(s, a);
    var k :| Multiple(s, k, Gcd(s, a));
    FactorIsSmaller(k, Gcd(s, a));
  }

  lemma CoprimeInverse(s: nat, a: nat, t: nat)
    requires 1 < s && t < s && Cong(a * t, Gcd(s, a), s)
    ensures IsInverse(t, a, s) <==> Gcd(s, a) == 1
  {
    GcdRange(s, a);
    OnlyOne(a * t, Gcd(s, a), s);
    SmallMod(1, s);
    hide Gcd, Cong;
  }

  lemma OnlyOne(x: int, g: nat, s: nat)
    requires 1 < s && 1 <= g <= s && Cong(x, g, s)
    ensures x % s == 1 <==> g == 1
  {
    if g == s {
      AddMultiple(0, 1, s);
    } else {
      SmallMod(g, s);
    }
  }

  // ----- the polynomial

  /** The value f should have at x once the points below i are in. */
  function Target(x: nat, i: nat): int {
    if 2 <= x < i then 1 else 0
  }

  ghost predicate Interpolates(f: seq<nat>, s: nat, ell: nat, i: nat) {
    s > 0 && |f| == ell + 1
    && (forall k :: 0 <= k <= ell ==> f[k] < s)
    && (forall x :: 1 <= x <= ell + 1 ==> Cong(Eval(f, x), Target(x, i), s))
  }

  lemma TermCoefficient(f: nat, c: nat, r: int, w: nat, s: nat)
    requires s > 0 && Cong(c, r, s)
    ensures Cong((f + (c * w) % s) % s, f + w * r, s)
  {
    CongScale(c, r, w, s);
    CongMod(c * w, s);
    CongAdd(f, f, (c * w) % s, w * r, s);
    CongMod(f + (c * w) % s, s);
  }

  /** Adding the term of point i fixes the value at i and leaves the other points alone. */
  lemma InterpolationStep(f: seq<nat>, q: seq<nat>, w: nat, d: nat, s: nat, ell: nat, i: nat)
    requires Interpolates(f, s, ell, i) && 2 <= i <= ell + 1
    requires Represents(q, RootProduct(ell + 1, i), s)
    requires Cong(d, Differences(ell + 1, i), s) && IsInverse(w, d, s)
    ensures Interpolates(AddAll(f, ScaleAll(q, w, s), s), s, ell, i + 1)
  {
    var g := AddAll(f, ScaleAll(q, w, s), s);
    var r := RootProduct(ell + 1, i);
    forall k | 0 <= k <= ell
      ensures Cong(g[k], f[k] + w * r[k], s)
    {
      TermCoefficient(f[k], q[k], r[k], w, s);
    }
    hide AddAll, ScaleAll, RootProduct, Eval;
    forall x | 1 <= x <= ell + 1
      ensures Cong(Eval(g, x), Target(x, i + 1), s)
    {
      EvalCombination(f, r, w, g, x, s);
      if x == i {
        RootProductAtSkip(ell + 1, i);
        CongScale(d, Differences(ell + 1, i), w, s);
        CongAdd(Eval(f, x), 0, w * Eval(r, x), 1, s);
      } else {
        RootProductVanishes(ell + 1, i, x);
        assert w * Eval(r, x) == 0;
      }
    }
  }

  lemma ZeroPolynomial(f: seq<nat>, x: int)
    requires forall k :: 0 <= k < |f| ==> f[k] == 0
    ensures Eval(f, x) == 0
  {
  }

  /** One round of the outer loop: divide, scale by the inverse denominator, add. */
  method AddTerm(f: array<nat>, term: array<nat>, product: array<nat>, s: nat, ell: nat, i: nat)
    requires Prime(s) && ell + 1 < s <= 65536 && 2 <= i <= ell + 1
    requires f != term && product != term && product != f && term.Length == ell + 1
    requires Represents(product[..], RootProduct(ell + 1, 0), s)
    requires Interpolates(f[..], s, ell, i)
    modifies f, term
    ensures Interpolates(f[..], s, ell, i + 1)
  {
    ghost var f0 := f[..];
    RestoreFactor(ell + 1, i);
    RootProductMonic(ell + 1, i);
    InterpolantResidues(f0, s, ell, i);
    hide *;
    DivideByDegreeOne(product, term, s, i, ell, RootProduct(ell + 1, i));
    ghost var q := term[..];
    RepresentsResidues(q, RootProduct(ell + 1, i), s);
    var d := MultiplyDifferentXValues(s, ell, i);
    UnitDenominator(s, ell, i, d);
    var w := Invert(s, d);
    CoprimeInverse(s, d, w);
    MultiplyByScalar(term, w, s, ell);
    Add(f, term, s, ell);
    InterpolationStep(f0, q, w, d, s, ell, i);
  }

  lemma RepresentsResidues(c: seq<nat>, r: Poly, s: nat)
    requires Represents(c, r, s)
    ensures Residues(c, s)
  {
  }

  lemma InterpolantResidues(f: seq<nat>, s: nat, ell: nat, i: nat)
    requires Interpolates(f, s, ell, i)
    ensures |f| == ell + 1 && Residues(f, s)
  {
  }

  /**
   computeLagrangeCoeffsForPrefixOr: a polynomial of degree at most ell that is 0 at 1 and 1 at
   2, ..., ell + 1 modulo the prime s; no 32-bit operation on the way wraps.
   */
  method LagrangeCoeffsForPrefixOr(s: nat, ell: nat) returns (f: array<nat>)
    requires Prime(s) && ell + 1 < s <= 65536
    ensures f.Length == ell + 1 && forall k :: 0 <= k <= ell ==> f[k] < s
    ensures Cong(Eval(f[..], 1), 0, s)
    ensures forall x :: 2 <= x <= ell + 1 ==> Cong(Eval(f[..], x), 1, s)
  {
    f := new nat[ell + 1](_ => 0);
    forall x | 1 <= x <= ell + 1
      ensures Eval(f[..], x) == 0
    {
      ZeroPolynomial(f[..], x);
    }
    var product := ProductOneToEllPlusOne(s, ell);
    var term := new nat[ell + 1](_ => 0);
    assert Interpolates(f[..], s, ell, 2);
    for i := 2 to ell + 2
      invariant fresh(f) && fresh(term) && f != term && product != term && product != f
      invariant term.Length == ell + 1
      invariant Represents(product[..], RootProduct(ell + 1, 0), s)
      invariant Interpolates(f[..], s, ell, i)
    {
      hide *;
      AddTerm(f, term, product, s, ell, i);
    }
  }

  lemma UnitDenominator(s: nat, ell: nat, i: nat, d: nat)
    requires Prime(s) && ell + 1 < s && i < s && d < s && Cong(d, Differences(ell + 1, i), s)
    ensures Gcd(s, d) == 1
  {
    DifferencesNonzero(ell + 1, i, s);
    SmallMod(d, s);
    hide Gcd, Differences;
    CoprimeBelowPrime(d, s);
  }
}
