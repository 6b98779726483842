/** Real numbers as fixed-point field elements, and back. */
module FixedPoint {
  import opened Modular
  import opened Powers
  import opened Words

  /** Half a unit of the last bit kept: pow(0.5, 1 + b). */
  function HalfUnit(b: nat): real {
    1.0 / Pow2(b + 1) as real
  }

  function Magnitude(v: real): real {
    if v < 0.0 then -v else v
  }

  /** v in units of the last bit kept. */
  function Scaled(v: real, b: nat): real {
    v * Pow2(b) as real
  }

  /** e units. */
  function Fraction(e: int, b: nat): real {
    e as real / Pow2(b) as real
  }

  /** In units, rounded to the nearest integer, halves upwards. */
  function Rounded(v: real, b: nat): int {
    (Scaled(v, b) + 0.5).Floor
  }

  function Encode(v: real, b: nat, m: int): int {
    if v < 0.0 then m - Rounded(-v, b) else Rounded(v, b)
  }

  /** The integer part, after rounding, is converted through a uint64_t. */
  predicate Encodable(v: real, b: nat) {
    Magnitude(v) + HalfUnit(b) < WORD64 as real
  }

  // ----- scaling

  lemma ScaledSum(x: real, y: real, b: nat)
    ensures Scaled(x + y, b) == Scaled(x, b) + Scaled(y, b)
  {
    hide Pow2;
  }

  lemma ScaledMinus(x: real, b: nat)
    ensures Scaled(-x, b) == -Scaled(x, b)
  {
    hide Pow2;
  }

  lemma ScaledDifference(x: real, y: real, b: nat)
    ensures Scaled(x - y, b) == Scaled(x, b) - Scaled(y, b)
  {
    hide Scaled;
    ScaledMinus(y, b);
    ScaledSum(x, -y, b);
    assert x + -y == x - y;
  }

  lemma ScaledLess(x: real, y: real, b: nat)
    ensures x <= y <==> Scaled(x, b) <= Scaled(y, b)
  {
    hide Pow2;
    TimesLess(x, y, Pow2(b) as real);
  }

  lemma TimesLess(x: real, y: real, p: real)
    requires p > 0.0
    ensures x <= y <==> x * p <= y * p
  {
  }

  lemma ScaledPositive(x: real, b: nat)
    requires x >= 0.0
    ensures Scaled(x, b) >= 0.0
  {
    hide Pow2;
  }

  lemma ScaledFraction(e: int, b: nat)
    ensures Scaled(Fraction(e, b), b) == e as real
  {
    hide Pow2;
    QuotientTimes(e as real, Pow2(b) as real);
  }

  lemma QuotientTimes(x: real, p: real)
    requires p > 0.0
    ensures (x / p) * p == x
  {
  }

  lemma ScaledInteger(n: int, b: nat)
    ensures Scaled(n as real, b) == (n * Pow2(b)) as real
  {
    hide Pow2;
  }

  lemma ScaledHalf(b: nat)
    ensures Scaled(HalfUnit(b), b) == 0.5
  {
    HalfUnitIs(b);
    hide Pow2, HalfUnit;
    HalfOf(Pow2(b) as real);
  }

  lemma HalfUnitIs(b: nat)
    ensures HalfUnit(b) == 1.0 / (2.0 * Pow2(b) as real)
  {
    assert Pow2(b + 1) as real == 2.0 * Pow2(b) as real;
  }

  lemma HalfOf(p: real)
    requires p > 0.0
    ensures (1.0 / (2.0 * p)) * p == 0.5
  {
  }

  lemma Unscaled(x: real)
    ensures Scaled(x, 0) == x
  {
  }

  lemma Twice(x: real, i: nat)
    ensures Scaled(x, i + 1) == 2.0 * Scaled(x, i)
  {
    var p := Pow2(i) as real;
    assert Pow2(i + 1) as real == 2.0 * p;
    hide Pow2;
    assert x * (2.0 * p) == 2.0 * (x * p);
  }

  // ----- the encoder

  /** Doubling a number: twice its integer part, and one more if the fraction reaches a half. */
  lemma FloorDouble(y: real)
    ensures (2.0 * y).Floor == 2 * y.Floor + (2.0 * (y - y.Floor as real)).Floor
    ensures 0 <= (2.0 * (y - y.Floor as real)).Floor <= 1
  {
    var f := y - y.Floor as real;
    assert 0.0 <= f < 1.0;
    assert 2.0 * y == (2 * y.Floor) as real + 2.0 * f;
  }

  /** One bit per round of the loop. */
  method ConvertNonNegative(v: real, b: nat) returns (ret: int)
    requires v >= 0.0 && Encodable(v, b)
    ensures ret == Rounded(v, b)
  {
    hide Encodable, HalfUnit, Scaled;
    var val := v + HalfUnit(b);
    ghost var x := val;
    ret := val.Floor;
    val := val - val.Floor as real;
    Unscaled(x);
    for i := 0 to b
      invariant ret == Scaled(x, i).Floor
      invariant val == Scaled(x, i) - ret as real
    {
      FloorDouble(Scaled(x, i));
      Twice(x, i);
      ret := ret * 2;
      val := val * 2.0;
      ret := ret + val.Floor;
      val := val - val.Floor as real;
    }
    ScaledHalf(b);
    ScaledSum(v, HalfUnit(b), b);
  }

  /** convertDoubleToLargeNum, over the reals. */
  method ConvertDoubleToLargeNum(v: real, b: nat, m: int) returns (ret: int)
    requires Encodable(v, b)
    ensures ret == Encode(v, b, m)
  {
    hide Rounded;
    if v < 0.0 {
      var positive := ConvertNonNegative(-1.0 * v, b);
      assert -1.0 * v == -v;
      ret := m - positive;
    } else {
      ret := ConvertNonNegative(v, b);
    }
  }

  /** castToDouble: the second half of the field is negative, and uint64_t keeps the low 64 bits. */
  function CastToDouble(val: nat, b: nat, m: nat): real
    requires val <= m
    decreases 2 * val > m
  {
    if 2 * val > m then -1.0 * CastToDouble(m - val, b, m)
    else
      var integerPart := ((val / Pow2(b)) % WORD64) as real;
      var remainder := val % Pow2(b);
      if b <= 64 then
        integerPart + (remainder % WORD64) as real / Pow2(b) as real
      else
        integerPart + ((val / Pow2(b - 64)) % WORD64) as real / Pow2(64) as real
  }

  // ----- decoding

  lemma QuotientBelow(e: nat, p: nat, bound: nat)
    requires p > 0 && e < bound * p
    ensures 0 <= e / p < bound
  {
    DivMod(e, p);
    if e / p >= bound {
      Above(e / p, bound, p);
    }
  }

  lemma Above(q: nat, bound: nat, p: nat)
    requires q >= bound
    ensures q * p >= bound * p
  {
  }

  lemma SplitQuotient(e: nat, p: nat)
    requires p > 0
    ensures e as real / p as real == (e / p) as real + (e % p) as real / p as real
  {
    DivMod(e, p);
    var q, r := e / p, e % p;
    assert (q * p) as real == q as real * p as real;
    RealQuotient(q as real, r as real, p as real);
  }

  lemma RealQuotient(q: real, r: real, p: real)
    requires p > 0.0
    ensures (q * p + r) / p == q + r / p
  {
  }

  /** Up to 64 bits of precision the decoder divides exactly. */
  lemma DecodesExactly(e: nat, b: nat, m: nat)
    requires 2 * e <= m && b <= 64 && e < WORD64 * Pow2(b)
    ensures CastToDouble(e, b, m) == Fraction(e, b)
  {
    var p := Pow2(b);
    Pow2SixtyFour();
    Pow2Monotone(b, 64);
    hide Pow2;
    DivMod(e, p);
    QuotientBelow(e, p, WORD64);
    SmallMod(e / p, WORD64);
    SmallMod(e % p, WORD64);
    SplitQuotient(e, p);
  }

  /** The rounding loses at most half a unit. */
  lemma RoundedError(v: real, b: nat)
    requires v >= 0.0
    ensures Rounded(v, b) >= 0 && -0.5 <= Rounded(v, b) as real - Scaled(v, b) <= 0.5
  {
    hide Scaled;
    ScaledPositive(v, b);
  }

  lemma RoundedFits(v: real, b: nat)
    requires v >= 0.0 && Encodable(v, b)
    ensures 0 <= Rounded(v, b) < WORD64 * Pow2(b)
  {
    hide Pow2, HalfUnit, Rounded, Scaled;
    ScaledHalf(b);
    ScaledSum(v, HalfUnit(b), b);
    ScaledLess(WORD64 as real, v + HalfUnit(b), b);
    ScaledInteger(WORD64, b);
    RoundedError(v, b);
    assert Rounded(v, b) as real < (WORD64 * Pow2(b)) as real;
  }

  /** A fraction is within half a unit of v exactly when, in units, it is within a half. */
  lemma CloseWhenScaled(e: int, v: real, b: nat)
    ensures Magnitude(Fraction(e, b) - v) <= HalfUnit(b) <==> -0.5 <= e as real - Scaled(v, b) <= 0.5
  {
    hide HalfUnit, Scaled, Fraction;
    var d, h := Fraction(e, b) - v, HalfUnit(b);
    ScaledFraction(e, b);
    ScaledDifference(Fraction(e, b), v, b);
    ScaledHalf(b);
    ScaledMinus(h, b);
    ScaledLess(d, h, b);
    ScaledLess(-h, d, b);
  }

  lemma OppositeFraction(e: int, b: nat)
    ensures -1.0 * Fraction(e, b) == Fraction(0 - e, b)
  {
    hide Pow2;
    Opposite(e as real, Pow2(b) as real);
  }

  lemma Opposite(x: real, p: real)
    requires p > 0.0
    ensures -1.0 * (x / p) == (0.0 - x) / p
  {
  }

  /** What the decoder makes of an element of the field, in units. */
  function Signed(val: nat, m: nat): int {
    if 2 * val > m then val - m else val
  }

  lemma CastNegative(val: nat, b: nat, m: nat)
    requires val <= m && 2 * val > m
    ensures CastToDouble(val, b, m) == -1.0 * CastToDouble(m - val, b, m)
  {
  }

  lemma DecodesSigned(val: nat, b: nat, m: nat)
    requires val <= m && b <= 64 && Signed(val, m) < WORD64 * Pow2(b)
    requires 0 - Signed(val, m) < WORD64 * Pow2(b)
    ensures CastToDouble(val, b, m) == Fraction(Signed(val, m), b)
  {
    hide Pow2, CastToDouble, Fraction;
    if 2 * val > m {
      CastNegative(val, b, m);
      DecodesExactly(m - val, b, m);
      OppositeFraction(m - val, b);
    } else {
      DecodesExactly(val, b, m);
    }
  }

  /** Where the scaled magnitude w was rounded to e: the element decodes near it in just one half of the field. */
  lemma NearIff(e: int, w: real, m: nat)
    requires e as real - 0.5 <= w <= e as real + 0.5 && w >= 0.0 && 0 <= e <= m && m >= 2
    ensures -0.5 <= Signed(e, m) as real - w <= 0.5 <==> 2 * e <= m
    ensures -0.5 <= Signed(m - e, m) as real + w <= 0.5 <==> 2 * e < m
  {
  }

  /** In units. */
  lemma ScaledRecoversIff(v: real, b: nat, m: nat)
    requires m >= 2 && Rounded(Magnitude(v), b) <= m
    ensures 0 <= Encode(v, b, m) <= m
    ensures -0.5 <= Signed(Encode(v, b, m), m) as real - Scaled(v, b) <= 0.5 <==>
      2 * Rounded(Magnitude(v), b) < m + (if v < 0.0 then 0 else 1)
  {
    hide Scaled, Rounded, Signed;
    var size := Magnitude(v);
    RoundedError(size, b);
    ScaledPositive(size, b);
    NearIff(Rounded(size, b), Scaled(size, b), m);
    ScaledMinus(v, b);
  }

  /** Encoding and decoding recovers a number to half a unit exactly when its magnitude is in its half of the field. */
  lemma RecoversIff(v: real, b: nat, m: nat)
    requires Encodable(v, b) && b <= 64 && m >= 2 && Rounded(Magnitude(v), b) <= m
    ensures 0 <= Encode(v, b, m) <= m
    ensures Magnitude(CastToDouble(Encode(v, b, m), b, m) - v) <= HalfUnit(b) <==>
      2 * Rounded(Magnitude(v), b) < m + (if v < 0.0 then 0 else 1)
  {
    hide Pow2, HalfUnit, Rounded, Scaled, Fraction, CastToDouble, Encodable, Encode, Magnitude;
    ScaledRecoversIff(v, b, m);
    var val: nat := Encode(v, b, m);
    SignedFits(v, b, m);
    DecodesSigned(val, b, m);
    CloseWhenScaled(Signed(val, m), v, b);
  }

  lemma SignedFits(v: real, b: nat, m: nat)
    requires Encodable(v, b) && Rounded(Magnitude(v), b) <= m
    ensures 0 <= Encode(v, b, m) <= m
    ensures Signed(Encode(v, b, m), m) < WORD64 * Pow2(b)
    ensures 0 - Signed(Encode(v, b, m), m) < WORD64 * Pow2(b)
  {
    hide Pow2, Rounded, Encodable;
    EncodableMagnitude(v, b);
    RoundedFits(Magnitude(v), b);
  }

  lemma EncodableMagnitude(v: real, b: nat)
    ensures Encodable(v, b) <==> Encodable(Magnitude(v), b)
    ensures Magnitude(v) >= 0.0
  {
  }

  // ----- more than 64 bits

  /** Shifting first and keeping 64 bits is reducing first and shifting. */
  lemma HighBits(val: nat, s: nat, t: nat)
    requires s > 0 && t > 0
    ensures (val / s) % t == (val % (t * s)) / s
  {
    var p := t * s;
    var q, r := val / p, val % p;
    DivMod(val, p);
    DivMod(r, s);
    QuotientBelow(r, s, t);
    var f := r / s;
    Reassociate(q, t, s, f);
    Above(q, 0, t);
    UniqueDivMod(val, s, q * t + f, r % s);
    AddMultiple(f, q, t);
    SmallMod(f, t);
  }

  lemma Reassociate(q: int, t: int, s: int, f: int)
    ensures (q * t + f) * s == q * (t * s) + f * s
  {
    assert (q * t) * s == q * (t * s);
  }

  /** The last bit of a 64-bit fraction. */
  function LastBit(): (t: real)
    ensures t > 0.0
  {
    1.0 / Pow2(64) as real
  }

  lemma ScaledLastBit(b: nat)
    requires b > 64
    ensures Scaled(LastBit(), b) == Pow2(b - 64) as real && 2 * Pow2(b - 64) == Pow2(b - 63)
  {
    hide Pow2;
    Pow2Step(b - 64);
    Pow2Sum(64, b - 64);
    var u, s := Pow2(64) as real, Pow2(b - 64) as real;
    assert Pow2(b) as real == u * s;
    Reciprocal(u, s);
  }

  lemma Reciprocal(u: real, s: real)
    requires u > 0.0
    ensures (1.0 / u) * (u * s) == s
  {
    QuotientTimes(1.0, u);
    TimesGroup(1.0 / u, u, s);
  }

  lemma TimesGroup(x: real, y: real, z: real)
    ensures x * (y * z) == (x * y) * z
  {
  }

  /** Above 64 bits the decoder keeps 64 bits of the fraction. */
  lemma DecodesTruncated(e: nat, b: nat, m: nat)
    requires 2 * e <= m && b > 64 && e < WORD64 * Pow2(b)
    ensures Fraction(e, b) - LastBit() < CastToDouble(e, b, m) <= Fraction(e, b)
  {
    var p, s, t := Pow2(b), Pow2(b - 64), Pow2(64);
    Pow2SixtyFour();
    Pow2Sum(64, b - 64);
    hide Pow2;
    QuotientBelow(e, p, t);
    SmallMod(e / p, t);
    HighBits(e, s, t);
    SplitQuotient(e, p);
    Truncation(e % p, s, t);
  }

  /** r / (t * s), cut to a multiple of 1 / t. */
  lemma Truncation(r: nat, s: nat, t: nat)
    requires s > 0 && t > 0 && t * s > 0
    ensures var exact, cut := r as real / (t * s) as real, (r / s) as real / t as real;
      exact - 1.0 / t as real < cut <= exact
  {
    DivMod(r, s);
    var f, d := (r / s) as real, (r % s) as real;
    var sr, tr := s as real, t as real;
    assert ((r / s) * s) as real == f * sr;
    assert r as real == f * sr + d;
    assert (t * s) as real == tr * sr;
    CutBy(f, d, sr, tr);
  }

  lemma CutBy(f: real, d: real, s: real, t: real)
    requires 0.0 <= d < s && t > 0.0 && t * s > 0.0
    ensures (f * s + d) / (t * s) - 1.0 / t < f / t <= (f * s + d) / (t * s)
  {
    SumQuotient(f, d, s, t);
    SmallQuotient(d, s, t);
  }

  lemma SumQuotient(f: real, d: real, s: real, t: real)
    requires s > 0.0 && t > 0.0 && t * s > 0.0
    ensures (f * s + d) / (t * s) == f / t + d / (t * s)
  {
  }

  lemma SmallQuotient(d: real, s: real, t: real)
    requires 0.0 <= d < s && t > 0.0 && t * s > 0.0
    ensures 0.0 <= d / (t * s) < 1.0 / t
  {
  }

  /** The wrong half of the field is farther off than the tolerance, if the field is not all within it. */
  lemma FarAway(size: real, e: nat, b: nat, m: nat)
    requires b > 64 && e <= m && m > Pow2(b - 63) && Scaled(size, b) >= e as real - 0.5
    ensures size + Fraction(m - e, b) - LastBit() >= HalfUnit(b) + LastBit()
  {
    hide Pow2, HalfUnit, Scaled, Fraction, LastBit;
    var f, h, t := Fraction(m - e, b), HalfUnit(b), LastBit();
    ScaledFraction(m - e, b);
    ScaledHalf(b);
    ScaledLastBit(b);
    ScaledSum(size, f, b);
    ScaledDifference(size + f, t, b);
    ScaledSum(h, t, b);
    ScaledLess(h + t, size + f - t, b);
  }

  /** Decoding the other element of the pair e, m - e. */
  lemma OtherHalf(v: real, b: nat, m: nat)
    requires Encodable(v, b) && b > 64 && m > Pow2(b - 63)
    requires Rounded(Magnitude(v), b) <= m <= 2 * Rounded(Magnitude(v), b)
    ensures CastToDouble(m - Rounded(Magnitude(v), b), b, m) + Magnitude(v) >= HalfUnit(b) + LastBit()
  {
    hide Pow2, HalfUnit, Rounded, Scaled, Fraction, Encodable, CastToDouble, Magnitude, LastBit;
    var size := Magnitude(v);
    var e := Rounded(size, b);
    EncodableMagnitude(v, b);
    RoundedFits(size, b);
    RoundedError(size, b);
    DecodesTruncated(m - e, b, m);
    FarAway(size, e, b, m);
  }

  lemma ThisHalf(v: real, b: nat, m: nat)
    requires Encodable(v, b) && b > 64 && 2 * Rounded(Magnitude(v), b) <= m
    ensures Magnitude(CastToDouble(Rounded(Magnitude(v), b), b, m) - Magnitude(v)) < HalfUnit(b) + LastBit()
  {
    hide Pow2, HalfUnit, Rounded, Scaled, Fraction, Encodable, CastToDouble, LastBit;
    var size := Magnitude(v);
    var e := Rounded(size, b);
    EncodableMagnitude(v, b);
    RoundedFits(size, b);
    RoundedError(size, b);
    CloseWhenScaled(e, size, b);
    DecodesTruncated(e, b, m);
  }

  /**
   With more than 64 bits of precision a number is recovered to half a unit and 64 bits of its
   fraction, again exactly when its magnitude is in its half of the field. A field of at most
   2^(b - 63) elements decodes as a whole to numbers closer to each other than that.
   */
  lemma RecoversTruncatedIff(v: real, b: nat, m: nat)
    requires Encodable(v, b) && b > 64 && m > Pow2(b - 63) && Rounded(Magnitude(v), b) <= m
    ensures 0 <= Encode(v, b, m) <= m
    ensures Magnitude(CastToDouble(Encode(v, b, m), b, m) - v) < HalfUnit(b) + LastBit() <==>
      2 * Rounded(Magnitude(v), b) < m + (if v < 0.0 then 0 else 1)
  {
    hide Pow2, HalfUnit, Rounded, Scaled, Encodable, CastToDouble, LastBit;
    var e := Rounded(Magnitude(v), b);
    EncodableMagnitude(v, b);
    RoundedError(Magnitude(v), b);
    if 2 * e <= m {
      ThisHalf(v, b, m);
    }
    if 2 * e >= m {
      OtherHalf(v, b, m);
    }
    if v < 0.0 && 2 * e < m {
      CastNegative(m - e, b, m);
    }
    if v >= 0.0 && 2 * e > m {
      CastNegative(e, b, m);
    }
  }

  /** Without a bound on the modulus, one way. */
  lemma RecoversTruncated(v: real, b: nat, m: nat)
    requires Encodable(v, b) && b > 64 && 2 * Rounded(Magnitude(v), b) < m
    ensures 0 <= Encode(v, b, m) <= m
    ensures Magnitude(CastToDouble(Encode(v, b, m), b, m) - v) < HalfUnit(b) + LastBit()
  {
    hide Pow2, HalfUnit, Rounded, Scaled, Encodable, CastToDouble, LastBit;
    EncodableMagnitude(v, b);
    RoundedError(Magnitude(v), b);
    ThisHalf(v, b, m);
    if v < 0.0 {
      CastNegative(m - Rounded(Magnitude(v), b), b, m);
    }
  }
}
