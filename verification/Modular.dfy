/** Congruences, primes and inverses: the number theory the share arithmetic rests on. */
module Modular {

  /** a and b leave the same remainder on division by m. */
  predicate Cong(a: int, b: int, m: int)
    requires m > 0
  {
    a % m == b % m
  }

  lemma DivMod(a: int, m: int)
    requires m > 0
    ensures a == (a / m) * m + a % m && 0 <= a % m < m
  {
  }

  /** Adding a multiple of the modulus does not change the residue. */
  lemma AddMultiple(a: int, k: int, m: int)
    requires m > 0
    ensures (a + k * m) % m == a % m
  {
    var b := a + k * m;
    DivMod(a, m);
    DivMod(b, m);
    var d := b / m - a / m - k;
    assert d * m == a % m - b % m by {
      assert d * m == (b / m) * m - (a / m) * m - k * m;
    }
    OnlyZeroIsSmall(d, m);
  }

  /** A multiple of m strictly between -m and m is zero. */
  lemma OnlyZeroIsSmall(d: int, m: int)
    requires m > 0 && -m < d * m < m
    ensures d == 0
  {
  }

  /** Quotient and remainder are unique. */
  lemma UniqueDivMod(v: int, p: int, q: int, r: int)
    requires 0 <= r < p && v == q * p + r
    ensures v / p == q && v % p == r
  {
    DivMod(v, p);
    var d := v / p - q;
    assert d * p == (v / p) * p - q * p;
    OnlyZeroIsSmall(d, p);
  }

  /** One multiple more. */
  lemma StepUp(i: nat, n: nat, each: nat)
    requires i < n
    ensures i * each + each == (i + 1) * each <= n * each
  {
    assert n * each == (i + 1) * each + (n - (i + 1)) * each;
  }

  /** The multiple of m by which two congruent numbers differ. */
  lemma Difference(a: int, b: int, m: int) returns (k: int)
    requires m > 0 && Cong(a, b, m)
    ensures a == b + k * m
  {
    DivMod(a, m);
    DivMod(b, m);
    k := a / m - b / m;
    assert k * m == (a / m) * m - (b / m) * m;
  }

  lemma CongMod(a: int, m: int)
    requires m > 0
    ensures Cong(a % m, a, m)
  {
    DivMod(a, m);
    AddMultiple(a % m, a / m, m);
  }

  lemma SmallMod(a: int, m: int)
    requires 0 <= a < m
    ensures a % m == a
  {
  }

  lemma CongAdd(a: int, b: int, c: int, d: int, m: int)
    requires m > 0 && Cong(a, b, m) && Cong(c, d, m)
    ensures Cong(a + c, b + d, m)
  {
    hide Cong;
    var j := Difference(a, b, m);
    var k := Difference(c, d, m);
    assert (j + k) * m == j * m + k * m;
    AddMultiple(b + d, j + k, m);
    SameResidue(a + c, b + d, m);
  }

  lemma CongSub(a: int, b: int, c: int, d: int, m: int)
    requires m > 0 && Cong(a, b, m) && Cong(c, d, m)
    ensures Cong(a - c, b - d, m)
  {
    hide Cong;
    var j := Difference(a, b, m);
    var k := Difference(c, d, m);
    assert (j - k) * m == j * m - k * m;
    AddMultiple(b - d, j - k, m);
    SameResidue(a - c, b - d, m);
  }

  lemma CongScale(a: int, b: int, c: int, m: int)
    requires m > 0 && Cong(a, b, m)
    ensures Cong(a * c, b * c, m) && Cong(c * a, c * b, m)
  {
    hide Cong;
    var j := Difference(a, b, m);
    ScaleMultiple(b, j, m, c);
    AddMultiple(b * c, j * c, m);
    SameResidue(a * c, b * c, m);
    SameResidue(c * a, c * b, m);
  }

  lemma ScaleMultiple(b: int, j: int, m: int, c: int)
    ensures (b + j * m) * c == b * c + (j * c) * m == c * (b + j * m)
  {
    assert (b + j * m) * c == b * c + (j * m) * c;
    assert (j * m) * c == (j * c) * m;
  }

  lemma SameResidue(a: int, b: int, m: int)
    requires m > 0 && a % m == b % m
    ensures Cong(a, b, m)
  {
  }

  lemma CongMul(a: int, b: int, c: int, d: int, m: int)
    requires m > 0 && Cong(a, b, m) && Cong(c, d, m)
    ensures Cong(a * c, b * d, m)
  {
    CongScale(a, b, c, m);
    CongScale(c, d, b, m);
  }

  /** Congruent numbers in [0, m) are equal. */
  lemma CongSmall(a: int, b: int, m: int)
    requires 0 <= a < m && 0 <= b < m && Cong(a, b, m)
    ensures a == b
  {
  }

  /** p has no divisor strictly between 1 and itself. */
  ghost predicate Prime(p: int) {
    p >= 2 && forall d :: 1 < d < p ==> p % d != 0
  }

  /** g divides a. */
  ghost predicate Divides(g: int, a: int)
    requires g > 0
  {
    exists k :: Multiple(a, k, g)
  }

  predicate Multiple(a: int, k: int, g: int) {
    a == k * g
  }

  function Gcd(a: nat, b: nat): (g: nat)
    ensures a > 0 || b > 0 ==> g > 0
    decreases b
  {
    if b == 0 then a else Gcd(b, a % b)
  }

  lemma {:induction false} GcdDivides(a: nat, b: nat)
    requires a > 0 || b > 0
    ensures Divides(Gcd(a, b), a) && Divides(Gcd(a, b), b)
    decreases b
  {
    var g := Gcd(a, b);
    if b == 0 {
      assert Multiple(a, 1, g);
      assert Multiple(b, 0, g);
    } else {
      GcdDivides(b, a % b);
      DivMod(a, b);
      DividesCombination(g, b, a % b, a / b, a);
    }
  }

  lemma DividesCombination(g: int, b: int, r: int, q: int, a: int)
    requires g > 0 && Divides(g, b) && Divides(g, r) && a == q * b + r
    ensures Divides(g, a)
  {
    var k :| Multiple(b, k, g);
    var l :| Multiple(r, l, g);
    assert (q * k + l) * g == q * (k * g) + l * g;
    assert Multiple(a, q * k + l, g);
  }

  lemma FactorIsSmaller(l: int, g: int)
    requires g > 0 && l * g > 0
    ensures 0 < l && g <= l * g
  {
  }

  /** Everything below a prime is coprime to it. */
  lemma CoprimeBelowPrime(a: nat, p: nat)
    requires Prime(p) && 0 < a < p
    ensures Gcd(p, a) == 1
  {
    var g := Gcd(p, a);
    GcdDivides(p, a);
    var k :| Multiple(p, k, g);
    var l :| Multiple(a, l, g);
    FactorIsSmaller(l, g);
    AddMultiple(0, k, g);
  }

  /** Bezout: the greatest common divisor is a combination of the two numbers. */
  lemma {:induction false} Bezout(a: nat, b: nat) returns (x: int, y: int)
    requires a > 0 || b > 0
    ensures x * a + y * b == Gcd(a, b)
    decreases b
  {
    if b == 0 {
      x, y := 1, 0;
    } else {
      var u, v := Bezout(b, a % b);
      DivMod(a, b);
      x, y := v, u - v * (a / b);
      assert y * b == u * b - v * ((a / b) * b) by {
        assert (u - v * (a / b)) * b == u * b - v * (a / b) * b;
        assert v * (a / b) * b == v * ((a / b) * b);
      }
      assert v * (a % b) == v * a - v * ((a / b) * b);
    }
  }

  /** The residue i is the inverse of a. */
  predicate IsInverse(i: int, a: int, m: int)
    requires m > 0
  {
    0 <= i < m && (a * i) % m == 1 % m
  }

  lemma InverseExists(a: int, p: int)
    requires Prime(p) && a % p != 0
    ensures exists i :: IsInverse(i, a, p)
  {
    var r := a % p;
    CoprimeBelowPrime(r, p);
    var x, y := Bezout(p, r);
    var i := y % p;
    assert r * y == 1 + (-x) * p by {
      assert (-x) * p == -(x * p);
      assert r * y == y * r;
    }
    AddMultiple(1, -x, p);
    CongMod(y, p);
    CongMod(a, p);
    CongMul(r, a, y, i, p);
    assert IsInverse(i, a, p);
  }

  /** A prime modulus has no zero divisors. */
  lemma NoZeroDivisors(a: int, b: int, p: int)
    requires Prime(p) && a % p != 0 && (a * b) % p == 0
    ensures b % p == 0
  {
    InverseExists(a, p);
    var i :| IsInverse(i, a, p);
    CongMul(a * b, 0, i, i, p);
    assert Cong(a * b * i, 0, p);
    CongMul(a * i, 1, b, b, p);
    assert (a * i) * b == a * b * i;
  }
}
