/** Integers on the wire: most significant byte first (EvBufferWrapper). */
module Wire {
  import opened Modular
  import opened Powers

  newtype Byte = b: int | 0 <= b < 256

  function Pow256(n: nat): (p: nat)
    ensures p >= 1
  {
    if n == 0 then 1 else 256 * Pow256(n - 1)
  }

  /** The n low bytes of v. */
  function BigEndian(v: nat, n: nat): (s: seq<Byte>)
    ensures |s| == n
  {
    if n == 0 then [] else BigEndian(v / 256, n - 1) + [(v % 256) as Byte]
  }

  function FromBigEndian(s: seq<Byte>): nat {
    if s == [] then 0 else 256 * FromBigEndian(s[..|s| - 1]) + s[|s| - 1] as nat
  }

  lemma DivideAgain(v: nat, p: nat)
    requires p > 0
    ensures (v / 256) / p == v / (256 * p)
    ensures 256 * ((v / 256) % p) + v % 256 == v % (256 * p)
  {
    var q, r := (v / 256) / p, (v / 256) % p;
    var whole := 256 * p;
    assert v / 256 == q * p + r;
    assert v == q * whole + (256 * r + v % 256) by {
      assert 256 * (q * p) == q * whole;
    }
    assert 256 * r + v % 256 < whole;
    UniqueDivMod(v, whole, q, 256 * r + v % 256);
  }

  /** Reading back gives the value truncated to n bytes. */
  lemma {:induction false} ReadsBack(v: nat, n: nat)
    ensures FromBigEndian(BigEndian(v, n)) == v % Pow256(n)
  {
    if n > 0 {
      ReadsBack(v / 256, n - 1);
      DivideAgain(v, Pow256(n - 1));
      assert BigEndian(v, n)[..n - 1] == BigEndian(v / 256, n - 1);
    }
  }

  /** And writing what was read gives the same bytes. */
  lemma {:induction false} WritesBack(s: seq<Byte>)
    ensures BigEndian(FromBigEndian(s), |s|) == s
    ensures FromBigEndian(s) < Pow256(|s|)
  {
    if s != [] {
      WritesBack(s[..|s| - 1]);
    }
  }

  lemma {:induction false} ByteAt(v: nat, n: nat, i: nat)
    requires i < n
    ensures BigEndian(v, n)[i] as nat == (v / Pow256(n - 1 - i)) % 256
  {
    if i < n - 1 {
      ByteAt(v / 256, n - 1, i);
      DivideAgain(v, Pow256(n - 2 - i));
    }
  }

  /** Four bytes spelled out. */
  lemma FourBytes(v: nat)
    ensures var s := BigEndian(v, 4);
      && s[0] as nat == v / 0x100_0000 % 256 && s[1] as nat == v / 0x1_0000 % 256
      && s[2] as nat == v / 256 % 256 && s[3] as nat == v % 256
  {
    hide BigEndian;
    SmallPowers();
    ByteAt(v, 4, 0);
    ByteAt(v, 4, 1);
    ByteAt(v, 4, 2);
    ByteAt(v, 4, 3);
  }

  lemma SmallPowers()
    ensures Pow256(0) == 1 && Pow256(1) == 256 && Pow256(2) == 0x1_0000 && Pow256(3) == 0x100_0000
  {
    assert Pow256(3) == 256 * Pow256(2);
  }

  /** EvBufferWrapper::write: one shift and one truncation per byte. */
  method WriteInteger(v: nat, n: nat) returns (bytes: seq<Byte>)
    ensures bytes == BigEndian(v, n)
  {
    bytes := [];
    for i := 0 to n
      invariant bytes == BigEndian(v, n)[..i]
    {
      ByteAt(v, n, i);
      bytes := bytes + [((v / Pow256(n - 1 - i)) % 256) as Byte];
    }
  }

  /** Bitwise or. */
  function Or(a: nat, b: nat): (c: nat)
    decreases a + b
  {
    if a == 0 && b == 0 then 0
    else 2 * Or(a / 2, b / 2) + (if a % 2 == 1 || b % 2 == 1 then 1 else 0)
  }

  lemma {:induction false} OrNothing(a: nat)
    ensures Or(a, 0) == a
    decreases a
  {
    if a > 0 {
      OrNothing(a / 2);
    }
  }

  lemma EvenHalf(x: nat)
    ensures (2 * x) / 2 == x && (2 * x) % 2 == 0
  {
  }

  /** Below the lowest bit of a multiple of 2^k the bits of b meet none of it: or is addition. */
  lemma {:induction false} OrIsSum(h: nat, k: nat, b: nat)
    requires b < Pow2(k)
    ensures Or(h * Pow2(k), b) == h * Pow2(k) + b
    decreases k
  {
    var a := h * Pow2(k);
    if k == 0 {
      OrNothing(a);
    } else {
      var half := h * Pow2(k - 1);
      assert a == 2 * half;
      EvenHalf(half);
      OrIsSum(h, k - 1, b / 2);
      hide Pow2;
      assert b == 2 * (b / 2) + b % 2;
    }
  }

  lemma {:induction false} Pow256IsPow2(n: nat)
    ensures Pow256(n) == Pow2(8 * n)
  {
    if n > 0 {
      Pow256IsPow2(n - 1);
      Pow2Sum(8, 8 * (n - 1));
      assert Pow2(8) == 256;
    }
  }

  /** One byte, shifted to its place below the bytes before it, is or-ed to them. */
  lemma OrByte(high: nat, byte: Byte, n: nat)
    ensures Or(high * Pow256(n + 1), byte as nat * Pow256(n)) == (256 * high + byte as nat) * Pow256(n)
  {
    var p := Pow256(n);
    var low := byte as nat * p;
    Pow256IsPow2(n + 1);
    StepUp(byte as nat, 256, p);
    assert low < Pow256(n + 1);
    OrIsSum(high, 8 * (n + 1), low);
    hide Pow256, Or, Pow2;
    Spread(high, byte as nat, p);
  }

  lemma Spread(high: nat, byte: nat, p: nat)
    ensures high * (256 * p) + byte * p == (256 * high + byte) * p
  {
  }

  lemma OneByteMore(bytes: seq<Byte>, i: nat)
    requires i < |bytes|
    ensures FromBigEndian(bytes[..i + 1]) == 256 * FromBigEndian(bytes[..i]) + bytes[i] as nat
  {
    assert bytes[..i + 1][..i] == bytes[..i];
  }

  lemma NoBytes(n: nat)
    ensures FromBigEndian([]) * Pow256(n) == 0 && Pow256(0) == 1
  {
  }

  /** EvBufferWrapper::read: every byte is shifted to its place and or-ed in. */
  method ReadInteger(bytes: seq<Byte>) returns (v: nat)
    ensures v == FromBigEndian(bytes)
  {
    hide Or, Pow256, FromBigEndian;
    v := 0;
    var n := |bytes|;
    NoBytes(n);
    assert bytes[..0] == [];
    for i := 0 to n
      invariant v == FromBigEndian(bytes[..i]) * Pow256(n - i)
    {
      OrByte(FromBigEndian(bytes[..i]), bytes[i], n - 1 - i);
      OneByteMore(bytes, i);
      v := Or(v, bytes[i] as nat * Pow256(n - 1 - i));
    }
    assert bytes[..n] == bytes;
  }
}
