/** Conversion of XOR shares of bits into additive shares modulo p of the integer they spell. */
module Mod2ToModp {
  import opened Modular
  import opened Powers
  import opened Sharing
  import opened Words

  type Bits = seq<bv8>
  type YPair = (nat, nat)

  datatype Result<T> = Ok(value: T) | MismatchedSizes | IncorrectPartyCount

  /** Randomness of one run: XOR shares of mask bits, and additive shares of the matching pairs. */
  datatype Correlated = Correlated(zs: seq<Bits>, ys: seq<seq<YPair>>)

  function U64(x: int): nat {
    x % WORD64
  }

  /** The int64_t a word is read as. */
  function S64(word: nat): int {
    if word < SIGNED64 then word else word - WORD64
  }

  predicate InS64(x: int) {
    -SIGNED64 <= x < SIGNED64
  }

  /** Bit j of every party. */
  function Column(shares: seq<Bits>, j: nat): (column: seq<bv8>)
    requires forall i :: 0 <= i < |shares| ==> j < |shares[i]|
    ensures |column| == |shares| && forall i :: 0 <= i < |shares| ==> column[i] == shares[i][j]
  {
    seq(|shares|, i requires 0 <= i < |shares| => shares[i][j])
  }

  ghost predicate Table(shares: seq<Bits>, n: nat, c: nat) {
    |shares| == n && forall i :: 0 <= i < n ==> |shares[i]| == c
  }

  /** The integer whose bit j is set when bit j of x is nonzero. */
  function BitsValue(x: Bits, c: nat): nat
    requires c <= |x|
  {
    if c == 0 then 0 else BitsValue(x, c - 1) + if x[c - 1] != 0 then Pow2(c - 1) else 0
  }

  /** The bits a set of XOR shares holds. */
  function XorBits(shares: seq<Bits>, c: nat): (x: Bits)
    requires Table(shares, |shares|, c)
    ensures |x| == c
  {
    seq(c, j requires 0 <= j < c => XorAll(Column(shares, j)))
  }

  method Xor2BitFields(a: Bits, b: Bits) returns (r: Result<Bits>)
    ensures r.Ok? <==> |a| == |b|
    ensures r.Ok? ==> |r.value| == |a| && forall k :: 0 <= k < |a| ==> r.value[k] == a[k] ^ b[k]
  {
    if |a| != |b| {
      return MismatchedSizes;
    }
    var result := seq(|a|, _ => 0 as bv8);
    for it := 0 to |a|
      invariant |result| == |a| && forall k :: 0 <= k < it ==> result[k] == a[k] ^ b[k]
    {
      result := result[it := a[it] ^ b[it]];
    }
    r := Ok(result);
  }

  /** The shares of parties 1, 2, ... are the given random fields; party 0 gets the rest. */
  method GenerateMod2Shares(bitsPerShare: nat, partyCount: nat, x: Bits, random: seq<Bits>)
    returns (r: Result<seq<Bits>>)
    requires Table(random, partyCount, bitsPerShare)
    ensures partyCount < 2 ==> r == IncorrectPartyCount
    ensures partyCount >= 2 ==> (r.Ok? <==> |x| == bitsPerShare)
    ensures r.Ok? ==> Table(r.value, partyCount, bitsPerShare) && XorBits(r.value, bitsPerShare) == x
    ensures r.Ok? ==> r.value[1..] == random[1..]
  {
    if partyCount < 2 {
      return IncorrectPartyCount;
    }
    var front := x;
    for it := 1 to partyCount
      invariant |front| == |x| && (it > 1 ==> |x| == bitsPerShare)
      invariant |x| == bitsPerShare ==> forall j :: 0 <= j < |x| ==>
                  front[j] ^ XorAll(Column(random[1..it], j)) == x[j]
    {
      var next := Xor2BitFields(front, random[it]);
      if !next.Ok? {
        return MismatchedSizes;
      }
      FrontStep(front, next.value, x, random, it);
      front := next.value;
    }
    var result := random[0 := front];
    FrontCompletes(front, x, random, partyCount, bitsPerShare);
    r := Ok(result);
  }

  /** One share more is taken out of the front. */
  lemma FrontStep(front: Bits, next: Bits, x: Bits, random: seq<Bits>, it: nat)
    requires 1 <= it < |random| && |front| == |next| == |x|
    requires forall i :: 1 <= i < |random| ==> |random[i]| == |x|
    requires forall j :: 0 <= j < |x| ==> next[j] == front[j] ^ random[it][j]
    requires forall j :: 0 <= j < |x| ==> front[j] ^ XorAll(Column(random[1..it], j)) == x[j]
    ensures forall j :: 0 <= j < |x| ==> next[j] ^ XorAll(Column(random[1..it + 1], j)) == x[j]
  {
    forall j | 0 <= j < |x|
      ensures next[j] ^ XorAll(Column(random[1..it + 1], j)) == x[j]
    {
      var more := random[1..it + 1];
      forall i | 0 <= i < |more|
        ensures |more[i]| == |x|
      {
        assert more[i] == random[i + 1];
      }
      assert more[..it - 1] == random[1..it];
      assert Column(random[1..it + 1], j)[..it - 1] == Column(random[1..it], j);
      MoveShare(front[j], XorAll(Column(random[1..it], j)), random[it][j]);
    }
  }

  lemma FrontCompletes(front: Bits, x: Bits, random: seq<Bits>, n: nat, c: nat)
    requires Table(random, n, c) && n >= 2 && |front| == |x| == c
    requires forall j :: 0 <= j < c ==> front[j] ^ XorAll(Column(random[1..n], j)) == x[j]
    ensures Table(random[0 := front], n, c) && XorBits(random[0 := front], c) == x
  {
    var result := random[0 := front];
    forall j | 0 <= j < c
      ensures XorAll(Column(result, j)) == x[j]
    {
      XorFront(front[j], Column(random[1..n], j));
      assert Column(result, j) == [front[j]] + Column(random[1..n], j);
    }
  }

  lemma MoveShare(front: bv8, rest: bv8, share: bv8)
    ensures (front ^ share) ^ (rest ^ share) == front ^ rest
  {
  }

  ghost predicate AreBits(z: Bits) {
    forall j :: 0 <= j < |z| ==> z[j] == 0 || z[j] == 1
  }

  /** What the pair for mask bit z and position j selects: first when x = z, second otherwise. */
  function PairFor(z: bv8, j: nat): YPair {
    if z == 0 then (0, Pow2(j)) else (Pow2(j), 0)
  }

  /** generateZYSet on the given random bits. */
  method GenerateZYSet(c: nat, z: Bits) returns (ys: seq<YPair>)
    requires |z| == c && c <= 64
    ensures |ys| == c && forall j :: 0 <= j < c ==> ys[j] == PairFor(z[j], j)
  {
    ys := seq(c, _ => (0, 0));
    for j := 0 to c
      invariant |ys| == c && forall k :: 0 <= k < j ==> ys[k] == PairFor(z[k], k)
    {
      if z[j] == 0 {
        ys := ys[j := (0, Pow2(j))];
      } else {
        ys := ys[j := (Pow2(j), 0)];
      }
    }
  }

  /** The largest power of two in a number of c bits. */
  function TopBit(c: nat): nat {
    if c == 0 then 0 else Pow2(c - 1)
  }

  /**
   The 64-bit bounds: the sums of the other parties' shares stay int64_t, the selected sums stay
   words, and p and the largest power of two can be added without signed overflow.
   */
  ghost predicate WithinWords(c: nat, partyCount: nat, p: nat) {
    && 0 < p && p + TopBit(c) < SIGNED64
    && (partyCount - 1) * (p - 1) < SIGNED64
    && c * (p - 1) < WORD64
  }

  /** C++ remainder, which takes the sign of the dividend. */
  function TruncatedMod(a: int, m: int): int
    requires m > 0
  {
    if a >= 0 then a % m else -((-a) % m)
  }

  /** The residue of p - sum + x on words read as int64_t, wherever that does not overflow. */
  method CalculateModPValueFromSumPlusX(p: nat, sum: nat, x: nat) returns (r: nat)
    requires 0 < p < SIGNED64 && sum < WORD64 && x < WORD64
    requires InS64(p - S64(sum)) && InS64(p - S64(sum) + S64(x))
    ensures r < p && Cong(r + S64(sum), S64(x), p)
  {
    var signed := (S64(p) - S64(sum)) + S64(x);
    hide S64;
    assert signed == p - S64(sum) + S64(x) by {
      SmallSigned(p);
    }
    var signedMod := TruncatedMod(signed, p);
    r := if signedMod < 0 then signedMod + p else signedMod;
    hide TruncatedMod;
    TruncatedResidue(signed, p);
    CongMod(signed, p);
    CongAdd(r, signed, S64(sum), S64(sum), p);
    AddMultiple(S64(x), 1, p);
  }

  lemma SmallSigned(word: nat)
    requires word < SIGNED64
    ensures S64(word) == word
  {
  }

  /** Bit 63 is read as a negative number, so a 64-bit value is shared rightly only if p divides 2^64. */
  lemma TopBitLost(p: nat, sum: nat, r: nat)
    requires 0 < p && Cong(r + S64(sum), S64(SIGNED64), p)
    ensures Cong(r + S64(sum), SIGNED64, p) <==> WORD64 % p == 0
  {
    hide S64;
    assert S64(SIGNED64) == SIGNED64 - WORD64 by {
      NegativeWord();
    }
    if WORD64 % p == 0 {
      DivMod(WORD64, p);
      AddMultiple(SIGNED64 - WORD64, WORD64 / p, p);
    }
    if Cong(SIGNED64, SIGNED64 - WORD64, p) {
      var k := Difference(SIGNED64, SIGNED64 - WORD64, p);
      UniqueDivMod(WORD64, p, k, 0);
    }
  }

  lemma NegativeWord()
    ensures S64(SIGNED64) == SIGNED64 - WORD64
  {
  }

  lemma TruncatedResidue(a: int, m: int)
    requires m > 0
    ensures var t := TruncatedMod(a, m); (if t < 0 then t + m else t) == a % m
  {
    if a < 0 {
      CongMod(-a, m);
      CongSub(0, 0, (-a) % m, -a, m);
      AddMultiple(-((-a) % m), 1, m);
      if (-a) % m != 0 {
        SmallMod(m - (-a) % m, m);
      }
    }
  }

  function First(pairs: seq<seq<YPair>>, j: nat): (column: seq<int>)
    requires forall i :: 0 <= i < |pairs| ==> j < |pairs[i]|
    ensures |column| == |pairs| && forall i :: 0 <= i < |pairs| ==> column[i] == pairs[i][j].0
  {
    seq(|pairs|, i requires 0 <= i < |pairs| => pairs[i][j].0)
  }

  function Second(pairs: seq<seq<YPair>>, j: nat): (column: seq<int>)
    requires forall i :: 0 <= i < |pairs| ==> j < |pairs[i]|
    ensures |column| == |pairs| && forall i :: 0 <= i < |pairs| ==> column[i] == pairs[i][j].1
  {
    seq(|pairs|, i requires 0 <= i < |pairs| => pairs[i][j].1)
  }

  ghost predicate YTable(ys: seq<seq<YPair>>, n: nat, c: nat, p: nat) {
    && |ys| == n
    && (forall i :: 0 <= i < n ==> |ys[i]| == c)
    && (forall i, j :: 0 <= i < n && 0 <= j < c ==> ys[i][j].0 < p && ys[i][j].1 < p)
  }

  /** The pairs of column j are additive shares of the pair for the mask bit the zs share. */
  ghost predicate IsCorrelated(r: Correlated, c: nat, n: nat, p: nat) {
    && p > 0 && Table(r.zs, n, c) && YTable(r.ys, n, c, p)
    && AreBits(XorBits(r.zs, c))
    && forall j :: 0 <= j < c ==> SharesPair(r, j, c, n, p)
  }

  /** Column j additively shares the pair. */
  ghost predicate ColumnHolds(ys: seq<seq<YPair>>, j: nat, pair: YPair, p: nat)
    requires p > 0 && forall i :: 0 <= i < |ys| ==> j < |ys[i]|
  {
    Cong(Sum(First(ys, j)), pair.0, p) && Cong(Sum(Second(ys, j)), pair.1, p)
  }

  ghost predicate SharesPair(r: Correlated, j: nat, c: nat, n: nat, p: nat)
    requires p > 0 && Table(r.zs, n, c) && YTable(r.ys, n, c, p) && j < c
  {
    ColumnHolds(r.ys, j, PairFor(XorAll(Column(r.zs, j)), j), p)
  }

  /** The share of party 0 completes the sums of the other parties' pairs. */
  method GenerateFirstPartyPair(p: nat, x: YPair, j: nat, ys: seq<seq<YPair>>, c: nat)
    returns (r: YPair)
    requires |ys| >= 1 && YTable(ys, |ys|, c, p) && j < c && WithinWords(c, |ys|, p)
    requires p + x.0 < SIGNED64 && p + x.1 < SIGNED64
    ensures r.0 < p && Cong(r.0 + Sum(First(ys[1..], j)), x.0, p)
    ensures r.1 < p && Cong(r.1 + Sum(Second(ys[1..], j)), x.1, p)
  {
    hide WithinWords, AtMost, U64, Sum;
    WithinWordsPrime(c, |ys|, p);
    var sum0: nat, sum1: nat := 0, 0;
    NothingYet(ys, j, p);
    for it := 1 to |ys|
      invariant sum0 == Sum(First(ys[1..it], j)) && AtMost(sum0, it - 1, p)
      invariant sum1 == Sum(Second(ys[1..it], j)) && AtMost(sum1, it - 1, p)
    {
      NextParty(ys, it, j);
      GrowingShare(c, it - 1, |ys|, sum0, ys[it][j].0, p);
      GrowingShare(c, it - 1, |ys|, sum1, ys[it][j].1, p);
      sum0 := U64(sum0 + ys[it][j].0);
      sum1 := U64(sum1 + ys[it][j].1);
    }
    assert ys[1..|ys|] == ys[1..];
    SmallSum(c, |ys|, sum0, p);
    SmallSum(c, |ys|, sum1, p);
    NoOverflow(p, sum0, x.0);
    NoOverflow(p, sum1, x.1);
    hide *;
    var r0 := CalculateModPValueFromSumPlusX(p, sum0, x.0);
    var r1 := CalculateModPValueFromSumPlusX(p, sum1, x.1);
    r := (r0, r1);
  }

  lemma NoOverflow(p: nat, sum: nat, x: nat)
    requires sum < SIGNED64 && p + x < SIGNED64
    ensures S64(sum) == sum && S64(x) == x && InS64(p - S64(sum)) && InS64(p - S64(sum) + S64(x))
    ensures p < SIGNED64 && sum < WORD64 && x < WORD64
  {
  }

  /** What the sum of k residues cannot exceed. */
  ghost predicate AtMost(sum: nat, k: nat, p: nat) {
    sum <= k * (p - 1)
  }

  lemma GrowingSum(k: nat, n: nat, sum: nat, y: nat, p: nat, bound: nat)
    requires k < n && AtMost(sum, k, p) && y < p && n * (p - 1) < bound <= WORD64
    ensures AtMost(sum + y, k + 1, p) && U64(sum + y) == sum + y
  {
    StepUp(k, n, p - 1);
    SmallMod(sum + y, WORD64);
  }

  lemma GrowingShare(c: nat, k: nat, n: nat, sum: nat, y: nat, p: nat)
    requires k + 1 < n && AtMost(sum, k, p) && y < p && WithinWords(c, n, p)
    ensures AtMost(sum + y, k + 1, p) && U64(sum + y) == sum + y
  {
    hide AtMost, U64;
    GrowingSum(k, n - 1, sum, y, p, SIGNED64);
  }

  lemma SmallSum(c: nat, n: nat, sum: nat, p: nat)
    requires 1 <= n && AtMost(sum, n - 1, p) && WithinWords(c, n, p)
    ensures sum < SIGNED64
  {
  }

  lemma WithinWordsPrime(c: nat, n: nat, p: nat)
    requires WithinWords(c, n, p)
    ensures 0 < p < SIGNED64 && c <= 63
  {
    hide Pow2;
    if c >= 64 {
      Pow2Monotone(63, c - 1);
      Pow2SixtyFour();
      Pow2Step(63);
    }
  }

  lemma NothingYet(ys: seq<seq<YPair>>, j: nat, p: nat)
    requires |ys| >= 1 && forall i :: 0 <= i < |ys| ==> j < |ys[i]|
    ensures AtMost(0, 0, p) && Sum(First(ys[1..1], j)) == 0 && Sum(Second(ys[1..1], j)) == 0
  {
  }

  lemma NextParty(ys: seq<seq<YPair>>, it: nat, j: nat)
    requires 1 <= it < |ys| && forall i :: 0 <= i < |ys| ==> j < |ys[i]|
    ensures Sum(First(ys[1..it + 1], j)) == Sum(First(ys[1..it], j)) + ys[it][j].0
    ensures Sum(Second(ys[1..it + 1], j)) == Sum(Second(ys[1..it], j)) + ys[it][j].1
  {
    assert First(ys[1..it + 1], j)[..it - 1] == First(ys[1..it], j);
    assert Second(ys[1..it + 1], j)[..it - 1] == Second(ys[1..it], j);
  }

  /** generateModPCorrelatedRandomness, with every random draw as an argument. */
  method GenerateModPCorrelatedRandomness(partyCount: nat, p: nat, c: nat, z: Bits, zRandom: seq<Bits>,
                                          yRandom: seq<seq<YPair>>)
    returns (r: Result<Correlated>)
    requires |z| == c && AreBits(z) && Table(zRandom, partyCount, c)
    requires |yRandom| == partyCount && forall i :: 0 <= i < partyCount ==> |yRandom[i]| == c
    requires WithinWords(c, partyCount, p)
    ensures r.Ok? <==> partyCount >= 2
    ensures r.Ok? ==> IsCorrelated(r.value, c, partyCount, p) && XorBits(r.value.zs, c) == z
    ensures r.Ok? ==> r.value.zs[1..] == zRandom[1..]
    ensures r.Ok? ==> AreDraws(r.value.ys, yRandom, p)
  {
    if partyCount < 2 {
      return IncorrectPartyCount;
    }
    hide WithinWords, ColumnHolds, PairFor, XorBits, IsCorrelated, YTable, AreBits, AreDraws;
    WithinWordsPrime(c, partyCount, p);
    var zs := GenerateMod2Shares(c, partyCount, z, zRandom);
    var ys := RandomRows(partyCount, p, c, yRandom);
    ys := FillFirstRow(ys, z, c, partyCount, p, yRandom);
    r := Ok(Correlated(zs.value, ys));
    AllColumnsHold(r.value, z, c, partyCount, p);
  }

  /** The row of the first party completes every column. */
  method FillFirstRow(rows: seq<seq<YPair>>, z: Bits, c: nat, partyCount: nat, p: nat, ghost yRandom: seq<seq<YPair>>)
    returns (ys: seq<seq<YPair>>)
    requires partyCount >= 2 && |z| == c && AreBits(z) && WithinWords(c, partyCount, p) && 0 < p < SIGNED64 && c <= 63
    requires YTable(rows, partyCount, c, p) && |rows| == partyCount && AreDraws(rows, yRandom, p)
    requires forall i :: 0 <= i < |rows| ==> |rows[i]| == c
    ensures YTable(ys, partyCount, c, p) && AreDraws(ys, yRandom, p)
    ensures forall k :: 0 <= k < c ==> ColumnHolds(ys, k, PairFor(z[k], k), p)
  {
    hide WithinWords, ColumnHolds, PairFor, YTable, AreBits, AreDraws;
    ys := rows;
    var pairs := GenerateZYSet(c, z);
    for j := 0 to c
      invariant YTable(ys, partyCount, c, p) && AreDraws(ys, yRandom, p)
      invariant forall i :: 0 <= i < |ys| ==> |ys[i]| == c
      invariant |ys| == partyCount
      invariant forall k :: 0 <= k < j ==> ColumnHolds(ys, k, PairFor(z[k], k), p)
    {
      PairBound(z[j], j, c, partyCount, p);
      var pair := GenerateFirstPartyPair(p, pairs[j], j, ys, c);
      FrontPair(ys, j, pair, partyCount, c, p);
      ghost var was := ys;
      FirstIsNoDraw(ys, ys[0][j := pair], yRandom, p);
      ys := ys[0 := ys[0][j := pair]];
      CompletePair(was, j, pair, pairs[j], partyCount, c, p);
    }
  }

  lemma AllColumnsHold(r: Correlated, z: Bits, c: nat, n: nat, p: nat)
    requires p > 0 && |z| == c && AreBits(z) && Table(r.zs, n, c) && YTable(r.ys, n, c, p) && XorBits(r.zs, c) == z
    requires forall k :: 0 <= k < c ==> ColumnHolds(r.ys, k, PairFor(z[k], k), p)
    ensures IsCorrelated(r, c, n, p)
  {
    hide ColumnHolds, PairFor;
    forall j | 0 <= j < c
      ensures SharesPair(r, j, c, n, p)
    {
      assert XorBits(r.zs, c)[j] == XorAll(Column(r.zs, j));
    }
  }

  /** Random rows for every party but the first. */
  method RandomRows(partyCount: nat, p: nat, c: nat, yRandom: seq<seq<YPair>>) returns (ys: seq<seq<YPair>>)
    requires partyCount >= 2 && p > 0
    requires |yRandom| == partyCount && forall i :: 0 <= i < partyCount ==> |yRandom[i]| == c
    ensures YTable(ys, partyCount, c, p)
    ensures |ys| == partyCount && forall i :: 0 <= i < |ys| ==> |ys[i]| == c
    ensures AreDraws(ys, yRandom, p)
  {
    ys := seq(partyCount, _ => seq(c, _ => (0, 0)));
    for it := 1 to partyCount
      invariant YTable(ys, partyCount, c, p)
      invariant forall i :: 1 <= i < it ==> IsReduced(ys[i], yRandom[i], p)
    {
      ys := ys[it := ReducedRow(yRandom[it], p)];
    }
  }

  /** Pair for pair the residues of the raw draws. */
  ghost predicate IsReduced(row: seq<YPair>, raw: seq<YPair>, p: nat) {
    && p > 0 && |row| == |raw|
    && forall j :: 0 <= j < |row| ==> row[j].0 == raw[j].0 % p && row[j].1 == raw[j].1 % p
  }

  /** Every party but the first holds its own draws. */
  ghost predicate AreDraws(ys: seq<seq<YPair>>, yRandom: seq<seq<YPair>>, p: nat) {
    |ys| == |yRandom| && forall i :: 1 <= i < |ys| ==> IsReduced(ys[i], yRandom[i], p)
  }

  lemma FirstIsNoDraw(ys: seq<seq<YPair>>, row: seq<YPair>, yRandom: seq<seq<YPair>>, p: nat)
    requires AreDraws(ys, yRandom, p) && |ys| >= 1
    ensures AreDraws(ys[0 := row], yRandom, p)
  {
    hide IsReduced;
  }

  /** generateRandomModPValue on each pair of raw draws. */
  function ReducedRow(raw: seq<YPair>, p: nat): (row: seq<YPair>)
    requires p > 0
    ensures IsReduced(row, raw, p) && forall j :: 0 <= j < |row| ==> row[j].0 < p && row[j].1 < p
  {
    seq(|raw|, j requires 0 <= j < |raw| => (raw[j].0 % p, raw[j].1 % p))
  }

  lemma PairBound(z: bv8, j: nat, c: nat, n: nat, p: nat)
    requires j < c && WithinWords(c, n, p)
    ensures p + PairFor(z, j).0 < SIGNED64 && p + PairFor(z, j).1 < SIGNED64
  {
    hide Pow2;
    Pow2Monotone(j, c - 1);
  }

  /** Only column j of party 0 changes. */
  lemma FrontPair(ys: seq<seq<YPair>>, j: nat, pair: YPair, n: nat, c: nat, p: nat)
    requires YTable(ys, n, c, p) && n >= 1 && j < c && pair.0 < p && pair.1 < p
    ensures var next := ys[0 := ys[0][j := pair]];
      && YTable(next, n, c, p)
      && First(next, j) == [pair.0] + First(ys[1..], j)
      && Second(next, j) == [pair.1] + Second(ys[1..], j)
      && forall k :: 0 <= k < j ==> First(next, k) == First(ys, k) && Second(next, k) == Second(ys, k)
  {
  }

  lemma CompletePair(ys: seq<seq<YPair>>, j: nat, pair: YPair, x: YPair, n: nat, c: nat, p: nat)
    requires YTable(ys, n, c, p) && n >= 1 && j < c && pair.0 < p && pair.1 < p
    requires Cong(pair.0 + Sum(First(ys[1..], j)), x.0, p)
    requires Cong(pair.1 + Sum(Second(ys[1..], j)), x.1, p)
    ensures var next := ys[0 := ys[0][j := pair]];
      && YTable(next, n, c, p) && ColumnHolds(next, j, x, p)
      && forall k, held: YPair :: 0 <= k < j && ColumnHolds(ys, k, held, p) ==> ColumnHolds(next, k, held, p)
  {
    FrontPair(ys, j, pair, n, c, p);
    SumFront(pair.0, First(ys[1..], j));
    SumFront(pair.1, Second(ys[1..], j));
  }

  /**
   CalculateModPForm: with correlated randomness the outputs are additive shares modulo p of the
   integer whose bits the mod-2 shares hold.
   */
  method CalculateModPForm(mod2: seq<Bits>, r: Correlated, c: nat, partyCount: nat, p: nat)
    returns (result: Result<seq<nat>>)
    requires |mod2| == partyCount && IsCorrelated(r, c, partyCount, p) && c * (p - 1) < WORD64
    requires Table(mod2, partyCount, c) ==> AreBits(XorBits(mod2, c))
    ensures result.Ok? <==> Table(mod2, partyCount, c)
    ensures result.Ok? ==> |result.value| == partyCount && forall i :: 0 <= i < partyCount ==> result.value[i] < p
    ensures result.Ok? ==> Cong(Sum(result.value), BitsValue(XorBits(mod2, c), c), p)
  {
    var bShares: seq<Bits> := seq(partyCount, _ => []);
    for it := 0 to partyCount
      invariant |bShares| == partyCount
      invariant forall i :: 0 <= i < it ==> |mod2[i]| == c && IsXor(bShares[i], mod2[i], r.zs[i], c)
    {
      var next := Xor2BitFields(mod2[it], r.zs[it]);
      if !next.Ok? {
        return MismatchedSizes;
      }
      bShares := bShares[it := next.value];
    }
    var selected: seq<nat> := seq(partyCount, _ => 0);
    ghost var x := XorBits(mod2, c);
    SumZeros(selected);
    for j := 0 to c
      invariant |selected| == partyCount && Cong(Sum(selected), BitsValue(x, j), p)
      invariant forall i :: 0 <= i < partyCount ==> AtMost(selected[i], j, p)
    {
      selected := SelectColumn(bShares, mod2, r, j, c, partyCount, p, selected);
    }
    ghost var before := selected;
    for i := 0 to partyCount
      invariant |selected| == partyCount && forall k :: i <= k < partyCount ==> selected[k] == before[k]
      invariant forall k :: 0 <= k < i ==> selected[k] == before[k] % p
    {
      selected := selected[i := selected[i] % p];
    }
    ReduceShares(before, selected, p);
    result := Ok(selected);
  }

  ghost predicate IsXor(b: Bits, x: Bits, y: Bits, c: nat) {
    |b| == |x| == |y| == c && forall k :: 0 <= k < c ==> b[k] == x[k] ^ y[k]
  }

  lemma ReduceShares(before: seq<nat>, after: seq<nat>, p: nat)
    requires p > 0 && |before| == |after|
    requires forall k :: 0 <= k < |before| ==> after[k] == before[k] % p
    ensures Cong(Sum(after), Sum(before), p) && forall k :: 0 <= k < |after| ==> after[k] < p
  {
    forall k | 0 <= k < |before|
      ensures Cong(after[k], before[k], p)
    {
      CongMod(before[k], p);
    }
    SumCong(after, before, p);
  }

  /** The bit all masked shares open to. */
  method RevealBit(bShares: seq<Bits>, j: nat) returns (bFinal: bv8)
    requires forall i :: 0 <= i < |bShares| ==> j < |bShares[i]|
    ensures bFinal == XorAll(Column(bShares, j))
  {
    bFinal := 0;
    assert bShares[..|bShares|] == bShares;
    for i := 0 to |bShares|
      invariant bFinal == XorAll(Column(bShares[..i], j))
    {
      assert Column(bShares[..i + 1], j)[..i] == Column(bShares[..i], j);
      bFinal := bFinal ^ bShares[i][j];
    }
  }

  /** Every party adds the half of its pair that the opened bit selects. */
  method AddSelected(ys: seq<seq<YPair>>, bFinal: bv8, j: nat, c: nat, n: nat, p: nat, selected: seq<nat>)
    returns (result: seq<nat>)
    requires YTable(ys, n, c, p) && j < c && c * (p - 1) < WORD64
    requires |selected| == n && forall i :: 0 <= i < n ==> AtMost(selected[i], j, p)
    ensures |result| == n && forall i :: 0 <= i < n ==> AtMost(result[i], j + 1, p)
    ensures Sum(result) == Sum(selected) + Sum(if bFinal == 0 then First(ys, j) else Second(ys, j))
  {
    ghost var chosen := if bFinal == 0 then First(ys, j) else Second(ys, j);
    result := selected;
    hide AtMost, U64, Sum;
    for i := 0 to n
      invariant |result| == n
      invariant forall k :: 0 <= k < i ==> result[k] == selected[k] + chosen[k] && AtMost(result[k], j + 1, p)
      invariant forall k :: i <= k < n ==> result[k] == selected[k]
    {
      var y := if bFinal == 0 then ys[i][j].0 else ys[i][j].1;
      assert y == chosen[i];
      GrowingSum(j, c, selected[i], y, p, WORD64);
      result := result[i := U64(result[i] + y)];
    }
    SumLinear(selected, chosen, result, 1);
  }

  /** One round of the main loop: reveal the masked bit, add the selected share of every party. */
  method SelectColumn(bShares: seq<Bits>, ghost mod2: seq<Bits>, r: Correlated, j: nat, c: nat,
                      partyCount: nat, p: nat, selected: seq<nat>)
    returns (result: seq<nat>)
    requires IsCorrelated(r, c, partyCount, p) && c * (p - 1) < WORD64 && j < c
    requires Table(mod2, partyCount, c) && AreBits(XorBits(mod2, c)) && |bShares| == partyCount
    requires forall i :: 0 <= i < partyCount ==> IsXor(bShares[i], mod2[i], r.zs[i], c)
    requires |selected| == partyCount && forall i :: 0 <= i < partyCount ==> AtMost(selected[i], j, p)
    requires Cong(Sum(selected), BitsValue(XorBits(mod2, c), j), p)
    ensures |result| == partyCount && forall i :: 0 <= i < partyCount ==> AtMost(result[i], j + 1, p)
    ensures Cong(Sum(result), BitsValue(XorBits(mod2, c), j + 1), p)
  {
    hide AtMost, Sum, Cong, XorBits;
    var bFinal := RevealBit(bShares, j);
    result := AddSelected(r.ys, bFinal, j, c, partyCount, p, selected);
    SelectedBit(mod2, r, bShares, j, c, partyCount, p, bFinal);
    CongAdd(Sum(selected), BitsValue(XorBits(mod2, c), j),
            Sum(if bFinal == 0 then First(r.ys, j) else Second(r.ys, j)),
            if XorBits(mod2, c)[j] != 0 then Pow2(j) else 0, p);
  }

  /** The revealed bit selects shares of 2^j exactly when the hidden bit is one. */
  lemma SelectedBit(mod2: seq<Bits>, r: Correlated, bShares: seq<Bits>, j: nat, c: nat, n: nat, p: nat, bFinal: bv8)
    requires IsCorrelated(r, c, n, p) && Table(mod2, n, c) && AreBits(XorBits(mod2, c)) && j < c
    requires |bShares| == n && forall i :: 0 <= i < n ==> |bShares[i]| == c && IsXor(bShares[i], mod2[i], r.zs[i], c)
    requires bFinal == XorAll(Column(bShares, j))
    ensures Cong(Sum(if bFinal == 0 then First(r.ys, j) else Second(r.ys, j)),
                 if XorBits(mod2, c)[j] != 0 then Pow2(j) else 0, p)
  {
    var x, z := XorBits(mod2, c)[j], XorBits(r.zs, c)[j];
    XorBoth(Column(mod2, j), Column(r.zs, j), Column(bShares, j));
    MaskedBit(x, z);
    assert SharesPair(r, j, c, n, p);
  }

  lemma MaskedBit(x: bv8, z: bv8)
    requires (x == 0 || x == 1) && (z == 0 || z == 1)
    ensures x ^ z == 0 <==> x == z
  {
  }

  /** The whole conversion: fresh randomness for any mask, then the online phase. */
  method Convert(x: Bits, xRandom: seq<Bits>, z: Bits, zRandom: seq<Bits>, yRandom: seq<seq<YPair>>,
                 c: nat, partyCount: nat, p: nat)
    returns (shares: seq<nat>)
    requires partyCount >= 2 && WithinWords(c, partyCount, p) && |x| == |z| == c && AreBits(x) && AreBits(z)
    requires Table(xRandom, partyCount, c) && Table(zRandom, partyCount, c)
    requires |yRandom| == partyCount && forall i :: 0 <= i < partyCount ==> |yRandom[i]| == c
    ensures |shares| == partyCount && Reconstruct(shares, p) == BitsValue(x, c) % p
  {
    var mod2 := GenerateMod2Shares(c, partyCount, x, xRandom);
    var correlated := GenerateModPCorrelatedRandomness(partyCount, p, c, z, zRandom, yRandom);
    var result := CalculateModPForm(mod2.value, correlated.value, c, partyCount, p);
    shares := result.value;
  }
}
