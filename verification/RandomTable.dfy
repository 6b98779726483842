/** The dealer's randomness for one table lookup: a shared offset and its shared unit vector. */
module RandomTable {
  import opened Modular
  import opened Sharing

  /** One party's share: r_ additively modulo r_modulus, u_ bitwise. */
  datatype TableLookup = TableLookup(r: nat, u: seq<bv8>)

  function ModSub(a: int, b: int, m: int): (r: nat)
    requires m > 0
    ensures r < m
  {
    (a - b) % m
  }

  function Offsets(vals: seq<TableLookup>): (rs: seq<int>)
    ensures |rs| == |vals| && forall i :: 0 <= i < |vals| ==> rs[i] == vals[i].r
  {
    seq(|vals|, i requires 0 <= i < |vals| => vals[i].r)
  }

  /** Entry j of every party's vector. */
  function UnitColumn(vals: seq<TableLookup>, j: nat): (column: seq<bv8>)
    requires forall i :: 0 <= i < |vals| ==> j < |vals[i].u|
    ensures |column| == |vals| && forall i :: 0 <= i < |vals| ==> column[i] == vals[i].u[j]
  {
    seq(|vals|, i requires 0 <= i < |vals| => vals[i].u[j])
  }

  function UnitBit(j: nat, r: nat): bv8 {
    if j == r then 1 else 0
  }

  ghost predicate BitVector(u: seq<bv8>, tableSize: nat) {
    |u| == tableSize && forall j :: 0 <= j < tableSize ==> u[j] == 0 || u[j] == 1
  }

  /** The parties share the offset r and the unit vector with its one at r. */
  ghost predicate SharesOffset(vals: seq<TableLookup>, r: nat, tableSize: nat, m: nat) {
    && m > 0 && r < tableSize
    && (forall i :: 0 <= i < |vals| ==> vals[i].r < m && BitVector(vals[i].u, tableSize))
    && Cong(Sum(Offsets(vals)), r, m)
    && (forall j :: 0 <= j < tableSize ==> XorAll(UnitColumn(vals, j)) == UnitBit(j, r))
  }

  /** The state of the loop over parties: those from i on still hold nothing. */
  ghost predicate Dealt(vals: seq<TableLookup>, i: nat, r: nat, tableSize: nat, m: nat) {
    && 1 <= i <= |vals| && SharesOffset(vals, r, tableSize, m)
    && forall k :: i <= k < |vals| ==> vals[k].r == 0 && forall j :: 0 <= j < tableSize ==> vals[k].u[j] == 0
  }

  /** One party's share is its draw, each byte cut down to a bit. */
  predicate IsDraw(share: TableLookup, r: nat, u: seq<bv8>) {
    && share.r == r && |share.u| == |u|
    && forall j :: 0 <= j < |u| ==> share.u[j] == u[j] & 1
  }

  /**
   RandomTableLookupInfo::generate, with the random offset, the random shares and the random
   bytes as arguments.
   */
  method Generate(nParties: nat, tableSize: nat, m: nat, r: nat, rRandom: seq<nat>, uRandom: seq<seq<bv8>>)
    returns (vals: seq<TableLookup>)
    requires nParties >= 1 && r < tableSize <= m
    requires |rRandom| == nParties && forall i :: 0 <= i < nParties ==> rRandom[i] < m
    requires |uRandom| == nParties && forall i :: 0 <= i < nParties ==> |uRandom[i]| == tableSize
    ensures |vals| == nParties && SharesOffset(vals, r, tableSize, m)
    ensures forall i :: 1 <= i < nParties ==> vals[i].r == rRandom[i]
    ensures forall i, j :: 1 <= i < nParties && 0 <= j < tableSize ==> vals[i].u[j] == uRandom[i][j] & 1
  {
    vals := seq(nParties, _ => TableLookup(0, seq(tableSize, _ => 0 as bv8)));
    vals := vals[0 := TableLookup(r, vals[0].u[r := 1])];
    GenerateStart(vals, r, tableSize, m);
    for i := 1 to nParties
      invariant |vals| == nParties && Dealt(vals, i, r, tableSize, m)
      invariant forall k :: 1 <= k < i ==> IsDraw(vals[k], rRandom[k], uRandom[k])
    {
      var orig, share := vals[0], TableLookup(rRandom[i], uRandom[i]);
      orig := orig.(r := ModSub(orig.r, share.r, m));
      for j := 0 to tableSize
        invariant orig.r == ModSub(vals[0].r, rRandom[i], m) && share.r == rRandom[i]
        invariant |orig.u| == |share.u| == tableSize
        invariant forall k :: 0 <= k < j ==> orig.u[k] == vals[0].u[k] ^ (uRandom[i][k] & 1)
        invariant forall k :: 0 <= k < j ==> share.u[k] == uRandom[i][k] & 1
        invariant forall k :: j <= k < tableSize ==> orig.u[k] == vals[0].u[k] && share.u[k] == uRandom[i][k]
      {
        orig := orig.(u := orig.u[j := orig.u[j] ^ (share.u[j] & 1)]);
        share := share.(u := share.u[j := share.u[j] & 1]);
      }
      GenerateStep(vals, i, r, tableSize, m, orig, share);
      vals := vals[0 := orig][i := share];
    }
  }

  lemma GenerateStart(vals: seq<TableLookup>, r: nat, tableSize: nat, m: nat)
    requires |vals| >= 1 && r < tableSize <= m
    requires vals[0].r == r && BitVector(vals[0].u, tableSize)
    requires forall j :: 0 <= j < tableSize ==> vals[0].u[j] == UnitBit(j, r)
    requires forall k :: 1 <= k < |vals| ==> vals[k].r == 0 && |vals[k].u| == tableSize
    requires forall k, j :: 1 <= k < |vals| && 0 <= j < tableSize ==> vals[k].u[j] == 0
    ensures Dealt(vals, 1, r, tableSize, m)
  {
    var zeros := Offsets(vals)[0 := 0];
    SumZeros(zeros);
    SumUpdate(zeros, 0, r);
    assert zeros[0 := r] == Offsets(vals);
    forall j | 0 <= j < tableSize
      ensures XorAll(UnitColumn(vals, j)) == UnitBit(j, r)
    {
      var none := UnitColumn(vals, j)[0 := 0];
      XorZeros(none);
      XorUpdate(none, 0, UnitBit(j, r));
      assert none[0 := UnitBit(j, r)] == UnitColumn(vals, j);
    }
  }

  lemma GenerateStep(vals: seq<TableLookup>, i: nat, r: nat, tableSize: nat, m: nat, orig: TableLookup,
                     share: TableLookup)
    requires 1 <= i < |vals| && Dealt(vals, i, r, tableSize, m) && share.r < m
    requires orig.r == ModSub(vals[0].r, share.r, m)
    requires |orig.u| == tableSize && BitVector(share.u, tableSize)
    requires forall k :: 0 <= k < tableSize ==> orig.u[k] == vals[0].u[k] ^ share.u[k]
    ensures Dealt(vals[0 := orig][i := share], i + 1, r, tableSize, m)
  {
    var next := vals[0 := orig][i := share];
    var rs := Offsets(vals);
    assert Offsets(next) == rs[0 := orig.r][i := share.r];
    SumUpdate(rs, 0, orig.r);
    SumUpdate(rs[0 := orig.r], i, share.r);
    CongMod(vals[0].r - share.r, m);
    CongAdd(orig.r, vals[0].r - share.r, Sum(rs) - vals[0].r + share.r, Sum(rs) - vals[0].r + share.r, m);
    forall j | 0 <= j < tableSize
      ensures XorAll(UnitColumn(next, j)) == UnitBit(j, r)
    {
      var us := UnitColumn(vals, j);
      assert UnitColumn(next, j) == us[0 := orig.u[j]][i := share.u[j]];
      XorUpdate(us, 0, orig.u[j]);
      XorUpdate(us[0 := orig.u[j]], i, share.u[j]);
      XorMoves(XorAll(us), us[0], share.u[j]);
    }
    assert BitVector(orig.u, tableSize);
  }

  lemma XorMoves(x: bv8, a: bv8, s: bv8)
    ensures ((x ^ a ^ (a ^ s)) ^ 0) ^ s == x
  {
  }

  lemma {:induction false} XorZeros(shares: seq<bv8>)
    requires forall i :: 0 <= i < |shares| ==> shares[i] == 0
    ensures XorAll(shares) == 0
  {
    if |shares| > 0 {
      XorZeros(shares[..|shares| - 1]);
    }
  }
}
