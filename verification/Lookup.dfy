/** The oblivious table lookup: one fronctocol per data owner, and the run of all of them. */
module LookupProtocol {
  import opened Modular
  import opened Sharing
  import opened RandomTable
  import opened Sequences
  import opened Words


  datatype LookupState = AwaitingCompare | AwaitingTypeCastFromBit

  /** The row a party reads at offset i, in size_t arithmetic. */
  function CellIndex(v: nat, i: nat, tableSize: nat): (row: nat)
    requires tableSize > 0
    ensures row < tableSize
  {
    ((v % WORD64 + i) % WORD64) % tableSize
  }

  function Select(bit: bv8, cell: bv8): bv8 {
    if bit == 1 then cell else 0
  }

  ghost predicate IsTable(table: seq<seq<bv8>>, tableSize: nat, byteLength: nat) {
    0 < tableSize <= |table| && forall i :: 0 <= i < |table| ==> byteLength <= |table[i]|
  }

  /** Byte j of the exclusive or of the rows that the first k entries of u select. */
  function RowXor(u: seq<bv8>, table: seq<seq<bv8>>, v: nat, tableSize: nat, byteLength: nat, j: nat, k: nat): bv8
    requires IsTable(table, tableSize, byteLength) && j < byteLength && k <= |u|
  {
    if k == 0 then 0 else
    RowXor(u, table, v, tableSize, byteLength, j, k - 1) ^ Select(u[k - 1], table[CellIndex(v, k - 1, tableSize)][j])
  }

  /** The index share of one party, given its share of the comparison bit. */
  function IndexShare(location: nat, r: nat, bitShare: nat, tableSize: nat, m: nat): (v: nat)
    requires r < m
    ensures v < m
  {
    ((m + location - r) + bitShare * tableSize) % m
  }

  class Lookup {
    const locationShare: nat
    const random: TableLookup
    const table: seq<seq<bv8>>
    const tableSize: nat
    const modulus: nat
    const byteLength: nat
    const isRevealer: bool
    const numOthers: nat

    var state: LookupState
    var revealedValue: nat
    var numPartiesAwaiting: nat
    var output: seq<bv8>
    var completed: bool
    /** Values written to the revealer, and values the revealer wrote to each other data owner. */
    var sentToRevealer: seq<nat>
    var broadcast: seq<nat>

    ghost predicate Valid() {
      && IsTable(table, tableSize, byteLength) && random.r < modulus
      && |random.u| == tableSize
    }

    constructor (locationShare: nat, random: TableLookup, table: seq<seq<bv8>>, tableSize: nat, modulus: nat,
                 byteLength: nat, isRevealer: bool, numOthers: nat)
      requires IsTable(table, tableSize, byteLength) && random.r < modulus && |random.u| == tableSize
      ensures Valid() && this.locationShare == locationShare && this.random == random && this.table == table
      ensures this.tableSize == tableSize && this.modulus == modulus && this.byteLength == byteLength
      ensures this.isRevealer == isRevealer && this.numOthers == numOthers
      ensures state == AwaitingCompare && numPartiesAwaiting == 0 && !completed && output == []
      ensures sentToRevealer == [] && broadcast == []
    {
      this.locationShare, this.random, this.table := locationShare, random, table;
      this.tableSize, this.modulus, this.byteLength := tableSize, modulus, byteLength;
      this.isRevealer, this.numOthers := isRevealer, numOthers;
      state, revealedValue, numPartiesAwaiting, completed := AwaitingCompare, 0, 0, false;
      output, sentToRevealer, broadcast := [], [], [];
    }

    /** The share that init hands to the comparison with zero. */
    function Comparand(): (v: nat)
      requires Valid()
    {
      ModSub(locationShare, random.r, modulus)
    }

    /** The share that goes to the revealer once the comparison bit is cast. */
    function MyIndexShare(bitShare: nat): (v: nat)
      requires Valid()
    {
      IndexShare(locationShare, random.r, bitShare, tableSize, modulus)
    }

    /** Completion of the comparison, then of the cast of its bit. */
    method HandleComplete(share: nat)
      requires Valid()
      modifies this
      ensures old(state).AwaitingCompare? ==>
        && state == AwaitingTypeCastFromBit
        && numPartiesAwaiting == old(numPartiesAwaiting) && revealedValue == old(revealedValue)
        && sentToRevealer == old(sentToRevealer)
      ensures old(state).AwaitingTypeCastFromBit? ==>
        var v := MyIndexShare(share);
        && state == old(state)
        && (isRevealer ==> revealedValue == v && numPartiesAwaiting == old(numPartiesAwaiting) + numOthers
                           && sentToRevealer == old(sentToRevealer))
        && (!isRevealer ==> sentToRevealer == old(sentToRevealer) + [v] && numPartiesAwaiting == 0
                            && revealedValue == old(revealedValue))
      ensures output == old(output) && completed == old(completed) && broadcast == old(broadcast)
    {
      match state {
        case AwaitingCompare =>
          state := AwaitingTypeCastFromBit;
        case AwaitingTypeCastFromBit =>
          SendIndexShare(((modulus + locationShare - random.r) + share * tableSize) % modulus);
      }
    }

    method SendIndexShare(val: nat)
      modifies this
      ensures isRevealer ==> revealedValue == val && numPartiesAwaiting == old(numPartiesAwaiting) + numOthers
                             && sentToRevealer == old(sentToRevealer)
      ensures !isRevealer ==> sentToRevealer == old(sentToRevealer) + [val] && numPartiesAwaiting == 0
                              && revealedValue == old(revealedValue)
      ensures state == old(state) && output == old(output) && completed == old(completed)
      ensures broadcast == old(broadcast)
    {
      if !isRevealer {
        sentToRevealer := sentToRevealer + [val];
        numPartiesAwaiting := 0;
      } else {
        for other := 0 to numOthers
          invariant numPartiesAwaiting == old(numPartiesAwaiting) + other
          invariant sentToRevealer == old(sentToRevealer) && state == old(state)
          invariant output == old(output) && completed == old(completed) && broadcast == old(broadcast)
        {
          numPartiesAwaiting := numPartiesAwaiting + 1;
        }
        revealedValue := val;
      }
    }

    /** What this party's output becomes once the index v is revealed. */
    ghost predicate Finished(before: seq<bv8>, v: nat)
      requires Valid()
      reads this
    {
      && completed && revealedValue == v && |output| == byteLength
      && forall j :: 0 <= j < byteLength ==>
           output[j] == Resize(before, byteLength, 0)[j]
                      ^ RowXor(random.u, table, v, tableSize, byteLength, j, |random.u|)
    }

    method HandleReceive(val: nat)
      requires Valid()
      modifies this
      ensures old(numPartiesAwaiting) == 0 ==>
        Finished(old(output), val) && numPartiesAwaiting == 0 && broadcast == old(broadcast)
      ensures old(numPartiesAwaiting) > 0 ==>
        var sum := (old(revealedValue) + val) % modulus;
        && numPartiesAwaiting == old(numPartiesAwaiting) - 1 && revealedValue == sum
        && (numPartiesAwaiting == 0 ==> Finished(old(output), sum) && broadcast == old(broadcast) + [sum])
        && (numPartiesAwaiting > 0 ==> output == old(output) && completed == old(completed)
                                       && broadcast == old(broadcast))
      ensures state == old(state) && sentToRevealer == old(sentToRevealer)
    {
      if numPartiesAwaiting == 0 {
        revealedValue := val;
        ComputeFinalShare();
      } else {
        revealedValue := revealedValue + val;
        revealedValue := revealedValue % modulus;
        numPartiesAwaiting := numPartiesAwaiting - 1;
        if numPartiesAwaiting == 0 {
          broadcast := broadcast + [revealedValue];
          ComputeFinalShare();
        }
      }
    }

    method ComputeFinalShare()
      requires Valid()
      modifies this`output, this`completed
      ensures Finished(old(output), revealedValue)
    {
      ghost var start := Resize(output, byteLength, 0);
      ghost var v := revealedValue;
      output := Resize(output, byteLength, 0);
      for i := 0 to |random.u|
        invariant |output| == byteLength
        invariant forall j :: 0 <= j < byteLength ==>
                    output[j] == start[j] ^ RowXor(random.u, table, v, tableSize, byteLength, j, i)
      {
        ghost var before := output;
        var row := CellIndex(revealedValue, i, tableSize);
        if random.u[i] == 1 {
          for j := 0 to byteLength
            invariant |output| == byteLength
            invariant forall k :: 0 <= k < j ==> output[k] == before[k] ^ table[row][k]
            invariant forall k :: j <= k < byteLength ==> output[k] == before[k]
          {
            output := output[j := output[j] ^ table[row][j]];
          }
        }
        forall j | 0 <= j < byteLength
          ensures output[j] == start[j] ^ RowXor(random.u, table, v, tableSize, byteLength, j, i + 1)
        {
          XorRegroup(start[j], RowXor(random.u, table, v, tableSize, byteLength, j, i),
                  Select(random.u[i], table[row][j]));
        }
      }
      completed := true;
    }
  }

  lemma XorRegroup(a: bv8, b: bv8, c: bv8)
    ensures (a ^ b) ^ c == a ^ (b ^ c) && a ^ b ^ 0 == a ^ b
  {
  }

  // ----- what the shares reconstruct to

  lemma {:induction false} XorSelected(bits: seq<bv8>, cell: bv8, picked: seq<bv8>)
    requires |picked| == |bits| && forall i :: 0 <= i < |bits| ==> bits[i] == 0 || bits[i] == 1
    requires forall i :: 0 <= i < |bits| ==> picked[i] == Select(bits[i], cell)
    ensures (XorAll(bits) == 0 || XorAll(bits) == 1) && XorAll(picked) == Select(XorAll(bits), cell)
  {
    if |bits| > 0 {
      var n := |bits| - 1;
      XorSelected(bits[..n], cell, picked[..n]);
      SelectXor(XorAll(bits[..n]), bits[n], cell);
    }
  }

  lemma SelectXor(a: bv8, b: bv8, cell: bv8)
    requires (a == 0 || a == 1) && (b == 0 || b == 1)
    ensures (a ^ b == 0 || a ^ b == 1) && Select(a ^ b, cell) == Select(a, cell) ^ Select(b, cell)
  {
  }

  /** Byte j of every party's selected rows among the first k. */
  function Picked(vals: seq<TableLookup>, table: seq<seq<bv8>>, v: nat, tableSize: nat, byteLength: nat, j: nat,
                  k: nat): (bytes: seq<bv8>)
    requires IsTable(table, tableSize, byteLength) && j < byteLength && k <= tableSize
    requires forall i :: 0 <= i < |vals| ==> |vals[i].u| == tableSize
    ensures |bytes| == |vals|
  {
    seq(|vals|, i requires 0 <= i < |vals| => RowXor(vals[i].u, table, v, tableSize, byteLength, j, k))
  }

  /** Together the parties pick the one row at the hidden offset. */
  lemma {:induction false} PickedRow(vals: seq<TableLookup>, table: seq<seq<bv8>>, v: nat, tableSize: nat,
                                     byteLength: nat, j: nat, k: nat, r: nat, m: nat)
    requires IsTable(table, tableSize, byteLength) && j < byteLength && k <= tableSize
    requires SharesOffset(vals, r, tableSize, m)
    ensures XorAll(Picked(vals, table, v, tableSize, byteLength, j, k))
            == if r < k then table[CellIndex(v, r, tableSize)][j] else 0
  {
    if k == 0 {
      XorZeros(Picked(vals, table, v, tableSize, byteLength, j, 0));
    } else {
      var c := k - 1;
      var cell := table[CellIndex(v, c, tableSize)][j];
      PickedRow(vals, table, v, tableSize, byteLength, j, c, r, m);
      var column := UnitColumn(vals, c);
      var chosen := seq(|vals|, i requires 0 <= i < |vals| => Select(column[i], cell));
      XorSelected(column, cell, chosen);
      XorBoth(Picked(vals, table, v, tableSize, byteLength, j, c), chosen,
              Picked(vals, table, v, tableSize, byteLength, j, k));
      XorZeroes(XorAll(Picked(vals, table, v, tableSize, byteLength, j, c)), cell);
    }
  }

  lemma XorZeroes(a: bv8, b: bv8)
    ensures 0 ^ b == b && a ^ 0 == a
  {
  }

  /**
   The comparison of zero with a shared residue c answers one when c is in the upper (negative)
   half, zero when it is positive in the lower half; nothing is assumed of its answer at zero.
   */
  ghost predicate CompareAnswer(b: nat, c: nat, m: nat) {
    b <= 1 && (2 * c > m ==> b == 1) && (0 < c && 2 * c <= m ==> b == 0)
  }

  /** The index that gets revealed: x - r, brought back above zero by the comparison bit. */
  lemma RevealedIndex(x: nat, r: nat, b: nat, c: nat, tableSize: nat, m: nat)
    requires x < tableSize && r < tableSize && 2 * tableSize <= m
    requires c < m && Cong(c, x - r, m) && CompareAnswer(b, c, m)
    ensures var v := x - r + tableSize * b;
      0 <= v <= tableSize && v < m && (v + r) % tableSize == x && (v == tableSize <==> x == r && b == 1)
  {
    if x < r {
      AddMultiple(x - r, 1, m);
      CongSmall(c, m + x - r, m);
    } else {
      CongSmall(c, x - r, m);
    }
    hide Cong;
    assert b == if x < r || (c == 0 && b == 1) then 1 else 0;
    SmallMod(x, tableSize);
    AddMultiple(x, 1, tableSize);
  }

  lemma CellIndexExact(v: nat, r: nat, tableSize: nat)
    requires v <= tableSize && r < tableSize < WORD32
    ensures CellIndex(v, r, tableSize) == (v + r) % tableSize
  {
    SmallMod(v, WORD64);
    SmallMod(v + r, WORD64);
  }

  lemma IndexShareCong(location: nat, r: nat, bitShare: nat, tableSize: nat, m: nat)
    requires r < m
    ensures Cong(IndexShare(location, r, bitShare, tableSize, m), Shifted(location, r, tableSize, bitShare), m)
  {
    CongMod(m + location - r + bitShare * tableSize, m);
    AddMultiple(location - r + tableSize * bitShare, 1, m);
    assert bitShare * tableSize == tableSize * bitShare;
  }

  /** location - r + factor * bit, on shares or on what they reconstruct to. */
  function Shifted(location: int, r: int, factor: nat, bit: int): int {
    location - r + factor * bit
  }

  lemma ShiftedSum(l: int, o: int, b: int, l': int, o': int, b': int, factor: nat)
    ensures Shifted(l, o, factor, b) + Shifted(l', o', factor, b') == Shifted(l + l', o + o', factor, b + b')
  {
    assert factor * (b + b') == factor * b + factor * b';
  }

  lemma ShiftedCong(l: int, x: int, o: int, r: int, t: int, b: int, factor: nat, m: nat)
    requires m > 0 && Cong(l, x, m) && Cong(o, r, m) && Cong(t, b, m)
    ensures Cong(Shifted(l, o, factor, t), Shifted(x, r, factor, b), m)
  {
    CongSub(l, x, o, r, m);
    CongScale(t, b, factor, m);
    CongAdd(l - o, x - r, factor * t, factor * b, m);
  }

  /** All index shares together: x - r plus the bit's multiple of the table size. */
  lemma {:induction false} IndexSharesSum(locations: seq<int>, rs: seq<int>, casts: seq<int>, shares: seq<int>,
                                          factor: nat, m: nat)
    requires |locations| == |rs| == |casts| == |shares| && m > 0
    requires forall i :: 0 <= i < |shares| ==> Cong(shares[i], Shifted(locations[i], rs[i], factor, casts[i]), m)
    ensures Cong(Sum(shares), Shifted(Sum(locations), Sum(rs), factor, Sum(casts)), m)
  {
    if |shares| == 0 {
      ShiftedNothing(factor, m);
      hide Cong, Shifted;
    } else {
      hide Cong, Shifted;
      var n := |shares| - 1;
      IndexSharesSum(locations[..n], rs[..n], casts[..n], shares[..n], factor, m);
      ShiftedStep(Sum(shares[..n]), Sum(locations[..n]), Sum(rs[..n]), Sum(casts[..n]),
                  shares[n], locations[n], rs[n], casts[n], factor, m);
    }
  }

  lemma ShiftedNothing(factor: nat, m: nat)
    requires m > 0
    ensures Cong(0, Shifted(0, 0, factor, 0), m)
  {
  }

  lemma ShiftedStep(v: int, l: int, o: int, b: int, v': int, l': int, o': int, b': int, factor: nat, m: nat)
    requires m > 0 && Cong(v, Shifted(l, o, factor, b), m) && Cong(v', Shifted(l', o', factor, b'), m)
    ensures Cong(v + v', Shifted(l + l', o + o', factor, b + b'), m)
  {
    CongAdd(v, Shifted(l, o, factor, b), v', Shifted(l', o', factor, b'), m);
    ShiftedSum(l, o, b, l', o', b', factor);
    hide Cong, Shifted;
  }

  // ----- a run of all parties

  ghost predicate Distinct(parties: seq<Lookup>) {
    forall i, j :: 0 <= i < j < |parties| ==> parties[i] != parties[j]
  }

  function Randoms(parties: seq<Lookup>): (vals: seq<TableLookup>)
    ensures |vals| == |parties|
  {
    seq(|parties|, i requires 0 <= i < |parties| => parties[i].random)
  }

  function Locations(parties: seq<Lookup>): (shares: seq<int>)
    ensures |shares| == |parties|
  {
    seq(|parties|, i requires 0 <= i < |parties| => parties[i].locationShare)
  }

  function Comparands(parties: seq<Lookup>): (shares: seq<int>)
    requires forall i :: 0 <= i < |parties| ==> parties[i].Valid()
    ensures |shares| == |parties|
  {
    seq(|parties|, i requires 0 <= i < |parties| => parties[i].Comparand())
  }

  function IndexShares(parties: seq<Lookup>, casts: seq<nat>): (shares: seq<int>)
    requires |casts| == |parties| && forall i :: 0 <= i < |parties| ==> parties[i].Valid()
    ensures |shares| == |parties|
  {
    seq(|parties|, i requires 0 <= i < |parties| => parties[i].MyIndexShare(casts[i]))
  }

  /** The parties were built for the same lookup, and party 0 is the revealer. */
  ghost predicate SameLookup(parties: seq<Lookup>, table: seq<seq<bv8>>, tableSize: nat, byteLength: nat, m: nat) {
    && |parties| >= 2 && Distinct(parties)
    && forall i :: 0 <= i < |parties| ==> Configured(parties[i], table, tableSize, byteLength, m, |parties|, i == 0)
  }

  ghost predicate Configured(p: Lookup, table: seq<seq<bv8>>, tableSize: nat, byteLength: nat, m: nat, n: nat,
                             first: bool) {
    && p.Valid() && p.table == table && p.tableSize == tableSize && p.byteLength == byteLength
    && p.modulus == m && p.numOthers == n - 1 && p.isRevealer == first
  }

  /** Nothing revealed and nothing computed yet. */
  ghost predicate Idle(p: Lookup, state: LookupState, sent: seq<nat>)
    reads p
  {
    && p.state == state && p.numPartiesAwaiting == 0 && p.output == [] && !p.completed
    && p.sentToRevealer == sent && p.broadcast == []
  }

  /** The revealer after it ran sendIndexShare, waiting for so many shares. */
  ghost predicate Collecting(p: Lookup, waiting: nat, sum: int, m: nat)
    requires m > 0
    reads p
  {
    && p.numPartiesAwaiting == waiting && p.revealedValue < m && Cong(p.revealedValue, sum, m)
    && p.output == [] && p.broadcast == []
  }

  lemma ShareContents(parties: seq<Lookup>, table: seq<seq<bv8>>, tableSize: nat, byteLength: nat, m: nat,
                      casts: seq<nat>, i: nat)
    requires SameLookup(parties, table, tableSize, byteLength, m) && |casts| == |parties| && i < |parties|
    ensures m > 0 && parties[i].Valid()
    ensures Cong(parties[i].Comparand(), Shifted(parties[i].locationShare, parties[i].random.r, 0, casts[i]), m)
    ensures Cong(parties[i].MyIndexShare(casts[i]),
                 Shifted(parties[i].locationShare, parties[i].random.r, tableSize, casts[i]), m)
  {
    var p := parties[i];
    assert Configured(p, table, tableSize, byteLength, m, |parties|, i == 0);
    CongMod(p.locationShare - p.random.r, m);
    IndexShareCong(p.locationShare, p.random.r, casts[i], tableSize, m);
    assert Shifted(p.locationShare, p.random.r, 0, casts[i]) == p.locationShare - p.random.r;
    hide IndexShare, Cong, Shifted;
  }

  lemma SharesAddUp(locations: seq<int>, rs: seq<int>, casts: seq<int>, shares: seq<int>, factor: nat, m: nat,
                    x: int, r: int, b: int)
    requires |locations| == |rs| == |casts| == |shares| && m > 0
    requires forall i :: 0 <= i < |shares| ==> Cong(shares[i], Shifted(locations[i], rs[i], factor, casts[i]), m)
    requires Cong(Sum(locations), x, m) && Cong(Sum(rs), r, m) && Cong(Sum(casts), b, m)
    ensures Cong(Sum(shares), Shifted(x, r, factor, b), m)
  {
    IndexSharesSum(locations, rs, casts, shares, factor, m);
    ShiftedCong(Sum(locations), x, Sum(rs), r, Sum(casts), b, factor, m);
    hide Sum, Shifted;
  }

  /** What the comparands and the index shares of all parties add up to. */
  lemma TotalShares(parties: seq<Lookup>, table: seq<seq<bv8>>, tableSize: nat, byteLength: nat, m: nat, x: nat,
                    r: nat, b: nat, casts: seq<nat>)
    requires SameLookup(parties, table, tableSize, byteLength, m) && |casts| == |parties|
    requires SharesOffset(Randoms(parties), r, tableSize, m)
    requires Cong(Sum(Locations(parties)), x, m) && Cong(Sum(casts), b, m)
    ensures forall i :: 0 <= i < |parties| ==> parties[i].Valid()
    ensures Cong(Reconstruct(Comparands(parties), m), Shifted(x, r, 0, b), m)
    ensures Cong(Sum(IndexShares(parties, casts)), Shifted(x, r, tableSize, b), m)
  {
    var locations, rs := Locations(parties), Offsets(Randoms(parties));
    assert Cong(Sum(rs), r, m);
    hide Cong, Sum, Shifted, SharesOffset, SameLookup, Reconstruct, IndexShare;
    forall i | 0 <= i < |parties|
      ensures parties[i].Valid()
      ensures Cong(parties[i].Comparand(), Shifted(locations[i], rs[i], 0, casts[i]), m)
      ensures Cong(parties[i].MyIndexShare(casts[i]), Shifted(locations[i], rs[i], tableSize, casts[i]), m)
    {
      ShareContents(parties, table, tableSize, byteLength, m, casts, i);
    }
    SharesAddUp(locations, rs, casts, Comparands(parties), 0, m, x, r, b);
    SharesAddUp(locations, rs, casts, IndexShares(parties, casts), tableSize, m, x, r, b);
    ReconstructCong(Comparands(parties), Shifted(x, r, 0, b), m);
  }

  /** The value all index shares add up to. */
  lemma RevealedTotal(parties: seq<Lookup>, table: seq<seq<bv8>>, tableSize: nat, byteLength: nat, m: nat, x: nat,
                      r: nat, b: nat, casts: seq<nat>)
    requires SameLookup(parties, table, tableSize, byteLength, m) && |casts| == |parties|
    requires x < tableSize && 2 * tableSize <= m && SharesOffset(Randoms(parties), r, tableSize, m)
    requires Cong(Sum(Locations(parties)), x, m) && Cong(Sum(casts), b, m)
    requires CompareAnswer(b, Reconstruct(Comparands(parties), m), m)
    ensures var v := x - r + tableSize * b;
      && Cong(Sum(IndexShares(parties, casts)), v, m) && 0 <= v <= tableSize && v < m
      && (v + r) % tableSize == x && (v == tableSize <==> x == r && b == 1)
  {
    TotalShares(parties, table, tableSize, byteLength, m, x, r, b, casts);
    var c := Reconstruct(Comparands(parties), m);
    RevealedIndex(x, r, b, c, tableSize, m);
    assert Shifted(x, r, 0, b) == x - r && Shifted(x, r, tableSize, b) == x - r + tableSize * b;
    hide Cong, Sum, SharesOffset, SameLookup, CompareAnswer;
  }

  /** Byte j of every party's finished output is its part of the row at the revealed index. */
  lemma FinishedColumn(parties: seq<Lookup>, vals: seq<TableLookup>, table: seq<seq<bv8>>, tableSize: nat,
                       byteLength: nat, m: nat, v: nat, r: nat, x: nat, j: nat)
    requires SameLookup(parties, table, tableSize, byteLength, m) && vals == Randoms(parties)
    requires SharesOffset(vals, r, tableSize, m) && tableSize < WORD32 && j < byteLength
    requires v <= tableSize && (v + r) % tableSize == x
    requires forall i :: 0 <= i < |parties| ==> parties[i].Valid() && parties[i].Finished([], v)
    ensures x < tableSize && |table[x]| >= byteLength
    ensures forall i :: 0 <= i < |parties| ==> |parties[i].output| == byteLength
    ensures XorAll(OutputColumn(parties, j)) == table[x][j]
  {
    forall i | 0 <= i < |parties|
      ensures |parties[i].output| == byteLength
      ensures parties[i].output[j] == RowXor(vals[i].u, table, v, tableSize, byteLength, j, tableSize)
    {
      assert Configured(parties[i], table, tableSize, byteLength, m, |parties|, i == 0);
    }
    assert OutputColumn(parties, j) == Picked(vals, table, v, tableSize, byteLength, j, tableSize);
    PickedRow(vals, table, v, tableSize, byteLength, j, tableSize, r, m);
    CellIndexExact(v, r, tableSize);
  }

  /** The parties' outputs at byte j. */
  function OutputColumn(parties: seq<Lookup>, j: nat): (column: seq<bv8>)
    requires forall i :: 0 <= i < |parties| ==> j < |parties[i].output|
    reads parties
    ensures |column| == |parties|
    ensures forall i :: 0 <= i < |parties| ==> column[i] == parties[i].output[j]
  {
    seq(|parties|, i requires 0 <= i < |parties| && j < |parties[i].output| reads parties => parties[i].output[j])
  }

  /** The parties other than the revealer. */
  function Others(n: nat): (s: set<nat>)
    ensures forall i :: i in s <==> 1 <= i < n
    ensures |s| == if n == 0 then 0 else n - 1
  {
    if n <= 1 then {} else Others(n - 1) + {n - 1}
  }

  /** Shares not yet arrived count as zero. */
  ghost function Arrived(shares: seq<int>, pending: set<nat>): (arrived: seq<int>)
    ensures |arrived| == |shares|
  {
    seq(|shares|, i requires 0 <= i < |shares| => if i in pending then 0 else shares[i])
  }

  lemma Arrives(shares: seq<int>, pending: set<nat>, i: nat)
    requires i < |shares| && i in pending
    ensures Sum(Arrived(shares, pending - {i})) == Sum(Arrived(shares, pending)) + shares[i]
  {
    SumUpdate(Arrived(shares, pending), i, shares[i]);
    assert Arrived(shares, pending)[i := shares[i]] == Arrived(shares, pending - {i});
  }

  lemma AllArrived(shares: seq<int>)
    ensures Arrived(shares, {}) == shares
  {
  }

  lemma NoneArrived(shares: seq<int>, pending: set<nat>)
    requires |shares| > 0 && pending == Others(|shares|)
    ensures Sum(Arrived(shares, pending)) == shares[0]
  {
    var zeros := Arrived(shares, pending)[0 := 0];
    SumZeros(zeros);
    SumUpdate(zeros, 0, shares[0]);
    assert zeros[0 := shares[0]] == Arrived(shares, pending);
  }

  lemma CollectStep(was: int, sum: int, share: int, m: nat)
    requires m > 0 && Cong(was, sum, m)
    ensures Cong((was + share) % m, sum + share, m) && (was + share) % m == (sum + share) % m
  {
    CongAdd(was, sum, share, share, m);
    CongMod(was + share, m);
  }

  // ----- every interleaving

  /**
   How far a party is: before the comparison (0), before the cast (1), share sent or, at the
   revealer, kept (2), share counted by the revealer (3), finished (4).
   */
  type Phases = seq<nat>

  /** A completion or a message that party i is next in line for may come at any time. */
  predicate Enabled(phases: Phases, i: nat) {
    && i < |phases|
    && (phases[i] <= 1
        || (i >= 1 && phases[i] == 2 && phases[0] == 2)
        || (i >= 1 && phases[i] == 3 && phases[0] == 4))
  }

  /** A party other than the revealer. */
  ghost predicate InPhase(p: Lookup, phase: nat, share: int, v: int)
    reads p
  {
    && p.Valid() && phase <= 4 && share >= 0 && v >= 0
    && (phase == 0 ==> Idle(p, AwaitingCompare, []))
    && (phase == 1 ==> Idle(p, AwaitingTypeCastFromBit, []))
    && (phase == 2 || phase == 3 ==> Idle(p, AwaitingTypeCastFromBit, [share]))
    && (phase == 4 ==> p.Finished([], v))
  }

  /** The revealer, with the shares of pending still missing. */
  ghost predicate RevealerInPhase(p: Lookup, phase: nat, pending: set<nat>, shares: seq<int>, v: int, m: nat)
    reads p
  {
    && p.Valid() && m > 0 && v >= 0
    && (phase == 0 || phase == 1 || phase == 2 || phase == 4)
    && (phase == 0 ==> Idle(p, AwaitingCompare, []))
    && (phase == 1 ==> Idle(p, AwaitingTypeCastFromBit, []))
    && (phase == 2 ==> pending != {} && Collecting(p, |pending|, Sum(Arrived(shares, pending)), m))
    && (phase == 4 ==> pending == {} && p.Finished([], v) && p.broadcast == [v])
  }

  /** Which shares are missing, and what that says of the others' phases. */
  ghost predicate Missing(phases: Phases, pending: set<nat>) {
    && |phases| >= 2
    && (forall k :: k in pending <==> 1 <= k < |phases| && phases[k] < 3)
    && (phases[0] < 2 ==> pending == Others(|phases|))
    && (forall k :: 1 <= k < |phases| && phases[k] == 4 ==> phases[0] == 4)
  }

  ghost predicate Running(parties: seq<Lookup>, phases: Phases, pending: set<nat>, shares: seq<int>, v: int, m: nat)
    reads parties
  {
    && |phases| == |parties| == |shares| >= 2 && Distinct(parties) && Missing(phases, pending)
    && RevealerInPhase(parties[0], phases[0], pending, shares, v, m)
    && forall k :: 1 <= k < |parties| ==> InPhase(parties[k], phases[k], shares[k], v)
  }

  lemma Alone(parties: seq<Lookup>, i: nat)
    requires Distinct(parties) && i < |parties|
    ensures forall k :: 0 <= k < |parties| && k != i ==> parties[k] != parties[i]
  {
  }

  /** If nothing can happen any more, everybody has finished. */
  lemma SomethingCanHappen(phases: Phases, pending: set<nat>)
    requires Missing(phases, pending) && forall k :: 0 <= k < |phases| ==> phases[k] <= 4
    requires phases[0] == 2 ==> pending != {}
    requires phases[0] != 3 && (phases[0] == 4 ==> pending == {})
    ensures (exists i :: Enabled(phases, i)) || forall k :: 0 <= k < |phases| ==> phases[k] == 4
  {
    if phases[0] <= 1 {
      assert Enabled(phases, 0);
    } else if phases[0] == 2 {
      var k :| k in pending;
      assert Enabled(phases, k);
    } else if k :| 0 <= k < |phases| && phases[k] != 4 {
      assert k !in pending;
      assert Enabled(phases, k);
    }
  }

  lemma PhasesBound(phases: Phases)
    requires forall k :: 0 <= k < |phases| ==> phases[k] <= 4
    ensures Sum(phases) <= 4 * |phases|
  {
    if phases != [] {
      PhasesBound(phases[..|phases| - 1]);
    }
  }

  // One event at one party.

  method PartyCompletes(p: Lookup, phase: nat, bit: nat, cast: nat, ghost share: int, ghost v: int)
    requires InPhase(p, phase, share, v) && phase <= 1 && !p.isRevealer && p.MyIndexShare(cast) == share
    modifies p
    ensures InPhase(p, phase + 1, share, v)
  {
    p.HandleComplete(if phase == 0 then bit else cast);
  }

  method RevealerCompletes(p: Lookup, phase: nat, bit: nat, cast: nat, ghost pending: set<nat>,
                           ghost shares: seq<int>, ghost v: int, ghost m: nat)
    requires RevealerInPhase(p, phase, pending, shares, v, m) && phase <= 1 && p.isRevealer
    requires |shares| >= 2 && p.numOthers == |shares| - 1 && p.modulus == m && p.MyIndexShare(cast) == shares[0]
    requires pending == Others(|shares|)
    modifies p
    ensures RevealerInPhase(p, phase + 1, pending, shares, v, m)
  {
    hide Sum, Arrived;
    NoneArrived(shares, pending);
    p.HandleComplete(if phase == 0 then bit else cast);
  }

  /** A share reaches the revealer, in whatever order; the last one makes it broadcast the sum and finish. */
  method ShareArrives(p: Lookup, share: nat, ghost i: nat, ghost pending: set<nat>, ghost shares: seq<int>,
                      ghost v: int, ghost m: nat)
    requires RevealerInPhase(p, 2, pending, shares, v, m) && p.modulus == m && v >= 0
    requires i in pending && i < |shares| && share == shares[i] && Reconstruct(shares, m) == v
    modifies p
    ensures RevealerInPhase(p, if pending == {i} then 4 else 2, pending - {i}, shares, v, m)
  {
    hide Sum, Arrived;
    Arrives(shares, pending, i);
    CollectStep(p.revealedValue, Sum(Arrived(shares, pending)), share, m);
    if pending == {i} {
      assert pending - {i} == {};
      AllArrived(shares);
    } else {
      NotLast(pending, i);
    }
    p.HandleReceive(share);
  }

  lemma NotLast(pending: set<nat>, i: nat)
    requires i in pending && pending != {i}
    ensures pending - {i} != {} && |pending - {i}| == |pending| - 1 > 0
  {
    var k :| k in pending && k != i;
    assert k in pending - {i};
  }

  method BroadcastArrives(p: Lookup, value: nat, ghost share: int)
    requires InPhase(p, 3, share, value)
    modifies p
    ensures InPhase(p, 4, share, value)
  {
    p.HandleReceive(value);
  }

  /** Fixed throughout a run. */
  ghost predicate SetUp(parties: seq<Lookup>, casts: seq<nat>, shares: seq<int>, v: int, m: nat) {
    && |parties| == |casts| == |shares| >= 2 && Distinct(parties) && m > 0 && v >= 0 && Reconstruct(shares, m) == v
    && forall k :: 0 <= k < |parties| ==>
         && parties[k].Valid() && parties[k].isRevealer == (k == 0) && parties[k].numOthers == |parties| - 1
         && parties[k].modulus == m && parties[k].MyIndexShare(casts[k]) == shares[k]
  }

  /** The phases after the event at party i. */
  function After(phases: Phases, i: nat, last: bool): Phases
    requires i < |phases| && |phases| >= 1
  {
    var next := phases[i := phases[i] + 1];
    if i >= 1 && phases[i] == 2 && last then next[0 := 4] else next
  }

  lemma MissingAfter(phases: Phases, pending: set<nat>, i: nat)
    requires Missing(phases, pending) && Enabled(phases, i) && (phases[0] == 2 ==> pending != {})
    requires phases[0] != 3 && (phases[0] == 4 ==> pending == {})
    ensures var fewer := if i >= 1 && phases[i] == 2 then pending - {i} else pending;
      Missing(After(phases, i, fewer == {}), fewer)
  {
    hide Others;
    OthersAre(|phases|);
  }

  lemma OthersAre(n: nat)
    ensures forall i :: i in Others(n) <==> 1 <= i < n
  {
  }

  /** A completion at party i. */
  method Completion(parties: seq<Lookup>, i: nat, phases: Phases, ghost pending: set<nat>, bits: seq<nat>,
                    casts: seq<nat>, ghost shares: seq<int>, ghost v: int, ghost m: nat)
    requires SetUp(parties, casts, shares, v, m)
    requires Running(parties, phases, pending, shares, v, m) && Enabled(phases, i)
    requires phases[i] <= 1 && |bits| == |parties|
    modifies parties[i]
    ensures Running(parties, After(phases, i, false), pending, shares, v, m)
  {
    hide InPhase, RevealerInPhase, Sum, Arrived, Others, Reconstruct;
    Alone(parties, i);
    RevealerFacts(parties[0], phases[0], pending, shares, v, m);
    MissingAfter(phases, pending, i);
    if i == 0 {
      RevealerCompletes(parties[0], phases[0], bits[0], casts[0], pending, shares, v, m);
    } else {
      PartyCompletes(parties[i], phases[i], bits[i], casts[i], shares[i], v);
    }
  }

  /** The share of party i arrives. */
  method Arrival(parties: seq<Lookup>, i: nat, phases: Phases, ghost pending: set<nat>, ghost casts: seq<nat>,
                 ghost shares: seq<int>, ghost v: int, ghost m: nat)
    requires SetUp(parties, casts, shares, v, m)
    requires Running(parties, phases, pending, shares, v, m) && Enabled(phases, i)
    requires i >= 1 && phases[i] == 2
    modifies parties[0]
    ensures Running(parties, After(phases, i, pending - {i} == {}), pending - {i}, shares, v, m)
  {
    hide InPhase, RevealerInPhase, Sum, Arrived, Others, Reconstruct;
    Alone(parties, 0);
    RevealerFacts(parties[0], phases[0], pending, shares, v, m);
    MissingAfter(phases, pending, i);
    SentShare(parties[i], shares[i], v);
    Counted(parties[i], shares[i], v);
    OnlyOne(pending, i);
    ShareArrives(parties[0], parties[i].sentToRevealer[0], i, pending, shares, v, m);
  }

  lemma OnlyOne(pending: set<nat>, i: nat)
    requires i in pending
    ensures pending == {i} <==> pending - {i} == {}
  {
    if pending - {i} == {} {
      assert pending == (pending - {i}) + {i};
    }
  }

  /** The revealer's message arrives at party i. */
  method Delivery(parties: seq<Lookup>, i: nat, phases: Phases, ghost pending: set<nat>, ghost casts: seq<nat>,
                  ghost shares: seq<int>, ghost v: int, ghost m: nat)
    requires SetUp(parties, casts, shares, v, m)
    requires Running(parties, phases, pending, shares, v, m) && Enabled(phases, i)
    requires i >= 1 && phases[i] == 3
    modifies parties[i]
    ensures Running(parties, After(phases, i, false), pending, shares, v, m)
  {
    hide InPhase, RevealerInPhase, Sum, Arrived, Others, Reconstruct;
    Alone(parties, i);
    RevealerFacts(parties[0], phases[0], pending, shares, v, m);
    MissingAfter(phases, pending, i);
    BroadcastOf(parties[0], pending, shares, v, m);
    BroadcastArrives(parties[i], parties[0].broadcast[0], shares[i]);
  }

  /** Any event that can happen keeps the parties in step with the phases. */
  method Happens(parties: seq<Lookup>, i: nat, phases: Phases, pending: set<nat>, bits: seq<nat>, casts: seq<nat>,
                 ghost shares: seq<int>, ghost v: int, ghost m: nat)
    returns (next: Phases, fewer: set<nat>)
    requires SetUp(parties, casts, shares, v, m) && |bits| == |parties|
    requires Running(parties, phases, pending, shares, v, m) && Enabled(phases, i)
    modifies parties
    ensures next == After(phases, i, fewer == {})
    ensures Running(parties, next, fewer, shares, v, m)
  {
    hide Running, SetUp;
    RunningShape(parties, phases, pending, shares, v, m, i);
    if phases[i] <= 1 {
      Completion(parties, i, phases, pending, bits, casts, shares, v, m);
      fewer := pending;
    } else if phases[i] == 2 {
      Arrival(parties, i, phases, pending, casts, shares, v, m);
      fewer := pending - {i};
    } else {
      Delivery(parties, i, phases, pending, casts, shares, v, m);
      fewer := pending;
    }
    next := After(phases, i, fewer == {});
  }

  lemma RunningShape(parties: seq<Lookup>, phases: Phases, pending: set<nat>, shares: seq<int>, v: int, m: nat, i: nat)
    requires Running(parties, phases, pending, shares, v, m) && Enabled(phases, i)
    ensures |phases| == |parties| && i < |parties| && |parties| >= 2
    ensures phases[i] <= 3 && (phases[i] >= 2 ==> i >= 1)
  {
  }

  lemma RevealerFacts(p: Lookup, phase: nat, pending: set<nat>, shares: seq<int>, v: int, m: nat)
    requires RevealerInPhase(p, phase, pending, shares, v, m)
    ensures phase != 3 && phase <= 4 && (phase == 2 ==> pending != {}) && (phase == 4 ==> pending == {})
  {
  }

  lemma SentShare(p: Lookup, share: int, v: int)
    requires InPhase(p, 2, share, v)
    ensures share >= 0 && p.sentToRevealer == [share]
  {
  }

  lemma Counted(p: Lookup, share: int, v: int)
    requires InPhase(p, 2, share, v)
    ensures InPhase(p, 3, share, v)
  {
  }

  lemma BroadcastOf(p: Lookup, pending: set<nat>, shares: seq<int>, v: int, m: nat)
    requires RevealerInPhase(p, 4, pending, shares, v, m)
    ensures v >= 0 && p.broadcast == [v]
  {
  }

  lemma RunningEnds(parties: seq<Lookup>, phases: Phases, pending: set<nat>, shares: seq<int>, v: int, m: nat)
    requires Running(parties, phases, pending, shares, v, m)
    ensures forall k :: 0 <= k < |phases| ==> phases[k] <= 4
    ensures (exists i :: Enabled(phases, i)) || forall k :: 0 <= k < |phases| ==> phases[k] == 4
    ensures (forall k :: 0 <= k < |phases| ==> phases[k] == 4) ==>
      v >= 0 && forall k :: 0 <= k < |parties| ==> parties[k].Valid() && parties[k].Finished([], v)
  {
    hide Sum, Arrived, Others;
    SomethingCanHappen(phases, pending);
  }

  lemma PhasesGrow(phases: Phases, i: nat, last: bool)
    requires Enabled(phases, i) && phases[i] <= 3 && forall k :: 0 <= k < |phases| ==> phases[k] <= 4
    ensures var next := After(phases, i, last);
      |next| == |phases| && Sum(next) > Sum(phases)
  {
    SumUpdate(phases, i, phases[i] + 1);
    var once := phases[i := phases[i] + 1];
    SumUpdate(once, 0, 4);
    hide Sum;
  }

  /** Some event that can happen does. */
  method Advance(parties: seq<Lookup>, phases: Phases, pending: set<nat>, bits: seq<nat>, casts: seq<nat>,
                 ghost shares: seq<int>, ghost v: int, ghost m: nat)
    returns (next: Phases, fewer: set<nat>)
    requires SetUp(parties, casts, shares, v, m) && |bits| == |parties| == |phases|
    requires Running(parties, phases, pending, shares, v, m)
    requires exists i :: 0 <= i < |phases| && Enabled(phases, i)
    modifies parties
    ensures Running(parties, next, fewer, shares, v, m)
    ensures |next| == |phases| && Sum(phases) < Sum(next) <= 4 * |next|
  {
    var i :| 0 <= i < |phases| && Enabled(phases, i);
    hide *;
    RunningShape(parties, phases, pending, shares, v, m, i);
    RunningEnds(parties, phases, pending, shares, v, m);
    next, fewer := Happens(parties, i, phases, pending, bits, casts, shares, v, m);
    PhasesGrow(phases, i, fewer == {});
    RunningEnds(parties, next, fewer, shares, v, m);
    PhasesBound(next);
  }

  /** Completions and messages come in any order that can occur, until everybody has finished. */
  method Interleave(parties: seq<Lookup>, bits: seq<nat>, casts: seq<nat>, ghost shares: seq<int>, ghost v: int,
                    ghost m: nat)
    requires SetUp(parties, casts, shares, v, m) && |bits| == |parties|
    requires forall k :: 0 <= k < |parties| ==> Idle(parties[k], AwaitingCompare, [])
    modifies parties
    ensures forall k :: 0 <= k < |parties| ==> parties[k].Valid() && parties[k].Finished([], v)
  {
    hide *;
    var phases: Phases := seq(|parties|, _ => 0);
    var pending := Others(|parties|);
    RunningStarts(parties, phases, casts, shares, v, m);
    RunningEnds(parties, phases, pending, shares, v, m);
    PhasesBound(phases);
    while exists i :: 0 <= i < |phases| && Enabled(phases, i)
      invariant |phases| == |parties| && Running(parties, phases, pending, shares, v, m)
      invariant Sum(phases) <= 4 * |phases|
      decreases 4 * |parties| - Sum(phases)
    {
      phases, pending := Advance(parties, phases, pending, bits, casts, shares, v, m);
    }
    RunningEnds(parties, phases, pending, shares, v, m);
    EnabledInside(phases);
  }

  lemma EnabledInside(phases: Phases)
    ensures forall i: nat :: Enabled(phases, i) ==> i < |phases|
  {
  }

  lemma RunningStarts(parties: seq<Lookup>, phases: Phases, casts: seq<nat>, shares: seq<int>, v: int, m: nat)
    requires SetUp(parties, casts, shares, v, m) && |phases| == |parties|
    requires forall k :: 0 <= k < |phases| ==> phases[k] == 0
    requires forall k :: 0 <= k < |parties| ==> Idle(parties[k], AwaitingCompare, [])
    ensures Running(parties, phases, Others(|parties|), shares, v, m)
  {
    hide Others, Sum, Arrived, Reconstruct;
    OthersAre(|parties|);
    forall k | 0 <= k < |parties|
      ensures shares[k] >= 0
    {
      assert shares[k] == parties[k].MyIndexShare(casts[k]);
    }
  }

  /**
   The lookup of a shared location x. For every table, offset, sharing and order of completions and
   messages the exclusive or of all outputs is row x, and every party saw the same index. It is below
   the table size, except that a comparison answering one at zero reveals the table size itself when
   x = r.
   */
  method Run(parties: seq<Lookup>, table: seq<seq<bv8>>, tableSize: nat, byteLength: nat, m: nat, x: nat,
             ghost r: nat, ghost b: nat, bits: seq<nat>, casts: seq<nat>)
    requires SameLookup(parties, table, tableSize, byteLength, m) && |bits| == |casts| == |parties|
    requires forall i :: 0 <= i < |parties| ==> Idle(parties[i], AwaitingCompare, [])
    requires x < tableSize < WORD32 && 2 * tableSize <= m
    requires SharesOffset(Randoms(parties), r, tableSize, m)
    requires Cong(Sum(Locations(parties)), x, m) && Cong(Sum(casts), b, m)
    requires CompareAnswer(b, Reconstruct(Comparands(parties), m), m)
    modifies parties
    ensures forall i :: 0 <= i < |parties| ==> parties[i].completed && |parties[i].output| == byteLength
    ensures forall i :: 0 <= i < |parties| ==> parties[i].revealedValue == x - r + tableSize * b
    ensures 0 <= x - r + tableSize * b <= tableSize
    ensures x - r + tableSize * b == tableSize <==> x == r && b == 1
    ensures |table[x]| >= byteLength
    ensures forall j :: 0 <= j < byteLength ==> XorAll(OutputColumn(parties, j)) == table[x][j]
  {
    ghost var shares := IndexShares(parties, casts);
    ghost var v := x - r + tableSize * b;
    RevealedTotal(parties, table, tableSize, byteLength, m, x, r, b, casts);
    assert Reconstruct(shares, m) == v by {
      SmallMod(v, m);
    }
    RunIsSetUp(parties, table, tableSize, byteLength, m, casts, v);
    Interleave(parties, bits, casts, shares, v, m);
    forall j | 0 <= j < byteLength
      ensures XorAll(OutputColumn(parties, j)) == table[x][j]
    {
      FinishedColumn(parties, Randoms(parties), table, tableSize, byteLength, m, v, r, x, j);
    }
  }

  lemma RunIsSetUp(parties: seq<Lookup>, table: seq<seq<bv8>>, tableSize: nat, byteLength: nat, m: nat,
                   casts: seq<nat>, v: int)
    requires SameLookup(parties, table, tableSize, byteLength, m) && |casts| == |parties| && v >= 0 && m > 0
    requires forall i :: 0 <= i < |parties| ==> parties[i].Valid()
    requires Reconstruct(IndexShares(parties, casts), m) == v
    ensures SetUp(parties, casts, IndexShares(parties, casts), v, m)
  {
    hide Reconstruct, IndexShare;
    forall k | 0 <= k < |parties|
      ensures parties[k].isRevealer == (k == 0) && parties[k].numOthers == |parties| - 1 && parties[k].modulus == m
    {
      assert Configured(parties[k], table, tableSize, byteLength, m, |parties|, k == 0);
    }
  }
}
