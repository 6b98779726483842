/** The payloads of all matched pairs, added up by every party: shares of the Gram sums of the joined data. */
module GramSums {
  import opened Modular
  import opened Sharing
  import opened PayloadCompute
  import opened ErrorTerms

  /** The entries of a payload: products of two variables, of a variable and y, y squared, y, and the count. */
  datatype GramCell = XX(i: nat, j: nat) | XY(i: nat) | YY | Y | One

  predicate InRange(c: GramCell, d: nat) {
    match c
    case XX(i, j) => i < d && j < d
    case XY(i) => i < d
    case _ => true
  }

  function Width(d: nat): nat {
    Tail(d, d + 3)
  }

  /** Where a payload keeps the entry. */
  function PlaceOf(c: GramCell, d: nat): (k: nat)
    requires InRange(c, d)
    ensures k < Width(d)
  {
    match c
    case XX(i, j) =>
      FlatBelow(i, j, d, d);
      Flat(i, j, d)
    case XY(i) => Tail(d, i)
    case YY => Tail(d, d)
    case Y => Tail(d, d + 1)
    case One => Tail(d, d + 2)
  }

  /** What the entry is over all observations. */
  function Gram(data: seq<Sample>, c: GramCell): int {
    match c
    case XX(i, j) => SumXX(data, i, j)
    case XY(i) => SumXY(data, i)
    case YY => SumYY(data)
    case Y => SumY(data)
    case One => |data|
  }

  /** One observation's part of the entry. */
  function EntryFrom(o: Sample, c: GramCell): int {
    match c
    case XX(i, j) => o.x(i) * o.x(j)
    case XY(i) => o.x(i) * o.y
    case YY => o.y * o.y
    case Y => o.y
    case One => 1
  }

  lemma GramStep(data: seq<Sample>, o: Sample, c: GramCell)
    ensures Gram(data + [o], c) == Gram(data, c) + EntryFrom(o, c)
  {
    assert (data + [o])[..|data|] == data;
  }

  lemma GramOne(o: Sample, c: GramCell)
    ensures Gram([o], c) == EntryFrom(o, c) && Gram([], c) == 0
  {
    GramStep([], o, c);
    assert [] + [o] == [o];
    assert Gram([], c) == 0;
  }

  /** The entries add up over two parts of the data. */
  lemma {:induction false} GramAppend(a: seq<Sample>, b: seq<Sample>, c: GramCell)
    ensures Gram(a + b, c) == Gram(a, c) + Gram(b, c)
  {
    if |b| == 0 {
      assert a + b == a;
    } else {
      var n := |b| - 1;
      GramAppend(a, b[..n], c);
      GramStep(a + b[..n], b[n], c);
      GramStep(b[..n], b[n], c);
      assert a + b == (a + b[..n]) + [b[n]] && b == b[..n] + [b[n]];
      hide Gram;
    }
  }

  function Flatten(parts: seq<seq<Sample>>): seq<Sample> {
    if |parts| == 0 then [] else Flatten(parts[..|parts| - 1]) + parts[|parts| - 1]
  }

  /** The parties' vectors share every Gram entry of the data. */
  ghost predicate SharesGram(vectors: seq<seq<nat>>, data: seq<Sample>, d: nat, m: nat) {
    forall c: GramCell :: InRange(c, d) ==> HoldsAt(vectors, PlaceOf(c, d), Gram(data, c), m)
  }

  // ----- one party

  ghost predicate AllWide(payloads: seq<seq<nat>>, d: nat) {
    forall r :: 0 <= r < |payloads| ==> Width(d) <= |payloads[r]|
  }

  /** Entry k of all rows, added up. */
  ghost function RowSum(payloads: seq<seq<nat>>, d: nat, k: nat): int
    requires AllWide(payloads, d) && k < Width(d)
  {
    Sum(ColumnAt(payloads, k))
  }

  lemma RowSumStep(payloads: seq<seq<nat>>, d: nat, i: nat, k: nat)
    requires AllWide(payloads, d) && k < Width(d) && i < |payloads|
    ensures RowSum(payloads[..i + 1], d, k) == RowSum(payloads[..i], d, k) + payloads[i][k]
  {
    var column := ColumnAt(payloads[..i + 1], k);
    assert column[..i] == ColumnAt(payloads[..i], k);
  }

  lemma AddReduced(total: nat, exact: int, entry: nat, m: nat)
    requires m > 0 && Cong(total, exact, m)
    ensures Cong((total + entry) % m, exact + entry, m)
  {
    CongAdd(total, exact, entry, entry, m);
    CongMod(total + entry, m);
  }

  /** The part of Regression that accumulates the outputs of the ZipReduce fronctocols. */
  class PayloadSums {
    const d: nat
    const startModulus: nat
    const maxListSize: nat

    var startModulusPayloadVector: seq<nat>

    ghost predicate Valid()
      reads this
    {
      && startModulus > 0 && maxListSize > 0 && |startModulusPayloadVector| == Width(d)
      && forall k :: 0 <= k < Width(d) ==> startModulusPayloadVector[k] < startModulus
    }

    constructor (d: nat, startModulus: nat, maxListSize: nat)
      requires startModulus > 0 && maxListSize > 0
      ensures Valid() && this.d == d && this.startModulus == startModulus && this.maxListSize == maxListSize
      ensures forall k :: 0 <= k < Width(d) ==> startModulusPayloadVector[k] == 0
    {
      this.d, this.startModulus, this.maxListSize := d, startModulus, maxListSize;
      startModulusPayloadVector := seq(Width(d), _ => 0);
    }

    /** Column k of the rows so far is in the total, and for the columns before j one row more. */
    ghost predicate AddedUpTo(before: seq<nat>, payloads: seq<seq<nat>>, i: nat, j: nat)
      reads this
    {
      && Valid() && AllWide(payloads, d) && |before| == Width(d) && i <= |payloads| && j <= Width(d)
      && (j > 0 ==> i < |payloads|)
      && forall k :: 0 <= k < Width(d) ==>
           Cong(startModulusPayloadVector[k],
                before[k] + RowSum(payloads[..if k < j then i + 1 else i], d, k), startModulus)
    }

    /** One ZipReduce is complete: all its rows are added, modulo startModulus. */
    method HandleComplete(payloads: seq<seq<nat>>)
      requires Valid() && AllWide(payloads, d) && |payloads| == maxListSize * 2 - 1
      modifies this`startModulusPayloadVector
      ensures Valid()
      ensures forall k :: 0 <= k < Width(d) ==>
        Cong(startModulusPayloadVector[k], old(startModulusPayloadVector[k]) + RowSum(payloads, d, k), startModulus)
    {
      hide Width, RowSum, Cong;
      ghost var before := startModulusPayloadVector;
      NothingAdded(before, payloads);
      for i := 0 to maxListSize * 2 - 1
        invariant AddedUpTo(before, payloads, i, 0)
      {
        for j := 0 to Width(d)
          invariant AddedUpTo(before, payloads, i, j)
        {
          AddReduced(startModulusPayloadVector[j], before[j] + RowSum(payloads[..i], d, j), payloads[i][j],
                     startModulus);
          RowSumStep(payloads, d, i, j);
          var sum := startModulusPayloadVector[j] + payloads[i][j];
          startModulusPayloadVector := startModulusPayloadVector[j := sum % startModulus];
        }
      }
      assert payloads[..|payloads|] == payloads;
    }

    lemma NothingAdded(before: seq<nat>, payloads: seq<seq<nat>>)
      requires Valid() && AllWide(payloads, d) && before == startModulusPayloadVector
      ensures AddedUpTo(before, payloads, 0, 0)
    {
      assert payloads[..0] == [];
      forall k | 0 <= k < Width(d)
        ensures RowSum(payloads[..0], d, k) == 0
      {
        assert ColumnAt([], k) == [];
      }
    }
  }

  // ----- one pair of parties

  /** What a pair's ZipReduce left: one row per adjacent pair of records, of one observation or of none. */
  datatype Pair = Pair(first: nat, second: nat, firstRows: seq<seq<nat>>, secondRows: seq<seq<nat>>,
                       joined: seq<seq<Sample>>)

  ghost predicate RowsShare(q: Pair, d: nat, m: nat) {
    && m > 0 && |q.firstRows| == |q.secondRows| == |q.joined|
    && AllWide(q.firstRows, d) && AllWide(q.secondRows, d)
    && forall r :: 0 <= r < |q.joined| ==> SharesGram([q.firstRows[r], q.secondRows[r]], q.joined[r], d, m)
  }

  lemma SumTwo(a: int, b: int)
    ensures Sum([a, b]) == a + b
  {
    assert [a, b][..1] == [a];
    assert [a][..0] == [];
    assert Sum([a]) == Sum([]) + a;
  }

  /** Entry k of the first r rows of both parties. */
  ghost function BothRows(q: Pair, r: nat, d: nat, k: nat): int
    requires AllWide(q.firstRows, d) && AllWide(q.secondRows, d) && k < Width(d)
    requires r <= |q.firstRows| == |q.secondRows|
  {
    RowSum(q.firstRows[..r], d, k) + RowSum(q.secondRows[..r], d, k)
  }

  lemma BothStep(q: Pair, r: nat, d: nat, k: nat)
    requires AllWide(q.firstRows, d) && AllWide(q.secondRows, d) && k < Width(d)
    requires r < |q.firstRows| == |q.secondRows|
    ensures BothRows(q, r + 1, d, k) == BothRows(q, r, d, k) + (q.firstRows[r][k] + q.secondRows[r][k])
  {
    RowSumStep(q.firstRows, d, r, k);
    RowSumStep(q.secondRows, d, r, k);
  }

  lemma FlattenStep(joined: seq<seq<Sample>>, r: nat, c: GramCell)
    requires r < |joined|
    ensures Gram(Flatten(joined[..r + 1]), c) == Gram(Flatten(joined[..r]), c) + Gram(joined[r], c)
  {
    assert joined[..r + 1][..r] == joined[..r];
    GramAppend(Flatten(joined[..r]), joined[r], c);
  }

  /** The rows of both parties together share the entry of everything joined in them. */
  lemma {:induction false} PairShares(q: Pair, r: nat, d: nat, m: nat, c: GramCell)
    requires RowsShare(q, d, m) && r <= |q.joined| && InRange(c, d)
    ensures Cong(BothRows(q, r, d, PlaceOf(c, d)), Gram(Flatten(q.joined[..r]), c), m)
  {
    hide PlaceOf, BothRows, Gram, Cong, SharesGram, Flatten, RowSum;
    var k := PlaceOf(c, d);
    if r == 0 {
      NoRows(q, d, m, c);
    } else {
      PairShares(q, r - 1, d, m, c);
      BothStep(q, r - 1, d, k);
      FlattenStep(q.joined, r - 1, c);
      OneRow(q, r - 1, d, m, c);
      CongAdd(BothRows(q, r - 1, d, k), Gram(Flatten(q.joined[..r - 1]), c),
              q.firstRows[r - 1][k] + q.secondRows[r - 1][k], Gram(q.joined[r - 1], c), m);
    }
  }

  lemma NoRows(q: Pair, d: nat, m: nat, c: GramCell)
    requires RowsShare(q, d, m) && InRange(c, d)
    ensures Cong(BothRows(q, 0, d, PlaceOf(c, d)), Gram(Flatten(q.joined[..0]), c), m)
  {
    assert ColumnAt(q.firstRows[..0], PlaceOf(c, d)) == [] == ColumnAt(q.secondRows[..0], PlaceOf(c, d));
  }

  lemma OneRow(q: Pair, r: nat, d: nat, m: nat, c: GramCell)
    requires RowsShare(q, d, m) && r < |q.joined| && InRange(c, d)
    ensures var k := PlaceOf(c, d); Cong(q.firstRows[r][k] + q.secondRows[r][k], Gram(q.joined[r], c), m)
  {
    var k := PlaceOf(c, d);
    var both := [q.firstRows[r], q.secondRows[r]];
    assert HoldsAt(both, k, Gram(q.joined[r], c), m);
    assert ColumnAt(both, k) == [q.firstRows[r][k], q.secondRows[r][k]];
    SumTwo(q.firstRows[r][k], q.secondRows[r][k]);
    hide PlaceOf, Gram, SharesGram;
  }

  // ----- all parties

  ghost predicate AllRowsShare(pairs: seq<Pair>, parties: nat, d: nat, rows: nat, m: nat) {
    forall q :: 0 <= q < |pairs| ==>
      && RowsShare(pairs[q], d, m) && |pairs[q].joined| == rows
      && pairs[q].first < parties && pairs[q].second < parties
  }

  /** Everything joined, pair after pair. */
  function JoinedData(pairs: seq<Pair>): seq<Sample> {
    if |pairs| == 0 then [] else JoinedData(pairs[..|pairs| - 1]) + Flatten(pairs[|pairs| - 1].joined)
  }

  /** Whether the first or the second party of pair q has still to complete. */
  type Outstanding = set<(nat, bool)>

  ghost function Completed(q: Pair, index: nat, pending: Outstanding, d: nat, k: nat): int
    requires AllWide(q.firstRows, d) && AllWide(q.secondRows, d) && k < Width(d)
  {
    (if (index, false) in pending then 0 else RowSum(q.firstRows, d, k))
    + (if (index, true) in pending then 0 else RowSum(q.secondRows, d, k))
  }

  ghost predicate AllPairsWide(pairs: seq<Pair>, d: nat) {
    forall q :: 0 <= q < |pairs| ==> AllWide(pairs[q].firstRows, d) && AllWide(pairs[q].secondRows, d)
  }

  ghost function CompletedSum(pairs: seq<Pair>, pending: Outstanding, d: nat, k: nat): int
    requires AllPairsWide(pairs, d) && k < Width(d)
  {
    Sum(seq(|pairs|, q requires 0 <= q < |pairs| => Completed(pairs[q], q, pending, d, k)))
  }

  function RowsOf(q: Pair, second: bool): seq<seq<nat>> {
    if second then q.secondRows else q.firstRows
  }

  function PartyOf(q: Pair, second: bool): nat {
    if second then q.second else q.first
  }

  lemma CompletedStep(pairs: seq<Pair>, pending: Outstanding, q: nat, second: bool, d: nat, k: nat)
    requires AllPairsWide(pairs, d) && k < Width(d) && q < |pairs| && (q, second) in pending
    ensures CompletedSum(pairs, pending - {(q, second)}, d, k)
            == CompletedSum(pairs, pending, d, k) + RowSum(RowsOf(pairs[q], second), d, k)
  {
    var next := pending - {(q, second)};
    var before := seq(|pairs|, i requires 0 <= i < |pairs| => Completed(pairs[i], i, pending, d, k));
    var after := seq(|pairs|, i requires 0 <= i < |pairs| => Completed(pairs[i], i, next, d, k));
    hide RowSum, AllWide;
    assert after == before[q := Completed(pairs[q], q, next, d, k)];
    SumUpdate(before, q, after[q]);
  }

  lemma NoneCompleted(pairs: seq<Pair>, pending: Outstanding, d: nat, k: nat)
    requires AllPairsWide(pairs, d) && k < Width(d)
    requires forall q: nat, second: bool :: q < |pairs| ==> (q, second) in pending
    ensures CompletedSum(pairs, pending, d, k) == 0
  {
    SumZeros(seq(|pairs|, q requires 0 <= q < |pairs| => Completed(pairs[q], q, pending, d, k)));
  }

  lemma {:induction false} AllCompleted(pairs: seq<Pair>, parties: nat, d: nat, rows: nat, m: nat, c: GramCell)
    requires AllRowsShare(pairs, parties, d, rows, m) && AllPairsWide(pairs, d) && InRange(c, d) && m > 0
    ensures Cong(CompletedSum(pairs, {}, d, PlaceOf(c, d)), Gram(JoinedData(pairs), c), m)
  {
    var k := PlaceOf(c, d);
    if |pairs| == 0 {
      GramOne(Sample((i: nat) => 0, 0), c);
    } else {
      var n := |pairs| - 1;
      var most, q := pairs[..n], pairs[n];
      AllCompleted(most, parties, d, rows, m, c);
      CompletedLast(pairs, d, k);
      WholePair(q, d, m, c);
      GramAppend(JoinedData(most), Flatten(q.joined), c);
      CongAdd(CompletedSum(most, {}, d, k), Gram(JoinedData(most), c),
              RowSum(q.firstRows, d, k) + RowSum(q.secondRows, d, k), Gram(Flatten(q.joined), c), m);
      hide PlaceOf, RowSum, Gram, Cong, CompletedSum, RowsShare;
    }
  }

  lemma WholePair(q: Pair, d: nat, m: nat, c: GramCell)
    requires RowsShare(q, d, m) && InRange(c, d)
    ensures var k := PlaceOf(c, d);
      Cong(RowSum(q.firstRows, d, k) + RowSum(q.secondRows, d, k), Gram(Flatten(q.joined), c), m)
  {
    var n := |q.joined|;
    PairShares(q, n, d, m, c);
    assert q.firstRows[..n] == q.firstRows && q.secondRows[..n] == q.secondRows && q.joined[..n] == q.joined;
  }

  lemma CompletedLast(pairs: seq<Pair>, d: nat, k: nat)
    requires AllPairsWide(pairs, d) && k < Width(d) && |pairs| > 0
    ensures var n := |pairs| - 1;
      CompletedSum(pairs, {}, d, k)
      == CompletedSum(pairs[..n], {}, d, k) + (RowSum(pairs[n].firstRows, d, k) + RowSum(pairs[n].secondRows, d, k))
  {
    var n := |pairs| - 1;
    var all := seq(|pairs|, q requires 0 <= q < |pairs| => Completed(pairs[q], q, {}, d, k));
    assert all[..n] == seq(n, q requires 0 <= q < n => Completed(pairs[..n][q], q, {}, d, k));
    hide RowSum;
  }

  ghost predicate SameSums(parties: seq<PayloadSums>, d: nat, rows: nat, m: nat)
    reads parties
  {
    && (forall p, r :: 0 <= p < r < |parties| ==> parties[p] != parties[r])
    && forall p :: 0 <= p < |parties| ==>
         && parties[p].Valid() && parties[p].d == d && parties[p].startModulus == m
         && parties[p].maxListSize * 2 - 1 == rows
  }

  ghost function Totals(parties: seq<PayloadSums>): (totals: seq<seq<nat>>)
    reads parties
    ensures |totals| == |parties|
    ensures forall p :: 0 <= p < |parties| ==> totals[p] == parties[p].startModulusPayloadVector
  {
    seq(|parties|, p requires 0 <= p < |parties| reads parties => parties[p].startModulusPayloadVector)
  }

  /** What the parties have added so far is what the completed sides hold. */
  ghost predicate Accumulated(totals: seq<seq<nat>>, pairs: seq<Pair>, pending: Outstanding, d: nat, m: nat) {
    && AllPairsWide(pairs, d)
    && forall k :: 0 <= k < Width(d) ==> HoldsAt(totals, k, CompletedSum(pairs, pending, d, k), m)
  }

  lemma StartAccumulated(totals: seq<seq<nat>>, pairs: seq<Pair>, pending: Outstanding, d: nat, m: nat)
    requires AllPairsWide(pairs, d) && m > 0
    requires forall q: nat, second: bool :: q < |pairs| ==> (q, second) in pending
    requires forall p :: 0 <= p < |totals| ==>
      |totals[p]| == Width(d) && forall k :: 0 <= k < Width(d) ==> totals[p][k] == 0
    ensures Accumulated(totals, pairs, pending, d, m)
  {
    forall k | 0 <= k < Width(d)
      ensures HoldsAt(totals, k, CompletedSum(pairs, pending, d, k), m)
    {
      NoneCompleted(pairs, pending, d, k);
      SumZeros(ColumnAt(totals, k));
    }
  }

  lemma AccumulateOne(totals: seq<seq<nat>>, next: seq<seq<nat>>, pairs: seq<Pair>, pending: Outstanding, q: nat,
                      second: bool, d: nat, m: nat)
    requires Accumulated(totals, pairs, pending, d, m) && q < |pairs| && (q, second) in pending && m > 0
    requires var p := PartyOf(pairs[q], second);
      && |next| == |totals| && p < |totals| && next == totals[p := next[p]]
      && |next[p]| == Width(d) == |totals[p]|
      && forall k :: 0 <= k < Width(d) ==>
           Cong(next[p][k], totals[p][k] + RowSum(RowsOf(pairs[q], second), d, k), m)
    ensures Accumulated(next, pairs, pending - {(q, second)}, d, m)
  {
    hide CompletedSum, RowSum, Sum, Cong, Width;
    forall k | 0 <= k < Width(d)
      ensures HoldsAt(next, k, CompletedSum(pairs, pending - {(q, second)}, d, k), m)
    {
      assert HoldsAt(totals, k, CompletedSum(pairs, pending, d, k), m);
      CompletedStep(pairs, pending, q, second, d, k);
      ColumnUpdate(totals, next, PartyOf(pairs[q], second), k, CompletedSum(pairs, pending, d, k),
                   RowSum(RowsOf(pairs[q], second), d, k), m);
    }
  }

  lemma ColumnUpdate(totals: seq<seq<nat>>, next: seq<seq<nat>>, p: nat, k: nat, v: int, more: int, m: nat)
    requires HoldsAt(totals, k, v, m) && |next| == |totals| && p < |totals| && next == totals[p := next[p]]
    requires k < |next[p]| && Cong(next[p][k], totals[p][k] + more, m)
    ensures HoldsAt(next, k, v + more, m)
  {
    var before, after := ColumnAt(totals, k), ColumnAt(next, k);
    hide Sum, Cong;
    assert after == before[p := next[p][k]];
    SumUpdate(before, p, next[p][k]);
    ReplaceShare(Sum(before), v, totals[p][k], next[p][k], more, m);
  }

  lemma ReplaceShare(sum: int, v: int, share: int, next: int, more: int, m: nat)
    requires m > 0 && Cong(sum, v, m) && Cong(next, share + more, m)
    ensures Cong(sum - share + next, v + more, m)
  {
    CongSub(next, share + more, share, share, m);
    CongAdd(sum, v, next - share, more, m);
  }

  /** All parties add up the outputs of all their pairs, in any order: the totals share the Gram sums of the join. */
  method AddEveryPair(parties: seq<PayloadSums>, pairs: seq<Pair>, d: nat, rows: nat, m: nat)
    requires m > 0 && SameSums(parties, d, rows, m) && AllRowsShare(pairs, |parties|, d, rows, m)
    requires forall p, k :: 0 <= p < |parties| && 0 <= k < Width(d) ==> parties[p].startModulusPayloadVector[k] == 0
    modifies parties
    ensures SameSums(parties, d, rows, m)
    ensures SharesGram(Totals(parties), JoinedData(pairs), d, m)
  {
    var pending: Outstanding := set q: nat, second: bool | 0 <= q < |pairs| :: (q, second);
    StartAccumulated(Totals(parties), pairs, pending, d, m);
    hide RowsShare, Accumulated, SharesGram;
    while pending != {}
      invariant SameSums(parties, d, rows, m)
      invariant forall e <- pending :: e.0 < |pairs|
      invariant Accumulated(Totals(parties), pairs, pending, d, m)
      decreases |pending|
    {
      var e :| e in pending;
      AddOne(parties, pairs, e.0, e.1, pending, d, rows, m);
      pending := pending - {e};
    }
    EverythingAdded(Totals(parties), pairs, |parties|, d, rows, m);
  }

  lemma EverythingAdded(totals: seq<seq<nat>>, pairs: seq<Pair>, parties: nat, d: nat, rows: nat, m: nat)
    requires m > 0 && AllRowsShare(pairs, parties, d, rows, m) && Accumulated(totals, pairs, {}, d, m)
    ensures SharesGram(totals, JoinedData(pairs), d, m)
  {
    hide RowsShare, CompletedSum, Gram;
    forall c: GramCell | InRange(c, d)
      ensures HoldsAt(totals, PlaceOf(c, d), Gram(JoinedData(pairs), c), m)
    {
      AllCompleted(pairs, parties, d, rows, m, c);
      assert HoldsAt(totals, PlaceOf(c, d), CompletedSum(pairs, {}, d, PlaceOf(c, d)), m);
    }
  }

  /** One party completes the ZipReduce of pair q. */
  method AddOne(parties: seq<PayloadSums>, pairs: seq<Pair>, q: nat, second: bool, ghost pending: Outstanding, d: nat,
                rows: nat, m: nat)
    requires m > 0 && SameSums(parties, d, rows, m) && AllRowsShare(pairs, |parties|, d, rows, m)
    requires q < |pairs| && (q, second) in pending && Accumulated(Totals(parties), pairs, pending, d, m)
    modifies parties
    ensures SameSums(parties, d, rows, m)
    ensures Accumulated(Totals(parties), pairs, pending - {(q, second)}, d, m)
  {
    hide RowSum, HoldsAt, CompletedSum, Width;
    ghost var before := Totals(parties);
    var p := PartyOf(pairs[q], second);
    parties[p].HandleComplete(RowsOf(pairs[q], second));
    ghost var after := Totals(parties);
    assert after == before[p := after[p]];
    AccumulateOne(before, after, pairs, pending, q, second, d, m);
  }

  // ----- what one row holds

  function SampleOf(x1: seq<nat>, x2: seq<nat>, y: nat): Sample {
    Sample((i: nat) => if i < |x1| + |x2| then Variable(x1, x2, i) as int else 0, y)
  }

  /** A row of two matched records shares the Gram entries of the one observation they make. */
  lemma MatchedRow(outputs: seq<seq<nat>>, vec1s: seq<seq<nat>>, vec2s: seq<seq<nat>>, products: seq<seq<nat>>,
                   v1: seq<nat>, v2: seq<nat>, x1: seq<nat>, x2: seq<nat>, y: nat, m: nat)
    requires AllOutputs(outputs, vec1s, vec2s, products, |x1|, |x2|)
    requires MatchedPair(vec1s, vec2s, products, v1, v2, x1, x2, y, m)
    ensures SharesGram(outputs, [SampleOf(x1, x2, y)], |x1| + |x2|, m)
  {
    hide AllOutputs, MatchedPair, HoldsAt, Variable, Gram;
    var d, o := |x1| + |x2|, SampleOf(x1, x2, y);
    GramVector(outputs, vec1s, vec2s, products, v1, v2, x1, x2, y, m);
    forall c: GramCell | InRange(c, d)
      ensures HoldsAt(outputs, PlaceOf(c, d), Gram([o], c), m)
    {
      GramOne(o, c);
      match c
      case XX(i, j) => GramMatrix(outputs, vec1s, vec2s, products, v1, v2, x1, x2, y, m, i, j);
      case _ =>
    }
  }

  /** A row of records that do not match shares zeros, and stands for no observation. */
  lemma UnmatchedRow(outputs: seq<seq<nat>>, d: nat, m: nat)
    requires forall k :: 0 <= k < Width(d) ==> HoldsAt(outputs, k, 0, m)
    ensures SharesGram(outputs, [], d, m)
  {
    hide HoldsAt;
    forall c: GramCell | InRange(c, d)
      ensures HoldsAt(outputs, PlaceOf(c, d), Gram([], c), m)
    {
      GramOne(Sample((i: nat) => 0, 0), c);
    }
  }

  // ----- the change of modulus

  /** What an ideal ModConvUp returns: shares modulo the end modulus of the residue modulo the start modulus. */
  ghost predicate ConvertedUp(before: seq<seq<nat>>, after: seq<seq<nat>>, d: nat, startModulus: nat, endModulus: nat) {
    && startModulus > 0 && endModulus > 0
    && (forall p :: 0 <= p < |before| ==> Width(d) <= |before[p]|)
    && forall k :: 0 <= k < Width(d) ==>
         HoldsAt(after, k, Reconstruct(ColumnAt(before, k), startModulus), endModulus)
  }

  /** Entries that fit below the start modulus survive the change; the others lose their multiples of it. */
  lemma ConvertGram(before: seq<seq<nat>>, after: seq<seq<nat>>, data: seq<Sample>, d: nat, startModulus: nat,
                    endModulus: nat)
    requires ConvertedUp(before, after, d, startModulus, endModulus) && SharesGram(before, data, d, startModulus)
    ensures forall c: GramCell :: InRange(c, d) ==>
      HoldsAt(after, PlaceOf(c, d), Gram(data, c) % startModulus, endModulus)
    ensures (forall c: GramCell :: InRange(c, d) ==> 0 <= Gram(data, c) < startModulus) ==>
              SharesGram(after, data, d, endModulus)
  {
    hide Gram, HoldsAt, PlaceOf, SharesGram;
    forall c: GramCell | InRange(c, d)
      ensures HoldsAt(after, PlaceOf(c, d), Gram(data, c) % startModulus, endModulus)
    {
      ConvertCell(before, after, data, d, startModulus, endModulus, c);
    }
    if forall c: GramCell :: InRange(c, d) ==> 0 <= Gram(data, c) < startModulus {
      forall c: GramCell | InRange(c, d)
        ensures HoldsAt(after, PlaceOf(c, d), Gram(data, c), endModulus)
      {
        SmallMod(Gram(data, c), startModulus);
      }
      SharesEach(after, data, d, endModulus);
    }
  }

  lemma SharesEach(vectors: seq<seq<nat>>, data: seq<Sample>, d: nat, m: nat)
    requires forall c: GramCell :: InRange(c, d) ==> HoldsAt(vectors, PlaceOf(c, d), Gram(data, c), m)
    ensures SharesGram(vectors, data, d, m)
  {
    hide Gram, HoldsAt, PlaceOf;
  }

  lemma ConvertCell(before: seq<seq<nat>>, after: seq<seq<nat>>, data: seq<Sample>, d: nat, startModulus: nat,
                    endModulus: nat, c: GramCell)
    requires ConvertedUp(before, after, d, startModulus, endModulus) && SharesGram(before, data, d, startModulus)
    requires InRange(c, d)
    ensures HoldsAt(after, PlaceOf(c, d), Gram(data, c) % startModulus, endModulus)
  {
    hide Gram, Sum, PlaceOf, Width;
    assert HoldsAt(before, PlaceOf(c, d), Gram(data, c), startModulus);
  }
}
