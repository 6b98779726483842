/** The dealer's randomness houses for a regression, and the data owners' patrons they have to meet. */
module DealerSequence {
  import Budget

  datatype Protocol =
    | ModConvUp | Divide | ZipAdjacent | Beaver | RandomSquareMatrix | CompareEndModulus | Compare | TypeCast | Lookup

  datatype Owner = Owner(orgId: nat, vertical: nat)

  /** A protocol run: its kind and the data owners in its peer set; the dealer is in every one. */
  datatype Invocation = Invocation(kind: Protocol, group: set<Owner>)

  predicate Distinct(owners: seq<Owner>) {
    forall i, j :: 0 <= i < j < |owners| ==> owners[i] != owners[j]
  }

  function Group(owners: seq<Owner>): set<Owner> {
    set o | o in owners
  }

  /** What one peer set sees of a sequence of invocations. */
  function SeenBy(trace: seq<Invocation>, s: set<Owner>): seq<Invocation> {
    if trace == [] then []
    else SeenBy(trace[..|trace| - 1], s) + (if trace[|trace| - 1].group == s then [trace[|trace| - 1]] else [])
  }

  lemma {:induction false} SeenByConcat(a: seq<Invocation>, b: seq<Invocation>, s: set<Owner>)
    ensures SeenBy(a + b, s) == SeenBy(a, s) + SeenBy(b, s)
  {
    if b == [] {
      assert a + b == a;
    } else {
      SeenByConcat(a, b[..|b| - 1], s);
      assert (a + b)[..|a + b| - 1] == a + b[..|b| - 1];
    }
  }

  /** The dealer's inner loop: a with every owner of a later vertical. */
  function PairsWith(kind: Protocol, a: Owner, owners: seq<Owner>): seq<Invocation> {
    if owners == [] then []
    else
      var o := owners[|owners| - 1];
      PairsWith(kind, a, owners[..|owners| - 1]) + (if a.vertical < o.vertical then [Invocation(kind, {a, o})] else [])
  }

  /** The dealer's double loop. */
  function AllPairs(kind: Protocol, outer: seq<Owner>, owners: seq<Owner>): seq<Invocation> {
    if outer == [] then []
    else AllPairs(kind, outer[..|outer| - 1], owners) + PairsWith(kind, outer[|outer| - 1], owners)
  }

  /** A data owner's loop: itself with every owner of another vertical. */
  function CrossPairs(kind: Protocol, self: Owner, owners: seq<Owner>): seq<Invocation> {
    if owners == [] then []
    else
      var o := owners[|owners| - 1];
      CrossPairs(kind, self, owners[..|owners| - 1])
      + (if o.vertical != self.vertical then [Invocation(kind, {self, o})] else [])
  }

  predicate HasLater(a: Owner, owners: seq<Owner>, s: set<Owner>) {
    exists o :: o in owners && a.vertical < o.vertical && s == {a, o}
  }

  predicate HasPair(outer: seq<Owner>, owners: seq<Owner>, s: set<Owner>) {
    exists a :: a in outer && HasLater(a, owners, s)
  }

  predicate HasCross(self: Owner, owners: seq<Owner>, s: set<Owner>) {
    exists o :: o in owners && o.vertical != self.vertical && s == {self, o}
  }

  function Once(kind: Protocol, s: set<Owner>, there: bool): seq<Invocation> {
    if there then [Invocation(kind, s)] else []
  }

  lemma SamePair(a: Owner, o: Owner, b: Owner, p: Owner)
    requires {a, o} == {b, p}
    ensures (a == b && o == p) || (a == p && o == b)
  {
    assert a in {b, p} && o in {b, p} && b in {a, o} && p in {a, o};
  }

  lemma {:induction false} SeenPairsWith(kind: Protocol, a: Owner, owners: seq<Owner>, s: set<Owner>)
    requires Distinct(owners)
    ensures SeenBy(PairsWith(kind, a, owners), s) == Once(kind, s, HasLater(a, owners, s))
  {
    if owners != [] {
      var most, o := owners[..|owners| - 1], owners[|owners| - 1];
      SeenPairsWith(kind, a, most, s);
      var last := if a.vertical < o.vertical then [Invocation(kind, {a, o})] else [];
      SeenByConcat(PairsWith(kind, a, most), last, s);
      assert forall p :: p in owners <==> p in most || p == o;
      if a.vertical < o.vertical && s == {a, o} {
        forall p | p in most && a.vertical < p.vertical
          ensures s != {a, p}
        {
          if s == {a, p} {
            SamePair(a, o, a, p);
          }
        }
      }
    }
  }

  lemma {:induction false} SeenAllPairs(kind: Protocol, outer: seq<Owner>, owners: seq<Owner>, s: set<Owner>)
    requires Distinct(owners) && Distinct(outer)
    ensures SeenBy(AllPairs(kind, outer, owners), s) == Once(kind, s, HasPair(outer, owners, s))
  {
    if outer != [] {
      var most, a := outer[..|outer| - 1], outer[|outer| - 1];
      SeenAllPairs(kind, most, owners, s);
      SeenPairsWith(kind, a, owners, s);
      SeenByConcat(AllPairs(kind, most, owners), PairsWith(kind, a, owners), s);
      assert forall b :: b in outer <==> b in most || b == a;
      if HasLater(a, owners, s) {
        LaterIsUnique(a, most, owners, s);
      }
    }
  }

  lemma LaterIsUnique(a: Owner, most: seq<Owner>, owners: seq<Owner>, s: set<Owner>)
    requires HasLater(a, owners, s) && a !in most
    ensures !HasPair(most, owners, s)
  {
    var o :| o in owners && a.vertical < o.vertical && s == {a, o};
    forall b, p | b in most && p in owners && b.vertical < p.vertical
      ensures s != {b, p}
    {
      if s == {b, p} {
        SamePair(a, o, b, p);
      }
    }
  }

  lemma {:induction false} SeenCrossPairs(kind: Protocol, self: Owner, owners: seq<Owner>, s: set<Owner>)
    requires Distinct(owners)
    ensures SeenBy(CrossPairs(kind, self, owners), s) == Once(kind, s, HasCross(self, owners, s))
  {
    if owners != [] {
      var most, o := owners[..|owners| - 1], owners[|owners| - 1];
      SeenCrossPairs(kind, self, most, s);
      var last := if o.vertical != self.vertical then [Invocation(kind, {self, o})] else [];
      SeenByConcat(CrossPairs(kind, self, most), last, s);
      assert forall p :: p in owners <==> p in most || p == o;
      if o.vertical != self.vertical && s == {self, o} {
        forall p | p in most && p.vertical != self.vertical
          ensures s != {self, p}
        {
          if s == {self, p} {
            SamePair(self, o, self, p);
          }
        }
      }
    }
  }

  /** A pair the dealer serves and that has self in it is a pair of self with another vertical, and back. */
  lemma SamePairs(self: Owner, owners: seq<Owner>, s: set<Owner>)
    requires self in owners && self in s
    ensures HasPair(owners, owners, s) <==> HasCross(self, owners, s)
  {
    if HasPair(owners, owners, s) {
      var a :| a in owners && HasLater(a, owners, s);
      var o :| o in owners && a.vertical < o.vertical && s == {a, o};
      if self == a {
        assert s == {self, o};
      } else {
        assert s == {self, a};
      }
    }
    if HasCross(self, owners, s) {
      var o :| o in owners && o.vertical != self.vertical && s == {self, o};
      if self.vertical < o.vertical {
        assert HasLater(self, owners, s);
      } else {
        assert s == {o, self};
        assert HasLater(o, owners, s);
      }
    }
  }

  function WholeHead(owners: seq<Owner>): seq<Invocation> {
    var all := Group(owners);
    [Invocation(ModConvUp, all), Invocation(Divide, all)]
  }

  function WholeTail(owners: seq<Owner>): seq<Invocation> {
    var all := Group(owners);
    [Invocation(Beaver, all), Invocation(RandomSquareMatrix, all), Invocation(Beaver, all),
     Invocation(CompareEndModulus, all), Invocation(Compare, all), Invocation(TypeCast, all),
     Invocation(Lookup, all), Invocation(Lookup, all)]
  }

  /** What the basement invokes. */
  function HouseTrace(owners: seq<Owner>): seq<Invocation> {
    WholeHead(owners) + AllPairs(ZipAdjacent, owners, owners) + AllPairs(Beaver, owners, owners) + WholeTail(owners)
  }

  /** What the patron of one data owner invokes. */
  function PatronTrace(self: Owner, owners: seq<Owner>): seq<Invocation> {
    WholeHead(owners) + CrossPairs(ZipAdjacent, self, owners) + CrossPairs(Beaver, self, owners) + WholeTail(owners)
  }

  /** On every peer set a data owner is in, it and the dealer start the same protocols in the same order. */
  lemma SequencesMatch(self: Owner, owners: seq<Owner>, s: set<Owner>)
    requires Distinct(owners) && self in owners && self in s
    ensures SeenBy(HouseTrace(owners), s) == SeenBy(PatronTrace(self, owners), s)
  {
    var head, tail := WholeHead(owners), WholeTail(owners);
    hide WholeHead, WholeTail, SeenBy, AllPairs, CrossPairs, HasPair, HasCross;
    SamePairs(self, owners, s);
    SeenAllPairs(ZipAdjacent, owners, owners, s);
    SeenAllPairs(Beaver, owners, owners, s);
    SeenCrossPairs(ZipAdjacent, self, owners, s);
    SeenCrossPairs(Beaver, self, owners, s);
    SeenByParts(head, AllPairs(ZipAdjacent, owners, owners), AllPairs(Beaver, owners, owners), tail, s);
    SeenByParts(head, CrossPairs(ZipAdjacent, self, owners), CrossPairs(Beaver, self, owners), tail, s);
  }

  lemma SeenByParts(a: seq<Invocation>, b: seq<Invocation>, c: seq<Invocation>, d: seq<Invocation>, s: set<Owner>)
    ensures SeenBy(a + b + c + d, s) == SeenBy(a, s) + SeenBy(b, s) + SeenBy(c, s) + SeenBy(d, s)
  {
    hide SeenBy;
    SeenByConcat(a + b + c, d, s);
    SeenByConcat(a + b, c, s);
    SeenByConcat(a, b, s);
  }

  // ----- what the sequences are for

  /** The protocol that deals each kind of randomness a regression draws. */
  function Serving(k: Budget.Dispenser): Protocol {
    match k
    case ModConvUp => ModConvUp
    case Divide => Divide
    case ZipAdjacent(_) => ZipAdjacent
    case FactoryTriple(_) => Beaver
    case MatrixTriple => Beaver
    case RandomMatrix => RandomSquareMatrix
    case FinalTriple => Beaver
    case CompareEnd => CompareEndModulus
    case CompareStart => Compare
    case TypeCast => TypeCast
    case LookupF => Lookup
    case LookupT => Lookup
  }

  /** The cross parties in the order of the owners, which numbers them. */
  function CrossList(self: Owner, owners: seq<Owner>): seq<Owner> {
    if owners == [] then []
    else
      var o := owners[|owners| - 1];
      CrossList(self, owners[..|owners| - 1]) + (if o.vertical != self.vertical then [o] else [])
  }

  /** Exactly the owners of other verticals are numbered, each once. */
  lemma {:induction false} CrossListIs(self: Owner, owners: seq<Owner>)
    requires Distinct(owners)
    ensures Distinct(CrossList(self, owners))
    ensures forall o :: o in CrossList(self, owners) <==> o in owners && o.vertical != self.vertical
  {
    if owners != [] {
      var most, o := owners[..|owners| - 1], owners[|owners| - 1];
      CrossListIs(self, most);
      assert forall p :: p in owners <==> p in most || p == o;
      assert o !in most;
    }
  }

  lemma {:induction false} CrossPairsAre(kind: Protocol, self: Owner, owners: seq<Owner>)
    ensures |CrossPairs(kind, self, owners)| == |CrossList(self, owners)|
    ensures forall i :: 0 <= i < |CrossList(self, owners)| ==>
      CrossPairs(kind, self, owners)[i] == Invocation(kind, {self, CrossList(self, owners)[i]})
  {
    if owners != [] {
      CrossPairsAre(kind, self, owners[..|owners| - 1]);
    }
  }

  /** Whom the randomness is for: a pair of owners, or all of them. */
  function PeersOf(k: Budget.Dispenser, self: Owner, owners: seq<Owner>): set<Owner>
    requires k.ZipAdjacent? || k.FactoryTriple? ==> k.party < |CrossList(self, owners)|
  {
    if k.ZipAdjacent? || k.FactoryTriple? then {self, CrossList(self, owners)[k.party]} else Group(owners)
  }

  /** When a data owner asks for it, with n cross parties. */
  function TurnOf(k: Budget.Dispenser, n: nat): nat {
    match k
    case ModConvUp => 0
    case Divide => 1
    case ZipAdjacent(i) => 2 + i
    case FactoryTriple(i) => 2 + n + i
    case MatrixTriple => 2 * n + 2
    case RandomMatrix => 2 * n + 3
    case FinalTriple => 2 * n + 4
    case CompareEnd => 2 * n + 5
    case CompareStart => 2 * n + 6
    case TypeCast => 2 * n + 7
    case LookupF => 2 * n + 8
    case LookupT => 2 * n + 9
  }

  /** The other way round. */
  function AtTurn(t: nat, n: nat): Budget.Dispenser
    requires t < 2 * n + 10
  {
    if t == 0 then Budget.ModConvUp
    else if t == 1 then Budget.Divide
    else if t < n + 2 then Budget.ZipAdjacent(t - 2)
    else if t < 2 * n + 2 then Budget.FactoryTriple(t - 2 - n)
    else if t == 2 * n + 2 then Budget.MatrixTriple
    else if t == 2 * n + 3 then Budget.RandomMatrix
    else if t == 2 * n + 4 then Budget.FinalTriple
    else if t == 2 * n + 5 then Budget.CompareEnd
    else if t == 2 * n + 6 then Budget.CompareStart
    else if t == 2 * n + 7 then Budget.TypeCast
    else if t == 2 * n + 8 then Budget.LookupF
    else Budget.LookupT
  }

  /** Every existing dispenser has a turn of its own, and every turn is one dispenser's. */
  lemma TurnsAreDispensers(z: Budget.Sizes, k: Budget.Dispenser, t: nat)
    ensures Budget.Exists(z, k) ==>
      TurnOf(k, z.crossParties) < 2 * z.crossParties + 10 && AtTurn(TurnOf(k, z.crossParties), z.crossParties) == k
    ensures t < 2 * z.crossParties + 10 ==>
      Budget.Exists(z, AtTurn(t, z.crossParties)) && TurnOf(AtTurn(t, z.crossParties), z.crossParties) == t
  {
  }

  /** The invocation in its turn is the protocol that deals this randomness, with the right peers. */
  ghost predicate ServedInTurn(k: Budget.Dispenser, trace: seq<Invocation>, self: Owner, owners: seq<Owner>) {
    var n := |CrossList(self, owners)|;
    && (k.ZipAdjacent? || k.FactoryTriple? ==> k.party < n)
    && TurnOf(k, n) < |trace| && trace[TurnOf(k, n)] == Invocation(Serving(k), PeersOf(k, self, owners))
  }

  lemma ServedInPatronTrace(z: Budget.Sizes, k: Budget.Dispenser, self: Owner, owners: seq<Owner>)
    requires z.crossParties == |CrossList(self, owners)| && Budget.Exists(z, k)
    ensures ServedInTurn(k, PatronTrace(self, owners), self, owners)
  {
    CrossPairsAre(ZipAdjacent, self, owners);
    CrossPairsAre(Beaver, self, owners);
    hide CrossPairs, CrossList, Group;
  }

  /** Some dispenser that exists has this turn. */
  ghost predicate TurnTaken(z: Budget.Sizes, t: nat) {
    exists k :: Budget.Exists(z, k) && TurnOf(k, z.crossParties) == t
  }

  lemma TurnIsTaken(z: Budget.Sizes, t: nat)
    requires t < 2 * z.crossParties + 10
    ensures TurnTaken(z, t)
  {
    TurnsAreDispensers(z, Budget.ModConvUp, t);
    assert Budget.Exists(z, AtTurn(t, z.crossParties));
    hide TurnOf, AtTurn, Budget.Exists;
  }

  lemma OwnTurns(z: Budget.Sizes, k: Budget.Dispenser, l: Budget.Dispenser)
    requires Budget.Exists(z, k) && Budget.Exists(z, l) && TurnOf(k, z.crossParties) == TurnOf(l, z.crossParties)
    ensures k == l
  {
    TurnsAreDispensers(z, k, 0);
    TurnsAreDispensers(z, l, 0);
  }

  /**
   A data owner's sequence serves every dispenser its regression draws from with exactly one
   invocation, on its peer set, and has no other invocation.
   */
  lemma EachDispenserOnce(z: Budget.Sizes, self: Owner, owners: seq<Owner>)
    requires z.crossParties == |CrossList(self, owners)|
    ensures forall k :: Budget.Exists(z, k) ==> ServedInTurn(k, PatronTrace(self, owners), self, owners)
    ensures forall k, l :: Budget.Exists(z, k) && Budget.Exists(z, l) && k != l ==>
      TurnOf(k, z.crossParties) != TurnOf(l, z.crossParties)
    ensures forall t: nat :: t < |PatronTrace(self, owners)| ==> TurnTaken(z, t)
  {
    hide *;
    forall k | Budget.Exists(z, k)
      ensures ServedInTurn(k, PatronTrace(self, owners), self, owners)
    {
      ServedInPatronTrace(z, k, self, owners);
    }
    forall k, l | Budget.Exists(z, k) && Budget.Exists(z, l) && k != l
      ensures TurnOf(k, z.crossParties) != TurnOf(l, z.crossParties)
    {
      if TurnOf(k, z.crossParties) == TurnOf(l, z.crossParties) {
        OwnTurns(z, k, l);
      }
    }
    TraceLength(self, owners);
    forall t: nat | t < |PatronTrace(self, owners)|
      ensures TurnTaken(z, t)
    {
      TurnIsTaken(z, t);
    }
  }

  lemma TraceLength(self: Owner, owners: seq<Owner>)
    ensures |PatronTrace(self, owners)| == 2 * |CrossList(self, owners)| + 10
  {
    CrossPairsAre(ZipAdjacent, self, owners);
    CrossPairsAre(Beaver, self, owners);
    hide CrossPairs, CrossList, Group;
  }

  /** RegressionRandomnessBasement: starts everything at once and waits for all of it. */
  class RegressionRandomnessBasement {
    const owners: seq<Owner>
    var invocations: seq<Invocation>
    var numDealersRemaining: int
    var completions: nat

    constructor (owners: seq<Owner>)
      ensures this.owners == owners && invocations == [] && completions == 0 && numDealersRemaining == 0
    {
      this.owners := owners;
      invocations, numDealersRemaining, completions := [], 0, 0;
    }

    method InvokeOnAll(kind: Protocol)
      modifies this`invocations
      ensures invocations == old(invocations) + [Invocation(kind, Group(owners))]
    {
      invocations := invocations + [Invocation(kind, Group(owners))];
    }

    /** One invocation, and one dealer more to wait for, per owner of a vertical after a's. */
    method InvokeWithLater(kind: Protocol, a: Owner)
      modifies this`invocations, this`numDealersRemaining
      ensures invocations == old(invocations) + PairsWith(kind, a, owners)
      ensures numDealersRemaining == old(numDealersRemaining) + |PairsWith(kind, a, owners)|
    {
      for j := 0 to |owners|
        invariant invocations == old(invocations) + PairsWith(kind, a, owners[..j])
        invariant numDealersRemaining == old(numDealersRemaining) + |PairsWith(kind, a, owners[..j])|
      {
        assert owners[..j + 1][..j] == owners[..j];
        if a.vertical < owners[j].vertical {
          invocations := invocations + [Invocation(kind, {a, owners[j]})];
          numDealersRemaining := numDealersRemaining + 1;
        }
      }
      assert owners[..|owners|] == owners;
    }

    method InvokeOnPairs(kind: Protocol)
      modifies this`invocations, this`numDealersRemaining
      ensures invocations == old(invocations) + AllPairs(kind, owners, owners)
      ensures numDealersRemaining == old(numDealersRemaining) + |AllPairs(kind, owners, owners)|
    {
      hide PairsWith;
      for i := 0 to |owners|
        invariant invocations == old(invocations) + AllPairs(kind, owners[..i], owners)
        invariant numDealersRemaining == old(numDealersRemaining) + |AllPairs(kind, owners[..i], owners)|
      {
        assert owners[..i + 1][..i] == owners[..i];
        InvokeWithLater(kind, owners[i]);
      }
      assert owners[..|owners|] == owners;
    }

    method InvokeHead()
      modifies this`invocations
      ensures invocations == old(invocations) + WholeHead(owners)
    {
      InvokeOnAll(ModConvUp);
      InvokeOnAll(Divide);
    }

    method InvokeTail()
      modifies this`invocations
      ensures invocations == old(invocations) + WholeTail(owners)
    {
      InvokeOnAll(Beaver);
      InvokeOnAll(RandomSquareMatrix);
      InvokeOnAll(Beaver);
      InvokeOnAll(CompareEndModulus);
      InvokeOnAll(Compare);
      InvokeOnAll(TypeCast);
      InvokeOnAll(Lookup);
      InvokeOnAll(Lookup);
    }

    /** numDealersRemaining counts exactly the children started. */
    method Init()
      requires invocations == []
      modifies this`invocations, this`numDealersRemaining
      ensures invocations == HouseTrace(owners)
      ensures numDealersRemaining == |invocations|
      ensures numDealersRemaining == 10 + 2 * |AllPairs(ZipAdjacent, owners, owners)|
    {
      hide AllPairs;
      numDealersRemaining := 10;
      InvokeHead();
      InvokeOnPairs(ZipAdjacent);
      InvokeOnPairs(Beaver);
      InvokeTail();
      PairCount(Beaver, ZipAdjacent, owners, owners);
      assert [] + WholeHead(owners) == WholeHead(owners);
    }

    method HandleComplete()
      modifies this`numDealersRemaining, this`completions
      ensures numDealersRemaining == old(numDealersRemaining) - 1
      ensures completions == old(completions) + (if numDealersRemaining == 0 then 1 else 0)
    {
      numDealersRemaining := numDealersRemaining - 1;
      if numDealersRemaining == 0 {
        completions := completions + 1;
      }
    }
  }

  lemma {:induction false} PairsWithCount(k: Protocol, l: Protocol, a: Owner, owners: seq<Owner>)
    ensures |PairsWith(k, a, owners)| == |PairsWith(l, a, owners)|
  {
    if owners != [] {
      PairsWithCount(k, l, a, owners[..|owners| - 1]);
    }
  }

  lemma {:induction false} PairCount(k: Protocol, l: Protocol, outer: seq<Owner>, owners: seq<Owner>)
    ensures |AllPairs(k, outer, owners)| == |AllPairs(l, outer, owners)|
  {
    if outer != [] {
      PairCount(k, l, outer[..|outer| - 1], owners);
      PairsWithCount(k, l, outer[|outer| - 1], owners);
    }
  }

  lemma SameLength(a: seq<Invocation>, b: seq<Invocation>)
    requires multiset(a) == multiset(b)
    ensures |a| == |b|
  {
    assert |multiset(a)| == |a| && |multiset(b)| == |b|;
  }

  /** The children finish in any order: the basement completes once, with the last of them. */
  method RunBasement(owners: seq<Owner>, order: seq<Invocation>) returns (early: nat, completions: nat)
    requires multiset(order) == multiset(HouseTrace(owners))
    ensures early == 0 && completions == 1
  {
    hide HouseTrace, AllPairs;
    var house := new RegressionRandomnessBasement(owners);
    house.Init();
    SameLength(order, HouseTrace(owners));
    for i := 0 to |order| - 1
      invariant house.completions == 0 && house.numDealersRemaining == |order| - i
    {
      house.HandleComplete();
    }
    early := house.completions;
    house.HandleComplete();
    completions := house.completions;
  }

  datatype PatronState =
    | AwaitingModConvUp
    | AwaitingDivide
    | AwaitingConditionalEvaluate
    | AwaitingBeaverTripleForFactory
    | AwaitingBeaverTripleForMatrixMultiply
    | AwaitingRandomSquareMatrix
    | AwaitingBeaverTripleForFinalMultiply
    | AwaitingCompareEndModulus
    | AwaitingCompare
    | AwaitingTypeCastFromBit
    | AwaitingFLookup
    | AwaitingTLookup
    | Done

  /** States still to come. */
  function Rank(s: PatronState): nat {
    if s.AwaitingModConvUp? then 12
    else if s.AwaitingDivide? then 11
    else if s.AwaitingConditionalEvaluate? then 10
    else if s.AwaitingBeaverTripleForFactory? then 9
    else if s.AwaitingBeaverTripleForMatrixMultiply? then 8
    else if s.AwaitingRandomSquareMatrix? then 7
    else if s.AwaitingBeaverTripleForFinalMultiply? then 6
    else if s.AwaitingCompareEndModulus? then 5
    else if s.AwaitingCompare? then 4
    else if s.AwaitingTypeCastFromBit? then 3
    else if s.AwaitingFLookup? then 2
    else if s.AwaitingTLookup? then 1
    else 0
  }

  function Previous(s: PatronState): PatronState {
    if s.AwaitingDivide? then AwaitingModConvUp
    else if s.AwaitingConditionalEvaluate? then AwaitingDivide
    else if s.AwaitingBeaverTripleForFactory? then AwaitingConditionalEvaluate
    else if s.AwaitingBeaverTripleForMatrixMultiply? then AwaitingBeaverTripleForFactory
    else if s.AwaitingRandomSquareMatrix? then AwaitingBeaverTripleForMatrixMultiply
    else if s.AwaitingBeaverTripleForFinalMultiply? then AwaitingRandomSquareMatrix
    else if s.AwaitingCompareEndModulus? then AwaitingBeaverTripleForFinalMultiply
    else if s.AwaitingCompare? then AwaitingCompareEndModulus
    else if s.AwaitingTypeCastFromBit? then AwaitingCompare
    else if s.AwaitingFLookup? then AwaitingTypeCastFromBit
    else if s.AwaitingTLookup? then AwaitingFLookup
    else if s.Done? then AwaitingTLookup
    else AwaitingModConvUp
  }

  function ProtocolOf(s: PatronState): Protocol {
    if s.AwaitingModConvUp? then ModConvUp
    else if s.AwaitingDivide? then Divide
    else if s.AwaitingConditionalEvaluate? then ZipAdjacent
    else if s.AwaitingRandomSquareMatrix? then RandomSquareMatrix
    else if s.AwaitingCompareEndModulus? then CompareEndModulus
    else if s.AwaitingCompare? then Compare
    else if s.AwaitingTypeCastFromBit? then TypeCast
    else if s.AwaitingFLookup? || s.AwaitingTLookup? then Lookup
    else Beaver
  }

  predicate IsPair(s: PatronState) {
    s.AwaitingConditionalEvaluate? || s.AwaitingBeaverTripleForFactory?
  }

  /** The invocations whose completion state s waits for. */
  function Starts(s: PatronState, self: Owner, owners: seq<Owner>): seq<Invocation> {
    if s.Done? then []
    else if IsPair(s) then CrossPairs(ProtocolOf(s), self, owners)
    else [Invocation(ProtocolOf(s), Group(owners))]
  }

  /** Everything invoked up to state s. */
  function Invoked(s: PatronState, self: Owner, owners: seq<Owner>): seq<Invocation>
    decreases 12 - Rank(s)
  {
    if s.AwaitingModConvUp? then Starts(s, self, owners)
    else Invoked(Previous(s), self, owners) + Starts(s, self, owners)
  }

  lemma InvokedStep(s: PatronState, self: Owner, owners: seq<Owner>)
    requires !s.AwaitingModConvUp?
    ensures Invoked(s, self, owners) == Invoked(Previous(s), self, owners) + Starts(s, self, owners)
  {
  }

  lemma StartsBeaver(self: Owner, owners: seq<Owner>)
    ensures Starts(AwaitingBeaverTripleForFactory, self, owners) == CrossPairs(Beaver, self, owners)
    ensures Starts(AwaitingBeaverTripleForMatrixMultiply, self, owners) == [Invocation(Beaver, Group(owners))]
  {
  }

  /** The states in their order spell the trace. */
  lemma InvokedInAll(self: Owner, owners: seq<Owner>)
    ensures Invoked(Done, self, owners) == PatronTrace(self, owners)
  {
    var zips, beavers := CrossPairs(ZipAdjacent, self, owners), CrossPairs(Beaver, self, owners);
    var all := Group(owners);
    hide CrossPairs, Group, Invoked;
    InvokedFirst(self, owners);
    InvokedStep(AwaitingDivide, self, owners);
    InvokedStep(AwaitingConditionalEvaluate, self, owners);
    InvokedStep(AwaitingBeaverTripleForFactory, self, owners);
    var upTo := WholeHead(owners) + zips + beavers;
    assert Invoked(AwaitingBeaverTripleForFactory, self, owners) == upTo;
    InvokedTail(self, owners, upTo);
  }

  lemma InvokedFirst(self: Owner, owners: seq<Owner>)
    ensures Invoked(AwaitingModConvUp, self, owners) == [Invocation(ModConvUp, Group(owners))]
  {
  }

  lemma Append8(upTo: seq<Invocation>, a: Invocation, b: Invocation, c: Invocation, d: Invocation,
                e: Invocation, f: Invocation, g: Invocation, h: Invocation)
    ensures upTo + [a] + [b] + [c] + [d] + [e] + [f] + [g] + [h] + [] == upTo + [a, b, c, d, e, f, g, h]
  {
  }

  lemma InvokedTail(self: Owner, owners: seq<Owner>, upTo: seq<Invocation>)
    requires Invoked(AwaitingBeaverTripleForFactory, self, owners) == upTo
    ensures Invoked(Done, self, owners) == upTo + WholeTail(owners)
  {
    hide Group, Invoked;
    InvokedStep(AwaitingBeaverTripleForMatrixMultiply, self, owners);
    InvokedStep(AwaitingRandomSquareMatrix, self, owners);
    InvokedStep(AwaitingBeaverTripleForFinalMultiply, self, owners);
    InvokedStep(AwaitingCompareEndModulus, self, owners);
    InvokedStep(AwaitingCompare, self, owners);
    InvokedStep(AwaitingTypeCastFromBit, self, owners);
    InvokedStep(AwaitingFLookup, self, owners);
    InvokedStep(AwaitingTLookup, self, owners);
    InvokedStep(Done, self, owners);
    var all := Group(owners);
    Append8(upTo, Invocation(Beaver, all), Invocation(RandomSquareMatrix, all), Invocation(Beaver, all),
            Invocation(CompareEndModulus, all), Invocation(Compare, all), Invocation(TypeCast, all),
            Invocation(Lookup, all), Invocation(Lookup, all));
  }

  function CrossParties(self: Owner, owners: seq<Owner>): set<Owner> {
    set o | o in owners && o.vertical != self.vertical
  }

  lemma OneLess(all: set<Owner>, pending: set<Owner>, other: Owner)
    requires pending <= all && other in pending
    ensures pending - {other} <= all && |pending - {other}| == |pending| - 1
    ensures |pending - {other}| == 0 <==> pending - {other} == {}
  {
  }

  // ----- where the randomness goes

  /** The state in which a dispenser is awaited. */
  function StateOf(k: Budget.Dispenser): PatronState {
    match k
    case ModConvUp => AwaitingModConvUp
    case Divide => AwaitingDivide
    case ZipAdjacent(_) => AwaitingConditionalEvaluate
    case FactoryTriple(_) => AwaitingBeaverTripleForFactory
    case MatrixTriple => AwaitingBeaverTripleForMatrixMultiply
    case RandomMatrix => AwaitingRandomSquareMatrix
    case FinalTriple => AwaitingBeaverTripleForFinalMultiply
    case CompareEnd => AwaitingCompareEndModulus
    case CompareStart => AwaitingCompare
    case TypeCast => AwaitingTypeCastFromBit
    case LookupF => AwaitingFLookup
    case LookupT => AwaitingTLookup
  }

  /** The dispenser a whole-group state fills. */
  function FilledIn(s: PatronState): Budget.Dispenser {
    if s.AwaitingModConvUp? then Budget.ModConvUp
    else if s.AwaitingDivide? then Budget.Divide
    else if s.AwaitingBeaverTripleForMatrixMultiply? then Budget.MatrixTriple
    else if s.AwaitingRandomSquareMatrix? then Budget.RandomMatrix
    else if s.AwaitingBeaverTripleForFinalMultiply? then Budget.FinalTriple
    else if s.AwaitingCompareEndModulus? then Budget.CompareEnd
    else if s.AwaitingCompare? then Budget.CompareStart
    else if s.AwaitingTypeCastFromBit? then Budget.TypeCast
    else if s.AwaitingFLookup? then Budget.LookupF
    else Budget.LookupT
  }

  function IndexOf(list: seq<Owner>, o: Owner): (i: nat)
    requires o in list
    ensures i < |list| && list[i] == o
  {
    if list[|list| - 1] == o then |list| - 1 else IndexOf(list[..|list| - 1], o)
  }

  /** The pairwise dispensers are one per cross party. */
  predicate Numbered(k: Budget.Dispenser, cross: seq<Owner>) {
    k.ZipAdjacent? || k.FactoryTriple? ==> k.party < |cross|
  }

  /** Filed: the dispensers of earlier states, and in a pairwise state those of the cross parties that are through. */
  ghost predicate Through(k: Budget.Dispenser, s: PatronState, pending: set<Owner>, cross: seq<Owner>) {
    && Numbered(k, cross)
    && (Rank(StateOf(k)) > Rank(s)
        || ((k.ZipAdjacent? || k.FactoryTriple?) && StateOf(k) == s && cross[k.party] !in pending))
  }

  ghost predicate Filing(dispensers: map<Budget.Dispenser, Invocation>, s: PatronState, pending: set<Owner>,
                         self: Owner, owners: seq<Owner>) {
    && (forall k :: k in dispensers <==> Through(k, s, pending, CrossList(self, owners)))
    && forall k :: k in dispensers ==> dispensers[k] == Invocation(Serving(k), PeersOf(k, self, owners))
  }

  /** The run of a whole-group state is filed, and the next state begins with all cross parties outstanding. */
  lemma FileWhole(d: map<Budget.Dispenser, Invocation>, s: PatronState, next: PatronState, pending: set<Owner>,
                  later: set<Owner>, self: Owner, owners: seq<Owner>)
    requires Filing(d, s, pending, self, owners) && !IsPair(s) && !s.Done? && Previous(next) == s && next != s
    requires forall o :: o in CrossList(self, owners) ==> o in later
    ensures Filing(d[FilledIn(s) := Invocation(ProtocolOf(s), Group(owners))], next, later, self, owners)
  {
    hide CrossList, Group;
  }

  /** The run with one cross party is filed under its number. */
  lemma FilePair(d: map<Budget.Dispenser, Invocation>, k: Budget.Dispenser, other: Owner, pending: set<Owner>,
                 self: Owner, owners: seq<Owner>)
    requires Filing(d, StateOf(k), pending, self, owners) && (k.ZipAdjacent? || k.FactoryTriple?)
    requires Distinct(CrossList(self, owners)) && other in CrossList(self, owners)
    requires k.party == IndexOf(CrossList(self, owners), other)
    ensures Filing(d[k := Invocation(Serving(k), {self, other})], StateOf(k), pending - {other}, self, owners)
  {
    var cross := CrossList(self, owners);
    hide CrossList, Group, IndexOf;
    forall l | Numbered(l, cross) && StateOf(l) == StateOf(k) && l != k
      ensures cross[l.party] != other
    {
    }
  }

  /** A pairwise state is left when nobody is outstanding. */
  lemma LeavePair(d: map<Budget.Dispenser, Invocation>, s: PatronState, next: PatronState, later: set<Owner>,
                  self: Owner, owners: seq<Owner>)
    requires Filing(d, s, {}, self, owners) && IsPair(s) && Previous(next) == s
    requires forall o :: o in CrossList(self, owners) ==> o in later
    ensures Filing(d, next, later, self, owners)
  {
    hide CrossList, Group;
  }

  lemma NothingFiled(pending: set<Owner>, self: Owner, owners: seq<Owner>)
    ensures Filing(map[], AwaitingModConvUp, pending, self, owners)
  {
    hide CrossList, Group;
  }

  /** In the end every dispenser a regression draws from is there, filled by its own protocol with its own peers. */
  ghost predicate AllFiled(dispensers: map<Budget.Dispenser, Invocation>, self: Owner, owners: seq<Owner>) {
    && (forall k :: k in dispensers <==> Numbered(k, CrossList(self, owners)))
    && forall k :: k in dispensers ==> dispensers[k] == Invocation(Serving(k), PeersOf(k, self, owners))
  }

  lemma FilingDone(d: map<Budget.Dispenser, Invocation>, pending: set<Owner>, self: Owner, owners: seq<Owner>)
    requires Filing(d, Done, pending, self, owners)
    ensures AllFiled(d, self, owners)
  {
    hide CrossList, Group;
  }

  lemma CrossSets(self: Owner, owners: seq<Owner>)
    requires Distinct(owners)
    ensures Distinct(CrossList(self, owners))
    ensures forall o :: o in CrossList(self, owners) <==> o in CrossParties(self, owners)
  {
    CrossListIs(self, owners);
    hide CrossList;
  }

  /** RegressionRandomnessPatron, the data owner's side. */
  class RegressionRandomnessPatron {
    const self: Owner
    const owners: seq<Owner>
    var state: PatronState
    var invocations: seq<Invocation>
    var numCrossParties: nat
    var numPartiesAwaiting: int
    /** Each dispenser with the run that filled it. */
    var dispensers: map<Budget.Dispenser, Invocation>
    /** In a pairwise state, the cross parties whose protocol is still running. */
    var pending: set<Owner>

    ghost predicate Valid()
      reads this
    {
      && Distinct(owners)
      && invocations == Invoked(state, self, owners)
      && numCrossParties == |CrossParties(self, owners)|
      && pending <= CrossParties(self, owners)
      && (IsPair(state) ==> numPartiesAwaiting == |pending|)
      && Filing(dispensers, state, pending, self, owners)
    }

    /** The constructor and init. */
    constructor (self: Owner, owners: seq<Owner>)
      requires Distinct(owners)
      ensures Valid() && this.self == self && this.owners == owners && state == AwaitingModConvUp
    {
      this.self, this.owners := self, owners;
      dispensers, pending := map[], {};
      numPartiesAwaiting := 0;
      state := AwaitingModConvUp;
      invocations := [Invocation(ModConvUp, Group(owners))];
      new;
      InvokedFirst(self, owners);
      NothingFiled(pending, self, owners);
      numCrossParties := CountCross(self, owners);
    }

    /** One protocol per cross party. */
    method InvokeOnCross(kind: Protocol)
      requires Distinct(owners)
      modifies this`invocations
      ensures invocations == old(invocations) + CrossPairs(kind, self, owners)
    {
      for i := 0 to |owners|
        invariant invocations == old(invocations) + CrossPairs(kind, self, owners[..i])
      {
        assert owners[..i + 1][..i] == owners[..i];
        if owners[i].vertical != self.vertical {
          invocations := invocations + [Invocation(kind, {self, owners[i]})];
        }
      }
      assert owners[..|owners|] == owners;
    }

    method InvokeOnAll(kind: Protocol, next: PatronState)
      modifies this`invocations, this`state
      ensures invocations == old(invocations) + [Invocation(kind, Group(owners))] && state == next
    {
      invocations := invocations + [Invocation(kind, Group(owners))];
      state := next;
    }

    /** ZipAdjacent randomness with other is there. */
    method HandleConditionalEvaluate(other: Owner)
      requires Valid() && state.AwaitingConditionalEvaluate? && other in pending
      modifies this
      ensures Valid()
      ensures (state == old(state) && pending == old(pending) - {other} && pending != {})
        || (state.AwaitingBeaverTripleForFactory? && pending == CrossParties(self, owners))
    {
      hide CrossPairs, CrossParties, CrossList, Distinct, Invoked, Starts, ProtocolOf, Filing, Group;
      OneLess(CrossParties(self, owners), pending, other);
      CrossSets(self, owners);
      var k := Budget.ZipAdjacent(IndexOf(CrossList(self, owners), other));
      FilePair(dispensers, k, other, pending, self, owners);
      dispensers := dispensers[k := Invocation(ZipAdjacent, {self, other})];
      pending := pending - {other};
      numPartiesAwaiting := numPartiesAwaiting - 1;
      if numPartiesAwaiting == 0 {
        StartsBeaver(self, owners);
        InvokedStep(AwaitingBeaverTripleForFactory, self, owners);
        LeavePair(dispensers, state, AwaitingBeaverTripleForFactory, CrossParties(self, owners), self, owners);
        InvokeOnCross(Beaver);
        numPartiesAwaiting := numCrossParties;
        pending := CrossParties(self, owners);
        state := AwaitingBeaverTripleForFactory;
      }
    }

    /** Triples for the payload products with other are there. */
    method HandleFactory(other: Owner)
      requires Valid() && state.AwaitingBeaverTripleForFactory? && other in pending
      modifies this
      ensures Valid()
      ensures (state == old(state) && pending == old(pending) - {other} && pending != {})
        || state.AwaitingBeaverTripleForMatrixMultiply?
    {
      hide CrossPairs, CrossParties, CrossList, Distinct, Invoked, Starts, ProtocolOf, Filing, Group;
      OneLess(CrossParties(self, owners), pending, other);
      CrossSets(self, owners);
      var k := Budget.FactoryTriple(IndexOf(CrossList(self, owners), other));
      FilePair(dispensers, k, other, pending, self, owners);
      dispensers := dispensers[k := Invocation(Beaver, {self, other})];
      pending := pending - {other};
      numPartiesAwaiting := numPartiesAwaiting - 1;
      if numPartiesAwaiting == 0 {
        StartsBeaver(self, owners);
        InvokedStep(AwaitingBeaverTripleForMatrixMultiply, self, owners);
        LeavePair(dispensers, state, AwaitingBeaverTripleForMatrixMultiply, CrossParties(self, owners), self, owners);
        InvokeOnAll(Beaver, AwaitingBeaverTripleForMatrixMultiply);
        pending := CrossParties(self, owners);
      }
    }

    /** The run of the whole group that has finished fills its dispenser. */
    method FileResult(f: Invocation)
      requires Valid() && !IsPair(state) && !state.Done? && f == Invocation(ProtocolOf(state), Group(owners))
      modifies this`dispensers
      ensures dispensers == old(dispensers)[FilledIn(state) := Invocation(ProtocolOf(state), Group(owners))]
    {
      match state {
        case AwaitingModConvUp => dispensers := dispensers[Budget.ModConvUp := f];
        case AwaitingDivide => dispensers := dispensers[Budget.Divide := f];
        case AwaitingBeaverTripleForMatrixMultiply => dispensers := dispensers[Budget.MatrixTriple := f];
        case AwaitingRandomSquareMatrix => dispensers := dispensers[Budget.RandomMatrix := f];
        case AwaitingBeaverTripleForFinalMultiply => dispensers := dispensers[Budget.FinalTriple := f];
        case AwaitingCompareEndModulus => dispensers := dispensers[Budget.CompareEnd := f];
        case AwaitingCompare => dispensers := dispensers[Budget.CompareStart := f];
        case AwaitingTypeCastFromBit => dispensers := dispensers[Budget.TypeCast := f];
        case AwaitingFLookup => dispensers := dispensers[Budget.LookupF := f];
        case AwaitingTLookup => dispensers := dispensers[Budget.LookupT := f];
      }
    }

    /** A protocol of the whole group has finished. */
    method HandleWhole()
      requires Valid() && !IsPair(state) && !state.Done?
      modifies this
      ensures Valid() && Previous(state) == old(state) && !state.AwaitingModConvUp?
      ensures state.AwaitingConditionalEvaluate? ==> pending == CrossParties(self, owners)
    {
      hide CrossPairs, CrossParties, CrossList, Distinct, Invoked, Filing, Group;
      LastInvoked(state, self, owners);
      CrossSets(self, owners);
      ghost var before := dispensers;
      FileResult(invocations[|invocations| - 1]);
      ghost var outstanding := pending;
      pending := CrossParties(self, owners);
      if state.AwaitingModConvUp? {
        InvokeOnAll(Divide, AwaitingDivide);
      } else if state.AwaitingDivide? {
        InvokeOnCross(ZipAdjacent);
        numPartiesAwaiting := numCrossParties;
        state := AwaitingConditionalEvaluate;
      } else if state.AwaitingBeaverTripleForMatrixMultiply? {
        InvokeOnAll(RandomSquareMatrix, AwaitingRandomSquareMatrix);
      } else if state.AwaitingRandomSquareMatrix? {
        InvokeOnAll(Beaver, AwaitingBeaverTripleForFinalMultiply);
      } else if state.AwaitingBeaverTripleForFinalMultiply? {
        InvokeOnAll(CompareEndModulus, AwaitingCompareEndModulus);
      } else if state.AwaitingCompareEndModulus? {
        InvokeOnAll(Compare, AwaitingCompare);
      } else if state.AwaitingCompare? {
        InvokeOnAll(TypeCast, AwaitingTypeCastFromBit);
      } else if state.AwaitingTypeCastFromBit? {
        InvokeOnAll(Lookup, AwaitingFLookup);
      } else if state.AwaitingFLookup? {
        InvokeOnAll(Lookup, AwaitingTLookup);
      } else {
        state := Done;
      }
      InvokedStep(state, self, owners);
      FileWhole(before, old(state), state, outstanding, pending, self, owners);
    }
  }

  lemma LastInvoked(s: PatronState, self: Owner, owners: seq<Owner>)
    requires !IsPair(s) && !s.Done?
    ensures var all := Invoked(s, self, owners);
      all != [] && all[|all| - 1] == Invocation(ProtocolOf(s), Group(owners))
  {
    hide Group, CrossPairs;
  }

  method CountCross(self: Owner, owners: seq<Owner>) returns (n: nat)
    requires Distinct(owners)
    ensures n == |CrossParties(self, owners)|
  {
    n := 0;
    for i := 0 to |owners|
      invariant n == |CrossParties(self, owners[..i])|
    {
      var before, after := CrossParties(self, owners[..i]), CrossParties(self, owners[..i + 1]);
      if owners[i].vertical != self.vertical {
        assert after == before + {owners[i]};
        n := n + 1;
      } else {
        assert after == before;
      }
    }
    assert owners[..|owners|] == owners;
  }

  /**
   Every order of completions: the patron gets through, its sequence complete and every dispenser
   filled, exactly when it has a cross party.
   */
  method RunPatron(self: Owner, owners: seq<Owner>)
    returns (finished: bool, trace: seq<Invocation>, dispensers: map<Budget.Dispenser, Invocation>)
    requires Distinct(owners)
    ensures finished <==> CrossParties(self, owners) != {}
    ensures finished ==> trace == PatronTrace(self, owners) && AllFiled(dispensers, self, owners)
  {
    hide CrossParties, Invoked, PatronTrace, Filing;
    InvokedInAll(self, owners);
    var patron := new RegressionRandomnessPatron(self, owners);
    while !patron.state.Done? && !(IsPair(patron.state) && patron.numPartiesAwaiting == 0)
      invariant patron.Valid() && patron.self == self && patron.owners == owners
      invariant CrossParties(self, owners) != {} || Rank(patron.state) >= 10
      invariant IsPair(patron.state) && CrossParties(self, owners) != {} ==> patron.pending != {}
      decreases Rank(patron.state), patron.pending
    {
      if IsPair(patron.state) {
        var other :| other in patron.pending;
        if patron.state.AwaitingConditionalEvaluate? {
          patron.HandleConditionalEvaluate(other);
        } else {
          patron.HandleFactory(other);
        }
      } else {
        patron.HandleWhole();
      }
    }
    finished := patron.state.Done?;
    trace := patron.invocations;
    dispensers := patron.dispensers;
    if finished {
      FilingDone(dispensers, patron.pending, self, owners);
    }
  }
}
