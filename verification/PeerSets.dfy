/** Groups of peers, kept by role and sorted, so that one group has one representation. */
module PeerSets {
  datatype Role = Analyst | DataOwner | Dealer | Recipient | Invalid

  /** An organisation id is its bytes read as one number, which orders as the byte array does. */
  datatype Identity = Identity(orgId: nat, role: Role, vertical: nat)

  const SIZE_MAX: nat := 0xFFFF_FFFF_FFFF_FFFF

  function RoleNumber(r: Role): nat {
    match r
    case Analyst => 1
    case DataOwner => 2
    case Dealer => 4
    case Recipient => 8
    case Invalid => 255
  }

  /** Identity::operator==: only a data owner is told apart by its vertical. */
  predicate Same(a: Identity, b: Identity) {
    if a.role == DataOwner then a.orgId == b.orgId && a.role == b.role && a.vertical == b.vertical
    else a.orgId == b.orgId && a.role == b.role
  }

  /** Identity::operator<. */
  predicate Less(a: Identity, b: Identity) {
    if a.orgId != b.orgId then a.orgId < b.orgId
    else if a.role != b.role then RoleNumber(a.role) < RoleNumber(b.role)
    else if a.role == DataOwner then a.vertical < b.vertical
    else false
  }

  /** The part of an identity that comparisons see. */
  function Norm(a: Identity): Identity {
    if a.role == DataOwner then a else a.(vertical := 0)
  }

  lemma TotalOrder(a: Identity, b: Identity, c: Identity)
    ensures Same(a, b) <==> Norm(a) == Norm(b)
    ensures Same(a, b) <==> !Less(a, b) && !Less(b, a)
    ensures !(Less(a, b) && Less(b, a))
    ensures Less(a, b) && Less(b, c) ==> Less(a, c)
    ensures Same(a, b) ==> (Less(a, c) <==> Less(b, c)) && (Less(c, a) <==> Less(c, b))
  {
  }

  predicate Sorted(s: seq<Identity>) {
    forall i, j :: 0 <= i < j < |s| ==> !Less(s[j], s[i])
  }

  /** The members of a list, as comparisons see them. */
  function Norms(s: seq<Identity>): multiset<Identity> {
    if s == [] then multiset{} else Norms(s[..|s| - 1]) + multiset{Norm(s[|s| - 1])}
  }

  lemma NormsPush(s: seq<Identity>, x: Identity)
    ensures Norms(s + [x]) == Norms(s) + multiset{Norm(x)}
  {
    assert (s + [x])[..|s|] == s;
  }

  lemma NoNorms()
    ensures Norms([]) == multiset{}
  {
  }

  lemma {:induction false} NormsConcat(s: seq<Identity>, t: seq<Identity>)
    ensures Norms(s + t) == Norms(s) + Norms(t)
  {
    hide Norms, Norm;
    if t == [] {
      NoNorms();
      assert s + t == s;
    } else {
      var most, x := t[..|t| - 1], t[|t| - 1];
      NormsConcat(s, most);
      NormsPush(s + most, x);
      NormsPush(most, x);
      assert (s + most) + [x] == s + t && most + [x] == t;
    }
  }

  lemma {:induction false} NormsIn(s: seq<Identity>, x: Identity)
    ensures x in Norms(s) <==> exists i :: 0 <= i < |s| && Norm(s[i]) == x
  {
    if s != [] {
      NormsIn(s[..|s| - 1], x);
      hide Norm;
      if x in Norms(s[..|s| - 1]) {
        var i :| 0 <= i < |s| - 1 && Norm(s[..|s| - 1][i]) == x;
        assert Norm(s[i]) == x;
      }
      if i :| 0 <= i < |s| - 1 && Norm(s[i]) == x {
        assert Norm(s[..|s| - 1][i]) == x;
      }
    }
  }

  lemma {:induction false} NormsSize(s: seq<Identity>)
    ensures |Norms(s)| == |s|
  {
    if s != [] {
      NormsSize(s[..|s| - 1]);
    }
  }

  predicate SameList(s: seq<Identity>, t: seq<Identity>) {
    |s| == |t| && forall i :: 0 <= i < |s| ==> Same(s[i], t[i])
  }

  lemma {:induction false} SameListNorms(s: seq<Identity>, t: seq<Identity>)
    requires SameList(s, t)
    ensures Norms(s) == Norms(t)
  {
    if s != [] {
      SameListNorms(s[..|s| - 1], t[..|t| - 1]);
      TotalOrder(s[|s| - 1], t[|t| - 1], s[|s| - 1]);
    }
  }

  /** The last element of a sorted list is not below any member of it. */
  lemma LastIsTop(s: seq<Identity>, x: Identity)
    requires Sorted(s) && s != [] && Norm(x) in Norms(s)
    ensures !Less(s[|s| - 1], x)
  {
    hide Norms, Less;
    NormsIn(s, Norm(x));
    var i :| 0 <= i < |s| && Norm(s[i]) == Norm(x);
    TotalOrder(s[i], x, s[|s| - 1]);
    TotalOrder(x, x, x);
    TotalOrder(s[|s| - 1], s[|s| - 1], s[i]);
  }

  lemma NormsLast(s: seq<Identity>)
    requires s != []
    ensures Norms(s) == Norms(s[..|s| - 1]) + multiset{Norm(s[|s| - 1])}
    ensures Norm(s[|s| - 1]) in Norms(s)
  {
  }

  lemma SameLast(s: seq<Identity>, t: seq<Identity>)
    requires Sorted(s) && Sorted(t) && Norms(s) == Norms(t) && s != [] && t != []
    ensures Same(s[|s| - 1], t[|t| - 1]) && Norms(s[..|s| - 1]) == Norms(t[..|t| - 1])
  {
    hide Norms, Norm, Sorted;
    var a, b := s[|s| - 1], t[|t| - 1];
    NormsLast(s);
    NormsLast(t);
    LastIsTop(t, a);
    LastIsTop(s, b);
    TotalOrder(a, b, a);
    assert Norms(s[..|s| - 1]) == Norms(s) - multiset{Norm(a)};
    assert Norms(t[..|t| - 1]) == Norms(t) - multiset{Norm(b)};
  }

  /** A sorted list is determined by its members. */
  lemma {:induction false} SortedUnique(s: seq<Identity>, t: seq<Identity>)
    requires Sorted(s) && Sorted(t) && Norms(s) == Norms(t)
    ensures SameList(s, t)
  {
    NormsSize(s);
    NormsSize(t);
    hide Norms, Norm, Less, Same;
    if s != [] {
      SameLast(s, t);
      SortedUnique(s[..|s| - 1], t[..|t| - 1]);
    }
  }

  datatype View = View(hasDealer: bool, dealer: Identity, recipients: seq<Identity>, dataowners: seq<seq<Identity>>)

  /** PeerSet::operator==. */
  predicate SameView(v: View, w: View) {
    && v.hasDealer == w.hasDealer
    && (v.hasDealer ==> Same(v.dealer, w.dealer))
    && SameList(v.recipients, w.recipients)
    && |v.dataowners| == |w.dataowners|
    && forall i :: 0 <= i < |v.dataowners| ==> SameList(v.dataowners[i], w.dataowners[i])
  }

  predicate RowOf(row: seq<Identity>, vertical: nat) {
    forall x :: x in row ==> x.role == DataOwner && x.vertical == vertical
  }

  /** Everybody stands where the role and the vertical say. */
  predicate Placed(v: View) {
    && (v.hasDealer ==> v.dealer.role == Dealer)
    && (forall x :: x in v.recipients ==> x.role == Recipient)
    && forall j :: 0 <= j < |v.dataowners| ==> RowOf(v.dataowners[j], j)
  }

  predicate Ordered(v: View) {
    Placed(v) && Sorted(v.recipients) && forall j :: 0 <= j < |v.dataowners| ==> Sorted(v.dataowners[j])
  }

  predicate NoTrailingGap(v: View) {
    v.dataowners != [] ==> v.dataowners[|v.dataowners| - 1] != []
  }

  predicate Canonical(v: View) {
    Ordered(v) && NoTrailingGap(v)
  }

  function RowNorms(rows: seq<seq<Identity>>): multiset<Identity> {
    if rows == [] then multiset{} else RowNorms(rows[..|rows| - 1]) + Norms(rows[|rows| - 1])
  }

  function DealerNorms(v: View): multiset<Identity> {
    if v.hasDealer then multiset{Norm(v.dealer)} else multiset{}
  }

  /** Who is in the set, with multiplicities. */
  function Contents(v: View): multiset<Identity> {
    DealerNorms(v) + Norms(v.recipients) + RowNorms(v.dataowners)
  }

  lemma NormsRole(s: seq<Identity>, x: Identity)
    requires x in Norms(s)
    ensures exists i :: 0 <= i < |s| && s[i].role == x.role && (x.role == DataOwner ==> s[i].vertical == x.vertical)
  {
    NormsIn(s, x);
    var i :| 0 <= i < |s| && Norm(s[i]) == x;
    assert s[i].role == x.role;
  }

  lemma RowHolds(row: seq<Identity>, vertical: nat, x: Identity)
    requires RowOf(row, vertical)
    ensures x.role != DataOwner || x.vertical != vertical ==> Norms(row)[x] == 0
  {
    hide Norms;
    if x in Norms(row) {
      NormsRole(row, x);
    }
  }

  /** A data owner is counted in the row of its vertical and nowhere else. */
  lemma {:induction false} RowCount(rows: seq<seq<Identity>>, x: Identity)
    requires forall j :: 0 <= j < |rows| ==> RowOf(rows[j], j)
    ensures x.role != DataOwner ==> RowNorms(rows)[x] == 0
    ensures x.role == DataOwner ==>
      RowNorms(rows)[x] == if x.vertical < |rows| then Norms(rows[x.vertical])[x] else 0
  {
    hide Norms, RowOf;
    if rows != [] {
      RowCount(rows[..|rows| - 1], x);
      RowHolds(rows[|rows| - 1], |rows| - 1, x);
    }
  }

  lemma RecipientsHold(s: seq<Identity>, x: Identity)
    requires forall y :: y in s ==> y.role == Recipient
    ensures x.role != Recipient ==> Norms(s)[x] == 0
  {
    hide Norms;
    if x in Norms(s) {
      NormsRole(s, x);
    }
  }

  /** The contents, role by role. */
  lemma ContentsCount(v: View, x: Identity)
    requires Placed(v)
    ensures x.role == Dealer ==> Contents(v)[x] == DealerNorms(v)[x]
    ensures x.role == Recipient ==> Contents(v)[x] == Norms(v.recipients)[x]
    ensures x.role == DataOwner ==>
      Contents(v)[x] == if x.vertical < |v.dataowners| then Norms(v.dataowners[x.vertical])[x] else 0
    ensures x.role != Recipient ==> Norms(v.recipients)[x] == 0
    ensures x.role != Dealer ==> DealerNorms(v)[x] == 0
  {
    hide Norms, RowNorms, RowOf;
    RowCount(v.dataowners, x);
    RecipientsHold(v.recipients, x);
  }

  lemma SameDealers(v: View, w: View)
    requires Placed(v) && Placed(w) && Contents(v) == Contents(w)
    ensures v.hasDealer == w.hasDealer && (v.hasDealer ==> Same(v.dealer, w.dealer))
  {
    hide Contents, Norms, RowNorms;
    if v.hasDealer {
      ContentsCount(v, Norm(v.dealer));
      ContentsCount(w, Norm(v.dealer));
      TotalOrder(v.dealer, w.dealer, v.dealer);
    } else if w.hasDealer {
      ContentsCount(v, Norm(w.dealer));
      ContentsCount(w, Norm(w.dealer));
    }
  }

  lemma SameRecipients(v: View, w: View)
    requires Placed(v) && Placed(w) && Contents(v) == Contents(w)
    ensures Norms(v.recipients) == Norms(w.recipients)
  {
    hide Contents, Norms, RowNorms, DealerNorms;
    forall x
      ensures Norms(v.recipients)[x] == Norms(w.recipients)[x]
    {
      ContentsCount(v, x);
      ContentsCount(w, x);
    }
  }

  lemma SameRow(v: View, w: View, j: nat)
    requires Placed(v) && Placed(w) && Contents(v) == Contents(w)
    requires j < |v.dataowners|
    ensures j < |w.dataowners| ==> Norms(v.dataowners[j]) == Norms(w.dataowners[j])
    ensures j >= |w.dataowners| ==> v.dataowners[j] == []
  {
    hide Contents, RowNorms, DealerNorms, Norms;
    forall x
      ensures Norms(v.dataowners[j])[x] == if j < |w.dataowners| then Norms(w.dataowners[j])[x] else 0
    {
      ContentsCount(v, x);
      ContentsCount(w, x);
      if x in Norms(v.dataowners[j]) {
        NormsRole(v.dataowners[j], x);
      }
      if j < |w.dataowners| && x in Norms(w.dataowners[j]) {
        NormsRole(w.dataowners[j], x);
      }
    }
    if j >= |w.dataowners| {
      assert Norms(v.dataowners[j]) == multiset{};
      NormsSize(v.dataowners[j]);
    }
  }

  lemma {:induction false} SameRowsNorms(a: seq<seq<Identity>>, b: seq<seq<Identity>>)
    requires |a| == |b| && forall i :: 0 <= i < |a| ==> SameList(a[i], b[i])
    ensures RowNorms(a) == RowNorms(b)
  {
    if a != [] {
      SameRowsNorms(a[..|a| - 1], b[..|b| - 1]);
      SameListNorms(a[|a| - 1], b[|b| - 1]);
    }
  }

  /** Two sets that compare equal have the same members. */
  lemma EqualContents(v: View, w: View)
    requires SameView(v, w)
    ensures Contents(v) == Contents(w)
  {
    hide Norms, RowNorms, Less;
    SameListNorms(v.recipients, w.recipients);
    SameRowsNorms(v.dataowners, w.dataowners);
    TotalOrder(v.dealer, w.dealer, v.dealer);
  }

  /** Canonical form: in it, comparing equal is having the same members. */
  lemma CanonicalForm(v: View, w: View)
    requires Canonical(v) && Canonical(w)
    ensures SameView(v, w) <==> Contents(v) == Contents(w)
  {
    hide Contents, Norms, RowNorms, Sorted, Placed, SameList, DealerNorms;
    if SameView(v, w) {
      EqualContents(v, w);
    }
    if Contents(v) == Contents(w) {
      SameDealers(v, w);
      SameRecipients(v, w);
      SortedUnique(v.recipients, w.recipients);
      if v.dataowners != [] {
        SameRow(v, w, |v.dataowners| - 1);
      }
      if w.dataowners != [] {
        SameRow(w, v, |w.dataowners| - 1);
      }
      forall j | 0 <= j < |v.dataowners|
        ensures SameList(v.dataowners[j], w.dataowners[j])
      {
        SameRow(v, w, j);
        SortedUnique(v.dataowners[j], w.dataowners[j]);
      }
    }
  }

  /** Where add puts p: behind everything it is not below, looking from the end. */
  function Place(s: seq<Identity>, p: Identity): (k: nat)
    ensures k <= |s|
  {
    if s == [] || !Less(p, s[|s| - 1]) then |s| else Place(s[..|s| - 1], p)
  }

  function Insert(s: seq<Identity>, p: Identity): seq<Identity> {
    s[..Place(s, p)] + [p] + s[Place(s, p)..]
  }

  lemma {:induction false} PlaceSplits(s: seq<Identity>, p: Identity)
    ensures Place(s, p) > 0 ==> !Less(p, s[Place(s, p) - 1])
    ensures forall i :: Place(s, p) <= i < |s| ==> Less(p, s[i])
  {
    if s != [] && Less(p, s[|s| - 1]) {
      PlaceSplits(s[..|s| - 1], p);
    }
    hide Less;
  }

  lemma InsertSorted(s: seq<Identity>, p: Identity)
    requires Sorted(s)
    ensures Sorted(Insert(s, p))
  {
    PlaceSplits(s, p);
    hide Place, Less;
    var k, t := Place(s, p), Insert(s, p);
    forall i, j | 0 <= i < j < |t|
      ensures !Less(t[j], t[i])
    {
      if j == k {
        TotalOrder(p, s[i], s[k - 1]);
        TotalOrder(p, s[k - 1], s[i]);
        TotalOrder(s[k - 1], s[i], p);
      } else if i == k {
        TotalOrder(p, s[j - 1], p);
      }
    }
  }

  lemma InsertNorms(s: seq<Identity>, p: Identity)
    ensures Norms(Insert(s, p)) == Norms(s) + multiset{Norm(p)}
    ensures forall x :: x in Insert(s, p) <==> x in s || x == p
  {
    hide Norms, Place;
    var k := Place(s, p);
    NormsPush(s[..k], p);
    NormsConcat(s[..k] + [p], s[k..]);
    NormsConcat(s[..k], s[k..]);
    assert s[..k] + s[k..] == s;
  }

  /** Taking out one element of a list. */
  lemma EraseNorms(s: seq<Identity>, k: nat)
    requires k < |s|
    ensures Norms(s) == Norms(s[..k] + s[k + 1..]) + multiset{Norm(s[k])}
  {
    hide Norms;
    NormsPush(s[..k], s[k]);
    NormsConcat(s[..k] + [s[k]], s[k + 1..]);
    NormsConcat(s[..k], s[k + 1..]);
    assert s[..k] + [s[k]] + s[k + 1..] == s;
  }

  lemma RowNormsLast(rows: seq<seq<Identity>>)
    requires rows != []
    ensures RowNorms(rows) == RowNorms(rows[..|rows| - 1]) + Norms(rows[|rows| - 1])
  {
  }

  lemma {:induction false} RowUpdate(rows: seq<seq<Identity>>, j: nat, row: seq<Identity>, more: multiset<Identity>)
    requires j < |rows|
    ensures Norms(row) == Norms(rows[j]) + more ==> RowNorms(rows[j := row]) == RowNorms(rows) + more
    ensures Norms(rows[j]) == Norms(row) + more ==> RowNorms(rows) == RowNorms(rows[j := row]) + more
  {
    hide Norms, RowNorms;
    var last := |rows| - 1;
    RowNormsLast(rows);
    RowNormsLast(rows[j := row]);
    if j < last {
      RowUpdate(rows[..last], j, row, more);
      assert rows[j := row][..last] == rows[..last][j := row];
    } else {
      assert rows[j := row][..last] == rows[..last];
    }
  }

  lemma RowNormsGap(rows: seq<seq<Identity>>)
    ensures RowNorms(rows + [[]]) == RowNorms(rows)
  {
    assert (rows + [[]])[..|rows|] == rows;
  }

  /** The insertion loop of add. */
  method InsertInPlace(s: seq<Identity>, peer: Identity) returns (t: seq<Identity>)
    ensures t == Insert(s, peer)
  {
    var place := |s|;
    assert s[..place] == s;
    while place > 0 && Less(peer, s[place - 1])
      invariant place <= |s| && Place(s[..place], peer) == Place(s, peer)
    {
      assert s[..place][..place - 1] == s[..place - 1];
      place := place - 1;
    }
    t := s[..place] + [peer] + s[place..];
  }

  /** The search loop of remove. */
  method EraseFrom(s: seq<Identity>, peer: Identity) returns (t: seq<Identity>)
    requires Norm(peer) in Norms(s)
    ensures Norms(s) == Norms(t) + multiset{Norm(peer)} && |t| == |s| - 1
    ensures Sorted(s) ==> Sorted(t)
    ensures forall x :: x in t ==> x in s
  {
    hide Norms, Less;
    NormsIn(s, Norm(peer));
    var place := 0;
    while place < |s| && !Same(s[place], peer)
      invariant place <= |s| && forall i :: 0 <= i < place ==> !Same(s[i], peer)
    {
      place := place + 1;
    }
    forall i | 0 <= i < |s|
      ensures Same(s[i], peer) <==> Norm(s[i]) == Norm(peer)
    {
      TotalOrder(s[i], peer, peer);
    }
    assert place < |s|;
    EraseNorms(s, place);
    t := s[..place] + s[place + 1..];
  }

  /** std::sort: any sorting method gives a list with these properties. */
  method Sort(s: seq<Identity>) returns (t: seq<Identity>)
    ensures Sorted(t) && Norms(t) == Norms(s) && |t| == |s|
    ensures forall x :: x in t <==> x in s
  {
    hide Norms, Place, Less;
    t := [];
    NoNorms();
    for i := 0 to |s|
      invariant |t| == i && Sorted(t) && Norms(t) == Norms(s[..i])
      invariant forall x :: x in t <==> x in s[..i]
    {
      InsertSorted(t, s[i]);
      InsertNorms(t, s[i]);
      NormsPush(s[..i], s[i]);
      assert s[..i + 1] == s[..i] + [s[i]];
      t := InsertInPlace(t, s[i]);
    }
    assert s[..|s|] == s;
  }

  /** A recipient more. */
  lemma RecipientAdded(v: View, p: Identity)
    requires p.role == Recipient
    ensures var w := v.(recipients := Insert(v.recipients, p));
      && Contents(w) == Contents(v) + multiset{Norm(p)}
      && (Ordered(v) ==> Ordered(w)) && (Canonical(v) ==> Canonical(w))
  {
    hide Norms, Norm, Insert, RowNorms, Sorted;
    InsertNorms(v.recipients, p);
    if Ordered(v) {
      InsertSorted(v.recipients, p);
    }
  }

  /** A data owner more, in a row that is there. */
  lemma OwnerAdded(v: View, p: Identity)
    requires p.role == DataOwner && p.vertical < |v.dataowners|
    ensures var w := v.(dataowners := v.dataowners[p.vertical := Insert(v.dataowners[p.vertical], p)]);
      && Contents(w) == Contents(v) + multiset{Norm(p)}
      && (Ordered(v) ==> Ordered(w))
      && (Ordered(v) && (NoTrailingGap(v) || p.vertical == |v.dataowners| - 1) ==> Canonical(w))
  {
    hide Norms, Norm, RowNorms, Sorted;
    var row := v.dataowners[p.vertical];
    assert Insert(row, p) != [];
    hide Insert;
    InsertNorms(row, p);
    RowUpdate(v.dataowners, p.vertical, Insert(row, p), multiset{Norm(p)});
    if Ordered(v) {
      InsertSorted(row, p);
    }
  }

  lemma DealerAdded(v: View, p: Identity)
    requires p.role == Dealer && !v.hasDealer
    ensures var w := v.(hasDealer := true, dealer := p);
      && Contents(w) == Contents(v) + multiset{Norm(p)}
      && (Ordered(v) ==> Ordered(w)) && (Canonical(v) ==> Canonical(w))
  {
    hide Norms, Norm, RowNorms, Sorted;
  }

  lemma DealerRemoved(v: View, none: Identity)
    requires v.hasDealer
    ensures var w := v.(hasDealer := false, dealer := none);
      && Contents(v) == Contents(w) + multiset{Norm(v.dealer)}
      && (Ordered(v) ==> Ordered(w)) && (Canonical(v) ==> Canonical(w))
  {
    hide Norms, Norm, RowNorms, Sorted;
  }

  lemma RecipientRemoved(v: View, p: Identity, rest: seq<Identity>)
    requires Norms(v.recipients) == Norms(rest) + multiset{Norm(p)} && (Sorted(v.recipients) ==> Sorted(rest))
    requires forall x :: x in rest ==> x in v.recipients
    ensures var w := v.(recipients := rest);
      && Contents(v) == Contents(w) + multiset{Norm(p)}
      && (Ordered(v) ==> Ordered(w)) && (Canonical(v) ==> Canonical(w))
  {
    hide Norms, Norm, RowNorms, Sorted;
  }

  lemma GapAdded(v: View)
    ensures var w := v.(dataowners := v.dataowners + [[]]);
      Contents(w) == Contents(v) && (Ordered(v) ==> Ordered(w))
  {
    hide Norms, RowNorms;
    RowNormsGap(v.dataowners);
  }

  lemma RowErased(rows: seq<seq<Identity>>, j: nat, row: seq<Identity>)
    requires j < |rows| && |row| == |rows[j]| - 1
    ensures var w := rows[j := row];
      rows[|rows| - 1] != [] ==> (w[|rows| - 1] != [] <==> !(j == |rows| - 1 && |rows[j]| == 1))
  {
  }

  /** A data owner less. */
  lemma OwnerRemoved(v: View, p: Identity, row: seq<Identity>)
    requires p.role == DataOwner && p.vertical < |v.dataowners|
    requires Norms(v.dataowners[p.vertical]) == Norms(row) + multiset{Norm(p)}
    requires |row| == |v.dataowners[p.vertical]| - 1
    requires Sorted(v.dataowners[p.vertical]) ==> Sorted(row)
    requires forall x :: x in row ==> x in v.dataowners[p.vertical]
    ensures var w := v.(dataowners := v.dataowners[p.vertical := row]);
      && Contents(v) == Contents(w) + multiset{Norm(p)}
      && (Ordered(v) ==> Ordered(w))
      && (Canonical(v) ==> (Canonical(w) <==> !(p.vertical == |v.dataowners| - 1 && |v.dataowners[p.vertical]| == 1)))
  {
    hide Norms, Norm, RowNorms, Sorted, RowOf;
    RowUpdate(v.dataowners, p.vertical, row, multiset{Norm(p)});
    RowErased(v.dataowners, p.vertical, row);
    assert RowOf(v.dataowners[p.vertical], p.vertical) ==> RowOf(row, p.vertical) by {
      RowOfFewer(v.dataowners[p.vertical], row, p.vertical);
    }
  }

  lemma RowOfFewer(row: seq<Identity>, fewer: seq<Identity>, vertical: nat)
    requires forall x :: x in fewer ==> x in row
    ensures RowOf(row, vertical) ==> RowOf(fewer, vertical)
  {
  }

  predicate HasOwner(v: View) {
    exists j :: 0 <= j < |v.dataowners| && v.dataowners[j] != []
  }

  class PeerSet {
    var hasDealer: bool
    var dealer: Identity
    var recipients: seq<Identity>
    var dataowners: seq<seq<Identity>>

    function Viewed(): View
      reads this
    {
      View(hasDealer, dealer, recipients, dataowners)
    }

    constructor ()
      ensures Canonical(Viewed()) && Contents(Viewed()) == multiset{}
      ensures !hasDealer
    {
      hasDealer, recipients, dataowners := false, [], [];
      dealer := Identity(0, Invalid, SIZE_MAX);
    }

    method Add(peer: Identity)
      requires peer.role != Invalid && peer.role != Analyst
      requires peer.role == Dealer ==> !hasDealer
      requires peer.role == DataOwner ==> peer.vertical != SIZE_MAX
      modifies this
      ensures Contents(Viewed()) == old(Contents(Viewed())) + multiset{Norm(peer)}
      ensures old(Ordered(Viewed())) ==> Ordered(Viewed())
      ensures old(Canonical(Viewed())) ==> Canonical(Viewed())
      ensures hasDealer == (old(hasDealer) || peer.role == Dealer)
    {
      hide Contents, Ordered, Insert, Norm;
      if peer.role == Dealer {
        DealerAdded(Viewed(), peer);
        hasDealer := true;
        dealer := peer;
      } else if peer.role == Recipient {
        RecipientAdded(Viewed(), peer);
        recipients := InsertInPlace(recipients, peer);
      } else {
        ghost var start := Viewed();
        while peer.vertical >= |dataowners|
          invariant Viewed() == start.(dataowners := dataowners)
          invariant |start.dataowners| <= |dataowners|
          invariant |start.dataowners| == |dataowners| ==> Viewed() == start
          invariant |start.dataowners| < |dataowners| ==> |dataowners| <= peer.vertical + 1
          invariant Contents(Viewed()) == Contents(start) && (Ordered(start) ==> Ordered(Viewed()))
          decreases peer.vertical - |dataowners|
        {
          GapAdded(Viewed());
          dataowners := dataowners + [[]];
        }
        OwnerAdded(Viewed(), peer);
        var row := InsertInPlace(dataowners[peer.vertical], peer);
        dataowners := dataowners[peer.vertical := row];
      }
    }

    method Remove(peer: Identity)
      requires peer.role != Invalid
      requires peer.role == Dealer ==> hasDealer
      requires peer.role == Recipient ==> Norm(peer) in Norms(recipients)
      requires peer.role == DataOwner ==> peer.vertical < |dataowners| && Norm(peer) in Norms(dataowners[peer.vertical])
      modifies this
      ensures peer.role == Analyst ==> Viewed() == old(Viewed())
      ensures |dataowners| == |old(dataowners)|
      ensures peer.role == DataOwner || peer.role == Recipient ==>
        old(Contents(Viewed())) == Contents(Viewed()) + multiset{Norm(peer)}
      ensures peer.role == Dealer ==>
        !hasDealer && old(Contents(Viewed())) == Contents(Viewed()) + multiset{Norm(old(dealer))}
      ensures old(Ordered(Viewed())) ==> Ordered(Viewed())
      ensures old(Canonical(Viewed())) ==>
        (Canonical(Viewed()) <==>
         !(peer.role == DataOwner && peer.vertical == |old(dataowners)| - 1 && |old(dataowners)[peer.vertical]| == 1))
    {
      hide Contents, Ordered, Canonical, Norms, Norm;
      if peer.role == Dealer {
        DealerRemoved(Viewed(), Identity(0, Invalid, SIZE_MAX));
        hasDealer := false;
        dealer := Identity(0, Invalid, SIZE_MAX);
      } else if peer.role == Recipient {
        var rest := EraseFrom(recipients, peer);
        RecipientRemoved(Viewed(), peer, rest);
        recipients := rest;
      } else if peer.role == DataOwner {
        var row := EraseFrom(dataowners[peer.vertical], peer);
        OwnerRemoved(Viewed(), peer, row);
        dataowners := dataowners[peer.vertical := row];
      }
    }

    method Size() returns (n: nat)
      ensures n == |Contents(Viewed())|
    {
      hide Norms, RowNorms;
      n := 0;
      if hasDealer {
        n := n + 1;
      }
      NormsSize(recipients);
      n := n + |recipients|;
      NoRowNorms();
      for i := 0 to |dataowners|
        invariant n == |DealerNorms(Viewed())| + |recipients| + |RowNorms(dataowners[..i])|
      {
        RowNormsLast(dataowners[..i + 1]);
        assert dataowners[..i + 1][..i] == dataowners[..i];
        NormsSize(dataowners[i]);
        n := n + |dataowners[i]|;
      }
      assert dataowners[..|dataowners|] == dataowners;
    }

    /** Called by the copy constructor. Without any data owner the index of the last row wraps. */
    method EnforceSort()
      requires HasOwner(Viewed())
      modifies this`recipients, this`dataowners
      ensures Contents(Viewed()) == old(Contents(Viewed()))
      ensures old(Placed(Viewed())) ==> Canonical(Viewed())
    {
      hide Norms, RowNorms, Sorted;
      recipients := Sort(recipients);
      var rows := SortRows(dataowners);
      rows := DropGaps(rows);
      dataowners := rows;
    }

    method Equals(other: PeerSet) returns (same: bool)
      ensures same <==> SameView(Viewed(), other.Viewed())
    {
      hide Same;
      if hasDealer != other.hasDealer {
        return false;
      }
      if hasDealer && !Same(dealer, other.dealer) {
        return false;
      }
      if |recipients| != |other.recipients| {
        return false;
      }
      for i := 0 to |recipients|
        invariant forall k :: 0 <= k < i ==> Same(recipients[k], other.recipients[k])
      {
        if !Same(recipients[i], other.recipients[i]) {
          return false;
        }
      }
      if |dataowners| != |other.dataowners| {
        return false;
      }
      for i := 0 to |dataowners|
        invariant forall k :: 0 <= k < i ==> SameList(dataowners[k], other.dataowners[k])
      {
        if |dataowners[i]| != |other.dataowners[i]| {
          return false;
        }
        for j := 0 to |dataowners[i]|
          invariant forall k :: 0 <= k < j ==> Same(dataowners[i][k], other.dataowners[i][k])
        {
          if !Same(dataowners[i][j], other.dataowners[i][j]) {
            return false;
          }
        }
      }
      return true;
    }
  }

  lemma NoRowNorms()
    ensures RowNorms([]) == multiset{}
  {
  }

  method SortRows(rows: seq<seq<Identity>>) returns (sorted: seq<seq<Identity>>)
    ensures |sorted| == |rows| && RowNorms(sorted) == RowNorms(rows)
    ensures forall j :: 0 <= j < |rows| ==>
      Sorted(sorted[j]) && |sorted[j]| == |rows[j]| && forall x :: x in sorted[j] <==> x in rows[j]
  {
    hide Norms, RowNorms, Sorted;
    sorted := [];
    for i := 0 to |rows|
      invariant |sorted| == i && RowNorms(sorted) == RowNorms(rows[..i])
      invariant forall j :: 0 <= j < i ==>
        Sorted(sorted[j]) && |sorted[j]| == |rows[j]| && forall x :: x in sorted[j] <==> x in rows[j]
    {
      var row := Sort(rows[i]);
      RowNormsLast(sorted + [row]);
      RowNormsLast(rows[..i + 1]);
      assert (sorted + [row])[..i] == sorted && rows[..i + 1][..i] == rows[..i];
      sorted := sorted + [row];
    }
    assert rows[..|rows|] == rows;
  }

  /** Trailing empty rows go. */
  method DropGaps(rows: seq<seq<Identity>>) returns (kept: seq<seq<Identity>>)
    requires exists j :: 0 <= j < |rows| && rows[j] != []
    ensures kept <= rows && kept != [] && kept[|kept| - 1] != [] && RowNorms(kept) == RowNorms(rows)
  {
    hide Norms, RowNorms;
    kept := rows;
    NoNorms();
    while |kept[|kept| - 1]| == 0
      invariant kept <= rows && RowNorms(kept) == RowNorms(rows)
      invariant kept != [] && exists j :: 0 <= j < |kept| && kept[j] != []
      decreases |kept|
    {
      RowNormsLast(kept);
      kept := kept[..|kept| - 1];
    }
  }

  /** Who may be put in one set: peers with a role, one dealer at most. */
  predicate Admissible(ids: seq<Identity>) {
    && (forall p :: p in ids ==> p.role != Invalid && p.role != Analyst)
    && (forall p :: p in ids && p.role == DataOwner ==> p.vertical != SIZE_MAX)
    && forall i, j :: 0 <= i < j < |ids| ==> !(ids[i].role == Dealer && ids[j].role == Dealer)
  }

  /** Every list of the set goes up in the organisation ids. */
  ghost predicate Ascending(v: View) {
    && (forall i, j :: 0 <= i < j < |v.recipients| ==> v.recipients[i].orgId <= v.recipients[j].orgId)
    && forall r, i, j :: 0 <= r < |v.dataowners| && 0 <= i < j < |v.dataowners[r]| ==>
         v.dataowners[r][i].orgId <= v.dataowners[r][j].orgId
  }

  lemma CanonicalAscends(v: View)
    requires Canonical(v)
    ensures Ascending(v)
  {
    forall r | 0 <= r < |v.dataowners|
      ensures forall i, j :: 0 <= i < j < |v.dataowners[r]| ==> v.dataowners[r][i].orgId <= v.dataowners[r][j].orgId
    {
      assert Sorted(v.dataowners[r]);
    }
  }

  method AddAll(ids: seq<Identity>) returns (peers: PeerSet)
    requires Admissible(ids)
    ensures fresh(peers) && Canonical(peers.Viewed()) && Contents(peers.Viewed()) == Norms(ids)
    ensures Ascending(peers.Viewed())
  {
    hide Norms, RowNorms, Sorted, Ordered, Contents, Ascending;
    peers := new PeerSet();
    NoNorms();
    for i := 0 to |ids|
      invariant fresh(peers) && Canonical(peers.Viewed()) && Contents(peers.Viewed()) == Norms(ids[..i])
      invariant peers.hasDealer <==> exists k :: 0 <= k < i && ids[k].role == Dealer
    {
      NormsPush(ids[..i], ids[i]);
      assert ids[..i + 1] == ids[..i] + [ids[i]];
      peers.Add(ids[i]);
    }
    assert ids[..|ids|] == ids;
    CanonicalAscends(peers.Viewed());
  }

  /** The same peers, added in any order, give sets that compare equal; different peers never do. */
  method AddInAnyOrder(ids: seq<Identity>, others: seq<Identity>) returns (same: bool)
    requires Admissible(ids) && Admissible(others)
    ensures same <==> Norms(ids) == Norms(others)
  {
    hide Norms, RowNorms, Sorted, Canonical, Contents;
    var a := AddAll(ids);
    var b := AddAll(others);
    CanonicalForm(a.Viewed(), b.Viewed());
    same := a.Equals(b);
  }

  /** A sorted set compares equal to the canonical one with its members exactly when it has no empty last row. */
  lemma EqualIffNoTrailingGap(v: View, w: View)
    requires Ordered(v) && Canonical(w) && Contents(v) == Contents(w)
    ensures SameView(v, w) <==> NoTrailingGap(v)
  {
    hide Contents, Sorted, Placed;
    if NoTrailingGap(v) {
      CanonicalForm(v, w);
    }
    if SameView(v, w) && v.dataowners != [] {
      var last := |v.dataowners| - 1;
      assert SameList(v.dataowners[last], w.dataowners[last]);
    }
  }

  /** Some owner of this vertical or a later one. */
  predicate HasLaterOwner(ids: seq<Identity>, vertical: nat) {
    exists q :: q in ids && q.role == DataOwner && q.vertical >= vertical
  }

  lemma MemberRow(v: View, ids: seq<Identity>, q: Identity)
    requires Placed(v) && Contents(v) == Norms(ids) && q in ids && q.role == DataOwner
    ensures q.vertical < |v.dataowners| && v.dataowners[q.vertical] != []
    ensures Norm(q) in Norms(v.dataowners[q.vertical])
  {
    var i :| 0 <= i < |ids| && ids[i] == q;
    NormsIn(ids, Norm(q));
    ContentsCount(v, Norm(q));
    hide Contents;
    if q.vertical < |v.dataowners| {
      NormsSize(v.dataowners[q.vertical]);
    }
  }

  lemma RowMember(v: View, ids: seq<Identity>, j: nat)
    requires Placed(v) && Contents(v) == Norms(ids) && j < |v.dataowners| && v.dataowners[j] != []
    ensures HasLaterOwner(ids, j)
  {
    var x := v.dataowners[j][0];
    assert x in v.dataowners[j];
    NormsIn(v.dataowners[j], Norm(x));
    assert Norm(v.dataowners[j][0]) == Norm(x);
    ContentsCount(v, Norm(x));
    hide Contents;
    NormsIn(ids, Norm(x));
    var i :| 0 <= i < |ids| && Norm(ids[i]) == Norm(x);
    assert ids[i] in ids;
  }

  /** After peer was removed the last row is empty unless an owner of its vertical or a later one is left. */
  lemma GapAfterRemove(before: View, after: View, peer: Identity, rest: seq<Identity>)
    requires Canonical(before) && Ordered(after) && |after.dataowners| == |before.dataowners|
    requires peer.role == DataOwner && peer.vertical < |before.dataowners| && Contents(after) == Norms(rest)
    requires Canonical(after) <==>
      !(peer.vertical == |before.dataowners| - 1 && |before.dataowners[peer.vertical]| == 1)
    ensures NoTrailingGap(after) <==> HasLaterOwner(rest, peer.vertical)
  {
    hide Contents, Norms, Sorted;
    if NoTrailingGap(after) {
      RowMember(after, rest, |after.dataowners| - 1);
    }
    if HasLaterOwner(rest, peer.vertical) {
      var q :| q in rest && q.role == DataOwner && q.vertical >= peer.vertical;
      MemberRow(after, rest, q);
    }
  }

  /** A set that lost a data owner equals the one built from who is left, if its last row is not gone; a copy does. */
  method RemoveAndCompare(ids: seq<Identity>, peer: Identity, rest: seq<Identity>) returns (same: bool, copySame: bool)
    requires Admissible(ids) && Admissible(rest) && peer in ids && peer.role == DataOwner
    requires Norms(ids) == Norms(rest) + multiset{Norm(peer)}
    ensures same <==> HasLaterOwner(rest, peer.vertical)
    ensures HasLaterOwner(rest, 0) ==> copySame
  {
    hide Norms, RowNorms, Sorted, Contents, Ordered, Canonical;
    var a := AddAll(ids);
    CanonicalIsOrdered(a.Viewed());
    MemberRow(a.Viewed(), ids, peer);
    ghost var before := a.Viewed();
    a.Remove(peer);
    Cancel(Contents(a.Viewed()), Norms(rest), Norm(peer));
    var b := AddAll(rest);
    CanonicalIsOrdered(b.Viewed());
    GapAfterRemove(before, a.Viewed(), peer, rest);
    EqualIffNoTrailingGap(a.Viewed(), b.Viewed());
    same := a.Equals(b);
    copySame := same;
    if b.dataowners != [] {
      LastRowNotEmpty(b.Viewed());
      RowMember(b.Viewed(), rest, |b.dataowners| - 1);
      OwnersLeft(a.Viewed(), rest);
      a.EnforceSort();
      CanonicalForm(a.Viewed(), b.Viewed());
      copySame := a.Equals(b);
    } else {
      NoOwners(b.Viewed(), rest);
    }
  }

  lemma Cancel(a: multiset<Identity>, b: multiset<Identity>, x: Identity)
    requires a + multiset{x} == b + multiset{x}
    ensures a == b
  {
    assert a == (a + multiset{x}) - multiset{x};
    assert b == (b + multiset{x}) - multiset{x};
  }

  lemma CanonicalIsOrdered(v: View)
    requires Canonical(v)
    ensures Ordered(v) && Placed(v)
  {
  }

  lemma LastRowNotEmpty(v: View)
    requires Canonical(v) && v.dataowners != []
    ensures v.dataowners[|v.dataowners| - 1] != []
  {
  }

  lemma OwnersLeft(v: View, rest: seq<Identity>)
    requires Ordered(v) && Contents(v) == Norms(rest) && HasLaterOwner(rest, 0)
    ensures HasOwner(v) && Placed(v)
  {
    hide Contents, Norms, Sorted;
    var q :| q in rest && q.role == DataOwner && q.vertical >= 0;
    MemberRow(v, rest, q);
  }

  lemma NoOwners(v: View, rest: seq<Identity>)
    requires Placed(v) && Contents(v) == Norms(rest) && v.dataowners == []
    ensures !HasLaterOwner(rest, 0)
  {
    hide Contents, Norms;
    forall q | q in rest
      ensures q.role != DataOwner
    {
      if q.role == DataOwner {
        MemberRow(v, rest, q);
      }
    }
  }

  /** The owner of the last vertical added, removed again: the set differs from one without it, its copy does not. */
  method RemoveLeavesGap(org: nat, other: nat) returns (same: bool, copySame: bool)
    ensures !same && copySame
  {
    var a, b := Identity(org, DataOwner, 0), Identity(other, DataOwner, 1);
    NormsPush([a], b);
    assert [a] + [b] == [a, b];
    hide Norms, Norm;
    same, copySame := RemoveAndCompare([a, b], b, [a]);
    assert a in [a];
  }
}
