/** Peer sets in messages. */
module PeerMessages {
  import opened Modular
  import opened PeerSets
  import opened Sequences
  import opened Words

  /** What a message is made of; an organisation id is a block of bytes. */
  datatype Token = U8(byte: nat) | U32(word: nat) | Org(orgId: nat) | RoleCode(role: Role)

  datatype Read<T> = Fail | Got(value: T, rest: seq<Token>)

  /** The default Identity. */
  const NOBODY := Identity(0, Invalid, SIZE_MAX)

  function IdentityTokens(p: Identity): seq<Token> {
    [Org(p.orgId), RoleCode(p.role), U32(p.vertical % WORD32)]
  }

  function ListTokens(s: seq<Identity>): seq<Token> {
    if s == [] then [] else IdentityTokens(s[0]) + ListTokens(s[1..])
  }

  function CountedTokens(s: seq<Identity>): seq<Token> {
    [U32(|s| % WORD32)] + ListTokens(s)
  }

  function RowsTokens(rows: seq<seq<Identity>>): seq<Token> {
    if rows == [] then [] else CountedTokens(rows[0]) + RowsTokens(rows[1..])
  }

  function DealerTokens(v: View): seq<Token> {
    if v.hasDealer then [U8(1)] + IdentityTokens(v.dealer) else [U8(0)]
  }

  function Encode(v: View): seq<Token> {
    DealerTokens(v) + (CountedTokens(v.recipients) + ([U32(|v.dataowners| % WORD32)] + RowsTokens(v.dataowners)))
  }

  lemma {:induction false} ListLayout(s: seq<Identity>)
    ensures |ListTokens(s)| == 3 * |s|
    ensures forall k :: 0 <= k < |s| ==> IdentityAt(ListTokens(s), 3 * k, s[k])
  {
    if s != [] {
      ListLayout(s[1..]);
      forall k | 0 <= k < |s|
        ensures IdentityAt(ListTokens(s), 3 * k, s[k])
      {
        if k > 0 {
          assert IdentityAt(ListTokens(s[1..]), 3 * (k - 1), s[1..][k - 1]);
        }
      }
    }
  }

  /** The three tokens of an identity: organisation, role and the low 32 bits of the vertical. */
  predicate IdentityAt(m: seq<Token>, i: nat, p: Identity) {
    && i + 3 <= |m| && m[i] == Org(p.orgId) && m[i + 1] == RoleCode(p.role)
    && m[i + 2] == U32(p.vertical % 0x1_0000_0000)
  }

  /** A count and so many identities. */
  predicate CountedAt(m: seq<Token>, i: nat, s: seq<Identity>) {
    && i + 1 + 3 * |s| <= |m| && m[i] == U32(|s| % 0x1_0000_0000)
    && forall k :: 0 <= k < |s| ==> IdentityAt(m, i + 1 + 3 * k, s[k])
  }

  lemma CountedLayout(front: seq<Token>, s: seq<Identity>, back: seq<Token>)
    ensures |CountedTokens(s)| == 1 + 3 * |s| && CountedAt(front + CountedTokens(s) + back, |front|, s)
  {
    ListLayout(s);
    var m := front + CountedTokens(s) + back;
    hide ListTokens;
    forall k | 0 <= k < |s|
      ensures IdentityAt(m, |front| + 1 + 3 * k, s[k])
    {
      assert IdentityAt(ListTokens(s), 3 * k, s[k]);
    }
  }

  /** Where row i starts, behind the number of rows. */
  function RowStart(rows: seq<seq<Identity>>, i: nat): nat
    requires i <= |rows|
  {
    if i == 0 then 0 else RowStart(rows, i - 1) + 1 + 3 * |rows[i - 1]|
  }

  lemma {:induction false} RowStartTail(rows: seq<seq<Identity>>, i: nat)
    requires 1 <= i <= |rows|
    ensures RowStart(rows, i) == 1 + 3 * |rows[0]| + RowStart(rows[1..], i - 1)
  {
    if i > 1 {
      RowStartTail(rows, i - 1);
    }
  }

  lemma {:induction false} RowsLayout(front: seq<Token>, rows: seq<seq<Identity>>, i: nat)
    requires i < |rows|
    ensures CountedAt(front + RowsTokens(rows), |front| + RowStart(rows, i), rows[i])
    decreases i
  {
    var first, others := CountedTokens(rows[0]), RowsTokens(rows[1..]);
    CountedLayout(front, rows[0], others);
    if i == 0 {
      assert front + RowsTokens(rows) == front + first + others;
    } else {
      RowsLayout(front + first, rows[1..], i - 1);
      RowStartTail(rows, i);
      assert front + RowsTokens(rows) == (front + first) + others;
    }
    hide CountedTokens, RowsTokens;
  }

  /** The whole message, token by token: the dealer, the recipients, the rows of data owners. */
  lemma EncodeLayout(v: View)
    ensures var m := Encode(v);
      var recipients := if v.hasDealer then 4 else 1;
      var rows := recipients + 1 + 3 * |v.recipients|;
      && rows < |m| && m[0] == U8(if v.hasDealer then 1 else 0) && (v.hasDealer ==> IdentityAt(m, 1, v.dealer))
      && CountedAt(m, recipients, v.recipients)
      && m[rows] == U32(|v.dataowners| % 0x1_0000_0000)
      && forall i :: 0 <= i < |v.dataowners| ==> CountedAt(m, rows + 1 + RowStart(v.dataowners, i), v.dataowners[i])
  {
    hide CountedTokens, RowsTokens, CountedAt, RowStart, IdentityAt, IdentityTokens;
    var dealer, counted, rows := DealerTokens(v), CountedTokens(v.recipients), RowsTokens(v.dataowners);
    var number := [U32(|v.dataowners| % WORD32)];
    DealerLayout(v, counted + (number + rows));
    CountedLayout(dealer, v.recipients, number + rows);
    FourParts(dealer, counted, number, rows);
    forall i | 0 <= i < |v.dataowners|
      ensures CountedAt(Encode(v), |dealer| + |counted| + 1 + RowStart(v.dataowners, i), v.dataowners[i])
    {
      RowsLayout(dealer + counted + number, v.dataowners, i);
    }
  }

  lemma DealerLayout(v: View, back: seq<Token>)
    ensures var dealer := DealerTokens(v);
      && |dealer| == (if v.hasDealer then 4 else 1) && dealer[0] == U8(if v.hasDealer then 1 else 0)
      && (v.hasDealer ==> IdentityAt(dealer + back, 1, v.dealer))
  {
  }

  lemma FourParts(a: seq<Token>, b: seq<Token>, c: seq<Token>, d: seq<Token>)
    ensures a + (b + (c + d)) == a + b + (c + d) == (a + b + c) + d
    ensures |c| == 1 ==> (a + (b + (c + d)))[|a| + |b|] == c[0]
    ensures a != [] ==> (a + (b + (c + d)))[0] == a[0]
  {
  }

  function TakeIdentity(m: seq<Token>): Read<Identity> {
    if |m| >= 3 && m[0].Org? && m[1].RoleCode? && m[2].U32? then
      Got(Identity(m[0].orgId, m[1].role, m[2].word), m[3..])
    else Fail
  }

  function TakeList(n: nat, m: seq<Token>): Read<seq<Identity>> {
    if n == 0 then Got([], m)
    else
      match TakeIdentity(m)
      case Fail => Fail
      case Got(p, rest) => Prepend([p], TakeList(n - 1, rest))
  }

  function Prepend<T>(front: seq<T>, r: Read<seq<T>>): Read<seq<T>> {
    match r
    case Fail => Fail
    case Got(s, rest) => Got(front + s, rest)
  }

  function TakeCounted(m: seq<Token>): Read<seq<Identity>> {
    if m != [] && m[0].U32? then TakeList(m[0].word, m[1..]) else Fail
  }

  function TakeRows(n: nat, m: seq<Token>): Read<seq<seq<Identity>>> {
    if n == 0 then Got([], m)
    else
      match TakeCounted(m)
      case Fail => Fail
      case Got(row, rest) => Prepend([row], TakeRows(n - 1, rest))
  }

  function TakeDealer(m: seq<Token>): Read<(bool, Identity)> {
    if m == [] || !m[0].U8? then Fail
    else if m[0].byte == 0 then Got((false, NOBODY), m[1..])
    else
      match TakeIdentity(m[1..])
      case Fail => Fail
      case Got(p, rest) => Got((true, p), rest)
  }

  function TakeAllRows(m: seq<Token>): Read<seq<seq<Identity>>> {
    if m != [] && m[0].U32? then TakeRows(m[0].word, m[1..]) else Fail
  }

  function Decode(m: seq<Token>): Read<View> {
    match TakeDealer(m)
    case Fail => Fail
    case Got(d, afterDealer) =>
      match TakeCounted(afterDealer)
      case Fail => Fail
      case Got(recipients, afterRecipients) =>
        match TakeAllRows(afterRecipients)
        case Fail => Fail
        case Got(rows, rest) => Got(View(d.0, d.1, recipients, rows), rest)
  }

  /** Verticals travel as 32-bit words. */
  function Received(p: Identity): Identity {
    p.(vertical := p.vertical % WORD32)
  }

  function ReceivedList(s: seq<Identity>): (r: seq<Identity>)
    ensures |r| == |s| && forall i :: 0 <= i < |s| ==> r[i] == Received(s[i])
  {
    if s == [] then [] else [Received(s[0])] + ReceivedList(s[1..])
  }

  function ReceivedRows(rows: seq<seq<Identity>>): (r: seq<seq<Identity>>)
    ensures |r| == |rows| && forall i :: 0 <= i < |rows| ==> r[i] == ReceivedList(rows[i])
  {
    if rows == [] then [] else [ReceivedList(rows[0])] + ReceivedRows(rows[1..])
  }

  lemma IdentityReturns(p: Identity, rest: seq<Token>)
    ensures TakeIdentity(IdentityTokens(p) + rest) == Got(Received(p), rest)
  {
    assert (IdentityTokens(p) + rest)[3..] == rest;
  }

  lemma {:induction false} ListReturns(s: seq<Identity>, rest: seq<Token>)
    ensures TakeList(|s|, ListTokens(s) + rest) == Got(ReceivedList(s), rest)
  {
    hide IdentityTokens, TakeIdentity, Received;
    if s == [] {
      assert ListTokens(s) + rest == rest;
    } else {
      IdentityReturns(s[0], ListTokens(s[1..]) + rest);
      ListReturns(s[1..], rest);
      Regroup(IdentityTokens(s[0]), ListTokens(s[1..]), rest);
    }
  }

  lemma CountFirst(n: nat, t: seq<Token>)
    ensures TakeCounted([U32(n)] + t) == TakeList(n, t)
  {
    hide TakeList;
    assert ([U32(n)] + t)[1..] == t;
  }

  lemma CountedSplit(s: seq<Identity>, rest: seq<Token>)
    requires |s| < WORD32
    ensures CountedTokens(s) + rest == [U32(|s|)] + (ListTokens(s) + rest)
  {
    hide ListTokens;
    SmallMod(|s|, WORD32);
    Regroup([U32(|s|)], ListTokens(s), rest);
  }

  lemma CountedReturns(s: seq<Identity>, rest: seq<Token>)
    requires |s| < WORD32
    ensures TakeCounted(CountedTokens(s) + rest) == Got(ReceivedList(s), rest)
  {
    hide *;
    CountedSplit(s, rest);
    ListReturns(s, rest);
    CountFirst(|s|, ListTokens(s) + rest);
  }

  lemma {:induction false} RowsReturn(rows: seq<seq<Identity>>, rest: seq<Token>)
    requires forall j :: 0 <= j < |rows| ==> |rows[j]| < WORD32
    ensures TakeRows(|rows|, RowsTokens(rows) + rest) == Got(ReceivedRows(rows), rest)
  {
    hide CountedTokens, TakeCounted, ReceivedList;
    if rows == [] {
      assert RowsTokens(rows) + rest == rest;
    } else {
      CountedReturns(rows[0], RowsTokens(rows[1..]) + rest);
      RowsReturn(rows[1..], rest);
      Regroup(CountedTokens(rows[0]), RowsTokens(rows[1..]), rest);
    }
  }

  /** The counts have 32 bits. */
  predicate CountsFit(v: View) {
    && |v.recipients| < WORD32 && |v.dataowners| < WORD32
    && forall j :: 0 <= j < |v.dataowners| ==> |v.dataowners[j]| < WORD32
  }

  /** The set that arrives. */
  function Arrived(v: View): View {
    View(v.hasDealer, if v.hasDealer then Received(v.dealer) else NOBODY, ReceivedList(v.recipients),
         ReceivedRows(v.dataowners))
  }

  lemma DealerReturns(v: View, rest: seq<Token>)
    ensures TakeDealer(DealerTokens(v) + rest)
         == Got((v.hasDealer, if v.hasDealer then Received(v.dealer) else NOBODY), rest)
  {
    hide IdentityTokens, TakeIdentity;
    if v.hasDealer {
      IdentityReturns(v.dealer, rest);
      assert (DealerTokens(v) + rest)[1..] == IdentityTokens(v.dealer) + rest;
    } else {
      assert (DealerTokens(v) + rest)[1..] == rest;
    }
  }

  lemma DecodeEncode(v: View, rest: seq<Token>)
    requires CountsFit(v)
    ensures Decode(Encode(v) + rest) == Got(Arrived(v), rest)
  {
    hide DealerTokens, TakeDealer, CountedTokens, TakeCounted, RowsTokens, TakeRows, Received;
    var count, rows := [U32(|v.dataowners| % WORD32)], RowsTokens(v.dataowners);
    var owners := count + rows;
    var recipients := CountedTokens(v.recipients);
    DealerReturns(v, recipients + (owners + rest));
    CountedReturns(v.recipients, owners + rest);
    RowsReturn(v.dataowners, rest);
    assert (owners + rest)[1..] == rows + rest;
    Regroup(DealerTokens(v), recipients + owners, rest);
    Regroup(recipients, owners, rest);
  }

  lemma ReceivedSame(p: Identity)
    ensures Same(Received(p), p) <==> p.role != DataOwner || p.vertical < WORD32
  {
  }

  /** A set that is written and read back compares equal. */
  lemma RoundTrip(v: View, rest: seq<Token>)
    requires Placed(v) && CountsFit(v)
    ensures var r := Decode(Encode(v) + rest);
      r.Got? && r.rest == rest && SameView(r.value, v)
  {
    hide Same, Received;
    DecodeEncode(v, rest);
    hide Decode, Encode;
    ReceivedSame(v.dealer);
    forall i | 0 <= i < |v.recipients|
      ensures Same(ReceivedList(v.recipients)[i], v.recipients[i])
    {
      assert v.recipients[i] in v.recipients;
      ReceivedSame(v.recipients[i]);
    }
    forall j | 0 <= j < |v.dataowners|
      ensures SameList(ReceivedRows(v.dataowners)[j], v.dataowners[j])
    {
      forall i | 0 <= i < |v.dataowners[j]|
        ensures Same(ReceivedList(v.dataowners[j])[i], v.dataowners[j][i])
      {
        assert v.dataowners[j][i] in v.dataowners[j];
        ReceivedSame(v.dataowners[j][i]);
      }
    }
  }

  lemma {:induction false} ListTokensPush(s: seq<Identity>, p: Identity)
    ensures ListTokens(s + [p]) == ListTokens(s) + IdentityTokens(p)
  {
    hide IdentityTokens;
    if s != [] {
      ListTokensPush(s[1..], p);
      assert (s + [p])[1..] == s[1..] + [p];
      Regroup(IdentityTokens(s[0]), ListTokens(s[1..]), IdentityTokens(p));
    }
  }

  lemma {:induction false} RowsTokensPush(rows: seq<seq<Identity>>, row: seq<Identity>)
    ensures RowsTokens(rows + [row]) == RowsTokens(rows) + CountedTokens(row)
  {
    hide CountedTokens;
    if rows != [] {
      RowsTokensPush(rows[1..], row);
      assert (rows + [row])[1..] == rows[1..] + [row];
      Regroup(CountedTokens(rows[0]), RowsTokens(rows[1..]), CountedTokens(row));
    }
  }

  method WriteIdentity(omsg: seq<Token>, p: Identity) returns (m: seq<Token>)
    ensures m == omsg + IdentityTokens(p)
  {
    m := omsg + [Org(p.orgId)];
    m := m + [RoleCode(p.role)];
    m := m + [U32(p.vertical % WORD32)];
  }

  method WriteCounted(omsg: seq<Token>, s: seq<Identity>) returns (m: seq<Token>)
    ensures m == omsg + CountedTokens(s)
  {
    hide IdentityTokens, ListTokens;
    m := omsg + [U32(|s| % WORD32)];
    ghost var start := m;
    NothingWritten();
    for i := 0 to |s|
      invariant m == start + ListTokens(s[..i])
    {
      ListTokensPush(s[..i], s[i]);
      assert s[..i + 1] == s[..i] + [s[i]];
      m := WriteIdentity(m, s[i]);
    }
    assert s[..|s|] == s;
  }

  lemma NothingWritten()
    ensures ListTokens([]) == [] && RowsTokens([]) == []
  {
  }

  /** msg_write. */
  method Write(v: View) returns (m: seq<Token>)
    ensures m == Encode(v)
  {
    hide IdentityTokens, CountedTokens, RowsTokens;
    if v.hasDealer {
      m := WriteIdentity([U8(1)], v.dealer);
    } else {
      m := [U8(0)];
    }
    assert m == DealerTokens(v);
    m := WriteCounted(m, v.recipients);
    m := m + [U32(|v.dataowners| % WORD32)];
    ghost var start := m;
    NothingWritten();
    for i := 0 to |v.dataowners|
      invariant m == start + RowsTokens(v.dataowners[..i])
    {
      RowsTokensPush(v.dataowners[..i], v.dataowners[i]);
      assert v.dataowners[..i + 1] == v.dataowners[..i] + [v.dataowners[i]];
      m := WriteCounted(m, v.dataowners[i]);
    }
    assert v.dataowners[..|v.dataowners|] == v.dataowners;
  }

  /** Reading stops at the first failure; what was asked for keeps its default. */
  method ReadIdentity(imsg: seq<Token>, success: bool) returns (p: Identity, m: seq<Token>, ok: bool)
    ensures ok <==> success && TakeIdentity(imsg).Got?
    ensures ok ==> TakeIdentity(imsg) == Got(p, m)
    ensures !ok ==> p == NOBODY
  {
    p, m, ok := NOBODY, imsg, success;
    if ok {
      if |m| >= 3 && m[0].Org? && m[1].RoleCode? && m[2].U32? {
        p, m := Identity(m[0].orgId, m[1].role, m[2].word), m[3..];
      } else {
        ok := false;
      }
    }
  }

  method ReadCount(imsg: seq<Token>, success: bool) returns (n: nat, m: seq<Token>, ok: bool)
    ensures ok <==> success && imsg != [] && imsg[0].U32?
    ensures ok ==> n == imsg[0].word && m == imsg[1..]
    ensures !ok ==> n == 0
  {
    n, m, ok := 0, imsg, success;
    if ok {
      if m != [] && m[0].U32? {
        n, m := m[0].word, m[1..];
      } else {
        ok := false;
      }
    }
  }

  lemma PrependNothing<T>(r: Read<seq<T>>)
    ensures Prepend([], r) == r
  {
    if r.Got? {
      assert [] + r.value == r.value;
    }
  }

  lemma PrependTwice<T>(a: seq<T>, b: seq<T>, r: Read<seq<T>>)
    ensures Prepend(a, Prepend(b, r)) == Prepend(a + b, r)
  {
    if r.Got? {
      assert a + (b + r.value) == (a + b) + r.value;
    }
  }

  /** A count and that many identities. */
  method ReadCounted(imsg: seq<Token>, success: bool) returns (s: seq<Identity>, m: seq<Token>, ok: bool)
    ensures ok <==> success && TakeCounted(imsg).Got?
    ensures ok ==> TakeCounted(imsg) == Got(s, m)
  {
    hide TakeIdentity;
    var n: nat;
    n, m, ok := ReadCount(imsg, success);
    s := [];
    ghost var readable := ok;
    ghost var start := m;
    PrependNothing(TakeList(n, m));
    for i := 0 to n
      invariant ok ==> TakeList(n, start) == Prepend(s, TakeList(n - i, m))
      invariant !ok ==> !readable || TakeList(n, start).Fail?
      invariant ok ==> readable
    {
      ghost var sofar := s;
      var p: Identity;
      p, m, ok := ReadIdentity(m, ok);
      s := s + [p];
      if ok {
        PrependTwice(sofar, [p], TakeList(n - i - 1, m));
      }
    }
    assert s + [] == s;
  }

  function RowAt(rows: seq<seq<Identity>>, k: nat): seq<Identity> {
    if k < |rows| then rows[k] else []
  }

  /** A new row at the end for every row read, but the owners read go to the rows counted from the front. */
  function OntoRows(before: seq<seq<Identity>>, read: seq<seq<Identity>>): (rows: seq<seq<Identity>>)
    ensures |rows| == |before| + |read|
    ensures forall k :: 0 <= k < |rows| ==> rows[k] == RowAt(before, k) + RowAt(read, k)
  {
    seq(|before| + |read|, k requires k >= 0 => RowAt(before, k) + RowAt(read, k))
  }

  /** What msg_read makes of a set that is already there. */
  function Onto(before: View, read: View): View {
    View(read.hasDealer, if read.hasDealer then read.dealer else before.dealer, before.recipients + read.recipients,
         OntoRows(before.dataowners, read.dataowners))
  }

  const EMPTY := View(false, NOBODY, [], [])

  /** Into an empty set the one in the message is read. */
  lemma OntoEmpty(v: View)
    ensures Onto(EMPTY, Arrived(v)) == Arrived(v)
  {
    var read := Arrived(v);
    assert EMPTY.recipients + read.recipients == read.recipients;
    forall k | 0 <= k < |read.dataowners|
      ensures OntoRows([], read.dataowners)[k] == read.dataowners[k]
    {
      assert RowAt([], k) + read.dataowners[k] == read.dataowners[k];
    }
    assert OntoRows([], read.dataowners) == read.dataowners;
  }

  /** A set written and read into an empty one compares equal, and what follows is left. */
  method WriteAndRead(v: View, rest: seq<Token>) returns (read: View, left: seq<Token>, success: bool)
    requires Placed(v) && CountsFit(v)
    ensures success && left == rest && SameView(read, v)
  {
    hide Encode, Decode, Onto, Arrived, SameView;
    var m := Write(v);
    DecodeEncode(v, rest);
    RoundTrip(v, rest);
    OntoEmpty(v);
    read, left, success := ReadInto(EMPTY, m + rest);
  }

  /** msg_read. */
  method ReadInto(before: View, imsg: seq<Token>) returns (v: View, m: seq<Token>, success: bool)
    ensures success <==> Decode(imsg).Got?
    ensures success ==> v == Onto(before, Decode(imsg).value) && m == Decode(imsg).rest
  {
    hide TakeIdentity, TakeCounted, OntoRows;
    var hasDealer, dealer := false, before.dealer;
    m, success := imsg, imsg != [] && imsg[0].U8?;
    if success {
      hasDealer := m[0].byte != 0;
      m := m[1..];
      if hasDealer {
        dealer, m, success := ReadIdentity(m, success);
      }
    }
    assert success <==> TakeDealer(imsg).Got?;
    assert success ==> TakeDealer(imsg) == Got((hasDealer, if hasDealer then dealer else NOBODY), m);
    var recipients: seq<Identity>;
    recipients, m, success := ReadCounted(m, success);
    recipients := before.recipients + recipients;
    var rows: seq<seq<Identity>>;
    rows, m, success := ReadRows(before.dataowners, m, success);
    v := View(hasDealer, dealer, recipients, rows);
  }

  lemma OntoRowsNext(before: seq<seq<Identity>>, read: seq<seq<Identity>>, row: seq<Identity>)
    ensures var more := OntoRows(before, read) + [[]];
      more[|read| := more[|read|] + row] == OntoRows(before, read + [row])
  {
    var more := OntoRows(before, read) + [[]];
    var next := more[|read| := more[|read|] + row];
    forall k | 0 <= k < |next|
      ensures next[k] == RowAt(before, k) + RowAt(read + [row], k)
    {
      if k == |read| {
        assert more[k] == RowAt(before, k) + [];
        assert RowAt(before, k) + [] + row == RowAt(before, k) + row;
      } else if k == |more| - 1 {
        assert RowAt(before, k) == [] && RowAt(read + [row], k) == [];
      }
    }
    assert next == OntoRows(before, read + [row]);
  }

  lemma OntoNothing(before: seq<seq<Identity>>)
    ensures OntoRows(before, []) == before
  {
    forall k | 0 <= k < |before|
      ensures OntoRows(before, [])[k] == before[k]
    {
      assert before[k] + [] == before[k];
    }
  }

  method ReadRows(before: seq<seq<Identity>>, imsg: seq<Token>, success: bool)
    returns (rows: seq<seq<Identity>>, m: seq<Token>, ok: bool)
    ensures ok <==> success && TakeAllRows(imsg).Got?
    ensures ok ==> rows == OntoRows(before, TakeAllRows(imsg).value) && m == TakeAllRows(imsg).rest
  {
    hide TakeCounted, OntoRows;
    var n: nat;
    n, m, ok := ReadCount(imsg, success);
    rows := before;
    OntoNothing(before);
    ghost var readable := ok;
    ghost var start := m;
    ghost var read: seq<seq<Identity>> := [];
    PrependNothing(TakeRows(n, m));
    for i := 0 to n
      invariant |read| == i && rows == OntoRows(before, read)
      invariant ok ==> TakeRows(n, start) == Prepend(read, TakeRows(n - i, m))
      invariant !ok ==> !readable || TakeRows(n, start).Fail?
      invariant ok ==> readable
    {
      rows := rows + [[]];
      var row: seq<Identity>;
      row, m, ok := ReadCounted(m, ok);
      OntoRowsNext(before, read, row);
      rows := rows[i := rows[i] + row];
      if ok {
        PrependTwice(read, [row], TakeRows(n - i - 1, m));
      }
      read := read + [row];
    }
    assert read + [] == read;
  }
}
