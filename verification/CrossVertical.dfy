/** The data owner's side of the cross-vertical sharing, and its handlers as state changes. */
module CrossVertical {
  import opened Modular
  import opened Join
  import opened RandomTable

  datatype Observation = Observation(keys: seq<nat>, payload: seq<nat>, xors: seq<bv8>)

  /** The column counts and moduli every party of the query agrees on. */
  datatype Layout = Layout(numKeys: nat, numPayload: nat, numXors: nat, keyModulus: nat, startModulus: nat,
                           maxListSize: nat)

  ghost predicate Moduli(l: Layout) {
    l.keyModulus > 0 && l.startModulus > 0
  }

  ghost predicate HasLayout(o: Observation, l: Layout) {
    |o.keys| == l.numKeys && |o.payload| == l.numPayload && |o.xors| == l.numXors
  }

  ghost predicate AllHaveLayout(list: seq<Observation>, l: Layout) {
    |list| == l.maxListSize && forall j :: 0 <= j < |list| ==> HasLayout(list[j], l)
  }

  /** a - b modulo m, entry by entry. */
  function SubAll(a: seq<nat>, b: seq<nat>, m: nat): (c: seq<nat>)
    requires |a| == |b| && m > 0
    ensures |c| == |a| && forall k :: 0 <= k < |a| ==> c[k] == ModSub(a[k], b[k], m)
  {
    seq(|a|, k requires 0 <= k < |a| => ModSub(a[k], b[k], m))
  }

  function XorBytes(a: seq<bv8>, b: seq<bv8>): (c: seq<bv8>)
    requires |a| == |b|
    ensures |c| == |a| && forall k :: 0 <= k < |a| ==> c[k] == a[k] ^ b[k]
  {
    seq(|a|, k requires 0 <= k < |a| => a[k] ^ b[k])
  }

  /** The share a party keeps of its own record, under the random mask it sends away. */
  function MyShare(own: Observation, mask: Observation, l: Layout): (o: Observation)
    requires HasLayout(own, l) && HasLayout(mask, l) && Moduli(l)
    ensures HasLayout(o, l)
  {
    Observation(SubAll(own.keys, mask.keys, l.keyModulus), SubAll(own.payload, mask.payload, l.startModulus),
                XorBytes(own.xors, mask.xors))
  }

  // ----- messages

  datatype Item = Number(n: nat) | Byte(b: bv8)

  function Numbers(v: seq<nat>): (items: seq<Item>)
    ensures |items| == |v|
  {
    seq(|v|, k requires 0 <= k < |v| => Number(v[k]))
  }

  function Bytes(v: seq<bv8>): (items: seq<Item>)
    ensures |items| == |v|
  {
    seq(|v|, k requires 0 <= k < |v| => Byte(v[k]))
  }

  function WriteRecord(o: Observation): seq<Item> {
    Numbers(o.keys) + Numbers(o.payload) + Bytes(o.xors)
  }

  /** The keys come first, then the payload, then the bytes. */
  lemma RecordLayout(o: Observation)
    ensures var m, a, b := WriteRecord(o), |o.keys|, |o.payload|;
      && |m| == a + b + |o.xors|
      && (forall k :: 0 <= k < a ==> m[k] == Number(o.keys[k]))
      && (forall k :: 0 <= k < b ==> m[a + k] == Number(o.payload[k]))
      && forall k :: 0 <= k < |o.xors| ==> m[a + b + k] == Byte(o.xors[k])
  {
  }

  /** shareWithCrossVerticalParties: one message, record after record. */
  function WriteList(list: seq<Observation>): seq<Item> {
    if |list| == 0 then [] else WriteRecord(list[0]) + WriteList(list[1..])
  }

  /** Reads so many numbers from the front of the message. */
  method ReadNumbers(msg: seq<Item>, count: nat, ghost v: seq<nat>, ghost rest: seq<Item>)
    returns (read: seq<nat>, left: seq<Item>)
    requires |v| == count && msg == Numbers(v) + rest
    ensures read == v && left == rest
  {
    read, left := [], msg;
    for k := 0 to count
      invariant read == v[..k] && left == Numbers(v[k..]) + rest
    {
      assert left[0] == Number(v[k]);
      assert left[1..] == Numbers(v[k + 1..]) + rest;
      read, left := read + [left[0].n], left[1..];
    }
  }

  method ReadBytes(msg: seq<Item>, count: nat, ghost v: seq<bv8>, ghost rest: seq<Item>)
    returns (read: seq<bv8>, left: seq<Item>)
    requires |v| == count && msg == Bytes(v) + rest
    ensures read == v && left == rest
  {
    read, left := [], msg;
    for k := 0 to count
      invariant read == v[..k] && left == Bytes(v[k..]) + rest
    {
      assert left[0] == Byte(v[k]);
      assert left[1..] == Bytes(v[k + 1..]) + rest;
      read, left := read + [left[0].b], left[1..];
    }
  }

  /** A record that stands for nobody: random keys, and nothing to add to any sum. */
  predicate Padding(o: Observation, keys: seq<nat>, l: Layout) {
    && o.keys == keys
    && o.payload == seq(l.numPayload, _ => 0)
    && o.xors == seq(l.numXors, _ => 0)
  }

  /** computePayloadVectorAndPadList, after the products: the list is filled up to the size all parties agreed on. */
  method PadList(list: seq<Observation>, randomKeys: seq<seq<nat>>, l: Layout) returns (padded: seq<Observation>)
    requires |list| + |randomKeys| >= l.maxListSize
    requires forall j :: 0 <= j < |list| ==> HasLayout(list[j], l)
    requires forall k :: 0 <= k < |randomKeys| ==> |randomKeys[k]| == l.numKeys
    ensures list <= padded && (|list| <= l.maxListSize ==> AllHaveLayout(padded, l))
    ensures |padded| == if |list| < l.maxListSize then l.maxListSize else |list|
    ensures forall k :: |list| <= k < |padded| ==> Padding(padded[k], randomKeys[k - |list|], l)
  {
    padded := list;
    while |padded| < l.maxListSize
      invariant |list| <= |padded| && (|padded| <= l.maxListSize || padded == list)
      invariant padded[..|list|] == list && forall k :: 0 <= k < |padded| ==> HasLayout(padded[k], l)
      invariant forall k :: |list| <= k < |padded| ==> Padding(padded[k], randomKeys[k - |list|], l)
    {
      var o := Observation(randomKeys[|padded| - |list|], seq(l.numPayload, _ => 0), seq(l.numXors, _ => 0));
      padded := padded + [o];
    }
  }

  /** Where a party keeps its own records: the dependent-variable side comes first in every shared list. */
  function OwnOffset(isDV: bool, l: Layout): nat {
    if isDV then 0 else l.maxListSize
  }

  function ReceivedOffset(isDV: bool, l: Layout): nat {
    if isDV then l.maxListSize else 0
  }

  ghost predicate Part(list: seq<Observation>, offset: nat, part: seq<Observation>) {
    offset + |part| <= |list| && list[offset..offset + |part|] == part
  }

  /** Storing the next record of a part. */
  lemma PartGrows(list: seq<Observation>, offset: nat, part: seq<Observation>, o: Observation)
    requires Part(list, offset, part) && offset + |part| < |list|
    ensures Part(list[offset + |part| := o], offset, part + [o])
  {
  }

  /** The slots of the other half stay. */
  ghost predicate SameSlots(list: seq<Observation>, before: seq<Observation>, offset: nat, count: nat) {
    |list| == |before| && offset + count <= |list| &&
    list[offset..offset + count] == before[offset..offset + count]
  }

  lemma PartStays(list: seq<Observation>, before: seq<Observation>, offset: nat, part: seq<Observation>)
    requires SameSlots(list, before, offset, |part|) && Part(before, offset, part)
    ensures Part(list, offset, part)
  {
  }

  /** The shares kept of the first records of a list. */
  function MyShares(own: seq<Observation>, masks: seq<Observation>, l: Layout): (shares: seq<Observation>)
    requires |own| >= l.maxListSize && AllHaveLayout(own[..l.maxListSize], l) && AllHaveLayout(masks, l) && Moduli(l)
    ensures |shares| == l.maxListSize
  {
    seq(l.maxListSize, j requires 0 <= j < l.maxListSize => assert own[..l.maxListSize][j] == own[j];
      MyShare(own[j], masks[j], l))
  }

  class Regression {
    const layout: Layout
    const isDV: bool
    const numCrossParties: nat

    var ownList: seq<Observation>
    var outgoingListShares: seq<seq<Observation>>
    var sharedLists: seq<seq<Observation>>
    var state: State
    var numPartiesAwaiting: int
    var randomnessDone: bool
    /** The stages launched so far, in order. */
    var launches: seq<Launch>

    /** The fields the handlers steer by. */
    ghost function View(): Control
      reads this
    {
      Control(state, numPartiesAwaiting, randomnessDone)
    }

    ghost predicate Ready()
      reads this
    {
      && Moduli(layout) && |ownList| >= layout.maxListSize && AllHaveLayout(ownList[..layout.maxListSize], layout)
    }

    ghost predicate Allocated()
      reads this
    {
      && |sharedLists| == numCrossParties
      && forall i :: 0 <= i < numCrossParties ==> |sharedLists[i]| == 2 * layout.maxListSize
    }

    constructor (layout: Layout, isDV: bool, numCrossParties: nat, ownList: seq<Observation>)
      requires Moduli(layout) && |ownList| >= layout.maxListSize && AllHaveLayout(ownList[..layout.maxListSize], layout)
      ensures this.layout == layout && this.isDV == isDV && this.numCrossParties == numCrossParties
      ensures Ready() && this.ownList == ownList && outgoingListShares == [] && sharedLists == [] && launches == []
      ensures View() == Control(AwaitingRandomnessAndSISOSort, 0, false)
    {
      this.layout, this.isDV, this.numCrossParties, this.ownList := layout, isDV, numCrossParties, ownList;
      outgoingListShares, sharedLists, launches := [], [], [];
      state, numPartiesAwaiting, randomnessDone := AwaitingRandomnessAndSISOSort, 0, false;
    }

    /** setupCrossVerticalShares, with the random masks as an argument. */
    method SetupCrossVerticalShares(masks: seq<seq<Observation>>)
      requires Ready() && outgoingListShares == [] && sharedLists == []
      requires |masks| == numCrossParties && forall i :: 0 <= i < |masks| ==> AllHaveLayout(masks[i], layout)
      modifies this`outgoingListShares, this`sharedLists
      ensures Ready() && Allocated() && outgoingListShares == masks
      ensures forall i :: 0 <= i < numCrossParties ==>
                Part(sharedLists[i], OwnOffset(isDV, layout), MyShares(ownList, masks[i], layout))
    {
      for i := 0 to numCrossParties
        invariant |sharedLists| == i && outgoingListShares == masks[..i]
        invariant forall k :: 0 <= k < i ==> |sharedLists[k]| == 2 * layout.maxListSize
        invariant forall k :: 0 <= k < i ==>
                    Part(sharedLists[k], OwnOffset(isDV, layout), MyShares(ownList, masks[k], layout))
      {
        var list, out := ShareList(ownList, masks[i], isDV, layout);
        sharedLists := sharedLists + [list];
        outgoingListShares := outgoingListShares + [out];
      }
    }

    /** init: wait for one message per cross party. */
    method Init()
      modifies this`state, this`numPartiesAwaiting
      ensures View() == Control(AwaitingRandomnessAndSISOSort, numCrossParties, old(randomnessDone))
    {
      state := AwaitingRandomnessAndSISOSort;
      numPartiesAwaiting := numCrossParties;
    }

    /** The records of the sender go to the half of its list that this party does not own. */
    method HandleReceive(sender: nat, msg: seq<Item>, ghost sent: seq<Observation>)
      requires Allocated() && sender < numCrossParties && AllHaveLayout(sent, layout) && msg == WriteList(sent)
      modifies this`sharedLists, this`state, this`numPartiesAwaiting, this`launches
      ensures Allocated()
      ensures forall i :: 0 <= i < numCrossParties && i != sender ==> sharedLists[i] == old(sharedLists)[i]
      ensures Part(sharedLists[sender], ReceivedOffset(isDV, layout), sent)
      ensures SameSlots(sharedLists[sender], old(sharedLists)[sender], OwnOffset(isDV, layout), layout.maxListSize)
      ensures View() == OnReceive(old(View()), numCrossParties).0
      ensures launches == old(launches) + [OnReceive(old(View()), numCrossParties).1]
    {
      StoreShares(sender, msg, sent);
      numPartiesAwaiting := numPartiesAwaiting - 1;
      if numPartiesAwaiting == 0 {
        launches := launches + [SISOSorts];
        numPartiesAwaiting := numCrossParties;
        state := AwaitingSISOSort;
      } else {
        launches := launches + [Nothing];
      }
    }

    method StoreShares(sender: nat, msg: seq<Item>, ghost sent: seq<Observation>)
      requires Allocated() && sender < numCrossParties && AllHaveLayout(sent, layout) && msg == WriteList(sent)
      modifies this`sharedLists
      ensures Allocated()
      ensures forall i :: 0 <= i < numCrossParties && i != sender ==> sharedLists[i] == old(sharedLists)[i]
      ensures Part(sharedLists[sender], ReceivedOffset(isDV, layout), sent)
      ensures SameSlots(sharedLists[sender], old(sharedLists)[sender], OwnOffset(isDV, layout), layout.maxListSize)
    {
      var list := StoreRecords(sharedLists[sender], isDV, msg, layout, sent);
      sharedLists := sharedLists[sender := list];
    }

    /** handleComplete up to the launch of the modulus conversion. */
    method HandleComplete(child: Child)
      modifies this`state, this`numPartiesAwaiting, this`randomnessDone, this`launches
      ensures View() == OnComplete(old(View()), child, numCrossParties).0
      ensures launches == old(launches) + [OnComplete(old(View()), child, numCrossParties).1]
    {
      if !randomnessDone {
        if !child.Patron? {
          numPartiesAwaiting := numPartiesAwaiting - 1;
          if numPartiesAwaiting == 0 {
            state := AwaitingRandomnessOnly;
          }
          launches := launches + [Nothing];
          return;
        } else {
          randomnessDone := true;
          if state == AwaitingRandomnessOnly {
            numPartiesAwaiting := 1;
            state := AwaitingSISOSort;
          } else {
            state := AwaitingSISOSort;
            launches := launches + [Nothing];
            return;
          }
        }
      }
      var launch := Nothing;
      match state {
        case AwaitingSISOSort =>
          numPartiesAwaiting := numPartiesAwaiting - 1;
          if numPartiesAwaiting == 0 {
            launch := ZipAdjacents;
            numPartiesAwaiting := numCrossParties;
            state := AwaitingZipAdjacent;
          }
        case AwaitingZipAdjacent =>
          numPartiesAwaiting := numPartiesAwaiting - 1;
          if numPartiesAwaiting == 0 {
            launch := ZipReduces;
            numPartiesAwaiting := numCrossParties;
            state := AwaitingZipReduce;
          }
        case AwaitingZipReduce =>
          numPartiesAwaiting := numPartiesAwaiting - 1;
          if numPartiesAwaiting == 0 {
            launch := BatchedModConvUp;
            state := AwaitingBatchedModConvUp;
          }
        case _ =>
      }
      launches := launches + [launch];
    }
  }

  /** The shares this party keeps and the ones it sends, for one partner. */
  method ShareList(ownList: seq<Observation>, masks: seq<Observation>, isDV: bool, l: Layout)
    returns (list: seq<Observation>, out: seq<Observation>)
    requires Moduli(l) && |ownList| >= l.maxListSize && AllHaveLayout(ownList[..l.maxListSize], l)
    requires AllHaveLayout(masks, l)
    ensures |list| == 2 * l.maxListSize && out == masks
    ensures Part(list, OwnOffset(isDV, l), MyShares(ownList, masks, l))
  {
    list, out := seq(2 * l.maxListSize, _ => Observation([], [], [])), [];
    ghost var mine := MyShares(ownList, masks, l);
    for j := 0 to l.maxListSize
      invariant |list| == 2 * l.maxListSize && out == masks[..j]
      invariant Part(list, OwnOffset(isDV, l), mine[..j])
    {
      assert ownList[..l.maxListSize][j] == ownList[j];
      var myShare := MaskRecord(ownList[j], masks[j], l);
      PartGrows(list, OwnOffset(isDV, l), mine[..j], myShare);
      list := list[j + OwnOffset(isDV, l) := myShare];
      out := out + [masks[j]];
      assert mine[..j + 1] == mine[..j] + [myShare];
    }
    assert mine[..l.maxListSize] == mine && masks[..l.maxListSize] == masks;
  }

  /** The records of a message, into the half of the list that the party does not own. */
  method StoreRecords(before: seq<Observation>, isDV: bool, msg: seq<Item>, l: Layout, ghost sent: seq<Observation>)
    returns (list: seq<Observation>)
    requires |before| == 2 * l.maxListSize && AllHaveLayout(sent, l) && msg == WriteList(sent)
    ensures |list| == 2 * l.maxListSize && Part(list, ReceivedOffset(isDV, l), sent)
    ensures SameSlots(list, before, OwnOffset(isDV, l), l.maxListSize)
  {
    list := before;
    var left := msg;
    StoreStart(before, isDV, msg, l, sent);
    hide *;
    for j := 0 to l.maxListSize
      invariant Stored(list, before, isDV, left, l, sent, j)
    {
      var o;
      StoreNext(list, before, isDV, left, l, sent, j);
      o, left := ReadRecord(left, l, sent[j], WriteList(sent[j + 1..]));
      list := list[j + ReceivedOffset(isDV, l) := o];
    }
    StoreEnd(list, before, isDV, left, l, sent);
  }

  /** The first j records are stored, and the rest of the message is to be read. */
  ghost predicate Stored(list: seq<Observation>, before: seq<Observation>, isDV: bool, left: seq<Item>, l: Layout,
                         sent: seq<Observation>, j: nat) {
    && |list| == 2 * l.maxListSize && AllHaveLayout(sent, l) && j <= l.maxListSize && left == WriteList(sent[j..])
    && Part(list, ReceivedOffset(isDV, l), sent[..j])
    && SameSlots(list, before, OwnOffset(isDV, l), l.maxListSize)
  }

  lemma StoreStart(before: seq<Observation>, isDV: bool, msg: seq<Item>, l: Layout, sent: seq<Observation>)
    requires |before| == 2 * l.maxListSize && AllHaveLayout(sent, l) && msg == WriteList(sent)
    ensures Stored(before, before, isDV, msg, l, sent, 0)
  {
    assert sent[0..] == sent;
  }

  lemma StoreNext(list: seq<Observation>, before: seq<Observation>, isDV: bool, left: seq<Item>, l: Layout,
                  sent: seq<Observation>, j: nat)
    requires Stored(list, before, isDV, left, l, sent, j) && j < l.maxListSize
    ensures |sent| == l.maxListSize && HasLayout(sent[j], l)
    ensures left == WriteRecord(sent[j]) + WriteList(sent[j + 1..])
    ensures j + ReceivedOffset(isDV, l) < |list|
    ensures Stored(list[j + ReceivedOffset(isDV, l) := sent[j]], before, isDV, WriteList(sent[j + 1..]), l, sent,
                   j + 1)
  {
    assert sent[j..][0] == sent[j] && sent[j..][1..] == sent[j + 1..];
    PartGrows(list, ReceivedOffset(isDV, l), sent[..j], sent[j]);
    assert sent[..j + 1] == sent[..j] + [sent[j]];
    hide WriteList, WriteRecord, HasLayout;
  }

  lemma StoreEnd(list: seq<Observation>, before: seq<Observation>, isDV: bool, left: seq<Item>, l: Layout,
                 sent: seq<Observation>)
    requires Stored(list, before, isDV, left, l, sent, l.maxListSize)
    ensures |list| == 2 * l.maxListSize && Part(list, ReceivedOffset(isDV, l), sent)
    ensures SameSlots(list, before, OwnOffset(isDV, l), l.maxListSize)
  {
    assert sent[..l.maxListSize] == sent;
  }

  /** The three loops over the columns of one record. */
  method MaskRecord(own: Observation, mask: Observation, l: Layout) returns (o: Observation)
    requires HasLayout(own, l) && HasLayout(mask, l) && Moduli(l)
    ensures o == MyShare(own, mask, l)
  {
    var keys, payload, xors := [], [], [];
    for k := 0 to l.numKeys
      invariant keys == SubAll(own.keys, mask.keys, l.keyModulus)[..k]
    {
      keys := keys + [ModSub(own.keys[k], mask.keys[k], l.keyModulus)];
    }
    for k := 0 to l.numPayload
      invariant payload == SubAll(own.payload, mask.payload, l.startModulus)[..k]
    {
      payload := payload + [ModSub(own.payload[k], mask.payload[k], l.startModulus)];
    }
    for k := 0 to l.numXors
      invariant xors == XorBytes(own.xors, mask.xors)[..k]
    {
      xors := xors + [own.xors[k] ^ mask.xors[k]];
    }
    o := Observation(keys, payload, xors);
  }

  method ReadRecord(msg: seq<Item>, l: Layout, ghost sent: Observation, ghost rest: seq<Item>)
    returns (o: Observation, left: seq<Item>)
    requires HasLayout(sent, l) && msg == WriteRecord(sent) + rest
    ensures o == sent && left == rest
  {
    var keys, payload, xors;
    assert msg == Numbers(sent.keys) + (Numbers(sent.payload) + (Bytes(sent.xors) + rest));
    keys, left := ReadNumbers(msg, l.numKeys, sent.keys, Numbers(sent.payload) + (Bytes(sent.xors) + rest));
    payload, left := ReadNumbers(left, l.numPayload, sent.payload, Bytes(sent.xors) + rest);
    xors, left := ReadBytes(left, l.numXors, sent.xors, rest);
    o := Observation(keys, payload, xors);
  }

  // ----- what two shared lists reconstruct to

  /** The two shares of a record add up to it: keys and payload modulo their moduli, bytes by exclusive or. */
  ghost predicate Reconstructs(a: Observation, b: Observation, o: Observation, l: Layout)
    requires Moduli(l)
  {
    && HasLayout(a, l) && HasLayout(b, l) && HasLayout(o, l)
    && (forall k :: 0 <= k < l.numKeys ==> Cong(a.keys[k] + b.keys[k], o.keys[k], l.keyModulus))
    && (forall k :: 0 <= k < l.numPayload ==> Cong(a.payload[k] + b.payload[k], o.payload[k], l.startModulus))
    && (forall k :: 0 <= k < l.numXors ==> a.xors[k] ^ b.xors[k] == o.xors[k])
  }

  lemma Unmask(own: nat, mask: nat, m: nat)
    requires m > 0
    ensures Cong(ModSub(own, mask, m) + mask, own, m)
  {
    CongMod(own - mask, m);
    CongAdd(ModSub(own, mask, m), own - mask, mask, mask, m);
  }

  lemma UnmaskByte(own: bv8, mask: bv8)
    ensures (own ^ mask) ^ mask == own && mask ^ (own ^ mask) == own
  {
  }

  lemma UnmaskRecord(own: Observation, mask: Observation, l: Layout)
    requires HasLayout(own, l) && HasLayout(mask, l) && Moduli(l)
    ensures Reconstructs(MyShare(own, mask, l), mask, own, l) && Reconstructs(mask, MyShare(own, mask, l), own, l)
  {
    forall k | 0 <= k < l.numKeys
      ensures Cong(MyShare(own, mask, l).keys[k] + mask.keys[k], own.keys[k], l.keyModulus)
    {
      Unmask(own.keys[k], mask.keys[k], l.keyModulus);
    }
    forall k | 0 <= k < l.numPayload
      ensures Cong(MyShare(own, mask, l).payload[k] + mask.payload[k], own.payload[k], l.startModulus)
    {
      Unmask(own.payload[k], mask.payload[k], l.startModulus);
    }
    forall k | 0 <= k < l.numXors
      ensures (own.xors[k] ^ mask.xors[k]) ^ mask.xors[k] == own.xors[k]
      ensures mask.xors[k] ^ (own.xors[k] ^ mask.xors[k]) == own.xors[k]
    {
      UnmaskByte(own.xors[k], mask.xors[k]);
    }
    hide Cong, ModSub;
  }

  /** A party's list for one partner once the partner's message is in. */
  ghost predicate Complete(list: seq<Observation>, isDV: bool, own: seq<Observation>, masks: seq<Observation>,
                           received: seq<Observation>, l: Layout)
    requires Moduli(l) && AllHaveLayout(own, l) && AllHaveLayout(masks, l)
  {
    && Part(list, OwnOffset(isDV, l), MyShares(own, masks, l))
    && Part(list, ReceivedOffset(isDV, l), received)
  }

  /**
   Entry by entry the two parties' lists share the dependent-variable party's records followed by
   the other party's, whatever the masks.
   */
  lemma PairReconstructs(listA: seq<Observation>, listB: seq<Observation>, ownA: seq<Observation>,
                         ownB: seq<Observation>, masksA: seq<Observation>, masksB: seq<Observation>, l: Layout)
    requires Moduli(l) && AllHaveLayout(ownA, l) && AllHaveLayout(ownB, l)
    requires AllHaveLayout(masksA, l) && AllHaveLayout(masksB, l)
    requires |listA| == |listB| == 2 * l.maxListSize
    requires Complete(listA, true, ownA, masksA, masksB, l) && Complete(listB, false, ownB, masksB, masksA, l)
    ensures forall j :: 0 <= j < 2 * l.maxListSize ==> Reconstructs(listA[j], listB[j], (ownA + ownB)[j], l)
  {
    var s := l.maxListSize;
    assert ownA[..s] == ownA && ownB[..s] == ownB;
    forall j | 0 <= j < 2 * s
      ensures Reconstructs(listA[j], listB[j], (ownA + ownB)[j], l)
    {
      if j < s {
        assert listA[j] == listA[0..s][j] && listB[j] == listB[0..s][j];
        UnmaskRecord(ownA[j], masksA[j], l);
      } else {
        var k := j - s;
        assert listA[j] == listA[s..2 * s][k] && listB[j] == listB[s..2 * s][k];
        UnmaskRecord(ownB[k], masksB[k], l);
      }
      hide Reconstructs, MyShare;
    }
  }

  /** The cross parties of one data owner. */
  function Indices(n: nat): (s: set<nat>)
    ensures forall i :: i in s <==> 0 <= i < n
    ensures |s| == n
  {
    if n == 0 then {} else Indices(n - 1) + {n - 1}
  }

  /** The list for partner i, before and after that partner's message. */
  ghost predicate ListState(r: Regression, i: nat, masks: seq<Observation>, received: seq<Observation>,
                            arrived: bool)
    requires r.Ready() && AllHaveLayout(masks, r.layout)
    reads r
  {
    && i < |r.sharedLists|
    && Part(r.sharedLists[i], OwnOffset(r.isDV, r.layout), MyShares(r.ownList, masks, r.layout))
    && (arrived ==> Part(r.sharedLists[i], ReceivedOffset(r.isDV, r.layout), received))
  }

  /** The counter and the launches while so many messages are missing. */
  ghost predicate Counting(c: Control, launches: seq<Launch>, missing: nat, n: nat) {
    missing <= n && n >= 1 &&
    if missing == 0 then
      c == Control(AwaitingSISOSort, n, false) && launches == seq(n - 1, _ => Nothing) + [SISOSorts]
    else
      c == Control(AwaitingRandomnessAndSISOSort, missing, false) && launches == seq(n - missing, _ => Nothing)
  }

  lemma CountStep(c: Control, launches: seq<Launch>, missing: nat, n: nat)
    requires Counting(c, launches, missing, n) && missing > 0
    ensures Counting(OnReceive(c, n).0, launches + [OnReceive(c, n).1], missing - 1, n)
  {
  }

  /** One message, seen from all the lists. */
  method ReceiveOne(r: Regression, i: nat, message: seq<Item>, masks: seq<seq<Observation>>,
                    ghost received: seq<seq<Observation>>, ghost pending: set<nat>)
    requires r.Ready() && r.Allocated() && |masks| == |received| == r.numCrossParties
    requires forall k :: 0 <= k < r.numCrossParties ==>
      AllHaveLayout(masks[k], r.layout) && AllHaveLayout(received[k], r.layout)
    requires i < r.numCrossParties && i in pending && message == WriteList(received[i])
    requires forall k :: 0 <= k < r.numCrossParties ==> ListState(r, k, masks[k], received[k], k !in pending)
    modifies r`sharedLists, r`state, r`numPartiesAwaiting, r`launches
    ensures r.Ready() && r.Allocated()
    ensures forall k :: 0 <= k < r.numCrossParties ==> ListState(r, k, masks[k], received[k], k !in pending - {i})
    ensures r.View() == OnReceive(old(r.View()), r.numCrossParties).0
    ensures r.launches == old(r.launches) + [OnReceive(old(r.View()), r.numCrossParties).1]
  {
    ghost var before := r.sharedLists[i];
    r.HandleReceive(i, message, received[i]);
    PartStays(r.sharedLists[i], before, OwnOffset(r.isDV, r.layout), MyShares(r.ownList, masks[i], r.layout));
  }

  /**
   A data owner shares its list and takes the messages of all its cross parties in any order:
   every list is then complete, and the sorts were launched by the last message and not before.
   */
  method ShareAndReceive(r: Regression, masks: seq<seq<Observation>>, messages: seq<seq<Item>>,
                         ghost received: seq<seq<Observation>>)
    requires r.Ready() && r.outgoingListShares == [] && r.sharedLists == [] && r.launches == []
    requires r.numCrossParties >= 1 && !r.randomnessDone
    requires |masks| == |messages| == |received| == r.numCrossParties
    requires forall i :: 0 <= i < r.numCrossParties ==>
      AllHaveLayout(masks[i], r.layout) && AllHaveLayout(received[i], r.layout)
    requires forall i :: 0 <= i < r.numCrossParties ==> messages[i] == WriteList(received[i])
    modifies r
    ensures r.Ready() && r.Allocated() && r.ownList == old(r.ownList) && r.outgoingListShares == masks
    ensures forall i :: 0 <= i < r.numCrossParties ==> ListState(r, i, masks[i], received[i], true)
    ensures r.launches == seq(r.numCrossParties - 1, _ => Nothing) + [SISOSorts]
    ensures r.View() == Control(AwaitingSISOSort, r.numCrossParties, false)
  {
    r.SetupCrossVerticalShares(masks);
    r.Init();
    assert Counting(r.View(), r.launches, r.numCrossParties, r.numCrossParties);
    assert forall i :: 0 <= i < r.numCrossParties ==> ListState(r, i, masks[i], received[i], false);
    ReceiveAll(r, masks, messages, received);
  }

  /** The messages of all cross parties, in any order. */
  method ReceiveAll(r: Regression, masks: seq<seq<Observation>>, messages: seq<seq<Item>>,
                    ghost received: seq<seq<Observation>>)
    requires r.Ready() && r.Allocated() && |masks| == |messages| == |received| == r.numCrossParties
    requires forall i :: 0 <= i < r.numCrossParties ==>
      AllHaveLayout(masks[i], r.layout) && AllHaveLayout(received[i], r.layout)
    requires forall i :: 0 <= i < r.numCrossParties ==> messages[i] == WriteList(received[i])
    requires Counting(r.View(), r.launches, r.numCrossParties, r.numCrossParties)
    requires forall i :: 0 <= i < r.numCrossParties ==> ListState(r, i, masks[i], received[i], false)
    modifies r`sharedLists, r`state, r`numPartiesAwaiting, r`launches
    ensures r.Ready() && r.Allocated()
    ensures forall i :: 0 <= i < r.numCrossParties ==> ListState(r, i, masks[i], received[i], true)
    ensures Counting(r.View(), r.launches, 0, r.numCrossParties)
  {
    hide *;
    var n := r.numCrossParties;
    var pending := Indices(n);
    while pending != {}
      invariant forall i :: i in pending ==> 0 <= i < n
      invariant r.Ready() && r.Allocated()
      invariant forall i :: 0 <= i < n ==> ListState(r, i, masks[i], received[i], i !in pending)
      invariant Counting(r.View(), r.launches, |pending|, n)
      decreases |pending|
    {
      var i :| i in pending;
      CountStep(r.View(), r.launches, |pending|, n);
      ReceiveOne(r, i, messages[i], masks, received, pending);
      pending := pending - {i};
    }
  }
}
