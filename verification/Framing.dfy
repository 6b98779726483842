/** Messages cut out of a byte stream: the sender's frames and the incremental reader of a connection. */
module Framing {
  import opened Wire
  import opened Sequences
  import opened Words

  const HEADER_LEN := 15

  type U32 = n: nat | n < WORD32
  type U64 = n: nat | n < WORD64

  datatype Header = Header(control: Byte, senderRole: Byte, id: U64, receiverRole: Byte, length: U32)

  datatype Message = Message(control: Byte, senderRole: Byte, id: U64, receiverRole: Byte, payload: seq<Byte>)

  /** What a receiver can be told: the length field has 32 bits. */
  predicate LengthFits(m: Message) {
    |m.payload| < WORD32
  }

  predicate AllLengthsFit(ms: seq<Message>) {
    forall m :: m in ms ==> LengthFits(m)
  }

  lemma WordSizes()
    ensures Pow256(4) == WORD32 && Pow256(8) == WORD64
  {
    assert Pow256(2) == 0x1_0000;
    assert Pow256(4) == 256 * (256 * Pow256(2));
    assert Pow256(6) == 256 * (256 * Pow256(4));
    assert Pow256(8) == 256 * (256 * Pow256(6));
  }

  function HeaderBytes(h: Header): (s: seq<Byte>)
    ensures |s| == HEADER_LEN
  {
    [h.control, h.senderRole] + BigEndian(h.id, 8) + [h.receiverRole] + BigEndian(h.length, 4)
  }

  function HeaderOf(s: seq<Byte>): (h: Header)
    requires |s| >= HEADER_LEN
  {
    WordSizes();
    WritesBack(s[2..10]);
    WritesBack(s[11..15]);
    Header(s[0], s[1], FromBigEndian(s[2..10]), s[10], FromBigEndian(s[11..15]))
  }

  lemma HeaderRoundTrip(h: Header, t: seq<Byte>)
    ensures HeaderOf(HeaderBytes(h) + t) == h
  {
    WordSizes();
    var s := HeaderBytes(h) + t;
    assert s[2..10] == BigEndian(h.id, 8);
    assert s[11..15] == BigEndian(h.length, 4);
    ReadsBack(h.id, 8);
    ReadsBack(h.length, 4);
  }

  lemma HeaderBytesBack(s: seq<Byte>)
    requires |s| >= HEADER_LEN
    ensures HeaderBytes(HeaderOf(s)) == s[..HEADER_LEN]
  {
    WritesBack(s[2..10]);
    WritesBack(s[11..15]);
    hide BigEndian, FromBigEndian;
    assert s[..HEADER_LEN] == [s[0], s[1]] + s[2..10] + [s[10]] + s[11..15];
  }

  /** The header announces the length as a uint32_t. */
  function HeaderFor(m: Message): Header {
    Header(m.control, m.senderRole, m.id, m.receiverRole, |m.payload| % WORD32)
  }

  function Frame(m: Message): seq<Byte> {
    HeaderBytes(HeaderFor(m)) + m.payload
  }

  /** The fifteen bytes in front of a payload, field by field. */
  lemma FrameLayout(m: Message)
    ensures var s := Frame(m);
      && |s| == 15 + |m.payload| && s[0] == m.control && s[1] == m.senderRole
      && s[2..10] == BigEndian(m.id, 8) && s[10] == m.receiverRole
      && s[11..15] == BigEndian(|m.payload| % 0x1_0000_0000, 4) && s[15..] == m.payload
  {
    hide BigEndian;
  }

  function Serialize(ms: seq<Message>): seq<Byte> {
    if ms == [] then [] else Frame(ms[0]) + Serialize(ms[1..])
  }

  lemma SerializeFront(m: Message, ms: seq<Message>)
    ensures Serialize([m] + ms) == Frame(m) + Serialize(ms)
  {
    hide Frame;
    assert ([m] + ms)[1..] == ms;
  }

  lemma {:induction false} SerializePush(ms: seq<Message>, m: Message)
    ensures Serialize(ms + [m]) == Serialize(ms) + Frame(m)
  {
    hide Frame, Serialize;
    if ms == [] {
      assert ms + [m] == [m] + [];
      SerializeFront(m, []);
      NothingTo();
    } else {
      SerializePush(ms[1..], m);
      SerializeFront(ms[0], ms[1..] + [m]);
      SerializeFront(ms[0], ms[1..]);
      assert [ms[0]] + (ms[1..] + [m]) == ms + [m];
      assert [ms[0]] + ms[1..] == ms;
      Regroup(Frame(ms[0]), Serialize(ms[1..]), Frame(m));
    }
  }

  /** The messages a whole stream holds, and the unfinished bytes after them. */
  datatype Parsed = Parsed(messages: seq<Message>, rest: seq<Byte>)

  predicate Complete(s: seq<Byte>) {
    |s| >= HEADER_LEN && |s| - HEADER_LEN >= HeaderOf(s).length
  }

  function First(s: seq<Byte>): Message
    requires Complete(s)
  {
    var h := HeaderOf(s);
    Message(h.control, h.senderRole, h.id, h.receiverRole, s[HEADER_LEN..HEADER_LEN + h.length])
  }

  function Remainder(s: seq<Byte>): seq<Byte>
    requires Complete(s)
  {
    s[HEADER_LEN + HeaderOf(s).length..]
  }

  function Parse(s: seq<Byte>): Parsed
    decreases |s|
  {
    if !Complete(s) then Parsed([], s)
    else
      var later := Parse(Remainder(s));
      Parsed([First(s)] + later.messages, later.rest)
  }

  /** More bytes behind a complete message do not touch it. */
  lemma CompleteExtends(s: seq<Byte>, t: seq<Byte>)
    requires Complete(s)
    ensures Complete(s + t) && First(s + t) == First(s) && Remainder(s + t) == Remainder(s) + t
  {
    assert (s + t)[2..10] == s[2..10] && (s + t)[11..15] == s[11..15];
    hide FromBigEndian;
  }

  /** Parsing in two goes, with the unfinished bytes kept in between, is parsing at once. */
  lemma {:induction false} ParseAppend(s: seq<Byte>, t: seq<Byte>)
    ensures var first := Parse(s); var second := Parse(first.rest + t);
      Parse(s + t) == Parsed(first.messages + second.messages, second.rest)
    decreases |s|
  {
    hide Complete, First, Remainder;
    if Complete(s) {
      CompleteExtends(s, t);
      RemainderShorter(s);
      ParseAppend(Remainder(s), t);
    }
  }

  lemma RemainderShorter(s: seq<Byte>)
    requires Complete(s)
    ensures |Remainder(s)| < |s|
  {
  }

  lemma FrameParts(m: Message, t: seq<Byte>)
    ensures var s := Frame(m) + t;
      |s| >= HEADER_LEN && HeaderOf(s) == HeaderFor(m) && Complete(s)
      && First(s).payload == m.payload[..|m.payload| % WORD32]
      && (LengthFits(m) ==> First(s) == m && Remainder(s) == t)
  {
    var s := Frame(m) + t;
    HeaderRoundTrip(HeaderFor(m), m.payload + t);
    hide HeaderBytes, HeaderOf;
    assert s == HeaderBytes(HeaderFor(m)) + (m.payload + t);
    var n := |m.payload| % WORD32;
    assert s[HEADER_LEN..HEADER_LEN + n] == m.payload[..n];
  }

  /** Every sequence of messages that fit comes back, with nothing left over. */
  lemma {:induction false} ParseSerialize(ms: seq<Message>)
    requires AllLengthsFit(ms)
    ensures Parse(Serialize(ms)) == Parsed(ms, [])
  {
    hide Frame, Complete, First, Remainder;
    if ms == [] {
      hide *;
      ShortIsIncomplete([]);
    } else {
      FrameParts(ms[0], Serialize(ms[1..]));
      ParseSerialize(ms[1..]);
    }
  }

  /** What a header and the bytes behind it parse to. */
  lemma ParseBehindHeader(h: Header, buffer: seq<Byte>)
    ensures var s := HeaderBytes(h) + buffer;
      && |s| >= HEADER_LEN
      && (|buffer| < h.length ==> Parse(s) == Parsed([], s))
      && (h.length <= |buffer| ==>
           var later := Parse(buffer[h.length..]);
           Parse(s) == Parsed([Message(h.control, h.senderRole, h.id, h.receiverRole, buffer[..h.length])]
                              + later.messages, later.rest))
  {
    var s := HeaderBytes(h) + buffer;
    HeaderRoundTrip(h, buffer);
    hide HeaderBytes, HeaderOf;
    assert s[HEADER_LEN..] == buffer;
    if h.length <= |buffer| {
      assert s[HEADER_LEN + h.length..] == buffer[h.length..];
      assert s[HEADER_LEN..HEADER_LEN + h.length] == buffer[..h.length];
    }
  }

  lemma ShortIsIncomplete(s: seq<Byte>)
    requires |s| < HEADER_LEN
    ensures Parse(s) == Parsed([], s)
  {
  }

  /** And only those: an oversized payload arrives cut off. */
  lemma {:induction false} OnlyThoseThatFit(ms: seq<Message>)
    requires Parse(Serialize(ms)).messages == ms
    ensures AllLengthsFit(ms)
  {
    if ms != [] {
      hide Frame, Complete, First, Remainder;
      var m, t := ms[0], Serialize(ms[1..]);
      FrameParts(m, t);
      assert ms[0] == First(Frame(m) + t);
      assert LengthFits(m);
      assert Parse(t).messages == ms[1..];
      OnlyThoseThatFit(ms[1..]);
    }
  }

  lemma HeaderOfPrefix(p: seq<Byte>, f: seq<Byte>)
    requires HEADER_LEN <= |p| && p <= f
    ensures HeaderOf(p) == HeaderOf(f)
  {
    assert p[2..10] == f[2..10] && p[11..15] == f[11..15];
    hide FromBigEndian;
  }

  /** Too few bytes of a frame are not complete. */
  lemma PartialFrame(m: Message, p: seq<Byte>)
    requires LengthFits(m) && p <= Frame(m) && |p| < |Frame(m)|
    ensures Parse(p) == Parsed([], p)
  {
    hide HeaderOf, HeaderBytes;
    if |p| >= HEADER_LEN {
      FrameParts(m, []);
      assert Frame(m) + [] == Frame(m);
      HeaderOfPrefix(p, Frame(m));
    }
  }

  /** What a reader that has seen p of the frames of ms has delivered and holds. */
  ghost predicate InStep(ms: seq<Message>, p: seq<Byte>) {
    var k := |Parse(p).messages|;
    && k <= |ms| && Parse(p).messages == ms[..k]
    && p == Serialize(ms[..k]) + Parse(p).rest
    && (k == |ms| ==> Parse(p).rest == [])
    && (k < |ms| ==> Parse(p).rest <= Frame(ms[k]) && |Parse(p).rest| < |Frame(ms[k])|)
  }

  lemma ParseFirst(m: Message, q: seq<Byte>)
    requires LengthFits(m)
    ensures Parse(Frame(m) + q) == Parsed([m] + Parse(q).messages, Parse(q).rest)
  {
    hide Frame, First, Remainder, Complete;
    FrameParts(m, q);
  }

  lemma InStepNext(ms: seq<Message>, q: seq<Byte>)
    requires ms != [] && LengthFits(ms[0]) && InStep(ms[1..], q)
    ensures InStep(ms, Frame(ms[0]) + q)
  {
    hide Frame, Parse, Serialize;
    ParseFirst(ms[0], q);
    var f, k := Frame(ms[0]), |Parse(q).messages|;
    assert ms[..k + 1] == [ms[0]] + ms[1..][..k];
    SerializeFront(ms[0], ms[1..][..k]);
    Regroup(f, Serialize(ms[1..][..k]), Parse(q).rest);
  }

  lemma InStepPart(ms: seq<Message>, p: seq<Byte>)
    requires ms != [] && LengthFits(ms[0]) && p <= Frame(ms[0]) && |p| < |Frame(ms[0])|
    ensures InStep(ms, p)
  {
    hide Frame, Parse;
    PartialFrame(ms[0], p);
    assert Serialize(ms[..0]) == [];
  }

  /** At any moment the reader has delivered whole messages, in order, and holds a part of the next one. */
  lemma {:induction false} PrefixParse(ms: seq<Message>, p: seq<Byte>)
    requires AllLengthsFit(ms) && p <= Serialize(ms)
    ensures InStep(ms, p)
    decreases |ms|
  {
    hide Frame, Parse;
    if ms == [] {
      ShortIsIncomplete(p);
    } else {
      var f, t := Frame(ms[0]), Serialize(ms[1..]);
      assert p == (f + t)[..|p|];
      if |p| < |f| {
        assert p == f[..|p|];
        InStepPart(ms, p);
      } else {
        var q := p[|f|..];
        assert q == t[..|q|];
        assert p == f + q;
        PrefixParse(ms[1..], q);
        InStepNext(ms, q);
      }
    }
  }

  /** One connection: the input buffer, a header already read, and what the query handler was given. */
  class EventHandler {
    var buffer: seq<Byte>
    var hasCachedHeader: bool
    var cachedHeader: Header
    var delivered: seq<Message>
    /** Every byte that ever arrived. */
    ghost var stream: seq<Byte>

    ghost function Pending(): seq<Byte>
      reads this
    {
      if hasCachedHeader then HeaderBytes(cachedHeader) + buffer else buffer
    }

    ghost predicate Valid()
      reads this
    {
      && delivered == Parse(stream).messages
      && Pending() == Parse(stream).rest
      && (hasCachedHeader <==> |Pending()| >= HEADER_LEN)
    }

    constructor ()
      ensures Valid() && stream == [] && delivered == []
    {
      buffer, hasCachedHeader, delivered, stream := [], false, [], [];
      cachedHeader := Header(0, 0, 0, 0, 0);
    }

    method Remove(n: nat) returns (bytes: seq<Byte>)
      requires n <= |buffer|
      modifies this`buffer
      ensures bytes == old(buffer)[..n] && buffer == old(buffer)[n..]
    {
      bytes := buffer[..n];
      buffer := buffer[n..];
    }

    /** The five fields, one after the other. */
    method ReadHeader() returns (h: Header)
      requires |buffer| >= HEADER_LEN
      modifies this`buffer
      ensures h == HeaderOf(old(buffer)) && buffer == old(buffer)[HEADER_LEN..]
    {
      ghost var all := buffer;
      var control := Remove(1);
      var senderRole := Remove(1);
      var idBytes := Remove(8);
      assert idBytes == all[2..10] && buffer == all[10..];
      var receiverRole := Remove(1);
      var lengthBytes := Remove(4);
      assert lengthBytes == all[11..15] && buffer == all[15..];
      WordSizes();
      WritesBack(idBytes);
      WritesBack(lengthBytes);
      var id := ReadInteger(idBytes);
      var length := ReadInteger(lengthBytes);
      h := Header(control[0], senderRole[0], id, receiverRole[0], length);
    }

    method ReadEntireHeader() returns (ready: bool)
      modifies this`buffer, this`hasCachedHeader, this`cachedHeader
      ensures Pending() == old(Pending())
      ensures ready == hasCachedHeader == (|Pending()| >= HEADER_LEN)
    {
      hide HeaderOf, HeaderBytes;
      if !hasCachedHeader {
        if |buffer| >= HEADER_LEN {
          ghost var all := buffer;
          cachedHeader := ReadHeader();
          hasCachedHeader := true;
          HeaderBytesBack(all);
          assert all[..HEADER_LEN] + all[HEADER_LEN..] == all;
          return true;
        } else {
          return false;
        }
      } else {
        return true;
      }
    }

    method ReadEventHandler()
      modifies this`buffer, this`hasCachedHeader, this`cachedHeader, this`delivered
      ensures delivered == old(delivered) + Parse(old(Pending())).messages
      ensures Pending() == Parse(old(Pending())).rest
      ensures hasCachedHeader <==> |Pending()| >= HEADER_LEN
      decreases |Pending()|
    {
      hide Parse, HeaderBytes;
      ghost var start := Pending();
      var ready := ReadEntireHeader();
      if !ready {
        ShortIsIncomplete(start);
        return;
      }
      ParseBehindHeader(cachedHeader, buffer);
      if |buffer| < cachedHeader.length {
        return;
      }
      var payload := Remove(cachedHeader.length);
      delivered := delivered + [Message(cachedHeader.control, cachedHeader.senderRole, cachedHeader.id,
                                        cachedHeader.receiverRole, payload)];
      hasCachedHeader := false;
      if |buffer| > 0 {
        ReadEventHandler();
      } else {
        ShortIsIncomplete([]);
      }
    }

    /** Bytes arrive and the callback runs. */
    method Arrive(chunk: seq<Byte>)
      requires Valid()
      modifies this
      ensures Valid() && stream == old(stream) + chunk
    {
      hide Parse, HeaderBytes;
      ParseAppend(stream, chunk);
      ghost var before := Pending();
      buffer := buffer + chunk;
      stream := stream + chunk;
      assert Pending() == before + chunk;
      ReadEventHandler();
    }
  }

  /** After any arrival: whole messages delivered in order, and only the unfinished bytes of the next one held. */
  lemma AfterArrival(handler: EventHandler, ms: seq<Message>)
    requires handler.Valid() && AllLengthsFit(ms) && handler.stream <= Serialize(ms)
    ensures handler.delivered <= ms
    ensures handler.stream == Serialize(handler.delivered) + handler.Pending()
    ensures handler.delivered == ms ==> handler.Pending() == []
    ensures handler.delivered < ms ==>
      handler.Pending() <= Frame(ms[|handler.delivered|])
      && |handler.Pending()| < |Frame(ms[|handler.delivered|])|
  {
    hide Frame, Parse, Serialize, HeaderBytes;
    PrefixParse(ms, handler.stream);
  }

  function Concat(chunks: seq<seq<Byte>>): seq<Byte> {
    if chunks == [] then [] else Concat(chunks[..|chunks| - 1]) + chunks[|chunks| - 1]
  }

  /** However the bytes of the frames are cut into arrivals, the handler is given exactly the messages sent. */
  method Transfer(ms: seq<Message>, chunks: seq<seq<Byte>>) returns (delivered: seq<Message>, left: seq<Byte>)
    requires Concat(chunks) == Serialize(ms)
    ensures delivered == ms <==> AllLengthsFit(ms)
    ensures AllLengthsFit(ms) ==> left == []
  {
    hide Parse, Serialize, HeaderBytes;
    var handler := new EventHandler();
    for i := 0 to |chunks|
      invariant handler.Valid() && handler.stream == Concat(chunks[..i])
    {
      handler.Arrive(chunks[i]);
      assert chunks[..i + 1][..i] == chunks[..i];
    }
    assert chunks[..|chunks|] == chunks;
    if AllLengthsFit(ms) {
      ParseSerialize(ms);
    }
    if handler.delivered == ms {
      OnlyThoseThatFit(ms);
    }
    delivered, left := handler.delivered, handler.buffer;
  }

  datatype Outgoing = Outgoing(peer: nat, message: Message)

  /** The messages for one peer, in the order they were sent. */
  function MessagesTo(out: seq<Outgoing>, p: nat): seq<Message> {
    if out == [] then []
    else MessagesTo(out[..|out| - 1], p) + (if out[|out| - 1].peer == p then [out[|out| - 1].message] else [])
  }

  lemma MessagesToPush(out: seq<Outgoing>, i: nat)
    requires i < |out|
    ensures MessagesTo(out[..i + 1], out[i].peer) == MessagesTo(out[..i], out[i].peer) + [out[i].message]
    ensures forall p :: p != out[i].peer ==> MessagesTo(out[..i + 1], p) == MessagesTo(out[..i], p)
  {
    assert out[..i + 1][..i] == out[..i];
  }

  lemma NothingTo()
    ensures (forall p :: MessagesTo([], p) == []) && Serialize([]) == []
  {
  }

  /** The sending side of a query. */
  class QueryHandler {
    const self: nat
    /** Output buffers of the connected peers. */
    var peers: map<nat, seq<Byte>>
    /** Messages to itself, handed over without the network. */
    var updates: seq<Message>

    constructor (self: nat, peers: map<nat, seq<Byte>>)
      ensures this.self == self && this.peers == peers && updates == []
    {
      this.self, this.peers, updates := self, peers, [];
    }

    method SendOutgoingMessages(out: seq<Outgoing>)
      modifies this
      ensures updates == old(updates) + MessagesTo(out, self)
      ensures peers.Keys == old(peers).Keys
      ensures forall p :: p in peers ==>
        peers[p] == old(peers)[p] + (if p == self then [] else Serialize(MessagesTo(out, p)))
    {
      hide MessagesTo, Serialize, Frame;
      NothingTo();
      for i := 0 to |out|
        invariant updates == old(updates) + MessagesTo(out[..i], self)
        invariant peers.Keys == old(peers).Keys
        invariant forall p :: p in peers ==>
          peers[p] == old(peers)[p] + (if p == self then [] else Serialize(MessagesTo(out[..i], p)))
      {
        var m := out[i].message;
        MessagesToPush(out, i);
        SerializePush(MessagesTo(out[..i], out[i].peer), m);
        if out[i].peer == self {
          updates := updates + [m];
        } else if out[i].peer in peers {
          var frame := WriteFrame(m);
          peers := peers[out[i].peer := peers[out[i].peer] + frame];
        }
      }
      assert out[..|out|] == out;
    }
  }

  method WriteFrame(m: Message) returns (bytes: seq<Byte>)
    ensures bytes == Frame(m)
  {
    bytes := [m.control];
    bytes := bytes + [m.senderRole];
    var id := WriteInteger(m.id, 8);
    bytes := bytes + id;
    bytes := bytes + [m.receiverRole];
    var length := WriteInteger(|m.payload| % WORD32, 4);
    bytes := bytes + length;
    bytes := bytes + m.payload;
  }
}
