/** The room-history packet: how RequireRoomInfoController writes it and SendMessageController walks
    the same layout. */
module MessageCodec {
  import opened Bytes

  /** sizeof SendMessagePacket and MessageHeader, both packed. */
  const PACKET_SIZE: nat := 24
  const HEADER_SIZE: nat := 264
  const NAME_SIZE: nat := 256

  const SEND_MESSAGE: nat := 4

  /** The in-memory MessageHeader; its integer fields hold whatever was last stored in them. */
  datatype MessageHeader = MessageHeader(SendUserID: int, UserName: seq<Byte>, MsgLen: int)

  /** A message of the room, before it is encoded. */
  datatype ChatMessage = ChatMessage(sender: int, name: seq<Byte>, body: seq<Byte>) {
    ghost predicate Valid() {
      IsInt32(sender) && |name| == NAME_SIZE
    }
  }

  // ----- the format -----

  /** A 32-bit value most significant byte first. */
  function NetBytes(x: int): (r: seq<Byte>)
    ensures |r| == 4
  {
    var w := Pattern(x);
    [w / 0x100_0000, w / 0x1_0000 % 256, w / 0x100 % 256, w % 256]
  }

  function Record(m: ChatMessage): seq<Byte> {
    NetBytes(m.sender) + m.name + NetBytes(|m.body|) + m.body
  }

  function Records(ms: seq<ChatMessage>): seq<Byte> {
    if ms == [] then [] else Record(ms[0]) + Records(ms[1..])
  }

  function RecordSize(ms: seq<ChatMessage>): nat {
    if ms == [] then 0 else HEADER_SIZE + |ms[0].body| + RecordSize(ms[1..])
  }

  function PacketLen(ms: seq<ChatMessage>): nat {
    PACKET_SIZE + RecordSize(ms)
  }

  /** PacketLen, PacketType, UserLocalId, RoomID, MessageCount, and the unused MsgLen. */
  function Head(len: int, user: int, room: int, count: int): (r: seq<Byte>)
    ensures |r| == PACKET_SIZE
  {
    NetBytes(len) + NetBytes(SEND_MESSAGE) + NetBytes(user) + NetBytes(room) + NetBytes(count) + NetBytes(0)
  }

  function Encode(user: int, room: int, ms: seq<ChatMessage>): seq<Byte> {
    Head(PacketLen(ms), user, room, |ms|) + Records(ms)
  }

  // ----- the walk -----

  datatype Delivered = Delivered(sender: int, body: seq<Byte>)

  datatype Walked = Malformed | Walked(messages: seq<Delivered>, end: nat)

  datatype Parsed = Rejected | Parsed(room: int, packetLen: int, messages: seq<Delivered>, end: nat)

  /** The signed 32-bit value written most significant byte first at an offset. */
  function NetInt(p: seq<Byte>, at: nat): (x: int)
    requires at + 4 <= |p|
    ensures IsInt32(x)
  {
    var a: int, b: int, c: int := p[at], p[at + 1], p[at + 2];
    Signed(a * 0x100_0000 + b * 0x1_0000 + c * 0x100 + p[at + 3])
  }

  /** n records from offset `at`: Malformed where the walk would leave the packet or meet a negative
      length. */
  function Walk(p: seq<Byte>, at: nat, n: nat): Walked
    decreases n
  {
    if n == 0 then Walked([], at)
    else if at + HEADER_SIZE > |p| then Malformed
    else
      var len := NetInt(p, at + 4 + NAME_SIZE);
      if len < 0 || at + HEADER_SIZE + len > |p| then Malformed
      else
        var next := at + HEADER_SIZE + len;
        After([Delivered(NetInt(p, at), p[at + HEADER_SIZE..next])], Walk(p, next, n - 1))
  }

  /** Messages delivered before the rest of a walk. */
  function After(ms: seq<Delivered>, w: Walked): Walked {
    if w.Malformed? then Malformed else Walked(ms + w.messages, w.end)
  }

  function Parse(p: seq<Byte>): Parsed {
    if |p| < PACKET_SIZE then Rejected
    else
      var count := NetInt(p, 16);
      var w := Walk(p, PACKET_SIZE, if count < 0 then 0 else count);
      if w.Malformed? then Rejected else Parsed(NetInt(p, 12), NetInt(p, 0), w.messages, w.end)
  }

  // ----- round trip -----

  lemma Recompose(w: nat)
    requires w < WORD
    ensures (w / 0x100_0000) * 0x100_0000 + (w / 0x1_0000 % 256) * 0x1_0000 + (w / 0x100 % 256) * 0x100 + w % 256 == w
  {
    var a, b := w / 256, w / 256 / 256;
    assert a == w / 0x100 && b == w / 0x1_0000 && b / 256 == w / 0x100_0000;
  }

  lemma NetRoundTrip(x: int, p: seq<Byte>, at: nat)
    requires IsInt32(x) && at + 4 <= |p| && p[at..at + 4] == NetBytes(x)
    ensures NetInt(p, at) == x
  {
    var b := p[at..at + 4];
    assert b[0] == p[at] && b[1] == p[at + 1] && b[2] == p[at + 2] && b[3] == p[at + 3];
    Recompose(Pattern(x));
  }

  /** Of a value of any width, the bits survive. */
  lemma NetPattern(x: int, p: seq<Byte>, at: nat)
    requires at + 4 <= |p| && p[at..at + 4] == NetBytes(x)
    ensures Pattern(NetInt(p, at)) == Pattern(x)
  {
    var b := p[at..at + 4];
    assert b[0] == p[at] && b[1] == p[at + 1] && b[2] == p[at + 2] && b[3] == p[at + 3];
    Recompose(Pattern(x));
  }

  /** What the host writes after htonl, and what it reads before ntohl, is the network format. */
  lemma SwapWrites(x: int)
    ensures HostBytes(Htonl(x)) == NetBytes(x)
  {
    HtonlIsNetworkOrder(x);
    assert Pow256(4) == 256 * Pow256(3) == WORD;
    NetworkOrder(Pattern(x));
  }

  lemma SwapReads(p: seq<Byte>, at: nat)
    requires at + 4 <= |p|
    ensures Htonl(HostInt(p[at..at + 4])) == NetInt(p, at)
  {
    var b := p[at..at + 4];
    HostBytesOfInt(b);
    assert b == [p[at], p[at + 1], p[at + 2], p[at + 3]];
    ReverseFour(p[at], p[at + 1], p[at + 2], p[at + 3]);
    FourBytes(p[at + 3], p[at + 2], p[at + 1], p[at]);
  }

  lemma FourBytes(a: Byte, b: Byte, c: Byte, d: Byte)
    ensures FromLE([a, b, c, d]) == a + 0x100 * b + 0x1_0000 * c + 0x100_0000 * d
  {
    var s: seq<Byte> := [a, b, c, d];
    assert s[1..] == [b, c, d] && s[1..][1..] == [c, d] && s[1..][1..][1..] == [d];
    assert FromLE(s[1..][1..][1..]) == d;
    assert FromLE(s[1..][1..]) == c + 256 * d;
    assert FromLE(s[1..]) == b + 256 * (c + 256 * d);
  }

  lemma {:induction false} RecordsSize(ms: seq<ChatMessage>)
    requires forall m :: m in ms ==> m.Valid()
    ensures |Records(ms)| == RecordSize(ms) && |ms| * HEADER_SIZE <= RecordSize(ms)
  {
    if ms != [] {
      assert ms[0] in ms && forall m :: m in ms[1..] ==> m in ms;
      RecordsSize(ms[1..]);
    }
  }

  function Delivery(ms: seq<ChatMessage>): (r: seq<Delivered>)
    ensures |r| == |ms|
    ensures forall i :: 0 <= i < |ms| ==> r[i] == Delivered(ms[i].sender, ms[i].body)
  {
    if ms == [] then [] else [Delivered(ms[0].sender, ms[0].body)] + Delivery(ms[1..])
  }

  /** At offset `at`, p holds one record: sender, name and length in its header, and its body. */
  ghost predicate RecordAt(p: seq<Byte>, at: nat, m: ChatMessage) {
    var next := at + HEADER_SIZE + |m.body|;
    && next <= |p|
    && NetInt(p, at) == m.sender && NetInt(p, at + 4 + NAME_SIZE) == |m.body|
    && p[at + 4..at + 4 + NAME_SIZE] == m.name && p[at + HEADER_SIZE..next] == m.body
  }

  /** From offset `at` on, p holds the records of ms, and nothing more. */
  ghost predicate Holds(p: seq<Byte>, at: nat, ms: seq<ChatMessage>)
    decreases |ms|
  {
    if ms == [] then at == |p|
    else RecordAt(p, at, ms[0]) && Holds(p, at + HEADER_SIZE + |ms[0].body|, ms[1..])
  }

  lemma {:induction false} RecordsHold(p: seq<Byte>, at: nat, ms: seq<ChatMessage>)
    requires (forall m :: m in ms ==> m.Valid()) && |p| < 0x8000_0000
    requires at <= |p| && p[at..] == Records(ms)
    ensures Holds(p, at, ms)
    decreases |ms|
  {
    if ms != [] {
      FirstRecord(p, at, ms);
      RecordsHold(p, at + HEADER_SIZE + |ms[0].body|, ms[1..]);
    }
  }

  lemma FirstRecord(p: seq<Byte>, at: nat, ms: seq<ChatMessage>)
    requires ms != [] && (forall m :: m in ms ==> m.Valid()) && |p| < 0x8000_0000
    requires at <= |p| && p[at..] == Records(ms)
    ensures var next := at + HEADER_SIZE + |ms[0].body|;
      && next <= |p| && p[next..] == Records(ms[1..])
      && (Holds(p, next, ms[1..]) ==> Holds(p, at, ms))
    ensures forall m :: m in ms[1..] ==> m.Valid()
  {
    assert ms[0] in ms;
    RecordValues(p, at, ms[0], Records(ms[1..]));
  }

  lemma {:induction false} WalkHeld(p: seq<Byte>, at: nat, ms: seq<ChatMessage>)
    requires Holds(p, at, ms)
    ensures Walk(p, at, |ms|) == Walked(Delivery(ms), |p|)
    decreases |ms|
  {
    if ms != [] {
      WalkHeld(p, at + HEADER_SIZE + |ms[0].body|, ms[1..]);
    }
  }

  lemma RecordValues(p: seq<Byte>, at: nat, m: ChatMessage, tail: seq<Byte>)
    requires m.Valid() && |p| < 0x8000_0000 && at <= |p| && p[at..] == Record(m) + tail
    ensures RecordAt(p, at, m) && p[at + HEADER_SIZE + |m.body|..] == tail
  {
    RecordFields(p, at, m, tail);
    NetRoundTrip(m.sender, p, at);
    NetRoundTrip(|m.body|, p, at + 4 + NAME_SIZE);
  }

  lemma RecordParts(m: ChatMessage)
    requires m.Valid()
    ensures var r := Record(m);
      && |r| == HEADER_SIZE + |m.body|
      && r[0..4] == NetBytes(m.sender) && r[4..4 + NAME_SIZE] == m.name
      && r[4 + NAME_SIZE..HEADER_SIZE] == NetBytes(|m.body|) && r[HEADER_SIZE..] == m.body
  {
  }

  /** Bytes a to b of what lies at `at`. */
  lemma PartAt(p: seq<Byte>, at: nat, r: seq<Byte>, tail: seq<Byte>, a: nat, b: nat)
    requires at <= |p| && p[at..] == r + tail && a <= b <= |r|
    ensures at + b <= |p| && p[at + a..at + b] == r[a..b]
  {
    var q := p[at..];
    assert |q| == |r| + |tail|;
    forall k | 0 <= k < b - a ensures p[at + a..at + b][k] == r[a..b][k] {
      assert q[a + k] == r[a + k];
    }
  }

  lemma RecordFields(p: seq<Byte>, at: nat, m: ChatMessage, tail: seq<Byte>)
    requires m.Valid() && at <= |p| && p[at..] == Record(m) + tail
    ensures at + HEADER_SIZE + |m.body| <= |p| && p[at + HEADER_SIZE + |m.body|..] == tail
    ensures p[at..at + 4] == NetBytes(m.sender) && p[at + 4..at + 4 + NAME_SIZE] == m.name
    ensures p[at + 4 + NAME_SIZE..at + 4 + NAME_SIZE + 4] == NetBytes(|m.body|)
    ensures p[at + HEADER_SIZE..at + HEADER_SIZE + |m.body|] == m.body
  {
    var r := Record(m);
    RecordParts(m);
    PartAt(p, at, r, tail, 0, 4);
    PartAt(p, at, r, tail, 4, 4 + NAME_SIZE);
    PartAt(p, at, r, tail, 4 + NAME_SIZE, HEADER_SIZE);
    PartAt(p, at, r, tail, HEADER_SIZE, |r|);
    assert p[at + |r|..] == p[at..][|r|..];
  }

  lemma HeadFields(len: int, user: int, room: int, count: int, p: seq<Byte>)
    requires |p| >= PACKET_SIZE && p[..PACKET_SIZE] == Head(len, user, room, count)
    ensures p[0..4] == NetBytes(len) && p[4..8] == NetBytes(SEND_MESSAGE) && p[8..12] == NetBytes(user)
    ensures p[12..16] == NetBytes(room) && p[16..20] == NetBytes(count) && p[20..24] == NetBytes(0)
  {
    var h := Head(len, user, room, count);
    assert h[0..4] == NetBytes(len) && h[4..8] == NetBytes(SEND_MESSAGE) && h[8..12] == NetBytes(user);
    assert h[12..16] == NetBytes(room) && h[16..20] == NetBytes(count) && h[20..24] == NetBytes(0);
    var q := p[..PACKET_SIZE];
    assert p[0..4] == q[0..4] && p[4..8] == q[4..8] && p[8..12] == q[8..12];
    assert p[12..16] == q[12..16] && p[16..20] == q[16..20] && p[20..24] == q[20..24];
  }

  /** What lies at record i of a packet that holds ms: the i-th message, right behind the records before. */
  lemma {:induction false} HoldsAt(p: seq<Byte>, at: nat, ms: seq<ChatMessage>, i: nat)
    requires Holds(p, at, ms) && i < |ms|
    ensures RecordAt(p, at + RecordSize(ms[..i]), ms[i])
    decreases i
  {
    if i == 0 {
      assert ms[..0] == [];
    } else {
      HoldsAt(p, at + HEADER_SIZE + |ms[0].body|, ms[1..], i - 1);
      assert ms[..i][0] == ms[0] && ms[..i][1..] == ms[1..][..i - 1];
    }
  }

  lemma EncodeHolds(user: int, room: int, ms: seq<ChatMessage>)
    requires (forall m :: m in ms ==> m.Valid()) && PacketLen(ms) < 0x8000_0000
    ensures var p := Encode(user, room, ms);
      |p| == PacketLen(ms) && p[..PACKET_SIZE] == Head(PacketLen(ms), user, room, |ms|) && Holds(p, PACKET_SIZE, ms)
  {
    var p := Encode(user, room, ms);
    RecordsSize(ms);
    assert p[PACKET_SIZE..] == Records(ms);
    RecordsHold(p, PACKET_SIZE, ms);
  }

  /** Every byte of the packet is accounted for: the head gives the length, the type, the user, the room, the
      count and a zero, and record i, behind the records before it, gives the sender, the whole name, the
      length of the body and the body of message i. */
  lemma HistoryReadBack(user: int, room: int, ms: seq<ChatMessage>, i: nat)
    requires (forall m :: m in ms ==> m.Valid()) && IsInt32(room) && PacketLen(ms) < 0x8000_0000
    ensures var p := Encode(user, room, ms);
      && |p| == PacketLen(ms) == NetInt(p, 0)
      && NetInt(p, 4) == SEND_MESSAGE && Pattern(NetInt(p, 8)) == Pattern(user)
      && NetInt(p, 12) == room && NetInt(p, 16) == |ms| && NetInt(p, 20) == 0
      && (i < |ms| ==> RecordAt(p, PACKET_SIZE + RecordSize(ms[..i]), ms[i]))
  {
    var p := Encode(user, room, ms);
    EncodeHolds(user, room, ms);
    RecordsSize(ms);
    HeadFields(PacketLen(ms), user, room, |ms|, p);
    NetRoundTrip(PacketLen(ms), p, 0);
    NetRoundTrip(SEND_MESSAGE, p, 4);
    NetPattern(user, p, 8);
    NetRoundTrip(room, p, 12);
    NetRoundTrip(|ms|, p, 16);
    NetRoundTrip(0, p, 20);
    if i < |ms| {
      HoldsAt(p, PACKET_SIZE, ms, i);
    }
  }

  /** Walking an encoded packet gives back the room, the count, the senders and the bodies, in order,
      and ends at the encoded length. */
  lemma RoundTrip(user: int, room: int, ms: seq<ChatMessage>)
    requires (forall m :: m in ms ==> m.Valid()) && IsInt32(room) && PacketLen(ms) < 0x8000_0000
    ensures Parse(Encode(user, room, ms)) == Parsed(room, PacketLen(ms), Delivery(ms), PacketLen(ms))
    ensures |Encode(user, room, ms)| == PacketLen(ms)
  {
    var p := Encode(user, room, ms);
    RecordsSize(ms);
    HeadFields(PacketLen(ms), user, room, |ms|, p);
    NetRoundTrip(PacketLen(ms), p, 0);
    NetRoundTrip(room, p, 12);
    NetRoundTrip(|ms|, p, 16);
    EncodeHolds(user, room, ms);
    WalkHeld(p, PACKET_SIZE, ms);
  }

  /** A packet determines the messages it holds. */
  lemma {:induction false} HoldsOnce(p: seq<Byte>, at: nat, ms: seq<ChatMessage>, ns: seq<ChatMessage>)
    requires Holds(p, at, ms) && Holds(p, at, ns) && |ms| == |ns|
    ensures ms == ns
    decreases |ms|
  {
    if ms != [] {
      assert ms[0].body == ns[0].body;
      HoldsOnce(p, at + HEADER_SIZE + |ms[0].body|, ms[1..], ns[1..]);
      assert ms == [ms[0]] + ms[1..] && ns == [ns[0]] + ns[1..];
    }
  }

  /** Two histories with the same packet are the same messages, names included, of the same room. */
  lemma EncodeInjective(u: int, r: int, ms: seq<ChatMessage>, v: int, q: int, ns: seq<ChatMessage>)
    requires (forall m :: m in ms ==> m.Valid()) && IsInt32(r) && PacketLen(ms) < 0x8000_0000
    requires (forall m :: m in ns ==> m.Valid()) && IsInt32(q) && PacketLen(ns) < 0x8000_0000
    requires Encode(u, r, ms) == Encode(v, q, ns)
    ensures r == q && ms == ns && Pattern(u) == Pattern(v)
  {
    HistoryReadBack(u, r, ms, 0);
    HistoryReadBack(v, q, ns, 0);
    EncodeHolds(u, r, ms);
    EncodeHolds(v, q, ns);
    HoldsOnce(Encode(u, r, ms), PACKET_SIZE, ms, ns);
  }

  /** The bytes that records of these messages take. */
  function DeliveredSize(ms: seq<Delivered>): nat {
    if ms == [] then 0 else HEADER_SIZE + |ms[0].body| + DeliveredSize(ms[1..])
  }

  /** The record at `at` is where m was read: its header, and then its body. */
  ghost predicate ReadAt(p: seq<Byte>, at: nat, m: Delivered) {
    && at + HEADER_SIZE + |m.body| <= |p|
    && NetInt(p, at) == m.sender && NetInt(p, at + 4 + NAME_SIZE) == |m.body|
    && p[at + HEADER_SIZE..at + HEADER_SIZE + |m.body|] == m.body
  }

  /** The first record of an accepted walk, and the walk that follows it. */
  lemma WalkFirst(p: seq<Byte>, at: nat, n: nat) returns (m: Delivered, next: nat)
    requires n > 0 && Walk(p, at, n).Walked?
    ensures ReadAt(p, at, m) && next == at + HEADER_SIZE + |m.body| <= |p|
    ensures var rest := Walk(p, next, n - 1);
      rest.Walked? && Walk(p, at, n) == Walked([m] + rest.messages, rest.end)
  {
    next := at + HEADER_SIZE + NetInt(p, at + 4 + NAME_SIZE);
    m := Delivered(NetInt(p, at), p[at + HEADER_SIZE..next]);
  }

  /** The messages lie one behind the other from `at` on, nothing in between. */
  ghost predicate InPlace(p: seq<Byte>, at: nat, ms: seq<Delivered>)
    decreases |ms|
  {
    ms == [] || (ReadAt(p, at, ms[0]) && InPlace(p, at + HEADER_SIZE + |ms[0].body|, ms[1..]))
  }

  /** Whatever packet the walk accepts: every message was read inside it, header and then body, with
      nothing between the records, and the end is the start plus their sizes. */
  lemma {:induction false} WalkInBounds(p: seq<Byte>, at: nat, n: nat)
    requires at <= |p| && Walk(p, at, n).Walked?
    ensures var w := Walk(p, at, n);
      |w.messages| == n && w.end == at + DeliveredSize(w.messages) <= |p| && InPlace(p, at, w.messages)
    decreases n
  {
    if n > 0 {
      var m, next := WalkFirst(p, at, n);
      WalkInBounds(p, next, n - 1);
      var ms := Walk(p, at, n).messages;
      assert ms[0] == m && ms[1..] == Walk(p, next, n - 1).messages;
    }
  }

  /** ... and it accepts whatever lies so. */
  lemma {:induction false} WalkAccepts(p: seq<Byte>, at: nat, ms: seq<Delivered>)
    requires InPlace(p, at, ms)
    ensures Walk(p, at, |ms|) == Walked(ms, at + DeliveredSize(ms))
    decreases |ms|
  {
    if ms != [] {
      WalkAccepts(p, at + HEADER_SIZE + |ms[0].body|, ms[1..]);
      assert ms == [ms[0]] + ms[1..];
    }
  }

  /** The messages a packet announces; a negative count announces none. */
  function Announced(p: seq<Byte>): nat
    requires |p| >= PACKET_SIZE
  {
    if NetInt(p, 16) < 0 then 0 else NetInt(p, 16)
  }

  /** A packet is accepted if and only if it holds a head and as many messages as it announces, one behind
      the other; these are then the ones delivered, to the room in the head. Bytes behind the last are ignored. */
  lemma ParseExactly(p: seq<Byte>)
    ensures Parse(p).Parsed? <==>
      |p| >= PACKET_SIZE && exists ms :: |ms| == Announced(p) && InPlace(p, PACKET_SIZE, ms)
    ensures forall ms :: |p| >= PACKET_SIZE && |ms| == Announced(p) && InPlace(p, PACKET_SIZE, ms) ==>
      Parse(p) == Parsed(NetInt(p, 12), NetInt(p, 0), ms, PACKET_SIZE + DeliveredSize(ms))
  {
    if Parse(p).Parsed? {
      WalkInBounds(p, PACKET_SIZE, Announced(p));
    }
    forall ms | |p| >= PACKET_SIZE && |ms| == Announced(p) && InPlace(p, PACKET_SIZE, ms)
      ensures Parse(p) == Parsed(NetInt(p, 12), NetInt(p, 0), ms, PACKET_SIZE + DeliveredSize(ms))
    {
      WalkAccepts(p, PACKET_SIZE, ms);
    }
  }

  // ----- the serialiser -----

  /** memcpy to buffer + at. */
  method Copy(buffer: array<Byte>, at: nat, bytes: seq<Byte>)
    requires at + |bytes| <= buffer.Length
    modifies buffer
    ensures buffer[..] == old(buffer[..at]) + bytes + old(buffer[at + |bytes|..])
  {
    forall i | 0 <= i < |bytes| {
      buffer[at + i] := bytes[i];
    }
  }

  /** The bytes of a MessageHeader as the host keeps it. */
  function HeaderBytes(h: MessageHeader): seq<Byte> {
    HostBytes(h.SendUserID) + h.UserName + HostBytes(h.MsgLen)
  }

  ghost function Messages(headers: seq<MessageHeader>, bodies: seq<seq<Byte>>): (r: seq<ChatMessage>)
    requires |headers| == |bodies|
    ensures |r| == |headers|
    ensures forall i :: 0 <= i < |r| ==> r[i] == ChatMessage(headers[i].SendUserID, headers[i].UserName, bodies[i])
  {
    seq(|headers|, i requires 0 <= i < |headers| => ChatMessage(headers[i].SendUserID, headers[i].UserName, bodies[i]))
  }

  /** The header after the measuring pass has swapped its fields. */
  function Swapped(m: ChatMessage): MessageHeader {
    MessageHeader(Htonl(m.sender), m.name, Htonl(|m.body|))
  }

  lemma SwappedBytes(m: ChatMessage)
    requires m.Valid()
    ensures HeaderBytes(Swapped(m)) + m.body == Record(m) && |HeaderBytes(Swapped(m))| == HEADER_SIZE
  {
    SwapWrites(m.sender);
    SwapWrites(|m.body|);
  }

  lemma {:induction false} RecordSizeSplit(ms: seq<ChatMessage>, i: nat)
    requires i <= |ms|
    ensures RecordSize(ms) == RecordSize(ms[..i]) + RecordSize(ms[i..])
    ensures i < |ms| ==> RecordSize(ms[..i + 1]) == RecordSize(ms[..i]) + HEADER_SIZE + |ms[i].body|
    decreases i
  {
    if i == 0 {
      assert ms[..0] == [] && ms[0..] == ms;
      if |ms| > 0 {
        assert ms[..1] == [ms[0]] && [ms[0]][1..] == [];
      }
    } else {
      RecordSizeSplit(ms[1..], i - 1);
      assert ms[..i][1..] == ms[1..][..i - 1] && ms[1..][i - 1..] == ms[i..];
      if i < |ms| {
        assert ms[..i + 1][1..] == ms[1..][..i];
      }
    }
  }

  lemma {:induction false} RecordsSnoc(ms: seq<ChatMessage>, i: nat)
    requires i < |ms|
    ensures Records(ms[..i + 1]) == Records(ms[..i]) + Record(ms[i])
    decreases i
  {
    if i == 0 {
      assert ms[..0] == [] && ms[..1] == [ms[0]] && [ms[0]][1..] == [];
    } else {
      RecordsSnoc(ms[1..], i - 1);
      assert ms[..i + 1][1..] == ms[1..][..i] && ms[..i][1..] == ms[1..][..i - 1];
    }
  }

  /** The message branch of RequireRoomInfoController: headers are swapped in place while the total is
      measured, then everything is copied at a moving offset. No packet for an empty history. */
  method BuildHistory(userID: int, roomId: int, headers: array<MessageHeader>, bodies: seq<seq<Byte>>)
    returns (buffer: array?<Byte>, sent: nat)
    requires headers.Length == |bodies|
    requires forall i :: 0 <= i < headers.Length ==>
      IsInt32(headers[i].SendUserID) && |headers[i].UserName| == NAME_SIZE
    requires PacketLen(Messages(headers[..], bodies)) < 0x8000_0000
    modifies headers
    ensures buffer == null <==> |bodies| == 0
    ensures buffer != null ==> fresh(buffer) && sent == buffer.Length == PacketLen(Messages(old(headers[..]), bodies))
    ensures buffer != null ==> buffer[..] == Encode(userID, roomId, Messages(old(headers[..]), bodies))
    ensures forall i :: 0 <= i < headers.Length ==> headers[i] == Swapped(Messages(old(headers[..]), bodies)[i])
  {
    if headers.Length == 0 {
      return null, 0;
    }
    ghost var ms := Messages(headers[..], bodies);
    var n := headers.Length;
    var totalPacketSize := PACKET_SIZE + n * HEADER_SIZE;
    var i := 0;
    assert ms[..0] == [];
    while i < n
      invariant 0 <= i <= n == |ms|
      invariant totalPacketSize == PACKET_SIZE + RecordSize(ms[..i]) + (n - i) * HEADER_SIZE
      invariant forall j :: 0 <= j < n ==> headers[j] == if j < i then Swapped(ms[j]) else old(headers[j])
    {
      RecordSizeSplit(ms, i);
      totalPacketSize := totalPacketSize + |bodies[i]|;
      headers[i] := headers[i].(MsgLen := Htonl(|bodies[i]|));
      headers[i] := headers[i].(SendUserID := Htonl(headers[i].SendUserID));
      i := i + 1;
    }
    assert ms[..n] == ms;
    buffer := new Byte[totalPacketSize](_ => 0);
    sent := Fill(buffer, HostHead(totalPacketSize, userID, roomId, n), headers, bodies, ms);
    HostHeadBytes(totalPacketSize, userID, roomId, n);
  }

  /** The packet structure with every field passed through htonl, as the host stores it. */
  function HostHead(len: int, user: int, room: int, count: int): (r: seq<Byte>)
    ensures |r| == PACKET_SIZE
  {
    HostBytes(Htonl(len)) + HostBytes(Htonl(SEND_MESSAGE)) + HostBytes(Htonl(user))
    + HostBytes(Htonl(room)) + HostBytes(Htonl(count)) + HostBytes(0)
  }

  lemma HostHeadBytes(len: int, user: int, room: int, count: int)
    ensures HostHead(len, user, room, count) == Head(len, user, room, count)
  {
    SwapWrites(len);
    SwapWrites(SEND_MESSAGE);
    SwapWrites(user);
    SwapWrites(room);
    SwapWrites(count);
    assert ToLE(0, 4) == NetBytes(0);
  }

  lemma FillBound(ms: seq<ChatMessage>, i: nat)
    requires i < |ms|
    ensures RecordSize(ms[..i]) + HEADER_SIZE + |ms[i].body| == RecordSize(ms[..i + 1]) <= RecordSize(ms)
  {
    RecordSizeSplit(ms, i);
    RecordSizeSplit(ms, i + 1);
  }

  lemma Regroup(a: seq<Byte>, b: seq<Byte>, c: seq<Byte>)
    ensures (a + b) + c == a + (b + c)
  {
  }

  /** One turn of the filling loop: a header and its body, at the moving offset. */
  method CopyRecord(buffer: array<Byte>, at: nat, header: seq<Byte>, body: seq<Byte>) returns (offset: nat)
    requires |header| == HEADER_SIZE && at + HEADER_SIZE + |body| <= buffer.Length
    modifies buffer
    ensures offset == at + HEADER_SIZE + |body|
    ensures buffer[..offset] == old(buffer[..at]) + (header + body)
  {
    offset := at;
    Copy(buffer, offset, header);
    offset := offset + HEADER_SIZE;
    Copy(buffer, offset, body);
    offset := offset + |body|;
  }

  /** The filling pass: its final offset is the length the measuring pass found. */
  method Fill(buffer: array<Byte>, head: seq<Byte>, headers: array<MessageHeader>, bodies: seq<seq<Byte>>,
              ghost ms: seq<ChatMessage>)
    returns (offset: nat)
    requires |head| == PACKET_SIZE && headers.Length == |bodies| == |ms| && buffer.Length == PacketLen(ms)
    requires forall i :: 0 <= i < |ms| ==> ms[i].Valid() && ms[i].body == bodies[i] && headers[i] == Swapped(ms[i])
    modifies buffer
    ensures offset == buffer.Length && buffer[..] == head + Records(ms)
  {
    Copy(buffer, 0, head);
    offset := PACKET_SIZE;
    assert ms[..0] == [];
    var i := 0;
    while i < |bodies|
      invariant 0 <= i <= |bodies|
      invariant offset == PACKET_SIZE + RecordSize(ms[..i]) <= buffer.Length
      invariant buffer[..offset] == head + Records(ms[..i])
      invariant forall j :: 0 <= j < |ms| ==> headers[j] == Swapped(ms[j])
    {
      SwappedBytes(ms[i]);
      FillBound(ms, i);
      RecordsSnoc(ms, i);
      offset := CopyRecord(buffer, offset, HeaderBytes(headers[i]), bodies[i]);
      Regroup(head, Records(ms[..i]), Record(ms[i]));
      i := i + 1;
    }
    assert ms[..|bodies|] == ms;
    assert buffer[..] == buffer[..offset];
  }

  // ----- the parser -----

  /** A field of the packet: the host's integer at that place, passed through ntohl. */
  method Field(packet: seq<Byte>, at: nat) returns (x: int)
    requires at + 4 <= |packet|
    ensures x == NetInt(packet, at)
  {
    SwapReads(packet, at);
    x := Htonl(HostInt(packet[at..at + 4]));
  }

  /** SendMessageController's loop; `delivered` lists its calls to InsertMessage. Where the source
      would read past the packet or ask for a negative buffer, the result says malformed. */
  method OnSendMessage(packet: seq<Byte>)
    returns (malformed: bool, roomID: int, packetLen: int, delivered: seq<Delivered>, currentLen: nat)
    ensures malformed <==> Parse(packet).Rejected?
    ensures !malformed ==> Parse(packet) == Parsed(roomID, packetLen, delivered, currentLen)
  {
    roomID, packetLen, delivered, currentLen := 0, 0, [], PACKET_SIZE;
    malformed := |packet| < PACKET_SIZE;
    if malformed {
      return;
    }
    roomID := Field(packet, 12);
    packetLen := Field(packet, 0);
    var count := Field(packet, 16);
    var i := 0;
    ghost var n := if count < 0 then 0 else count;
    ghost var whole := Walk(packet, PACKET_SIZE, n);
    ghost var left, todo := n, whole;
    AfterNothing(whole);
    while i < count
      invariant 0 <= i <= n && left == n - i && !malformed
      invariant todo == Walk(packet, currentLen, left) && whole == After(delivered, todo)
    {
      if currentLen + HEADER_SIZE > |packet| {
        malformed := true;
        return;
      }
      var header := currentLen;
      currentLen := currentLen + HEADER_SIZE;
      var msgLen := Field(packet, header + 4 + NAME_SIZE);
      var userID := Field(packet, header);
      if msgLen < 0 || currentLen + msgLen > |packet| {
        malformed := true;
        return;
      }
      var buffer := packet[currentLen..currentLen + msgLen];
      currentLen := currentLen + msgLen;
      left := left - 1;
      todo := Advance(packet, whole, delivered, header, currentLen, left, Delivered(userID, buffer), todo);
      delivered := delivered + [Delivered(userID, buffer)];
      i := i + 1;
    }
    assert delivered + [] == delivered;
  }

  /** One turn of the parser's loop. */
  lemma Advance(p: seq<Byte>, whole: Walked, ms: seq<Delivered>, at: nat, next: nat, k: nat, m: Delivered, todo: Walked)
    returns (rest: Walked)
    requires at + HEADER_SIZE <= next <= |p| && next == at + HEADER_SIZE + NetInt(p, at + 4 + NAME_SIZE)
    requires m == Delivered(NetInt(p, at), p[at + HEADER_SIZE..next])
    requires todo == Walk(p, at, k + 1) && whole == After(ms, todo)
    ensures rest == Walk(p, next, k) && whole == After(ms + [m], rest)
  {
    rest := Walk(p, next, k);
    AfterTwice(ms, [m], rest);
  }

  lemma AfterTwice(ms: seq<Delivered>, ns: seq<Delivered>, w: Walked)
    ensures After(ms + ns, w) == After(ms, After(ns, w))
  {
    if w.Walked? {
      assert (ms + ns) + w.messages == ms + (ns + w.messages);
    }
  }

  lemma AfterNothing(w: Walked)
    ensures After([], w) == w
  {
    if w.Walked? {
      assert [] + w.messages == w.messages;
    }
  }
}
