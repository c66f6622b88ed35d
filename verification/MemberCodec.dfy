/** The room-members packet: a head in network order, then the member structures as the host keeps
    them in memory. */
module MemberCodec {
  import opened Bytes
  import opened MessageCodec

  /** sizeof RoomMember, packed. */
  const MEMBER_SIZE: nat := 4 + NAME_SIZE

  const ENTRY_MEMBER: nat := 13

  datatype RoomMember = RoomMember(userID: int, userName: seq<Byte>) {
    ghost predicate Valid() {
      IsInt32(userID) && |userName| == NAME_SIZE
    }
  }

  function MemberBytes(m: RoomMember): seq<Byte> {
    HostBytes(m.userID) + m.userName
  }

  /** What the vector's data() points to. */
  function MemberArray(ms: seq<RoomMember>): seq<Byte> {
    if ms == [] then [] else MemberBytes(ms[0]) + MemberArray(ms[1..])
  }

  /** PacketLen, PacketType, UserLocalId, RoomID, MemberCount and RoomMemberLen. */
  function MembersHead(len: int, user: int, room: int, count: int): (r: seq<Byte>)
    ensures |r| == PACKET_SIZE
  {
    NetBytes(len) + NetBytes(ENTRY_MEMBER) + NetBytes(user) + NetBytes(room) + NetBytes(count) + NetBytes(MEMBER_SIZE)
  }

  function MembersLen(ms: seq<RoomMember>): nat {
    PACKET_SIZE + MEMBER_SIZE * |ms|
  }

  function EncodeMembers(user: int, room: int, ms: seq<RoomMember>): seq<Byte> {
    MembersHead(MembersLen(ms), user, room, |ms|) + MemberArray(ms)
  }

  ghost predicate AllValid(ms: seq<RoomMember>) {
    forall i :: 0 <= i < |ms| ==> ms[i].Valid()
  }

  /** Where member k starts. */
  function MemberOffset(k: nat): nat {
    PACKET_SIZE + MEMBER_SIZE * k
  }

  lemma {:induction false} MemberArrayLength(ms: seq<RoomMember>)
    requires AllValid(ms)
    ensures |MemberArray(ms)| == MEMBER_SIZE * |ms|
  {
    if ms != [] {
      MemberArrayLength(ms[1..]);
    }
  }

  lemma {:induction false} MemberAt(ms: seq<RoomMember>, k: nat)
    requires AllValid(ms) && k < |ms|
    ensures MEMBER_SIZE * k + MEMBER_SIZE <= |MemberArray(ms)|
    ensures MemberArray(ms)[MEMBER_SIZE * k..MEMBER_SIZE * k + MEMBER_SIZE] == MemberBytes(ms[k])
  {
    MemberArrayLength(ms);
    var rest := MemberArray(ms[1..]);
    if k > 0 {
      MemberAt(ms[1..], k - 1);
      var at := MEMBER_SIZE * (k - 1);
      assert MemberArray(ms)[MEMBER_SIZE + at..MEMBER_SIZE + at + MEMBER_SIZE] == rest[at..at + MEMBER_SIZE];
    }
  }

  /** Every byte of the packet is accounted for: the head gives the length, the type, the user, the room,
      the count and the size of an entry, and entry k is at its offset, its id in the host's byte order. */
  lemma MembersReadBack(user: int, room: int, ms: seq<RoomMember>, k: nat)
    requires AllValid(ms) && IsInt32(room) && MembersLen(ms) < 0x8000_0000
    ensures var p := EncodeMembers(user, room, ms);
      && |p| == MembersLen(ms) == NetInt(p, 0)
      && NetInt(p, 4) == ENTRY_MEMBER && Pattern(NetInt(p, 8)) == Pattern(user)
      && NetInt(p, 12) == room && NetInt(p, 16) == |ms| && NetInt(p, 20) == MEMBER_SIZE
      && (k < |ms| ==>
            && MemberOffset(k) + MEMBER_SIZE <= |p|
            && HostInt(p[MemberOffset(k)..MemberOffset(k) + 4]) == ms[k].userID
            && p[MemberOffset(k) + 4..MemberOffset(k) + MEMBER_SIZE] == ms[k].userName)
  {
    var p := EncodeMembers(user, room, ms);
    MemberArrayLength(ms);
    MembersHeadFields(MembersLen(ms), user, room, |ms|, p);
    NetRoundTrip(MembersLen(ms), p, 0);
    NetRoundTrip(ENTRY_MEMBER, p, 4);
    NetPattern(user, p, 8);
    NetRoundTrip(room, p, 12);
    NetRoundTrip(|ms|, p, 16);
    NetRoundTrip(MEMBER_SIZE, p, 20);
    if k < |ms| {
      EntryFields(user, room, ms, k);
      HostRoundTrip(ms[k].userID);
    }
  }

  lemma MembersHeadFields(len: int, user: int, room: int, count: int, p: seq<Byte>)
    requires |p| >= PACKET_SIZE && p[..PACKET_SIZE] == MembersHead(len, user, room, count)
    ensures p[0..4] == NetBytes(len) && p[4..8] == NetBytes(ENTRY_MEMBER) && p[8..12] == NetBytes(user)
    ensures p[12..16] == NetBytes(room)
    ensures p[16..20] == NetBytes(count) && p[20..24] == NetBytes(MEMBER_SIZE)
  {
    var h := MembersHead(len, user, room, count);
    assert h[0..4] == NetBytes(len) && h[4..8] == NetBytes(ENTRY_MEMBER) && h[8..12] == NetBytes(user);
    assert h[12..16] == NetBytes(room);
    assert h[16..20] == NetBytes(count) && h[20..24] == NetBytes(MEMBER_SIZE);
    var q := p[..PACKET_SIZE];
    assert p[0..4] == q[0..4] && p[4..8] == q[4..8] && p[8..12] == q[8..12];
    assert p[12..16] == q[12..16] && p[16..20] == q[16..20] && p[20..24] == q[20..24];
  }

  lemma EntryFields(user: int, room: int, ms: seq<RoomMember>, k: nat)
    requires AllValid(ms) && k < |ms|
    ensures var p := EncodeMembers(user, room, ms);
      && MemberOffset(k) + MEMBER_SIZE <= |p|
      && p[MemberOffset(k)..MemberOffset(k) + 4] == HostBytes(ms[k].userID)
      && p[MemberOffset(k) + 4..MemberOffset(k) + MEMBER_SIZE] == ms[k].userName
  {
    var p, a, at := EncodeMembers(user, room, ms), MemberArray(ms), MEMBER_SIZE * k;
    MemberAt(ms, k);
    var entry := p[MemberOffset(k)..MemberOffset(k) + MEMBER_SIZE];
    assert entry == a[at..at + MEMBER_SIZE];
    assert entry[..4] == HostBytes(ms[k].userID) && entry[4..] == ms[k].userName;
    assert p[MemberOffset(k)..MemberOffset(k) + 4] == entry[..4];
    assert p[MemberOffset(k) + 4..MemberOffset(k) + MEMBER_SIZE] == entry[4..];
  }

  /** Unlike the head's fields and the history's sender ids, member ids are not swapped: read in
      network order, an id comes back exactly when its four bytes read the same both ways. */
  lemma MemberIdOrder(user: int, room: int, ms: seq<RoomMember>, k: nat)
    requires AllValid(ms) && k < |ms|
    ensures var p := EncodeMembers(user, room, ms);
      && MemberOffset(k) + 4 <= |p|
      && (NetInt(p, MemberOffset(k)) == ms[k].userID <==> Reverse(HostBytes(ms[k].userID)) == HostBytes(ms[k].userID))
  {
    var p, id := EncodeMembers(user, room, ms), ms[k].userID;
    EntryFields(user, room, ms, k);
    SwapReads(p, MemberOffset(k));
    HostRoundTrip(id);
    HostBytesOfInt(Reverse(HostBytes(id)));
  }

  /** The packet structure with every field passed through htonl, as the host stores it. */
  function MembersHostHead(len: int, user: int, room: int, count: int): (r: seq<Byte>)
    ensures |r| == PACKET_SIZE
  {
    HostBytes(Htonl(len)) + HostBytes(Htonl(ENTRY_MEMBER)) + HostBytes(Htonl(user))
    + HostBytes(Htonl(room)) + HostBytes(Htonl(count)) + HostBytes(Htonl(MEMBER_SIZE))
  }

  lemma MembersHostHeadBytes(len: int, user: int, room: int, count: int)
    ensures MembersHostHead(len, user, room, count) == MembersHead(len, user, room, count)
  {
    SwapWrites(len);
    SwapWrites(ENTRY_MEMBER);
    SwapWrites(user);
    SwapWrites(room);
    SwapWrites(count);
    SwapWrites(MEMBER_SIZE);
  }

  /** The members branch of RequireRoomInfoController; an empty list is sent too. */
  method BuildMembers(userID: int, roomId: int, roomMembers: seq<RoomMember>) returns (buffer: array<Byte>)
    requires AllValid(roomMembers) && MembersLen(roomMembers) < 0x8000_0000
    ensures fresh(buffer) && buffer[..] == EncodeMembers(userID, roomId, roomMembers)
  {
    var n := |roomMembers|;
    var totalPacketSize := PACKET_SIZE + MEMBER_SIZE * n;
    var head := MembersHostHead(totalPacketSize, userID, roomId, n);
    var entries := MemberArray(roomMembers);
    MembersHostHeadBytes(totalPacketSize, userID, roomId, n);
    MemberArrayLength(roomMembers);
    buffer := new Byte[totalPacketSize](_ => 0);
    CopyBoth(buffer, head, entries);
  }

  method CopyBoth(buffer: array<Byte>, head: seq<Byte>, entries: seq<Byte>)
    requires buffer.Length == |head| + |entries|
    modifies buffer
    ensures buffer[..] == head + entries
  {
    Copy(buffer, 0, head);
    Copy(buffer, |head|, entries);
  }
}
