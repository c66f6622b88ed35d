/** The packet types that go through the pools, and which of them fit the 1024-byte groups. */
module PacketSizes {
  import opened Bytes
  import opened Memory
  import opened Slicing
  import opened SlabOverlap
  import opened SlabStore
  import opened SlabStray
  import opened SlabTheorems

  datatype Packet =
    | HEADER | ENTRY_SERVER | LOGIN | JOIN | SEND_MESSAGE | RESULT | LOGOUT | EXIT_CLIENT | CREATE_ROOM
    | SEND_ROOM | ENTRY_ROOM_COMPARE | ENTRY_ROOM | EXIT_ROOM | ENTRY_MEMBER | EXIT_MEMBER | REQUIRE_ROOM_INFO

  /** PacketLen, PacketType and UserLocalId, packed. */
  const HEADER_SIZE: nat := 12

  /** sizeof the packed structure. */
  function PackedSize(p: Packet): nat {
    match p
    case HEADER | ENTRY_SERVER | LOGOUT | EXIT_CLIENT => HEADER_SIZE
    case LOGIN => HEADER_SIZE + 64 + 64
    case JOIN => HEADER_SIZE + 64 + 64 + 64
    case SEND_MESSAGE | ENTRY_MEMBER | EXIT_MEMBER => HEADER_SIZE + 4 + 4 + 4
    case RESULT => HEADER_SIZE + 4 + 4 + 256
    case CREATE_ROOM => HEADER_SIZE + 256 + 256
    case SEND_ROOM => HEADER_SIZE + 4 + 4
    case ENTRY_ROOM_COMPARE | EXIT_ROOM | REQUIRE_ROOM_INFO => HEADER_SIZE + 4
    case ENTRY_ROOM => HEADER_SIZE + 4 + 256
  }

  /** sizeof PoolingObject: alignas(16) rounds the size up. */
  function PooledSize(p: Packet): nat {
    CeilDiv(PackedSize(p), ALIGN) * ALIGN
  }

  const POOL_SIZE: nat := 1024 * 1024
  const POOL_GROUP: nat := 1024

  function PoolOf(p: Packet): Config {
    Config(POOL_SIZE, POOL_GROUP, PooledSize(p))
  }

  predicate Divides(p: Packet) {
    p !in {LOGIN, JOIN, RESULT, CREATE_ROOM, ENTRY_ROOM}
  }

  lemma PooledSizes(p: Packet)
    ensures PooledSize(p) == match p
      case LOGIN => 144 case JOIN => 208 case RESULT => 288 case CREATE_ROOM => 528 case ENTRY_ROOM => 272
      case SEND_MESSAGE | ENTRY_MEMBER | EXIT_MEMBER | SEND_ROOM => 32
      case _ => 16
  {
  }

  /** Every pooled packet passes CreateObjectPoolManager's 16-byte check, but the sizes of five do not
      divide the group; their last slot overhangs it by the number of bytes given. */
  lemma WhichPacketsDivide(p: Packet)
    ensures PoolOf(p).Aligned() && (PoolOf(p).Valid() <==> Divides(p))
    ensures CeilDiv(POOL_GROUP, PooledSize(p)) * PooledSize(p) - POOL_GROUP
      == match p
        case LOGIN => 128 case JOIN => 16 case RESULT => 128 case CREATE_ROOM => 32 case ENTRY_ROOM => 64 case _ => 0
  {
    PooledSizes(p);
  }

  /** For exactly those five, slots of one region share bytes, and one of them leaves the region. */
  lemma WhichPacketsFit(p: Packet, region: nat)
    ensures var slots := Cut(Slices(region, 0, POOL_SIZE, POOL_GROUP), POOL_GROUP, PooledSize(p));
      && (Apart(slots, PooledSize(p)) <==> Divides(p))
      && ((forall x :: x in slots ==> x + PooledSize(p) <= region + POOL_SIZE) <==> Divides(p))
  {
    WhichPacketsDivide(p);
    SlotsApartExactly(region, POOL_SIZE, POOL_GROUP, PooledSize(p));
    SlotsInsideExactly(region, POOL_SIZE, POOL_GROUP, PooledSize(p));
  }

  /** ... and for exactly those five the server can hold two packets that overwrite one another. */
  lemma WhichPacketsOverlap(p: Packet)
    ensures (exists s :: Reachable(PoolOf(p), s) && Overlapping(PoolOf(p), s)) <==> !Divides(p)
  {
    WhichPacketsDivide(p);
    BigEnough();
    OverlapExactly(PoolOf(p));
  }

  /** ... and for exactly those five it can be handed a packet at an address that is no slot at all. */
  lemma WhichPacketsStray(p: Packet)
    ensures (exists s :: Reachable(PoolOf(p), s) && Stray(PoolOf(p), s)) <==> !Divides(p)
  {
    WhichPacketsDivide(p);
    BigEnough();
    StrayExactly(PoolOf(p));
  }

  lemma BigEnough()
    ensures ALIGN + 2 * POOL_SIZE <= Pow256(LINK)
  {
    assert Pow256(4) == 256 * Pow256(3) == 256 * (256 * Pow256(2)) == 0x1_0000_0000;
    assert Pow256(8) >= Pow256(7) >= Pow256(6) >= Pow256(5) >= Pow256(4);
  }
}
