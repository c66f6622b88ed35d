/** PoolingManager: the pools of one packet type, made on the first request. */
module PoolingManagers {
  import opened Bytes
  import opened Memory
  import opened Options
  import opened Slicing
  import opened SlabStore
  import opened SlabSolo
  import opened SlabTheorems
  import opened SlabPools
  import opened PacketSizes

  /** The store with which threads find a pool made on the region r. */
  ghost function FirstStore(c: Config, ram: seq<Byte>, r: nat): Store
    requires c.Positive()
  {
    StartUp(c, ram, r, 0).store
  }

  class PoolingManager {
    const TypeSize: nat
    const ram: array<Byte>
    var ObjectManager: ObjectPool?

    ghost function Geometry(): Config {
      Config(POOL_SIZE, POOL_GROUP, TypeSize)
    }

    ghost function Pools(): set<object>
      reads this
    {
      if ObjectManager == null then {} else {ObjectManager, ObjectManager.MemoryPool}
    }

    ghost predicate Valid()
      reads this, Pools(), ram
    {
      && ram.Length <= Pow256(LINK) && TypeSize > 0
      && (ObjectManager != null ==>
            && TypeSize % ALIGN == 0 && ObjectManager.MemoryPool.ram == ram && ObjectManager.Geometry() == Geometry()
            && (Geometry().Valid() ==> ObjectManager.Valid()))
    }

    constructor (typeSize: nat, ram: array<Byte>)
      requires ram.Length <= Pow256(LINK) && typeSize > 0
      ensures TypeSize == typeSize && this.ram == ram && ObjectManager == null && Valid()
    {
      TypeSize := typeSize;
      this.ram := ram;
      ObjectManager := null;
    }

    /** CreateObjectPoolManager; the result is false where the source exits. */
    method CreateObjectPoolManager(region: nat) returns (created: bool)
      requires Valid() && ObjectManager == null
      requires 0 < region && region % ALIGN == 0 && region + POOL_SIZE <= ram.Length
      modifies this, ram
      ensures Valid() && (created <==> TypeSize % ALIGN == 0)
      ensures created ==> ObjectManager != null && fresh(Pools()) && ObjectManager.Used == map[]
      ensures created ==> ObjectManager.View() == FirstStore(Geometry(), old(ram[..]), region)
      ensures created ==> ObjectManager.MemoryPool.UnAllocateMemory != []
      ensures !created ==> ObjectManager == null
    {
      if TypeSize % ALIGN != 0 {
        return false;
      }
      var memoryPooling := FirstMemoryPool(Geometry(), ram, region);
      ObjectManager := FirstObjectPool(Geometry(), TypeSize, memoryPooling);
      return true;
    }

    /** GenerateObject; None where the source exits. The region is what the system grants, should
        this call need memory. The objects must fill their group. */
    method GenerateObject(region: nat) returns (result: Option<nat>)
      requires Valid() && (TypeSize % ALIGN == 0 ==> Geometry().Valid())
      requires ObjectManager == null ==> 0 < region && region % ALIGN == 0 && region + POOL_SIZE <= ram.Length
      requires ObjectManager != null && ObjectManager.MemoryPool.UnAllocateMemory == [] ==>
        Granted(Geometry(), ObjectManager.View(), region)
      modifies this, Pools(), ram
      ensures Valid()
      ensures result.None? <==> old(ObjectManager) == null && TypeSize % ALIGN != 0
      ensures old(ObjectManager) != null ==> ObjectManager == old(ObjectManager)
      ensures result.Some? ==> ObjectManager != null && result.value != 0
      ensures result.Some? && old(ObjectManager) == null ==>
        && fresh(Pools()) && ObjectManager.Used == map[result.value := 0]
        && (ObjectManager.View(), result.value)
           == AllocateAlone(Geometry(), FirstStore(Geometry(), old(ram[..]), region), region)
      ensures result.Some? && old(ObjectManager) != null ==>
        && result.value !in old(ObjectManager.Used)
        && ObjectManager.Used == old(ObjectManager.Used)[result.value := 0]
        && (ObjectManager.View(), result.value) == AllocateAlone(Geometry(), old(ObjectManager.View()), region)
    {
      if ObjectManager == null {
        var created := CreateObjectPoolManager(region);
        if !created {
          return None;
        }
      }
      var element := AllocateFromPool(region);
      return Some(element);
    }

    method AllocateFromPool(region: nat) returns (element: nat)
      requires Valid() && ObjectManager != null && Geometry().Valid()
      requires ObjectManager.MemoryPool.UnAllocateMemory == [] ==>
        Granted(Geometry(), ObjectManager.View(), region)
      modifies ObjectManager, ObjectManager.MemoryPool, ram
      ensures Valid() && element != 0 && element !in old(ObjectManager.Used)
      ensures ObjectManager.Used == old(ObjectManager.Used)[element := 0]
      ensures (ObjectManager.View(), element) == AllocateAlone(Geometry(), old(ObjectManager.View()), region)
    {
      element := ObjectManager.AllocateObject(region);
    }

    /** FreeObject: the caller's pointer is nulled. */
    method FreeObject(obj: nat) returns (pointer: nat)
      requires Valid() && ObjectManager != null && Geometry().Valid() && obj in ObjectManager.Used
      modifies ObjectManager, ram
      ensures Valid() && pointer == 0
      ensures ObjectManager.Used == old(ObjectManager.Used) - {obj}
      ensures ObjectManager.View() == FreeAlone(Geometry(), old(ObjectManager.View()), obj)
    {
      pointer := ObjectManager.FreeObject(obj);
    }
  }

  /** CreateMemoryPool. */
  method FirstMemoryPool(ghost c: Config, ram: array<Byte>, region: nat) returns (pool: MemoryPool)
    requires c.Aligned() && c.size == POOL_SIZE && c.group == POOL_GROUP && ram.Length <= Pow256(LINK)
    requires 0 < region && region % ALIGN == 0 && region + POOL_SIZE <= ram.Length
    modifies ram
    ensures fresh(pool) && pool.ram == ram && pool.Fits(c)
    ensures Opening(c, pool.Snapshot())
    ensures pool.Snapshot() == AddRegion(c, Store(old(ram[..]), 0, 0, [], [], []), region)
  {
    pool := new MemoryPool(POOL_SIZE, POOL_GROUP, ram, region);
    ghost var start := Store(old(ram[..]), 0, 0, [], [], []);
    assert pool.Fits(c);
    FirstRegion(c, start, region);
    SpareGroups(c, start, region);
  }

  /** CreateObjectPool. */
  method FirstObjectPool(ghost c: Config, typeSize: nat, pool: MemoryPool) returns (objects: ObjectPool)
    requires c.Aligned() && pool.Fits(c) && typeSize == c.slot && Opening(c, pool.Snapshot())
    modifies pool, pool.ram
    ensures fresh(objects) && objects.MemoryPool == pool && objects.Geometry() == c
    ensures c.Valid() ==> objects.Valid()
    ensures objects.Used == map[] && pool.UnAllocateMemory != []
    ensures objects.View() == Grow(c, old(pool.Snapshot()), 0)
  {
    objects := new ObjectPool(typeSize, pool);
  }

  /** The store of a MemoryPool just made: what the ObjectPool constructor asks for. */
  ghost predicate Opening(c: Config, s: Store)
    requires c.Positive()
  {
    && Layout(c, s) && |s.regions| == 1 && s.heads == []
    && (forall g :: g in s.queue ==> IsZero(s.mem, g, c.group))
    && Grow(c, s, 0).queue != []
  }

  /** The first object pool leaves groups on the queue. */
  lemma SpareGroups(c: Config, s: Store, r: nat)
    requires c.Aligned() && |s.mem| <= Pow256(LINK) && s == Store(s.mem, 0, 0, [], [], [])
    requires 0 < r && r % ALIGN == 0 && r + c.size <= |s.mem| && c.group < c.size
    ensures Grow(c, AddRegion(c, s, r), 0).queue != []
  {
    var t := AddRegion(c, s, r);
    FirstRegion(c, s, r);
    SliceCount(r, 0, c.size, c.group);
    MoreThanOne(c.size, c.group);
    GrowQueue(c, t, 0);
  }

  lemma MoreThanOne(a: nat, b: nat)
    requires 0 < b < a
    ensures CeilDiv(a, b) > 1
  {
    var n, q := a + b - 1, CeilDiv(a, b);
    assert n == q * b + n % b;
    if q <= 1 {
      MulMonotone(q, 1, b);
    }
  }

  /** Growing takes the oldest group off the queue. */
  lemma GrowQueue(c: Config, s: Store, r: nat)
    requires c.Aligned() && Layout(c, s) && s.queue != []
    ensures Grow(c, s, r).queue == s.queue[1..]
  {
    LayoutCarve(c, s, r);
    var (t, g) := Carve(c, s, r);
    PushAllKeeps(t, Slices(g, 0, c.group, c.slot));
  }
}
