/** MemoryPool and ObjectPool as objects that update their fields and memory in place. Addresses are
    indices of `ram`; the region an operation may have to ask the system for is a parameter. */
module SlabPools {
  import opened Bytes
  import opened Memory
  import opened Slicing
  import opened SlabStore
  import opened SlabSystem
  import opened SlabSolo

  class MemoryPool {
    const Size: nat
    const GroupSize: nat
    const ram: array<Byte>
    var Memories: seq<nat>
    var UnAllocateMemory: seq<nat>

    /** The pool's part of the store. */
    ghost function Snapshot(): Store
      reads this, ram
    {
      Store(ram[..], 0, 0, Memories, UnAllocateMemory, [])
    }

    ghost predicate Fits(c: Config) {
      c.size == Size && c.group == GroupSize && GroupSize > 0
    }

    constructor (size: nat, groupSize: nat, ram: array<Byte>, region: nat)
      requires 0 < groupSize && region + size <= ram.Length
      modifies ram
      ensures this.Size == size && this.GroupSize == groupSize && this.ram == ram
      ensures forall c: Config :: Fits(c) ==>
        Snapshot() == AddRegion(c, Store(old(ram[..]), 0, 0, [], [], []), region)
    {
      this.Size := size;
      this.GroupSize := groupSize;
      this.ram := ram;
      Memories := [];
      UnAllocateMemory := [];
      new;
      var memory := CreateMemory(region);
      Memories := Memories + [memory];
    }

    method CreateMemory(region: nat) returns (memory: nat)
      requires 0 < GroupSize && region + Size <= ram.Length
      modifies this`UnAllocateMemory, ram
      ensures memory == region
      ensures ram[..] == Zeroed(old(ram[..]), region, Size)
      ensures UnAllocateMemory == old(UnAllocateMemory) + Slices(region, 0, Size, GroupSize)
    {
      memory := region;
      Memset(ram, memory, Size);
      var index := 0;
      while index < Size
        invariant ram[..] == Zeroed(old(ram[..]), region, Size)
        invariant UnAllocateMemory + Slices(region, index, Size, GroupSize)
          == old(UnAllocateMemory) + Slices(region, 0, Size, GroupSize)
      {
        UnAllocateMemory := UnAllocateMemory + [memory + index];
        index := index + GroupSize;
      }
    }

    method Allocate(region: nat) returns (memory: nat)
      requires 0 < GroupSize && 0 < Size
      requires UnAllocateMemory == [] ==> region + Size <= ram.Length
      modifies this`Memories, this`UnAllocateMemory, ram
      ensures forall c: Config :: Fits(c) ==> (Snapshot(), memory) == TakeGroup(c, old(Snapshot()), region)
    {
      if |UnAllocateMemory| == 0 {
        var created := CreateMemory(region);
        Memories := Memories + [created];
      }
      memory := UnAllocateMemory[0];
      UnAllocateMemory := UnAllocateMemory[1..];
    }

    /** The caller's pointer is nulled: the result replaces it. */
    method Free(memory: nat) returns (pointer: nat)
      requires memory + GroupSize <= ram.Length
      modifies this`UnAllocateMemory, ram
      ensures pointer == 0
      ensures forall c: Config :: Fits(c) ==> Snapshot() == ReturnGroup(c, old(Snapshot()), memory)
    {
      Memset(ram, memory, GroupSize);
      pointer := 0;
      UnAllocateMemory := UnAllocateMemory + [memory];
    }
  }

  method Memset(ram: array<Byte>, a: nat, len: nat)
    requires a + len <= ram.Length
    modifies ram
    ensures ram[..] == Zeroed(old(ram[..]), a, len)
  {
    forall i | a <= i < a + len {
      ram[i] := 0;
    }
  }

  class ObjectPool {
    const TypeSize: nat
    const MemoryPool: MemoryPool
    var HeadMemory: seq<nat>
    var ListTop: nat
    var ListDepth: nat

    /** The objects handed out and not yet freed. */
    ghost var Used: map<nat, nat>

    ghost function Geometry(): Config {
      Config(MemoryPool.Size, MemoryPool.GroupSize, TypeSize)
    }

    ghost function View(): Store
      reads this, MemoryPool, MemoryPool.ram
    {
      MemoryPool.Snapshot().(top := ListTop, depth := ListDepth, heads := HeadMemory)
    }

    ghost predicate Valid()
      reads this, MemoryPool, MemoryPool.ram
    {
      Geometry().Valid() && Sound(Geometry(), View(), Used)
    }

    /** The constructor takes a pool just made, and ends with one group on the list; the pool is sound
        if the objects fill their group. */
    constructor (typeSize: nat, pool: MemoryPool)
      requires Config(pool.Size, pool.GroupSize, typeSize).Aligned()
      requires Layout(Config(pool.Size, pool.GroupSize, typeSize), pool.Snapshot())
      requires |pool.Memories| == 1
      requires forall g :: g in pool.UnAllocateMemory ==> IsZero(pool.ram[..], g, pool.GroupSize)
      modifies pool, pool.ram
      ensures TypeSize == typeSize && MemoryPool == pool && Used == map[]
      ensures Geometry().Valid() ==> Valid()
      ensures View() == Grow(Geometry(), old(pool.Snapshot()), 0)
    {
      TypeSize := typeSize;
      MemoryPool := pool;
      HeadMemory := [];
      ListTop := 0;
      ListDepth := 0;
      Used := map[];
      new;
      assert View() == old(pool.Snapshot());
      ghost var c, made := Geometry(), View();
      FreshQueue(c, made);
      AllocateMemory(0);
      assert View() == Grow(c, made, 0);
      if c.Valid() {
        CreateResting(c, made);
      }
    }

    method PopEntry() returns (element: nat)
      modifies this`ListTop, this`ListDepth
      ensures (View(), element) == SlabStore.PopEntry(old(View()))
    {
      element := ListTop;
      if element != 0 {
        ListTop := if ListTop + LINK <= MemoryPool.ram.Length
          then FromLE(MemoryPool.ram[ListTop..ListTop + LINK]) else 0;
        ListDepth := (ListDepth + DEPTHS - 1) % DEPTHS;
        assert element + LINK <= MemoryPool.ram.Length ==>
          MemoryPool.ram[..][element..element + LINK] == MemoryPool.ram[element..element + LINK];
      }
    }

    method PushEntry(element: nat)
      requires element + LINK <= MemoryPool.ram.Length
      modifies this`ListTop, this`ListDepth, MemoryPool.ram
      ensures View() == SlabStore.PushEntry(old(View()), element)
    {
      var link := ToLE(ListTop, LINK);
      var ram := MemoryPool.ram;
      forall i | 0 <= i < LINK {
        ram[element + i] := link[i];
      }
      assert ram[..] == WriteLink(old(ram[..]), element, ListTop);
      ListTop := element;
      ListDepth := (ListDepth + 1) % DEPTHS;
    }

    /** The slicing loop of AllocateMemory. */
    method PushSlices(memory: nat)
      requires 0 < TypeSize && TypeSize % ALIGN == 0 && MemoryPool.GroupSize % ALIGN == 0
      requires memory + MemoryPool.GroupSize <= MemoryPool.ram.Length
      modifies this`ListTop, this`ListDepth, MemoryPool.ram
      ensures View() == PushAll(old(View()), Slices(memory, 0, MemoryPool.GroupSize, TypeSize))
    {
      var index, group, slot := 0, MemoryPool.GroupSize, TypeSize;
      ghost var todo := Slices(memory, 0, group, slot);
      ghost var goal := PushAll(View(), todo);
      while index < group
        invariant index % ALIGN == 0
        invariant todo == Slices(memory, index, group, slot)
        invariant PushAll(View(), todo) == goal
        decreases if index < group then group - index else 0
      {
        todo := SliceTurn(View(), todo, memory, index, group, slot);
        PushEntry(memory + index);
        index := index + slot;
      }
    }

    method AllocateMemory(region: nat)
      requires Geometry().Aligned() && Layout(Geometry(), View())
      requires MemoryPool.UnAllocateMemory == [] ==> Granted(Geometry(), View(), region)
      modifies this`HeadMemory, this`ListTop, this`ListDepth, MemoryPool, MemoryPool.ram
      ensures View() == Grow(Geometry(), old(View()), region)
    {
      ghost var c, start := Geometry(), View();
      CarvePlace(c, start, region);
      TakeGroupPart(c, MemoryPool.Snapshot(), region, ListTop, ListDepth, HeadMemory);
      var memory := MemoryPool.Allocate(region);
      if memory == 0 {
        return;
      }
      HeadMemory := HeadMemory + [memory];
      assert (View(), memory) == Carve(c, start, region);
      PushSlices(memory);
    }

    method AllocateObject(region: nat) returns (result: nat)
      requires Valid()
      requires MemoryPool.UnAllocateMemory == [] ==> Granted(Geometry(), View(), region)
      modifies this, MemoryPool, MemoryPool.ram
      ensures Valid()
      ensures (View(), result) == AllocateAlone(Geometry(), old(View()), region)
      ensures result != 0 && result !in old(Used) && Used == old(Used)[result := 0]
    {
      ghost var c, start := Geometry(), View();
      AllocateSound(c, start, Used, region);
      BeforeAllocate(c, start, Used, region);
      var element := 0;
      ghost var grown := Grow(c, start, region);
      while true
        invariant Used == old(Used)
        invariant View() == start || (start.top == 0 && View() == grown)
        decreases if ListTop == 0 then 1 else 0
      {
        element := PopEntry();
        if element != 0 {
          break;
        }
        var depth := ListDepth;
        if depth == 0 {
          AllocateMemory(region);
        }
      }
      Used := Used[element := 0];
      result := element;
    }

    /** The caller's pointer is nulled: the result replaces it. */
    method FreeObject(obj: nat) returns (pointer: nat)
      requires Valid() && obj in Used
      modifies this, MemoryPool.ram
      ensures pointer == 0
      ensures Valid() && Used == old(Used) - {obj}
      ensures View() == FreeAlone(Geometry(), old(View()), obj)
    {
      FreeSound(Geometry(), View(), Used, obj);
      UsedPlace(Geometry(), View(), Used, obj);
      Memset(MemoryPool.ram, obj, TypeSize);
      PushEntry(obj);
      Used := Used - {obj};
      pointer := 0;
    }

    /** The destructor. */
    method Destroy()
      requires Valid()
      modifies this, MemoryPool, MemoryPool.ram
      ensures View() == SlabStore.Destroy(Geometry(), old(View()))
    {
      ghost var c, start := Geometry(), View();
      SoundLayout(c, start, Used);
      ListTop := 0;
      ListDepth := 0;
      ghost var left := View();
      var i := 0;
      while i < |HeadMemory|
        invariant 0 <= i <= |HeadMemory| == |start.heads|
        invariant forall j :: 0 <= j < |HeadMemory| ==> HeadMemory[j] == if j < i then 0 else start.heads[j]
        invariant left == View().(heads := start.heads) && |left.mem| == |start.mem|
        invariant ReturnAll(c, start.(top := 0, depth := 0), start.heads) == ReturnAll(c, left, start.heads[i..])
      {
        var head := HeadMemory[i];
        HeadPlace(c, start, i);
        assert start.heads[i..][1..] == start.heads[i + 1..];
        ReturnGroupPart(c, MemoryPool.Snapshot(), head, ListTop, ListDepth, start.heads);
        left := ReturnGroup(c, left, head);
        var cleared := MemoryPool.Free(head);
        HeadMemory := HeadMemory[i := cleared];
        i := i + 1;
      }
      assert start.heads[i..] == [];
    }
  }

  lemma ReturnGroupPart(c: Config, s: Store, g: nat, top: nat, depth: nat, heads: seq<nat>)
    ensures ReturnGroup(c, s.(top := top, depth := depth, heads := heads), g)
      == ReturnGroup(c, s, g).(top := top, depth := depth, heads := heads)
  {
  }

  lemma CarvePlace(c: Config, s: Store, r: nat)
    requires c.Aligned() && Layout(c, s) && (s.queue == [] ==> Granted(c, s, r))
    ensures var (t, g) := Carve(c, s, r); g != 0 && g + c.group <= |s.mem|
  {
    LayoutCarve(c, s, r);
    var (t, g) := Carve(c, s, r);
    HeadPlace(c, t, |t.heads| - 1);
  }

  lemma PushAllCons(s: Store, x: nat, rest: seq<nat>)
    ensures PushAll(s, [x] + rest) == PushAll(SlabStore.PushEntry(s, x), rest)
  {
    var xs := [x] + rest;
    assert xs != [] && xs[0] == x && xs[1..] == rest;
  }

  /** One turn of the slicing loop: a link always fits, even where the slot overhangs the group. */
  lemma SliceTurn(s: Store, todo: seq<nat>, memory: nat, index: nat, group: nat, slot: nat) returns (rest: seq<nat>)
    requires slot > 0 && index < group && todo == Slices(memory, index, group, slot)
    requires slot % ALIGN == 0 && group % ALIGN == 0 && index % ALIGN == 0
    ensures index + LINK <= group && (index + slot) % ALIGN == 0
    ensures rest == Slices(memory, index + slot, group, slot)
    ensures PushAll(s, todo) == PushAll(SlabStore.PushEntry(s, memory + index), rest)
  {
    rest := Slices(memory, index + slot, group, slot);
    MultipleGap(index, group, ALIGN);
    ModSum(index, slot, ALIGN);
    assert todo == [memory + index] + rest;
    PushAllCons(s, memory + index, rest);
  }

  lemma HeadPlace(c: Config, s: Store, i: nat)
    requires c.Aligned() && Layout(c, s) && i < |s.heads|
    ensures s.heads[i] + c.group <= |s.mem|
  {
    assert s.heads[i] in s.heads + s.queue;
    GroupPlace(c, s, s.heads[i]);
  }

  /** Taking a group leaves the list header and HeadMemory alone. */
  lemma TakeGroupPart(c: Config, s: Store, r: nat, top: nat, depth: nat, heads: seq<nat>)
    requires c.group > 0
    ensures var (t, g) := TakeGroup(c, s, r);
      TakeGroup(c, s.(top := top, depth := depth, heads := heads), r)
        == (t.(top := top, depth := depth, heads := heads), g)
  {
  }

  lemma EmptyDepth(c: Config, s: Store, used: map<nat, nat>)
    requires c.Valid() && Sound(c, s, used)
    ensures s.top == 0 ==> s.depth == 0
  {
    var free :| Inv(c, Resting(s, used), free);
  }

  lemma SoundLayout(c: Config, s: Store, used: map<nat, nat>)
    requires c.Valid() && Sound(c, s, used)
    ensures Layout(c, s)
  {
    var free :| Inv(c, Resting(s, used), free);
  }

  /** What the retry loop relies on: an empty list has depth zero, and growing fills it. */
  lemma BeforeAllocate(c: Config, s: Store, used: map<nat, nat>, r: nat)
    requires c.Valid() && Sound(c, s, used) && (s.queue == [] ==> Granted(c, s, r))
    ensures Layout(c, s) && (s.top == 0 ==> s.depth == 0) && Grow(c, s, r).top != 0
    ensures AllocateAlone(c, s, r) == SlabStore.PopEntry(if s.top == 0 then Grow(c, s, r) else s)
  {
    EmptyDepth(c, s, used);
    SoundLayout(c, s, used);
    GrowFills(c, s, r);
  }

  lemma UsedPlace(c: Config, s: Store, used: map<nat, nat>, x: nat)
    requires c.Valid() && Sound(c, s, used) && x in used
    ensures x + c.slot <= |s.mem| && c.slot >= LINK
  {
    var free :| Inv(c, Resting(s, used), free);
    Where(c, Resting(s, used), free);
    SlotPlace(c, s, x);
  }
}
