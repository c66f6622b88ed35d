/** The shared memory of MemoryPool and ObjectPool, and the operations both pools are made of. */
module SlabStore {
  import opened Bytes
  import opened Memory
  import opened Slicing

  /** Region size, group size and object size, all in bytes. */
  datatype Config = Config(size: nat, group: nat, slot: nat) {
    /** What the loops need to end. */
    ghost predicate Positive() {
      0 < slot && 0 < group && 0 < size
    }

    /** Groups fill their region, and every address is a multiple of 16. */
    ghost predicate Aligned() {
      Positive() && slot % ALIGN == 0 && group % ALIGN == 0 && size % group == 0
    }

    /** Slots fill their group, too. */
    ghost predicate Valid() {
      Aligned() && group % slot == 0
    }
  }

  /** `top` and `depth` are the list header, `regions` is Memories, `queue` is UnAllocateMemory and
      `heads` is HeadMemory. */
  datatype Store = Store(mem: seq<Byte>, top: nat, depth: nat, regions: seq<nat>, queue: seq<nat>, heads: seq<nat>)

  /** The depth field of a list header has 16 bits. */
  const DEPTHS: nat := 0x1_0000

  /** InterlockedPopEntrySList: the popped address, or 0 when the list is empty. */
  function PopEntry(s: Store): (Store, nat) {
    if s.top == 0 then (s, 0)
    else (s.(top := ReadLink(s.mem, s.top), depth := (s.depth + DEPTHS - 1) % DEPTHS), s.top)
  }

  /** InterlockedPushEntrySList: the old top is written into the pushed bytes. */
  function PushEntry(s: Store, x: nat): Store {
    s.(mem := WriteLink(s.mem, x, s.top), top := x, depth := (s.depth + 1) % DEPTHS)
  }

  /** What _aligned_malloc guarantees about the address it returns. */
  ghost predicate Granted(c: Config, s: Store, r: nat) {
    && 0 < r && r % ALIGN == 0 && r + c.size <= |s.mem|
    && forall i :: 0 <= i < |s.regions| ==> Disjoint(r, c.size, s.regions[i], c.size)
  }

  /** MemoryPool::CreateMemory on the region r, recorded in Memories. */
  function AddRegion(c: Config, s: Store, r: nat): Store
    requires c.group > 0
  {
    s.(mem := Zeroed(s.mem, r, c.size),
       regions := s.regions + [r],
       queue := s.queue + Slices(r, 0, c.size, c.group))
  }

  /** MemoryPool::Allocate; r is the region the operating system grants if one is needed. The
      result 0 stands for front() of an empty queue. */
  function TakeGroup(c: Config, s: Store, r: nat): (Store, nat)
    requires c.group > 0
  {
    var t := if s.queue == [] then AddRegion(c, s, r) else s;
    if t.queue == [] then (t, 0) else (t.(queue := t.queue[1..]), t.queue[0])
  }

  /** MemoryPool::Free. */
  function ReturnGroup(c: Config, s: Store, g: nat): Store {
    s.(mem := Zeroed(s.mem, g, c.group), queue := s.queue + [g])
  }

  /** The first half of ObjectPool::AllocateMemory: take a group and record it in HeadMemory. */
  function Carve(c: Config, s: Store, r: nat): (Store, nat)
    requires c.group > 0
  {
    var (t, g) := TakeGroup(c, s, r);
    if g == 0 then (t, 0) else (t.(heads := t.heads + [g]), g)
  }

  /** The second half: push every address of a list of slots. */
  function PushAll(s: Store, xs: seq<nat>): Store
    decreases |xs|
  {
    if xs == [] then s else PushAll(PushEntry(s, xs[0]), xs[1..])
  }

  /** ObjectPool::AllocateMemory as one operation. */
  function Grow(c: Config, s: Store, r: nat): Store
    requires c.group > 0 && c.slot > 0
  {
    var (t, g) := Carve(c, s, r);
    if g == 0 then t else PushAll(t, Slices(g, 0, c.group, c.slot))
  }

  /** MemoryPool::Free of each of a list of groups. */
  function ReturnAll(c: Config, s: Store, gs: seq<nat>): Store
    decreases |gs|
  {
    if gs == [] then s else ReturnAll(c, ReturnGroup(c, s, gs[0]), gs[1..])
  }

  /** ObjectPool's destructor: flush the list, give every group back, null its entry. */
  function Destroy(c: Config, s: Store): Store {
    ReturnAll(c, s.(top := 0, depth := 0), s.heads).(heads := seq(|s.heads|, _ => 0))
  }

  // ----- what both pools keep -----

  /** Regions are aligned, in memory and apart; the groups handed out followed by the groups still
      queued are all groups of all regions, in the order they were created. */
  ghost predicate Layout(c: Config, s: Store)
    requires c.Positive()
  {
    && |s.mem| <= Pow256(LINK)
    && Apart(s.regions, c.size)
    && (forall i :: 0 <= i < |s.regions| ==>
          0 < s.regions[i] && s.regions[i] % ALIGN == 0 && s.regions[i] + c.size <= |s.mem|)
    && s.heads + s.queue == Cut(s.regions, c.size, c.group)
  }

  function AllSlots(c: Config, s: Store): seq<nat>
    requires c.slot > 0
  {
    Cut(s.heads, c.group, c.slot)
  }

  lemma GroupsApart(c: Config, s: Store)
    requires c.Aligned() && Layout(c, s)
    ensures Apart(s.heads + s.queue, c.group)
    ensures Apart(s.heads, c.group) && Apart(s.queue, c.group)
    ensures forall g, h :: g in s.heads && h in s.queue ==> Disjoint(g, c.group, h, c.group)
  {
    CutApart(s.regions, c.size, c.group);
    var all := s.heads + s.queue;
    forall i, j | 0 <= i < j < |s.heads|
      ensures s.heads[i] + c.group <= s.heads[j] || s.heads[j] + c.group <= s.heads[i]
    {
      assert s.heads[i] == all[i] && s.heads[j] == all[j];
    }
    forall i, j | 0 <= i < j < |s.queue|
      ensures s.queue[i] + c.group <= s.queue[j] || s.queue[j] + c.group <= s.queue[i]
    {
      assert s.queue[i] == all[|s.heads| + i] && s.queue[j] == all[|s.heads| + j];
    }
    forall g, h | g in s.heads && h in s.queue ensures Disjoint(g, c.group, h, c.group) {
      var i :| 0 <= i < |s.heads| && s.heads[i] == g;
      var j :| 0 <= j < |s.queue| && s.queue[j] == h;
      assert all[i] == g && all[|s.heads| + j] == h;
    }
  }

  /** Every group lies, aligned, inside one region. */
  lemma GroupPlace(c: Config, s: Store, g: nat)
    requires c.Aligned() && Layout(c, s) && g in s.heads + s.queue
    ensures exists i :: 0 <= i < |s.regions| && s.regions[i] <= g && g + c.group <= s.regions[i] + c.size
    ensures 0 < g && g % ALIGN == 0 && g + c.group <= |s.mem|
  {
    CutInside(s.regions, c.size, c.group, g);
    var i :| 0 <= i < |s.regions| && s.regions[i] <= g && g + c.group <= s.regions[i] + c.size
      && (g - s.regions[i]) % c.group == 0;
    ModChain(g - s.regions[i], c.group, ALIGN);
    ModSum(s.regions[i], g - s.regions[i], ALIGN);
  }

  lemma ModChain(a: nat, b: nat, d: nat)
    requires b > 0 && d > 0 && a % b == 0 && b % d == 0
    ensures a % d == 0
  {
    var p, q := a / b, b / d;
    assert a == p * b && b == q * d;
    assert p * (q * d) == (p * q) * d;
    DivUnique(a, d, p * q, 0);
  }

  lemma ModSum(a: nat, b: nat, d: nat)
    requires d > 0 && a % d == 0 && b % d == 0
    ensures (a + b) % d == 0
  {
    var p, q := a / d, b / d;
    assert a == p * d && b == q * d;
    assert (p + q) * d == p * d + q * d;
    DivUnique(a + b, d, p + q, 0);
  }

  /** Every slot is aligned and lies inside one group that was handed out. */
  lemma SlotPlace(c: Config, s: Store, x: nat)
    requires c.Valid() && Layout(c, s) && x in AllSlots(c, s)
    ensures exists h :: h in s.heads && h <= x && x + c.slot <= h + c.group
    ensures 0 < x && x % ALIGN == 0 && x + c.slot <= |s.mem| && c.slot >= ALIGN
  {
    MultipleNotSmaller(c.slot, ALIGN);
    CutInside(s.heads, c.group, c.slot, x);
    var i :| 0 <= i < |s.heads| && s.heads[i] <= x && x + c.slot <= s.heads[i] + c.group
      && (x - s.heads[i]) % c.slot == 0;
    assert s.heads[i] in s.heads + s.queue;
    GroupPlace(c, s, s.heads[i]);
    ModChain(x - s.heads[i], c.slot, ALIGN);
    ModSum(s.heads[i], x - s.heads[i], ALIGN);
  }

  lemma SlotsApart(c: Config, s: Store)
    requires c.Valid() && Layout(c, s)
    ensures Apart(AllSlots(c, s), c.slot)
    ensures forall x, y :: x in AllSlots(c, s) && y in AllSlots(c, s) && x != y ==> Disjoint(x, c.slot, y, c.slot)
    ensures forall x :: multiset(AllSlots(c, s))[x] <= 1
  {
    GroupsApart(c, s);
    CutApart(s.heads, c.group, c.slot);
    ApartOnce(AllSlots(c, s), c.slot);
  }

  lemma {:induction false} ApartOnce(s: seq<nat>, d: nat)
    requires d > 0 && Apart(s, d)
    ensures forall x :: multiset(s)[x] <= 1
    decreases |s|
  {
    if s != [] {
      var t := s[..|s| - 1];
      ApartOnce(t, d);
      assert s == t + [s[|s| - 1]];
      assert s[|s| - 1] !in t;
      assert multiset(s) == multiset(t) + multiset{s[|s| - 1]};
    }
  }

  /** A slot shares no byte with a group that is still queued. */
  lemma SlotQueueApart(c: Config, s: Store, x: nat, g: nat)
    requires c.Valid() && Layout(c, s) && x in AllSlots(c, s) && g in s.queue
    ensures Disjoint(x, c.slot, g, c.group)
  {
    SlotPlace(c, s, x);
    GroupsApart(c, s);
  }

  // ----- what pushing a list of slots leaves alone -----

  lemma {:induction false} PushAllKeeps(s: Store, xs: seq<nat>)
    ensures var t := PushAll(s, xs);
      t.regions == s.regions && t.queue == s.queue && t.heads == s.heads && |t.mem| == |s.mem|
    decreases |xs|
  {
    if xs != [] {
      PushAllKeeps(PushEntry(s, xs[0]), xs[1..]);
    }
  }

  // ----- steps keep the layout -----

  lemma LayoutAddRegion(c: Config, s: Store, r: nat)
    requires c.Aligned() && Layout(c, s) && Granted(c, s, r)
    ensures Layout(c, AddRegion(c, s, r))
    ensures AddRegion(c, s, r).queue != []
  {
    CutSnoc(s.regions, r, c.size, c.group);
    SliceOverhang(r, c.size, c.group);
    RegionAdded(c, s, r, AddRegion(c, s, r), Slices(r, 0, c.size, c.group));
  }

  lemma RegionAdded(c: Config, s: Store, r: nat, t: Store, groups: seq<nat>)
    requires c.Aligned() && Layout(c, s) && Granted(c, s, r)
    requires |t.mem| == |s.mem| && t.regions == s.regions + [r] && t.heads == s.heads && t.queue == s.queue + groups
    requires Cut(t.regions, c.size, c.group) == Cut(s.regions, c.size, c.group) + groups
    ensures Layout(c, t)
  {
    ApartSnoc(s.regions, r, c.size);
    assert t.heads + t.queue == (s.heads + s.queue) + groups;
    forall i | 0 <= i < |t.regions|
      ensures 0 < t.regions[i] && t.regions[i] % ALIGN == 0 && t.regions[i] + c.size <= |t.mem|
    {
      assert t.regions[i] == if i < |s.regions| then s.regions[i] else r;
    }
  }

  lemma ApartSnoc(s: seq<nat>, x: nat, d: nat)
    requires Apart(s, d) && forall i :: 0 <= i < |s| ==> Disjoint(x, d, s[i], d)
    ensures Apart(s + [x], d)
  {
    var t := s + [x];
    forall i, j | 0 <= i < j < |t| ensures t[i] + d <= t[j] || t[j] + d <= t[i] {
      assert t[i] == s[i];
      if j == |s| {
        assert Disjoint(x, d, s[i], d);
      }
    }
  }

  /** The store of a MemoryPool just made on the region r of empty memory. */
  lemma FirstRegion(c: Config, s: Store, r: nat)
    requires c.Aligned() && |s.mem| <= Pow256(LINK) && s == Store(s.mem, 0, 0, [], [], [])
    requires 0 < r && r % ALIGN == 0 && r + c.size <= |s.mem|
    ensures var t := AddRegion(c, s, r);
      && Layout(c, t) && t.regions == [r] && t.queue == Slices(r, 0, c.size, c.group)
      && forall g :: g in t.queue ==> IsZero(t.mem, g, c.group)
  {
    assert s.heads + s.queue == [];
    LayoutAddRegion(c, s, r);
    SlicesInside(r, 0, c.size, c.group);
  }

  lemma LayoutCarve(c: Config, s: Store, r: nat)
    requires c.Aligned() && Layout(c, s) && (s.queue == [] ==> Granted(c, s, r))
    ensures var (t, g) := Carve(c, s, r);
      && g != 0 && Layout(c, t) && t.heads == s.heads + [g]
      && AllSlots(c, t) == AllSlots(c, s) + Slices(g, 0, c.group, c.slot)
  {
    var u := if s.queue == [] then AddRegion(c, s, r) else s;
    if s.queue == [] {
      LayoutAddRegion(c, s, r);
    }
    var g := u.queue[0];
    assert u.heads + u.queue == (u.heads + [g]) + u.queue[1..];
    assert g in u.heads + u.queue;
    GroupPlace(c, u, g);
    CutSnoc(s.heads, g, c.group, c.slot);
  }
}
