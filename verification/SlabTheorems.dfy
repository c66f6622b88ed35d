/** What holds in every reachable state of the slab allocator. */
module SlabTheorems {
  import opened Bytes
  import opened Memory
  import opened Options
  import opened Slicing
  import opened SlabStore
  import opened SlabSystem
  import opened SlabRuns
  import opened SlabSolo

  // ----- start -----

  /** A region the system can give to a pool that has none. */
  ghost predicate CanOpen(c: Config, mem: seq<Byte>, r: nat) {
    |mem| <= Pow256(LINK) && 0 < r && r % ALIGN == 0 && r + c.size <= |mem|
  }

  /** What the two constructors leave, whatever was in memory: one region cut into groups, the first
      group on the list. n threads are about to use the pool. */
  ghost function StartUp(c: Config, mem: seq<Byte>, r: nat, n: nat): State
    requires c.Positive()
  {
    State(Grow(c, AddRegion(c, Store(mem, 0, 0, [], [], []), r), 0), None, seq(n, _ => Idle), map[])
  }

  ghost predicate Init(c: Config, s: State)
    requires c.Positive()
  {
    exists mem, r, n :: CanOpen(c, mem, r) && s == StartUp(c, mem, r, n)
  }

  ghost predicate Reachable(c: Config, s: State)
    requires c.Positive()
  {
    exists s0, ks :: Init(c, s0) && Executable(c, s0, ks) && Exec(c, s0, ks) == s
  }

  lemma InitHolds(c: Config, s: State) returns (free: seq<nat>)
    requires c.Valid() && Init(c, s)
    ensures Inv(c, s, free)
  {
    var mem, r, n :| CanOpen(c, mem, r) && s == StartUp(c, mem, r, n);
    var made := AddRegion(c, Store(mem, 0, 0, [], [], []), r);
    FirstRegion(c, Store(mem, 0, 0, [], [], []), r);
    free := CreateSound(c, made, n);
  }

  lemma ReachableInv(c: Config, s: State) returns (free: seq<nat>)
    requires c.Valid() && Reachable(c, s)
    ensures Inv(c, s, free)
  {
    var s0, ks :| Init(c, s0) && Executable(c, s0, ks) && Exec(c, s0, ks) == s;
    var f := InitHolds(c, s0);
    RunKeeps(c, s0, f, ks);
    free := FreeAfterRun(c, s0, f, ks);
  }

  // ----- safety -----

  /** The links stored in the slots lead through `free` and nothing else: the list ends, meets no
      slot twice, and `free` is exactly the slots neither in use nor still to be pushed. */
  ghost predicate ListIsFreeSlots(c: Config, s: State, free: seq<nat>)
    requires c.Valid()
  {
    && Chain(s.store.mem, s.store.top, free)
    && (forall i, j :: 0 <= i < j < |free| ==> free[i] != free[j])
    && (forall x :: x in free <==> x in AllSlots(c, s.store) && x !in s.owner && x !in Pending(c, s))
    && (forall other :: Chain(s.store.mem, s.store.top, other) ==> other == free)
  }

  lemma FreeListExact(c: Config, s: State)
    requires c.Valid() && Reachable(c, s)
    ensures exists free :: ListIsFreeSlots(c, s, free)
  {
    var free := ReachableInv(c, s);
    Where(c, s, free);
    ChainAcyclic(s.store.mem, s.store.top, free);
    forall x | x in AllSlots(c, s.store) && x !in s.owner && x !in Pending(c, s) ensures x in free {
      var all := multiset(AllSlots(c, s.store));
      assert all[x] > 0;
      assert all[x] == multiset(free)[x] + multiset(s.owner.Keys)[x] + multiset(Pending(c, s))[x];
      assert x !in s.owner.Keys;
    }
    forall other | Chain(s.store.mem, s.store.top, other) ensures other == free {
      ChainUnique(s.store.mem, s.store.top, other, free);
    }
    assert ListIsFreeSlots(c, s, free);
  }

  /** Objects in use share no byte with one another, with any free slot, or with a queued group;
      all are 16-byte aligned, not null, and inside a region. */
  lemma ObjectsExclusive(c: Config, s: State, free: seq<nat>, x: nat)
    requires c.Valid() && Inv(c, s, free) && x in s.owner
    ensures forall y :: y in s.owner && y != x ==> Disjoint(x, c.slot, y, c.slot)
    ensures forall y :: y in free ==> Disjoint(x, c.slot, y, c.slot)
    ensures forall g :: g in s.store.queue ==> Disjoint(x, c.slot, g, c.group)
    ensures x != 0 && x % ALIGN == 0
    ensures exists i ::
      0 <= i < |s.store.regions| && s.store.regions[i] <= x && x + c.slot <= s.store.regions[i] + c.size
  {
    Where(c, s, free);
    SlotsApart(c, s.store);
    SlotPlace(c, s.store, x);
    SlotInRegion(c, s.store, x);
    forall g | g in s.store.queue ensures Disjoint(x, c.slot, g, c.group) {
      SlotQueueApart(c, s.store, x, g);
    }
  }

  /** Everything handed out or waiting at either level is aligned. */
  lemma EverythingAligned(c: Config, s: State)
    requires c.Valid() && Reachable(c, s)
    ensures forall x :: x in AllSlots(c, s.store) ==> x % ALIGN == 0
    ensures forall g :: g in s.store.heads + s.store.queue ==> g % ALIGN == 0
  {
    var free := ReachableInv(c, s);
    forall x | x in AllSlots(c, s.store) ensures x % ALIGN == 0 {
      SlotPlace(c, s.store, x);
    }
    forall g | g in s.store.heads + s.store.queue ensures g % ALIGN == 0 {
      GroupPlace(c, s.store, g);
    }
  }

  /** HeadMemory and the MemoryPool, which has no lock of its own, are touched by one thread. */
  lemma OneGrower(c: Config, s: State, t: nat, u: nat)
    requires c.Valid() && Reachable(c, s)
    requires t < |s.pcs| && u < |s.pcs| && s.pcs[t].InGrowth() && s.pcs[u].InGrowth()
    ensures t == u && s.lock == Some(t)
  {
    var free := ReachableInv(c, s);
    assert s.pcs[t].HoldsLock() && s.pcs[u].HoldsLock();
  }

  /** Outside growth a step changes neither Memories, nor the group queue, nor HeadMemory. */
  lemma OnlyGrowthTouchesPool(c: Config, s: State, k: Step)
    requires c.Valid() && Reachable(c, s) && Enabled(c, s, k)
    ensures var u := Apply(c, s, k).store;
      || (u.regions == s.store.regions && u.queue == s.store.queue && u.heads == s.store.heads)
      || (k.TakeMemory? && s.lock == Some(k.t))
  {
    var free := ReachableInv(c, s);
    if k.TakeMemory? {
      assert s.pcs[k.t].HoldsLock();
    }
  }

  /** Nothing is lost or invented at either level. */
  lemma Conservation(c: Config, s: State, free: seq<nat>)
    requires c.Valid() && Inv(c, s, free)
    ensures |free| + |s.owner| + |Pending(c, s)| == |s.store.heads| * (c.group / c.slot)
    ensures |s.store.queue| + |s.store.heads| == |s.store.regions| * (c.size / c.group)
  {
    CutCount(s.store.heads, c.group, c.slot);
    CutCount(s.store.regions, c.size, c.group);
    CeilExact(c.group, c.slot);
    CeilExact(c.size, c.group);
    assert |multiset(free) + multiset(s.owner.Keys) + multiset(Pending(c, s))|
      == |free| + |s.owner.Keys| + |Pending(c, s)|;
    assert |multiset(AllSlots(c, s.store))| == |AllSlots(c, s.store)|;
    assert |s.store.heads + s.store.queue| == |Cut(s.store.regions, c.size, c.group)|;
  }

  lemma CeilExact(a: nat, b: nat)
    requires b > 0 && a % b == 0
    ensures CeilDiv(a, b) == a / b
  {
    assert a == (a / b) * b;
    DivUnique(a + b - 1, b, a / b, b - 1);
  }

  /** Whatever a pop hands out was not in use, and is zero apart from the link in its first bytes,
      whether it comes from a new region or from a freed object. */
  lemma HandedOutClean(c: Config, s: State, t: nat)
    requires c.Valid() && Reachable(c, s) && Enabled(c, s, Pop(t)) && s.store.top != 0
    ensures var x := s.store.top;
      && x !in s.owner && x in AllSlots(c, s.store)
      && Apply(c, s, Pop(t)).owner == s.owner[x := t]
      && IsZero(s.store.mem, x + LINK, c.slot - LINK)
  {
    var free := ReachableInv(c, s);
    Where(c, s, free);
    SlotPlace(c, s.store, free[0]);
    assert free[0] in free;
  }

  /** The bytes a step reads or writes through the list, on behalf of an owner, or to clear a region. */
  ghost function Touched(c: Config, s: State, k: Step): Option<(nat, nat)>
    requires Enabled(c, s, k)
  {
    match k
    case Pop(t) => if s.store.top == 0 then None else Some((s.store.top, LINK))
    case TakeMemory(_, r) => if s.store.queue == [] then Some((r, c.size)) else None
    case PushSlice(t) => if s.pcs[t].index < c.group then Some((NextSlice(s, t), LINK)) else None
    case Write(_, x, offset, _) => Some((x + offset, 1))
    case Clear(_, x) => Some((x, c.slot))
    case PushFreed(t) => Some((s.pcs[t].slot, LINK))
    case _ => None
  }

  /** Other bytes no step of a thread changes. */
  lemma OnlyTouched(c: Config, s: State, k: Step)
    requires c.Positive() && Enabled(c, s, k) && !k.Foreign?
    ensures var m, m' := s.store.mem, Apply(c, s, k).store.mem;
      match Touched(c, s, k)
      case None => m' == m
      case Some((a, n)) => OnlyChanged(m, m', a, n)
  {
  }

  /** The slot those bytes belong to, unless they are a region. */
  ghost function TouchedSlot(c: Config, s: State, k: Step): nat
    requires Enabled(c, s, k)
  {
    match k
    case Pop(t) => s.store.top
    case PushSlice(t) => NextSlice(s, t)
    case PushFreed(t) => s.pcs[t].slot
    case Write(_, x, _, _) => x
    case Clear(_, x) => x
    case _ => 0
  }

  lemma TouchedIsSlot(c: Config, s: State, free: seq<nat>, k: Step)
    requires c.Valid() && Inv(c, s, free) && Enabled(c, s, k) && Touched(c, s, k).Some? && !k.TakeMemory?
    ensures var x := TouchedSlot(c, s, k);
      && x in AllSlots(c, s.store) && (x in s.owner ==> s.owner[x] == k.t)
      && x <= Touched(c, s, k).value.0
      && Touched(c, s, k).value.0 + Touched(c, s, k).value.1 <= x + c.slot
  {
    Sides(c, s, free);
    TouchedAmongSlots(c, s, k, AllSlots(c, s.store));
    SlotPlace(c, s.store, TouchedSlot(c, s, k));
  }

  lemma TouchedAmongSlots(c: Config, s: State, k: Step, slots: seq<nat>)
    requires c.Valid() && Threads(s) && Enabled(c, s, k) && Touched(c, s, k).Some? && !k.TakeMemory?
    requires s.store.top != 0 ==> s.store.top in slots && s.store.top !in s.owner
    requires forall x :: x in Pending(c, s) ==> x in slots && x !in s.owner
    requires forall x :: x in s.owner ==> x in slots
    ensures var x := TouchedSlot(c, s, k); x in slots && (x in s.owner ==> s.owner[x] == k.t)
  {
    if k.PushSlice? {
      PendingStep(c, s, k.t);
    }
  }

  /** No step touches memory outside the regions, the one being granted included, nor another thread's
      object. */
  lemma NoFault(c: Config, s: State, k: Step)
    requires c.Valid() && Reachable(c, s) && Enabled(c, s, k) && Touched(c, s, k).Some?
    ensures var (a, n) := Touched(c, s, k).value;
      var regions := Apply(c, s, k).store.regions;
      && a + n <= |s.store.mem|
      && (exists i :: 0 <= i < |regions| && regions[i] <= a && a + n <= regions[i] + c.size)
      && (forall y :: y in s.owner && s.owner[y] != k.t ==> Disjoint(a, n, y, c.slot))
  {
    var free := ReachableInv(c, s);
    if k.TakeMemory? {
      RegionTouched(c, s, free, k.t, k.region);
    } else {
      SlotTouched(c, s, free, k);
    }
  }

  lemma RegionTouched(c: Config, s: State, free: seq<nat>, t: nat, r: nat)
    requires c.Valid() && Inv(c, s, free) && Granted(c, s.store, r) && s.store.queue == [] && t < |s.pcs|
    ensures r + c.size <= |s.store.mem|
    ensures var regions := AfterTake(c, s, t, r).store.regions;
      regions == s.store.regions + [r] && regions[|regions| - 1] == r
    ensures forall y :: y in s.owner ==> Disjoint(r, c.size, y, c.slot)
  {
    Where(c, s, free);
    LayoutCarve(c, s.store, r);
    forall y | y in s.owner ensures Disjoint(r, c.size, y, c.slot) {
      SlotInRegion(c, s.store, y);
    }
  }

  lemma SlotTouched(c: Config, s: State, free: seq<nat>, k: Step)
    requires c.Valid() && Inv(c, s, free) && Enabled(c, s, k) && Touched(c, s, k).Some? && !k.TakeMemory?
    ensures var (a, n) := Touched(c, s, k).value;
      var regions := s.store.regions;
      && Apply(c, s, k).store.regions == regions && a + n <= |s.store.mem|
      && (exists i :: 0 <= i < |regions| && regions[i] <= a && a + n <= regions[i] + c.size)
      && (forall y :: y in s.owner && s.owner[y] != k.t ==> Disjoint(a, n, y, c.slot))
  {
    TouchedIsSlot(c, s, free, k);
    var x := TouchedSlot(c, s, k);
    SlotPlace(c, s.store, x);
    SlotInRegion(c, s.store, x);
    OthersApart(c, s, free, x, k.t);
  }

  lemma OthersApart(c: Config, s: State, free: seq<nat>, x: nat, t: nat)
    requires c.Valid() && Inv(c, s, free) && x in AllSlots(c, s.store) && (x in s.owner ==> s.owner[x] == t)
    ensures forall y :: y in s.owner && s.owner[y] != t ==> Disjoint(x, c.slot, y, c.slot)
  {
    Where(c, s, free);
    SlotsApart(c, s.store);
  }

  /** The re-check under the mutex asks for growth exactly when the number of free slots is a multiple
      of 65536; below that many, exactly when no slot is free. */
  lemma GrowthDecision(c: Config, s: State, free: seq<nat>, t: nat)
    requires c.Valid() && Inv(c, s, free) && Enabled(c, s, Query(t))
    ensures Apply(c, s, Query(t)).pcs[t] == Carving <==> |free| % DEPTHS == 0
    ensures |free| < DEPTHS ==> (Apply(c, s, Query(t)).pcs[t] == Carving <==> s.store.top == 0)
  {
    if free != [] {
      assert s.store.top == free[0];
    }
  }

  // ----- progress -----

  ghost predicate Stuck(c: Config, s: State, t: nat)
    requires t < |s.pcs|
  {
    forall k: Step :: !k.Foreign? && k.t == t ==> !Enabled(c, s, k)
  }

  ghost predicate GrantPossible(c: Config, s: State) {
    exists r :: Granted(c, s.store, r)
  }

  /** While the system can grant memory, a thread is held up only by a lock holder that can move. */
  lemma NoDeadlock(c: Config, s: State, t: nat)
    requires c.Valid() && Reachable(c, s) && t < |s.pcs| && GrantPossible(c, s)
    ensures !Stuck(c, s, t) || (s.lock.Some? && s.lock.value < |s.pcs| && !Stuck(c, s, s.lock.value))
  {
    var free := ReachableInv(c, s);
    if s.pcs[t] == Blocked && s.lock.Some? {
      Moves(c, s, s.lock.value);
    } else {
      Moves(c, s, t);
    }
  }

  lemma Moves(c: Config, s: State, t: nat)
    requires c.Valid() && t < |s.pcs| && GrantPossible(c, s)
    requires s.pcs[t] == Blocked ==> s.lock == None
    ensures !Stuck(c, s, t)
  {
    var r :| Granted(c, s.store, r);
    var k := match s.pcs[t]
      case Idle => Call(t)
      case Popping => Pop(t)
      case Blocked => Acquire(t)
      case Locked => Query(t)
      case Carving => TakeMemory(t, r)
      case Slicing(_, _) => PushSlice(t)
      case Unlocking => Unlock(t)
      case Freeing(_) => PushFreed(t);
    assert Enabled(c, s, k) && k.t == t;
  }

  // ----- the mutex is always given back -----

  /** Slices of a group still to be pushed. */
  ghost function Left(c: Config, index: nat): nat
    requires c.slot > 0
  {
    if index < c.group then CeilDiv(c.group - index, c.slot) else 0
  }

  /** How many steps a lock holder is away from having released the mutex. */
  ghost function HolderSteps(c: Config, pc: Pc): nat
    requires c.slot > 0
  {
    match pc
    case Locked => CeilDiv(c.group, c.slot) + 4
    case Carving => CeilDiv(c.group, c.slot) + 3
    case Slicing(_, index) => Left(c, index) + 2
    case Unlocking => 1
    case _ => 0
  }

  lemma LeftShrinks(c: Config, index: nat)
    requires c.slot > 0 && index < c.group
    ensures Left(c, index + c.slot) < Left(c, index) <= CeilDiv(c.group, c.slot)
  {
    var rest := c.group - index;
    if rest > c.slot {
      CeilStep(rest, c.slot);
    } else {
      DivUnique(rest + c.slot - 1, c.slot, 1, rest - 1);
    }
    DivMonotone(rest + c.slot - 1, c.group + c.slot - 1, c.slot);
  }

  /** Each step of the lock holder brings it closer to the release; no other step moves it or takes
      the mutex from it. */
  lemma HolderProgress(c: Config, s: State, t: nat, k: Step)
    requires c.Valid() && Threads(s) && s.lock == Some(t) && Enabled(c, s, k)
    ensures var s' := Apply(c, s, k);
      if !k.Foreign? && k.t == t then
        && HolderSteps(c, s'.pcs[t]) < HolderSteps(c, s.pcs[t])
        && (s'.lock == Some(t) || (s'.lock == None && k.Unlock?))
      else s'.lock == Some(t) && s'.pcs[t] == s.pcs[t]
  {
    assert s.pcs[t].HoldsLock();
    if k.PushSlice? && k.t == t && s.pcs[t].index < c.group {
      LeftShrinks(c, s.pcs[t].index);
    }
  }

  ghost function StepsBy(ks: seq<Step>, t: nat): nat {
    if ks == [] then 0 else (if !ks[0].Foreign? && ks[0].t == t then 1 else 0) + StepsBy(ks[1..], t)
  }

  /** The mutex stays with t at every point of the run. */
  ghost predicate Keeps(c: Config, s: State, ks: seq<Step>, t: nat)
    requires c.Positive() && Executable(c, s, ks)
    decreases |ks|
  {
    s.lock == Some(t) && (ks != [] ==> Keeps(c, Apply(c, s, ks[0]), ks[1..], t))
  }

  /** However the other threads interleave, a thread takes only boundedly many steps while it has the
      mutex, and at its last one it can only release it. */
  lemma {:induction false} HolderBound(c: Config, s: State, free: seq<nat>, ks: seq<Step>, t: nat)
    requires c.Valid() && Inv(c, s, free) && Executable(c, s, ks) && Keeps(c, s, ks, t)
    ensures t < |s.pcs| && t < |Exec(c, s, ks).pcs|
    ensures StepsBy(ks, t) + HolderSteps(c, Exec(c, s, ks).pcs[t]) <= HolderSteps(c, s.pcs[t])
    ensures HolderSteps(c, Exec(c, s, ks).pcs[t]) > 0
    decreases |ks|
  {
    assert s.pcs[t].HoldsLock();
    if ks != [] {
      StepKeeps(c, s, free, ks[0]);
      HolderProgress(c, s, t, ks[0]);
      HolderBound(c, Apply(c, s, ks[0]), FreeAfter(c, s, free, ks[0]), ks[1..], t);
    }
  }

  /** The rest of a run that has only the release to come. */
  lemma Released(c: Config, s: State, t: nat, before: seq<Step>) returns (ks: seq<Step>)
    requires c.Positive() && AllBy(before, t) && Executable(c, s, before)
    requires t < |Exec(c, s, before).pcs| && Exec(c, s, before).pcs[t] == Unlocking
    ensures AllBy(ks, t) && Executable(c, s, ks) && Exec(c, s, ks).lock == None
  {
    Extend(c, s, before, Unlock(t));
    ks := before + [Unlock(t)];
  }

  lemma GrownOut(c: Config, s: State, t: nat, r: nat) returns (ks: seq<Step>)
    requires c.Valid() && Layout(c, s.store) && Enabled(c, s, TakeMemory(t, r))
    ensures AllBy(ks, t) && Executable(c, s, ks) && Exec(c, s, ks).lock == None
  {
    LayoutCarve(c, s.store, r);
    var grow := GrowAlone(c, s, t, r);
    ks := Released(c, s, t, grow);
  }

  lemma QueriedOut(c: Config, s: State, t: nat, r: nat) returns (ks: seq<Step>)
    requires c.Valid() && Layout(c, s.store) && Enabled(c, s, Query(t)) && Granted(c, s.store, r)
    ensures AllBy(ks, t) && Executable(c, s, ks) && Exec(c, s, ks).lock == None
  {
    ExecOne(c, s, Query(t));
    var s' := Apply(c, s, Query(t));
    if s.store.depth == 0 {
      var rest := GrownOut(c, s', t, r);
      ExecAppend(c, s, [Query(t)], rest);
      ks := [Query(t)] + rest;
    } else {
      ks := Released(c, s, t, [Query(t)]);
    }
  }

  /** While the system can grant memory, the holder on its own gets to the release. */
  lemma MutexReturned(c: Config, s: State, free: seq<nat>, t: nat) returns (ks: seq<Step>)
    requires c.Valid() && Inv(c, s, free) && s.lock == Some(t) && GrantPossible(c, s)
    ensures AllBy(ks, t) && Executable(c, s, ks) && Exec(c, s, ks).lock == None
  {
    assert s.pcs[t].HoldsLock();
    var r :| Granted(c, s.store, r);
    match s.pcs[t] {
      case Locked => ks := QueriedOut(c, s, t, r);
      case Carving => ks := GrownOut(c, s, t, r);
      case Slicing(_, _) =>
        var slice := SlicingAlone(c, s, t);
        ks := Released(c, s, t, slice);
      case _ => ks := Released(c, s, t, []);
    }
  }

  // ----- destruction -----

  lemma {:induction false} ReturnAllQueue(c: Config, s: Store, gs: seq<nat>)
    ensures ReturnAll(c, s, gs) == s.(mem := ReturnAll(c, s, gs).mem, queue := s.queue + gs)
    decreases |gs|
  {
    if gs != [] {
      ReturnAllQueue(c, ReturnGroup(c, s, gs[0]), gs[1..]);
      assert s.queue + gs == (s.queue + [gs[0]]) + gs[1..];
    } else {
      assert s.queue + gs == s.queue;
    }
  }

  lemma {:induction false} ReturnAllZero(c: Config, s: Store, gs: seq<nat>, g: nat)
    requires forall h :: h in gs ==> h + c.group <= |s.mem|
    requires g in gs || IsZero(s.mem, g, c.group)
    ensures IsZero(ReturnAll(c, s, gs).mem, g, c.group)
    decreases |gs|
  {
    if gs != [] {
      var u := ReturnGroup(c, s, gs[0]);
      assert gs[0] in gs;
      assert forall h :: h in gs[1..] ==> h in gs;
      assert g in gs[1..] || IsZero(u.mem, g, c.group) by {
        if g !in gs[1..] && g != gs[0] {
          assert gs == [gs[0]] + gs[1..];
        }
      }
      ReturnAllZero(c, u, gs[1..], g);
    }
  }

  /** After the object pool is destroyed the group queue holds every group ever created, each once
      and all zero, and the list is empty. */
  lemma DestroyReturnsEverything(c: Config, s: State, free: seq<nat>)
    requires c.Valid() && Inv(c, s, free)
    ensures var d := Destroy(c, s.store);
      && d.queue == s.store.queue + s.store.heads
      && multiset(d.queue) == multiset(Cut(s.store.regions, c.size, c.group))
      && d.regions == s.store.regions
      && |d.heads| == |s.store.heads| && (forall h :: h in d.heads ==> h == 0)
      && (forall g :: g in d.queue ==> IsZero(d.mem, g, c.group))
      && Chain(d.mem, d.top, [])
      && d.depth == 0
  {
    var flushed := s.store.(top := 0, depth := 0);
    ReturnAllQueue(c, flushed, s.store.heads);
    var d := Destroy(c, s.store);
    assert multiset(s.store.heads + s.store.queue) == multiset(s.store.heads) + multiset(s.store.queue);
    forall h | h in s.store.heads ensures h + c.group <= |s.store.mem| {
      assert h in s.store.heads + s.store.queue;
      GroupPlace(c, s.store, h);
    }
    forall g | g in d.queue ensures IsZero(d.mem, g, c.group) {
      ReturnAllZero(c, flushed, s.store.heads, g);
    }
  }
}
