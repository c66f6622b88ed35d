/** Any number of threads allocating, using and freeing objects of one ObjectPool, one atomic step
    at a time. */
module SlabSystem {
  import opened Bytes
  import opened Memory
  import opened Options
  import opened Slicing
  import opened SlabStore

  /** Where a thread stands. Popping to Unlocking are the points of AllocateObject's loop; Slicing
      is the loop of AllocateMemory; Freeing is FreeObject between its memset and its push. */
  datatype Pc =
    | Idle
    | Popping
    | Blocked
    | Locked
    | Carving
    | Slicing(base: nat, index: nat)
    | Unlocking
    | Freeing(slot: nat)
  {
    predicate HoldsLock() {
      Locked? || Carving? || Slicing? || Unlocking?
    }

    predicate InGrowth() {
      Carving? || Slicing?
    }
  }

  /** `owner` maps each object in use to the thread responsible for it. */
  datatype State = State(store: Store, lock: Option<nat>, pcs: seq<Pc>, owner: map<nat, nat>)

  datatype Step =
    | Call(t: nat)
    | Pop(t: nat)
    | Acquire(t: nat)
    | Query(t: nat)
    | TakeMemory(t: nat, region: nat)
    | PushSlice(t: nat)
    | Unlock(t: nat)
    | Write(t: nat, x: nat, offset: nat, v: Byte)
    | Clear(t: nat, x: nat)
    | PushFreed(t: nat)
    | Give(t: nat, x: nat, receiver: nat)
    | Foreign(a: nat, v: Byte)

  ghost predicate Enabled(c: Config, s: State, k: Step) {
    match k
    case Call(t) => t < |s.pcs| && s.pcs[t] == Idle
    case Pop(t) => t < |s.pcs| && s.pcs[t] == Popping
    case Acquire(t) => t < |s.pcs| && s.pcs[t] == Blocked && s.lock == None
    case Query(t) => t < |s.pcs| && s.pcs[t] == Locked
    case TakeMemory(t, r) => t < |s.pcs| && s.pcs[t] == Carving && (s.store.queue == [] ==> Granted(c, s.store, r))
    case PushSlice(t) => t < |s.pcs| && s.pcs[t].Slicing?
    case Unlock(t) => t < |s.pcs| && s.pcs[t] == Unlocking
    case Write(t, x, offset, _) => t < |s.pcs| && s.pcs[t] == Idle && x in s.owner && s.owner[x] == t && offset < c.slot
    case Clear(t, x) => t < |s.pcs| && s.pcs[t] == Idle && x in s.owner && s.owner[x] == t
    case PushFreed(t) => t < |s.pcs| && s.pcs[t].Freeing?
    case Give(t, x, u) => t < |s.pcs| && u < |s.pcs| && s.pcs[t] == Idle && x in s.owner && s.owner[x] == t
    case Foreign(a, _) => forall i :: 0 <= i < |s.store.regions| ==> Disjoint(a, 1, s.store.regions[i], c.size)
  }

  // ----- the steps that touch the store -----

  ghost function AfterPop(s: State, t: nat): State
    requires t < |s.pcs|
  {
    var (store, x) := PopEntry(s.store);
    if x == 0 then s.(pcs := s.pcs[t := Blocked])
    else s.(store := store, pcs := s.pcs[t := Idle], owner := s.owner[x := t])
  }

  ghost function AfterTake(c: Config, s: State, t: nat, r: nat): State
    requires c.group > 0 && t < |s.pcs|
  {
    var (store, g) := Carve(c, s.store, r);
    s.(store := store, pcs := s.pcs[t := if g == 0 then Unlocking else Slicing(g, 0)])
  }

  /** The address a slicing thread pushes next. */
  ghost function NextSlice(s: State, t: nat): nat
    requires t < |s.pcs| && s.pcs[t].Slicing?
  {
    s.pcs[t].base + s.pcs[t].index
  }

  ghost function AfterSlice(c: Config, s: State, t: nat): State
    requires t < |s.pcs| && s.pcs[t].Slicing? && s.pcs[t].index < c.group
  {
    s.(store := PushEntry(s.store, NextSlice(s, t)),
       pcs := s.pcs[t := Slicing(s.pcs[t].base, s.pcs[t].index + c.slot)])
  }

  ghost function AfterClear(c: Config, s: State, t: nat, x: nat): State
    requires t < |s.pcs|
  {
    s.(store := s.store.(mem := Zeroed(s.store.mem, x, c.slot)), pcs := s.pcs[t := Freeing(x)])
  }

  ghost function AfterFreed(s: State, t: nat): State
    requires t < |s.pcs| && s.pcs[t].Freeing?
  {
    var x := s.pcs[t].slot;
    s.(store := PushEntry(s.store, x), pcs := s.pcs[t := Idle], owner := s.owner - {x})
  }

  ghost function AfterWrite(s: State, a: nat, v: Byte): State {
    s.(store := s.store.(mem := WriteByte(s.store.mem, a, v)))
  }

  ghost function Apply(c: Config, s: State, k: Step): State
    requires c.group > 0 && Enabled(c, s, k)
  {
    match k
    case Call(t) => s.(pcs := s.pcs[t := Popping])
    case Pop(t) => AfterPop(s, t)
    case Acquire(t) => s.(lock := Some(t), pcs := s.pcs[t := Locked])
    case Query(t) => s.(pcs := s.pcs[t := if s.store.depth == 0 then Carving else Unlocking])
    case TakeMemory(t, r) => AfterTake(c, s, t, r)
    case PushSlice(t) =>
      if s.pcs[t].index < c.group then AfterSlice(c, s, t) else s.(pcs := s.pcs[t := Unlocking])
    case Unlock(t) => s.(lock := None, pcs := s.pcs[t := Popping])
    case Write(_, x, offset, v) => AfterWrite(s, x + offset, v)
    case Clear(t, x) => AfterClear(c, s, t, x)
    case PushFreed(t) => AfterFreed(s, t)
    case Give(_, x, u) => s.(owner := s.owner[x := u])
    case Foreign(a, v) => AfterWrite(s, a, v)
  }

  // ----- the invariant -----

  ghost predicate Threads(s: State) {
    Locking(s) && Owning(s)
  }

  /** The slots of the newest group that the grower has yet to push. */
  ghost function Pending(c: Config, s: State): seq<nat>
    requires c.slot > 0
  {
    if s.lock.Some? && s.lock.value < |s.pcs| && s.pcs[s.lock.value].Slicing?
    then Slices(s.pcs[s.lock.value].base, s.pcs[s.lock.value].index, c.group, c.slot)
    else []
  }

  /** Each of `all` is, exactly once, free, in use, or about to be pushed. */
  ghost predicate Balanced(free: seq<nat>, used: set<nat>, pending: seq<nat>, all: seq<nat>) {
    multiset(free) + multiset(used) + multiset(pending) == multiset(all)
  }

  /** The account of the slots of every group handed out, and the list header's count. */
  ghost predicate Accounting(c: Config, s: State, free: seq<nat>)
    requires c.Valid()
  {
    && Balanced(free, s.owner.Keys, Pending(c, s), AllSlots(c, s.store))
    && s.store.depth == |free| % DEPTHS
  }

  /** The links in memory visit exactly `free`, and behind its link a free slot is zero. */
  ghost predicate FreeList(c: Config, m: seq<Byte>, top: nat, free: seq<nat>)
    requires c.Valid()
  {
    && Chain(m, top, free)
    && forall x :: x in free ==> IsZero(m, x + LINK, c.slot - LINK)
  }

  /** What is about to be pushed, and what is still queued, is zero. */
  ghost predicate Clean(c: Config, s: State)
    requires c.Valid()
  {
    && (forall x :: x in Pending(c, s) ==> IsZero(s.store.mem, x, c.slot))
    && (forall g :: g in s.store.queue ==> IsZero(s.store.mem, g, c.group))
    && (forall t :: 0 <= t < |s.pcs| && s.pcs[t].Freeing? ==> IsZero(s.store.mem, s.pcs[t].slot, c.slot))
  }

  /** What holds of the store. */
  ghost predicate Core(c: Config, s: State, free: seq<nat>)
    requires c.Valid()
  {
    && Layout(c, s.store)
    && Accounting(c, s, free)
    && FreeList(c, s.store.mem, s.store.top, free)
    && Clean(c, s)
  }

  ghost predicate Inv(c: Config, s: State, free: seq<nat>)
    requires c.Valid()
  {
    Threads(s) && Core(c, s, free)
  }

  /** The list after a step, as a function of the list before it. */
  ghost function FreeAfter(c: Config, s: State, free: seq<nat>, k: Step): seq<nat>
    requires Enabled(c, s, k)
  {
    match k
    case Pop(t) => if free == [] then free else free[1..]
    case PushSlice(t) => if s.pcs[t].index < c.group then [NextSlice(s, t)] + free else free
    case PushFreed(t) => [s.pcs[t].slot] + free
    case _ => free
  }

  // ----- consequences of the invariant that the step proofs use -----

  /** Which side of the account a slot is on. */
  lemma Where(c: Config, s: State, free: seq<nat>)
    requires c.Valid() && Inv(c, s, free)
    ensures forall x :: x in free ==> x in AllSlots(c, s.store) && x !in s.owner && x !in Pending(c, s)
    ensures forall x :: x in s.owner ==> x in AllSlots(c, s.store) && x !in free && x !in Pending(c, s)
    ensures forall x :: x in Pending(c, s) ==> x in AllSlots(c, s.store) && x !in free && x !in s.owner
    ensures forall t :: 0 <= t < |s.pcs| && s.pcs[t].Freeing? ==> s.pcs[t].slot in s.owner
    ensures forall t, u :: 0 <= t < u < |s.pcs| && s.pcs[t].Freeing? && s.pcs[u].Freeing? ==>
      s.pcs[t].slot != s.pcs[u].slot
  {
    SlotsApart(c, s.store);
    ThreeSides(free, s.owner.Keys, Pending(c, s), AllSlots(c, s.store));
  }

  lemma ThreeSides(free: seq<nat>, used: set<nat>, pending: seq<nat>, all: seq<nat>)
    requires Balanced(free, used, pending, all) && forall x :: multiset(all)[x] <= 1
    ensures forall x :: x in free ==> x in all && x !in used && x !in pending
    ensures forall x :: x in used ==> x in all && x !in free && x !in pending
    ensures forall x :: x in pending ==> x in all && x !in free && x !in used
  {
    var f, o, p := multiset(free), multiset(used), multiset(pending);
    forall x ensures f[x] + o[x] + p[x] == multiset(all)[x] <= 1 {
      assert (f + o + p)[x] == f[x] + o[x] + p[x];
    }
    forall x | x in free ensures x in all && x !in used && x !in pending {
      assert f[x] > 0;
    }
    forall x | x in used ensures x in all && x !in free && x !in pending {
      assert o[x] > 0;
    }
    forall x | x in pending ensures x in all && x !in free && x !in used {
      assert p[x] > 0;
      assert x in used ==> o[x] > 0;
    }
  }

  lemma Sides(c: Config, s: State, free: seq<nat>)
    requires c.Valid() && Inv(c, s, free)
    ensures s.store.top != 0 ==> s.store.top in AllSlots(c, s.store) && s.store.top !in s.owner
    ensures forall x :: x in Pending(c, s) ==> x in AllSlots(c, s.store) && x !in s.owner
    ensures forall x :: x in s.owner ==> x in AllSlots(c, s.store)
  {
    Where(c, s, free);
    if free != [] {
      assert s.store.top == free[0] && free[0] in free;
    }
  }

  /** A change confined to one slot leaves every other slot and every queued group alone. */
  lemma SlotFrame(c: Config, s: State, free: seq<nat>, x: nat, m: seq<Byte>)
    requires c.Valid() && Inv(c, s, free)
    requires x in AllSlots(c, s.store) && OnlyChanged(s.store.mem, m, x, c.slot)
    ensures forall y :: y in AllSlots(c, s.store) && y != x ==> SameBytes(s.store.mem, m, y, c.slot)
    ensures forall g :: g in s.store.queue ==> SameBytes(s.store.mem, m, g, c.group)
  {
    SlotsApart(c, s.store);
    forall g | g in s.store.queue ensures SameBytes(s.store.mem, m, g, c.group) {
      SlotQueueApart(c, s.store, x, g);
    }
  }

  lemma ZeroFrame(m: seq<Byte>, n: seq<Byte>, a: nat, len: nat)
    requires SameBytes(m, n, a, len) && IsZero(m, a, len)
    ensures IsZero(n, a, len)
  {
  }

  lemma ZeroPart(m: seq<Byte>, a: nat, len: nat, b: nat, k: nat)
    requires IsZero(m, a, len) && a <= b && b + k <= a + len
    ensures IsZero(m, b, k)
  {
  }

  /** If the slot x is not on the list and only x's bytes change, the list survives. */
  lemma ListFrame(c: Config, s: State, free: seq<nat>, x: nat, m: seq<Byte>)
    requires c.Valid() && Inv(c, s, free)
    requires x in AllSlots(c, s.store) && x !in free && OnlyChanged(s.store.mem, m, x, c.slot)
    ensures FreeList(c, m, s.store.top, free)
  {
    SlotFrame(c, s, free, x, m);
    Where(c, s, free);
    SlotPlace(c, s.store, x);
    forall y | y in free ensures SameBytes(s.store.mem, m, y, LINK) && IsZero(m, y + LINK, c.slot - LINK) {
      assert SameBytes(s.store.mem, m, y, c.slot);
      assert IsZero(s.store.mem, y + LINK, c.slot - LINK);
    }
    ChainFrame(s.store.mem, m, s.store.top, free);
  }

  /** What was clean stays clean when only the slot x changes, unless x itself is still claimed. */
  lemma CleanFrame(c: Config, s: State, free: seq<nat>, x: nat, s': State)
    requires c.Valid() && Inv(c, s, free)
    requires x in AllSlots(c, s.store) && OnlyChanged(s.store.mem, s'.store.mem, x, c.slot)
    requires s'.store.queue == s.store.queue
    requires forall y :: y in Pending(c, s') ==> y in Pending(c, s) && y != x
    requires forall t :: 0 <= t < |s'.pcs| && s'.pcs[t].Freeing? ==>
      if s'.pcs[t].slot == x then IsZero(s'.store.mem, x, c.slot)
      else t < |s.pcs| && s.pcs[t] == s'.pcs[t]
    ensures Clean(c, s')
  {
    SlotFrame(c, s, free, x, s'.store.mem);
    Where(c, s, free);
    var m, n := s.store.mem, s'.store.mem;
    forall y | y in Pending(c, s') ensures IsZero(n, y, c.slot) {
      ZeroFrame(m, n, y, c.slot);
    }
    forall g | g in s'.store.queue ensures IsZero(n, g, c.group) {
      ZeroFrame(m, n, g, c.group);
    }
    forall t | 0 <= t < |s'.pcs| && s'.pcs[t].Freeing? ensures IsZero(n, s'.pcs[t].slot, c.slot) {
      var y := s'.pcs[t].slot;
      if y != x {
        assert s.pcs[t].slot in s.owner;
        ZeroFrame(m, n, y, c.slot);
      }
    }
  }

  // ----- moving a slot between the three sides of the account -----

  lemma PopBalanced(free: seq<nat>, used: set<nat>, pending: seq<nat>, all: seq<nat>)
    requires Balanced(free, used, pending, all) && free != [] && free[0] !in used
    ensures Balanced(free[1..], used + {free[0]}, pending, all)
  {
    assert free == [free[0]] + free[1..];
    assert multiset(used + {free[0]}) == multiset(used) + multiset([free[0]]);
  }

  lemma FreedBalanced(free: seq<nat>, used: set<nat>, pending: seq<nat>, all: seq<nat>, x: nat)
    requires Balanced(free, used, pending, all) && x in used
    ensures Balanced([x] + free, used - {x}, pending, all)
  {
    assert multiset(used) == multiset(used - {x}) + multiset([x]);
  }

  lemma SliceBalanced(free: seq<nat>, used: set<nat>, pending: seq<nat>, all: seq<nat>, x: nat, rest: seq<nat>)
    requires Balanced(free, used, pending, all) && pending == [x] + rest
    ensures Balanced([x] + free, used, rest, all)
  {
    assert multiset(pending) == multiset([x]) + multiset(rest);
    assert multiset([x] + free) == multiset([x]) + multiset(free);
  }

  lemma TakenBalanced(free: seq<nat>, used: set<nat>, all: seq<nat>, more: seq<nat>)
    requires Balanced(free, used, [], all)
    ensures Balanced(free, used, more, all + more)
  {
  }

  /** The 16-bit depth field follows the length of the list. */
  lemma DepthFollows(n: nat)
    ensures (n % DEPTHS + 1) % DEPTHS == (n + 1) % DEPTHS
    ensures n > 0 ==> (n % DEPTHS + DEPTHS - 1) % DEPTHS == (n - 1) % DEPTHS
  {
  }

  lemma SameLayout(c: Config, s: Store, u: Store)
    requires c.Valid() && Layout(c, s)
    requires |u.mem| == |s.mem| && u.regions == s.regions && u.heads == s.heads && u.queue == s.queue
    ensures Layout(c, u) && AllSlots(c, u) == AllSlots(c, s)
  {
  }

  // ----- each step keeps the invariant -----

  /** Which thread holds the lock. */
  ghost predicate Locking(s: State) {
    && (s.lock.Some? ==> s.lock.value < |s.pcs|)
    && forall t :: 0 <= t < |s.pcs| ==> (s.pcs[t].HoldsLock() <==> s.lock == Some(t))
  }

  /** Every object in use, and every object being freed, has one responsible thread. */
  ghost predicate Owning(s: State) {
    && (forall t :: 0 <= t < |s.pcs| && s.pcs[t].Freeing? ==> s.pcs[t].slot in s.owner && s.owner[s.pcs[t].slot] == t)
    && (forall x :: x in s.owner ==> s.owner[x] < |s.pcs|)
  }

  lemma LockingKeeps(c: Config, s: State, k: Step)
    requires c.Valid() && Locking(s) && Enabled(c, s, k)
    ensures Locking(Apply(c, s, k))
  {
  }

  lemma OwningKeeps(c: Config, s: State, k: Step)
    requires c.Valid() && Owning(s) && Enabled(c, s, k)
    requires k.Pop? && s.store.top != 0 ==> s.store.top !in s.owner
    ensures Owning(Apply(c, s, k))
  {
  }

  lemma ThreadsKeep(c: Config, s: State, k: Step)
    requires c.Valid() && Threads(s) && Enabled(c, s, k)
    requires k.Pop? && s.store.top != 0 ==> s.store.top !in s.owner
    ensures Threads(Apply(c, s, k))
  {
    LockingKeeps(c, s, k);
    OwningKeeps(c, s, k);
  }

  lemma SameThreads(s: State, s': State)
    requires Threads(s) && s'.pcs == s.pcs && s'.lock == s.lock && s'.owner == s.owner
    ensures Threads(s')
  {
  }

  /** What is pending is decided by the one thread that is slicing. */
  lemma SamePending(c: Config, s: State, s': State)
    requires c.Valid() && Threads(s) && Threads(s') && |s'.pcs| == |s.pcs|
    requires forall t :: 0 <= t < |s.pcs| && (s.pcs[t].Slicing? || s'.pcs[t].Slicing?) ==> s.pcs[t] == s'.pcs[t]
    ensures Pending(c, s') == Pending(c, s)
  {
    if s.lock.Some? && s.pcs[s.lock.value].Slicing? {
      assert s'.pcs[s.lock.value].HoldsLock();
    }
  }

  lemma CleanSame(c: Config, s: State, s': State)
    requires c.Valid() && Clean(c, s)
    requires s'.store.mem == s.store.mem && s'.store.queue == s.store.queue && Pending(c, s') == Pending(c, s)
    requires forall t :: 0 <= t < |s'.pcs| && s'.pcs[t].Freeing? ==> t < |s.pcs| && s.pcs[t] == s'.pcs[t]
    ensures Clean(c, s')
  {
  }

  lemma PopKeeps(c: Config, s: State, free: seq<nat>, t: nat)
    requires c.Valid() && Inv(c, s, free) && t < |s.pcs| && s.pcs[t] == Popping && Threads(AfterPop(s, t))
    ensures Core(c, AfterPop(s, t), if free == [] then free else free[1..])
  {
    if free == [] {
      SamePending(c, s, AfterPop(s, t));
      ThreadKeeps(c, s, free, AfterPop(s, t));
    } else {
      PopSome(c, s, free, t);
    }
  }

  lemma PopSome(c: Config, s: State, free: seq<nat>, t: nat)
    requires c.Valid() && Inv(c, s, free) && t < |s.pcs| && s.pcs[t] == Popping && Threads(AfterPop(s, t))
    requires free != []
    ensures Core(c, AfterPop(s, t), free[1..])
  {
    PopClean(c, s, t);
    PopListed(c, s, free, t);
    Sides(c, s, free);
    PopAccounted(c, s, free, AfterPop(s, t));
  }

  lemma PopClean(c: Config, s: State, t: nat)
    requires c.Valid() && Threads(s) && Clean(c, s) && t < |s.pcs| && s.pcs[t] == Popping && Threads(AfterPop(s, t))
    ensures Clean(c, AfterPop(s, t)) && Pending(c, AfterPop(s, t)) == Pending(c, s)
  {
    SamePending(c, s, AfterPop(s, t));
    CleanSame(c, s, AfterPop(s, t));
  }

  lemma PopListed(c: Config, s: State, free: seq<nat>, t: nat)
    requires c.Valid() && Layout(c, s.store) && FreeList(c, s.store.mem, s.store.top, free) && free != [] && t < |s.pcs|
    ensures var u := AfterPop(s, t).store; Layout(c, u) && FreeList(c, u.mem, u.top, free[1..])
  {
    PoppedList(c, s.store.mem, s.store.top, free);
    SameLayout(c, s.store, AfterPop(s, t).store);
  }

  lemma PoppedList(c: Config, m: seq<Byte>, top: nat, free: seq<nat>)
    requires c.Valid() && FreeList(c, m, top, free) && free != []
    ensures FreeList(c, m, ReadLink(m, top), free[1..])
  {
    assert forall y :: y in free[1..] ==> y in free;
  }

  lemma PopAccounted(c: Config, s: State, free: seq<nat>, s': State)
    requires c.Valid() && Accounting(c, s, free) && free != [] && free[0] !in s.owner
    requires Pending(c, s') == Pending(c, s) && s'.owner.Keys == s.owner.Keys + {free[0]}
    requires s'.store.heads == s.store.heads && s'.store.depth == (s.store.depth + DEPTHS - 1) % DEPTHS
    ensures Accounting(c, s', free[1..])
  {
    PopBalanced(free, s.owner.Keys, Pending(c, s), AllSlots(c, s.store));
    DepthFollows(|free|);
  }

  lemma TakeMemoryKeeps(c: Config, s: State, free: seq<nat>, t: nat, r: nat)
    requires c.Valid() && Inv(c, s, free) && t < |s.pcs| && s.pcs[t] == Carving && Threads(AfterTake(c, s, t, r))
    requires s.store.queue == [] ==> Granted(c, s.store, r)
    ensures Core(c, AfterTake(c, s, t, r), free)
  {
    var u := if s.store.queue == [] then AddRegion(c, s.store, r) else s.store;
    var s' := AfterTake(c, s, t, r);
    LayoutCarve(c, s.store, r);
    assert s.lock == Some(t) && Pending(c, s) == [];
    assert s'.pcs[t] == Pc.Slicing(u.queue[0], 0) && s'.lock == Some(t);
    assert Pending(c, s') == Slices(u.queue[0], 0, c.group, c.slot);
    TakeAccounted(c, s, free, s');
    RegionFrame(c, s, free, r);
    CleanAfterTake(c, s, u, s');
  }

  lemma TakeAccounted(c: Config, s: State, free: seq<nat>, s': State)
    requires c.Valid() && Accounting(c, s, free) && Pending(c, s) == []
    requires s'.owner == s.owner && s'.store.depth == s.store.depth
    requires AllSlots(c, s'.store) == AllSlots(c, s.store) + Pending(c, s')
    ensures Accounting(c, s', free)
  {
    TakenBalanced(free, s.owner.Keys, AllSlots(c, s.store), Pending(c, s'));
  }

  lemma CleanAfterTake(c: Config, s: State, u: Store, s': State)
    requires c.Valid() && u.queue != []
    requires forall g :: g in u.queue ==> IsZero(u.mem, g, c.group)
    requires forall t :: 0 <= t < |s.pcs| && s.pcs[t].Freeing? ==> IsZero(u.mem, s.pcs[t].slot, c.slot)
    requires s'.store.mem == u.mem && s'.store.queue == u.queue[1..]
    requires Pending(c, s') == Slices(u.queue[0], 0, c.group, c.slot)
    requires forall t :: 0 <= t < |s'.pcs| && s'.pcs[t].Freeing? ==> t < |s.pcs| && s.pcs[t] == s'.pcs[t]
    ensures Clean(c, s')
  {
    assert u.queue[0] in u.queue;
    GroupSlicesZero(c, u.mem, u.queue[0]);
  }

  lemma GroupSlicesZero(c: Config, m: seq<Byte>, g: nat)
    requires c.Valid() && IsZero(m, g, c.group)
    ensures forall x :: x in Slices(g, 0, c.group, c.slot) ==> IsZero(m, x, c.slot)
  {
    SlicesInside(g, 0, c.group, c.slot);
  }

  /** Granting a region disturbs nothing that exists, and its groups are zero. */
  lemma RegionFrame(c: Config, s: State, free: seq<nat>, r: nat)
    requires c.Valid() && Inv(c, s, free) && Pending(c, s) == []
    requires s.store.queue == [] ==> Granted(c, s.store, r)
    ensures var u := if s.store.queue == [] then AddRegion(c, s.store, r) else s.store;
      && FreeList(c, u.mem, u.top, free)
      && (forall g :: g in u.queue ==> IsZero(u.mem, g, c.group))
      && (forall t :: 0 <= t < |s.pcs| && s.pcs[t].Freeing? ==> IsZero(u.mem, s.pcs[t].slot, c.slot))
  {
    if s.store.queue == [] {
      var u := AddRegion(c, s.store, r);
      Where(c, s, free);
      forall x | x in AllSlots(c, s.store) ensures SameBytes(s.store.mem, u.mem, x, c.slot) && c.slot >= LINK {
        SlotInRegion(c, s.store, x);
      }
      OutsideFrame(c, s, free, u.mem);
      SlicesInside(r, 0, c.size, c.group);
    }
  }

  /** If no existing slot changes, neither the list nor the slots being freed change. */
  lemma OutsideFrame(c: Config, s: State, free: seq<nat>, n: seq<Byte>)
    requires c.Valid() && Inv(c, s, free)
    requires |n| == |s.store.mem|
    requires forall x :: x in AllSlots(c, s.store) ==> SameBytes(s.store.mem, n, x, c.slot) && c.slot >= LINK
    ensures FreeList(c, n, s.store.top, free)
    ensures forall t :: 0 <= t < |s.pcs| && s.pcs[t].Freeing? ==> IsZero(n, s.pcs[t].slot, c.slot)
    ensures forall x :: x in Pending(c, s) ==> IsZero(n, x, c.slot)
  {
    var m := s.store.mem;
    Where(c, s, free);
    forall y | y in free ensures SameBytes(m, n, y, LINK) && IsZero(n, y + LINK, c.slot - LINK) {
      assert SameBytes(m, n, y, c.slot);
      assert IsZero(m, y + LINK, c.slot - LINK);
    }
    ChainFrame(m, n, s.store.top, free);
    forall t | 0 <= t < |s.pcs| && s.pcs[t].Freeing? ensures IsZero(n, s.pcs[t].slot, c.slot) {
      ZeroFrame(m, n, s.pcs[t].slot, c.slot);
    }
    forall x | x in Pending(c, s) ensures IsZero(n, x, c.slot) {
      ZeroFrame(m, n, x, c.slot);
    }
  }

  lemma SlotInRegion(c: Config, s: Store, x: nat)
    requires c.Valid() && Layout(c, s) && x in AllSlots(c, s)
    ensures exists i :: 0 <= i < |s.regions| && s.regions[i] <= x && x + c.slot <= s.regions[i] + c.size
    ensures c.slot >= ALIGN
  {
    SlotPlace(c, s, x);
    var h :| h in s.heads && h <= x && x + c.slot <= h + c.group;
    GroupPlace(c, s, h);
  }

  /** Pushing the zeroed slot x, once the account is settled. */
  lemma PushedCore(c: Config, s: State, free: seq<nat>, x: nat, s': State)
    requires c.Valid() && Inv(c, s, free) && (x in s.owner || x in Pending(c, s)) && IsZero(s.store.mem, x, c.slot)
    requires s'.store == PushEntry(s.store, x) && Accounting(c, s', [x] + free)
    requires forall y :: y in Pending(c, s') ==> y in Pending(c, s) && y != x
    requires forall t :: 0 <= t < |s'.pcs| && s'.pcs[t].Freeing? ==>
      s'.pcs[t].slot != x && t < |s.pcs| && s.pcs[t] == s'.pcs[t]
    ensures Core(c, s', [x] + free)
  {
    PushPart(c, s, free, x);
    CleanFrame(c, s, free, x, s');
  }

  lemma PushSliceKeeps(c: Config, s: State, free: seq<nat>, t: nat)
    requires c.Valid() && Inv(c, s, free) && t < |s.pcs| && s.pcs[t].Slicing? && s.pcs[t].index < c.group
    ensures Core(c, AfterSlice(c, s, t), [NextSlice(s, t)] + free)
  {
    var x, s' := NextSlice(s, t), AfterSlice(c, s, t);
    NextPending(c, s, free, t);
    SliceAccounted(c, s, free, t);
    PushedCore(c, s, free, x, s');
  }

  lemma SliceAccounted(c: Config, s: State, free: seq<nat>, t: nat)
    requires c.Valid() && Threads(s) && Accounting(c, s, free)
    requires t < |s.pcs| && s.pcs[t].Slicing? && s.pcs[t].index < c.group
    ensures Accounting(c, AfterSlice(c, s, t), [NextSlice(s, t)] + free)
  {
    PendingStep(c, s, t);
    AccountSliced(c, s, free, AfterSlice(c, s, t), NextSlice(s, t));
  }

  lemma NextPending(c: Config, s: State, free: seq<nat>, t: nat)
    requires c.Valid() && Inv(c, s, free) && t < |s.pcs| && s.pcs[t].Slicing? && s.pcs[t].index < c.group
    ensures var x := NextSlice(s, t);
      && Pending(c, s) == [x] + Pending(c, AfterSlice(c, s, t))
      && x in Pending(c, s) && x !in Pending(c, AfterSlice(c, s, t))
      && IsZero(s.store.mem, x, c.slot)
      && forall u :: 0 <= u < |s.pcs| && s.pcs[u].Freeing? ==> s.pcs[u].slot != x
  {
    PendingStep(c, s, t);
    Where(c, s, free);
  }

  lemma AccountSliced(c: Config, s: State, free: seq<nat>, s': State, x: nat)
    requires c.Valid() && Accounting(c, s, free) && Pending(c, s) == [x] + Pending(c, s')
    requires s'.owner == s.owner && s'.store.heads == s.store.heads
    requires s'.store.depth == (s.store.depth + 1) % DEPTHS
    ensures Accounting(c, s', [x] + free)
  {
    SliceBalanced(free, s.owner.Keys, Pending(c, s), AllSlots(c, s.store), x, Pending(c, s'));
    DepthFollows(|free|);
  }

  /** The next slice to push is the first that is pending. */
  lemma PendingStep(c: Config, s: State, t: nat)
    requires c.Valid() && Threads(s) && t < |s.pcs| && s.pcs[t].Slicing? && s.pcs[t].index < c.group
    ensures var x := NextSlice(s, t);
      && Pending(c, s) == [x] + Pending(c, AfterSlice(c, s, t))
      && x in Pending(c, s) && x !in Pending(c, AfterSlice(c, s, t))
  {
    var Slicing(base, index) := s.pcs[t];
    var s' := AfterSlice(c, s, t);
    assert s.lock == Some(t);
    PendingOnce(base, index, c.group, c.slot);
    assert s'.pcs[t] == Pc.Slicing(base, index + c.slot) && s'.lock == Some(t);
    assert Pending(c, s') == Slices(base, index + c.slot, c.group, c.slot);
    assert Pending(c, s) == Slices(base, index, c.group, c.slot);
  }

  lemma PendingOnce(base: nat, index: nat, total: nat, step: nat)
    requires step > 0 && index < total
    ensures base + index !in Slices(base, index + step, total, step)
  {
    var rest := Slices(base, index + step, total, step);
    forall k | 0 <= k < |rest| ensures rest[k] != base + index {
      SliceAt(base, index + step, total, step, k);
    }
  }

  /** A slot in use or pending is off the list and can hold a link. */
  lemma OffList(c: Config, s: State, free: seq<nat>, x: nat)
    requires c.Valid() && Inv(c, s, free)
    requires x in s.owner || x in Pending(c, s)
    ensures x in AllSlots(c, s.store) && x !in free
    ensures x != 0 && x + c.slot <= |s.store.mem| && c.slot >= ALIGN && |s.store.mem| <= Pow256(LINK)
    ensures forall y :: y in free ==> Disjoint(y, LINK, x, LINK)
  {
    Where(c, s, free);
    SlotPlace(c, s.store, x);
    SlotsApart(c, s.store);
    forall y | y in free ensures Disjoint(y, LINK, x, LINK) {
      assert Disjoint(x, c.slot, y, c.slot);
    }
  }

  /** The list after the zeroed slot x has been pushed. */
  lemma PushedList(c: Config, m: seq<Byte>, n: seq<Byte>, top: nat, free: seq<nat>, x: nat)
    requires c.Valid() && c.slot >= ALIGN && IsZero(m, x, c.slot) && OnlyChanged(m, n, x, LINK)
    requires FreeList(c, n, top, free) && Chain(n, x, [x] + free)
    ensures FreeList(c, n, x, [x] + free)
  {
    ZeroPart(m, x, c.slot, x + LINK, c.slot - LINK);
    PushedZero(m, n, free, x, c.slot - LINK);
  }

  lemma PushedZero(m: seq<Byte>, n: seq<Byte>, free: seq<nat>, x: nat, len: nat)
    requires OnlyChanged(m, n, x, LINK) && IsZero(m, x + LINK, len)
    requires forall y :: y in free ==> IsZero(n, y + LINK, len)
    ensures forall y :: y in [x] + free ==> IsZero(n, y + LINK, len)
  {
    ZeroFrame(m, n, x + LINK, len);
  }

  /** What a push of the zeroed slot x, in use or pending, does to the store. */
  lemma PushPart(c: Config, s: State, free: seq<nat>, x: nat)
    requires c.Valid() && Inv(c, s, free)
    requires x in s.owner || x in Pending(c, s)
    requires IsZero(s.store.mem, x, c.slot)
    ensures var u := PushEntry(s.store, x);
      && FreeList(c, u.mem, u.top, [x] + free)
      && OnlyChanged(s.store.mem, u.mem, x, c.slot)
      && Layout(c, u)
      && x in AllSlots(c, s.store)
  {
    var u := PushEntry(s.store, x);
    OffList(c, s, free, x);
    ListFrame(c, s, free, x, u.mem);
    ChainPush(s.store.mem, s.store.top, free, x);
    PushedList(c, s.store.mem, u.mem, s.store.top, free, x);
    SameLayout(c, s.store, u);
  }

  lemma ClearKeeps(c: Config, s: State, free: seq<nat>, t: nat, x: nat)
    requires c.Valid() && Inv(c, s, free) && t < |s.pcs| && s.pcs[t] == Idle && x in s.owner && s.owner[x] == t
    requires Threads(AfterClear(c, s, t, x))
    ensures Core(c, AfterClear(c, s, t, x), free)
  {
    var s' := AfterClear(c, s, t, x);
    SamePending(c, s, s');
    Where(c, s, free);
    SlotPlace(c, s.store, x);
    ListFrame(c, s, free, x, s'.store.mem);
    CleanFrame(c, s, free, x, s');
    SameLayout(c, s.store, s'.store);
    SameAccount(c, s, free, s');
  }

  lemma SameAccount(c: Config, s: State, free: seq<nat>, s': State)
    requires c.Valid() && Accounting(c, s, free) && Pending(c, s') == Pending(c, s)
    requires s'.owner.Keys == s.owner.Keys && s'.store.heads == s.store.heads && s'.store.depth == s.store.depth
    ensures Accounting(c, s', free)
  {
  }

  lemma PushFreedKeeps(c: Config, s: State, free: seq<nat>, t: nat)
    requires c.Valid() && Inv(c, s, free) && t < |s.pcs| && s.pcs[t].Freeing? && Threads(AfterFreed(s, t))
    ensures Core(c, AfterFreed(s, t), [s.pcs[t].slot] + free)
  {
    var s', x := AfterFreed(s, t), s.pcs[t].slot;
    SamePending(c, s, s');
    FreedSlot(c, s, free, t);
    FreedAccounted(c, s, free, s', x);
    PushedCore(c, s, free, x, s');
  }

  lemma FreedSlot(c: Config, s: State, free: seq<nat>, t: nat)
    requires c.Valid() && Inv(c, s, free) && t < |s.pcs| && s.pcs[t].Freeing?
    ensures var x := s.pcs[t].slot;
      && x in s.owner && x !in Pending(c, s) && IsZero(s.store.mem, x, c.slot)
      && forall u :: 0 <= u < |s.pcs| && u != t && s.pcs[u].Freeing? ==> s.pcs[u].slot != x
  {
    Where(c, s, free);
  }

  lemma FreedAccounted(c: Config, s: State, free: seq<nat>, s': State, x: nat)
    requires c.Valid() && Accounting(c, s, free) && Pending(c, s') == Pending(c, s) && x in s.owner
    requires s'.owner == s.owner - {x} && s'.store.heads == s.store.heads
    requires s'.store.depth == (s.store.depth + 1) % DEPTHS
    ensures Accounting(c, s', [x] + free)
  {
    assert s'.owner.Keys == s.owner.Keys - {x};
    FreedBalanced(free, s.owner.Keys, Pending(c, s), AllSlots(c, s.store), x);
    DepthFollows(|free|);
  }

  lemma WriteKeeps(c: Config, s: State, free: seq<nat>, t: nat, x: nat, offset: nat, v: Byte)
    requires c.Valid() && Inv(c, s, free) && t < |s.pcs| && s.pcs[t] == Idle && x in s.owner && s.owner[x] == t
    requires offset < c.slot
    ensures Core(c, AfterWrite(s, x + offset, v), free)
  {
    var s' := AfterWrite(s, x + offset, v);
    SamePending(c, s, s');
    Where(c, s, free);
    assert OnlyChanged(s.store.mem, s'.store.mem, x, c.slot);
    ListFrame(c, s, free, x, s'.store.mem);
    CleanFrame(c, s, free, x, s');
    SameLayout(c, s.store, s'.store);
    SameAccount(c, s, free, s');
  }

  lemma ForeignKeeps(c: Config, s: State, free: seq<nat>, a: nat, v: Byte)
    requires c.Valid() && Inv(c, s, free)
    requires forall i :: 0 <= i < |s.store.regions| ==> Disjoint(a, 1, s.store.regions[i], c.size)
    ensures Core(c, AfterWrite(s, a, v), free)
  {
    var s' := AfterWrite(s, a, v);
    var m, n := s.store.mem, s'.store.mem;
    SamePending(c, s, s');
    forall x | x in AllSlots(c, s.store) ensures SameBytes(m, n, x, c.slot) && c.slot >= LINK {
      SlotInRegion(c, s.store, x);
    }
    OutsideFrame(c, s, free, n);
    forall g | g in s.store.queue ensures IsZero(n, g, c.group) {
      assert g in s.store.heads + s.store.queue;
      GroupPlace(c, s.store, g);
      ZeroFrame(m, n, g, c.group);
    }
    SameLayout(c, s.store, s'.store);
    SameAccount(c, s, free, s');
  }

  /** A step that moves threads or responsibility and leaves the store. */
  lemma ThreadKeeps(c: Config, s: State, free: seq<nat>, s': State)
    requires c.Valid() && Inv(c, s, free) && Threads(s') && s'.store == s.store
    requires s'.owner.Keys == s.owner.Keys && Pending(c, s') == Pending(c, s)
    requires forall t :: 0 <= t < |s'.pcs| && s'.pcs[t].Freeing? ==> t < |s.pcs| && s'.pcs[t] == s.pcs[t]
    ensures Core(c, s', free)
  {
    CleanSame(c, s, s');
    SameAccount(c, s, free, s');
  }

  /** The slicing loop ends: nothing is pending before or after. */
  lemma SlicingEnds(c: Config, s: State, t: nat, s': State)
    requires c.Valid() && Threads(s) && t < |s.pcs| && s.pcs[t].Slicing? && s.pcs[t].index >= c.group
    requires s' == s.(pcs := s.pcs[t := Unlocking])
    ensures Pending(c, s') == Pending(c, s) == []
  {
    assert s.lock == Some(t);
  }

  lemma PopStep(c: Config, s: State, free: seq<nat>, t: nat)
    requires c.Valid() && Inv(c, s, free) && Enabled(c, s, Pop(t))
    ensures Inv(c, Apply(c, s, Pop(t)), FreeAfter(c, s, free, Pop(t)))
  {
    Sides(c, s, free);
    ThreadsKeep(c, s, Pop(t));
    PopKeeps(c, s, free, t);
  }

  lemma TakeStep(c: Config, s: State, free: seq<nat>, t: nat, r: nat)
    requires c.Valid() && Inv(c, s, free) && Enabled(c, s, TakeMemory(t, r))
    ensures Inv(c, Apply(c, s, TakeMemory(t, r)), FreeAfter(c, s, free, TakeMemory(t, r)))
  {
    ThreadsKeep(c, s, TakeMemory(t, r));
    TakeMemoryKeeps(c, s, free, t, r);
  }

  lemma SliceStep(c: Config, s: State, free: seq<nat>, t: nat)
    requires c.Valid() && Inv(c, s, free) && Enabled(c, s, PushSlice(t)) && s.pcs[t].index < c.group
    ensures Inv(c, Apply(c, s, PushSlice(t)), FreeAfter(c, s, free, PushSlice(t)))
  {
    ThreadsKeep(c, s, PushSlice(t));
    PushSliceKeeps(c, s, free, t);
  }

  lemma SlicedStep(c: Config, s: State, free: seq<nat>, t: nat)
    requires c.Valid() && Inv(c, s, free) && Enabled(c, s, PushSlice(t)) && s.pcs[t].index >= c.group
    ensures Inv(c, Apply(c, s, PushSlice(t)), free)
  {
    var s' := Apply(c, s, PushSlice(t));
    ThreadsKeep(c, s, PushSlice(t));
    SlicingEnds(c, s, t, s');
    ThreadKeeps(c, s, free, s');
  }

  lemma ClearStep(c: Config, s: State, free: seq<nat>, t: nat, x: nat)
    requires c.Valid() && Inv(c, s, free) && Enabled(c, s, Clear(t, x))
    ensures Inv(c, Apply(c, s, Clear(t, x)), FreeAfter(c, s, free, Clear(t, x)))
  {
    ThreadsKeep(c, s, Clear(t, x));
    ClearKeeps(c, s, free, t, x);
  }

  lemma FreedStep(c: Config, s: State, free: seq<nat>, t: nat)
    requires c.Valid() && Inv(c, s, free) && Enabled(c, s, PushFreed(t))
    ensures Inv(c, Apply(c, s, PushFreed(t)), FreeAfter(c, s, free, PushFreed(t)))
  {
    ThreadsKeep(c, s, PushFreed(t));
    PushFreedKeeps(c, s, free, t);
  }

  lemma WriteStep(c: Config, s: State, free: seq<nat>, t: nat, x: nat, offset: nat, v: Byte)
    requires c.Valid() && Inv(c, s, free) && Enabled(c, s, Write(t, x, offset, v))
    ensures Inv(c, Apply(c, s, Write(t, x, offset, v)), FreeAfter(c, s, free, Write(t, x, offset, v)))
  {
    SameThreads(s, Apply(c, s, Write(t, x, offset, v)));
    WriteKeeps(c, s, free, t, x, offset, v);
  }

  lemma ForeignStep(c: Config, s: State, free: seq<nat>, a: nat, v: Byte)
    requires c.Valid() && Inv(c, s, free) && Enabled(c, s, Foreign(a, v))
    ensures Inv(c, Apply(c, s, Foreign(a, v)), FreeAfter(c, s, free, Foreign(a, v)))
  {
    SameThreads(s, Apply(c, s, Foreign(a, v)));
    ForeignKeeps(c, s, free, a, v);
  }

  lemma QuietStep(c: Config, s: State, free: seq<nat>, k: Step)
    requires c.Valid() && Inv(c, s, free) && Enabled(c, s, k)
    requires k.Call? || k.Acquire? || k.Query? || k.Unlock?
    ensures Inv(c, Apply(c, s, k), free)
  {
    var s' := Apply(c, s, k);
    ThreadsKeep(c, s, k);
    SamePending(c, s, s');
    ThreadKeeps(c, s, free, s');
  }

  lemma GiveStep(c: Config, s: State, free: seq<nat>, t: nat, x: nat, u: nat)
    requires c.Valid() && Inv(c, s, free) && Enabled(c, s, Give(t, x, u))
    ensures Inv(c, Apply(c, s, Give(t, x, u)), free)
  {
    var s' := Apply(c, s, Give(t, x, u));
    ThreadsKeep(c, s, Give(t, x, u));
    SamePending(c, s, s');
    assert s'.owner.Keys == s.owner.Keys;
    ThreadKeeps(c, s, free, s');
  }

  /** One step of any thread, or of the rest of the process, keeps the invariant. */
  lemma StepKeeps(c: Config, s: State, free: seq<nat>, k: Step)
    requires c.Valid() && Inv(c, s, free) && Enabled(c, s, k)
    ensures Inv(c, Apply(c, s, k), FreeAfter(c, s, free, k))
  {
    match k
    case Pop(t) => PopStep(c, s, free, t);
    case TakeMemory(t, r) => TakeStep(c, s, free, t, r);
    case PushSlice(t) =>
      if s.pcs[t].index < c.group {
        SliceStep(c, s, free, t);
      } else {
        SlicedStep(c, s, free, t);
      }
    case Write(t, x, offset, v) => WriteStep(c, s, free, t, x, offset, v);
    case Clear(t, x) => ClearStep(c, s, free, t, x);
    case PushFreed(t) => FreedStep(c, s, free, t);
    case Foreign(a, v) => ForeignStep(c, s, free, a, v);
    case Give(t, x, u) => GiveStep(c, s, free, t, x, u);
    case _ => QuietStep(c, s, free, k);
  }
}
