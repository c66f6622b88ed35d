/** The list header counts in 16 bits, and the re-check under the mutex trusts it: with 65536 free slots
    the pool grows all the same. */
module SlabDepth {
  import opened Bytes
  import opened Memory
  import opened Options
  import opened Slicing
  import opened SlabStore
  import opened SlabSystem
  import opened SlabRuns
  import opened SlabSolo
  import opened SlabTheorems
  import opened SlabOverlap

  // ----- memory for any number of objects -----

  /** Regions one behind the other. */
  ghost predicate InRow(c: Config, regions: seq<nat>) {
    forall i :: 0 <= i < |regions| ==> regions[i] == ALIGN + i * c.size
  }

  lemma RowAligned(c: Config, k: nat)
    requires c.Aligned()
    ensures (ALIGN + k * c.size) % ALIGN == 0
  {
    var q := c.size / c.group;
    ModMultiple(q, c.group, ALIGN);
    DivUnique(q * c.group, c.group, q, 0);
    ModMultiple(k, c.size, ALIGN);
  }

  lemma RowApart(i: nat, k: nat, d: nat)
    requires i < k
    ensures i * d + d <= k * d
  {
    Distribute(i, d);
    MulMonotone(i + 1, k, d);
  }

  lemma NextGranted(c: Config, s: Store, n: nat)
    requires c.Aligned() && InRow(c, s.regions) && |s.regions| < n && ALIGN + n * c.size <= |s.mem|
    ensures Granted(c, s, ALIGN + |s.regions| * c.size)
  {
    RowAligned(c, |s.regions|);
    RowApart(|s.regions|, n, c.size);
    forall i | 0 <= i < |s.regions| ensures s.regions[i] + c.size <= ALIGN + |s.regions| * c.size {
      RowApart(i, |s.regions|, c.size);
    }
  }

  lemma RowGrows(c: Config, regions: seq<nat>, r: nat)
    requires InRow(c, regions) && r == ALIGN + |regions| * c.size
    ensures InRow(c, regions + [r])
  {
  }

  // ----- one thread takes many objects -----

  /** All objects belong to thread 1, and there is no more than one region per object and one. */
  ghost predicate Stocked(c: Config, s: State) {
    && s.pcs == [Idle, Idle] && s.lock == None
    && (forall x :: x in s.owner ==> s.owner[x] == 1)
    && InRow(c, s.store.regions) && |s.store.regions| <= |s.owner| + 1
  }

  lemma AllocatedRegions(c: Config, s: Store, r: nat)
    requires c.Positive()
    ensures var t := AllocateAlone(c, s, r).0;
      |t.mem| == |s.mem| && (t.regions == s.regions || t.regions == s.regions + [r])
  {
    var (u, g) := Carve(c, s, r);
    PushAllKeeps(u, Slices(g, 0, c.group, c.slot));
  }

  lemma StillStocked(c: Config, s: State, r: nat)
    requires c.Positive() && Stocked(c, s) && r == ALIGN + |s.store.regions| * c.size
    ensures var (store, x) := AllocateAlone(c, s.store, r);
      var e := s.(store := store, owner := s.owner[x := 1]);
      x !in s.owner ==> Stocked(c, e) && |e.owner| == |s.owner| + 1 && |e.store.mem| == |s.store.mem|
  {
    AllocatedRegions(c, s.store, r);
    RowGrows(c, s.store.regions, r);
    var (store, x) := AllocateAlone(c, s.store, r);
    assert s.owner[x := 1].Keys == s.owner.Keys + {x};
  }

  lemma TakeOne(c: Config, s: State, free: seq<nat>, n: nat) returns (ks: seq<Step>, e: State, free': seq<nat>)
    requires c.Valid() && Inv(c, s, free) && Stocked(c, s)
    requires |s.owner| + 1 < n && ALIGN + n * c.size <= |s.store.mem|
    ensures Executable(c, s, ks) && Exec(c, s, ks) == e
    ensures Inv(c, e, free') && Stocked(c, e) && |e.owner| == |s.owner| + 1 && |e.store.mem| == |s.store.mem|
  {
    NextGranted(c, s.store, n);
    ks := SoloAllocate(c, s, free, 1, ALIGN + |s.store.regions| * c.size);
    StillStocked(c, s, ALIGN + |s.store.regions| * c.size);
    e := Exec(c, s, ks);
    RunKeeps(c, s, free, ks);
    free' := FreeAfterRun(c, s, free, ks);
  }

  lemma {:induction false} TakeMany(c: Config, s: State, free: seq<nat>, n: nat)
    returns (ks: seq<Step>, e: State, free': seq<nat>)
    requires c.Valid() && Inv(c, s, free) && Stocked(c, s)
    requires |s.owner| <= n && ALIGN + (n + 1) * c.size <= |s.store.mem|
    ensures Executable(c, s, ks) && Exec(c, s, ks) == e
    ensures Inv(c, e, free') && Stocked(c, e) && |e.owner| == n
    decreases n - |s.owner|
  {
    if |s.owner| == n {
      ks, e, free' := [], s, free;
    } else {
      var first, m, between := TakeOne(c, s, free, n + 1);
      var rest;
      rest, e, free' := TakeMany(c, m, between, n);
      ks := first + rest;
      ExecAppend(c, s, first, rest);
    }
  }

  // ----- and gives as many back -----

  lemma {:induction false} FreeMany(c: Config, s: State, xs: set<nat>) returns (ks: seq<Step>, e: State)
    requires c.Valid() && |s.pcs| == 2 && s.pcs[1] == Idle
    requires forall x :: x in xs ==> x in s.owner && s.owner[x] == 1
    ensures Executable(c, s, ks) && Exec(c, s, ks) == e
    ensures e == s.(store := e.store, owner := s.owner - xs) && e.store.heads == s.store.heads
    decreases |xs|
  {
    if xs == {} {
      ks, e := [], s;
      assert s.owner - xs == s.owner;
    } else {
      var x :| x in xs;
      var first := SoloFree(c, s, 1, x);
      var rest;
      rest, e := FreeMany(c, Exec(c, s, first), xs - {x});
      ks := first + rest;
      ExecAppend(c, s, first, rest);
      assert (s.owner - {x}) - (xs - {x}) == s.owner - xs;
    }
  }

  // ----- the other thread in between -----

  /** Thread 0 finds the list empty, thread 1 gives xs back, thread 0 gets the mutex. */
  lemma EmptyThenFull(c: Config, s: State, xs: set<nat>) returns (ks: seq<Step>, e: State)
    requires c.Valid() && s.pcs == [Idle, Idle] && s.lock == None && s.store.top == 0
    requires forall x :: x in xs ==> x in s.owner && s.owner[x] == 1
    ensures Executable(c, s, ks) && Exec(c, s, ks) == e
    ensures e.pcs == [Locked, Idle] && e.lock == Some(0)
    ensures e.owner == s.owner - xs && e.store.heads == s.store.heads
  {
    ExecOne(c, s, Call(0));
    Extend(c, s, [Call(0)], Pop(0));
    var s1 := Exec(c, s, [Call(0)] + [Pop(0)]);
    var give, s2 := FreeMany(c, s1, xs);
    ExecAppend(c, s, [Call(0)] + [Pop(0)], give);
    Extend(c, s, ([Call(0)] + [Pop(0)]) + give, Acquire(0));
    ks := (([Call(0)] + [Pop(0)]) + give) + [Acquire(0)];
    e := Exec(c, s, ks);
  }

  /** The objects that leave use are the slots that come free. */
  lemma FreeFromUse(c: Config, s: State, free: seq<nat>, e: State, after: seq<nat>)
    requires c.Valid() && Inv(c, s, free) && Inv(c, e, after) && e.store.heads == s.store.heads
    requires Pending(c, s) == [] && Pending(c, e) == []
    ensures |free| + |s.owner| == |after| + |e.owner|
  {
    Conservation(c, s, free);
    Conservation(c, e, after);
  }

  lemma StartStocked(c: Config, mem: seq<Byte>)
    requires c.Valid() && CanOpen(c, mem, ALIGN)
    ensures Stocked(c, StartUp(c, mem, ALIGN, 2)) && |StartUp(c, mem, ALIGN, 2).store.mem| == |mem|
    ensures StartUp(c, mem, ALIGN, 2).owner == map[]
  {
    var made := AddRegion(c, Store(mem, 0, 0, [], [], []), ALIGN);
    FirstRegion(c, Store(mem, 0, 0, [], [], []), ALIGN);
    var (u, g) := Carve(c, made, 0);
    PushAllKeeps(u, Slices(g, 0, c.group, c.slot));
  }

  /** Thread 1 has at least n objects and the list is empty. */
  lemma Emptied(c: Config, mem: seq<Byte>, n: nat) returns (ks: seq<Step>, e: State, all: set<nat>)
    requires c.Valid() && CanOpen(c, mem, ALIGN) && ALIGN + (n + 1) * c.size <= |mem|
    ensures var s := StartUp(c, mem, ALIGN, 2); Executable(c, s, ks) && Exec(c, s, ks) == e
    ensures e.pcs == [Idle, Idle] && e.lock == None && e.store.top == 0
    ensures |all| == n && forall x :: x in all ==> x in e.owner && e.owner[x] == 1
  {
    var s := StartUp(c, mem, ALIGN, 2);
    StartStocked(c, mem);
    assert Init(c, s);
    var free := InitHolds(c, s);
    var first, m, between := TakeMany(c, s, free, n);
    var rest;
    rest, e := PopAll(c, m, between, 1);
    ks := first + rest;
    ExecAppend(c, s, first, rest);
    all := m.owner.Keys;
  }

  lemma EmptyList(c: Config, s: State, free: seq<nat>)
    requires c.Valid() && Inv(c, s, free) && s.store.top == 0
    ensures free == []
  {
  }

  lemma Recount(c: Config, s: State, e: State, xs: set<nat>) returns (free: seq<nat>)
    requires c.Valid() && Reachable(c, s) && Reachable(c, e) && s.lock == None && s.store.top == 0
    requires e.pcs == [Locked, Idle] && e.store.heads == s.store.heads
    requires xs <= s.owner.Keys && e.owner == s.owner - xs
    ensures Inv(c, e, free) && |free| == |xs|
  {
    var before := ReachableInv(c, s);
    EmptyList(c, s, before);
    free := ReachableInv(c, e);
    FreeFromUse(c, s, before, e, free);
    assert e.owner.Keys == s.owner.Keys - xs;
  }

  /** A thread that has seen the list empty can find any number of free slots when it has the mutex. */
  lemma ManyFree(c: Config, mem: seq<Byte>, n: nat) returns (s: State, free: seq<nat>)
    requires c.Valid() && CanOpen(c, mem, ALIGN) && ALIGN + (n + 1) * c.size <= |mem|
    ensures Reachable(c, s) && Inv(c, s, free) && |free| == n && Enabled(c, s, Query(0))
  {
    var start := StartUp(c, mem, ALIGN, 2);
    var a, s1, xs := Emptied(c, mem, n);
    var b;
    b, s := EmptyThenFull(c, s1, xs);
    RunReaches(c, mem, ALIGN, 2, a);
    ExecAppend(c, start, a, b);
    RunReaches(c, mem, ALIGN, 2, a + b);
    free := Recount(c, s1, s, xs);
  }

  lemma Multiple(k: nat)
    ensures (k * DEPTHS) % DEPTHS == 0
  {
    DivUnique(k * DEPTHS, DEPTHS, k, 0);
  }

  lemma Room(c: Config, n: nat) returns (mem: seq<Byte>)
    requires ALIGN + (n + 1) * c.size <= Pow256(LINK)
    ensures CanOpen(c, mem, ALIGN) && ALIGN + (n + 1) * c.size <= |mem|
  {
    mem := seq(ALIGN + (n + 1) * c.size, _ => 0);
    Distribute(n, c.size);
  }

  /** If that number is any multiple of 65536 it decides to grow, though so many slots are free. */
  lemma NeedlessGrowth(c: Config, k: nat) returns (s: State, free: seq<nat>)
    requires c.Valid() && ALIGN + (k * DEPTHS + 1) * c.size <= Pow256(LINK)
    ensures Reachable(c, s) && Inv(c, s, free) && |free| == k * DEPTHS
    ensures Enabled(c, s, Query(0)) && Apply(c, s, Query(0)).pcs[0] == Carving
  {
    var mem := Room(c, k * DEPTHS);
    s, free := ManyFree(c, mem, k * DEPTHS);
    Multiple(k);
    GrowthDecision(c, s, free, 0);
  }
}
