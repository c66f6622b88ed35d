/** A thread that runs alone: its steps add up to the whole operations AllocateObject, FreeObject and
    AllocateMemory, which therefore inherit the invariant. */
module SlabSolo {
  import opened Bytes
  import opened Memory
  import opened Options
  import opened Slicing
  import opened SlabStore
  import opened SlabSystem
  import opened SlabRuns

  /** AllocateObject without interference. */
  function AllocateAlone(c: Config, s: Store, r: nat): (Store, nat)
    requires c.group > 0 && c.slot > 0
  {
    var (t, x) := PopEntry(s);
    if x != 0 then (t, x) else PopEntry(if s.depth == 0 then Grow(c, s, r) else s)
  }

  /** FreeObject without interference. */
  function FreeAlone(c: Config, s: Store, x: nat): Store {
    PushEntry(s.(mem := Zeroed(s.mem, x, c.slot)), x)
  }

  ghost predicate AllBy(ks: seq<Step>, t: nat) {
    forall i :: 0 <= i < |ks| ==> !ks[i].Foreign? && ks[i].t == t
  }

  /** The slicing loop, uninterrupted, is PushAll of the remaining slices. */
  lemma {:induction false} SlicingAlone(c: Config, s: State, t: nat) returns (ks: seq<Step>)
    requires c.Positive() && t < |s.pcs| && s.pcs[t].Slicing?
    ensures AllBy(ks, t) && Executable(c, s, ks)
    ensures Exec(c, s, ks) == s.(
      store := PushAll(s.store, Slices(s.pcs[t].base, s.pcs[t].index, c.group, c.slot)),
      pcs := s.pcs[t := Unlocking])
    decreases if s.pcs[t].index < c.group then c.group - s.pcs[t].index else 0
  {
    var Slicing(base, index) := s.pcs[t];
    var s' := Apply(c, s, PushSlice(t));
    ExecOne(c, s, PushSlice(t));
    if index < c.group {
      var rest := SlicingAlone(c, s', t);
      ks := [PushSlice(t)] + rest;
      ExecAppend(c, s, [PushSlice(t)], rest);
      var xs := Slices(base, index, c.group, c.slot);
      assert xs[0] == base + index && xs[1..] == Slices(base, index + c.slot, c.group, c.slot);
      assert s'.pcs[t := Unlocking] == s.pcs[t := Unlocking];
    } else {
      ks := [PushSlice(t)];
    }
  }

  /** From the decision to grow to the point before the mutex is released. */
  lemma GrowAlone(c: Config, s: State, t: nat, r: nat) returns (ks: seq<Step>)
    requires c.Positive() && Enabled(c, s, TakeMemory(t, r)) && Carve(c, s.store, r).1 != 0
    ensures AllBy(ks, t) && Executable(c, s, ks)
    ensures Exec(c, s, ks) == s.(store := Grow(c, s.store, r), pcs := s.pcs[t := Unlocking])
  {
    var s' := Apply(c, s, TakeMemory(t, r));
    ExecOne(c, s, TakeMemory(t, r));
    var rest := SlicingAlone(c, s', t);
    ks := [TakeMemory(t, r)] + rest;
    ExecAppend(c, s, [TakeMemory(t, r)], rest);
    assert s'.pcs[t := Unlocking] == s.pcs[t := Unlocking];
  }

  lemma {:induction false} PushAllTop(s: Store, xs: seq<nat>)
    requires xs != []
    ensures PushAll(s, xs).top == xs[|xs| - 1]
    decreases |xs|
  {
    if |xs| > 1 {
      PushAllTop(PushEntry(s, xs[0]), xs[1..]);
    } else {
      assert PushAll(s, xs) == PushAll(PushEntry(s, xs[0]), xs[1..]);
    }
  }

  /** Growing always leaves something on the list. */
  lemma GrowFills(c: Config, s: Store, r: nat)
    requires c.Aligned() && Layout(c, s) && (s.queue == [] ==> Granted(c, s, r))
    ensures Grow(c, s, r).top != 0
  {
    LayoutCarve(c, s, r);
    var (t, g) := Carve(c, s, r);
    LastSlice(g, c.group, c.slot);
    PushAllTop(t, Slices(g, 0, c.group, c.slot));
  }

  lemma LastSlice(g: nat, total: nat, step: nat)
    requires g > 0 && total > 0 && step > 0
    ensures var xs := Slices(g, 0, total, step); xs != [] && xs[|xs| - 1] != 0
  {
    var xs := Slices(g, 0, total, step);
    SliceAt(g, 0, total, step, |xs| - 1);
  }

  /** A thread that calls AllocateObject and is not interrupted. */
  lemma SoloAllocate(c: Config, s: State, free: seq<nat>, t: nat, r: nat) returns (ks: seq<Step>)
    requires c.Valid() && Inv(c, s, free) && t < |s.pcs| && s.pcs[t] == Idle && s.lock == None
    requires s.store.queue == [] ==> Granted(c, s.store, r)
    ensures AllBy(ks, t) && Executable(c, s, ks)
    ensures var (store, x) := AllocateAlone(c, s.store, r);
      x != 0 && x !in s.owner && Exec(c, s, ks) == s.(store := store, owner := s.owner[x := t])
  {
    ks := [Call(t)];
    ExecOne(c, s, Call(t));
    Extend(c, s, ks, Pop(t));
    ks := ks + [Pop(t)];
    Where(c, s, free);
    assert s.pcs[t := Popping][t := Idle] == s.pcs;
    if free != [] {
      assert free[0] in free;
    } else {
      ks := SoloRetry(c, s, free, t, r, ks);
    }
  }

  /** From a failed pop to the decision to grow. */
  lemma SoloDecide(c: Config, s: State, t: nat, prefix: seq<Step>) returns (ks: seq<Step>)
    requires c.Positive() && t < |s.pcs| && s.lock == None && s.store.depth == 0
    requires AllBy(prefix, t) && Executable(c, s, prefix) && Exec(c, s, prefix) == s.(pcs := s.pcs[t := Blocked])
    ensures AllBy(ks, t) && Executable(c, s, ks)
    ensures Exec(c, s, ks) == s.(lock := Some(t), pcs := s.pcs[t := Carving])
  {
    Extend(c, s, prefix, Acquire(t));
    ks := prefix + [Acquire(t)];
    assert s.pcs[t := Blocked][t := Locked] == s.pcs[t := Locked];
    Extend(c, s, ks, Query(t));
    ks := ks + [Query(t)];
    assert s.pcs[t := Locked][t := Carving] == s.pcs[t := Carving];
  }

  /** From a failed pop through growth back to the top of the loop. */
  lemma SoloGrow(c: Config, s: State, t: nat, r: nat, prefix: seq<Step>) returns (ks: seq<Step>)
    requires c.Positive() && t < |s.pcs| && s.lock == None && s.store.depth == 0
    requires (s.store.queue == [] ==> Granted(c, s.store, r)) && Carve(c, s.store, r).1 != 0
    requires AllBy(prefix, t) && Executable(c, s, prefix) && Exec(c, s, prefix) == s.(pcs := s.pcs[t := Blocked])
    ensures AllBy(ks, t) && Executable(c, s, ks)
    ensures Exec(c, s, ks) == s.(store := Grow(c, s.store, r), pcs := s.pcs[t := Popping])
  {
    var decide := SoloDecide(c, s, t, prefix);
    var s1 := s.(lock := Some(t), pcs := s.pcs[t := Carving]);
    var grow := GrowAlone(c, s1, t, r);
    ExecAppend(c, s, decide, grow);
    ks := decide + grow;
    assert s.pcs[t := Carving][t := Unlocking] == s.pcs[t := Unlocking];
    Extend(c, s, ks, Unlock(t));
    ks := ks + [Unlock(t)];
    assert s.pcs[t := Unlocking][t := Popping] == s.pcs[t := Popping];
  }

  lemma SoloRetry(c: Config, s: State, free: seq<nat>, t: nat, r: nat, prefix: seq<Step>) returns (ks: seq<Step>)
    requires c.Valid() && Inv(c, s, free) && t < |s.pcs| && s.pcs[t] == Idle && s.lock == None
    requires free == [] && (s.store.queue == [] ==> Granted(c, s.store, r))
    requires AllBy(prefix, t) && Executable(c, s, prefix) && Exec(c, s, prefix) == s.(pcs := s.pcs[t := Blocked])
    ensures AllBy(ks, t) && Executable(c, s, ks)
    ensures var (store, x) := AllocateAlone(c, s.store, r);
      x != 0 && x !in s.owner && Exec(c, s, ks) == s.(store := store, owner := s.owner[x := t])
  {
    LayoutCarve(c, s.store, r);
    ks := SoloGrow(c, s, t, r, prefix);
    GrowFills(c, s.store, r);
    RunKeeps(c, s, free, ks);
    Sides(c, Exec(c, s, ks), FreeAfterRun(c, s, free, ks));
    Extend(c, s, ks, Pop(t));
    ks := ks + [Pop(t)];
    assert s.pcs[t := Popping][t := Idle] == s.pcs;
  }

  lemma SoloFree(c: Config, s: State, t: nat, x: nat) returns (ks: seq<Step>)
    requires c.Valid() && t < |s.pcs| && s.pcs[t] == Idle && x in s.owner && s.owner[x] == t
    ensures AllBy(ks, t) && Executable(c, s, ks)
    ensures Exec(c, s, ks) == s.(store := FreeAlone(c, s.store, x), owner := s.owner - {x})
  {
    ExecOne(c, s, Clear(t, x));
    Extend(c, s, [Clear(t, x)], PushFreed(t));
    ks := [Clear(t, x), PushFreed(t)];
    assert ks == [Clear(t, x)] + [PushFreed(t)];
    assert s.pcs[t := Freeing(x)][t := Idle] == s.pcs;
  }

  // ----- the pool as its single user sees it between calls -----

  ghost function Resting(s: Store, used: map<nat, nat>): State {
    State(s, None, [Idle], used)
  }

  ghost predicate Sound(c: Config, s: Store, used: map<nat, nat>)
    requires c.Valid()
  {
    exists free :: Inv(c, Resting(s, used), free)
  }

  lemma RestingRun(c: Config, s: State, free: seq<nat>, ks: seq<Step>, t: Store, used: map<nat, nat>)
    requires c.Valid() && Inv(c, s, free) && Executable(c, s, ks) && Exec(c, s, ks) == Resting(t, used)
    ensures Sound(c, t, used)
  {
    RunKeeps(c, s, free, ks);
  }

  lemma AllocateSound(c: Config, s: Store, used: map<nat, nat>, r: nat)
    requires c.Valid() && Sound(c, s, used) && (s.queue == [] ==> Granted(c, s, r))
    ensures var (t, x) := AllocateAlone(c, s, r);
      x != 0 && x !in used && Sound(c, t, used[x := 0])
  {
    var free :| Inv(c, Resting(s, used), free);
    var (t, x) := AllocateAlone(c, s, r);
    var ks := SoloAllocate(c, Resting(s, used), free, 0, r);
    RestingRun(c, Resting(s, used), free, ks, t, used[x := 0]);
  }

  lemma FreeSound(c: Config, s: Store, used: map<nat, nat>, x: nat)
    requires c.Valid() && Sound(c, s, used) && x in used
    ensures Sound(c, FreeAlone(c, s, x), used - {x})
  {
    var free :| Inv(c, Resting(s, used), free);
    assert used[x] == 0;
    var ks := SoloFree(c, Resting(s, used), 0, x);
    RestingRun(c, Resting(s, used), free, ks, FreeAlone(c, s, x), used - {x});
  }

  lemma FreshQueue(c: Config, s: Store)
    requires c.Aligned() && Layout(c, s) && |s.regions| == 1 && s.heads == []
    ensures s.queue != []
  {
    assert s.heads + s.queue == s.queue;
    assert s.regions == [s.regions[0]];
    CutOne(s.regions[0], c.size, c.group);
    SliceOverhang(s.regions[0], c.size, c.group);
  }

  /** Growth of a pool just made, run by the machine with nobody else about. */
  lemma FirstGrowth(c: Config, s: Store) returns (free: seq<nat>)
    requires c.Valid() && Layout(c, s) && s.heads == [] && s.top == 0 && s.depth == 0 && s.queue != []
    requires forall g :: g in s.queue ==> IsZero(s.mem, g, c.group)
    ensures Inv(c, State(Grow(c, s, 0), Some(0), [Unlocking], map[]), free)
  {
    var start := State(s, Some(0), [Carving], map[]);
    EmptyHolds(c, s);
    LayoutCarve(c, s, 0);
    var ks := GrowAlone(c, start, 0, 0);
    RunKeeps(c, start, [], ks);
    free := FreeAfterRun(c, start, [], ks);
    assert start.pcs[0 := Unlocking] == [Unlocking];
  }

  lemma EmptyHolds(c: Config, s: Store)
    requires c.Valid() && Layout(c, s) && s.heads == [] && s.top == 0 && s.depth == 0
    requires forall g :: g in s.queue ==> IsZero(s.mem, g, c.group)
    ensures Inv(c, State(s, Some(0), [Carving], map[]), [])
  {
    var start := State(s, Some(0), [Carving], map[]);
    assert Pending(c, start) == [];
    assert AllSlots(c, s) == [];
    assert start.owner.Keys == {};
  }

  /** With nothing in use and nobody inside, the invariant does not depend on the threads. */
  lemma ThreadsAside(c: Config, s: Store, free: seq<nat>, n: nat)
    requires c.Valid() && Inv(c, State(s, Some(0), [Unlocking], map[]), free)
    ensures Inv(c, State(s, None, seq(n, _ => Idle), map[]), free)
  {
    var held, idle := State(s, Some(0), [Unlocking], map[]), State(s, None, seq(n, _ => Idle), map[]);
    assert Pending(c, held) == Pending(c, idle) == [];
  }

  /** The constructors establish the invariant, for any number of threads yet to call. */
  lemma CreateSound(c: Config, s: Store, n: nat) returns (free: seq<nat>)
    requires c.Valid() && Layout(c, s) && |s.regions| == 1
    requires s.heads == [] && s.top == 0 && s.depth == 0
    requires forall g :: g in s.queue ==> IsZero(s.mem, g, c.group)
    ensures Inv(c, State(Grow(c, s, 0), None, seq(n, _ => Idle), map[]), free)
  {
    FreshQueue(c, s);
    free := FirstGrowth(c, s);
    ThreadsAside(c, Grow(c, s, 0), free, n);
  }

  lemma CreateResting(c: Config, s: Store)
    requires c.Valid() && Layout(c, s) && |s.regions| == 1
    requires s.heads == [] && s.top == 0 && s.depth == 0
    requires forall g :: g in s.queue ==> IsZero(s.mem, g, c.group)
    ensures Sound(c, Grow(c, s, 0), map[])
  {
    var free := CreateSound(c, s, 1);
    assert seq(1, _ => Idle) == [Idle];
    assert State(Grow(c, s, 0), None, seq(1, _ => Idle), map[]) == Resting(Grow(c, s, 0), map[]);
    assert Inv(c, Resting(Grow(c, s, 0), map[]), free);
  }

  /** A pop undoes a push, except that the popped bytes keep the link they were given. */
  lemma PushThenPop(s: Store, x: nat)
    requires 0 < x && x + LINK <= |s.mem| && s.top < Pow256(LINK) && s.depth < DEPTHS
    ensures PopEntry(PushEntry(s, x)) == (s.(mem := WriteLink(s.mem, x, s.top)), x)
  {
    ReadWritten(s.mem, x, s.top);
  }

  lemma HeaderBounds(c: Config, s: State, free: seq<nat>)
    requires c.Valid() && Inv(c, s, free)
    ensures s.store.top < Pow256(LINK) && s.store.depth < DEPTHS
  {
    ChainInMemory(s.store.mem, s.store.top, free);
    assert Pow256(LINK) == 256 * Pow256(LINK - 1);
    if free != [] {
      assert free[0] in free;
    }
  }

  /** Free undoes allocate: the freed object is the next one handed out, and the list beneath it is
      as it was. */
  lemma FreeThenAllocate(c: Config, s: Store, used: map<nat, nat>, x: nat, r: nat)
    requires c.Valid() && Sound(c, s, used) && x in used
    ensures var (t, y) := AllocateAlone(c, FreeAlone(c, s, x), r);
      && y == x && t == s.(mem := t.mem)
      && OnlyChanged(s.mem, t.mem, x, c.slot)
  {
    var free :| Inv(c, Resting(s, used), free);
    Where(c, Resting(s, used), free);
    SlotPlace(c, s, x);
    HeaderBounds(c, Resting(s, used), free);
    PushThenPop(s.(mem := Zeroed(s.mem, x, c.slot)), x);
  }
}
