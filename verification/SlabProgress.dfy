/** Threads that only allocate: however they interleave they take boundedly many steps, and when none
    can take another one each of them has its object. */
module SlabProgress {
  import opened Slicing
  import opened SlabStore
  import opened SlabSystem
  import opened SlabRuns
  import opened SlabTheorems

  /** The steps of AllocateObject behind the call. */
  predicate Allocating(k: Step) {
    k.Pop? || k.Acquire? || k.Query? || k.TakeMemory? || k.PushSlice? || k.Unlock?
  }

  ghost predicate OnlyAllocating(ks: seq<Step>) {
    forall k :: k in ks ==> Allocating(k)
  }

  predicate Calling(pc: Pc) {
    !pc.Idle? && !pc.Freeing?
  }

  /** More than the steps one thread takes before a pop succeeds or the list changes from non-empty to
      empty. `empty` says whether the list is empty now. */
  ghost function Rank(c: Config, pc: Pc, empty: bool): nat
    requires c.slot > 0
  {
    var n := CeilDiv(c.group, c.slot);
    match pc
    case Idle | Freeing(_) => 0
    case Popping => if empty then n + 7 else 1
    case Blocked => n + 6
    case Locked => n + 5
    case Carving => n + 4
    case Slicing(_, index) => if empty && index >= c.group then n + 9 else Left(c, index) + 3
    case Unlocking => if empty then n + 8 else 2
  }

  /** No rank is above this. */
  function Highest(c: Config): nat
    requires c.slot > 0
  {
    CeilDiv(c.group, c.slot) + 9
  }

  /** What a caller among n threads weighs besides its rank: more than all their ranks together. */
  function Fee(c: Config, n: nat): nat
    requires c.slot > 0
  {
    n * Highest(c) + 1
  }

  ghost function Weight(c: Config, pc: Pc, empty: bool, fee: nat): nat
    requires c.slot > 0
  {
    (if Calling(pc) then fee else 0) + Rank(c, pc, empty)
  }

  /** A bound on the steps to come. */
  ghost function Work(c: Config, pcs: seq<Pc>, empty: bool, fee: nat): nat
    requires c.slot > 0
  {
    if pcs == [] then 0 else Weight(c, pcs[0], empty, fee) + Work(c, pcs[1..], empty, fee)
  }

  ghost function Remaining(c: Config, s: State, free: seq<nat>): nat
    requires c.slot > 0
  {
    Work(c, s.pcs, free == [], Fee(c, |s.pcs|))
  }

  // ----- one thread moves -----

  lemma {:induction false} WorkUpdate(c: Config, pcs: seq<Pc>, t: nat, pc: Pc, empty: bool, fee: nat)
    requires c.slot > 0 && t < |pcs|
    ensures Work(c, pcs[t := pc], empty, fee)
      == Work(c, pcs, empty, fee) - Weight(c, pcs[t], empty, fee) + Weight(c, pc, empty, fee)
    decreases |pcs|
  {
    if t > 0 {
      assert pcs[t := pc][1..] == pcs[1..][t - 1 := pc];
      WorkUpdate(c, pcs[1..], t - 1, pc, empty, fee);
    }
  }

  lemma RankBounded(c: Config, pc: Pc)
    requires c.slot > 0
    ensures Rank(c, pc, false) <= Rank(c, pc, true) <= Highest(c)
  {
    if pc.Slicing? && pc.index < c.group {
      LeftShrinks(c, pc.index);
    }
  }

  lemma {:induction false} WorkBounded(c: Config, pcs: seq<Pc>, fee: nat)
    requires c.slot > 0
    ensures Work(c, pcs, false, fee) <= Work(c, pcs, true, fee) <= Work(c, pcs, false, fee) + |pcs| * Highest(c)
    ensures Work(c, pcs, true, fee) <= |pcs| * (fee + Highest(c))
    decreases |pcs|
  {
    if pcs != [] {
      RankBounded(c, pcs[0]);
      WorkBounded(c, pcs[1..], fee);
      Distribute(|pcs| - 1, Highest(c));
      Distribute(|pcs| - 1, fee + Highest(c));
    }
  }

  // ----- every step is work done -----

  /** A successful pop: one caller less. */
  lemma PopShrinks(c: Config, pcs: seq<Pc>, t: nat, empty: bool)
    requires c.slot > 0 && t < |pcs| && pcs[t] == Popping
    ensures Work(c, pcs[t := Idle], empty, Fee(c, |pcs|)) < Work(c, pcs, false, Fee(c, |pcs|))
  {
    WorkUpdate(c, pcs, t, Idle, false, Fee(c, |pcs|));
    WorkBounded(c, pcs[t := Idle], Fee(c, |pcs|));
  }

  /** Taking memory always ends in the slicing loop. */
  lemma TakeShrinks(c: Config, s: State, t: nat, r: nat, empty: bool)
    requires c.Aligned() && Layout(c, s.store) && Enabled(c, s, TakeMemory(t, r))
    ensures var pc := Apply(c, s, TakeMemory(t, r)).pcs[t];
      Calling(pc) && Rank(c, pc, empty) < Rank(c, Carving, empty)
  {
    LayoutCarve(c, s.store, r);
  }

  lemma SliceShrinks(c: Config, s: State, t: nat, empty: bool)
    requires c.Aligned() && Enabled(c, s, PushSlice(t))
    ensures var pc := Apply(c, s, PushSlice(t)).pcs[t];
      Calling(pc) && Rank(c, pc, empty && s.pcs[t].index >= c.group) < Rank(c, s.pcs[t], empty)
  {
    if s.pcs[t].index < c.group {
      LeftShrinks(c, s.pcs[t].index);
    }
  }

  /** Any other step: the same callers, one of lower rank, and an empty list only if it was empty. */
  lemma RankShrinks(c: Config, s: State, free: seq<nat>, k: Step)
    requires c.Aligned() && Layout(c, s.store) && Enabled(c, s, k) && Allocating(k)
    requires free == [] ==> s.store.top == 0 && s.store.depth == 0
    requires k.Pop? ==> free == []
    ensures var s', free' := Apply(c, s, k), FreeAfter(c, s, free, k);
      && s'.owner == s.owner && s'.pcs == s.pcs[k.t := s'.pcs[k.t]] && Calling(s'.pcs[k.t]) && Calling(s.pcs[k.t])
      && (free' == [] ==> free == [])
      && Rank(c, s'.pcs[k.t], free' == []) < Rank(c, s.pcs[k.t], free == [])
  {
    match k {
      case TakeMemory(t, r) => TakeShrinks(c, s, t, r, free == []);
      case PushSlice(t) => SliceShrinks(c, s, t, free == []);
      case _ =>
    }
  }

  lemma MoveShrinks(c: Config, pcs: seq<Pc>, t: nat, pc: Pc, empty: bool, empty': bool, fee: nat)
    requires c.slot > 0 && t < |pcs| && Calling(pcs[t]) && Calling(pc) && (empty' ==> empty)
    requires Rank(c, pc, empty') < Rank(c, pcs[t], empty)
    ensures Work(c, pcs[t := pc], empty', fee) < Work(c, pcs, empty, fee)
  {
    WorkUpdate(c, pcs, t, pc, empty', fee);
    WorkUpdate(c, pcs, t, Idle, empty', fee);
    WorkUpdate(c, pcs, t, Idle, empty, fee);
    WorkBounded(c, pcs[t := Idle], fee);
  }

  // ----- runs -----

  /** Out of the call, with an object that is new to the pool. */
  ghost predicate Served(s: State, e: State, t: nat)
    requires t < |e.pcs|
  {
    e.pcs[t] == Idle && exists x :: x in e.owner && e.owner[x] == t && x !in s.owner
  }

  /** Allocation steps take nothing from anyone, and a thread leaves the call only with an object. */
  ghost predicate Serves(s: State, e: State) {
    && |e.pcs| == |s.pcs| && (forall x :: x in s.owner ==> x in e.owner && e.owner[x] == s.owner[x])
    && (forall t :: 0 <= t < |s.pcs| && !Calling(s.pcs[t]) ==> e.pcs[t] == s.pcs[t])
    && (forall t :: 0 <= t < |s.pcs| && Calling(s.pcs[t]) ==> Calling(e.pcs[t]) || Served(s, e, t))
  }

  lemma MoveServes(s: State, e: State, t: nat)
    requires t < |s.pcs| == |e.pcs| && e.pcs == s.pcs[t := e.pcs[t]] && e.owner == s.owner
    requires Calling(s.pcs[t]) && Calling(e.pcs[t])
    ensures Serves(s, e)
  {
  }

  lemma PopServes(s: State, e: State, t: nat, x: nat)
    requires t < |s.pcs| && e.pcs == s.pcs[t := Idle] && x !in s.owner && e.owner == s.owner[x := t]
    requires Calling(s.pcs[t])
    ensures Serves(s, e)
  {
    assert e.owner[x] == t;
  }

  lemma ServesOn(s: State, m: State, e: State)
    requires Serves(s, m) && Serves(m, e)
    ensures Serves(s, e)
  {
    forall t | 0 <= t < |s.pcs| && Calling(s.pcs[t]) ensures Calling(e.pcs[t]) || Served(s, e, t) {
      if !Calling(m.pcs[t]) {
        var x :| x in m.owner && m.owner[x] == t && x !in s.owner;
        assert e.owner[x] == t;
      } else if Served(m, e, t) {
        var x :| x in e.owner && e.owner[x] == t && x !in m.owner;
        assert x !in s.owner;
      }
    }
  }

  /** One step serves, and is work done. */
  lemma StepServes(c: Config, s: State, free: seq<nat>, k: Step)
    requires c.Valid() && Inv(c, s, free) && Enabled(c, s, k) && Allocating(k)
    ensures Serves(s, Apply(c, s, k))
    ensures Remaining(c, Apply(c, s, k), FreeAfter(c, s, free, k)) < Remaining(c, s, free)
  {
    assert free == [] ==> s.store.top == 0 && s.store.depth == 0;
    if k.Pop? && free != [] {
      Sides(c, s, free);
      PopServes(s, Apply(c, s, k), k.t, s.store.top);
      PopShrinks(c, s.pcs, k.t, free[1..] == []);
    } else {
      RankShrinks(c, s, free, k);
      MoveServes(s, Apply(c, s, k), k.t);
      var pc, empty := Apply(c, s, k).pcs[k.t], FreeAfter(c, s, free, k) == [];
      MoveShrinks(c, s.pcs, k.t, pc, free == [], empty, Fee(c, |s.pcs|));
    }
  }

  lemma {:induction false} RunServes(c: Config, s: State, free: seq<nat>, ks: seq<Step>)
    requires c.Valid() && Inv(c, s, free) && Executable(c, s, ks) && OnlyAllocating(ks)
    ensures Serves(s, Exec(c, s, ks))
    ensures |ks| + Remaining(c, Exec(c, s, ks), FreeAfterRun(c, s, free, ks)) <= Remaining(c, s, free)
    decreases |ks|
  {
    if ks != [] {
      assert Allocating(ks[0]);
      StepKeeps(c, s, free, ks[0]);
      StepServes(c, s, free, ks[0]);
      RunServes(c, Apply(c, s, ks[0]), FreeAfter(c, s, free, ks[0]), ks[1..]);
      ServesOn(s, Apply(c, s, ks[0]), Exec(c, s, ks));
    }
  }

  /** No thread can take an allocation step. */
  ghost predicate Spent(c: Config, s: State) {
    forall k :: Allocating(k) ==> !Enabled(c, s, k)
  }

  function NextStep(pc: Pc, t: nat, region: nat): Step {
    match pc
    case Popping => Pop(t)
    case Blocked => Acquire(t)
    case Locked => Query(t)
    case Carving => TakeMemory(t, region)
    case Slicing(_, _) => PushSlice(t)
    case _ => Unlock(t)
  }

  lemma SomeoneMoves(c: Config, s: State, t: nat)
    requires c.Positive() && Threads(s) && GrantPossible(c, s) && t < |s.pcs| && Calling(s.pcs[t])
    ensures !Spent(c, s)
  {
    var r :| Granted(c, s.store, r);
    var u: nat := if s.pcs[t] == Blocked && s.lock.Some? then s.lock.value else t;
    assert s.pcs[t] == Blocked && s.lock.Some? ==> s.pcs[u].HoldsLock();
    var k := NextStep(s.pcs[u], u, r);
    assert Allocating(k) && Enabled(c, s, k);
  }

  lemma NobodyLeft(c: Config, s: State, e: State)
    requires c.Positive() && Threads(e) && Serves(s, e) && Spent(c, e) && GrantPossible(c, e)
    ensures forall t :: 0 <= t < |s.pcs| && Calling(s.pcs[t]) ==> Served(s, e, t)
  {
    forall t | 0 <= t < |s.pcs| && Calling(s.pcs[t]) ensures Served(s, e, t) {
      if Calling(e.pcs[t]) {
        SomeoneMoves(c, e, t);
      }
    }
  }

  lemma RemainingBounded(c: Config, s: State, free: seq<nat>)
    requires c.Valid()
    ensures var n, d := |s.pcs|, c.group / c.slot + 9; Remaining(c, s, free) <= n * (n * d + 1 + d)
  {
    CeilExact(c.group, c.slot);
    WorkBounded(c, s.pcs, Fee(c, |s.pcs|));
  }

  /** n threads that only allocate take at most n * (n * d + 1 + d) steps, where d is 9 more than the number
      of slots in a group, however they interleave. */
  lemma StepsBounded(c: Config, s: State, ks: seq<Step>)
    requires c.Valid() && Reachable(c, s) && Executable(c, s, ks) && OnlyAllocating(ks)
    ensures var n, d := |s.pcs|, c.group / c.slot + 9; |ks| <= n * (n * d + 1 + d)
  {
    var free := ReachableInv(c, s);
    RunServes(c, s, free, ks);
    RemainingBounded(c, s, free);
  }

  lemma AllServed(c: Config, s: State, free: seq<nat>, ks: seq<Step>)
    requires c.Valid() && Inv(c, s, free) && Executable(c, s, ks) && OnlyAllocating(ks)
    ensures var e := Exec(c, s, ks);
      && Serves(s, e)
      && (Spent(c, e) && GrantPossible(c, e) ==>
            forall t :: 0 <= t < |s.pcs| && Calling(s.pcs[t]) ==> Served(s, e, t))
  {
    RunServes(c, s, free, ks);
    RunKeeps(c, s, free, ks);
    if Spent(c, Exec(c, s, ks)) && GrantPossible(c, Exec(c, s, ks)) {
      NobodyLeft(c, s, Exec(c, s, ks));
    }
  }

  /** Nobody loses an object or leaves AllocateObject without a new one of its own; and where no step is
      left while memory can be granted, everybody has left. */
  lemma EveryCallerServed(c: Config, s: State, ks: seq<Step>)
    requires c.Valid() && Reachable(c, s) && Executable(c, s, ks) && OnlyAllocating(ks)
    ensures var e := Exec(c, s, ks);
      && Serves(s, e)
      && (Spent(c, e) && GrantPossible(c, e) ==>
            forall t :: 0 <= t < |s.pcs| && Calling(s.pcs[t]) ==> Served(s, e, t))
  {
    var free := ReachableInv(c, s);
    AllServed(c, s, free, ks);
  }

  /** Such a run always exists: the threads can go on until everybody has an object or memory is refused. */
  lemma {:induction false} RunOut(c: Config, s: State, free: seq<nat>) returns (ks: seq<Step>)
    requires c.Valid() && Inv(c, s, free)
    ensures Executable(c, s, ks) && OnlyAllocating(ks)
    ensures Spent(c, Exec(c, s, ks))
    decreases Remaining(c, s, free)
  {
    if Spent(c, s) {
      ks := [];
    } else {
      var k :| Allocating(k) && Enabled(c, s, k);
      StepKeeps(c, s, free, k);
      StepServes(c, s, free, k);
      var rest := RunOut(c, Apply(c, s, k), FreeAfter(c, s, free, k));
      ks := [k] + rest;
    }
  }
}
