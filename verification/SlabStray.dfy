/** The worse that follows when object sizes do not divide the group size: an owner that writes inside
    its own object overwrites the link of a free one, and the list hands out what is no slot at all. */
module SlabStray {
  import opened Bytes
  import opened Memory
  import opened Options
  import opened Slicing
  import opened SlabStore
  import opened SlabSystem
  import opened SlabRuns
  import opened SlabSolo
  import opened SlabTheorems
  import opened SlabOverlap

  /** An object is in use that is not a slot of any group handed out. */
  ghost predicate Stray(c: Config, s: State)
    requires c.Positive()
  {
    exists x :: x in s.owner && x !in AllSlots(c, s.store)
  }

  // ----- a list whose last link has been overwritten -----

  /** Following links from `top` visits the addresses in `free` and then arrives at `last`. */
  ghost predicate Path(m: seq<Byte>, top: nat, free: seq<nat>, last: nat)
    decreases |free|
  {
    if free == [] then top == last
    else top == free[0] && top != 0 && Path(m, ReadLink(m, top), free[1..], last)
  }

  lemma LowLink(m: seq<Byte>, y: nat)
    requires y + LINK <= |m| && ReadLink(m, y) == 0
    ensures ReadLink(WriteByte(m, y, 1), y) == 1
  {
    var b, n := m[y..y + LINK], WriteByte(m, y, 1);
    assert n[y..y + LINK] == b[0 := 1];
    assert FromLE(b) == b[0] + 256 * FromLE(b[1..]);
    assert b[0 := 1][1..] == b[1..];
  }

  /** Writing 1 over the link of the last slot makes the list go on to address 1. */
  lemma {:induction false} LastLinkWritten(m: seq<Byte>, top: nat, free: seq<nat>, y: nat)
    requires Chain(m, top, free) && free != [] && free[|free| - 1] == y && Apart(free, LINK)
    ensures Path(WriteByte(m, y, 1), top, free, 1)
    decreases |free|
  {
    var n, rest := WriteByte(m, y, 1), free[1..];
    if rest == [] {
      LowLink(m, y);
    } else {
      assert free[0] + LINK <= free[|free| - 1] || free[|free| - 1] + LINK <= free[0];
      ReadUnchanged(m, n, top);
      forall i, j | 0 <= i < j < |rest| ensures rest[i] + LINK <= rest[j] || rest[j] + LINK <= rest[i] {
        assert rest[i] == free[i + 1] && rest[j] == free[j + 1];
      }
      LastLinkWritten(m, ReadLink(m, top), rest, y);
    }
  }

  /** A thread that pops its way along such a list is handed the address at the end. */
  lemma {:induction false} PopPath(c: Config, s: State, free: seq<nat>, last: nat, t: nat)
    returns (ks: seq<Step>, e: State)
    requires c.Positive() && t < |s.pcs| && s.pcs[t] == Idle && last != 0
    requires Path(s.store.mem, s.store.top, free, last)
    ensures Executable(c, s, ks) && Exec(c, s, ks) == e
    ensures last in e.owner && e.store.heads == s.store.heads
    decreases |free|
  {
    PopOne(c, s, t);
    var s' := Exec(c, s, [Call(t), Pop(t)]);
    if free == [] {
      ks, e := [Call(t), Pop(t)], s';
    } else {
      var rest;
      rest, e := PopPath(c, s', free[1..], last, t);
      ks := [Call(t), Pop(t)] + rest;
      ExecAppend(c, s, [Call(t), Pop(t)], rest);
    }
  }

  // ----- two threads -----

  /** Thread 1 has the first group; thread 0 grows and stands at its pop. */
  lemma GrowBeside(c: Config, s: State, r: nat) returns (ks: seq<Step>)
    requires c.Positive() && |s.pcs| == 2 && s.pcs[0] == Idle && s.lock == None
    requires s.store.top == 0 && s.store.depth == 0 && (s.store.queue == [] ==> Granted(c, s.store, r))
    requires Carve(c, s.store, r).1 != 0
    ensures Executable(c, s, ks)
    ensures Exec(c, s, ks) == s.(store := Grow(c, s.store, r), pcs := s.pcs[0 := Popping])
  {
    ExecOne(c, s, Call(0));
    Extend(c, s, [Call(0)], Pop(0));
    ks := SoloGrow(c, s, 0, r, [Call(0)] + [Pop(0)]);
  }

  /** Thread 1 writes into the end of its last object, and thread 0 pops until it has address 1. */
  lemma WriteAndPop(c: Config, s: State, free: seq<nat>, x: nat, y: nat) returns (ks: seq<Step>, e: State)
    requires c.Positive() && |s.pcs| == 2 && s.pcs[0] == Popping && s.pcs[1] == Idle
    requires x in s.owner && s.owner[x] == 1 && x <= y < x + c.slot
    requires Chain(s.store.mem, s.store.top, free) && free != [] && free[|free| - 1] == y && Apart(free, LINK)
    ensures Executable(c, s, ks) && Exec(c, s, ks) == e
    ensures 1 in e.owner && e.store.heads == s.store.heads
  {
    var write := Write(1, x, y - x, 1);
    ExecOne(c, s, write);
    var s1 := Apply(c, s, write);
    LastLinkWritten(s.store.mem, s.store.top, free, y);
    ExecOne(c, s1, Pop(0));
    var s2 := Apply(c, s1, Pop(0));
    var rest;
    rest, e := PopPath(c, s2, free[1..], 1, 0);
    ExecAppend(c, s1, [Pop(0)], rest);
    ExecAppend(c, s, [write], [Pop(0)] + rest);
    ks := [write] + ([Pop(0)] + rest);
  }

  lemma {:induction false} SliceBehind(base: nat, index: nat, total: nat, step: nat, x: nat)
    requires step > 0 && x in Slices(base, index, total, step)
    ensures base + index <= x
    decreases if index < total then total - index else 0
  {
    if x != base + index {
      SliceBehind(base, index + step, total, step, x);
    }
  }

  lemma SlotBehind(c: Config, s: Store, x: nat)
    requires c.Positive() && x in AllSlots(c, s)
    ensures exists h :: h in s.heads && h <= x
  {
    CutFrom(s.heads, c.group, c.slot, x);
    var i :| 0 <= i < |s.heads| && x in Slices(s.heads[i], 0, c.group, c.slot);
    SliceBehind(s.heads[i], 0, c.group, c.slot, x);
    assert s.heads[i] in s.heads;
  }

  /** Slots lie at or behind the start of their group, so a low address is none. */
  lemma LowIsNoSlot(c: Config, s: Store, a: nat)
    requires c.Positive() && forall h :: h in s.heads ==> a < h
    ensures a !in AllSlots(c, s)
  {
    if a in AllSlots(c, s) {
      SlotBehind(c, s, a);
    }
  }

  lemma GrownHeads(c: Config, s: Store, r: nat)
    requires c.Positive()
    ensures var (u, g) := Carve(c, s, r); g != 0 ==> Grow(c, s, r).heads == s.heads + [g]
  {
    var (u, g) := Carve(c, s, r);
    PushAllKeeps(u, Slices(g, 0, c.group, c.slot));
  }

  lemma SecondGrown(c: Config, s: State, u: Store, r: nat) returns (ks: seq<Step>, e: State, free: seq<nat>)
    requires c.Positive() && s.store == u && s.pcs == [Idle, Idle] && s.lock == None
    requires u.top == 0 && u.depth == 0 && u.heads == [r] && (u.queue == [] ==> Granted(c, u, r + c.size))
    requires var (v, g) := Carve(c, u, r + c.size);
      g == r + c.group && g != 0 && Linkable(v.mem, Slices(g, 0, c.group, c.slot))
    requires Slices(r + c.group, 0, c.group, c.slot) != []
    ensures Executable(c, s, ks) && Exec(c, s, ks) == e
    ensures e.pcs == [Popping, Idle] && e.owner == s.owner && e.store.heads == [r] + [r + c.group]
    ensures Chain(e.store.mem, e.store.top, free) && free != [] && Apart(free, LINK)
    ensures free[|free| - 1] == r + c.group
  {
    var xs := Slices(r + c.group, 0, c.group, c.slot);
    ks := GrowBeside(c, s, r + c.size);
    e := Exec(c, s, ks);
    free := GrownChain(c, u, r + c.size, xs);
    GrownHeads(c, u, r + c.size);
  }

  /** From the first group in the hands of thread 1 to address 1 in the hands of thread 0. */
  lemma StrayFrom(c: Config, s: State, u: Store, r: nat) returns (ks: seq<Step>, e: State)
    requires c.Aligned() && c.group % c.slot != 0 && 1 < r
    requires s.store == u && s.pcs == [Idle, Idle] && s.lock == None && u.top == 0 && u.depth == 0
    requires Layout(c, u) && u.regions == [r] && u.heads == [r] && r + 2 * c.size <= |u.mem|
    requires u.queue == Slices(r, 0, c.size, c.group)[1..]
    requires forall x :: x in Slices(r, 0, c.group, c.slot) ==> x in s.owner && s.owner[x] == 1
    ensures Executable(c, s, ks) && Exec(c, s, ks) == e && Stray(c, e)
  {
    SecondLinkable(c, u, r);
    var a, s1, free := SecondGrown(c, s, u, r);
    NeighboursCollide(r, c.group, c.slot);
    var xs := Slices(r, 0, c.group, c.slot);
    var b;
    b, e := WriteAndPop(c, s1, free, xs[|xs| - 1], r + c.group);
    ks := a + b;
    ExecAppend(c, s, a, b);
    LowIsNoSlot(c, e.store, 1);
  }

  lemma StrayReached(c: Config) returns (s: State)
    requires c.Aligned() && c.group % c.slot != 0 && ALIGN + 2 * c.size <= Pow256(LINK)
    ensures Reachable(c, s) && Stray(c, s)
  {
    var mem: seq<Byte> := seq(ALIGN + 2 * c.size, _ => 0);
    var start := StartUp(c, mem, ALIGN, 2);
    var first := FirstGroup(c, mem, ALIGN, 2);
    var a, s1 := PopAll(c, start, first, 1);
    var b;
    b, s := StrayFrom(c, s1, start.store.(top := 0, depth := 0), ALIGN);
    ExecAppend(c, start, a, b);
    RunReaches(c, mem, ALIGN, 2, a + b);
  }

  /** An owner's writes, inside its own object, can lead the pool to hand out an address that is no slot
      of any group, if and only if the object size does not divide the group size. */
  lemma StrayExactly(c: Config)
    requires c.Aligned() && ALIGN + 2 * c.size <= Pow256(LINK)
    ensures (exists s :: Reachable(c, s) && Stray(c, s)) <==> c.group % c.slot != 0
  {
    if c.group % c.slot != 0 {
      var s := StrayReached(c);
    } else {
      forall s | Reachable(c, s) ensures !Stray(c, s) {
        var free := ReachableInv(c, s);
        Where(c, s, free);
      }
    }
  }
}
