/** What happens when the object size does not divide the group size: the same machine, from the same
    start, hands out two objects that share bytes. */
module SlabOverlap {
  import opened Bytes
  import opened Memory
  import opened Options
  import opened Slicing
  import opened SlabStore
  import opened SlabSystem
  import opened SlabRuns
  import opened SlabSolo
  import opened SlabTheorems

  /** Two objects in use share a byte. */
  ghost predicate Overlapping(c: Config, s: State) {
    exists x, y :: x in s.owner && y in s.owner && x != y && !Disjoint(x, c.slot, y, c.slot)
  }

  // ----- the list after a group has been cut, whatever the sizes -----

  ghost predicate Linkable(m: seq<Byte>, xs: seq<nat>) {
    && |m| <= Pow256(LINK) && Apart(xs, LINK)
    && forall i :: 0 <= i < |xs| ==> xs[i] != 0 && xs[i] + LINK <= |m|
  }

  lemma LinkableTail(m: seq<Byte>, xs: seq<nat>)
    requires Linkable(m, xs) && xs != []
    ensures Linkable(m, xs[1..])
    ensures forall y :: y in xs[1..] ==> Disjoint(y, LINK, xs[0], LINK)
  {
    var t := xs[1..];
    forall i | 0 <= i < |t| ensures t[i] == xs[i + 1] && Disjoint(t[i], LINK, xs[0], LINK) {
      assert xs[0] + LINK <= xs[i + 1] || xs[i + 1] + LINK <= xs[0];
    }
    forall i, j | 0 <= i < j < |t| ensures t[i] + LINK <= t[j] || t[j] + LINK <= t[i] {
      assert t[i] == xs[i + 1] && t[j] == xs[j + 1];
    }
  }

  lemma ApartFromMore(xs: seq<nat>, free: seq<nat>)
    requires xs != [] && forall x, y :: x in xs && y in free ==> Disjoint(y, LINK, x, LINK)
    requires forall y :: y in xs[1..] ==> Disjoint(y, LINK, xs[0], LINK)
    ensures forall x, y :: x in xs[1..] && y in [xs[0]] + free ==> Disjoint(y, LINK, x, LINK)
  {
    forall x, y | x in xs[1..] && y in [xs[0]] + free ensures Disjoint(y, LINK, x, LINK) {
      assert x in xs && Disjoint(x, LINK, xs[0], LINK);
    }
  }

  lemma ReverseFirst(xs: seq<nat>, free: seq<nat>)
    requires xs != []
    ensures Reverse(xs) + free == Reverse(xs[1..]) + ([xs[0]] + free)
  {
    Regrouped(Reverse(xs[1..]), [xs[0]], free);
  }

  lemma Regrouped(a: seq<nat>, b: seq<nat>, d: seq<nat>)
    ensures (a + b) + d == a + (b + d)
  {
  }

  /** Pushing slots whose first bytes are apart puts them on the list in reverse. */
  lemma {:induction false} PushAllChain(s: Store, xs: seq<nat>, free: seq<nat>)
    requires Linkable(s.mem, xs) && Chain(s.mem, s.top, free) && s.depth == |free| % DEPTHS
    requires forall x, y :: x in xs && y in free ==> Disjoint(y, LINK, x, LINK)
    ensures var t := PushAll(s, xs);
      Chain(t.mem, t.top, Reverse(xs) + free) && t.depth == |Reverse(xs) + free| % DEPTHS
    decreases |xs|
  {
    if xs == [] {
      assert Reverse(xs) + free == free;
    } else {
      var x, u := xs[0], PushEntry(s, xs[0]);
      assert x in xs;
      LinkableTail(s.mem, xs);
      forall y | y in free ensures y + LINK <= x || x + LINK <= y {
        assert Disjoint(y, LINK, x, LINK);
      }
      ChainPush(s.mem, s.top, free, x);
      DepthFollows(|free|);
      ApartFromMore(xs, free);
      PushAllChain(u, xs[1..], [x] + free);
      ReverseFirst(xs, free);
    }
  }

  // ----- one thread takes everything -----

  /** A thread that pops until the list is empty has every slot that was on it, and keeps what it had. */
  lemma {:induction false} PopAll(c: Config, s: State, free: seq<nat>, t: nat) returns (ks: seq<Step>, e: State)
    requires c.Positive() && t < |s.pcs| && s.pcs[t] == Idle
    requires Chain(s.store.mem, s.store.top, free) && s.store.depth == |free| % DEPTHS
    ensures Executable(c, s, ks) && Exec(c, s, ks) == e
    ensures e == s.(store := s.store.(top := 0, depth := 0), owner := e.owner)
    ensures forall x :: x in free || x in s.owner ==> x in e.owner
    ensures forall x :: x in free ==> e.owner[x] == t
    ensures forall x :: x in s.owner && s.owner[x] == t ==> e.owner[x] == t
    decreases |free|
  {
    if free == [] {
      ks, e := [], s;
    } else {
      var x := free[0];
      var s' := s.(store := PopEntry(s.store).0, owner := s.owner[x := t]);
      PopOne(c, s, t);
      DepthFollows(|free|);
      var rest;
      rest, e := PopAll(c, s', free[1..], t);
      ks := [Call(t), Pop(t)] + rest;
      ExecAppend(c, s, [Call(t), Pop(t)], rest);
      assert free == [x] + free[1..];
    }
  }

  lemma PopOne(c: Config, s: State, t: nat)
    requires c.Positive() && t < |s.pcs| && s.pcs[t] == Idle && s.store.top != 0
    ensures Executable(c, s, [Call(t), Pop(t)])
    ensures Exec(c, s, [Call(t), Pop(t)]) == s.(store := PopEntry(s.store).0, owner := s.owner[s.store.top := t])
  {
    ExecOne(c, s, Call(t));
    Extend(c, s, [Call(t)], Pop(t));
    assert [Call(t)] + [Pop(t)] == [Call(t), Pop(t)];
    assert s.pcs[t := Popping][t := Idle] == s.pcs;
  }

  /** With nothing left it grows, and takes the new group as well. */
  lemma GrowAndPopAll(c: Config, s: State, t: nat, r: nat, xs: seq<nat>) returns (ks: seq<Step>, e: State)
    requires c.Positive() && t < |s.pcs| && s.pcs[t] == Idle && s.lock == None
    requires s.store.top == 0 && s.store.depth == 0 && (s.store.queue == [] ==> Granted(c, s.store, r))
    requires var (u, g) := Carve(c, s.store, r);
      g != 0 && xs == Slices(g, 0, c.group, c.slot) && Linkable(u.mem, xs)
    requires xs != []
    ensures Executable(c, s, ks) && Exec(c, s, ks) == e
    ensures forall x :: x in xs || x in s.owner ==> x in e.owner
  {
    ExecOne(c, s, Call(t));
    Extend(c, s, [Call(t)], Pop(t));
    var grown := SoloGrow(c, s, t, r, [Call(t)] + [Pop(t)]);
    var s1 := Exec(c, s, grown);
    assert s1 == s.(store := Grow(c, s.store, r), pcs := s.pcs[t := Popping]);
    var free := GrownChain(c, s.store, r, xs);
    var rest;
    rest, e := PopOnAll(c, s1, free, t);
    ks := grown + rest;
    ExecAppend(c, s, grown, rest);
  }

  /** PopAll by a thread that is already at the pop. */
  lemma PopOnAll(c: Config, s: State, free: seq<nat>, t: nat) returns (ks: seq<Step>, e: State)
    requires c.Positive() && t < |s.pcs| && s.pcs[t] == Popping && free != []
    requires Chain(s.store.mem, s.store.top, free) && s.store.depth == |free| % DEPTHS
    ensures Executable(c, s, ks) && Exec(c, s, ks) == e
    ensures forall x :: x in free || x in s.owner ==> x in e.owner
  {
    ExecOne(c, s, Pop(t));
    DepthFollows(|free|);
    var rest;
    rest, e := PopAll(c, Apply(c, s, Pop(t)), free[1..], t);
    ks := [Pop(t)] + rest;
    ExecAppend(c, s, [Pop(t)], rest);
    assert free == [free[0]] + free[1..];
  }

  lemma GrownChain(c: Config, s: Store, r: nat, xs: seq<nat>) returns (free: seq<nat>)
    requires c.Positive() && s.top == 0 && s.depth == 0 && xs != []
    requires var (u, g) := Carve(c, s, r);
      g != 0 && xs == Slices(g, 0, c.group, c.slot) && Linkable(u.mem, xs)
    ensures var t := Grow(c, s, r);
      Chain(t.mem, t.top, free) && t.depth == |free| % DEPTHS && free != []
    ensures forall x :: x in xs ==> x in free
    ensures free[|free| - 1] == xs[0] && Apart(free, LINK)
  {
    var (u, g) := Carve(c, s, r);
    PushAllChain(u, xs, []);
    free := Reverse(xs) + [];
    ReverseHolds(xs);
    ReverseApart(xs, LINK);
  }

  lemma {:induction false} ReverseApart(xs: seq<nat>, d: nat)
    requires Apart(xs, d)
    ensures Apart(Reverse(xs), d)
  {
    if xs != [] {
      var t, r := xs[1..], Reverse(xs[1..]);
      assert forall i :: 0 <= i < |t| ==> t[i] == xs[i + 1];
      ReverseApart(t, d);
      ReverseFrom(t);
      forall i, j | 0 <= i < j < |r| + 1
        ensures (r + [xs[0]])[i] + d <= (r + [xs[0]])[j] || (r + [xs[0]])[j] + d <= (r + [xs[0]])[i]
      {
        if j == |r| {
          assert r[i] in t;
        }
      }
    }
  }

  lemma {:induction false} ReverseFrom(xs: seq<nat>)
    ensures forall i :: 0 <= i < |Reverse(xs)| ==> Reverse(xs)[i] in xs
  {
    if xs != [] {
      ReverseFrom(xs[1..]);
      assert xs == [xs[0]] + xs[1..];
    }
  }

  lemma {:induction false} ReverseHolds(xs: seq<nat>)
    ensures forall x :: x in xs ==> x in Reverse(xs)
  {
    if xs != [] {
      ReverseHolds(xs[1..]);
      assert xs == [xs[0]] + xs[1..];
    }
  }

  // ----- the first two groups -----

  /** The links of one group's slots fit in the group, even if the last slot does not. */
  lemma GroupLinkable(c: Config, m: seq<Byte>, g: nat)
    requires c.Aligned() && |m| <= Pow256(LINK) && 0 < g && g + c.group <= |m|
    ensures Linkable(m, Slices(g, 0, c.group, c.slot))
  {
    var xs := Slices(g, 0, c.group, c.slot);
    MultipleNotSmaller(c.slot, ALIGN);
    SlicesApart(g, 0, c.group, c.slot);
    forall i | 0 <= i < |xs| ensures xs[i] != 0 && xs[i] + LINK <= |m| {
      SliceAt(g, 0, c.group, c.slot, i);
      ModMultiple(i, c.slot, ALIGN);
      MultipleGap(i * c.slot, c.group, ALIGN);
    }
    forall i, j | 0 <= i < j < |xs| ensures xs[i] + LINK <= xs[j] || xs[j] + LINK <= xs[i] {
      assert xs[i] + c.slot <= xs[j] || xs[j] + c.slot <= xs[i];
    }
  }

  lemma ModMultiple(k: nat, a: nat, d: nat)
    requires d > 0 && a % d == 0
    ensures (k * a) % d == 0
  {
    var q := a / d;
    assert a == q * d && k * (q * d) == (k * q) * d;
    DivUnique(k * a, d, k * q, 0);
  }

  /** Where the second group comes from: the queue, or a region next to the first. */
  lemma SecondGroup(c: Config, s: Store, r: nat)
    requires c.Aligned() && Layout(c, s) && s.regions == [r] && s.heads == [r]
    requires s.queue == Slices(r, 0, c.size, c.group)[1..] && r + 2 * c.size <= |s.mem|
    ensures s.queue == [] ==> Granted(c, s, r + c.size)
    ensures Carve(c, s, r + c.size).1 == r + c.group
  {
    MultipleNotSmaller(c.size, c.group);
    assert Slices(r, 0, c.size, c.group)[1..] == Slices(r, c.group, c.size, c.group);
    if c.size > c.group {
      FirstTwo(r, c.size, c.group);
    } else {
      ModMultiple(1, c.group, ALIGN);
      ModSum(r, c.size, ALIGN);
      assert Slices(r + c.size, 0, c.size, c.group)[0] == r + c.size;
    }
  }

  lemma SecondLinkable(c: Config, s: Store, r: nat)
    requires c.Aligned() && Layout(c, s) && s.regions == [r] && s.heads == [r]
    requires s.queue == Slices(r, 0, c.size, c.group)[1..] && r + 2 * c.size <= |s.mem|
    ensures s.queue == [] ==> Granted(c, s, r + c.size)
    ensures var (u, g) := Carve(c, s, r + c.size);
      g == r + c.group && Linkable(u.mem, Slices(g, 0, c.group, c.slot))
    ensures Slices(r + c.group, 0, c.group, c.slot) != []
  {
    SecondGroup(c, s, r);
    MultipleNotSmaller(c.size, c.group);
    GroupLinkable(c, Carve(c, s, r + c.size).0.mem, r + c.group);
  }

  /** The pool just made on the region r, as its threads find it. */
  lemma FirstGroup(c: Config, mem: seq<Byte>, r: nat, n: nat) returns (free: seq<nat>)
    requires c.Aligned() && CanOpen(c, mem, r)
    ensures var u := StartUp(c, mem, r, n).store;
      && Chain(u.mem, u.top, free) && u.depth == |free| % DEPTHS
      && Layout(c, u.(top := 0, depth := 0)) && u.regions == [r] && u.heads == [r] && |u.mem| == |mem|
      && u.queue == Slices(r, 0, c.size, c.group)[1..]
    ensures forall x :: x in Slices(r, 0, c.group, c.slot) ==> x in free
  {
    var empty := Store(mem, 0, 0, [], [], []);
    var made := AddRegion(c, empty, r);
    FirstRegion(c, empty, r);
    assert made.queue[0] == r;
    LayoutCarve(c, made, 0);
    var (u, g) := Carve(c, made, 0);
    var xs := Slices(r, 0, c.group, c.slot);
    MultipleNotSmaller(c.size, c.group);
    GroupLinkable(c, u.mem, r);
    PushAllKeeps(u, xs);
    free := GrownChain(c, made, 0, xs);
  }

  /** Both groups in the hands of one thread. */
  lemma TakeTwoGroups(c: Config, mem: seq<Byte>, r: nat) returns (s: State)
    requires c.Aligned() && CanOpen(c, mem, r) && r + 2 * c.size <= |mem|
    ensures Reachable(c, s)
    ensures forall x :: x in Slices(r, 0, c.group, c.slot) ==> x in s.owner
    ensures forall x :: x in Slices(r + c.group, 0, c.group, c.slot) ==> x in s.owner
  {
    var start := StartUp(c, mem, r, 1);
    var u := start.store.(top := 0, depth := 0);
    var free := FirstGroup(c, mem, r, 1);
    var first, s1 := PopAll(c, start, free, 0);
    assert s1.store == u && s1.lock == None && s1.pcs == start.pcs;
    SecondLinkable(c, u, r);
    var second;
    second, s := SecondTaken(c, s1, u, r);
    ExecAppend(c, start, first, second);
    RunReaches(c, mem, r, 1, first + second);
    forall x | x in Slices(r, 0, c.group, c.slot) ensures x in s.owner {
      assert x in free && x in s1.owner;
    }
  }

  lemma SecondTaken(c: Config, s: State, u: Store, r: nat) returns (ks: seq<Step>, e: State)
    requires c.Positive() && s.store == u && |s.pcs| > 0 && s.pcs[0] == Idle && s.lock == None
    requires u.top == 0 && u.depth == 0 && (u.queue == [] ==> Granted(c, u, r + c.size))
    requires var (v, g) := Carve(c, u, r + c.size);
      g == r + c.group && g != 0 && Linkable(v.mem, Slices(g, 0, c.group, c.slot))
    requires Slices(r + c.group, 0, c.group, c.slot) != []
    ensures Executable(c, s, ks) && Exec(c, s, ks) == e
    ensures forall x :: x in Slices(r + c.group, 0, c.group, c.slot) || x in s.owner ==> x in e.owner
  {
    ks, e := GrowAndPopAll(c, s, 0, r + c.size, Slices(r + c.group, 0, c.group, c.slot));
  }

  lemma RunReaches(c: Config, mem: seq<Byte>, r: nat, n: nat, ks: seq<Step>)
    requires c.Positive() && CanOpen(c, mem, r) && Executable(c, StartUp(c, mem, r, n), ks)
    ensures Reachable(c, Exec(c, StartUp(c, mem, r, n), ks))
  {
    assert Init(c, StartUp(c, mem, r, n));
  }

  lemma OverlapReached(c: Config) returns (s: State)
    requires c.Aligned() && c.group % c.slot != 0 && ALIGN + 2 * c.size <= Pow256(LINK)
    ensures Reachable(c, s) && Overlapping(c, s)
  {
    var mem: seq<Byte> := seq(ALIGN + 2 * c.size, _ => 0);
    s := TakeTwoGroups(c, mem, ALIGN);
    NeighboursCollide(ALIGN, c.group, c.slot);
    var xs, ys := Slices(ALIGN, 0, c.group, c.slot), Slices(ALIGN + c.group, 0, c.group, c.slot);
    var x, y := xs[|xs| - 1], ys[0];
    assert x in s.owner && y in s.owner && x != y && !Disjoint(x, c.slot, y, c.slot);
  }

  /** Two objects in use can share bytes if and only if the object size does not divide the group size.
      (Two regions must fit the address space.) */
  lemma OverlapExactly(c: Config)
    requires c.Aligned() && ALIGN + 2 * c.size <= Pow256(LINK)
    ensures (exists s :: Reachable(c, s) && Overlapping(c, s)) <==> c.group % c.slot != 0
  {
    if c.group % c.slot != 0 {
      var s := OverlapReached(c);
    } else {
      forall s | Reachable(c, s) ensures !Overlapping(c, s) {
        var free := ReachableInv(c, s);
        forall x, y | x in s.owner && y in s.owner && x != y ensures Disjoint(x, c.slot, y, c.slot) {
          ObjectsExclusive(c, s, free, x);
        }
      }
    }
  }
}
