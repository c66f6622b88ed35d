/** The many-step, many-thread allocator behaves like an allocator whose operations are single
    atomic actions on a set of free objects and a table of objects in use. */
module SlabRefinement {
  import opened Bytes
  import opened Memory
  import opened SlabStore
  import opened SlabSystem
  import opened SlabRuns
  import opened SlabTheorems

  // ----- the abstract allocator -----

  datatype Heap = Heap(free: set<nat>, used: map<nat, nat>)

  datatype Event =
    | Take(t: nat, x: nat)
    | Return(t: nat, x: nat)
    | Pass(t: nat, x: nat, receiver: nat)
    | Supply(x: nat)
    | Silent

  ghost predicate HeapNext(h: Heap, e: Event, h': Heap) {
    match e
    case Take(t, x) => x in h.free && x !in h.used && h' == Heap(h.free - {x}, h.used[x := t])
    case Return(t, x) => x in h.used && h.used[x] == t && x !in h.free && h' == Heap(h.free + {x}, h.used - {x})
    case Pass(t, x, u) => x in h.used && h.used[x] == t && h' == Heap(h.free, h.used[x := u])
    case Supply(x) => x !in h.free && x !in h.used && h' == Heap(h.free + {x}, h.used)
    case Silent => h' == h
  }

  ghost predicate HeapRun(h: Heap, es: seq<Event>, h': Heap)
    decreases |es|
  {
    if es == [] then h' == h
    else exists m :: HeapNext(h, es[0], m) && HeapRun(m, es[1..], h')
  }

  // ----- what a concrete state and step look like abstractly -----

  ghost function Abstract(s: State, free: seq<nat>): Heap {
    Heap((set x | x in free), s.owner)
  }

  ghost function EventOf(c: Config, s: State, k: Step): Event
    requires Enabled(c, s, k)
  {
    match k
    case Pop(t) => if s.store.top == 0 then Silent else Take(t, s.store.top)
    case PushFreed(t) => Return(t, s.pcs[t].slot)
    case Give(t, x, u) => Pass(t, x, u)
    case PushSlice(t) => if s.pcs[t].index < c.group then Supply(NextSlice(s, t)) else Silent
    case _ => Silent
  }

  ghost function Events(c: Config, s: State, ks: seq<Step>): seq<Event>
    requires c.Positive() && Executable(c, s, ks)
    decreases |ks|
  {
    if ks == [] then [] else [EventOf(c, s, ks[0])] + Events(c, Apply(c, s, ks[0]), ks[1..])
  }

  lemma SetOfPushed(x: nat, s: seq<nat>)
    ensures (set y | y in [x] + s) == (set y | y in s) + {x}
  {
  }

  lemma SetOfPopped(s: seq<nat>)
    requires s != [] && s[0] !in s[1..]
    ensures (set y | y in s[1..]) == (set y | y in s) - {s[0]}
  {
    assert s == [s[0]] + s[1..];
  }

  lemma HeadOnce(m: seq<Byte>, top: nat, f: seq<nat>)
    requires Chain(m, top, f) && f != []
    ensures f[0] !in f[1..]
  {
    ChainAcyclic(m, top, f);
  }

  lemma PopRefines(c: Config, s: State, free: seq<nat>, t: nat)
    requires c.Valid() && Inv(c, s, free) && Enabled(c, s, Pop(t)) && s.store.top != 0
    ensures HeapNext(Abstract(s, free), EventOf(c, s, Pop(t)),
                     Abstract(Apply(c, s, Pop(t)), FreeAfter(c, s, free, Pop(t))))
  {
    Where(c, s, free);
    HeadOnce(s.store.mem, s.store.top, free);
    SetOfPopped(free);
    assert free[0] in free;
  }

  lemma PushRefines(c: Config, s: State, free: seq<nat>, k: Step)
    requires c.Valid() && Inv(c, s, free) && Enabled(c, s, k)
    requires k.PushFreed? || (k.PushSlice? && s.pcs[k.t].index < c.group)
    ensures HeapNext(Abstract(s, free), EventOf(c, s, k), Abstract(Apply(c, s, k), FreeAfter(c, s, free, k)))
  {
    Where(c, s, free);
    if k.PushFreed? {
      SetOfPushed(s.pcs[k.t].slot, free);
    } else {
      PendingStep(c, s, k.t);
      SetOfPushed(NextSlice(s, k.t), free);
    }
  }

  /** Each step is one abstract action, or none. */
  lemma StepRefines(c: Config, s: State, free: seq<nat>, k: Step)
    requires c.Valid() && Inv(c, s, free) && Enabled(c, s, k)
    ensures HeapNext(Abstract(s, free), EventOf(c, s, k), Abstract(Apply(c, s, k), FreeAfter(c, s, free, k)))
  {
    if k.Pop? && s.store.top != 0 {
      PopRefines(c, s, free, k.t);
    } else if k.PushFreed? || (k.PushSlice? && s.pcs[k.t].index < c.group) {
      PushRefines(c, s, free, k);
    }
  }

  /** Every run of the threads is, action by action, a run of the abstract allocator. */
  lemma {:induction false} RunRefines(c: Config, s: State, free: seq<nat>, ks: seq<Step>)
    requires c.Valid() && Inv(c, s, free) && Executable(c, s, ks)
    ensures HeapRun(Abstract(s, free), Events(c, s, ks), Abstract(Exec(c, s, ks), FreeAfterRun(c, s, free, ks)))
    decreases |ks|
  {
    if ks != [] {
      var s', free' := Apply(c, s, ks[0]), FreeAfter(c, s, free, ks[0]);
      StepKeeps(c, s, free, ks[0]);
      StepRefines(c, s, free, ks[0]);
      RunRefines(c, s', free', ks[1..]);
      var es := Events(c, s, ks);
      assert es[1..] == Events(c, s', ks[1..]);
      assert HeapNext(Abstract(s, free), es[0], Abstract(s', free'));
    }
  }

  // ----- what the abstraction buys -----

  lemma {:induction false} HeldUntilReturned(h: Heap, es: seq<Event>, h': Heap, x: nat, j: nat)
    requires HeapRun(h, es, h') && x in h.used
    requires j < |es| && es[j].Take? && es[j].x == x
    ensures exists k :: 0 <= k < j && es[k].Return? && es[k].x == x
    decreases |es|
  {
    var m :| HeapNext(h, es[0], m) && HeapRun(m, es[1..], h');
    if es[0].Return? && es[0].x == x {
      assert j != 0;
    } else {
      HeldUntilReturned(m, es[1..], h', x, j - 1);
      var k :| 0 <= k < j - 1 && es[1..][k].Return? && es[1..][k].x == x;
      assert es[k + 1] == es[1..][k];
    }
  }

  lemma {:induction false} TakenOnceAbstract(h: Heap, es: seq<Event>, h': Heap, i: nat, j: nat)
    requires HeapRun(h, es, h') && i < j < |es|
    requires es[i].Take? && es[j].Take? && es[i].x == es[j].x
    ensures exists k :: i < k < j && es[k].Return? && es[k].x == es[i].x
    decreases i
  {
    var m :| HeapNext(h, es[0], m) && HeapRun(m, es[1..], h');
    var x := es[i].x;
    if i == 0 {
      HeldUntilReturned(m, es[1..], h', x, j - 1);
    } else {
      TakenOnceAbstract(m, es[1..], h', i - 1, j - 1);
    }
    var k :| i - 1 < k < j - 1 && es[1..][k].Return? && es[1..][k].x == x;
    assert es[k + 1] == es[1..][k];
  }

  /** In any run, from start-up on, an address handed out twice was freed in between. */
  lemma NeverHandedOutTwice(c: Config, s: State, ks: seq<Step>, i: nat, j: nat)
    requires c.Valid() && Init(c, s) && Executable(c, s, ks)
    requires var es := Events(c, s, ks); i < j < |es| && es[i].Take? && es[j].Take? && es[i].x == es[j].x
    ensures var es := Events(c, s, ks); exists k :: i < k < j && es[k].Return? && es[k].x == es[i].x
  {
    var free := InitHolds(c, s);
    RunRefines(c, s, free, ks);
    TakenOnceAbstract(Abstract(s, free), Events(c, s, ks),
                      Abstract(Exec(c, s, ks), FreeAfterRun(c, s, free, ks)), i, j);
  }
}
