/** Runs of the slab allocator: sequences of steps, each enabled where it is taken. */
module SlabRuns {
  import opened SlabStore
  import opened SlabSystem

  ghost predicate Executable(c: Config, s: State, ks: seq<Step>)
    requires c.Positive()
    decreases |ks|
  {
    ks == [] || (Enabled(c, s, ks[0]) && Executable(c, Apply(c, s, ks[0]), ks[1..]))
  }

  ghost function Exec(c: Config, s: State, ks: seq<Step>): State
    requires c.Positive() && Executable(c, s, ks)
    decreases |ks|
  {
    if ks == [] then s else Exec(c, Apply(c, s, ks[0]), ks[1..])
  }

  ghost function FreeAfterRun(c: Config, s: State, free: seq<nat>, ks: seq<Step>): seq<nat>
    requires c.Positive() && Executable(c, s, ks)
    decreases |ks|
  {
    if ks == [] then free
    else FreeAfterRun(c, Apply(c, s, ks[0]), FreeAfter(c, s, free, ks[0]), ks[1..])
  }

  lemma {:induction false} ExecAppend(c: Config, s: State, a: seq<Step>, b: seq<Step>)
    requires c.Positive() && Executable(c, s, a) && Executable(c, Exec(c, s, a), b)
    ensures Executable(c, s, a + b) && Exec(c, s, a + b) == Exec(c, Exec(c, s, a), b)
    decreases |a|
  {
    if a == [] {
      assert a + b == b;
    } else {
      ExecAppend(c, Apply(c, s, a[0]), a[1..], b);
      assert (a + b)[1..] == a[1..] + b;
    }
  }

  lemma ExecOne(c: Config, s: State, k: Step)
    requires c.Positive() && Enabled(c, s, k)
    ensures Executable(c, s, [k]) && Exec(c, s, [k]) == Apply(c, s, k)
  {
    assert [k][1..] == [];
  }

  lemma Extend(c: Config, s: State, a: seq<Step>, k: Step)
    requires c.Positive() && Executable(c, s, a) && Enabled(c, Exec(c, s, a), k)
    ensures Executable(c, s, a + [k]) && Exec(c, s, a + [k]) == Apply(c, Exec(c, s, a), k)
  {
    ExecOne(c, Exec(c, s, a), k);
    ExecAppend(c, s, a, [k]);
  }

  lemma {:induction false} RunKeeps(c: Config, s: State, free: seq<nat>, ks: seq<Step>)
    requires c.Valid() && Inv(c, s, free) && Executable(c, s, ks)
    ensures Inv(c, Exec(c, s, ks), FreeAfterRun(c, s, free, ks))
    decreases |ks|
  {
    if ks != [] {
      StepKeeps(c, s, free, ks[0]);
      RunKeeps(c, Apply(c, s, ks[0]), FreeAfter(c, s, free, ks[0]), ks[1..]);
    }
  }
}
