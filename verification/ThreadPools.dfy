/** ThreadPool as an object: its methods, run without interference, are runs of the protocol. */
module ThreadPools {
  import opened Options
  import opened ThreadPoolSystem
  import opened ThreadPoolTheorems

  /** GetNextJob, and then one whole pass of ThreadProc's loop, by worker i. */
  function FetchSteps(i: nat): seq<Step> {
    [LockQueue(i), Fetch(i), UnlockQueue(i)]
  }

  function PassSteps(i: nat): seq<Step> {
    [Wake(i), Check(i)] + FetchSteps(i) + [Return(i), Decrement(i)]
  }

  function AfterFetch(s: State, i: nat): State
    requires i < |s.workers| && s.queue != []
  {
    s.(queue := s.queue[1..], fetched := s.fetched + [s.queue[0]], workers := s.workers[i := Running(s.queue[0])])
  }

  function AfterPass(s: State, i: nat): State
    requires s.queue != [] && s.permits > 0
  {
    s.(permits := s.permits - 1, queue := s.queue[1..], fetched := s.fetched + [s.queue[0]],
       done := s.done + [s.queue[0]], working := (s.working + WORDS - 1) % WORDS)
  }

  lemma FetchAlone(c: Config, s: State, i: nat)
    requires At(s, i, Cleared) && s.mutex == Open && s.queue != []
    ensures Executable(c, s, FetchSteps(i)) && Exec(c, s, FetchSteps(i)) == AfterFetch(s, i)
  {
    Extend(c, s, [], LockQueue(i));
    Extend(c, s, [LockQueue(i)], Fetch(i));
    Extend(c, s, [LockQueue(i), Fetch(i)], UnlockQueue(i));
    assert [] + [LockQueue(i)] == [LockQueue(i)];
    assert [LockQueue(i)] + [Fetch(i)] == [LockQueue(i), Fetch(i)];
    assert [LockQueue(i), Fetch(i)] + [UnlockQueue(i)] == FetchSteps(i);
    assert s.workers[i := Fetching][i := Taken(s.queue[0])][i := Running(s.queue[0])]
      == s.workers[i := Running(s.queue[0])];
  }

  lemma PassAlone(c: Config, s: State, i: nat)
    requires At(s, i, Waiting) && s.mutex == Open && s.queue != [] && s.permits > 0 && !s.finish
    ensures Executable(c, s, PassSteps(i)) && Exec(c, s, PassSteps(i)) == AfterPass(s, i)
  {
    WakeAlone(c, s, i);
    var cleared := s.(permits := s.permits - 1, workers := s.workers[i := Cleared]);
    FetchAlone(c, cleared, i);
    ExecAppend(c, s, [Wake(i), Check(i)], FetchSteps(i));
    var fetched := AfterFetch(cleared, i);
    FinishAlone(c, fetched, i);
    ExecAppend(c, s, [Wake(i), Check(i)] + FetchSteps(i), [Return(i), Decrement(i)]);
    assert s.workers[i := Cleared][i := Running(s.queue[0])][i := Waiting] == s.workers;
  }

  lemma WakeAlone(c: Config, s: State, i: nat)
    requires At(s, i, Waiting) && s.permits > 0 && !s.finish
    ensures Executable(c, s, [Wake(i), Check(i)])
    ensures Exec(c, s, [Wake(i), Check(i)]) == s.(permits := s.permits - 1, workers := s.workers[i := Cleared])
  {
    Extend(c, s, [], Wake(i));
    assert [] + [Wake(i)] == [Wake(i)];
    Extend(c, s, [Wake(i)], Check(i));
    assert [Wake(i)] + [Check(i)] == [Wake(i), Check(i)];
    assert s.workers[i := Woken][i := Cleared] == s.workers[i := Cleared];
  }

  lemma FinishAlone(c: Config, s: State, i: nat)
    requires i < |s.workers| && s.workers[i].Running?
    ensures Executable(c, s, [Return(i), Decrement(i)])
    ensures Exec(c, s, [Return(i), Decrement(i)])
      == s.(done := s.done + [s.workers[i].job], working := (s.working + WORDS - 1) % WORDS,
            workers := s.workers[i := Waiting])
  {
    Extend(c, s, [], Return(i));
    assert [] + [Return(i)] == [Return(i)];
    Extend(c, s, [Return(i)], Decrement(i));
    assert [Return(i)] + [Decrement(i)] == [Return(i), Decrement(i)];
    assert s.workers[i := Finished][i := Waiting] == s.workers[i := Waiting];
  }

  lemma WorkersAppend(a: seq<Step>, b: seq<Step>)
    requires WorkersOnly(a) && WorkersOnly(b)
    ensures WorkersOnly(a + b)
  {
  }

  lemma PassExtends(c: Config, start: State, ks: seq<Step>, i: nat)
    requires WorkersOnly(ks) && Executable(c, start, ks)
    requires var s := Exec(c, start, ks);
      At(s, i, Waiting) && s.mutex == Open && s.queue != [] && s.permits > 0 && !s.finish
    ensures WorkersOnly(ks + PassSteps(i)) && Executable(c, start, ks + PassSteps(i))
    ensures Exec(c, start, ks + PassSteps(i)) == AfterPass(Exec(c, start, ks), i)
  {
    PassAlone(c, Exec(c, start, ks), i);
    WorkersAppend(ks, PassSteps(i));
    ExecAppend(c, start, ks, PassSteps(i));
  }

  /** A worker that wakes after IsFinish was set. */
  lemma LeaveAlone(c: Config, s: State, i: nat)
    requires At(s, i, Waiting) && s.permits > 0 && s.finish
    ensures Executable(c, s, [Wake(i), Check(i)])
    ensures Exec(c, s, [Wake(i), Check(i)]) == s.(permits := s.permits - 1, workers := s.workers[i := Exited])
  {
    Extend(c, s, [], Wake(i));
    assert [] + [Wake(i)] == [Wake(i)];
    Extend(c, s, [Wake(i)], Check(i));
    assert [Wake(i)] + [Check(i)] == [Wake(i), Check(i)];
    assert s.workers[i := Woken][i := Exited] == s.workers[i := Exited];
  }

  /** After n passes before shutdown: n permits are gone, and the n oldest jobs have run. */
  ghost predicate Drained(start: State, s: State, n: nat) {
    && n + s.permits == start.permits <= |start.queue|
    && s.queue == start.queue[n..] && s.done == start.done + start.queue[..n]
  }

  lemma DrainTurn(start: State, s: State, n: nat, i: nat)
    requires Drained(start, s, n) && s.permits > 0
    ensures s.queue != [] && Drained(start, AfterPass(s, i), n + 1)
  {
    assert start.queue[..n + 1] == start.queue[..n] + [start.queue[n]];
  }

  lemma StartOfProc(c: Config, s: State, i: nat)
    requires Inv(c, s) && At(s, i, Waiting)
    ensures !s.finish ==> Drained(s, s, 0)
    ensures s.finish && s.permits > 0 ==>
      && Executable(c, s, [Wake(i), Check(i)])
      && Exec(c, s, [Wake(i), Check(i)]) == s.(permits := s.permits - 1, workers := s.workers[i := Exited])
  {
    if s.finish && s.permits > 0 {
      LeaveAlone(c, s, i);
    }
    assert s.queue[0..] == s.queue && s.done + s.queue[..0] == s.done;
  }

  /** What the other threads do during each turn of a polling loop. */
  ghost predicate Turns(c: Config, s: State, turns: seq<seq<Step>>)
    decreases |turns|
  {
    turns != [] ==>
      Executable(c, s, turns[0]) && ShutdownSteps(turns[0]) && Turns(c, Exec(c, s, turns[0]), turns[1..])
  }

  lemma ShutdownAppend(a: seq<Step>, b: seq<Step>)
    requires ShutdownSteps(a) && ShutdownSteps(b)
    ensures ShutdownSteps(a + b)
  {
  }

  /** The steps of several turns in a row. */
  ghost function Joined(turns: seq<seq<Step>>): seq<Step> {
    if turns == [] then [] else Joined(turns[..|turns| - 1]) + turns[|turns| - 1]
  }

  /** The loop has polled n turns: each is a run, and the counter was not zero before any of them. */
  ghost predicate Polled(c: Config, s: State, turns: seq<seq<Step>>, n: nat) {
    && n <= |turns| && Executable(c, s, Joined(turns[..n]))
    && forall m :: 0 <= m < n ==>
         Executable(c, s, Joined(turns[..m])) && Exec(c, s, Joined(turns[..m])).working != 0
  }

  lemma PolledOnce(c: Config, s: State, turns: seq<seq<Step>>, n: nat)
    requires Polled(c, s, turns, n) && n < |turns| && ShutdownSteps(Joined(turns[..n]))
    requires var m := Exec(c, s, Joined(turns[..n]));
      m.working != 0 && Executable(c, m, turns[n]) && ShutdownSteps(turns[n])
    ensures Polled(c, s, turns, n + 1) && ShutdownSteps(Joined(turns[..n + 1]))
    ensures Exec(c, s, Joined(turns[..n + 1])) == Exec(c, Exec(c, s, Joined(turns[..n])), turns[n])
  {
    assert turns[..n + 1][..n] == turns[..n];
    assert Joined(turns[..n + 1]) == Joined(turns[..n]) + turns[n];
    ExecAppend(c, s, Joined(turns[..n]), turns[n]);
    ShutdownAppend(Joined(turns[..n]), turns[n]);
  }

  /** Workers and repeated shutdowns take back no permit a worker may leave with. */
  lemma {:induction false} ExitsGrow(c: Config, s: State, ks: seq<Step>)
    requires s.finish && Executable(c, s, ks) && ShutdownSteps(ks)
    ensures Exec(c, s, ks).finish && Exits(Exec(c, s, ks)) >= Exits(s)
    decreases |ks|
  {
    if ks != [] {
      var s' := Apply(c, s, ks[0]);
      if Actor(ks[0]) >= 0 {
        ActorMoves(c, s, ks[0]);
        TotalUpdate(s.workers, Actor(ks[0]), s'.workers[Actor(ks[0])], Departing);
      }
      ExitsGrow(c, s', ks[1..]);
    }
  }

  /** Setting IsFinish and the bulk release, the workers moving in between, claim and lose no job. */
  lemma ReleaseKeeps(c: Config, s: State, between: seq<Step>)
    requires Inv(c, s) && !s.mutex.Submitter?
    requires WorkersOnly(between) && Executable(c, Apply(c, s, SetFinish), between)
    ensures var r := AtRelease(c, s, between);
      Inv(c, r) && r.finish && !r.mutex.Submitter? && Unclaimed(r) == Unclaimed(s)
  {
    var f := Apply(c, s, SetFinish);
    StepKeeps(c, s, SetFinish);
    assert ShutdownSteps(between);
    UnclaimedStays(c, f, between);
    StepKeeps(c, Exec(c, f, between), ReleaseAll);
    assert AtRelease(c, s, between) == Apply(c, Exec(c, f, between), ReleaseAll);
  }

  /** With nothing outstanding no permit is, so the bulk release fits. */
  lemma IdleReleases(c: Config, s: State, between: seq<Step>)
    requires Inv(c, s) && WorkersOnly(between) && Executable(c, Apply(c, s, SetFinish), between)
    ensures !s.finish && Outstanding(s) == 0 ==> Exits(AtRelease(c, s, between)) >= c.maxThreads
  {
    PermitsFall(c, Apply(c, s, SetFinish), between);
  }

  /** What holds wherever the polling stops. */
  lemma EndHolds(c: Config, s: State, between: seq<Step>, ks: seq<Step>)
    requires Inv(c, s) && !s.mutex.Submitter? && c.jobCapacity + c.maxThreads < WORDS
    requires WorkersOnly(between) && Executable(c, Apply(c, s, SetFinish), between)
    requires Executable(c, AtRelease(c, s, between), ks) && ShutdownSteps(ks)
    ensures var r, e := AtRelease(c, s, between), Exec(c, AtRelease(c, s, between), ks);
      && Inv(c, e) && e.finish && Exits(e) >= Exits(r)
      && (e.working == 0 ==> Unclaimed(s) == 0)
      && (Quiescent(c, e) ==> e.working == Unclaimed(s) && (AllGone(e) <==> Exits(e) >= c.maxThreads))
      && (!s.finish && Outstanding(s) == 0 ==> Exits(r) >= c.maxThreads)
  {
    var r := AtRelease(c, s, between);
    ReleaseKeeps(c, s, between);
    ShutdownRun(c, r, ks);
    UnclaimedStays(c, r, ks);
    ExitsGrow(c, r, ks);
    if Quiescent(c, Exec(c, r, ks)) {
      DepartedAtRest(c, Exec(c, r, ks));
    }
    IdleReleases(c, s, between);
  }

  class ThreadPool {
    const MaxThreadNum: nat
    const JobMaxCapacity: nat
    var WorkingThreadCount: nat
    var Jobs: seq<Job>
    var IsFinish: bool
    var WorkingEvent: bool

    /** The semaphore's count and the holder of the mutex. */
    var Permits: nat
    var Holder: Mutex

    /** Where the threads stand, and the history. */
    var Workers: seq<Worker>
    var Accepted: seq<Job>
    var Taken: seq<Job>
    var Ran: seq<Job>

    function View(): State
      reads this
    {
      State(Permits, Jobs, WorkingThreadCount, IsFinish, WorkingEvent, Holder, Workers, Accepted, Taken, Ran)
    }

    function Limits(): Config {
      Config(MaxThreadNum, JobMaxCapacity)
    }

    constructor (maxThreads: nat, jobCapacity: nat)
      requires maxThreads > 0
      ensures MaxThreadNum == maxThreads && JobMaxCapacity == jobCapacity
      ensures View() == Start(Limits())
    {
      MaxThreadNum := maxThreads;
      JobMaxCapacity := jobCapacity;
      IsFinish := false;
      WorkingThreadCount := 0;
      WorkingEvent := true;
      Permits := 0;
      Jobs := [];
      Holder := Open;
      Workers := seq(maxThreads, _ => Waiting);
      Accepted, Taken, Ran := [], [], [];
    }

    method ReleaseSemaphore(n: nat)
      modifies this`Permits
      ensures Permits == Released(Limits(), old(Permits), n)
    {
      if Permits + n <= MaxThreadNum {
        Permits := Permits + n;
      }
    }

    method SubmitJob(job: Job) returns (submitted: bool)
      requires Holder == Open
      modifies this
      ensures submitted <==> |old(Jobs)| < JobMaxCapacity
      ensures View() == if submitted then Submitted(Limits(), old(View()), job) else old(View())
    {
      Holder := Submitter(Entered, job);
      if |Jobs| >= JobMaxCapacity {
        Holder := Open;
        return false;
      }
      WorkingThreadCount := (WorkingThreadCount + 1) % WORDS;
      Jobs := Jobs + [job];
      Accepted := Accepted + [job];
      WorkingEvent := true;
      ReleaseSemaphore(1);
      Holder := Open;
      return true;
    }

    method GetNextJob(i: nat) returns (job: Option<Job>)
      requires Holder == Open && At(View(), i, Cleared)
      modifies this
      ensures job == if old(Jobs) == [] then None else Some(old(Jobs)[0])
      ensures job.Some? ==> View() == AfterFetch(old(View()), i)
      ensures job.None? ==> View() == old(View())
    {
      Holder := WorkerLock(i);
      if |Jobs| == 0 {
        Holder := Open;
        return None;
      }
      job := Some(Jobs[0]);
      Taken := Taken + [Jobs[0]];
      Workers := Workers[i := Running(Jobs[0])];
      Jobs := Jobs[1..];
      Holder := Open;
    }

    /** Some accepted job has not been fetched. */
    method IsHasJobs() returns (has: bool)
      requires Inv(Limits(), View())
      ensures has <==> |Taken| < |Accepted|
    {
      has := |Jobs| != 0;
    }

    /** One pass of the loop of ThreadProc by worker i, whose wait has a permit to take; the result
        says that the worker leaves the loop. */
    method OnePass(i: nat) returns (leave: bool)
      requires Holder == Open && At(View(), i, Waiting) && Permits > 0
      modifies this
      ensures leave == old(IsFinish)
      ensures !leave && old(Jobs) != [] ==> View() == AfterPass(old(View()), i)
      ensures !leave && old(Jobs) == [] ==> View() == old(View()).(
        permits := old(Permits) - 1, working := (old(WorkingThreadCount) + WORDS - 1) % WORDS)
      ensures leave ==> View() == old(View()).(permits := old(Permits) - 1, workers := old(Workers)[i := Exited])
    {
      Permits := Permits - 1;
      Workers := Workers[i := Woken];
      if IsFinish {
        Workers := Workers[i := Exited];
        return true;
      }
      Workers := Workers[i := Cleared];
      var callback := GetNextJob(i);
      if callback.Some? {
        Ran := Ran + [callback.value];
      }
      WorkingThreadCount := (WorkingThreadCount + WORDS - 1) % WORDS;
      Workers := Workers[i := Waiting];
      assert Workers == old(Workers);
      return false;
    }

    /** ThreadProc by worker i, up to the first wait that would block. Before shutdown it runs one job
        per permit, oldest first; after IsFinish was set it leaves with the first permit, and without
        decrementing. What it did is a run of the protocol. */
    method ThreadProc(i: nat) returns (left: bool, ghost ks: seq<Step>)
      requires Inv(Limits(), View()) && Holder == Open && At(View(), i, Waiting)
      modifies this
      ensures WorkersOnly(ks) && Executable(Limits(), old(View()), ks) && Exec(Limits(), old(View()), ks) == View()
      ensures left <==> old(IsFinish) && old(Permits) > 0
      ensures left ==> View() == old(View()).(permits := old(Permits) - 1, workers := old(Workers)[i := Exited])
      ensures !old(IsFinish) ==> Permits == 0 && old(Permits) <= |old(Jobs)|
      ensures !old(IsFinish) ==>
        Jobs == old(Jobs)[old(Permits)..] && Ran == old(Ran) + old(Jobs)[..old(Permits)]
    {
      ghost var c, start := Limits(), View();
      left, ks := false, [];
      ghost var n := 0;
      StartOfProc(c, start, i);
      while Permits > 0
        invariant !left && IsFinish == start.finish && Holder == Open && At(View(), i, Waiting)
        invariant IsFinish ==> View() == start && ks == []
        invariant WorkersOnly(ks) && Executable(c, start, ks) && Exec(c, start, ks) == View()
        invariant !IsFinish ==> Drained(start, View(), n)
        decreases Permits
      {
        if !IsFinish {
          PassExtends(c, start, ks, i);
          DrainTurn(start, View(), n, i);
        }
        left := OnePass(i);
        if left {
          ks := [Wake(i), Check(i)];
          break;
        }
        ks := ks + PassSteps(i);
        n := n + 1;
      }
    }

    /** The other threads run, during Sleep(1) or between two statements. */
    method OthersRun(turn: seq<Step>)
      requires Executable(Limits(), View(), turn)
      modifies this
      ensures View() == Exec(Limits(), old(View()), turn)
    {
      var e := Exec(Limits(), View(), turn);
      Permits, Jobs, WorkingThreadCount, IsFinish, WorkingEvent, Holder
        := e.permits, e.queue, e.working, e.finish, e.event, e.mutex;
      Workers, Accepted, Taken, Ran := e.workers, e.accepted, e.fetched, e.done;
    }

    /** The polling loop, for as many turns as are given: it takes the first n of them, one for each time
        it finds the counter above zero, and ends at once when it does not. */
    method WaitForAllThreas(turns: seq<seq<Step>>) returns (ended: bool, ghost n: nat)
      requires Turns(Limits(), View(), turns)
      modifies this
      ensures Polled(Limits(), old(View()), turns, n) && ShutdownSteps(Joined(turns[..n]))
      ensures View() == Exec(Limits(), old(View()), Joined(turns[..n]))
      ensures ended <==> WorkingThreadCount == 0
      ensures !ended ==> n == |turns|
    {
      ghost var c, start := Limits(), View();
      var i := 0;
      n := 0;
      while WorkingThreadCount != 0 && i < |turns|
        invariant n == i <= |turns| && Turns(c, View(), turns[i..])
        invariant Polled(c, start, turns, i) && ShutdownSteps(Joined(turns[..i]))
        invariant View() == Exec(c, start, Joined(turns[..i]))
        decreases |turns| - i
      {
        assert turns[i..][0] == turns[i] && turns[i..][1..] == turns[i + 1..];
        PolledOnce(c, start, turns, i);
        OthersRun(turns[i]);
        i := i + 1;
        n := i;
      }
      ended := WorkingThreadCount == 0;
    }

    /** EndThreadPool before its wait; the workers may move between its two statements. */
    method BeginShutdown(between: seq<Step>)
      requires WorkersOnly(between) && Executable(Limits(), Apply(Limits(), View(), SetFinish), between)
      modifies this
      ensures View() == AtRelease(Limits(), old(View()), between)
    {
      ghost var c, start := Limits(), View();
      IsFinish := true;
      assert View() == Apply(c, start, SetFinish);
      OthersRun(between);
      ReleaseSemaphore(MaxThreadNum);
    }

    /** EndThreadPool, submissions being over: the flag, the bulk release and the polling. It does not return
        while a job queued when IsFinish is set is unclaimed, and if it has not returned when no worker can
        move, it never will. From a pool with nothing to do every worker has a permit to leave with. */
    method EndThreadPool(between: seq<Step>, turns: seq<seq<Step>>) returns (ended: bool, ghost n: nat)
      requires Inv(Limits(), View()) && !View().mutex.Submitter? && JobMaxCapacity + MaxThreadNum < WORDS
      requires WorkersOnly(between) && Executable(Limits(), Apply(Limits(), View(), SetFinish), between)
      requires Turns(Limits(), AtRelease(Limits(), View(), between), turns)
      modifies this
      ensures Inv(Limits(), View()) && IsFinish
      ensures Polled(Limits(), AtRelease(Limits(), old(View()), between), turns, n)
      ensures View() == Exec(Limits(), AtRelease(Limits(), old(View()), between), Joined(turns[..n]))
      ensures (ended <==> WorkingThreadCount == 0) && (!ended ==> n == |turns|)
      ensures ended ==> old(Unclaimed(View())) == 0
      ensures !ended && Quiescent(Limits(), View()) ==> WorkingThreadCount == old(Unclaimed(View())) > 0
      ensures Exits(View()) >= Exits(AtRelease(Limits(), old(View()), between))
      ensures !old(IsFinish) && old(Outstanding(View())) == 0 ==> Exits(View()) >= MaxThreadNum
      ensures !old(IsFinish) && old(Outstanding(View())) == 0 && Quiescent(Limits(), View()) ==> AllGone(View())
    {
      ghost var c, start := Limits(), View();
      ReleaseKeeps(c, start, between);
      BeginShutdown(between);
      ended, n := WaitForAllThreas(turns);
      EndHolds(c, start, between, Joined(turns[..n]));
    }
  }
}
