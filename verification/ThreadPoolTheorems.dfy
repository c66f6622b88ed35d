/** What ThreadPool guarantees, and exactly when it does not. */
module ThreadPoolTheorems {
  import opened ThreadPoolSystem

  // ----- safety, for every configuration and interleaving, shutdown included -----

  lemma JobsInOrder(c: Config, s: State)
    requires Reachable(c, s)
    ensures s.accepted == s.fetched + s.queue && |s.queue| <= c.jobCapacity
    ensures multiset(s.done) <= multiset(s.fetched)
  {
    ReachableInv(c, s);
  }

  lemma EmptyQueueBranchUnreachable(c: Config, s: State, i: nat)
    requires Reachable(c, s) && Enabled(c, s, Fetch(i))
    ensures s.queue != [] && Apply(c, s, Fetch(i)).workers[i] == Taken(s.queue[0])
  {
    ReachableInv(c, s);
    FetchFinds(c, s, i);
  }

  lemma {:induction false} TotalBound(ws: seq<Worker>)
    ensures Total(ws, Unfinished) <= |ws|
  {
    if ws != [] {
      TotalBound(ws[1..]);
    }
  }

  /** The counter is exact (capacities below the word size), so it never wraps below zero. */
  lemma CounterExact(c: Config, s: State)
    requires Reachable(c, s) && c.jobCapacity + c.maxThreads < WORDS
    ensures s.working == Outstanding(s)
    ensures forall i :: Enabled(c, s, Decrement(i)) ==> s.working > 0
  {
    ReachableInv(c, s);
    TotalBound(s.workers);
    forall i | Enabled(c, s, Decrement(i)) ensures s.working > 0 {
      TotalUpdate(s.workers, i, Waiting, Unfinished);
    }
  }

  // ----- lost wake-ups -----

  /** Queued jobs that no permit and no woken worker will ever come for. */
  function Slack(s: State): int {
    |s.queue| - Claims(s) - Pushed(s)
  }

  predicate LosesWakeUp(c: Config, s: State, k: Step) {
    k.Post? && s.permits + 1 > c.maxThreads
  }

  lemma SlackMoves(c: Config, s: State, k: Step)
    requires Inv(c, s) && Enabled(c, s, k) && !s.finish && !k.SetFinish?
    ensures Slack(Apply(c, s, k)) == Slack(s) + (if LosesWakeUp(c, s, k) then 1 else 0)
  {
    if Actor(k) >= 0 {
      CountsMove(c, s, k);
    }
    if k.Fetch? {
      FetchFinds(c, s, k.i);
    }
  }

  /** The wake-ups lost along a run: releases refused because the semaphore was full. */
  function Lost(c: Config, s: State, ks: seq<Step>): nat
    requires Executable(c, s, ks)
    decreases |ks|
  {
    if ks == [] then 0
    else (if LosesWakeUp(c, s, ks[0]) then 1 else 0) + Lost(c, Apply(c, s, ks[0]), ks[1..])
  }

  ghost predicate NoShutdown(ks: seq<Step>) {
    forall i :: 0 <= i < |ks| ==> !ks[i].SetFinish?
  }

  lemma {:induction false} SlackCountsLost(c: Config, s: State, ks: seq<Step>)
    requires Inv(c, s) && !s.finish && Executable(c, s, ks) && NoShutdown(ks)
    ensures Slack(Exec(c, s, ks)) == Slack(s) + Lost(c, s, ks)
    ensures !Exec(c, s, ks).finish
    decreases |ks|
  {
    if ks != [] {
      StepKeeps(c, s, ks[0]);
      SlackMoves(c, s, ks[0]);
      SlackCountsLost(c, Apply(c, s, ks[0]), ks[1..]);
    }
  }

  /** When the queue cannot outgrow the semaphore, no release is ever refused. */
  lemma SmallQueueLosesNothing(c: Config, s: State, k: Step)
    requires Inv(c, s) && Enabled(c, s, k) && !s.finish && c.jobCapacity <= c.maxThreads
    ensures !LosesWakeUp(c, s, k)
  {
  }

  lemma {:induction false} SmallQueueRun(c: Config, s: State, ks: seq<Step>)
    requires Inv(c, s) && !s.finish && Executable(c, s, ks) && NoShutdown(ks) && c.jobCapacity <= c.maxThreads
    ensures Lost(c, s, ks) == 0
    decreases |ks|
  {
    if ks != [] {
      SmallQueueLosesNothing(c, s, ks[0]);
      StepKeeps(c, s, ks[0]);
      SmallQueueRun(c, Apply(c, s, ks[0]), ks[1..]);
    }
  }

  // ----- draining -----

  ghost predicate WorkersOnly(ks: seq<Step>) {
    forall i :: 0 <= i < |ks| ==> Actor(ks[i]) >= 0
  }

  /** No worker can take a step: each is blocked in a wait or gone. */
  ghost predicate Quiescent(c: Config, s: State) {
    forall k: Step :: Actor(k) >= 0 ==> !Enabled(c, s, k)
  }

  function Measure(s: State): nat {
    7 * s.permits + Total(s.workers, Effort)
  }

  /** Callbacks returning, every worker step brings the pool closer to rest. */
  lemma WorkerStepShrinks(c: Config, s: State, k: Step)
    requires Inv(c, s) && Enabled(c, s, k) && Actor(k) >= 0
    ensures Measure(Apply(c, s, k)) < Measure(s)
    ensures !s.mutex.Submitter? ==> !Apply(c, s, k).mutex.Submitter?
    ensures Apply(c, s, k).finish == s.finish
  {
    CountsMove(c, s, k);
  }

  /** The jobs accepted do not change while only workers move. */
  lemma {:induction false} WorkerRun(c: Config, s: State, ks: seq<Step>)
    requires Inv(c, s) && Executable(c, s, ks) && WorkersOnly(ks) && !s.mutex.Submitter?
    ensures var e := Exec(c, s, ks);
      && Inv(c, e) && !e.mutex.Submitter? && e.finish == s.finish && e.accepted == s.accepted
      && |ks| + Measure(e) <= Measure(s)
    decreases |ks|
  {
    if ks != [] {
      StepKeeps(c, s, ks[0]);
      WorkerStepShrinks(c, s, ks[0]);
      WorkerRun(c, Apply(c, s, ks[0]), ks[1..]);
    }
  }

  /** The worker that holds the mutex can move. */
  lemma HolderMoves(c: Config, s: State)
    requires Shape(c, s) && s.mutex.WorkerLock?
    ensures !Quiescent(c, s)
  {
    var i := s.mutex.i;
    assert s.workers[i].HoldsMutex();
    var k := if s.workers[i].Fetching? then Fetch(i) else UnlockQueue(i);
    assert Enabled(c, s, k) && Actor(k) >= 0;
  }

  predicate Resigned(s: State, w: Worker) {
    (w.Waiting? && s.permits == 0) || w.Exited?
  }

  lemma ActiveMoves(c: Config, s: State, i: nat)
    requires Shape(c, s) && s.mutex == Open && i < |s.workers| && !Resigned(s, s.workers[i])
    ensures !Quiescent(c, s)
  {
    assert !s.workers[i].HoldsMutex();
    var k := match s.workers[i]
      case Waiting => Wake(i)
      case Woken => Check(i)
      case Cleared => LockQueue(i)
      case Running(_) => Return(i)
      case _ => Decrement(i);
    assert Enabled(c, s, k) && Actor(k) >= 0;
  }

  /** At rest every worker is at its wait without a permit to take, or has exited. */
  lemma AtRest(c: Config, s: State)
    requires Inv(c, s) && !s.mutex.Submitter? && Quiescent(c, s)
    ensures s.mutex == Open
    ensures forall i :: 0 <= i < |s.workers| ==> Resigned(s, s.workers[i])
    ensures !s.finish ==> forall i :: 0 <= i < |s.workers| ==> s.workers[i].Waiting?
    ensures Total(s.workers, AwaitingCheck) == Total(s.workers, PastCheck) == Total(s.workers, Unfinished) == 0
    ensures forall job :: Total(s.workers, Holding(job)) == 0
  {
    if s.mutex.WorkerLock? {
      HolderMoves(c, s);
    }
    forall i | 0 <= i < |s.workers| ensures Resigned(s, s.workers[i]) {
      if !Resigned(s, s.workers[i]) {
        ActiveMoves(c, s, i);
      }
    }
    NothingInHand(s);
  }

  lemma NothingInHand(s: State)
    requires forall i :: 0 <= i < |s.workers| ==> Resigned(s, s.workers[i])
    ensures Total(s.workers, AwaitingCheck) == Total(s.workers, PastCheck) == Total(s.workers, Unfinished) == 0
    ensures forall job :: Total(s.workers, Holding(job)) == 0
  {
    TotalZero(s.workers, AwaitingCheck);
    TotalZero(s.workers, PastCheck);
    TotalZero(s.workers, Unfinished);
    forall job ensures Total(s.workers, Holding(job)) == 0 {
      TotalZero(s.workers, Holding(job));
    }
  }

  /** Rest is always reached by workers alone. */
  lemma {:induction false} ReachRest(c: Config, s: State) returns (ks: seq<Step>)
    requires Inv(c, s) && !s.mutex.Submitter?
    ensures Executable(c, s, ks) && WorkersOnly(ks) && Quiescent(c, Exec(c, s, ks))
    decreases Measure(s)
  {
    if Quiescent(c, s) {
      ks := [];
    } else {
      var k: Step :| Actor(k) >= 0 && Enabled(c, s, k);
      StepKeeps(c, s, k);
      WorkerStepShrinks(c, s, k);
      var rest := ReachRest(c, Apply(c, s, k));
      ks := [k] + rest;
      assert ks[1..] == rest;
    }
  }

  /** At rest before shutdown, the jobs left in the queue are exactly the lost wake-ups. */
  lemma LeftBehind(c: Config, ks: seq<Step>)
    requires c.Valid() && Executable(c, Start(c), ks) && NoShutdown(ks)
    requires var s := Exec(c, Start(c), ks); !s.mutex.Submitter? && Quiescent(c, s)
    ensures |Exec(c, Start(c), ks).queue| == Lost(c, Start(c), ks)
  {
    var s := Exec(c, Start(c), ks);
    StartHolds(c);
    RunKeeps(c, Start(c), ks);
    StartQuiet(c, AwaitingCheck);
    StartQuiet(c, PastCheck);
    SlackCountsLost(c, Start(c), ks);
    AtRest(c, s);
    assert s.workers[0].Waiting?;
  }

  lemma RestMeansDone(c: Config, s: State)
    requires c.Valid() && Inv(c, s) && Slack(s) == 0 && !s.finish && !s.mutex.Submitter? && Quiescent(c, s)
    ensures s.queue == [] && multiset(s.done) == multiset(s.accepted) && s.working == 0
  {
    AtRest(c, s);
    assert s.workers[0].Waiting?;
    assert s.accepted == s.fetched;
  }

  lemma WorkersDoNotFinish(ks: seq<Step>)
    requires WorkersOnly(ks)
    ensures NoShutdown(ks)
  {
    forall i | 0 <= i < |ks| ensures !ks[i].SetFinish? {
      assert Actor(ks[i]) >= 0;
    }
  }

  /** With jobCapacity <= maxThreads: once submissions stop, after at most Measure steps nothing is
      left to do, every accepted job has run exactly once, and the counter WaitForAllThreas polls is
      zero. */
  lemma EverythingRuns(c: Config, s: State, ks: seq<Step>)
    requires c.Valid() && c.jobCapacity <= c.maxThreads
    requires Inv(c, s) && Slack(s) == 0 && !s.finish && !s.mutex.Submitter?
    requires Executable(c, s, ks) && WorkersOnly(ks)
    ensures |ks| <= Measure(s)
    ensures Quiescent(c, Exec(c, s, ks)) ==>
      var e := Exec(c, s, ks);
      e.queue == [] && multiset(e.done) == multiset(s.accepted) && e.working == 0
  {
    WorkerRun(c, s, ks);
    WorkersDoNotFinish(ks);
    SlackCountsLost(c, s, ks);
    SmallQueueRun(c, s, ks);
    if Quiescent(c, Exec(c, s, ks)) {
      RestMeansDone(c, Exec(c, s, ks));
    }
  }

  /** ... and every state reached without shutdown satisfies the premise. */
  lemma NoSlackWhenSmall(c: Config, ks: seq<Step>)
    requires c.Valid() && c.jobCapacity <= c.maxThreads
    requires Executable(c, Start(c), ks) && NoShutdown(ks)
    ensures var s := Exec(c, Start(c), ks); Inv(c, s) && Slack(s) == 0 && !s.finish
  {
    StartHolds(c);
    RunKeeps(c, Start(c), ks);
    StartQuiet(c, AwaitingCheck);
    StartQuiet(c, PastCheck);
    SlackCountsLost(c, Start(c), ks);
    SmallQueueRun(c, Start(c), ks);
  }

  // ----- exactly when jobs can be stranded -----

  /** The pool is up, nobody is submitting, no worker can move, and a job is waiting. */
  ghost predicate Stranded(c: Config, s: State) {
    !s.finish && s.mutex == Open && Quiescent(c, s) && s.queue != []
  }

  lemma {:induction false} FinishStays(c: Config, s: State, ks: seq<Step>)
    requires Executable(c, s, ks) && !Exec(c, s, ks).finish
    ensures !s.finish && NoShutdown(ks)
    decreases |ks|
  {
    if ks != [] {
      FinishStays(c, Apply(c, s, ks[0]), ks[1..]);
      assert forall i :: 1 <= i < |ks| ==> ks[i] == ks[1..][i - 1];
    }
  }

  lemma {:induction false} ExecAppend(c: Config, s: State, a: seq<Step>, b: seq<Step>)
    requires Executable(c, s, a) && Executable(c, Exec(c, s, a), b)
    ensures Executable(c, s, a + b) && Exec(c, s, a + b) == Exec(c, Exec(c, s, a), b)
    decreases |a|
  {
    if a == [] {
      assert a + b == b;
    } else {
      ExecAppend(c, Apply(c, s, a[0]), a[1..], b);
      assert (a + b)[1..] == a[1..] + b;
    }
  }

  lemma Extend(c: Config, s: State, a: seq<Step>, k: Step)
    requires Executable(c, s, a) && Enabled(c, Exec(c, s, a), k)
    ensures Executable(c, s, a + [k]) && Exec(c, s, a + [k]) == Apply(c, Exec(c, s, a), k)
  {
    assert [k][1..] == [];
    ExecAppend(c, s, a, [k]);
  }

  /** An accepted SubmitJob, statement by statement. */
  function SubmitSteps(job: Job): seq<Step> {
    [Lock(job), Admit, Count, Enqueue, Signal, Post, Leave]
  }

  /** SubmitJob without interference. */
  function Submitted(c: Config, s: State, job: Job): State {
    s.(working := (s.working + 1) % WORDS, queue := s.queue + [job], accepted := s.accepted + [job],
       event := true, permits := Released(c, s.permits, 1))
  }

  lemma SubmitAlone(c: Config, s: State, job: Job)
    requires s.mutex == Open && |s.queue| < c.jobCapacity
    ensures Executable(c, s, SubmitSteps(job)) && Exec(c, s, SubmitSteps(job)) == Submitted(c, s, job)
  {
    var ks := [];
    Extend(c, s, ks, Lock(job)); ks := ks + [Lock(job)];
    Extend(c, s, ks, Admit); ks := ks + [Admit];
    Extend(c, s, ks, Count); ks := ks + [Count];
    Extend(c, s, ks, Enqueue); ks := ks + [Enqueue];
    Extend(c, s, ks, Signal); ks := ks + [Signal];
    Extend(c, s, ks, Post); ks := ks + [Post];
    Extend(c, s, ks, Leave); ks := ks + [Leave];
    assert ks == SubmitSteps(job);
  }

  /** n submissions in a row, before any worker runs. */
  lemma {:induction false} Load(c: Config, n: nat) returns (ks: seq<Step>)
    requires n <= c.jobCapacity
    ensures Executable(c, Start(c), ks) && NoShutdown(ks)
    ensures var s := Exec(c, Start(c), ks);
      && s.mutex == Open && !s.finish && |s.queue| == n && s.workers == Start(c).workers
      && s.permits == if n <= c.maxThreads then n else c.maxThreads
  {
    if n == 0 {
      ks := [];
    } else {
      var before := Load(c, n - 1);
      var s := Exec(c, Start(c), before);
      SubmitAlone(c, s, 0);
      ks := before + SubmitSteps(0);
      ExecAppend(c, Start(c), before, SubmitSteps(0));
    }
  }

  lemma StrandOne(c: Config) returns (s: State)
    requires c.Valid() && c.maxThreads < c.jobCapacity
    ensures Reachable(c, s) && Stranded(c, s)
  {
    var load := Load(c, c.maxThreads + 1);
    var full := Exec(c, Start(c), load);
    StartHolds(c);
    RunKeeps(c, Start(c), load);
    var rest := ReachRest(c, full);
    WorkerRun(c, full, rest);
    var ks := load + rest;
    ExecAppend(c, Start(c), load, rest);
    s := Exec(c, Start(c), ks);
    StartQuiet(c, AwaitingCheck);
    StartQuiet(c, PastCheck);
    WorkersDoNotFinish(rest);
    SlackCountsLost(c, full, rest);
    AtRest(c, s);
    assert s.workers[0].Waiting?;
  }

  /** A job can be left in the queue of an idle pool if and only if the queue may hold more jobs
      than there are threads. */
  lemma StrandingExactly(c: Config)
    requires c.Valid()
    ensures (exists s :: Reachable(c, s) && Stranded(c, s)) <==> c.maxThreads < c.jobCapacity
  {
    if c.maxThreads < c.jobCapacity {
      var s := StrandOne(c);
    } else {
      forall s | Reachable(c, s) && Stranded(c, s) ensures false {
        var ks :| Executable(c, Start(c), ks) && Exec(c, Start(c), ks) == s;
        FinishStays(c, Start(c), ks);
        LeftBehind(c, ks);
        StartHolds(c);
        SmallQueueRun(c, Start(c), ks);
      }
    }
  }

  // ----- shutdown -----

  ghost predicate ShutdownSteps(ks: seq<Step>) {
    forall i :: 0 <= i < |ks| ==> Actor(ks[i]) >= 0 || ks[i].ReleaseAll? || ks[i].SetFinish?
  }

  /** Queued jobs for which no worker has passed the IsFinish check. */
  function Unclaimed(s: State): int {
    |s.queue| - Total(s.workers, PastCheck)
  }

  lemma UnclaimedMoves(c: Config, s: State, k: Step)
    requires Inv(c, s) && s.finish && !s.mutex.Submitter? && Enabled(c, s, k)
    requires Actor(k) >= 0 || k.ReleaseAll? || k.SetFinish?
    ensures var s' := Apply(c, s, k); s'.finish && !s'.mutex.Submitter? && Unclaimed(s') == Unclaimed(s)
  {
    if Actor(k) >= 0 {
      CountsMove(c, s, k);
      if k.Fetch? {
        FetchFinds(c, s, k.i);
      }
    }
  }

  lemma {:induction false} UnclaimedStays(c: Config, s: State, ks: seq<Step>)
    requires Inv(c, s) && s.finish && !s.mutex.Submitter? && Executable(c, s, ks) && ShutdownSteps(ks)
    ensures var e := Exec(c, s, ks); Inv(c, e) && e.finish && !e.mutex.Submitter? && Unclaimed(e) == Unclaimed(s)
    decreases |ks|
  {
    if ks != [] {
      var k := ks[0];
      StepKeeps(c, s, k);
      UnclaimedMoves(c, s, k);
      assert ShutdownSteps(ks[1..]);
      UnclaimedStays(c, Apply(c, s, k), ks[1..]);
    }
  }

  lemma ShutdownRun(c: Config, s: State, ks: seq<Step>)
    requires Inv(c, s) && s.finish && !s.mutex.Submitter? && c.jobCapacity + c.maxThreads < WORDS
    requires Executable(c, s, ks) && ShutdownSteps(ks)
    ensures Exec(c, s, ks).working == 0 ==> Unclaimed(s) == 0
    ensures Quiescent(c, Exec(c, s, ks)) ==> Exec(c, s, ks).working == Unclaimed(s)
  {
    UnclaimedStays(c, s, ks);
    ShutdownCount(c, Exec(c, s, ks));
  }

  lemma ShutdownCount(c: Config, e: State)
    requires Inv(c, e) && !e.mutex.Submitter? && c.jobCapacity + c.maxThreads < WORDS
    ensures e.working == 0 ==> Unclaimed(e) == 0
    ensures Quiescent(c, e) ==> e.working == Unclaimed(e)
  {
    TotalBound(e.workers);
    assert Outstanding(e) < WORDS;
    if Quiescent(c, e) {
      AtRest(c, e);
    }
  }

  /** After IsFinish is set, with submissions over, the wait in EndThreadPool can end if and only if
      every job still queued had already been claimed by a worker past its check; whatever happens,
      at rest the counter is stuck at the number of unclaimed jobs. */
  lemma ShutdownExactly(c: Config, s: State)
    requires Reachable(c, s) && s.finish && !s.mutex.Submitter? && c.jobCapacity + c.maxThreads < WORDS
    ensures (exists ks :: Executable(c, s, ks) && ShutdownSteps(ks) && Exec(c, s, ks).working == 0)
      <==> Unclaimed(s) == 0
    ensures forall ks :: Executable(c, s, ks) && ShutdownSteps(ks) && Quiescent(c, Exec(c, s, ks)) ==>
      Exec(c, s, ks).working == Unclaimed(s)
  {
    ReachableInv(c, s);
    forall ks | Executable(c, s, ks) && ShutdownSteps(ks)
      ensures Exec(c, s, ks).working == 0 ==> Unclaimed(s) == 0
      ensures Quiescent(c, Exec(c, s, ks)) ==> Exec(c, s, ks).working == Unclaimed(s)
    {
      ShutdownRun(c, s, ks);
    }
    if Unclaimed(s) == 0 {
      var ks := ReachRest(c, s);
      assert ShutdownSteps(ks);
      assert Exec(c, s, ks).working == 0;
    }
  }

  /** A shutdown that can never end is within reach of every pool that accepts jobs at all. */
  lemma HangReachable(c: Config)
    requires c.Valid()
    ensures (exists s :: Reachable(c, s) && s.finish && !s.mutex.Submitter? && Unclaimed(s) > 0) <==> c.jobCapacity > 0
  {
    if c.jobCapacity > 0 {
      var ks := Load(c, 1);
      var s := Exec(c, Start(c), ks);
      Extend(c, Start(c), ks, SetFinish);
      StartQuiet(c, PastCheck);
      assert Reachable(c, Apply(c, s, SetFinish));
      assert Unclaimed(Apply(c, s, SetFinish)) == 1;
    } else {
      forall s | Reachable(c, s) ensures Unclaimed(s) <= 0 {
        ReachableInv(c, s);
      }
    }
  }

  // ----- whether the workers leave -----

  /** Permits, and workers that have used one to leave or are about to. */
  function Exits(s: State): nat {
    s.permits + Total(s.workers, Departing)
  }

  lemma {:induction false} ExitsStay(c: Config, s: State, ks: seq<Step>)
    requires s.finish && Executable(c, s, ks) && WorkersOnly(ks)
    ensures Exec(c, s, ks).finish && Exits(Exec(c, s, ks)) == Exits(s)
    decreases |ks|
  {
    if ks != [] {
      var s', i := Apply(c, s, ks[0]), Actor(ks[0]);
      ActorMoves(c, s, ks[0]);
      TotalUpdate(s.workers, i, s'.workers[i], Departing);
      ExitsStay(c, s', ks[1..]);
    }
  }

  lemma {:induction false} AllDeparting(ws: seq<Worker>)
    ensures Total(ws, Departing) <= |ws|
    ensures Total(ws, Departing) == |ws| <==> forall i :: 0 <= i < |ws| ==> ws[i].Woken? || ws[i].Exited?
  {
    if ws != [] {
      AllDeparting(ws[1..]);
      if Total(ws, Departing) == |ws| {
        assert forall i :: 1 <= i < |ws| ==> ws[i] == ws[1..][i - 1];
      }
    }
  }

  lemma {:induction false} NoneExited(ws: seq<Worker>)
    requires forall i :: 0 <= i < |ws| ==> !ws[i].Exited?
    ensures Total(ws, Departing) == Total(ws, AwaitingCheck)
  {
    if ws != [] {
      NoneExited(ws[1..]);
    }
  }

  /** At rest after IsFinish, all workers have left or exactly as many as there were exits. */
  lemma DepartedAtRest(c: Config, s: State)
    requires Inv(c, s) && s.finish && !s.mutex.Submitter? && Quiescent(c, s)
    ensures (forall i :: 0 <= i < |s.workers| ==> s.workers[i].Exited?) <==> Exits(s) >= c.maxThreads
    ensures Total(s.workers, Departing) == if Exits(s) >= c.maxThreads then c.maxThreads else Exits(s)
  {
    AtRest(c, s);
    AllDeparting(s.workers);
    if i :| 0 <= i < |s.workers| && !s.workers[i].Exited? {
      assert s.workers[i].Waiting? && s.permits == 0;
    }
  }

  ghost predicate AllGone(s: State) {
    forall i :: 0 <= i < |s.workers| ==> s.workers[i].Exited?
  }

  /** The bulk release of EndThreadPool, submissions being over: every worker leaves if and only if no
      permit is outstanding at that moment (the release then succeeds), or the permits outstanding and
      the workers that have used one to leave are as many as the threads; otherwise just that many
      leave and the others wait for ever. */
  lemma WorkersExitExactly(c: Config, s: State, ks: seq<Step>)
    requires Reachable(c, s) && s.finish && !s.mutex.Submitter?
    requires Executable(c, Apply(c, s, ReleaseAll), ks) && WorkersOnly(ks)
    requires Quiescent(c, Exec(c, Apply(c, s, ReleaseAll), ks))
    ensures var e := Exec(c, Apply(c, s, ReleaseAll), ks);
      && (AllGone(e) <==> s.permits == 0 || Exits(s) >= c.maxThreads)
      && (s.permits > 0 && Exits(s) < c.maxThreads ==> Total(e.workers, Departing) == Exits(s))
  {
    ReachableInv(c, s);
    StepKeeps(c, s, ReleaseAll);
    WorkerRun(c, Apply(c, s, ReleaseAll), ks);
    ExitsStay(c, Apply(c, s, ReleaseAll), ks);
    DepartedAtRest(c, Exec(c, Apply(c, s, ReleaseAll), ks));
  }

  /** EndThreadPool from s as the workers see it: they may move between its two statements, and then
      move until they rest. */
  ghost predicate Interleaving(c: Config, s: State, before: seq<Step>, after: seq<Step>) {
    && WorkersOnly(before) && Executable(c, Apply(c, s, SetFinish), before)
    && WorkersOnly(after) && Executable(c, AtRelease(c, s, before), after)
    && Quiescent(c, Exec(c, AtRelease(c, s, before), after))
  }

  /** The state after the bulk release. */
  function AtRelease(c: Config, s: State, before: seq<Step>): State
    requires Executable(c, Apply(c, s, SetFinish), before)
  {
    ReleasedAll(c, Exec(c, Apply(c, s, SetFinish), before))
  }

  function ReleasedAll(c: Config, s: State): State {
    s.(permits := Released(c, s.permits, c.maxThreads))
  }

  ghost function Final(c: Config, s: State, before: seq<Step>, after: seq<Step>): State
    requires Interleaving(c, s, before, after)
  {
    Exec(c, AtRelease(c, s, before), after)
  }

  lemma {:induction false} PermitsFall(c: Config, s: State, ks: seq<Step>)
    requires Executable(c, s, ks) && WorkersOnly(ks)
    ensures Exec(c, s, ks).permits <= s.permits
    decreases |ks|
  {
    if ks != [] {
      PermitsFall(c, Apply(c, s, ks[0]), ks[1..]);
    }
  }

  lemma ReachesRelease(c: Config, s: State, before: seq<Step>)
    requires Reachable(c, s) && Executable(c, Apply(c, s, SetFinish), before)
    ensures Reachable(c, Exec(c, Apply(c, s, SetFinish), before))
  {
    var ks :| Executable(c, Start(c), ks) && Exec(c, Start(c), ks) == s;
    Extend(c, Start(c), ks, SetFinish);
    ExecAppend(c, Start(c), ks + [SetFinish], before);
  }

  lemma ExitsAtRelease(c: Config, s: State, before: seq<Step>)
    requires Inv(c, s) && !s.finish && WorkersOnly(before) && Executable(c, Apply(c, s, SetFinish), before)
    ensures var m := Exec(c, Apply(c, s, SetFinish), before);
      && m.finish && m.permits <= s.permits
      && Exits(m) == s.permits + Total(s.workers, AwaitingCheck)
  {
    NoneExited(s.workers);
    ExitsStay(c, Apply(c, s, SetFinish), before);
    PermitsFall(c, Apply(c, s, SetFinish), before);
  }

  /** What holds when the release comes, however the workers moved since IsFinish was set. */
  lemma BeforeRelease(c: Config, s: State, before: seq<Step>)
    requires Reachable(c, s) && !s.finish && !s.mutex.Submitter?
    requires WorkersOnly(before) && Executable(c, Apply(c, s, SetFinish), before)
    ensures var m := Exec(c, Apply(c, s, SetFinish), before);
      && Reachable(c, m) && Inv(c, m) && m.finish && !m.mutex.Submitter? && m.permits <= s.permits
      && Exits(m) == s.permits + Total(s.workers, AwaitingCheck)
      && AtRelease(c, s, before) == Apply(c, m, ReleaseAll)
  {
    ReachableInv(c, s);
    ReachesRelease(c, s, before);
    ExitsAtRelease(c, s, before);
    StepKeeps(c, s, SetFinish);
    WorkerRun(c, Apply(c, s, SetFinish), before);
  }

  lemma InterleavingGone(c: Config, s: State, before: seq<Step>, after: seq<Step>)
    requires Reachable(c, s) && !s.finish && !s.mutex.Submitter? && Interleaving(c, s, before, after)
    ensures var m, left := Exec(c, Apply(c, s, SetFinish), before), s.permits + Total(s.workers, AwaitingCheck);
      AllGone(Final(c, s, before, after)) <==> m.permits == 0 || left >= c.maxThreads
  {
    BeforeRelease(c, s, before);
    WorkersExitExactly(c, Exec(c, Apply(c, s, SetFinish), before), after);
  }

  /** From any point of the release the workers can come to rest. */
  lemma Completed(c: Config, s: State, before: seq<Step>) returns (after: seq<Step>)
    requires Reachable(c, s) && !s.finish && !s.mutex.Submitter?
    requires WorkersOnly(before) && Executable(c, Apply(c, s, SetFinish), before)
    ensures Interleaving(c, s, before, after)
  {
    BeforeRelease(c, s, before);
    StepKeeps(c, Exec(c, Apply(c, s, SetFinish), before), ReleaseAll);
    after := ReachRest(c, AtRelease(c, s, before));
  }

  /** Over all interleavings: every worker is sure to leave if and only if no permit is outstanding when
      IsFinish is set, or the permits and the workers already woken are as many as the threads; and in
      some interleaving, the workers using up the permits before the release, all of them always do. */
  lemma EveryShutdownLeaves(c: Config, s: State)
    requires Reachable(c, s) && !s.finish && !s.mutex.Submitter?
    ensures (forall before, after :: Interleaving(c, s, before, after) ==> AllGone(Final(c, s, before, after)))
      <==> s.permits == 0 || s.permits + Total(s.workers, AwaitingCheck) >= c.maxThreads
    ensures exists before, after :: Interleaving(c, s, before, after) && AllGone(Final(c, s, before, after))
  {
    if s.permits == 0 || s.permits + Total(s.workers, AwaitingCheck) >= c.maxThreads {
      forall before, after | Interleaving(c, s, before, after) ensures AllGone(Final(c, s, before, after)) {
        InterleavingGone(c, s, before, after);
        BeforeRelease(c, s, before);
      }
    } else {
      var after := Completed(c, s, []);
      InterleavingGone(c, s, [], after);
    }
    SomeShutdownLeaves(c, s);
  }

  lemma SomeShutdownLeaves(c: Config, s: State)
    requires Reachable(c, s) && !s.finish && !s.mutex.Submitter?
    ensures exists before, after :: Interleaving(c, s, before, after) && AllGone(Final(c, s, before, after))
  {
    ReachableInv(c, s);
    StepKeeps(c, s, SetFinish);
    var before := ReachRest(c, Apply(c, s, SetFinish));
    var m := Exec(c, Apply(c, s, SetFinish), before);
    BeforeRelease(c, s, before);
    AtRest(c, m);
    DepartedAtRest(c, m);
    if i :| 0 <= i < |m.workers| && !m.workers[i].Exited? {
      assert m.permits == 0;
    }
    var after := Completed(c, s, before);
    InterleavingGone(c, s, before, after);
  }

  /** Workers can be left waiting for ever exactly if there are two of them and jobs are accepted. */
  lemma LeftWaitingReachable(c: Config)
    requires c.Valid()
    ensures (exists s :: Reachable(c, s) && !s.finish && !s.mutex.Submitter?
               && s.permits > 0 && s.permits + Total(s.workers, AwaitingCheck) < c.maxThreads)
      <==> c.maxThreads >= 2 && c.jobCapacity > 0
  {
    if c.maxThreads >= 2 && c.jobCapacity > 0 {
      var ks := Load(c, 1);
      StartQuiet(c, AwaitingCheck);
      assert Reachable(c, Exec(c, Start(c), ks));
    } else {
      forall s | Reachable(c, s) && !s.finish && s.permits > 0
        ensures s.permits + Total(s.workers, AwaitingCheck) >= c.maxThreads
      {
        ReachableInv(c, s);
      }
    }
  }

  /** From a pool with nothing to do: however the workers move, the bulk release succeeds, and when they
      come to rest every one of them has left. */
  lemma CleanShutdown(c: Config, s: State, before: seq<Step>, after: seq<Step>)
    requires Reachable(c, s) && !s.finish && !s.mutex.Submitter? && Outstanding(s) == 0
    requires Interleaving(c, s, before, after)
    ensures AtRelease(c, s, before).permits == c.maxThreads
    ensures AllGone(Final(c, s, before, after)) && |Final(c, s, before, after).workers| == c.maxThreads
    ensures |after| <= Measure(AtRelease(c, s, before))
  {
    ReachableInv(c, s);
    BeforeRelease(c, s, before);
    InterleavingGone(c, s, before, after);
    StepKeeps(c, Exec(c, Apply(c, s, SetFinish), before), ReleaseAll);
    WorkerRun(c, AtRelease(c, s, before), after);
  }

  // ----- the event -----

  lemma {:induction false} EventStays(c: Config, s: State, ks: seq<Step>)
    requires s.event && Executable(c, s, ks)
    ensures Exec(c, s, ks).event
    decreases |ks|
  {
    if ks != [] {
      EventStays(c, Apply(c, s, ks[0]), ks[1..]);
    }
  }

  /** WorkingEvent is made signalled, and nothing ever resets it. */
  lemma EventAlwaysSet(c: Config, s: State)
    requires Reachable(c, s)
    ensures s.event
  {
    var ks :| Executable(c, Start(c), ks) && Exec(c, Start(c), ks) == s;
    EventStays(c, Start(c), ks);
  }
}
