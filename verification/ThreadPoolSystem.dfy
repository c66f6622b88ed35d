/** The worker and submitter protocol of ThreadPool, one atomic step at a time. */
module ThreadPoolSystem {

  type Job = nat

  datatype Config = Config(maxThreads: nat, jobCapacity: nat) {
    /** CreateSemaphore needs a positive maximum. */
    predicate Valid() {
      maxThreads > 0
    }
  }

  /** A pass of ThreadProc's loop. Fetching, Taken and EmptyHanded hold the mutex (GetNextJob). */
  datatype Worker =
    | Waiting
    | Woken
    | Cleared
    | Fetching
    | Taken(job: Job)
    | EmptyHanded
    | Running(job: Job)
    | Finished
    | Exited
  {
    predicate HoldsMutex() {
      Fetching? || Taken? || EmptyHanded?
    }
  }

  /** How far the submitter that holds the mutex has come in SubmitJob. */
  datatype Phase = Entered | Admitted | Counted | Queued | Signalled | Posted

  datatype Mutex = Open | Submitter(phase: Phase, job: Job) | WorkerLock(i: nat)

  /** `working` is WorkingThreadCount, an unsigned 64-bit word. `accepted`, `fetched` and `done`
      record the jobs pushed, popped and run so far, in order. */
  datatype State = State(
    permits: nat, queue: seq<Job>, working: nat, finish: bool, event: bool,
    mutex: Mutex, workers: seq<Worker>,
    accepted: seq<Job>, fetched: seq<Job>, done: seq<Job>)

  const WORDS: nat := 0x1_0000_0000_0000_0000

  datatype Step =
    | Lock(job: Job)
    | Refuse
    | Admit
    | Count
    | Enqueue
    | Signal
    | Post
    | Leave
    | Wake(i: nat)
    | Check(i: nat)
    | LockQueue(i: nat)
    | Fetch(i: nat)
    | UnlockQueue(i: nat)
    | Return(i: nat)
    | Decrement(i: nat)
    | SetFinish
    | ReleaseAll

  predicate InPhase(s: State, p: Phase) {
    s.mutex.Submitter? && s.mutex.phase == p
  }

  predicate At(s: State, i: nat, w: Worker) {
    i < |s.workers| && s.workers[i] == w
  }

  predicate Enabled(c: Config, s: State, k: Step) {
    match k
    case Lock(_) => s.mutex == Open
    case Refuse => InPhase(s, Entered) && |s.queue| >= c.jobCapacity
    case Admit => InPhase(s, Entered) && |s.queue| < c.jobCapacity
    case Count => InPhase(s, Admitted)
    case Enqueue => InPhase(s, Counted)
    case Signal => InPhase(s, Queued)
    case Post => InPhase(s, Signalled)
    case Leave => InPhase(s, Posted)
    case Wake(i) => At(s, i, Waiting) && s.permits > 0
    case Check(i) => At(s, i, Woken)
    case LockQueue(i) => At(s, i, Cleared) && s.mutex == Open
    case Fetch(i) => At(s, i, Fetching)
    case UnlockQueue(i) => i < |s.workers| && (s.workers[i].Taken? || s.workers[i].EmptyHanded?)
    case Return(i) => i < |s.workers| && s.workers[i].Running?
    case Decrement(i) => At(s, i, Finished)
    case SetFinish => true
    case ReleaseAll => s.finish
  }

  /** ReleaseSemaphore(n): all n permits or, above the maximum, none. */
  function Released(c: Config, permits: nat, n: nat): nat {
    if permits + n <= c.maxThreads then permits + n else permits
  }

  function Apply(c: Config, s: State, k: Step): State
    requires Enabled(c, s, k)
  {
    match k
    case Lock(job) => s.(mutex := Submitter(Entered, job))
    case Refuse => s.(mutex := Open)
    case Admit => s.(mutex := s.mutex.(phase := Admitted))
    case Count => s.(working := (s.working + 1) % WORDS, mutex := s.mutex.(phase := Counted))
    case Enqueue =>
      s.(queue := s.queue + [s.mutex.job], accepted := s.accepted + [s.mutex.job], mutex := s.mutex.(phase := Queued))
    case Signal => s.(event := true, mutex := s.mutex.(phase := Signalled))
    case Post => s.(permits := Released(c, s.permits, 1), mutex := s.mutex.(phase := Posted))
    case Leave => s.(mutex := Open)
    case Wake(i) => s.(permits := s.permits - 1, workers := s.workers[i := Woken])
    case Check(i) => s.(workers := s.workers[i := if s.finish then Exited else Cleared])
    case LockQueue(i) => s.(mutex := WorkerLock(i), workers := s.workers[i := Fetching])
    case Fetch(i) =>
      if s.queue == [] then s.(workers := s.workers[i := EmptyHanded])
      else s.(queue := s.queue[1..], fetched := s.fetched + [s.queue[0]], workers := s.workers[i := Taken(s.queue[0])])
    case UnlockQueue(i) =>
      s.(mutex := Open, workers := s.workers[i := if s.workers[i].Taken? then Running(s.workers[i].job) else Finished])
    case Return(i) => s.(done := s.done + [s.workers[i].job], workers := s.workers[i := Finished])
    case Decrement(i) => s.(working := (s.working + WORDS - 1) % WORDS, workers := s.workers[i := Waiting])
    case SetFinish => s.(finish := true)
    case ReleaseAll => s.(permits := Released(c, s.permits, c.maxThreads))
  }

  /** The constructor's state: no permit, no job, every thread at its first wait. */
  function Start(c: Config): State {
    State(0, [], 0, false, true, Open, seq(c.maxThreads, _ => Waiting), [], [], [])
  }

  // ----- counting workers -----

  datatype Kind = AwaitingCheck | PastCheck | Unfinished | Holding(job: Job) | Departing | Effort

  /** AwaitingCheck and PastCheck hold a permit and have not fetched; Unfinished have fetched and not
      decremented; Holding a job is having fetched and not yet run it; Departing is having taken the
      permit a worker needs to leave, or having left; Effort is how many steps a worker is away from waiting again. */
  function Weight(w: Worker, k: Kind): nat {
    match k
    case AwaitingCheck => if w.Woken? then 1 else 0
    case PastCheck => if w.Cleared? || w.Fetching? then 1 else 0
    case Unfinished => if w.Taken? || w.Running? || w.Finished? || w.EmptyHanded? then 1 else 0
    case Holding(job) => if (w.Taken? || w.Running?) && w.job == job then 1 else 0
    case Departing => if w.Woken? || w.Exited? then 1 else 0
    case Effort =>
      match w
      case Waiting => 0
      case Woken => 6
      case Cleared => 5
      case Fetching => 4
      case Taken(_) => 3
      case EmptyHanded => 3
      case Running(_) => 2
      case Finished => 1
      case Exited => 0
  }

  function Total(ws: seq<Worker>, k: Kind): nat {
    if ws == [] then 0 else Weight(ws[0], k) + Total(ws[1..], k)
  }

  lemma {:induction false} TotalUpdate(ws: seq<Worker>, i: nat, w: Worker, k: Kind)
    requires i < |ws|
    ensures Total(ws[i := w], k) == Total(ws, k) - Weight(ws[i], k) + Weight(w, k)
    ensures Total(ws, k) >= Weight(ws[i], k)
  {
    if i == 0 {
      assert ws[0 := w][1..] == ws[1..];
    } else {
      TotalUpdate(ws[1..], i - 1, w, k);
      assert ws[i := w][1..] == ws[1..][i - 1 := w];
    }
  }

  lemma {:induction false} TotalZero(ws: seq<Worker>, k: Kind)
    ensures Total(ws, k) == 0 <==> forall i :: 0 <= i < |ws| ==> Weight(ws[i], k) == 0
  {
    if ws != [] {
      TotalZero(ws[1..], k);
      if forall i :: 0 <= i < |ws| ==> Weight(ws[i], k) == 0 {
        assert forall i :: 0 <= i < |ws[1..]| ==> ws[1..][i] == ws[i + 1];
      } else {
        var i :| 0 <= i < |ws| && Weight(ws[i], k) != 0;
        assert i == 0 || ws[1..][i - 1] == ws[i];
      }
    }
  }

  // ----- the invariant -----

  function Pushed(s: State): nat {
    if InPhase(s, Queued) || InPhase(s, Signalled) then 1 else 0
  }

  /** What WorkingThreadCount is meant to count. */
  function Outstanding(s: State): nat {
    |s.queue| + Total(s.workers, Unfinished) + if InPhase(s, Counted) then 1 else 0
  }

  /** Permits, and workers that hold one and have not fetched. */
  function Claims(s: State): nat {
    s.permits + Total(s.workers, AwaitingCheck) + Total(s.workers, PastCheck)
  }

  /** Who holds the mutex. */
  ghost predicate MutexShape(s: State) {
    && (s.mutex.WorkerLock? ==> s.mutex.i < |s.workers|)
    && forall i :: 0 <= i < |s.workers| ==> (s.workers[i].HoldsMutex() <==> s.mutex == WorkerLock(i))
  }

  /** ... and which branches are taken. */
  ghost predicate Shape(c: Config, s: State) {
    && |s.workers| == c.maxThreads
    && MutexShape(s)
    && (forall i :: 0 <= i < |s.workers| ==> !s.workers[i].EmptyHanded?)
    && (!s.finish ==> forall i :: 0 <= i < |s.workers| ==> !s.workers[i].Exited?)
  }

  ghost predicate Counts(c: Config, s: State) {
    && s.permits <= c.maxThreads
    && |s.queue| <= c.jobCapacity
    && (InPhase(s, Admitted) || InPhase(s, Counted) ==> |s.queue| < c.jobCapacity)
    && Total(s.workers, PastCheck) <= |s.queue|
    && (!s.finish ==> Claims(s) + Pushed(s) <= |s.queue|)
  }

  ghost predicate Tally(s: State) {
    s.working == Outstanding(s) % WORDS
  }

  ghost predicate History(s: State) {
    && s.accepted == s.fetched + s.queue
    && forall job :: multiset(s.fetched)[job] == multiset(s.done)[job] + Total(s.workers, Holding(job))
  }

  /** Holds for every configuration, interleaving and shutdown. */
  ghost predicate Inv(c: Config, s: State) {
    Shape(c, s) && Counts(c, s) && Tally(s) && History(s)
  }

  lemma {:induction false} AllWaiting(ws: seq<Worker>, k: Kind)
    requires forall i :: 0 <= i < |ws| ==> ws[i] == Waiting
    ensures Total(ws, k) == 0
  {
    if ws != [] {
      AllWaiting(ws[1..], k);
    }
  }

  lemma StartQuiet(c: Config, k: Kind)
    ensures Total(Start(c).workers, k) == 0
    ensures forall i :: 0 <= i < |Start(c).workers| ==> Start(c).workers[i] == Waiting
  {
    AllWaiting(Start(c).workers, k);
  }

  lemma StartHolds(c: Config)
    ensures Inv(c, Start(c))
  {
    StartShape(c);
    StartCounts(c);
    StartTally(c);
    StartHistory(c);
  }

  lemma StartShape(c: Config)
    ensures Shape(c, Start(c))
  {
    StartQuiet(c, Unfinished);
  }

  lemma StartCounts(c: Config)
    ensures Counts(c, Start(c))
  {
    StartQuiet(c, AwaitingCheck);
    StartQuiet(c, PastCheck);
  }

  lemma StartTally(c: Config)
    ensures Tally(Start(c))
  {
    StartQuiet(c, Unfinished);
    TallyZero(Start(c));
  }

  lemma TallyZero(s: State)
    requires s.working == 0 && Outstanding(s) == 0
    ensures Tally(s)
  {
  }

  lemma StartHistory(c: Config)
    ensures History(Start(c))
  {
    forall job ensures Total(Start(c).workers, Holding(job)) == 0 {
      StartQuiet(c, Holding(job));
    }
  }

  /** The state after a step of worker i differs from s in that worker's position. */
  function Actor(k: Step): (i: int) {
    match k
    case Wake(i) => i
    case Check(i) => i
    case LockQueue(i) => i
    case Fetch(i) => i
    case UnlockQueue(i) => i
    case Return(i) => i
    case Decrement(i) => i
    case _ => -1
  }

  lemma ActorMoves(c: Config, s: State, k: Step)
    requires Enabled(c, s, k)
    ensures var s' := Apply(c, s, k);
      if Actor(k) < 0 then s'.workers == s.workers
      else Actor(k) < |s.workers| == |s'.workers| && s'.workers == s.workers[Actor(k) := s'.workers[Actor(k)]]
  {
  }

  lemma MutexKeeps(c: Config, s: State, k: Step)
    requires MutexShape(s) && Enabled(c, s, k)
    ensures MutexShape(Apply(c, s, k))
  {
  }

  lemma ShapeKeeps(c: Config, s: State, k: Step)
    requires Shape(c, s) && Enabled(c, s, k)
    requires k.Fetch? ==> s.queue != []
    ensures Shape(c, Apply(c, s, k))
  {
    MutexKeeps(c, s, k);
    ActorMoves(c, s, k);
  }

  /** What one worker's move does to the three counts. */
  lemma CountsMove(c: Config, s: State, k: Step)
    requires Enabled(c, s, k) && Actor(k) >= 0
    ensures var s', i := Apply(c, s, k), Actor(k);
      && i < |s.workers| && i < |s'.workers|
      && Total(s'.workers, AwaitingCheck)
         == Total(s.workers, AwaitingCheck) - Weight(s.workers[i], AwaitingCheck) + Weight(s'.workers[i], AwaitingCheck)
      && Total(s'.workers, PastCheck)
         == Total(s.workers, PastCheck) - Weight(s.workers[i], PastCheck) + Weight(s'.workers[i], PastCheck)
      && Total(s'.workers, Unfinished)
         == Total(s.workers, Unfinished) - Weight(s.workers[i], Unfinished) + Weight(s'.workers[i], Unfinished)
      && Total(s'.workers, Effort)
         == Total(s.workers, Effort) - Weight(s.workers[i], Effort) + Weight(s'.workers[i], Effort)
      && Weight(s.workers[i], PastCheck) <= Total(s.workers, PastCheck)
      && Weight(s.workers[i], Unfinished) <= Total(s.workers, Unfinished)
  {
    var i := Actor(k);
    ActorMoves(c, s, k);
    var w := Apply(c, s, k).workers[i];
    TotalUpdate(s.workers, i, w, AwaitingCheck);
    TotalUpdate(s.workers, i, w, PastCheck);
    TotalUpdate(s.workers, i, w, Unfinished);
    TotalUpdate(s.workers, i, w, Effort);
  }

  lemma CountsKeep(c: Config, s: State, k: Step)
    requires Shape(c, s) && Counts(c, s) && Enabled(c, s, k)
    ensures Counts(c, Apply(c, s, k))
  {
    if Actor(k) >= 0 {
      CountsMove(c, s, k);
    }
  }

  lemma WordMoves(n: nat)
    ensures (n % WORDS + 1) % WORDS == (n + 1) % WORDS
    ensures n > 0 ==> (n % WORDS + WORDS - 1) % WORDS == (n - 1) % WORDS
  {
  }

  /** Every step changes the outstanding count as it changes the counter: by one or not at all. */
  lemma OutstandingMoves(c: Config, s: State, k: Step)
    requires Shape(c, s) && Enabled(c, s, k) && (k.Fetch? ==> s.queue != [])
    ensures Outstanding(Apply(c, s, k)) == Outstanding(s) + (if k.Count? then 1 else if k.Decrement? then -1 else 0)
  {
    if Actor(k) >= 0 {
      CountsMove(c, s, k);
    }
  }

  lemma TallyKeeps(c: Config, s: State, k: Step)
    requires Shape(c, s) && Tally(s) && Enabled(c, s, k) && (k.Fetch? ==> s.queue != [])
    ensures Tally(Apply(c, s, k))
  {
    OutstandingMoves(c, s, k);
    WordMoves(Outstanding(s));
  }

  /** GetNextJob never meets an empty queue. */
  lemma FetchFinds(c: Config, s: State, i: nat)
    requires Counts(c, s) && Enabled(c, s, Fetch(i))
    ensures s.queue != []
  {
    TotalUpdate(s.workers, i, Waiting, PastCheck);
  }

  lemma OrderKeeps(c: Config, s: State, k: Step)
    requires s.accepted == s.fetched + s.queue && Enabled(c, s, k)
    ensures var s' := Apply(c, s, k); s'.accepted == s'.fetched + s'.queue
  {
    if k.Enqueue? {
      assert s.accepted + [s.mutex.job] == s.fetched + (s.queue + [s.mutex.job]);
    } else if k.Fetch? && s.queue != [] {
      assert s.fetched + s.queue == (s.fetched + [s.queue[0]]) + s.queue[1..];
    }
  }

  lemma CountSnoc(js: seq<Job>, j: Job, job: Job)
    ensures multiset(js + [j])[job] == multiset(js)[job] + if j == job then 1 else 0
  {
  }

  lemma JobsKeep(c: Config, s: State, k: Step, job: Job)
    requires multiset(s.fetched)[job] == multiset(s.done)[job] + Total(s.workers, Holding(job)) && Enabled(c, s, k)
    ensures var s' := Apply(c, s, k);
      multiset(s'.fetched)[job] == multiset(s'.done)[job] + Total(s'.workers, Holding(job))
  {
    ActorMoves(c, s, k);
    if Actor(k) >= 0 {
      TotalUpdate(s.workers, Actor(k), Apply(c, s, k).workers[Actor(k)], Holding(job));
      JobMoves(c, s, k, job);
    }
  }

  /** A fetch puts a job in a worker's hands, and a return takes it out. */
  lemma JobMoves(c: Config, s: State, k: Step, job: Job)
    requires Enabled(c, s, k) && 0 <= Actor(k) < |s.workers|
    ensures var s', i := Apply(c, s, k), Actor(k);
      && i < |s'.workers|
      && multiset(s'.fetched)[job] + multiset(s.done)[job] + Weight(s.workers[i], Holding(job))
         == multiset(s.fetched)[job] + multiset(s'.done)[job] + Weight(s'.workers[i], Holding(job))
  {
    if k.Fetch? && s.queue != [] {
      CountSnoc(s.fetched, s.queue[0], job);
    } else if k.Return? {
      CountSnoc(s.done, s.workers[k.i].job, job);
    }
  }

  lemma HistoryKeeps(c: Config, s: State, k: Step)
    requires History(s) && Enabled(c, s, k)
    ensures History(Apply(c, s, k))
  {
    OrderKeeps(c, s, k);
    forall job {
      JobsKeep(c, s, k, job);
    }
  }

  lemma StepKeeps(c: Config, s: State, k: Step)
    requires Inv(c, s) && Enabled(c, s, k)
    ensures Inv(c, Apply(c, s, k))
  {
    if k.Fetch? {
      FetchFinds(c, s, k.i);
    }
    ShapeKeeps(c, s, k);
    CountsKeep(c, s, k);
    TallyKeeps(c, s, k);
    HistoryKeeps(c, s, k);
  }

  // ----- runs -----

  predicate Executable(c: Config, s: State, ks: seq<Step>)
    decreases |ks|
  {
    ks == [] || (Enabled(c, s, ks[0]) && Executable(c, Apply(c, s, ks[0]), ks[1..]))
  }

  function Exec(c: Config, s: State, ks: seq<Step>): State
    requires Executable(c, s, ks)
    decreases |ks|
  {
    if ks == [] then s else Exec(c, Apply(c, s, ks[0]), ks[1..])
  }

  ghost predicate Reachable(c: Config, s: State) {
    exists ks :: Executable(c, Start(c), ks) && Exec(c, Start(c), ks) == s
  }

  lemma {:induction false} RunKeeps(c: Config, s: State, ks: seq<Step>)
    requires Inv(c, s) && Executable(c, s, ks)
    ensures Inv(c, Exec(c, s, ks))
    decreases |ks|
  {
    if ks != [] {
      StepKeeps(c, s, ks[0]);
      RunKeeps(c, Apply(c, s, ks[0]), ks[1..]);
    }
  }

  lemma ReachableInv(c: Config, s: State)
    requires Reachable(c, s)
    ensures Inv(c, s)
  {
    var ks :| Executable(c, Start(c), ks) && Exec(c, Start(c), ks) == s;
    StartHolds(c);
    RunKeeps(c, Start(c), ks);
  }
}
