/** DatabasePool and the services that use it: the semaphore, the lock, the queue, and the mode of every
    connection, with any number of clients one atomic step at a time. What the statements do to the
    tables is left to RoomSpec; here each outcome is a choice of the step. */
module ConnectionPool {

  /** A connection, by number. */
  type Conn = nat

  const MAX_POOL_SIZE: nat := 40

  /** What PasswordCompare learns: no result, or how the stored text compares. */
  datatype Seen = NotFound | Empty | Equal | Different

  /** A call that has returned. */
  datatype Outcome =
    | Entered(seen: Seen, result: bool)
    | Left(counted: bool, result: bool)
    | Other(result: bool)

  /** What ends a transaction: PasswordCompare or ExitRoom. */
  datatype Task = Entry(seen: Seen) | Exit(destroyed: bool)

  /** PopWrapper goes Idle, Waited, PopLocked, Popped, Holding. PasswordCompare goes Searching, perhaps
      Inserting, Ending; ExitRoom goes Counting, Deleting, Ending; a service without a transaction goes
      straight to Returning. PushWrapper goes Returning, PushLocked, Enqueued, Posted, Idle. */
  datatype Client =
    | Idle
    | Waited
    | PopLocked
    | Popped(conn: Conn)
    | Holding(conn: Conn)
    | Searching(conn: Conn)
    | Inserting(conn: Conn, seen: Seen)
    | Counting(conn: Conn)
    | Deleting(conn: Conn)
    | Ending(conn: Conn, task: Task)
    | Returning(conn: Conn, outcome: Outcome)
    | PushLocked(conn: Conn, outcome: Outcome)
    | Enqueued(outcome: Outcome)
    | Posted(outcome: Outcome)
  {
    predicate HoldsLock() {
      PopLocked? || Popped? || PushLocked? || Enqueued? || Posted?
    }

    predicate HasOne() {
      Popped? || Holding? || InTransaction() || Returning? || PushLocked?
    }

    predicate Has(c: Conn) {
      HasOne() && conn == c
    }

    /** Between Transaction_Start and Transaction_End. */
    predicate InTransaction() {
      Searching? || Inserting? || Counting? || Deleting? || Ending?
    }

    predicate Settled() {
      Returning? || PushLocked? || Enqueued? || Posted?
    }
  }

  datatype Lock = Open | By(i: nat)

  datatype Event = CountFailed(conn: Conn) | Ended(conn: Conn)

  /** `lost` are connections whose last reference was dropped without a push, `modes` says which have
      autocommit on; `events` and `log` record failed counts, ended transactions and returned calls. */
  datatype State = State(sem: nat, queue: seq<Conn>, lock: Lock, clients: seq<Client>, lost: seq<Conn>,
                         modes: map<Conn, bool>, events: seq<Event>, log: seq<Outcome>)

  datatype Step =
    | Wait(i: nat)
    | LockForPop(i: nat)
    | Take(i: nat)
    | UnlockPop(i: nat)
    | StartEntry(i: nat)
    | StartExit(i: nat)
    | Plain(i: nat, ok: bool)
    | Find(i: nat, seen: Seen)
    | Insert(i: nat)
    | Count(i: nat, ok: bool)
    | Delete(i: nat, destroyed: bool)
    | End(i: nat, ok: bool)
    | LockForPush(i: nat)
    | Put(i: nat)
    | Release(i: nat)
    | UnlockPush(i: nat)

  predicate Enabled(s: State, k: Step) {
    k.i < |s.clients| &&
    var a := s.clients[k.i];
    match k
    case Wait(_) => a == Idle && s.sem > 0
    case LockForPop(_) => a == Waited && s.lock == Open
    case Take(_) => a == PopLocked
    case UnlockPop(_) => a.Popped?
    case StartEntry(_) => a.Holding?
    case StartExit(_) => a.Holding?
    case Plain(_, _) => a.Holding?
    case Find(_, _) => a.Searching?
    case Insert(_) => a.Inserting?
    case Count(_, _) => a.Counting?
    case Delete(_, _) => a.Deleting?
    case End(_, _) => a.Ending?
    case LockForPush(_) => a.Returning? && s.lock == Open
    case Put(_) => a.PushLocked?
    case Release(_) => a.Enqueued?
    case UnlockPush(_) => a.Posted?
  }

  /** The entry that keeps its connection: success on an empty password. */
  predicate Loses(s: State, k: Step)
    requires Enabled(s, k)
  {
    k.End? && k.ok && s.clients[k.i].task == Entry(Empty)
  }

  /** The value a call whose transaction has ended returns. */
  function Result(task: Task, ok: bool): Outcome {
    match task
    case Entry(seen) => Entered(seen, ok && (seen == Empty || seen == Equal))
    case Exit(destroyed) => Left(true, ok && destroyed)
  }

  /** The client after its step. */
  function Moved(s: State, k: Step): Client
    requires Enabled(s, k)
  {
    var a := s.clients[k.i];
    match k
    case Wait(_) => Waited
    case LockForPop(_) => PopLocked
    case Take(_) => if s.queue == [] then a else Popped(s.queue[0])
    case UnlockPop(_) => Holding(a.conn)
    case StartEntry(_) => Searching(a.conn)
    case StartExit(_) => Counting(a.conn)
    case Plain(_, ok) => Returning(a.conn, Other(ok))
    case Find(_, seen) => if seen == Empty || seen == Equal
      then Inserting(a.conn, seen) else Ending(a.conn, Entry(seen))
    case Insert(_) => Ending(a.conn, Entry(a.seen))
    case Count(_, ok) => if ok then Deleting(a.conn) else Returning(a.conn, Left(false, false))
    case Delete(_, destroyed) => Ending(a.conn, Exit(destroyed))
    case End(_, ok) => if Loses(s, k) then Idle else Returning(a.conn, Result(a.task, ok))
    case LockForPush(_) => PushLocked(a.conn, a.outcome)
    case Put(_) => Enqueued(a.outcome)
    case Release(_) => Posted(a.outcome)
    case UnlockPush(_) => Idle
  }

  /** front() of an empty queue is undefined; the step then leaves the queue and the client as they
      are. */
  function Apply(s: State, k: Step): State
    requires Enabled(s, k)
  {
    var a := s.clients[k.i];
    var t := s.(clients := s.clients[k.i := Moved(s, k)]);
    match k
    case Wait(_) => t.(sem := s.sem - 1)
    case LockForPop(_) => t.(lock := By(k.i))
    case Take(_) => if s.queue == [] then t else t.(queue := s.queue[1..])
    case UnlockPop(_) => t.(lock := Open)
    case StartEntry(_) => t.(modes := s.modes[a.conn := false])
    case StartExit(_) => t.(modes := s.modes[a.conn := false])
    case Count(_, ok) => if ok then t else t.(events := s.events + [CountFailed(a.conn)])
    case End(_, ok) =>
      var u := t.(modes := s.modes[a.conn := true], events := s.events + [Ended(a.conn)]);
      if Loses(s, k) then u.(lost := s.lost + [a.conn], log := s.log + [Result(a.task, ok)]) else u
    case LockForPush(_) => t.(lock := By(k.i))
    case Put(_) => t.(queue := s.queue + [a.conn])
    case Release(_) => t.(sem := if s.sem + 1 <= MAX_POOL_SIZE then s.sem + 1 else s.sem)
    case UnlockPush(_) => t.(lock := Open, log := s.log + [a.outcome])
    case _ => t
  }

  function Numbers(): (r: seq<Conn>)
    ensures |r| == MAX_POOL_SIZE && forall c :: 0 <= c < MAX_POOL_SIZE ==> r[c] == c
  {
    seq(MAX_POOL_SIZE, i => i)
  }

  /** After Initialization: 40 connections in the queue, 40 permits, autocommit on. */
  function Start(n: nat): State {
    State(MAX_POOL_SIZE, Numbers(), Open, seq(n, _ => Idle), [], map c | c in Numbers() :: true, [], [])
  }

  // ----- counting clients -----

  /** Owed counts against the semaphore: a client past the wait that has yet to pop, or a pusher
      between enqueue and release. Effort is the number of steps back to Idle. */
  datatype Kind = Owed | Carrying(conn: Conn) | Transacting(conn: Conn) | Loaded | Effort

  function Weight(a: Client, k: Kind): nat {
    match k
    case Owed => if a.Waited? || a.PopLocked? || a.Enqueued? then 1 else 0
    case Carrying(c) => if a.Has(c) then 1 else 0
    case Transacting(c) => if a.InTransaction() && a.conn == c then 1 else 0
    case Loaded => if a.HasOne() then 1 else 0
    case Effort =>
      match a
      case Idle => 0
      case Posted(_) => 1
      case Enqueued(_) => 2
      case PushLocked(_, _) => 3
      case Returning(_, _) => 4
      case Ending(_, _) => 5
      case Inserting(_, _) => 6
      case Deleting(_) => 6
      case Searching(_) => 7
      case Counting(_) => 7
      case Holding(_) => 8
      case Popped(_) => 9
      case PopLocked => 10
      case Waited => 11
  }

  function Total(s: seq<Client>, k: Kind): nat {
    if s == [] then 0 else Weight(s[0], k) + Total(s[1..], k)
  }

  lemma {:induction false} TotalUpdate(s: seq<Client>, i: nat, a: Client, k: Kind)
    requires i < |s|
    ensures Total(s[i := a], k) == Total(s, k) - Weight(s[i], k) + Weight(a, k)
    ensures Total(s, k) >= Weight(s[i], k)
  {
    if i == 0 {
      assert s[0 := a][1..] == s[1..];
    } else {
      TotalUpdate(s[1..], i - 1, a, k);
      assert s[i := a][1..] == s[1..][i - 1 := a];
    }
  }

  lemma {:induction false} TotalZero(s: seq<Client>, k: Kind)
    requires forall i :: 0 <= i < |s| ==> Weight(s[i], k) == 0
    ensures Total(s, k) == 0
  {
    if s != [] {
      TotalZero(s[1..], k);
    }
  }

  lemma {:induction false} TransactingCarries(s: seq<Client>, c: Conn)
    ensures Total(s, Transacting(c)) <= Total(s, Carrying(c))
  {
    if s != [] {
      TransactingCarries(s[1..], c);
    }
  }

  // ----- the invariant -----

  ghost predicate Locking(s: State) {
    && (s.lock.By? ==> s.lock.i < |s.clients|)
    && forall i :: 0 <= i < |s.clients| ==> (s.clients[i].HoldsLock() <==> s.lock == By(i))
  }

  /** The semaphore and the queue agree, up to the clients in between. */
  ghost predicate Agreement(s: State) {
    s.sem + Total(s.clients, Owed) == |s.queue|
  }

  function Existing(c: Conn): nat {
    if c < MAX_POOL_SIZE then 1 else 0
  }

  /** How many places connection c is in. */
  ghost function Places(s: State, c: Conn): nat {
    multiset(s.queue)[c] + multiset(s.lost)[c] + Total(s.clients, Carrying(c))
  }

  /** Every connection is in exactly one place: queued, with one client, or lost. */
  ghost predicate Placed(s: State) {
    forall c: Conn :: Places(s, c) == Existing(c)
  }

  ghost predicate Conserved(s: State) {
    |s.queue| + |s.lost| + Total(s.clients, Loaded) == MAX_POOL_SIZE
  }

  /** The last that happened to c's transactions was a failed count. */
  predicate LeftOpen(events: seq<Event>, c: Conn)
    decreases |events|
  {
    events != [] &&
    var n := |events| - 1;
    if events[n] == CountFailed(c) then true
    else if events[n] == Ended(c) then false
    else LeftOpen(events[..n], c)
  }

  /** Autocommit is off just during a transaction, and after one that a failed count left open. */
  ghost predicate ModeRight(s: State, c: Conn) {
    c in s.modes && (s.modes[c] <==> Total(s.clients, Transacting(c)) == 0 && !LeftOpen(s.events, c))
  }

  ghost predicate Modes(s: State) {
    forall c: Conn :: c < MAX_POOL_SIZE ==> ModeRight(s, c)
  }

  /** A call that gives its connection back is not an entry on an empty password; the log has as many
      of those as connections are lost. */
  ghost predicate Logged(s: State) {
    && (forall i :: 0 <= i < |s.clients| && s.clients[i].Settled() ==> s.clients[i].outcome != Entered(Empty, true))
    && |s.lost| == multiset(s.log)[Entered(Empty, true)]
  }

  ghost predicate Inv(s: State) {
    Locking(s) && Agreement(s) && Placed(s) && Conserved(s) && Modes(s) && Logged(s)
  }

  lemma {:induction false} IdentityOnce(n: nat, c: Conn)
    ensures multiset(seq(n, (i: nat) => i))[c] == if c < n then 1 else 0
  {
    if n > 0 {
      IdentityOnce(n - 1, c);
      assert seq(n, (i: nat) => i) == seq(n - 1, (i: nat) => i) + [n - 1];
    }
  }

  lemma StartPlaced(n: nat, c: Conn)
    ensures Places(Start(n), c) == Existing(c)
  {
    var s := Start(n);
    TotalZero(s.clients, Carrying(c));
    IdentityOnce(MAX_POOL_SIZE, c);
    assert s.queue == seq(MAX_POOL_SIZE, (i: nat) => i);
  }

  lemma StartHolds(n: nat)
    ensures Inv(Start(n))
  {
    var s := Start(n);
    TotalZero(s.clients, Owed);
    TotalZero(s.clients, Loaded);
    forall c: Conn {
      StartPlaced(n, c);
    }
    forall c: Conn | c < MAX_POOL_SIZE ensures ModeRight(s, c) {
      assert Numbers()[c] == c;
      TotalZero(s.clients, Transacting(c));
    }
  }

  lemma ClientMoves(s: State, k: Step, kind: Kind)
    requires Enabled(s, k)
    ensures var s' := Apply(s, k);
      && s'.clients == s.clients[k.i := Moved(s, k)]
      && Total(s'.clients, kind) == Total(s.clients, kind) - Weight(s.clients[k.i], kind) + Weight(Moved(s, k), kind)
      && Total(s.clients, kind) >= Weight(s.clients[k.i], kind)
  {
    TotalUpdate(s.clients, k.i, Moved(s, k), kind);
  }

  /** PopWrapper never takes the front of an empty queue. */
  lemma TakeFinds(s: State, i: nat)
    requires Agreement(s) && Enabled(s, Take(i))
    ensures s.queue != []
  {
    TotalUpdate(s.clients, i, Idle, Owed);
  }

  /** The branch that reports a failed release is never taken. */
  lemma ReleaseFits(s: State, i: nat)
    requires Agreement(s) && Conserved(s) && Enabled(s, Release(i))
    ensures s.sem + 1 <= MAX_POOL_SIZE
  {
    TotalUpdate(s.clients, i, Idle, Owed);
  }

  lemma CountSnoc(cs: seq<Conn>, d: Conn, c: Conn)
    ensures multiset(cs + [d])[c] == multiset(cs)[c] + if d == c then 1 else 0
  {
  }

  lemma CountHead(cs: seq<Conn>, c: Conn)
    requires cs != []
    ensures multiset(cs)[c] == multiset(cs[1..])[c] + if cs[0] == c then 1 else 0
  {
    assert cs == [cs[0]] + cs[1..];
  }

  lemma PlacedKeeps(s: State, k: Step, c: Conn)
    requires Enabled(s, k) && (k.Take? ==> s.queue != []) && Places(s, c) == Existing(c)
    ensures Places(Apply(s, k), c) == Existing(c)
  {
    if k.Take? {
      TakePlaced(s, k.i, c);
    } else if k.Put? {
      PutPlaced(s, k.i, c);
    } else if Loses(s, k) {
      LosePlaced(s, k, c);
    } else {
      ClientMoves(s, k, Carrying(c));
      StaysPut(s, k, c);
    }
  }

  lemma TakePlaced(s: State, i: nat, c: Conn)
    requires Enabled(s, Take(i)) && s.queue != []
    ensures Places(Apply(s, Take(i)), c) == Places(s, c)
  {
    ClientMoves(s, Take(i), Carrying(c));
    CountHead(s.queue, c);
  }

  lemma PutPlaced(s: State, i: nat, c: Conn)
    requires Enabled(s, Put(i))
    ensures Places(Apply(s, Put(i)), c) == Places(s, c)
  {
    ClientMoves(s, Put(i), Carrying(c));
    CountSnoc(s.queue, s.clients[i].conn, c);
  }

  lemma LosePlaced(s: State, k: Step, c: Conn)
    requires Enabled(s, k) && Loses(s, k)
    ensures Places(Apply(s, k), c) == Places(s, c)
  {
    ClientMoves(s, k, Carrying(c));
    CountSnoc(s.lost, s.clients[k.i].conn, c);
  }

  lemma StaysPut(s: State, k: Step, c: Conn)
    requires Enabled(s, k) && !k.Take? && !k.Put? && !Loses(s, k)
    ensures Apply(s, k).queue == s.queue && Apply(s, k).lost == s.lost
    ensures Weight(Moved(s, k), Carrying(c)) == Weight(s.clients[k.i], Carrying(c))
  {
  }

  /** The client that moves takes the lock when it is open, or gives back its own. */
  lemma LockMoves(s: State, k: Step)
    requires Enabled(s, k) && (s.clients[k.i].HoldsLock() <==> s.lock == By(k.i)) && (k.Take? ==> s.queue != [])
    ensures Moved(s, k).HoldsLock() <==> Apply(s, k).lock == By(k.i)
    ensures Apply(s, k).lock == s.lock
      || (s.lock in {Open, By(k.i)} && Apply(s, k).lock in {Open, By(k.i)})
  {
  }

  lemma LockingKeeps(s: State, k: Step)
    requires Locking(s) && Enabled(s, k) && (k.Take? ==> s.queue != [])
    ensures Locking(Apply(s, k))
  {
    LockMoves(s, k);
    ClientMoves(s, k, Effort);
  }

  lemma AgreementKeeps(s: State, k: Step)
    requires Agreement(s) && Enabled(s, k) && (k.Take? ==> s.queue != [])
    requires k.Release? ==> s.sem + 1 <= MAX_POOL_SIZE
    ensures Agreement(Apply(s, k))
  {
    ClientMoves(s, k, Owed);
  }

  lemma ConservedKeeps(s: State, k: Step)
    requires Conserved(s) && Enabled(s, k) && (k.Take? ==> s.queue != [])
    ensures Conserved(Apply(s, k))
  {
    ClientMoves(s, k, Loaded);
  }

  // ----- modes -----

  lemma LeftOpenSnoc(events: seq<Event>, e: Event, c: Conn)
    ensures LeftOpen(events + [e], c)
      == if e == CountFailed(c) then true else if e == Ended(c) then false else LeftOpen(events, c)
  {
    assert (events + [e])[..|events|] == events;
  }

  lemma {:induction false} LeftOpenExactly(events: seq<Event>, c: Conn)
    ensures LeftOpen(events, c) <==>
      exists j :: 0 <= j < |events| && events[j] == CountFailed(c)
        && forall m :: j < m < |events| ==> events[m] != Ended(c)
    decreases |events|
  {
    if events != [] {
      var n := |events| - 1;
      LeftOpenExactly(events[..n], c);
      if events[n] != CountFailed(c) && events[n] != Ended(c) && LeftOpen(events[..n], c) {
        var j :| 0 <= j < n && events[..n][j] == CountFailed(c) && forall m :: j < m < n ==> events[..n][m] != Ended(c);
        assert events[j] == CountFailed(c) && forall m :: j < m < |events| ==> events[m] != Ended(c) by {
          forall m | j < m < |events| ensures events[m] != Ended(c) {
            assert m < n ==> events[m] == events[..n][m];
          }
        }
      } else if j :|
        0 <= j < n && events[j] == CountFailed(c) && forall m :: j < m < |events| ==> events[m] != Ended(c)
      {
        assert events[..n][j] == CountFailed(c) && forall m :: j < m < n ==> events[..n][m] != Ended(c);
      }
    }
  }

  /** A client that has c has it alone. */
  lemma OneHolder(s: State, i: nat)
    requires Placed(s) && i < |s.clients| && s.clients[i].HasOne()
    ensures var c := s.clients[i].conn;
      c < MAX_POOL_SIZE && Total(s.clients, Transacting(c)) <= Total(s.clients, Carrying(c)) == 1
  {
    var c := s.clients[i].conn;
    TotalUpdate(s.clients, i, Idle, Carrying(c));
    TransactingCarries(s.clients, c);
    assert Places(s, c) == Existing(c);
  }

  /** What a step does to the mode and the history of the connection it works on. */
  lemma OwnMode(s: State, k: Step)
    requires Enabled(s, k) && s.clients[k.i].HasOne()
    ensures var a, s' := s.clients[k.i], Apply(s, k);
      if k.StartEntry? || k.StartExit? then s'.modes == s.modes[a.conn := false] && s'.events == s.events
      else if k.Count? && !k.ok then s'.modes == s.modes && s'.events == s.events + [CountFailed(a.conn)]
      else if k.End? then s'.modes == s.modes[a.conn := true] && s'.events == s.events + [Ended(a.conn)]
      else s'.modes == s.modes && s'.events == s.events
  {
  }

  lemma OtherMode(s: State, k: Step, c: Conn)
    requires Enabled(s, k) && s.clients[k.i].HasOne() && s.clients[k.i].conn != c
    ensures var s' := Apply(s, k);
      && (c in s'.modes <==> c in s.modes) && (c in s.modes ==> s'.modes[c] == s.modes[c])
      && Weight(Moved(s, k), Transacting(c)) == Weight(s.clients[k.i], Transacting(c)) == 0
  {
  }

  /** At most one client is in a transaction on a connection that somebody holds. */
  lemma OwnTotals(s: State, k: Step)
    requires Placed(s) && Enabled(s, k) && s.clients[k.i].HasOne()
    ensures var a, next, kind := s.clients[k.i], Moved(s, k), Transacting(s.clients[k.i].conn);
      var before, after := Total(s.clients, kind), Total(Apply(s, k).clients, kind);
      && (if a.InTransaction() then 1 else 0) <= before <= 1
      && after == before - (if a.InTransaction() then 1 else 0) + (if next.InTransaction() then 1 else 0)
  {
    ClientMoves(s, k, Transacting(s.clients[k.i].conn));
    OneHolder(s, k.i);
  }

  lemma OwnModeKeeps(s: State, k: Step)
    requires Placed(s) && Enabled(s, k) && s.clients[k.i].HasOne() && ModeRight(s, s.clients[k.i].conn)
    ensures ModeRight(Apply(s, k), s.clients[k.i].conn)
  {
    var c := s.clients[k.i].conn;
    OwnTotals(s, k);
    LeftOpenSnoc(s.events, CountFailed(c), c);
    LeftOpenSnoc(s.events, Ended(c), c);
    OwnMode(s, k);
  }

  lemma OtherModeKeeps(s: State, k: Step, c: Conn)
    requires Enabled(s, k) && s.clients[k.i].HasOne() && s.clients[k.i].conn != c && ModeRight(s, c)
    ensures ModeRight(Apply(s, k), c)
  {
    ClientMoves(s, k, Transacting(c));
    LeftOpenSnoc(s.events, CountFailed(s.clients[k.i].conn), c);
    LeftOpenSnoc(s.events, Ended(s.clients[k.i].conn), c);
    OwnMode(s, k);
    OtherMode(s, k, c);
  }

  lemma ModeKeeps(s: State, k: Step, c: Conn)
    requires Placed(s) && Enabled(s, k) && c < MAX_POOL_SIZE && ModeRight(s, c)
    ensures ModeRight(Apply(s, k), c)
  {
    if !s.clients[k.i].HasOne() {
      ClientMoves(s, k, Transacting(c));
    } else if s.clients[k.i].conn == c {
      OwnModeKeeps(s, k);
    } else {
      OtherModeKeeps(s, k, c);
    }
  }

  lemma LogSnoc(log: seq<Outcome>, o: Outcome)
    ensures multiset(log + [o])[Entered(Empty, true)]
      == multiset(log)[Entered(Empty, true)] + if o == Entered(Empty, true) then 1 else 0
  {
  }

  lemma SettledKeep(s: State, k: Step)
    requires Logged(s) && Enabled(s, k)
    ensures Moved(s, k).Settled() ==> Moved(s, k).outcome != Entered(Empty, true)
  {
  }

  lemma LossesLogged(s: State, k: Step)
    requires Logged(s) && Enabled(s, k)
    ensures |Apply(s, k).lost| == multiset(Apply(s, k).log)[Entered(Empty, true)]
  {
    if k.End? {
      LogSnoc(s.log, Result(s.clients[k.i].task, k.ok));
    } else if k.UnlockPush? {
      LogSnoc(s.log, s.clients[k.i].outcome);
    }
  }

  lemma LoggedKeeps(s: State, k: Step)
    requires Logged(s) && Enabled(s, k)
    ensures Logged(Apply(s, k))
  {
    SettledKeep(s, k);
    LossesLogged(s, k);
    ClientMoves(s, k, Effort);
  }

  lemma StepKeeps(s: State, k: Step)
    requires Inv(s) && Enabled(s, k)
    ensures Inv(Apply(s, k))
  {
    if k.Take? {
      TakeFinds(s, k.i);
    } else if k.Release? {
      ReleaseFits(s, k.i);
    }
    LockingKeeps(s, k);
    AgreementKeeps(s, k);
    ConservedKeeps(s, k);
    LoggedKeeps(s, k);
    forall c: Conn {
      PlacedKeeps(s, k, c);
    }
    forall c: Conn | c < MAX_POOL_SIZE {
      ModeKeeps(s, k, c);
    }
  }

  // ----- runs -----

  ghost predicate Executable(s: State, ks: seq<Step>)
    decreases |ks|
  {
    ks == [] || (Enabled(s, ks[0]) && Executable(Apply(s, ks[0]), ks[1..]))
  }

  ghost function Exec(s: State, ks: seq<Step>): State
    requires Executable(s, ks)
    decreases |ks|
  {
    if ks == [] then s else Exec(Apply(s, ks[0]), ks[1..])
  }

  ghost predicate Reachable(n: nat, s: State) {
    exists ks :: Executable(Start(n), ks) && Exec(Start(n), ks) == s
  }

  lemma {:induction false} RunKeeps(s: State, ks: seq<Step>)
    requires Inv(s) && Executable(s, ks)
    ensures Inv(Exec(s, ks)) && |Exec(s, ks).clients| == |s.clients|
    decreases |ks|
  {
    if ks != [] {
      StepKeeps(s, ks[0]);
      RunKeeps(Apply(s, ks[0]), ks[1..]);
    }
  }

  lemma ReachableInv(n: nat, s: State)
    requires Reachable(n, s)
    ensures Inv(s) && |s.clients| == n
  {
    var ks :| Executable(Start(n), ks) && Exec(Start(n), ks) == s;
    StartHolds(n);
    RunKeeps(Start(n), ks);
  }

  /** In every run the queue is never empty when popped and a release is never refused. */
  lemma PoolSafe(n: nat, s: State, k: Step)
    requires Reachable(n, s) && Enabled(s, k)
    ensures k.Take? ==> s.queue != []
    ensures k.Release? ==> s.sem + 1 <= MAX_POOL_SIZE
  {
    ReachableInv(n, s);
    if k.Take? {
      TakeFinds(s, k.i);
    } else if k.Release? {
      ReleaseFits(s, k.i);
    }
  }

  /** No connection is ever with two clients, or with a client and in the queue. */
  lemma Exclusive(n: nat, s: State, i: nat, j: nat, c: Conn)
    requires Reachable(n, s) && i < |s.clients| && s.clients[i].Has(c)
    ensures c !in s.queue && c !in s.lost && c < MAX_POOL_SIZE
    ensures j < |s.clients| && s.clients[j].Has(c) ==> i == j
  {
    ReachableInv(n, s);
    TotalUpdate(s.clients, i, Idle, Carrying(c));
    assert Places(s, c) == Existing(c);
    if j < |s.clients| && i != j {
      TotalTwo(s.clients, i, j, Carrying(c));
    }
  }

  lemma TotalTwo(s: seq<Client>, i: nat, j: nat, k: Kind)
    requires i < |s| && j < |s| && i != j
    ensures Total(s, k) >= Weight(s[i], k) + Weight(s[j], k)
  {
    TotalUpdate(s, i, Idle, k);
    TotalUpdate(s[i := Idle], j, Idle, k);
  }

  /** However the clients interleave, the connections lost are the entries that succeeded on an empty
      password. */
  lemma LostExactly(n: nat, s: State)
    requires Reachable(n, s)
    ensures |s.lost| == multiset(s.log)[Entered(Empty, true)]
    ensures |s.queue| + Total(s.clients, Loaded) + multiset(s.log)[Entered(Empty, true)] == MAX_POOL_SIZE
  {
    ReachableInv(n, s);
  }

  /** However the clients interleave, a connection in the queue has autocommit on unless a count failed
      on it and no transaction on it has ended since. */
  lemma QueuedModeExactly(n: nat, s: State, c: Conn)
    requires Reachable(n, s) && c in s.queue
    ensures c in s.modes
    ensures s.modes[c] <==>
      !exists j :: 0 <= j < |s.events| && s.events[j] == CountFailed(c)
        && forall m :: j < m < |s.events| ==> s.events[m] != Ended(c)
  {
    ReachableInv(n, s);
    assert Places(s, c) == Existing(c) && multiset(s.queue)[c] > 0;
    TransactingCarries(s.clients, c);
    assert ModeRight(s, c);
    LeftOpenExactly(s.events, c);
  }

  /** Between its start and its end a transaction has autocommit off. */
  lemma TransactionMode(n: nat, s: State, i: nat)
    requires Reachable(n, s) && i < |s.clients| && s.clients[i].InTransaction()
    ensures s.clients[i].conn in s.modes && !s.modes[s.clients[i].conn]
  {
    ReachableInv(n, s);
    var c := s.clients[i].conn;
    OneHolder(s, i);
    TotalUpdate(s.clients, i, Idle, Transacting(c));
    assert ModeRight(s, c);
  }

  // ----- lost connections -----

  /** Nobody can go on without waiting for a connection or keeping one. */
  ghost predicate AllBack(s: State) {
    forall k: Step :: Enabled(s, k) ==> k.Wait? || Loses(s, k)
  }

  lemma ReturnStep(s: State, k: Step)
    requires Agreement(s) && Enabled(s, k) && !k.Wait? && !Loses(s, k)
    ensures Total(Apply(s, k).clients, Effort) < Total(s.clients, Effort) && Apply(s, k).lost == s.lost
  {
    if k.Take? {
      TakeFinds(s, k.i);
    }
    ClientMoves(s, k, Effort);
  }

  lemma {:induction false} BringBack(s: State) returns (ks: seq<Step>)
    requires Inv(s)
    ensures Executable(s, ks) && AllBack(Exec(s, ks)) && Exec(s, ks).lost == s.lost
    decreases Total(s.clients, Effort)
  {
    if AllBack(s) {
      ks := [];
    } else {
      var k: Step :| Enabled(s, k) && !k.Wait? && !Loses(s, k);
      StepKeeps(s, k);
      ReturnStep(s, k);
      var rest := BringBack(Apply(s, k));
      ks := [k] + rest;
      assert ks[1..] == rest;
    }
  }

  lemma HolderMoves(s: State)
    requires Locking(s) && s.lock.By?
    ensures !AllBack(s)
  {
    var j := s.lock.i;
    assert s.clients[j].HoldsLock();
    var k := match s.clients[j]
      case PopLocked => Take(j)
      case Popped(_) => UnlockPop(j)
      case PushLocked(_, _) => Put(j)
      case Enqueued(_) => Release(j)
      case _ => UnlockPush(j);
    assert Enabled(s, k) && !Loses(s, k);
  }

  lemma ActiveMoves(s: State, i: nat)
    requires Locking(s) && s.lock == Open && i < |s.clients| && s.clients[i] != Idle
    ensures !AllBack(s)
  {
    assert !s.clients[i].HoldsLock();
    var k := match s.clients[i]
      case Waited => LockForPop(i)
      case Holding(_) => Plain(i, true)
      case Searching(_) => Find(i, NotFound)
      case Inserting(_, _) => Insert(i)
      case Counting(_) => Count(i, true)
      case Deleting(_) => Delete(i, true)
      case Ending(_, _) => End(i, false)
      case _ => LockForPush(i);
    assert Enabled(s, k) && !k.Wait? && !Loses(s, k);
  }

  lemma BackMeansIdle(s: State)
    requires Inv(s) && AllBack(s)
    ensures forall i :: 0 <= i < |s.clients| ==> s.clients[i] == Idle
    ensures s.sem == |s.queue| == MAX_POOL_SIZE - |s.lost|
  {
    if s.lock.By? {
      HolderMoves(s);
    }
    forall i | 0 <= i < |s.clients| ensures s.clients[i] == Idle {
      if s.clients[i] != Idle {
        ActiveMoves(s, i);
      }
    }
    TotalZero(s.clients, Owed);
    TotalZero(s.clients, Loaded);
  }

  lemma {:induction false} LostStays(s: State, ks: seq<Step>)
    requires Inv(s) && Executable(s, ks)
    ensures |Exec(s, ks).lost| >= |s.lost|
    decreases |ks|
  {
    if ks != [] {
      StepKeeps(s, ks[0]);
      LostStays(Apply(s, ks[0]), ks[1..]);
    }
  }

  /** Some client can get past the wait, now or after others have returned what they hold, if and
      only if not all forty connections have been lost; after that nobody ever does. */
  lemma ServiceExactly(n: nat, s: State)
    requires n > 0 && Reachable(n, s)
    ensures (exists ks, i :: Executable(s, ks) && Enabled(Exec(s, ks), Wait(i))) <==> |s.lost| < MAX_POOL_SIZE
  {
    ReachableInv(n, s);
    if |s.lost| < MAX_POOL_SIZE {
      var ks := BringBack(s);
      RunKeeps(s, ks);
      var e := Exec(s, ks);
      BackMeansIdle(e);
      assert e.clients[0] == Idle;
      assert Enabled(e, Wait(0));
    } else {
      forall ks, i | Executable(s, ks) && Enabled(Exec(s, ks), Wait(i)) ensures false {
        RunKeeps(s, ks);
        LostStays(s, ks);
      }
    }
  }
}
