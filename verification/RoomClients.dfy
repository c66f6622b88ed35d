/** The calls of the room services, one after the other, are runs of the connection pool's clients. */
module RoomClients {
  import opened Bytes
  import opened RoomTables
  import opened RoomSpec
  import opened RoomRuns
  import opened RoomTheorems
  import P = ConnectionPool

  // ----- steps in a row -----

  lemma {:induction false} ExecAppend(s: P.State, a: seq<P.Step>, b: seq<P.Step>)
    requires P.Executable(s, a) && P.Executable(P.Exec(s, a), b)
    ensures P.Executable(s, a + b) && P.Exec(s, a + b) == P.Exec(P.Exec(s, a), b)
    decreases |a|
  {
    if a == [] {
      assert a + b == b;
    } else {
      assert (a + b)[0] == a[0] && (a + b)[1..] == a[1..] + b;
      ExecAppend(P.Apply(s, a[0]), a[1..], b);
    }
  }

  lemma ExecOne(s: P.State, k: P.Step)
    requires P.Enabled(s, k)
    ensures P.Executable(s, [k]) && P.Exec(s, [k]) == P.Apply(s, k)
  {
    assert [k][1..] == [];
  }

  lemma Two(s: P.State, k: P.Step, l: P.Step)
    requires P.Enabled(s, k) && P.Enabled(P.Apply(s, k), l)
    ensures P.Executable(s, [k, l]) && P.Exec(s, [k, l]) == P.Apply(P.Apply(s, k), l)
  {
    ExecOne(s, k);
    ExecOne(P.Apply(s, k), l);
    ExecAppend(s, [k], [l]);
    assert [k] + [l] == [k, l];
  }

  lemma Three(s: P.State, a: seq<P.Step>, b: seq<P.Step>, d: seq<P.Step>)
    requires P.Executable(s, a) && P.Executable(P.Exec(s, a), b) && P.Executable(P.Exec(P.Exec(s, a), b), d)
    ensures P.Executable(s, a + b + d) && P.Exec(s, a + b + d) == P.Exec(P.Exec(P.Exec(s, a), b), d)
  {
    ExecAppend(s, a, b);
    ExecAppend(s, a + b, d);
  }

  // ----- PopWrapper and PushWrapper without interference -----

  function PopSteps(i: nat): seq<P.Step> {
    [P.Wait(i), P.LockForPop(i)] + [P.Take(i), P.UnlockPop(i)]
  }

  function PushSteps(i: nat): seq<P.Step> {
    [P.LockForPush(i), P.Put(i)] + [P.Release(i), P.UnlockPush(i)]
  }

  lemma PopAlone(s: P.State, i: nat)
    requires i < |s.clients| && s.clients[i] == P.Idle && s.lock == P.Open && s.sem > 0 && s.queue != []
    ensures P.Executable(s, PopSteps(i))
    ensures P.Exec(s, PopSteps(i))
      == s.(sem := s.sem - 1, queue := s.queue[1..], clients := s.clients[i := P.Holding(s.queue[0])])
  {
    Two(s, P.Wait(i), P.LockForPop(i));
    var m := P.Exec(s, [P.Wait(i), P.LockForPop(i)]);
    assert m == s.(sem := s.sem - 1, lock := P.By(i), clients := s.clients[i := P.PopLocked]);
    Two(m, P.Take(i), P.UnlockPop(i));
    assert m.clients[i := P.Popped(s.queue[0])][i := P.Holding(s.queue[0])] == s.clients[i := P.Holding(s.queue[0])];
    ExecAppend(s, [P.Wait(i), P.LockForPop(i)], [P.Take(i), P.UnlockPop(i)]);
  }

  lemma PushAlone(s: P.State, i: nat)
    requires i < |s.clients| && s.clients[i].Returning? && s.lock == P.Open && s.sem + 1 <= P.MAX_POOL_SIZE
    ensures P.Executable(s, PushSteps(i))
    ensures var a := s.clients[i];
      P.Exec(s, PushSteps(i)) == s.(sem := s.sem + 1, queue := s.queue + [a.conn],
                                    clients := s.clients[i := P.Idle], log := s.log + [a.outcome])
  {
    var c, o := s.clients[i].conn, s.clients[i].outcome;
    Two(s, P.LockForPush(i), P.Put(i));
    var m := P.Exec(s, [P.LockForPush(i), P.Put(i)]);
    assert m == s.(lock := P.By(i), queue := s.queue + [c], clients := s.clients[i := P.Enqueued(o)]);
    Two(m, P.Release(i), P.UnlockPush(i));
    assert m.clients[i := P.Posted(o)][i := P.Idle] == s.clients[i := P.Idle];
    ExecAppend(s, [P.LockForPush(i), P.Put(i)], [P.Release(i), P.UnlockPush(i)]);
  }

  // ----- the work in between -----

  /** What an entry learns from its query. */
  function Learned(w: World, room: int, password: seq<Byte>, e: EntryOutcome): P.Seen
    requires w.pool != []
  {
    var stored := PasswordSeen(w, room, e);
    if !e.findOk then P.NotFound
    else if stored == [] then P.Empty
    else if password == stored then P.Equal
    else P.Different
  }

  /** The call as the log of the connection pool records it, with the value it returns. */
  function Returned(w: World, k: Call): P.Outcome
    requires Ready(w, k)
  {
    match k
    case Create(name, password, ok) => P.Other(CreateChattingRoom(w, name, password, ok).1)
    case Say(room, user, text, ok) => P.Other(SendMessage(w, room, user, text, ok).1)
    case Enter(user, room, password, e) =>
      P.Entered(Learned(w, room, password, e), PasswordCompare(w, user, room, password, e).1)
    case Exit(user, room, e) => P.Left(e.countOk, ExitRoom(w, user, room, e).1)
  }

  function EntrySteps(seen: P.Seen, ok: bool, i: nat): seq<P.Step> {
    [P.StartEntry(i), P.Find(i, seen)] + EntryEnd(seen, ok, i)
  }

  function EntryEnd(seen: P.Seen, ok: bool, i: nat): seq<P.Step> {
    if seen == P.Empty || seen == P.Equal then [P.Insert(i), P.End(i, ok)] else [P.End(i, ok)]
  }

  function ExitSteps(counted: bool, destroyed: bool, ok: bool, i: nat): seq<P.Step> {
    [P.StartExit(i), P.Count(i, counted)] + if counted then [P.Delete(i, destroyed), P.End(i, ok)] else []
  }

  predicate Destroys(w: World, room: int, e: ExitOutcome)
    requires w.pool != []
  {
    CountMembers(Seen(w.tables, w.pool[0]), room) == 1 && e.destroyOk
  }

  function WorkSteps(w: World, k: Call, i: nat): seq<P.Step>
    requires Ready(w, k)
  {
    match k
    case Create(_, _, ok) => [P.Plain(i, ok)]
    case Say(_, _, _, ok) => [P.Plain(i, ok)]
    case Enter(_, room, password, e) => EntrySteps(Learned(w, room, password, e), e.commitOk, i)
    case Exit(_, room, e) => ExitSteps(e.countOk, Destroys(w, room, e), e.commitOk, i)
  }

  /** The mode a call leaves its connection in. */
  predicate ModeAfter(k: Call, before: bool) {
    Ends(k) || (before && !k.Exit?)
  }

  /** The state of the pool when client i has worked on connection c. */
  ghost predicate Worked(s: P.State, e: P.State, i: nat, c: nat, mode: bool, leaks: bool, outcome: P.Outcome)
    requires i < |s.clients|
  {
    && e.sem == s.sem && e.queue == s.queue && e.lock == s.lock && e.modes == s.modes[c := mode]
    && e.clients == s.clients[i := if leaks then P.Idle else P.Returning(c, outcome)]
    && e.log == s.log + if leaks then [outcome] else []
  }

  /** Where an entry is after its query. */
  function Compared(c: nat, seen: P.Seen): P.Client {
    if seen == P.Empty || seen == P.Equal then P.Inserting(c, seen) else P.Ending(c, P.Entry(seen))
  }

  lemma EntryBegun(s: P.State, i: nat, c: nat, seen: P.Seen)
    requires i < |s.clients| && s.clients[i] == P.Holding(c)
    ensures var ks := [P.StartEntry(i), P.Find(i, seen)];
      && P.Executable(s, ks)
      && P.Exec(s, ks) == s.(modes := s.modes[c := false], clients := s.clients[i := Compared(c, seen)])
  {
    Two(s, P.StartEntry(i), P.Find(i, seen));
  }

  lemma EntryEnded(s: P.State, i: nat, c: nat, seen: P.Seen, ok: bool)
    requires i < |s.clients| && s.clients[i] == Compared(c, seen)
    ensures var ks, outcome := EntryEnd(seen, ok, i), P.Result(P.Entry(seen), ok);
      P.Executable(s, ks) && Worked(s, P.Exec(s, ks), i, c, true, ok && seen == P.Empty, outcome)
  {
    if seen == P.Empty || seen == P.Equal {
      Two(s, P.Insert(i), P.End(i, ok));
    } else {
      ExecOne(s, P.End(i, ok));
    }
  }

  lemma EntryAlone(s: P.State, i: nat, c: nat, seen: P.Seen, ok: bool)
    requires i < |s.clients| && s.clients[i] == P.Holding(c)
    ensures var ks, outcome := EntrySteps(seen, ok, i), P.Result(P.Entry(seen), ok);
      P.Executable(s, ks) && Worked(s, P.Exec(s, ks), i, c, true, ok && seen == P.Empty, outcome)
  {
    var first := [P.StartEntry(i), P.Find(i, seen)];
    EntryBegun(s, i, c, seen);
    EntryEnded(P.Exec(s, first), i, c, seen, ok);
    ExecAppend(s, first, EntryEnd(seen, ok, i));
  }

  lemma EntryReturns(w: World, k: Call)
    requires k.Enter? && Ready(w, k)
    ensures var seen := Learned(w, k.room, k.password, k.entry);
      && Returned(w, k) == P.Result(P.Entry(seen), k.entry.commitOk)
      && (Leaks(w, k) <==> k.entry.commitOk && seen == P.Empty)
  {
    ReadsEmpty(Seen(w.tables, w.pool[0]), k.room);
  }

  lemma ExitAlone(s: P.State, i: nat, c: nat, counted: bool, destroyed: bool, ok: bool)
    requires i < |s.clients| && s.clients[i] == P.Holding(c)
    ensures var ks, outcome := ExitSteps(counted, destroyed, ok, i), P.Left(counted, counted && destroyed && ok);
      P.Executable(s, ks) && Worked(s, P.Exec(s, ks), i, c, counted, false, outcome)
  {
    var first := [P.StartExit(i), P.Count(i, counted)];
    Two(s, P.StartExit(i), P.Count(i, counted));
    if counted {
      Two(P.Exec(s, first), P.Delete(i, destroyed), P.End(i, ok));
      ExecAppend(s, first, [P.Delete(i, destroyed), P.End(i, ok)]);
    } else {
      assert first + [] == first;
    }
  }

  lemma ExitReturns(w: World, k: Call)
    requires k.Exit? && Ready(w, k)
    ensures var e := k.exit;
      Returned(w, k) == P.Left(e.countOk, e.countOk && Destroys(w, k.room, e) && e.commitOk)
  {
  }

  /** The statements of a call, between taking its connection and giving it back. */
  lemma WorkAlone(s: P.State, i: nat, c: nat, w: World, k: Call)
    requires Ready(w, k) && i < |s.clients| && s.clients[i] == P.Holding(c)
    requires c in s.modes && s.modes[c] == w.pool[0].autocommit
    ensures P.Executable(s, WorkSteps(w, k, i))
    ensures Worked(s, P.Exec(s, WorkSteps(w, k, i)), i, c, ModeAfter(k, s.modes[c]), Leaks(w, k), Returned(w, k))
  {
    match k {
      case Enter(user, room, password, e) =>
        EntryReturns(w, k);
        EntryAlone(s, i, c, Learned(w, room, password, e), e.commitOk);
      case Exit(user, room, e) =>
        ExitReturns(w, k);
        ExitAlone(s, i, c, e.countOk, Destroys(w, room, e), e.commitOk);
      case _ =>
        ExecOne(s, P.Plain(i, k.ok));
        assert s.modes[c := s.modes[c]] == s.modes;
    }
  }

  /** The last of a call's steps: the connection goes back, unless it was lost. */
  function BackSteps(leaks: bool, i: nat): seq<P.Step> {
    if leaks then [] else PushSteps(i)
  }

  ghost function Given(s: P.State, i: nat, c: nat, leaks: bool, outcome: P.Outcome): P.State
    requires i < |s.clients|
  {
    if leaks then s
    else s.(sem := s.sem + 1, queue := s.queue + [c], clients := s.clients[i := P.Idle], log := s.log + [outcome])
  }

  lemma GiveBack(s: P.State, i: nat, c: nat, leaks: bool, outcome: P.Outcome)
    requires i < |s.clients| && s.lock == P.Open && s.sem + 1 <= P.MAX_POOL_SIZE
    requires s.clients[i] == if leaks then P.Idle else P.Returning(c, outcome)
    ensures P.Executable(s, BackSteps(leaks, i)) && P.Exec(s, BackSteps(leaks, i)) == Given(s, i, c, leaks, outcome)
  {
    if !leaks {
      PushAlone(s, i);
    }
  }

  // ----- whole calls -----

  /** Nobody is inside a call, and queue and modes are those of the idle connections in `w`. */
  ghost predicate Matches(s: P.State, w: World) {
    && (forall i :: 0 <= i < |s.clients| ==> s.clients[i] == P.Idle)
    && |s.queue| == |w.pool|
    && forall p :: 0 <= p < |w.pool| ==> s.queue[p] in s.modes && s.modes[s.queue[p]] == w.pool[p].autocommit
  }

  function CallSteps(w: World, k: Call, i: nat): seq<P.Step>
    requires Ready(w, k)
  {
    PopSteps(i) + WorkSteps(w, k, i) + BackSteps(Leaks(w, k), i)
  }

  lemma AtRest(s: P.State, w: World)
    requires P.Inv(s) && Matches(s, w)
    ensures s.lock == P.Open && s.sem == |s.queue| <= P.MAX_POOL_SIZE
    ensures forall p, q :: 0 <= p < q < |s.queue| ==> s.queue[p] != s.queue[q]
  {
    P.TotalZero(s.clients, P.Owed);
    forall p, q | 0 <= p < q < |s.queue| && s.queue[p] == s.queue[q] ensures false {
      var c := s.queue[p];
      assert P.Places(s, c) == P.Existing(c) <= 1;
      TwiceIn(s.queue, p, q);
    }
  }

  lemma TwiceIn(cs: seq<nat>, p: nat, q: nat)
    requires p < q < |cs| && cs[p] == cs[q]
    ensures multiset(cs)[cs[p]] >= 2
  {
    assert cs == (cs[..p] + [cs[p]]) + (cs[p + 1..q] + ([cs[q]] + cs[q + 1..]));
  }

  /** Idle connections and their modes after a call. */
  lemma PoolModes(w: World, k: Call)
    requires Ready(w, k)
    ensures var w' := Perform(w, k);
      && |w'.pool| == |w.pool| - (if Leaks(w, k) then 1 else 0)
      && (forall p :: 0 <= p < |w.pool| - 1 ==> w'.pool[p].autocommit == w.pool[p + 1].autocommit)
      && (!Leaks(w, k) ==> w'.pool[|w.pool| - 1].autocommit == ModeAfter(k, w.pool[0].autocommit))
  {
    if Ends(k) {
      EndedTransaction(w, k);
    } else {
      OpenTransaction(w, k);
    }
  }

  lemma StillMatches(s: P.State, e: P.State, w: World, k: Call)
    requires Ready(w, k) && Matches(s, w)
    requires forall p, q :: 0 <= p < q < |s.queue| ==> s.queue[p] != s.queue[q]
    requires e.clients == s.clients && e.queue == s.queue[1..] + if Leaks(w, k) then [] else [s.queue[0]]
    requires e.modes == s.modes[s.queue[0] := ModeAfter(k, w.pool[0].autocommit)]
    ensures Matches(e, Perform(w, k))
  {
    PoolModes(w, k);
  }

  /** What the three phases of a call come to. */
  lemma PhasesAddUp(s: P.State, s1: P.State, s2: P.State, s3: P.State, i: nat, mode: bool, leaks: bool,
                    outcome: P.Outcome)
    requires i < |s.clients| && s.clients[i] == P.Idle && s.queue != [] && s.sem > 0
    requires s1 == s.(sem := s.sem - 1, queue := s.queue[1..], clients := s.clients[i := P.Holding(s.queue[0])])
    requires Worked(s1, s2, i, s.queue[0], mode, leaks, outcome)
    requires s3 == Given(s2, i, s.queue[0], leaks, outcome)
    ensures s3.clients == s.clients && s3.modes == s.modes[s.queue[0] := mode] && s3.log == s.log + [outcome]
    ensures s3.queue == s.queue[1..] + if leaks then [] else [s.queue[0]]
  {
    assert s3.clients == s.clients;
  }

  lemma CallRun(s: P.State, w: World, k: Call, i: nat)
    requires Ready(w, k) && i < |s.clients| && s.clients[i] == P.Idle && s.lock == P.Open
    requires 0 < s.sem <= P.MAX_POOL_SIZE && s.queue != []
    requires s.queue[0] in s.modes && s.modes[s.queue[0]] == w.pool[0].autocommit
    ensures P.Executable(s, CallSteps(w, k, i))
    ensures var e := P.Exec(s, CallSteps(w, k, i));
      && e.clients == s.clients && e.queue == s.queue[1..] + (if Leaks(w, k) then [] else [s.queue[0]])
      && e.modes == s.modes[s.queue[0] := ModeAfter(k, w.pool[0].autocommit)]
      && e.log == s.log + [Returned(w, k)]
  {
    PopAlone(s, i);
    var s1 := P.Exec(s, PopSteps(i));
    WorkAlone(s1, i, s.queue[0], w, k);
    var s2 := P.Exec(s1, WorkSteps(w, k, i));
    GiveBack(s2, i, s.queue[0], Leaks(w, k), Returned(w, k));
    var s3 := P.Exec(s2, BackSteps(Leaks(w, k), i));
    PhasesAddUp(s, s1, s2, s3, i, ModeAfter(k, s1.modes[s.queue[0]]), Leaks(w, k), Returned(w, k));
    Three(s, PopSteps(i), WorkSteps(w, k, i), BackSteps(Leaks(w, k), i));
  }

  /** A call alone: it logs the value it returns, and queue and modes come out as the call leaves the
      idle connections. */
  lemma CallAlone(s: P.State, w: World, k: Call, i: nat)
    requires P.Inv(s) && Matches(s, w) && Ready(w, k) && i < |s.clients|
    ensures P.Executable(s, CallSteps(w, k, i))
    ensures var e := P.Exec(s, CallSteps(w, k, i));
      P.Inv(e) && Matches(e, Perform(w, k)) && e.log == s.log + [Returned(w, k)] && |e.clients| == |s.clients|
  {
    AtRest(s, w);
    CallRun(s, w, k, i);
    P.RunKeeps(s, CallSteps(w, k, i));
    StillMatches(s, P.Exec(s, CallSteps(w, k, i)), w, k);
  }

  // ----- serial runs -----

  ghost function Results(w: World, ks: seq<Call>): seq<P.Outcome>
    requires Performable(w, ks)
    decreases |ks|
  {
    if ks == [] then [] else [Returned(w, ks[0])] + Results(Perform(w, ks[0]), ks[1..])
  }

  ghost function RunSteps(w: World, ks: seq<Call>, i: nat): seq<P.Step>
    requires Performable(w, ks)
    decreases |ks|
  {
    if ks == [] then [] else CallSteps(w, ks[0], i) + RunSteps(Perform(w, ks[0]), ks[1..], i)
  }

  lemma {:induction false} SerialRun(s: P.State, w: World, ks: seq<Call>, i: nat)
    requires P.Inv(s) && Matches(s, w) && Performable(w, ks) && i < |s.clients|
    ensures P.Executable(s, RunSteps(w, ks, i))
    ensures var e := P.Exec(s, RunSteps(w, ks, i));
      Matches(e, PerformAll(w, ks)) && e.log == s.log + Results(w, ks)
    decreases |ks|
  {
    if ks == [] {
      assert s.log + Results(w, ks) == s.log;
    } else {
      var first, rest := CallSteps(w, ks[0], i), RunSteps(Perform(w, ks[0]), ks[1..], i);
      CallAlone(s, w, ks[0], i);
      SerialRun(P.Exec(s, first), Perform(w, ks[0]), ks[1..], i);
      ExecAppend(s, first, rest);
      Regroup(s.log, Returned(w, ks[0]), Results(Perform(w, ks[0]), ks[1..]));
    }
  }

  lemma Regroup(log: seq<P.Outcome>, o: P.Outcome, more: seq<P.Outcome>)
    ensures (log + [o]) + more == log + ([o] + more)
  {
  }

  /** Every serial run of room services from forty clean connections is a run of the connection pool,
      by any of its clients: the same values returned in the same order, the same number of idle
      connections in the queue, each in the same mode. */
  lemma ServicesAreRuns(n: nat, i: nat, w: World, ks: seq<Call>)
    requires i < n && AllClean(w.pool) && |w.pool| == P.MAX_POOL_SIZE && Performable(w, ks)
    ensures exists e :: P.Reachable(n, e) && Matches(e, PerformAll(w, ks)) && e.log == Results(w, ks)
  {
    var s := P.Start(n);
    P.StartHolds(n);
    forall p | 0 <= p < |w.pool| ensures s.queue[p] in s.modes && s.modes[s.queue[p]] == w.pool[p].autocommit {
      assert s.queue[p] == p;
    }
    SerialRun(s, w, ks, i);
    var e := P.Exec(s, RunSteps(w, ks, i));
    assert [] + Results(w, ks) == Results(w, ks);
    assert P.Reachable(n, e);
  }
}
