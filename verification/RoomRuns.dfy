/** Properties of whole serial runs of the room services. */
module RoomRuns {
  import opened Bytes
  import opened Options
  import opened RoomTables
  import opened RoomSpec
  import opened RoomTheorems

  datatype Call =
    | Create(name: seq<Byte>, password: seq<Byte>, ok: bool)
    | Enter(user: int, room: int, password: seq<Byte>, entry: EntryOutcome)
    | Exit(user: int, room: int, exit: ExitOutcome)
    | Say(room: int, user: int, text: seq<Byte>, ok: bool)

  /** A call can start when a connection is idle; strcpy_s needs the texts to fit their buffers. */
  ghost predicate Ready(w: World, k: Call) {
    w.pool != [] && (k.Create? ==> |CStr(k.name)| < NAME_LENGTH && |CStr(k.password)| < NAME_LENGTH)
  }

  function Perform(w: World, k: Call): World
    requires Ready(w, k)
  {
    match k
    case Create(name, password, ok) => CreateChattingRoom(w, name, password, ok).0
    case Enter(user, room, password, e) => PasswordCompare(w, user, room, password, e).0
    case Exit(user, room, e) => ExitRoom(w, user, room, e).0
    case Say(room, user, text, ok) => SendMessage(w, room, user, text, ok).0
  }

  /** An entry that does not give its connection back. */
  predicate Leaks(w: World, k: Call)
    requires w.pool != []
  {
    k.Enter? && k.entry.findOk && k.entry.commitOk
    && (!k.entry.fetchOk || Passwordless(Seen(w.tables, w.pool[0]), k.room))
  }

  ghost predicate Performable(w: World, ks: seq<Call>)
    decreases |ks|
  {
    ks == [] || (Ready(w, ks[0]) && Performable(Perform(w, ks[0]), ks[1..]))
  }

  ghost function PerformAll(w: World, ks: seq<Call>): World
    requires Performable(w, ks)
    decreases |ks|
  {
    if ks == [] then w else PerformAll(Perform(w, ks[0]), ks[1..])
  }

  /** Calls that pass Transaction_End. */
  predicate Ends(k: Call) {
    k.Enter? || (k.Exit? && k.exit.countOk)
  }

  predicate CommitOk(k: Call)
    requires Ends(k)
  {
    if k.Enter? then k.entry.commitOk else k.exit.commitOk
  }

  /** The statements such a call adds to its transaction. */
  function Statements(w: World, k: Call): seq<Op>
    requires w.pool != [] && Ends(k)
  {
    match k
    case Enter(user, room, password, e) =>
      var seen := PasswordSeen(w, room, e);
      if e.findOk && (seen == [] || password == seen) && e.insertOk then [InsertMember(room, user)] else []
    case Exit(user, room, e) =>
      (if CountMembers(Seen(w.tables, w.pool[0]), room) == 1 && e.destroyOk then [DeleteRoom(room)] else [])
      + (if e.deleteOk then [DeleteMember(room, user)] else [])
    case _ => []
  }

  /** What Transaction_End does with everything the connection had pending: all of it is committed, or
      all of it is dropped; and the connection goes back clean, if it goes back. */
  lemma EndedTransaction(w: World, k: Call)
    requires Ready(w, k) && Ends(k)
    ensures var w' := Perform(w, k);
      && w'.tables == (if CommitOk(k) then ApplyAll(w.tables, w.pool[0].pending + Statements(w, k)) else w.tables)
      && w'.pool == w.pool[1..] + (if Leaks(w, k) then [] else [CLEAN])
      && w'.nextId == w.nextId
  {
    var pending := w.pool[0].pending;
    ReadsEmpty(Seen(w.tables, w.pool[0]), k.room);
    assert pending + [] == pending;
    match k {
      case Enter(user, room, password, e) =>
      case Exit(user, room, e) =>
        assert pending + ([DeleteRoom(room)] + [DeleteMember(room, user)])
          == (pending + [DeleteRoom(room)]) + [DeleteMember(room, user)];
        assert pending + ([] + [DeleteMember(room, user)]) == pending + [DeleteMember(room, user)];
        assert pending + ([DeleteRoom(room)] + []) == pending + [DeleteRoom(room)];
        assert pending + ([] + []) == pending;
    }
  }

  /** The one statement of a create or a message. */
  ghost function Statement(w: World, k: Call): Op
    requires Ready(w, k) && (k.Create? || k.Say?)
  {
    if k.Create? then InsertRoom(w.nextId, StoredRoom(k.name, k.password)) else InsertMessage(k.room, k.user, k.text)
  }

  /** A call that does not pass Transaction_End runs its statement at once or leaves it pending. */
  lemma OpenTransaction(w: World, k: Call)
    requires Ready(w, k) && !Ends(k)
    ensures var w', c := Perform(w, k), w.pool[0];
      if k.Exit? then w' == w.(pool := w.pool[1..] + [c.(autocommit := false)])
      else
        && w'.tables == (if k.ok && c.autocommit then ApplyOp(w.tables, Statement(w, k)) else w.tables)
        && w'.pool == w.pool[1..] + [if k.ok && !c.autocommit then c.(pending := c.pending + [Statement(w, k)]) else c]
        && w'.nextId == (if k.Create? && k.ok then w.nextId + 1 else w.nextId)
  {
  }

  // ----- connections -----

  ghost function LeakCount(w: World, ks: seq<Call>): nat
    requires Performable(w, ks)
    decreases |ks|
  {
    if ks == [] then 0 else (if Leaks(w, ks[0]) then 1 else 0) + LeakCount(Perform(w, ks[0]), ks[1..])
  }

  ghost predicate CountsSucceed(ks: seq<Call>) {
    forall i :: 0 <= i < |ks| && ks[i].Exit? ==> ks[i].exit.countOk
  }

  lemma PoolAfter(w: World, k: Call)
    requires Ready(w, k)
    ensures |Perform(w, k).pool| + (if Leaks(w, k) then 1 else 0) == |w.pool|
    ensures AllClean(w.pool) && (k.Exit? ==> k.exit.countOk) ==> AllClean(Perform(w, k).pool)
  {
    if Ends(k) {
      EndedTransaction(w, k);
    } else {
      OpenTransaction(w, k);
    }
  }

  /** Over any serial run the idle connections and the successful empty-password entries add up to
      the connections there were, and if no count failed every idle connection is clean. */
  lemma {:induction false} PoolOverRun(w: World, ks: seq<Call>)
    requires Performable(w, ks)
    ensures |PerformAll(w, ks).pool| + LeakCount(w, ks) == |w.pool|
    ensures AllClean(w.pool) && CountsSucceed(ks) ==> AllClean(PerformAll(w, ks).pool)
    decreases |ks|
  {
    if ks != [] {
      PoolAfter(w, ks[0]);
      PoolOverRun(Perform(w, ks[0]), ks[1..]);
      if CountsSucceed(ks) {
        assert CountsSucceed(ks[1..]) by {
          forall i | 0 <= i < |ks[1..]| && ks[1..][i].Exit? ensures ks[1..][i].exit.countOk {
            assert ks[1..][i] == ks[i + 1];
          }
        }
      }
    }
  }

  // ----- what a transaction left open does to a later create -----

  /** The idle connections by number, after a call and after a run. */
  ghost function NextIds(ids: seq<nat>, w: World, k: Call): seq<nat>
    requires Ready(w, k) && |ids| == |w.pool|
  {
    ids[1..] + if Leaks(w, k) then [] else [ids[0]]
  }

  ghost function IdsAfter(ids: seq<nat>, w: World, ks: seq<Call>): (r: seq<nat>)
    requires Performable(w, ks) && |ids| == |w.pool|
    ensures |r| == |PerformAll(w, ks).pool|
    decreases |ks|
  {
    if ks == [] then ids
    else
      PoolAfter(w, ks[0]);
      IdsAfter(NextIds(ids, w, ks[0]), Perform(w, ks[0]), ks[1..])
  }

  /** The connection each call of a run works on. */
  ghost function Used(ids: seq<nat>, w: World, ks: seq<Call>): (r: seq<nat>)
    requires Performable(w, ks) && |ids| == |w.pool|
    ensures |r| == |ks|
    decreases |ks|
  {
    if ks == [] then []
    else
      PoolAfter(w, ks[0]);
      [ids[0]] + Used(NextIds(ids, w, ks[0]), Perform(w, ks[0]), ks[1..])
  }

  /** Call j is an exit on c whose count failed, and c has not passed Transaction_End since. */
  ghost predicate LeftOpenAt(used: seq<nat>, ks: seq<Call>, c: nat, j: int)
    requires |used| == |ks|
  {
    && 0 <= j < |ks| && used[j] == c && ks[j].Exit? && !ks[j].exit.countOk
    && forall m :: j < m < |ks| && used[m] == c ==> !Ends(ks[m])
  }

  ghost predicate NeverEnds(used: seq<nat>, ks: seq<Call>, c: nat)
    requires |used| == |ks|
  {
    forall m :: 0 <= m < |ks| && used[m] == c ==> !Ends(ks[m])
  }

  /** Whether connection c has autocommit off after a run, from whether it had it off before. */
  predicate OffAfter(used: seq<nat>, ks: seq<Call>, c: nat, off: bool)
    requires |used| == |ks|
    decreases |ks|
  {
    if ks == [] then off else OffAfter(used[1..], ks[1..], c, if used[0] == c then OffNext(ks[0], off) else off)
  }

  predicate OffNext(k: Call, off: bool) {
    if Ends(k) then false else off || k.Exit?
  }

  lemma {:induction false} OffExactly(used: seq<nat>, ks: seq<Call>, c: nat, off: bool)
    requires |used| == |ks|
    ensures OffAfter(used, ks, c, off) <==> (exists j :: LeftOpenAt(used, ks, c, j)) || (off && NeverEnds(used, ks, c))
    decreases |ks|
  {
    if ks != [] {
      var us, ls := used[1..], ks[1..];
      OffExactly(us, ls, c, if used[0] == c then OffNext(ks[0], off) else off);
      forall j | LeftOpenAt(us, ls, c, j) ensures LeftOpenAt(used, ks, c, j + 1) {
        LaterOpen(used, ks, c, j + 1);
      }
      forall j | LeftOpenAt(used, ks, c, j) && j > 0 ensures LeftOpenAt(us, ls, c, j - 1) {
        LaterOpen(used, ks, c, j);
      }
      FirstOpen(used, ks, c);
    }
  }

  lemma LaterOpen(used: seq<nat>, ks: seq<Call>, c: nat, j: int)
    requires |used| == |ks| && j > 0 && ks != []
    ensures LeftOpenAt(used, ks, c, j) <==> LeftOpenAt(used[1..], ks[1..], c, j - 1)
  {
    var us, ls := used[1..], ks[1..];
    assert forall m :: 0 <= m < |ls| ==> us[m] == used[m + 1] && ls[m] == ks[m + 1];
    if LeftOpenAt(us, ls, c, j - 1) {
      forall m | j < m < |ks| && used[m] == c ensures !Ends(ks[m]) {
        assert us[m - 1] == c && ls[m - 1] == ks[m];
      }
    }
  }

  lemma FirstOpen(used: seq<nat>, ks: seq<Call>, c: nat)
    requires |used| == |ks| && ks != []
    ensures LeftOpenAt(used, ks, c, 0) <==>
      used[0] == c && ks[0].Exit? && !ks[0].exit.countOk && NeverEnds(used[1..], ks[1..], c)
    ensures NeverEnds(used, ks, c) <==> (used[0] == c ==> !Ends(ks[0])) && NeverEnds(used[1..], ks[1..], c)
  {
    var us, ls := used[1..], ks[1..];
    assert forall m :: 0 <= m < |ls| ==> us[m] == used[m + 1] && ls[m] == ks[m + 1];
    if NeverEnds(us, ls, c) {
      forall m | 0 < m < |ks| && used[m] == c ensures !Ends(ks[m]) {
        assert us[m - 1] == c && ls[m - 1] == ks[m];
      }
    }
  }

  /** Different connections have different numbers, and `off` are those with autocommit off. */
  ghost predicate Numbered(ids: seq<nat>, w: World, off: set<nat>) {
    && |ids| == |w.pool|
    && (forall p, q :: 0 <= p < q < |ids| ==> ids[p] != ids[q])
    && forall p :: 0 <= p < |ids| ==> (ids[p] in off <==> !w.pool[p].autocommit)
  }

  function NextOff(off: set<nat>, c: nat, k: Call): set<nat> {
    if OffNext(k, c in off) then off + {c} else off - {c}
  }

  lemma NumberedAfter(ids: seq<nat>, w: World, off: set<nat>, k: Call)
    requires Numbered(ids, w, off) && Ready(w, k)
    ensures Numbered(NextIds(ids, w, k), Perform(w, k), NextOff(off, ids[0], k))
  {
    if Ends(k) {
      EndedTransaction(w, k);
    } else {
      OpenTransaction(w, k);
    }
  }

  lemma RunFirst(ids: seq<nat>, w: World, ks: seq<Call>)
    requires Performable(w, ks) && |ids| == |w.pool| && ks != []
    ensures var w', ids' := Perform(w, ks[0]), NextIds(ids, w, ks[0]);
      && |ids'| == |w'.pool|
      && IdsAfter(ids, w, ks) == IdsAfter(ids', w', ks[1..]) && PerformAll(w, ks) == PerformAll(w', ks[1..])
      && Used(ids, w, ks)[0] == ids[0] && Used(ids, w, ks)[1..] == Used(ids', w', ks[1..])
  {
    PoolAfter(w, ks[0]);
  }

  lemma {:induction false} NumberedRun(ids: seq<nat>, w: World, off: set<nat>, ks: seq<Call>)
    requires Numbered(ids, w, off) && Performable(w, ks)
    ensures var r, e, used := IdsAfter(ids, w, ks), PerformAll(w, ks), Used(ids, w, ks);
      forall p :: 0 <= p < |r| ==> (e.pool[p].autocommit <==> !OffAfter(used, ks, r[p], r[p] in off))
    decreases |ks|
  {
    var r, e, used := IdsAfter(ids, w, ks), PerformAll(w, ks), Used(ids, w, ks);
    if ks != [] {
      var c, w', ids', off' := ids[0], Perform(w, ks[0]), NextIds(ids, w, ks[0]), NextOff(off, ids[0], ks[0]);
      PoolAfter(w, ks[0]);
      NumberedAfter(ids, w, off, ks[0]);
      NumberedRun(ids', w', off', ks[1..]);
      RunFirst(ids, w, ks);
      forall p | 0 <= p < |r| ensures e.pool[p].autocommit <==> !OffAfter(used, ks, r[p], r[p] in off) {
        assert e.pool[p].autocommit <==> !OffAfter(used[1..], ks[1..], r[p], r[p] in off');
      }
    }
  }

  ghost function Numbers(n: nat): (r: seq<nat>)
    ensures |r| == n && forall p :: 0 <= p < n ==> r[p] == p
  {
    seq(n, (p: nat) => p)
  }

  /** From a clean pool: an idle connection has autocommit off exactly if a count failed on it and it has
      not passed Transaction_End since. */
  lemma IdleModeExactly(w: World, ks: seq<Call>, p: nat)
    requires AllClean(w.pool) && Performable(w, ks) && p < |PerformAll(w, ks).pool|
    ensures var ids := Numbers(|w.pool|);
      PerformAll(w, ks).pool[p].autocommit
      <==> !exists j :: LeftOpenAt(Used(ids, w, ks), ks, IdsAfter(ids, w, ks)[p], j)
  {
    var ids := Numbers(|w.pool|);
    assert Numbered(ids, w, {});
    NumberedRun(ids, w, {}, ks);
    OffExactly(Used(ids, w, ks), ks, IdsAfter(ids, w, ks)[p], false);
  }

  // ----- ids -----

  /** Some statement of the list makes room id. */
  ghost predicate Makes(ops: seq<Op>, id: int) {
    exists i :: 0 <= i < |ops| && ops[i].InsertRoom? && ops[i].id == id
  }

  ghost predicate Deletes(ops: seq<Op>, id: int) {
    exists i :: 0 <= i < |ops| && ops[i] == DeleteRoom(id)
  }

  lemma MakesMore(ops: seq<Op>, op: Op, id: int)
    ensures Makes(ops + [op], id) <==> Makes(ops, id) || (op.InsertRoom? && op.id == id)
    ensures Deletes(ops + [op], id) <==> Deletes(ops, id) || op == DeleteRoom(id)
  {
    var more := ops + [op];
    assert more[|ops|] == op;
    if Makes(ops, id) {
      var i :| 0 <= i < |ops| && ops[i].InsertRoom? && ops[i].id == id;
      assert more[i] == ops[i];
    }
    if Deletes(ops, id) {
      var i :| 0 <= i < |ops| && ops[i] == DeleteRoom(id);
      assert more[i] == ops[i];
    }
  }

  /** Ids from nextId on are unused, in the tables and on every connection. */
  ghost predicate Fresh(w: World) {
    && (forall id :: id in w.tables.rooms ==> id < w.nextId)
    && forall p, id :: 0 <= p < |w.pool| && Makes(w.pool[p].pending, id) ==> id < w.nextId
  }

  lemma {:induction false} RoomsAfterAll(t: Tables, ops: seq<Op>, id: int)
    ensures id in ApplyAll(t, ops).rooms ==> id in t.rooms || Makes(ops, id)
    decreases |ops|
  {
    if ops != [] {
      RoomsAfterAll(ApplyOp(t, ops[0]), ops[1..], id);
      if Makes(ops[1..], id) {
        var i :| 0 <= i < |ops[1..]| && ops[1..][i].InsertRoom? && ops[1..][i].id == id;
        assert ops[i + 1] == ops[1..][i];
      }
    }
  }

  lemma StatementsMakeNone(w: World, k: Call, id: int)
    requires Ready(w, k) && Ends(k)
    ensures Makes(w.pool[0].pending + Statements(w, k), id) ==> Makes(w.pool[0].pending, id)
  {
  }

  lemma FreshAfter(w: World, k: Call)
    requires Fresh(w) && Ready(w, k)
    ensures Fresh(Perform(w, k))
  {
    var w' := Perform(w, k);
    if Ends(k) {
      EndedTransaction(w, k);
      forall id | id in w'.tables.rooms ensures id < w'.nextId {
        RoomsAfterAll(w.tables, w.pool[0].pending + Statements(w, k), id);
        StatementsMakeNone(w, k, id);
      }
      assert !exists id :: Makes(CLEAN.pending, id);
    } else {
      OpenTransaction(w, k);
      if !k.Exit? {
        forall id {
          MakesMore(w.pool[0].pending, Statement(w, k), id);
        }
      }
    }
  }

  lemma {:induction false} FreshRun(w: World, ks: seq<Call>)
    requires Fresh(w) && Performable(w, ks)
    ensures Fresh(PerformAll(w, ks)) && PerformAll(w, ks).nextId >= w.nextId
    decreases |ks|
  {
    if ks != [] {
      FreshAfter(w, ks[0]);
      NextIdGrows(w, ks[0]);
      FreshRun(Perform(w, ks[0]), ks[1..]);
    }
  }

  lemma NextIdGrows(w: World, k: Call)
    requires Ready(w, k)
    ensures Perform(w, k).nextId >= w.nextId
  {
  }

  /** After any serial run from a clean pool, a create that reports success is uncommitted exactly if
      the connection it pops comes from an earlier exit whose count failed and has not passed
      Transaction_End since. */
  lemma CreateUncommittedExactly(w: World, ks: seq<Call>, name: seq<Byte>, password: seq<Byte>)
    requires AllClean(w.pool) && Fresh(w) && Performable(w, ks) && PerformAll(w, ks).pool != []
    requires |CStr(name)| < NAME_LENGTH && |CStr(password)| < NAME_LENGTH
    ensures var w1, ids := PerformAll(w, ks), Numbers(|w.pool|);
      var (w2, r) := CreateChattingRoom(w1, name, password, true);
      r && (w1.nextId !in w2.tables.rooms
            <==> exists j :: LeftOpenAt(Used(ids, w, ks), ks, IdsAfter(ids, w, ks)[0], j))
  {
    FreshRun(w, ks);
    IdleModeExactly(w, ks, 0);
  }

  /** Such a create is always within reach: exits whose count fails, one for each connection. */
  lemma {:induction false} TaintedPool(w: World, n: nat) returns (ks: seq<Call>)
    requires n <= |w.pool| && AllClean(w.pool)
    ensures Performable(w, ks)
    ensures PerformAll(w, ks) == w.(pool := w.pool[n..] + seq(n, _ => Connection(false, [])))
  {
    if n == 0 {
      ks := [];
      assert w.pool[0..] + seq(0, _ => Connection(false, [])) == w.pool;
    } else {
      var before := TaintedPool(w, n - 1);
      var k := Exit(0, 0, ExitOutcome(false, false, false, false));
      var w1 := PerformAll(w, before);
      assert w1.pool[0] == w.pool[n - 1] == CLEAN;
      OpenTransaction(w1, k);
      PerformSnoc(w, before, k);
      ks := before + [k];
      assert w1.pool[1..] + [Connection(false, [])] == w.pool[n..] + seq(n, _ => Connection(false, []));
    }
  }

  lemma {:induction false} PerformSnoc(w: World, ks: seq<Call>, k: Call)
    requires Performable(w, ks) && Ready(PerformAll(w, ks), k)
    ensures Performable(w, ks + [k]) && PerformAll(w, ks + [k]) == Perform(PerformAll(w, ks), k)
    decreases |ks|
  {
    if ks == [] {
      assert [] + [k] == [k] && [k][1..] == [];
    } else {
      assert (ks + [k])[1..] == ks[1..] + [k];
      PerformSnoc(Perform(w, ks[0]), ks[1..], k);
    }
  }

  lemma UncommittedCreateReachable(w: World, name: seq<Byte>, password: seq<Byte>) returns (ks: seq<Call>)
    requires w.pool != [] && AllClean(w.pool) && Fresh(w)
    requires |CStr(name)| < NAME_LENGTH && |CStr(password)| < NAME_LENGTH
    ensures Performable(w, ks) && PerformAll(w, ks).pool != []
    ensures var w1 := PerformAll(w, ks);
      var (w2, r) := CreateChattingRoom(w1, name, password, true);
      r && w1.nextId !in w2.tables.rooms
  {
    ks := TaintedPool(w, |w.pool|);
    FreshRun(w, ks);
  }

  // ----- what becomes of the pending room -----

  /** Room id is pending on connection c and nowhere else. */
  ghost predicate PendingOn(ids: seq<nat>, w: World, c: nat, id: int) {
    && |ids| == |w.pool| && id < w.nextId && id !in w.tables.rooms && c in ids
    && forall p :: 0 <= p < |ids| ==>
         if ids[p] == c then !w.pool[p].autocommit && Makes(w.pool[p].pending, id) && !Deletes(w.pool[p].pending, id)
         else !Makes(w.pool[p].pending, id)
  }

  /** Room id is nowhere, and its id will not be given again. */
  ghost predicate Gone(w: World, id: int) {
    && id < w.nextId && id !in w.tables.rooms
    && forall p :: 0 <= p < |w.pool| ==> !Makes(w.pool[p].pending, id)
  }

  /** A call on another connection, or one that leaves the transaction open, leaves the room pending. */
  lemma PendingStays(ids: seq<nat>, w: World, c: nat, id: int, k: Call)
    requires PendingOn(ids, w, c, id) && Ready(w, k) && (ids[0] == c ==> !Ends(k))
    ensures PendingOn(NextIds(ids, w, k), Perform(w, k), c, id)
  {
    var w', ids' := Perform(w, k), NextIds(ids, w, k);
    if Ends(k) {
      EndedTransaction(w, k);
      RoomsAfterAll(w.tables, w.pool[0].pending + Statements(w, k), id);
      StatementsMakeNone(w, k, id);
      var q :| 0 <= q < |ids| && ids[q] == c;
      assert ids'[q - 1] == c;
    } else {
      OpenTransaction(w, k);
      if !k.Exit? {
        MakesMore(w.pool[0].pending, Statement(w, k), id);
      }
      var q :| 0 <= q < |ids| && ids[q] == c;
      assert ids'[if q == 0 then |ids| - 1 else q - 1] == c;
    }
  }

  lemma {:induction false} PendingRun(ids: seq<nat>, w: World, c: nat, id: int, ks: seq<Call>)
    requires PendingOn(ids, w, c, id) && Performable(w, ks) && NeverEnds(Used(ids, w, ks), ks, c)
    ensures PendingOn(IdsAfter(ids, w, ks), PerformAll(w, ks), c, id)
    decreases |ks|
  {
    if ks != [] {
      var used := Used(ids, w, ks);
      FirstOpen(used, ks, c);
      RunFirst(ids, w, ks);
      PendingStays(ids, w, c, id, ks[0]);
      PendingRun(NextIds(ids, w, ks[0]), Perform(w, ks[0]), c, id, ks[1..]);
    }
  }

  lemma {:induction false} MadeIsThere(t: Tables, ops: seq<Op>, id: int)
    requires (id in t.rooms || Makes(ops, id)) && !Deletes(ops, id)
    ensures id in ApplyAll(t, ops).rooms
    decreases |ops|
  {
    if ops != [] {
      var rest := ops[1..];
      assert forall i :: 0 <= i < |rest| ==> rest[i] == ops[i + 1];
      assert ops[0] != DeleteRoom(id);
      if id !in ApplyOp(t, ops[0]).rooms {
        var i :| 0 <= i < |ops| && ops[i].InsertRoom? && ops[i].id == id;
        assert rest[i - 1] == ops[i];
      }
      MadeIsThere(ApplyOp(t, ops[0]), rest, id);
    }
  }

  /** The next Transaction_End on that connection settles it: a commit makes the room visible, unless the
      same call deletes it; a failed commit drops it. */
  lemma PendingSettled(ids: seq<nat>, w: World, c: nat, id: int, k: Call)
    requires PendingOn(ids, w, c, id) && Ready(w, k) && ids[0] == c && Ends(k)
    requires forall p :: 0 < p < |ids| ==> ids[p] != c
    ensures CommitOk(k) ==> (id in Perform(w, k).tables.rooms <==> !Deletes(Statements(w, k), id))
    ensures !CommitOk(k) ==> Gone(Perform(w, k), id)
  {
    var pending, more := w.pool[0].pending, Statements(w, k);
    EndedTransaction(w, k);
    SplitApply(w.tables, pending, more);
    MadeIsThere(w.tables, pending, id);
    var t := ApplyAll(w.tables, pending);
    if Deletes(more, id) {
      assert k.Exit? && more[0] == DeleteRoom(id);
      StaysDeleted(t, more, id);
    } else {
      MadeIsThere(t, more, id);
    }
    assert !Makes(CLEAN.pending, id);
  }

  lemma StaysDeleted(t: Tables, ops: seq<Op>, id: int)
    requires ops != [] && ops[0] == DeleteRoom(id) && |ops| <= 2 && (|ops| == 2 ==> ops[1].DeleteMember?)
    ensures id !in ApplyAll(t, ops).rooms
  {
    var u := ApplyOp(t, ops[0]);
    assert id !in u.rooms;
    if |ops| == 2 {
      assert ops[1..][1..] == [];
      assert ApplyAll(u, ops[1..]) == ApplyOp(u, ops[1]);
    }
  }

  lemma {:induction false} SplitApply(t: Tables, a: seq<Op>, b: seq<Op>)
    ensures ApplyAll(t, a + b) == ApplyAll(ApplyAll(t, a), b)
    decreases |a|
  {
    if a == [] {
      assert a + b == b;
    } else {
      assert (a + b)[1..] == a[1..] + b;
      SplitApply(ApplyOp(t, a[0]), a[1..], b);
    }
  }

  lemma GoneAfter(w: World, id: int, k: Call)
    requires Gone(w, id) && Ready(w, k)
    ensures Gone(Perform(w, k), id)
  {
    if Ends(k) {
      EndedTransaction(w, k);
      RoomsAfterAll(w.tables, w.pool[0].pending + Statements(w, k), id);
      StatementsMakeNone(w, k, id);
      assert !Makes(CLEAN.pending, id);
    } else {
      OpenTransaction(w, k);
      if !k.Exit? {
        MakesMore(w.pool[0].pending, Statement(w, k), id);
      }
    }
  }

  lemma {:induction false} GoneForGood(w: World, id: int, ks: seq<Call>)
    requires Gone(w, id) && Performable(w, ks)
    ensures Gone(PerformAll(w, ks), id)
    decreases |ks|
  {
    if ks != [] {
      GoneAfter(w, id, ks[0]);
      GoneForGood(Perform(w, ks[0]), id, ks[1..]);
    }
  }

  ghost predicate Distinct(ids: seq<nat>) {
    forall p, q :: 0 <= p < q < |ids| ==> ids[p] != ids[q]
  }

  lemma {:induction false} DistinctRun(ids: seq<nat>, w: World, ks: seq<Call>)
    requires Distinct(ids) && |ids| == |w.pool| && Performable(w, ks)
    ensures Distinct(IdsAfter(ids, w, ks))
    decreases |ks|
  {
    if ks != [] {
      RunFirst(ids, w, ks);
      DistinctRun(NextIds(ids, w, ks[0]), Perform(w, ks[0]), ks[1..]);
    }
  }

  /** Rooms and messages only. */
  ghost predicate Inserts(ops: seq<Op>) {
    forall i :: 0 <= i < |ops| ==> ops[i].InsertRoom? || ops[i].InsertMessage?
  }

  /** Between calls nothing else is ever pending. */
  ghost predicate OnlyInserts(w: World) {
    forall p :: 0 <= p < |w.pool| ==> Inserts(w.pool[p].pending)
  }

  lemma {:induction false} OnlyInsertsRun(w: World, ks: seq<Call>)
    requires OnlyInserts(w) && Performable(w, ks)
    ensures OnlyInserts(PerformAll(w, ks))
    decreases |ks|
  {
    if ks != [] {
      OnlyInsertsAfter(w, ks[0]);
      OnlyInsertsRun(Perform(w, ks[0]), ks[1..]);
    }
  }

  lemma OnlyInsertsAfter(w: World, k: Call)
    requires OnlyInserts(w) && Ready(w, k)
    ensures OnlyInserts(Perform(w, k))
  {
    if Ends(k) {
      EndedTransaction(w, k);
    } else {
      OpenTransaction(w, k);
    }
  }

  /** A create on a connection with autocommit off leaves its room pending there. */
  lemma CreatePends(ids: seq<nat>, w: World, name: seq<Byte>, password: seq<Byte>)
    requires |ids| == |w.pool| && w.pool != [] && Fresh(w) && OnlyInserts(w) && Distinct(ids) && !w.pool[0].autocommit
    requires |CStr(name)| < NAME_LENGTH && |CStr(password)| < NAME_LENGTH
    ensures var k := Create(name, password, true);
      PendingOn(NextIds(ids, w, k), Perform(w, k), ids[0], w.nextId)
  {
    var k := Create(name, password, true);
    OpenTransaction(w, k);
    MakesMore(w.pool[0].pending, InsertRoom(w.nextId, StoredRoom(name, password)), w.nextId);
    var r := NextIds(ids, w, k);
    assert r[|r| - 1] == ids[0];
  }

  /** ... and in any serial run from a clean pool this is what a create on such a connection does. */
  lemma UncommittedCreate(w0: World, ks: seq<Call>, name: seq<Byte>, password: seq<Byte>)
    requires AllClean(w0.pool) && Fresh(w0) && Performable(w0, ks)
    requires |CStr(name)| < NAME_LENGTH && |CStr(password)| < NAME_LENGTH
    requires PerformAll(w0, ks).pool != [] && !PerformAll(w0, ks).pool[0].autocommit
    ensures var w, ids, k := PerformAll(w0, ks), IdsAfter(Numbers(|w0.pool|), w0, ks), Create(name, password, true);
      PendingOn(NextIds(ids, w, k), Perform(w, k), ids[0], w.nextId) && Distinct(NextIds(ids, w, k))
  {
    FreshRun(w0, ks);
    OnlyInsertsRun(w0, ks);
    DistinctRun(Numbers(|w0.pool|), w0, ks);
    CreatePends(IdsAfter(Numbers(|w0.pool|), w0, ks), PerformAll(w0, ks), name, password);
  }

  /** What becomes of the room: it stays uncommitted while its connection does not pass Transaction_End;
      the next call that does makes it visible if the commit succeeds (unless that call itself deletes
      the room), and drops it for good if not. */
  lemma UncommittedRoomFate(ids: seq<nat>, w: World, c: nat, id: int, ks: seq<Call>, k: Call)
    requires PendingOn(ids, w, c, id) && Distinct(ids) && Performable(w, ks) && NeverEnds(Used(ids, w, ks), ks, c)
    requires Ready(PerformAll(w, ks), k) && Ends(k) && IdsAfter(ids, w, ks)[0] == c
    ensures var e := PerformAll(w, ks);
      && id !in e.tables.rooms
      && (CommitOk(k) ==> (id in Perform(e, k).tables.rooms <==> !Deletes(Statements(e, k), id)))
      && (!CommitOk(k) ==> Gone(Perform(e, k), id))
  {
    PendingRun(ids, w, c, id, ks);
    DistinctRun(ids, w, ks);
    PendingSettled(IdsAfter(ids, w, ks), PerformAll(w, ks), c, id, k);
  }

  // ----- the password of a room -----

  /** Wherever room id is, committed or pending, it has the stored password p. */
  ghost predicate PasswordIs(w: World, id: int, p: Option<seq<Byte>>) {
    && id < w.nextId && InTables(w.tables, id, p)
    && forall i :: 0 <= i < |w.pool| ==> InOps(w.pool[i].pending, id, p)
  }

  ghost predicate InTables(t: Tables, id: int, p: Option<seq<Byte>>) {
    id in t.rooms ==> t.rooms[id].password == p
  }

  ghost predicate InOps(ops: seq<Op>, id: int, p: Option<seq<Byte>>) {
    forall i :: 0 <= i < |ops| && ops[i].InsertRoom? && ops[i].id == id ==> ops[i].row.password == p
  }

  lemma {:induction false} PasswordAfterAll(t: Tables, ops: seq<Op>, id: int, p: Option<seq<Byte>>)
    requires InTables(t, id, p) && InOps(ops, id, p)
    ensures InTables(ApplyAll(t, ops), id, p)
    decreases |ops|
  {
    if ops != [] {
      assert forall i :: 0 <= i < |ops[1..]| ==> ops[1..][i] == ops[i + 1];
      PasswordAfterAll(ApplyOp(t, ops[0]), ops[1..], id, p);
    }
  }

  lemma PasswordStays(w: World, id: int, p: Option<seq<Byte>>, k: Call)
    requires PasswordIs(w, id, p) && Ready(w, k)
    ensures PasswordIs(Perform(w, k), id, p)
  {
    if Ends(k) {
      EndedTransaction(w, k);
      assert InOps(w.pool[0].pending + Statements(w, k), id, p);
      PasswordAfterAll(w.tables, w.pool[0].pending + Statements(w, k), id, p);
    } else {
      OpenTransaction(w, k);
    }
  }

  lemma {:induction false} PasswordOverRun(w: World, id: int, p: Option<seq<Byte>>, ks: seq<Call>)
    requires PasswordIs(w, id, p) && Performable(w, ks)
    ensures PasswordIs(PerformAll(w, ks), id, p)
    decreases |ks|
  {
    if ks != [] {
      PasswordStays(w, id, p, ks[0]);
      PasswordOverRun(Perform(w, ks[0]), id, p, ks[1..]);
    }
  }

  /** Whatever happens after a room was made with a NUL-free password, failures included: as long as it
      exists, the room lets in exactly those who give that password, or anyone if it is empty. */
  lemma EntryNeedsThePassword(w: World, name: seq<Byte>, secret: seq<Byte>, ks: seq<Call>,
                              user: int, password: seq<Byte>, e: EntryOutcome)
    requires w.pool != [] && Fresh(w) && |CStr(name)| < NAME_LENGTH
    requires 0 !in secret && |secret| < NAME_LENGTH && |CStr(secret)| < NAME_LENGTH
    requires Performable(CreateChattingRoom(w, name, secret, true).0, ks)
    requires var w2 := PerformAll(CreateChattingRoom(w, name, secret, true).0, ks);
      w2.pool != [] && w.nextId in Seen(w2.tables, w2.pool[0]).rooms
    requires e.findOk && e.fetchOk && e.commitOk
    ensures var w2 := PerformAll(CreateChattingRoom(w, name, secret, true).0, ks);
      PasswordCompare(w2, user, w.nextId, password, e).1 <==> secret == [] || password == secret
  {
    var w1 := CreateChattingRoom(w, name, secret, true).0;
    var p := if secret == [] then None else Some(secret);
    NulFree(secret);
    MadeWithPassword(w, name, secret, p);
    PasswordOverRun(w1, w.nextId, p, ks);
    var w2 := PerformAll(w1, ks);
    PasswordAfterAll(w2.tables, w2.pool[0].pending, w.nextId, p);
    EntryWithPassword(w2, user, w.nextId, secret, password, e);
  }

  lemma MadeWithPassword(w: World, name: seq<Byte>, secret: seq<Byte>, p: Option<seq<Byte>>)
    requires w.pool != [] && Fresh(w) && |CStr(name)| < NAME_LENGTH && |CStr(secret)| < NAME_LENGTH
    requires StoredRoom(name, secret).password == p
    ensures PasswordIs(CreateChattingRoom(w, name, secret, true).0, w.nextId, p)
  {
    OpenTransaction(w, Create(name, secret, true));
    forall i, j | 0 <= i < |w.pool| && 0 <= j < |w.pool[i].pending| && w.pool[i].pending[j].InsertRoom?
      ensures w.pool[i].pending[j].id < w.nextId
    {
      assert Makes(w.pool[i].pending, w.pool[i].pending[j].id);
    }
  }
}
