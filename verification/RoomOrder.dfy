/** Rooms and their members over whole serial runs, whatever statements, fetches and commits fail. */
module RoomOrder {
  import opened RoomTables
  import opened RoomSpec
  import opened RoomTheorems
  import opened RoomRuns

  /** Only members leave, and members do not enter again. */
  ghost predicate Disciplined(w: World, k: Call) {
    match k
    case Enter(user, room, _, _) => Member(room, user) !in w.tables.members
    case Exit(user, room, _) => Member(room, user) in w.tables.members
    case _ => true
  }

  /** The one way for a disciplined call to break the order: the last member leaves, and of its statements
      only the deletion of the room fails. */
  ghost predicate KeepsOrder(w: World, k: Call) {
    k.Exit? ==>
      !(k.exit.countOk && CountMembers(w.tables, k.room) == 1
        && !k.exit.destroyOk && k.exit.deleteOk && k.exit.commitOk)
  }

  /** The rooms that have had a member row so far. */
  ghost function EnteredAfter(w: World, entered: set<int>): set<int> {
    entered + set m | m in w.tables.members :: m.room
  }

  ghost predicate NoRepeats(ms: seq<Member>) {
    forall i, j :: 0 <= i < j < |ms| ==> ms[i] != ms[j]
  }

  /** A room that was ever entered exists if and only if it has a member row. */
  ghost predicate Occupied(t: Tables, entered: set<int>) {
    forall r :: r in entered ==> (r in t.rooms <==> RowsOf(t.members, r) != [])
  }

  /** Foreign keys hold, ids are below nextId, no member row repeats, and entered rooms are occupied. */
  ghost predicate Order(t: Tables, entered: set<int>, nextId: int) {
    && (forall m :: m in t.members ==> m.room in t.rooms && m.room in entered)
    && (forall m :: m in t.messages ==> m.room in t.rooms)
    && (forall r :: r in t.rooms || r in entered ==> r < nextId)
    && NoRepeats(t.members)
    && Occupied(t, entered)
  }

  /** A room pending on a connection is new: nobody has entered it, and it is not in the tables. */
  ghost predicate Unmade(w: World, entered: set<int>) {
    forall p, id {:trigger Makes(w.pool[p].pending, id)} :: 0 <= p < |w.pool| && Makes(w.pool[p].pending, id) ==>
      id < w.nextId && id !in entered && id !in w.tables.rooms
  }

  ghost predicate MadeOnce(w: World) {
    forall p, q, id {:trigger Makes(w.pool[p].pending, id), Makes(w.pool[q].pending, id)} ::
      0 <= p < q < |w.pool| && Makes(w.pool[p].pending, id) ==> !Makes(w.pool[q].pending, id)
  }

  /** What connections may hold between calls, clean or not. */
  ghost predicate PendingOk(w: World, entered: set<int>) {
    OnlyInserts(w) && Unmade(w, entered) && MadeOnce(w)
  }

  ghost predicate InOrder(w: World, entered: set<int>) {
    Order(w.tables, entered, w.nextId) && PendingOk(w, entered)
  }

  // ----- rows -----

  lemma {:induction false} RowsNoRepeats(ms: seq<Member>, room: int)
    requires NoRepeats(ms)
    ensures NoRepeats(RowsOf(ms, room))
  {
    if ms != [] {
      var tail := RowsOf(ms[1..], room);
      assert forall i :: 0 <= i < |ms[1..]| ==> ms[1..][i] == ms[i + 1];
      RowsNoRepeats(ms[1..], room);
      if ms[0].room == room {
        HeadNotIn(ms);
        var r := [ms[0]] + tail;
        forall i, j | 0 <= i < j < |r| ensures r[i] != r[j] {
          if i == 0 {
            assert r[j] in tail;
          }
        }
      }
    }
  }

  lemma HeadNotIn(ms: seq<Member>)
    requires ms != [] && NoRepeats(ms)
    ensures ms[0] !in ms[1..]
  {
    forall i | 0 <= i < |ms[1..]| ensures ms[1..][i] != ms[0] {
      assert ms[1..][i] == ms[i + 1];
    }
  }

  lemma {:induction false} WithoutRoomNoRepeats(ms: seq<Member>, room: int)
    requires NoRepeats(ms)
    ensures NoRepeats(WithoutRoom(ms, room))
  {
    if ms != [] {
      var tail := WithoutRoom(ms[1..], room);
      assert forall i :: 0 <= i < |ms[1..]| ==> ms[1..][i] == ms[i + 1];
      WithoutRoomNoRepeats(ms[1..], room);
      HeadNotIn(ms);
      var r := [ms[0]] + tail;
      forall i, j | 0 <= i < j < |r| ensures r[i] != r[j] {
        if i == 0 {
          assert r[j] in tail;
        }
      }
    }
  }

  lemma {:induction false} WithoutMemberNoRepeats(ms: seq<Member>, row: Member)
    requires NoRepeats(ms)
    ensures NoRepeats(WithoutMember(ms, row))
  {
    if ms != [] {
      var tail := WithoutMember(ms[1..], row);
      assert forall i :: 0 <= i < |ms[1..]| ==> ms[1..][i] == ms[i + 1];
      WithoutMemberNoRepeats(ms[1..], row);
      HeadNotIn(ms);
      var r := [ms[0]] + tail;
      forall i, j | 0 <= i < j < |r| ensures r[i] != r[j] {
        if i == 0 {
          assert r[j] in tail;
        }
      }
    }
  }

  /** Without repeated rows, a room whose rows are all one user's has one row. */
  lemma SoleRow(ms: seq<Member>, row: Member)
    requires NoRepeats(ms) && row in ms && OnlyRowsOf(ms, row)
    ensures |RowsOf(ms, row.room)| == 1
  {
    var rows := RowsOf(ms, row.room);
    RowsNoRepeats(ms, row.room);
    assert row in rows;
    assert |rows| > 1 ==> rows[0] != rows[1];
    forall i | 0 <= i < |rows| ensures rows[i] == row {
      assert rows[i] in rows;
    }
  }

  /** Without repeated rows, the leaver is alone in the room exactly if the count is one. */
  lemma AloneExactly(ms: seq<Member>, row: Member)
    requires NoRepeats(ms) && row in ms
    ensures OnlyRowsOf(ms, row) <==> |RowsOf(ms, row.room)| == 1
  {
    var rows := RowsOf(ms, row.room);
    assert row in rows;
    if OnlyRowsOf(ms, row) {
      SoleRow(ms, row);
    }
    if |rows| == 1 {
      assert rows == [rows[0]] && rows[0] == row;
    }
  }

  // ----- committing what was pending -----

  lemma MakesFirst(ops: seq<Op>, id: int)
    requires ops != []
    ensures Makes(ops[1..], id) ==> Makes(ops, id)
    ensures ops[0].InsertRoom? ==> Makes(ops, ops[0].id)
  {
    if Makes(ops[1..], id) {
      var i :| 0 <= i < |ops[1..]| && ops[1..][i].InsertRoom? && ops[1..][i].id == id;
      assert ops[i + 1] == ops[1..][i];
    }
  }

  lemma InsertOrder(t: Tables, op: Op, entered: set<int>, n: int)
    requires Order(t, entered, n) && (op.InsertRoom? || op.InsertMessage?)
    requires op.InsertRoom? ==> op.id < n && op.id !in entered
    ensures Order(ApplyOp(t, op), entered, n) && ApplyOp(t, op).members == t.members
  {
  }

  /** Rooms and messages that were pending can be committed in any order of things. */
  lemma {:induction false} InsertsOrder(t: Tables, ops: seq<Op>, entered: set<int>, n: int)
    requires Order(t, entered, n) && Inserts(ops)
    requires forall id :: Makes(ops, id) ==> id < n && id !in entered
    ensures Order(ApplyAll(t, ops), entered, n) && ApplyAll(t, ops).members == t.members
    decreases |ops|
  {
    if ops != [] {
      MakesFirst(ops, 0);
      InsertOrder(t, ops[0], entered, n);
      forall id | Makes(ops[1..], id) ensures id < n && id !in entered {
        MakesFirst(ops, id);
      }
      assert Inserts(ops[1..]) by {
        assert forall i :: 0 <= i < |ops[1..]| ==> ops[1..][i] == ops[i + 1];
      }
      InsertsOrder(ApplyOp(t, ops[0]), ops[1..], entered, n);
    }
  }

  /** The tables a call that passes Transaction_End works on: what it finds, with its own connection's
      pending statements. */
  lemma Found(w: World, entered: set<int>, k: Call) returns (t: Tables)
    requires InOrder(w, entered) && Ready(w, k) && Ends(k)
    ensures t == Seen(w.tables, w.pool[0]) && t.members == w.tables.members && Order(t, entered, w.nextId)
    ensures CommitOk(k) ==> Perform(w, k).tables == ApplyAll(t, Statements(w, k))
    ensures !CommitOk(k) ==> Perform(w, k).tables == w.tables
    ensures Perform(w, k).nextId == w.nextId
  {
    t := Seen(w.tables, w.pool[0]);
    EndedTransaction(w, k);
    SplitApply(w.tables, w.pool[0].pending, Statements(w, k));
    forall id | Makes(w.pool[0].pending, id) ensures id < w.nextId && id !in entered {
    }
    InsertsOrder(w.tables, w.pool[0].pending, entered, w.nextId);
  }

  lemma SameEntered(t: Tables, entered: set<int>, w': World)
    requires forall m :: m in t.members ==> m.room in entered
    requires forall m :: m in w'.tables.members ==> m in t.members
    ensures EnteredAfter(w', entered) == entered
  {
    assert forall m :: m in w'.tables.members ==> m.room in entered;
    assert forall r :: r in EnteredAfter(w', entered) ==> r in entered;
  }

  /** The other connections' rooms are still new after a call that passes Transaction_End. */
  lemma EndedPending(w: World, entered: set<int>, k: Call)
    requires InOrder(w, entered) && Ready(w, k) && Ends(k)
    requires forall m :: m in Perform(w, k).tables.members ==> m.room in Perform(w, k).tables.rooms
    ensures PendingOk(Perform(w, k), EnteredAfter(Perform(w, k), entered))
  {
    var w' := Perform(w, k);
    EndedTransaction(w, k);
    OnlyInsertsAfter(w, k);
    assert forall id :: !Makes(CLEAN.pending, id);
    forall p, id | 0 <= p < |w'.pool| && Makes(w'.pool[p].pending, id)
      ensures id < w'.nextId && id !in EnteredAfter(w', entered) && id !in w'.tables.rooms
    {
      assert w'.pool[p] == w.pool[p + 1] && Makes(w.pool[p + 1].pending, id);
      RoomsAfterAll(w.tables, w.pool[0].pending + Statements(w, k), id);
      StatementsMakeNone(w, k, id);
    }
  }

  // ----- each call -----

  lemma RowOccupies(t: Tables, entered: set<int>, row: Member)
    requires Occupied(t, entered) && row.room in t.rooms
    ensures Occupied(t.(members := t.members + [row]), entered + {row.room})
  {
    forall r | r in entered + {row.room} ensures r in t.rooms <==> RowsOf(t.members + [row], r) != [] {
      RowsSnoc(t.members, row, r);
    }
  }

  lemma RowAdded(t: Tables, entered: set<int>, n: int, row: Member)
    requires Order(t, entered, n) && row !in t.members && row.room in t.rooms
    ensures Order(t.(members := t.members + [row]), entered + {row.room}, n)
  {
    RowOccupies(t, entered, row);
    assert NoRepeats(t.members + [row]);
  }

  lemma EnterKeeps(w: World, entered: set<int>, k: Call)
    requires InOrder(w, entered) && Ready(w, k) && Disciplined(w, k) && k.Enter?
    ensures InOrder(Perform(w, k), EnteredAfter(Perform(w, k), entered))
  {
    var w', row := Perform(w, k), Member(k.room, k.user);
    var t := Found(w, entered, k);
    if CommitOk(k) && Statements(w, k) != [] && k.room in t.rooms && k.user in t.users {
      assert Statements(w, k) == [InsertMember(k.room, k.user)];
      OneStatement(t, InsertMember(k.room, k.user));
      RowAdded(t, entered, w.nextId, row);
      assert row in w'.tables.members;
      assert EnteredAfter(w', entered) == entered + {k.room};
    } else {
      NothingEntered(t, w, k);
      SameEntered(w.tables, entered, w');
    }
    EndedPending(w, entered, k);
  }

  /** An entry that succeeds puts the user in the room and the room among those entered, if its insert
      succeeds and both exist. */
  lemma EntryEnters(w: World, entered: set<int>, k: Call)
    requires Ready(w, k) && k.Enter? && k.entry.insertOk
    requires PasswordCompare(w, k.user, k.room, k.password, k.entry).1
    requires k.room in Seen(w.tables, w.pool[0]).rooms && k.user in Seen(w.tables, w.pool[0]).users
    ensures Member(k.room, k.user) in Perform(w, k).tables.members
    ensures k.room in EnteredAfter(Perform(w, k), entered)
  {
    var t, row := Seen(w.tables, w.pool[0]), Member(k.room, k.user);
    EntryEffect(w, k.user, k.room, k.password, k.entry);
    assert (t.members + [row])[|t.members|] == row;
  }

  lemma OneStatement(t: Tables, op: Op)
    ensures ApplyAll(t, [op]) == ApplyOp(t, op)
  {
    assert [op][1..] == [];
  }

  lemma NothingEntered(t: Tables, w: World, k: Call)
    requires Ready(w, k) && k.Enter?
    requires !(CommitOk(k) && Statements(w, k) != [] && k.room in t.rooms && k.user in t.users)
    requires CommitOk(k) ==> Perform(w, k).tables == ApplyAll(t, Statements(w, k))
    requires !CommitOk(k) ==> Perform(w, k).tables == w.tables
    ensures Perform(w, k).tables == if CommitOk(k) then t else w.tables
  {
    OneStatement(t, InsertMember(k.room, k.user));
  }

  /** The statements of an exit, on the tables they find. */
  ghost function AfterLeaving(t: Tables, user: int, room: int, destroyed: bool, deleted: bool): Tables {
    var t1 := if destroyed then ApplyOp(t, DeleteRoom(room)) else t;
    if deleted then ApplyOp(t1, DeleteMember(room, user)) else t1
  }

  lemma LeavingShape(t: Tables, user: int, room: int, destroyed: bool, deleted: bool)
    requires NoRepeats(t.members) && room in t.rooms
    ensures var t' := AfterLeaving(t, user, room, destroyed, deleted);
      && t'.rooms == (if destroyed then t.rooms - {room} else t.rooms)
      && NoRepeats(t'.members)
      && (forall m :: m in t'.members ==> m in t.members && (destroyed ==> m.room != room))
      && (forall m :: m in t'.messages ==> m in t.messages && (destroyed ==> m.room != room))
      && (forall r :: r != room ==> RowsOf(t'.members, r) == RowsOf(t.members, r))
  {
    var ms, row := t.members, Member(room, user);
    WithoutRoomNoRepeats(ms, room);
    WithoutMemberNoRepeats(ms, row);
    WithoutMemberNoRepeats(WithoutRoom(ms, room), row);
    forall r | r != room
      ensures RowsOf(WithoutRoom(ms, room), r) == RowsOf(WithoutMember(ms, row), r) == RowsOf(ms, r)
      ensures RowsOf(WithoutMember(WithoutRoom(ms, room), row), r) == RowsOf(ms, r)
    {
      RowsOnExit(ms, row, r);
      RowsWithoutRoom(ms, room, r);
    }
  }

  /** If only one room can have changed, the order depends on that room. */
  lemma OccupiedBut(t: Tables, t': Tables, entered: set<int>, room: int)
    requires Occupied(t, entered) && room in entered
    requires forall r :: r != room ==>
      (r in t'.rooms <==> r in t.rooms) && RowsOf(t'.members, r) == RowsOf(t.members, r)
    ensures Occupied(t', entered) <==> (room in t'.rooms <==> RowsOf(t'.members, room) != [])
  {
  }

  /** Exactly when a member's statements keep the order. */
  lemma LeavingOrder(t: Tables, entered: set<int>, n: int, user: int, room: int, destroyed: bool, deleted: bool)
    requires Order(t, entered, n) && Member(room, user) in t.members
    requires destroyed ==> CountMembers(t, room) == 1
    ensures var t' := AfterLeaving(t, user, room, destroyed, deleted);
      && (Order(t', entered, n) <==> !(CountMembers(t, room) == 1 && !destroyed && deleted))
      && (Occupied(t', entered) <==> !(CountMembers(t, room) == 1 && !destroyed && deleted))
      && (forall m :: m in t'.members ==> m in t.members && m.room in t'.rooms)
  {
    var t', row := AfterLeaving(t, user, room, destroyed, deleted), Member(room, user);
    assert row in RowsOf(t.members, room) && room in entered;
    LeavingShape(t, user, room, destroyed, deleted);
    RowsLeft(t, user, room, destroyed, deleted);
    NoneLeft(t.members, row);
    AloneExactly(t.members, row);
    OccupiedBut(t, t', entered, room);
    OnlyOccupied(t, t', entered, n, room);
  }

  /** Everything Order asks for except that rooms are occupied. */
  lemma OnlyOccupied(t: Tables, t': Tables, entered: set<int>, n: int, room: int)
    requires Order(t, entered, n) && NoRepeats(t'.members)
    requires t'.rooms == t.rooms || t'.rooms == t.rooms - {room}
    requires forall m :: m in t'.members ==> m in t.members && (t'.rooms != t.rooms ==> m.room != room)
    requires forall m :: m in t'.messages ==> m in t.messages && (t'.rooms != t.rooms ==> m.room != room)
    ensures Order(t', entered, n) <==> Occupied(t', entered)
  {
  }

  lemma LeavingStatements(t: Tables, w: World, k: Call)
    requires Ready(w, k) && k.Exit? && k.exit.countOk && t == Seen(w.tables, w.pool[0])
    ensures ApplyAll(t, Statements(w, k))
      == AfterLeaving(t, k.user, k.room, CountMembers(t, k.room) == 1 && k.exit.destroyOk, k.exit.deleteOk)
  {
    var d, m := DeleteRoom(k.room), DeleteMember(k.room, k.user);
    OneStatement(t, d);
    OneStatement(t, m);
    OneStatement(ApplyOp(t, d), m);
    assert ([d] + [m])[1..] == [m];
    assert [d] + [] == [d] && [] + [m] == [m];
  }

  lemma ExitKeepsExactly(w: World, entered: set<int>, k: Call)
    requires InOrder(w, entered) && Ready(w, k) && Disciplined(w, k) && k.Exit? && k.exit.countOk
    ensures var w', entered' := Perform(w, k), EnteredAfter(Perform(w, k), entered);
      && PendingOk(w', entered')
      && (Order(w'.tables, entered', w'.nextId) <==> KeepsOrder(w, k))
      && (Occupied(w'.tables, entered') <==> KeepsOrder(w, k))
  {
    var w' := Perform(w, k);
    var t := Found(w, entered, k);
    if CommitOk(k) {
      LeavingStatements(t, w, k);
      var destroyed := CountMembers(t, k.room) == 1 && k.exit.destroyOk;
      LeavingOrder(t, entered, w.nextId, k.user, k.room, destroyed, k.exit.deleteOk);
    }
    SameEntered(w.tables, entered, w');
    EndedPending(w, entered, k);
  }

  /** A call that does not pass Transaction_End. */
  lemma OpenKeeps(w: World, entered: set<int>, k: Call)
    requires InOrder(w, entered) && Ready(w, k) && !Ends(k)
    ensures InOrder(Perform(w, k), EnteredAfter(Perform(w, k), entered))
  {
    var w' := Perform(w, k);
    OpenTransaction(w, k);
    OnlyInsertsAfter(w, k);
    OpenTables(w, entered, k);
    SameEntered(w.tables, entered, w');
    OpenPending(w, entered, k);
  }

  lemma OpenTables(w: World, entered: set<int>, k: Call)
    requires InOrder(w, entered) && Ready(w, k) && !Ends(k)
    ensures Order(Perform(w, k).tables, entered, Perform(w, k).nextId)
    ensures Perform(w, k).tables.members == w.tables.members
  {
    OpenTransaction(w, k);
    if !k.Exit? {
      InsertOrder(w.tables, Statement(w, k), entered, w.nextId + 1);
    }
  }

  /** Where connection p of the pool was before such a call. */
  function Before(w: World, p: nat): nat {
    if p + 1 < |w.pool| then p + 1 else 0
  }

  /** Such a call makes at most one room pending, with the next id. */
  lemma OpenMakes(w: World, k: Call, p: nat, id: int)
    requires Ready(w, k) && !Ends(k) && p < |Perform(w, k).pool| && Makes(Perform(w, k).pool[p].pending, id)
    ensures |Perform(w, k).pool| == |w.pool| && Before(w, p) < |w.pool|
    ensures Makes(w.pool[Before(w, p)].pending, id)
      || (p == |w.pool| - 1 && id == w.nextId && w.nextId + 1 == Perform(w, k).nextId
          && Perform(w, k).tables == w.tables)
  {
    OpenTransaction(w, k);
    if !k.Exit? {
      MakesMore(w.pool[0].pending, Statement(w, k), id);
    }
  }

  lemma OpenRooms(w: World, k: Call, id: int)
    requires Ready(w, k) && !Ends(k) && id in Perform(w, k).tables.rooms
    ensures id in w.tables.rooms || id == w.nextId
  {
    OpenTransaction(w, k);
    var t := Perform(w, k).tables;
    if t != w.tables {
      var op := Statement(w, k);
      assert t == ApplyOp(w.tables, op);
      RoomsAfterOp(w.tables, op, id);
      assert op.InsertRoom? ==> op.id == w.nextId;
    }
  }

  lemma RoomsAfterOp(t: Tables, op: Op, id: int)
    requires op.InsertRoom? || op.InsertMessage?
    ensures id in ApplyOp(t, op).rooms ==> id in t.rooms || (op.InsertRoom? && op.id == id)
  {
    if op.InsertRoom? {
      assert ApplyOp(t, op).rooms == t.rooms[op.id := op.row];
      assert id in t.rooms[op.id := op.row] ==> id == op.id || id in t.rooms;
    } else {
      assert ApplyOp(t, op).rooms == t.rooms;
    }
  }

  lemma OpenRoomIsNew(w: World, entered: set<int>, k: Call, p: nat, id: int)
    requires InOrder(w, entered) && Ready(w, k) && !Ends(k)
    requires p < |Perform(w, k).pool| && Makes(Perform(w, k).pool[p].pending, id)
    ensures id < Perform(w, k).nextId && id !in entered && id !in Perform(w, k).tables.rooms
  {
    NextIdGrows(w, k);
    OpenMakes(w, k, p, id);
    if id in Perform(w, k).tables.rooms {
      OpenRooms(w, k, id);
    }
  }

  lemma OpenPending(w: World, entered: set<int>, k: Call)
    requires InOrder(w, entered) && Ready(w, k) && !Ends(k)
    ensures Unmade(Perform(w, k), entered) && MadeOnce(Perform(w, k))
  {
    var w' := Perform(w, k);
    forall p, id {:trigger Makes(w'.pool[p].pending, id)} | 0 <= p < |w'.pool| && Makes(w'.pool[p].pending, id)
      ensures id < w'.nextId && id !in entered && id !in w'.tables.rooms
    {
      OpenRoomIsNew(w, entered, k, p, id);
    }
    forall p, q, id | 0 <= p < q < |w'.pool| && Makes(w'.pool[p].pending, id) ensures !Makes(w'.pool[q].pending, id) {
      OpenMakes(w, k, p, id);
      if Makes(w'.pool[q].pending, id) {
        OpenMakes(w, k, q, id);
      }
    }
  }

  /** A disciplined call keeps rooms and members in order in all cases but one, and in that one breaks
      it; failed counts, open transactions, pending rooms and failed commits included. */
  lemma CallKeepsExactly(w: World, entered: set<int>, k: Call)
    requires InOrder(w, entered) && Ready(w, k) && Disciplined(w, k)
    ensures var w', entered' := Perform(w, k), EnteredAfter(Perform(w, k), entered);
      && PendingOk(w', entered')
      && (Order(w'.tables, entered', w'.nextId) <==> KeepsOrder(w, k))
      && (Occupied(w'.tables, entered') <==> KeepsOrder(w, k))
  {
    if k.Enter? {
      EnterKeeps(w, entered, k);
    } else if Ends(k) {
      ExitKeepsExactly(w, entered, k);
    } else {
      OpenKeeps(w, entered, k);
    }
  }

  ghost predicate OrderlyRun(w: World, ks: seq<Call>)
    requires Performable(w, ks)
    decreases |ks|
  {
    ks == [] || (Disciplined(w, ks[0]) && KeepsOrder(w, ks[0]) && OrderlyRun(Perform(w, ks[0]), ks[1..]))
  }

  ghost function EnteredDuring(w: World, entered: set<int>, ks: seq<Call>): set<int>
    requires Performable(w, ks)
    decreases |ks|
  {
    if ks == [] then entered
    else EnteredDuring(Perform(w, ks[0]), EnteredAfter(Perform(w, ks[0]), entered), ks[1..])
  }

  lemma {:induction false} RunKeeps(w: World, entered: set<int>, ks: seq<Call>)
    requires InOrder(w, entered) && Performable(w, ks) && OrderlyRun(w, ks)
    ensures InOrder(PerformAll(w, ks), EnteredDuring(w, entered, ks))
    decreases |ks|
  {
    if ks != [] {
      CallKeepsExactly(w, entered, ks[0]);
      RunKeeps(Perform(w, ks[0]), EnteredAfter(Perform(w, ks[0]), entered), ks[1..]);
    }
  }

  /** From empty tables and a clean pool: at every point of an orderly run, whatever counts, statements
      and commits fail, a room that was ever entered exists if and only if somebody is in it. */
  lemma RoomLifecycle(users: set<int>, firstId: int, connections: nat, ks: seq<Call>)
    requires var w := World(Tables(map[], [], [], users), firstId, seq(connections, _ => CLEAN));
      Performable(w, ks) && OrderlyRun(w, ks)
    ensures var w := World(Tables(map[], [], [], users), firstId, seq(connections, _ => CLEAN));
      var e := PerformAll(w, ks);
      forall r :: r in EnteredDuring(w, {}, ks) ==>
        (r in e.tables.rooms <==> exists m :: m in e.tables.members && m.room == r)
  {
    var w := World(Tables(map[], [], [], users), firstId, seq(connections, _ => CLEAN));
    assert forall id :: !Makes(CLEAN.pending, id);
    RunKeeps(w, {}, ks);
    var e := PerformAll(w, ks);
    forall r {
      EmptyRows(e.tables.members, r);
    }
  }
}
