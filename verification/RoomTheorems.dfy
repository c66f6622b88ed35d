/** Properties of single calls of the room services. */
module RoomTheorems {
  import opened Bytes
  import opened Options
  import opened RoomTables
  import opened RoomSpec

  ghost predicate AllClean(pool: seq<Connection>) {
    forall i :: 0 <= i < |pool| ==> pool[i] == CLEAN
  }

  // ----- entering -----

  lemma SeenClean(t: Tables)
    ensures Seen(t, CLEAN) == t
  {
  }

  /** When an entry succeeds, and what is then in the tables: one more member row behind the others, if the
      insert succeeds and the room and the user exist; in every other case nothing new. A connection that
      was left in a transaction brings what it had pending, a clean one nothing. */
  lemma EntryEffect(w: World, user: int, room: int, password: seq<Byte>, e: EntryOutcome)
    requires w.pool != []
    ensures var (w', r), t := PasswordCompare(w, user, room, password, e), Seen(w.tables, w.pool[0]);
      && (w.pool[0] == CLEAN ==> t == w.tables)
      && (r <==> e.findOk && e.commitOk && (PasswordSeen(w, room, e) == [] || password == PasswordSeen(w, room, e)))
      && w'.nextId == w.nextId
      && w'.tables ==
        if !e.commitOk then w.tables
        else if r && e.insertOk && room in t.rooms && user in t.users
        then t.(members := t.members + [Member(room, user)])
        else t
  {
    var pending, op := w.pool[0].pending, InsertMember(room, user);
    ApplySnoc(w.tables, pending, op);
    assert pending + [] == pending;
    SeenClean(w.tables);
  }

  /** The connection is lost exactly if the query and the commit succeed and there is no text to compare
      with: the fetch failed, there is no such room, or it has no password. */
  lemma EntryLeaksExactly(w: World, user: int, room: int, password: seq<Byte>, e: EntryOutcome)
    requires w.pool != []
    ensures var (w', r) := PasswordCompare(w, user, room, password, e);
      var lost := e.findOk && e.commitOk && (!e.fetchOk || Passwordless(Seen(w.tables, w.pool[0]), room));
      && |w'.pool| == (if lost then |w.pool| - 1 else |w.pool|)
      && (lost ==> r)
  {
    ReadsEmpty(Seen(w.tables, w.pool[0]), room);
  }

  /** Entry to a room that does not exist succeeds, writes nothing and loses the connection. */
  lemma MissingRoomEntry(w: World, user: int, room: int, password: seq<Byte>, e: EntryOutcome)
    requires w.pool != [] && w.pool[0] == CLEAN && room !in w.tables.rooms && e.findOk && e.commitOk
    ensures var (w', r) := PasswordCompare(w, user, room, password, e);
      r && w' == w.(pool := w.pool[1..])
  {
    EntryEffect(w, user, room, password, e);
    EntryLeaksExactly(w, user, room, password, e);
  }

  /** With a room that has a NUL-free password, the right one or none needed is what lets a user in. */
  lemma EntryWithPassword(w: World, user: int, room: int, secret: seq<Byte>, password: seq<Byte>, e: EntryOutcome)
    requires w.pool != [] && HasPassword(Seen(w.tables, w.pool[0]), room, secret)
    requires e.findOk && e.fetchOk && e.commitOk
    ensures PasswordCompare(w, user, room, password, e).1 <==> secret == [] || password == secret
  {
    ReadsPassword(Seen(w.tables, w.pool[0]), room, secret);
  }

  // ----- making rooms and saying something -----

  /** A create is reported as it went. If it succeeds on a connection with autocommit on, the tables gain the
      next id and nothing else, with the name and the password up to their first NUL; on one that was left
      in a transaction that row is pending. */
  lemma CreateEffect(w: World, name: seq<Byte>, password: seq<Byte>, ok: bool)
    requires w.pool != [] && |CStr(name)| < NAME_LENGTH && |CStr(password)| < NAME_LENGTH
    ensures var (w', r), c := CreateChattingRoom(w, name, password, ok), w.pool[0];
      var row := Room(CStr(name), if password == [] then None else Some(CStr(password)));
      var pending := c.pending + if ok && !c.autocommit then [InsertRoom(w.nextId, row)] else [];
      && r == ok && w'.nextId == w.nextId + (if ok then 1 else 0)
      && w'.tables.rooms == (if ok && c.autocommit then w.tables.rooms[w.nextId := row] else w.tables.rooms)
      && w'.tables.members == w.tables.members && w'.tables.messages == w.tables.messages
      && w'.tables.users == w.tables.users
      && w'.pool == w.pool[1..] + [Connection(c.autocommit, pending)]
  {
    assert w.pool[0].pending + [] == w.pool[0].pending;
  }

  /** A message that succeeds on a connection with autocommit on is one more row behind the others, if its
      room and its user exist; on one that was left in a transaction it is pending. */
  lemma MessageEffect(w: World, room: int, user: int, text: seq<Byte>, ok: bool)
    requires w.pool != []
    ensures var (w', r), c, t := SendMessage(w, room, user, text, ok), w.pool[0], w.tables;
      var pending := c.pending + if ok && !c.autocommit then [InsertMessage(room, user, text)] else [];
      && r == ok && w'.nextId == w.nextId
      && w'.tables.messages == (if ok && c.autocommit && room in t.rooms && user in t.users
                                then t.messages + [Message(room, user, text)] else t.messages)
      && w'.tables.rooms == t.rooms && w'.tables.members == t.members && w'.tables.users == t.users
      && w'.pool == w.pool[1..] + [Connection(c.autocommit, pending)]
  {
    assert w.pool[0].pending + [] == w.pool[0].pending;
  }

  // ----- leaving -----

  /** The transaction of an exit whose count succeeds and that commits, on a clean connection. */
  lemma ExitTables(w: World, user: int, room: int, e: ExitOutcome)
    requires w.pool != [] && w.pool[0] == CLEAN && e.countOk
    ensures var (w', r) := ExitRoom(w, user, room, e);
      var t1 := if CountMembers(w.tables, room) == 1 && e.destroyOk
        then ApplyOp(w.tables, DeleteRoom(room)) else w.tables;
      var t2 := if e.deleteOk then ApplyOp(t1, DeleteMember(room, user)) else t1;
      && w'.tables == (if e.commitOk then t2 else w.tables)
      && w'.pool == w.pool[1..] + [CLEAN]
      && (r <==> CountMembers(w.tables, room) == 1 && e.destroyOk && e.commitOk)
  {
    var first := CountMembers(w.tables, room) == 1 && e.destroyOk;
    var ops1 := if first then [] + [DeleteRoom(room)] else [];
    ApplySnoc(w.tables, [], DeleteRoom(room));
    ApplySnoc(w.tables, ops1, DeleteMember(room, user));
  }

  /** All or nothing: if the commit fails the tables are untouched and the connection is clean. */
  lemma ExitRollsBack(w: World, user: int, room: int, e: ExitOutcome)
    requires w.pool != [] && w.pool[0] == CLEAN && e.countOk && !e.commitOk
    ensures var (w', r) := ExitRoom(w, user, room, e);
      w'.tables == w.tables && !r && w'.pool == w.pool[1..] + [CLEAN]
  {
    ExitTables(w, user, room, e);
  }

  /** The tables after the two statements of an exit, either of which may have had no effect. */
  function AfterExit(t: Tables, user: int, room: int, destroyed: bool, deleted: bool): Tables {
    var t1 := if destroyed then ApplyOp(t, DeleteRoom(room)) else t;
    if deleted then ApplyOp(t1, DeleteMember(room, user)) else t1
  }

  lemma ExitOn(t: Tables, user: int, room: int, destroyed: bool, deleted: bool, r: int)
    ensures var t', row := AfterExit(t, user, room, destroyed, deleted), Member(room, user);
      && t'.rooms == (if destroyed then t.rooms - {room} else t.rooms) && t'.users == t.users
      && RowsOf(t'.members, r) ==
         (if r == room && destroyed then []
          else if r == room && deleted then WithoutMember(RowsOf(t.members, r), row)
          else RowsOf(t.members, r))
      && MessagesOf(t'.messages, r) == (if r == room && destroyed then [] else MessagesOf(t.messages, r))
  {
    RowsOnExit(t.members, Member(room, user), r);
    RowsWithoutRoom(t.members, room, r);
    MessagesWithoutOne(t.messages, room, r);
  }

  /** What a committed exit does to any room r: its own room goes, with its rows and messages, if one row
      was left and the deletion succeeded; otherwise the user's rows of it go if that deletion did;
      nothing else changes, and nothing at all if the commit fails. */
  lemma ExitEffect(w: World, user: int, room: int, e: ExitOutcome, r: int)
    requires w.pool != [] && w.pool[0] == CLEAN && e.countOk
    ensures var t, t', row := w.tables, ExitRoom(w, user, room, e).0.tables, Member(room, user);
      var destroyed := |RowsOf(t.members, room)| == 1 && e.destroyOk;
      && (!e.commitOk ==> t' == t)
      && (e.commitOk ==>
            && t'.rooms == (if destroyed then t.rooms - {room} else t.rooms) && t'.users == t.users
            && RowsOf(t'.members, r) ==
               (if r == room && destroyed then []
                else if r == room && e.deleteOk then WithoutMember(RowsOf(t.members, r), row)
                else RowsOf(t.members, r))
            && MessagesOf(t'.messages, r) == (if r == room && destroyed then [] else MessagesOf(t.messages, r)))
  {
    ExitTables(w, user, room, e);
    ExitOn(w.tables, user, room, CountMembers(w.tables, room) == 1 && e.destroyOk, e.deleteOk, r);
  }

  lemma RowsOnExit(ms: seq<Member>, row: Member, r: int)
    ensures RowsOf(WithoutMember(WithoutRoom(ms, row.room), row), r) == if r == row.room then [] else RowsOf(ms, r)
    ensures RowsOf(WithoutMember(ms, row), r)
      == if r == row.room then WithoutMember(RowsOf(ms, r), row) else RowsOf(ms, r)
  {
    RowsWithoutRoom(ms, row.room, r);
    RowsWithoutMember(WithoutRoom(ms, row.room), row, r);
    RowsWithoutMember(ms, row, r);
  }

  ghost predicate OnlyRowsOf(ms: seq<Member>, row: Member) {
    forall m :: m in ms && m.room == row.room ==> m == row
  }

  /** Exactly when a committed exit, by anyone, leaves an occupied room in order (it exists if and
      only if it still has a member row): unless every row of the room is the leaver's and the room
      was not destroyed, because the leaver had several rows or the DELETE failed. */
  lemma ExitKeepsOrderExactly(w: World, user: int, room: int, e: ExitOutcome)
    requires w.pool != [] && w.pool[0] == CLEAN && e.countOk && e.commitOk
    requires room in w.tables.rooms && RowsOf(w.tables.members, room) != []
    ensures var t' := ExitRoom(w, user, room, e).0.tables;
      (room in t'.rooms <==> RowsOf(t'.members, room) != [])
      <==> !(OnlyRowsOf(w.tables.members, Member(room, user)) && e.deleteOk
             && (CountMembers(w.tables, room) >= 2 || !e.destroyOk))
  {
    ExitEffect(w, user, room, e, room);
    NoneLeft(w.tables.members, Member(room, user));
  }

  lemma RowsLeft(t: Tables, user: int, room: int, destroyed: bool, deleted: bool)
    requires room in t.rooms
    ensures var rows, row := RowsOf(t.members, room), Member(room, user);
      var t1 := if destroyed then ApplyOp(t, DeleteRoom(room)) else t;
      var t2 := if deleted then ApplyOp(t1, DeleteMember(room, user)) else t1;
      && (room in t2.rooms <==> !destroyed)
      && RowsOf(t2.members, room) == if destroyed then [] else if deleted then WithoutMember(rows, row) else rows
  {
    var ms, row := t.members, Member(room, user);
    RowsWithoutRoom(ms, room, room);
    RowsWithoutMember(ms, row, room);
    RowsWithoutMember(WithoutRoom(ms, room), row, room);
  }

  lemma NoneLeft(ms: seq<Member>, row: Member)
    ensures WithoutMember(RowsOf(ms, row.room), row) == [] <==> OnlyRowsOf(ms, row)
  {
    var left := WithoutMember(RowsOf(ms, row.room), row);
    if left != [] {
      assert left[0] in left;
    }
    assert forall m :: m in ms && m.room == row.room && m != row ==> m in left;
  }

  /** The service does not check that the leaver is a member: an outsider's exit destroys the room
      exactly when one row is left. */
  lemma OutsiderExit(w: World, user: int, room: int)
    requires w.pool != [] && w.pool[0] == CLEAN && room in w.tables.rooms
    requires Member(room, user) !in w.tables.members
    ensures var (w', r) := ExitRoom(w, user, room, ExitOutcome(true, true, true, true));
      && (room !in w'.tables.rooms <==> CountMembers(w.tables, room) == 1)
      && (r <==> CountMembers(w.tables, room) == 1)
  {
    ExitTables(w, user, room, ExitOutcome(true, true, true, true));
  }

  // ----- connections whose transaction is never ended -----

  /** From a clean pool, an exit puts back a connection with autocommit off exactly when its count
      failed. */
  lemma ExitTaintsExactly(w: World, user: int, room: int, e: ExitOutcome)
    requires w.pool != [] && AllClean(w.pool)
    ensures AllClean(ExitRoom(w, user, room, e).0.pool) <==> e.countOk
  {
    var p := ExitRoom(w, user, room, e).0.pool;
    assert p[|p| - 1].autocommit <==> e.countOk;
  }
}
