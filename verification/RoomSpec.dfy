/** What one call of a room service does to the tables and to the pool of connections. SQL outcomes
    are inputs: each statement, fetch or commit may fail. */
module RoomSpec {
  import opened Bytes
  import opened RoomTables

  /** A connection: its autocommit mode, and the statements of its open transaction. */
  datatype Connection = Connection(autocommit: bool, pending: seq<Op>)

  const CLEAN: Connection := Connection(true, [])

  /** The committed tables, the next room id, and the queue of idle connections. */
  datatype World = World(tables: Tables, nextId: int, pool: seq<Connection>)

  // ----- a connection at work -----

  /** What a query on this connection sees. */
  function Seen(t: Tables, conn: Connection): Tables {
    ApplyAll(t, conn.pending)
  }

  function TransactionStart(conn: Connection): Connection {
    conn.(autocommit := false)
  }

  /** One statement that changes rows. */
  function Execute(t: Tables, conn: Connection, op: Op, ok: bool): (Tables, Connection) {
    if !ok then (t, conn)
    else if conn.autocommit then (ApplyOp(t, op), conn)
    else (t, conn.(pending := conn.pending + [op]))
  }

  /** Transaction_End: commit, or roll back; autocommit is on again either way. */
  function TransactionEnd(t: Tables, conn: Connection, commitOk: bool): (Tables, Connection) {
    (if commitOk then Seen(t, conn) else t, CLEAN)
  }

  // ----- ExitRoomService::ExitRoom -----

  datatype ExitOutcome = ExitOutcome(countOk: bool, destroyOk: bool, deleteOk: bool, commitOk: bool)

  /** The statements of an exit whose count succeeded. */
  function LeaveRoom(t: Tables, conn: Connection, user: int, room: int, last: bool, e: ExitOutcome)
    : (Tables, Connection)
  {
    var (t1, c1) := Execute(t, conn, DeleteRoom(room), last && e.destroyOk);
    var (t2, c2) := Execute(t1, c1, DeleteMember(room, user), e.deleteOk);
    TransactionEnd(t2, c2, e.commitOk)
  }

  function ExitRoom(w: World, user: int, room: int, e: ExitOutcome): (World, bool)
    requires w.pool != []
  {
    var rest := w.pool[1..];
    var c0 := TransactionStart(w.pool[0]);
    var count: int := if e.countOk then CountMembers(Seen(w.tables, c0), room) else -1;
    if count == -1 then (w.(pool := rest + [c0]), false)
    else
      var (t, c) := LeaveRoom(w.tables, c0, user, room, count == 1, e);
      (World(t, w.nextId, rest + [c]), count == 1 && e.destroyOk && e.commitOk)
  }

  // ----- EntryRoomService::PasswordCompare -----

  datatype EntryOutcome = EntryOutcome(findOk: bool, fetchOk: bool, insertOk: bool, commitOk: bool)

  /** The password the comparison sees: a failed fetch reads as empty. */
  function PasswordSeen(w: World, room: int, e: EntryOutcome): seq<Byte>
    requires w.pool != []
  {
    if e.fetchOk then ReadPassword(Seen(w.tables, w.pool[0]), room) else []
  }

  /** The statements of an entry that is let in. */
  function AdmitMember(t: Tables, conn: Connection, user: int, room: int, e: EntryOutcome): (Tables, Connection) {
    var (t1, c1) := Execute(t, conn, InsertMember(room, user), e.insertOk);
    TransactionEnd(t1, c1, e.commitOk)
  }

  function PasswordCompare(w: World, user: int, room: int, password: seq<Byte>, e: EntryOutcome): (World, bool)
    requires w.pool != []
  {
    var rest := w.pool[1..];
    var c0 := TransactionStart(w.pool[0]);
    var stored := PasswordSeen(w, room, e);
    if e.findOk && stored == [] then
      var (t, c) := AdmitMember(w.tables, c0, user, room, e);
      if !e.commitOk then (World(t, w.nextId, rest + [c]), false)
      else (World(t, w.nextId, rest), true)
    else if e.findOk && password == stored then
      var (t, c) := AdmitMember(w.tables, c0, user, room, e);
      (World(t, w.nextId, rest + [c]), e.commitOk)
    else
      var (t1, c1) := TransactionEnd(w.tables, c0, e.commitOk);
      (World(t1, w.nextId, rest + [c1]), false)
  }

  // ----- CreateChattingRoomService and SendMessageService -----

  function CreateChattingRoom(w: World, name: seq<Byte>, password: seq<Byte>, ok: bool): (World, bool)
    requires w.pool != [] && |CStr(name)| < NAME_LENGTH && |CStr(password)| < NAME_LENGTH
  {
    var (t1, c1) := Execute(w.tables, w.pool[0], InsertRoom(w.nextId, StoredRoom(name, password)), ok);
    (World(t1, if ok then w.nextId + 1 else w.nextId, w.pool[1..] + [c1]), ok)
  }

  function SendMessage(w: World, room: int, user: int, text: seq<Byte>, ok: bool): (World, bool)
    requires w.pool != []
  {
    var (t1, c1) := Execute(w.tables, w.pool[0], InsertMessage(room, user, text), ok);
    (World(t1, w.nextId, w.pool[1..] + [c1]), ok)
  }
}
