/** The room services over shared connection objects: they pop a connection, change its mode, run
    statements on it, and usually give it back. One service call at a time. */
module RoomServices {
  import opened Bytes
  import opened RoomTables
  import opened RoomSpec

  /** The database server: what is committed, and the AUTO_INCREMENT counter. */
  class Server {
    var committed: Tables
    var nextId: int

    constructor (tables: Tables, firstId: int)
      ensures committed == tables && nextId == firstId
    {
      committed := tables;
      nextId := firstId;
    }
  }

  class DatabaseWrapper {
    const server: Server
    var autocommit: bool
    var pending: seq<Op>

    function Value(): Connection
      reads this
    {
      Connection(autocommit, pending)
    }

    constructor (server: Server)
      ensures this.server == server && Value() == CLEAN
    {
      this.server := server;
      autocommit := true;
      pending := [];
    }

    method Transaction_Start()
      modifies this
      ensures Value() == TransactionStart(old(Value()))
    {
      autocommit := false;
    }

    /** The parameter says whether mysql_commit succeeds. */
    method Transaction_End(commitOk: bool) returns (ok: bool)
      modifies this, server
      ensures ok == commitOk && server.nextId == old(server.nextId)
      ensures (server.committed, Value()) == TransactionEnd(old(server.committed), old(Value()), commitOk)
    {
      if !commitOk {
        RollBack();
        autocommit := true;
        return false;
      }
      server.committed := ApplyAll(server.committed, pending);
      pending := [];
      autocommit := true;
      return true;
    }

    method RollBack()
      modifies this
      ensures Value() == old(Value()).(pending := [])
    {
      pending := [];
    }

    /** ExecuteStmt of a statement that changes rows; `ok` is its result. */
    method Execute(op: Op, ok: bool) returns (result: bool)
      modifies this, server
      ensures result == ok && server.nextId == old(server.nextId)
      ensures (server.committed, Value()) == RoomSpec.Execute(old(server.committed), old(Value()), op, ok)
    {
      if ok {
        if autocommit {
          server.committed := ApplyOp(server.committed, op);
        } else {
          pending := pending + [op];
        }
      }
      result := ok;
    }
  }

  class DatabasePool {
    var Databases: seq<DatabaseWrapper>

    ghost function Values(): seq<Connection>
      reads this, Databases
    {
      seq(|Databases|, i requires 0 <= i < |Databases| reads this, Databases => Databases[i].Value())
    }

    /** The idle connections are different objects of one server. */
    ghost predicate Valid(server: Server)
      reads this, Databases
    {
      && (forall i, j :: 0 <= i < j < |Databases| ==> Databases[i] != Databases[j])
      && (forall i :: 0 <= i < |Databases| ==> Databases[i].server == server)
    }

    constructor ()
      ensures Databases == []
    {
      Databases := [];
    }

    /** The fill loop of Initialization. */
    method Initialization(server: Server, size: nat)
      requires Databases == []
      modifies this
      ensures Valid(server) && fresh(Databases)
      ensures Values() == seq(size, _ => CLEAN)
    {
      var i := 0;
      while i < size
        invariant 0 <= i <= size && |Databases| == i
        invariant Valid(server) && fresh(Databases)
        invariant forall j :: 0 <= j < i ==> Databases[j].Value() == CLEAN
      {
        var wrapper := new DatabaseWrapper(server);
        Databases := Databases + [wrapper];
        i := i + 1;
      }
    }

    /** Past the semaphore wait, the queue is not empty. */
    method PopWrapper(ghost server: Server) returns (wrapper: DatabaseWrapper)
      requires Valid(server) && Databases != []
      modifies this
      ensures Valid(server) && wrapper == old(Databases)[0] && wrapper.server == server
      ensures Databases == old(Databases)[1..] && wrapper !in Databases
      ensures Values() == old(Values())[1..]
    {
      wrapper := Databases[0];
      Databases := Databases[1..];
    }

    /** The caller's pointer is nulled by the caller. */
    method PushWrapper(ghost server: Server, wrapper: DatabaseWrapper)
      requires Valid(server) && wrapper !in Databases && wrapper.server == server
      modifies this
      ensures Valid(server) && Databases == old(Databases) + [wrapper]
      ensures Values() == old(Values()) + [wrapper.Value()]
    {
      Databases := Databases + [wrapper];
    }
  }

  class RoomService {
    const server: Server
    const pool: DatabasePool

    ghost function View(): World
      reads server, pool, pool.Databases
    {
      World(server.committed, server.nextId, pool.Values())
    }

    ghost predicate Valid()
      reads pool, pool.Databases
    {
      pool.Valid(server)
    }

    constructor (server: Server, pool: DatabasePool)
      requires pool.Valid(server)
      ensures this.server == server && this.pool == pool && Valid()
    {
      this.server := server;
      this.pool := pool;
    }

    /** CountByRoomMember: -1 when the query or the fetch fails. */
    method CountByRoomMember(wrapper: DatabaseWrapper, room: int, countOk: bool) returns (count: int)
      requires wrapper.server == server
      ensures count == if countOk then CountMembers(Seen(server.committed, wrapper.Value()), room) else -1
    {
      if !countOk {
        return -1;
      }
      var rows := RowsOf(ApplyAll(server.committed, wrapper.pending).members, room);
      count := |rows|;
    }

    /** The statements of an exit whose count succeeded. */
    method LeaveRoom(wrapper: DatabaseWrapper, user: int, room: int, last: bool, e: ExitOutcome)
      returns (destroyed: bool, committed: bool)
      requires wrapper.server == server
      modifies wrapper, server
      ensures destroyed == (last && e.destroyOk) && committed == e.commitOk && server.nextId == old(server.nextId)
      ensures (server.committed, wrapper.Value())
        == RoomSpec.LeaveRoom(old(server.committed), old(wrapper.Value()), user, room, last, e)
    {
      destroyed := false;
      if last {
        destroyed := wrapper.Execute(DeleteRoom(room), e.destroyOk);
      }
      var deleted := wrapper.Execute(DeleteMember(room, user), e.deleteOk);
      committed := wrapper.Transaction_End(e.commitOk);
    }

    method ExitRoom(user: int, room: int, e: ExitOutcome) returns (result: bool)
      requires Valid() && pool.Databases != []
      modifies server, pool, pool.Databases
      ensures Valid()
      ensures (View(), result) == RoomSpec.ExitRoom(old(View()), user, room, e)
    {
      result := false;
      var wrapper := pool.PopWrapper(server);
      wrapper.Transaction_Start();
      var count := CountByRoomMember(wrapper, room, e.countOk);
      if count != -1 {
        var committed;
        result, committed := LeaveRoom(wrapper, user, room, count == 1, e);
        if !committed {
          pool.PushWrapper(server, wrapper);
          return false;
        }
      }
      pool.PushWrapper(server, wrapper);
    }

    /** FindPassword and ToANSI: the text compared with the caller's. It is empty exactly if the fetch
        failed or there is none to compare with; a NUL-free text that was stored comes back. */
    method FindPassword(wrapper: DatabaseWrapper, room: int, e: EntryOutcome) returns (found: bool, password: seq<Byte>)
      requires wrapper.server == server
      ensures found == e.findOk
      ensures found ==>
        password == if e.fetchOk then ReadPassword(Seen(server.committed, wrapper.Value()), room) else []
      ensures found ==> (password == [] <==> !e.fetchOk || Passwordless(Seen(server.committed, wrapper.Value()), room))
      ensures found && e.fetchOk ==>
        forall text :: HasPassword(Seen(server.committed, wrapper.Value()), room, text) ==> password == text
    {
      ghost var t := Seen(server.committed, wrapper.Value());
      ReadsEmpty(t, room);
      forall text | HasPassword(t, room, text) ensures ReadPassword(t, room) == text {
        ReadsPassword(t, room, text);
      }
      password := [];
      if !e.findOk {
        return false, password;
      }
      if e.fetchOk {
        password := ReadPassword(ApplyAll(server.committed, wrapper.pending), room);
      }
      return true, password;
    }

    /** The two statements both successful branches share. */
    method InsertAndCommit(wrapper: DatabaseWrapper, user: int, room: int, e: EntryOutcome) returns (committed: bool)
      requires wrapper.server == server
      modifies wrapper, server
      ensures committed == e.commitOk && server.nextId == old(server.nextId)
      ensures (server.committed, wrapper.Value())
        == AdmitMember(old(server.committed), old(wrapper.Value()), user, room, e)
    {
      var inserted := wrapper.Execute(InsertMember(room, user), e.insertOk);
      committed := wrapper.Transaction_End(e.commitOk);
    }

    method PasswordCompare(user: int, room: int, password: seq<Byte>, e: EntryOutcome) returns (result: bool)
      requires Valid() && pool.Databases != []
      modifies server, pool, pool.Databases
      ensures Valid()
      ensures (View(), result) == RoomSpec.PasswordCompare(old(View()), user, room, password, e)
    {
      var wrapper := pool.PopWrapper(server);
      wrapper.Transaction_Start();
      var found, outPassword := FindPassword(wrapper, room, e);
      assert wrapper.Value() == TransactionStart(old(View()).pool[0]);
      assert View() == old(View()).(pool := old(View()).pool[1..]);
      if found {
        if |outPassword| == 0 {
          var committed := InsertAndCommit(wrapper, user, room, e);
          if !committed {
            pool.PushWrapper(server, wrapper);
            return false;
          }
          return true;
        }
        if password == outPassword {
          var committed := InsertAndCommit(wrapper, user, room, e);
          if !committed {
            pool.PushWrapper(server, wrapper);
            return false;
          }
          pool.PushWrapper(server, wrapper);
          return true;
        }
      }
      var committed := wrapper.Transaction_End(e.commitOk);
      if !committed {
        pool.PushWrapper(server, wrapper);
        return false;
      }
      pool.PushWrapper(server, wrapper);
      return false;
    }

    method CreateChattingRoom(name: seq<Byte>, password: seq<Byte>, ok: bool) returns (result: bool, id: int)
      requires Valid() && pool.Databases != [] && |CStr(name)| < NAME_LENGTH && |CStr(password)| < NAME_LENGTH
      modifies server, pool, pool.Databases
      ensures Valid()
      ensures (View(), result) == RoomSpec.CreateChattingRoom(old(View()), name, password, ok)
      ensures result ==> id == old(server.nextId)
    {
      id := 0;
      var wrapper := pool.PopWrapper(server);
      result := wrapper.Execute(InsertRoom(server.nextId, StoredRoom(name, password)), ok);
      if result {
        id := server.nextId;
        server.nextId := server.nextId + 1;
      }
      pool.PushWrapper(server, wrapper);
    }

    /** SendMessageService::InsertMessage. */
    method InsertMessage(room: int, user: int, text: seq<Byte>, ok: bool) returns (result: bool)
      requires Valid() && pool.Databases != []
      modifies server, pool, pool.Databases
      ensures Valid()
      ensures (View(), result) == SendMessage(old(View()), room, user, text, ok)
    {
      var wrapper := pool.PopWrapper(server);
      result := wrapper.Execute(Op.InsertMessage(room, user, text), ok);
      pool.PushWrapper(server, wrapper);
    }
  }
}
