/** The tables the room services work on, statement by statement, and how a room password is kept. */
module RoomTables {
  import opened Bytes
  import opened Options

  datatype Member = Member(room: int, user: int)
  datatype Message = Message(room: int, user: int, text: seq<Byte>)

  /** A row of chattingroom; NULL is None. */
  datatype Room = Room(name: seq<Byte>, password: Option<seq<Byte>>)

  /** chattingroom by id, RoomMember and ChatMessage in row order, and the ids of the users table.
      RoomMember has no unique key, so a row may repeat. */
  datatype Tables = Tables(rooms: map<int, Room>, members: seq<Member>, messages: seq<Message>, users: set<int>)

  datatype Op =
    | InsertRoom(id: int, row: Room)
    | DeleteRoom(room: int)
    | InsertMember(room: int, user: int)
    | DeleteMember(room: int, user: int)
    | InsertMessage(room: int, user: int, text: seq<Byte>)

  // ----- rows -----

  function RowsOf(ms: seq<Member>, room: int): (r: seq<Member>)
    ensures forall m :: m in r <==> m in ms && m.room == room
  {
    if ms == [] then []
    else (if ms[0].room == room then [ms[0]] else []) + RowsOf(ms[1..], room)
  }

  function WithoutRoom(ms: seq<Member>, room: int): (r: seq<Member>)
    ensures forall m :: m in r <==> m in ms && m.room != room
  {
    if ms == [] then []
    else (if ms[0].room != room then [ms[0]] else []) + WithoutRoom(ms[1..], room)
  }

  function WithoutMember(ms: seq<Member>, row: Member): (r: seq<Member>)
    ensures forall m :: m in r <==> m in ms && m != row
  {
    if ms == [] then []
    else (if ms[0] != row then [ms[0]] else []) + WithoutMember(ms[1..], row)
  }

  function MessagesWithoutRoom(ms: seq<Message>, room: int): (r: seq<Message>)
    ensures forall m :: m in r <==> m in ms && m.room != room
  {
    if ms == [] then []
    else (if ms[0].room != room then [ms[0]] else []) + MessagesWithoutRoom(ms[1..], room)
  }

  function MessagesOf(ms: seq<Message>, room: int): (r: seq<Message>)
    ensures forall m :: m in r <==> m in ms && m.room == room
  {
    if ms == [] then []
    else (if ms[0].room == room then [ms[0]] else []) + MessagesOf(ms[1..], room)
  }

  /** SELECT COUNT(*) FROM RoomMember WHERE RoomID = room. */
  function CountMembers(t: Tables, room: int): nat {
    |RowsOf(t.members, room)|
  }

  // ----- statements -----

  /** Foreign keys: a member or message row needs its room and user, and INSERT IGNORE drops it
      otherwise; deleting a room cascades to its member rows and messages. */
  function ApplyOp(t: Tables, op: Op): Tables {
    match op
    case InsertRoom(id, row) => t.(rooms := t.rooms[id := row])
    case DeleteRoom(room) =>
      t.(rooms := t.rooms - {room}, members := WithoutRoom(t.members, room),
         messages := MessagesWithoutRoom(t.messages, room))
    case InsertMember(room, user) =>
      if room in t.rooms && user in t.users then t.(members := t.members + [Member(room, user)]) else t
    case DeleteMember(room, user) => t.(members := WithoutMember(t.members, Member(room, user)))
    case InsertMessage(room, user, text) =>
      if room in t.rooms && user in t.users then t.(messages := t.messages + [Message(room, user, text)]) else t
  }

  function ApplyAll(t: Tables, ops: seq<Op>): Tables
    decreases |ops|
  {
    if ops == [] then t else ApplyAll(ApplyOp(t, ops[0]), ops[1..])
  }

  lemma {:induction false} ApplySnoc(t: Tables, ops: seq<Op>, op: Op)
    ensures ApplyAll(t, ops + [op]) == ApplyOp(ApplyAll(t, ops), op)
    decreases |ops|
  {
    if ops == [] {
      assert ([] + [op])[1..] == [];
    } else {
      assert (ops + [op])[1..] == ops[1..] + [op];
      ApplySnoc(ApplyOp(t, ops[0]), ops[1..], op);
    }
  }

  // ----- row lemmas -----

  lemma {:induction false} RowsSnoc(ms: seq<Member>, m: Member, room: int)
    ensures RowsOf(ms + [m], room) == RowsOf(ms, room) + (if m.room == room then [m] else [])
  {
    if ms == [] {
      assert ([] + [m])[1..] == [];
    } else {
      assert (ms + [m])[1..] == ms[1..] + [m];
      RowsSnoc(ms[1..], m, room);
    }
  }

  /** Deleting a room leaves the rows of every other room as they were. */
  lemma {:induction false} RowsWithoutRoom(ms: seq<Member>, gone: int, room: int)
    ensures RowsOf(WithoutRoom(ms, gone), room) == if room == gone then [] else RowsOf(ms, room)
  {
    if ms != [] {
      RowsWithoutRoom(ms[1..], gone, room);
      var rest := WithoutRoom(ms[1..], gone);
      if ms[0].room != gone {
        assert ([ms[0]] + rest)[1..] == rest;
      } else {
        assert [] + rest == rest;
      }
    }
  }

  /** ... and its messages. */
  lemma {:induction false} MessagesWithoutOne(ms: seq<Message>, gone: int, room: int)
    ensures MessagesOf(MessagesWithoutRoom(ms, gone), room) == if room == gone then [] else MessagesOf(ms, room)
  {
    if ms != [] {
      MessagesWithoutOne(ms[1..], gone, room);
      var rest := MessagesWithoutRoom(ms[1..], gone);
      if ms[0].room != gone {
        assert ([ms[0]] + rest)[1..] == rest;
      } else {
        assert [] + rest == rest;
      }
    }
  }

  /** Deleting a member leaves the rows of every other room as they were. */
  lemma {:induction false} RowsWithoutMember(ms: seq<Member>, row: Member, room: int)
    ensures RowsOf(WithoutMember(ms, row), room)
      == if room == row.room then WithoutMember(RowsOf(ms, room), row) else RowsOf(ms, room)
  {
    if ms != [] {
      RowsWithoutMember(ms[1..], row, room);
      var rest := WithoutMember(ms[1..], row);
      var tail := RowsOf(ms[1..], room);
      if ms[0] != row {
        assert ([ms[0]] + rest)[1..] == rest;
      } else {
        assert [] + rest == rest;
      }
      if ms[0].room == room {
        assert ([ms[0]] + tail)[1..] == tail;
      } else {
        assert [] + tail == tail;
      }
    }
  }

  lemma EmptyRows(ms: seq<Member>, room: int)
    ensures RowsOf(ms, room) == [] <==> forall m :: m in ms ==> m.room != room
  {
    var r := RowsOf(ms, room);
    if r != [] {
      assert r[0] in r;
    }
    assert forall m :: m in ms && m.room == room ==> m in r;
  }

  // ----- passwords -----

  /** MAX_NAME_CHAR_LENGTH. */
  const NAME_LENGTH: nat := 256

  /** The bytes before the first NUL: what c_str() shows, and what survives ToANSI for ASCII text. */
  function CStr(s: seq<Byte>): (r: seq<Byte>)
    ensures |r| <= |s| && r == s[..|r|] && 0 !in r
    ensures |r| < |s| ==> s[|r|] == 0
  {
    if s == [] || s[0] == 0 then [] else [s[0]] + CStr(s[1..])
  }

  lemma {:induction false} CStrUnique(s: seq<Byte>, n: nat)
    requires n <= |s| && 0 !in s[..n] && (n < |s| ==> s[n] == 0)
    ensures CStr(s) == s[..n]
  {
    if n > 0 {
      assert s[0] in s[..n];
      assert s[1..][..n - 1] == s[..n][1..];
      CStrUnique(s[1..], n - 1);
      assert s[..n] == [s[0]] + s[1..][..n - 1];
    }
  }

  /** A zeroed buffer of 256 bytes with v copied to its front. */
  function Buffer(v: seq<Byte>): (b: seq<Byte>)
    requires |v| <= NAME_LENGTH
    ensures |b| == NAME_LENGTH
  {
    v + seq(NAME_LENGTH - |v|, _ => 0)
  }

  /** strcpy_s into a zeroed buffer, which needs room for the terminator, and strlen of the result: the
      bytes that are bound. */
  function StoredText(text: seq<Byte>): (v: seq<Byte>)
    requires |CStr(text)| < NAME_LENGTH
    ensures v == CStr(text)
  {
    var b := Buffer(CStr(text));
    CStrBuffer(CStr(text));
    b[..|CStr(b)|]
  }

  /** What InsertChattingRoom binds: the password is NULL if empty. */
  function StoredRoom(name: seq<Byte>, password: seq<Byte>): Room
    requires |CStr(name)| < NAME_LENGTH && |CStr(password)| < NAME_LENGTH
  {
    Room(StoredText(name), if password == [] then None else Some(StoredText(password)))
  }

  /** FindPassword followed by ToANSI: a missing room and a NULL password both read as empty. */
  function ReadPassword(t: Tables, room: int): seq<Byte> {
    if room in t.rooms then ReadColumn(t.rooms[room].password) else []
  }

  /** The column copied to the front of a zeroed buffer, up to its first NUL. */
  function ReadColumn(column: Option<seq<Byte>>): seq<Byte> {
    match column
    case None => CStr(Buffer([]))
    case Some(v) => CStr(Buffer(if |v| <= NAME_LENGTH then v else v[..NAME_LENGTH]))
  }

  lemma CStrBuffer(v: seq<Byte>)
    requires |v| < NAME_LENGTH && 0 !in v
    ensures CStr(Buffer(v)) == v
  {
    assert Buffer(v)[..|v|] == v;
    CStrUnique(Buffer(v), |v|);
  }

  /** There is no text to compare with: no such room, no password, or one that starts with NUL. */
  predicate Passwordless(t: Tables, room: int) {
    room in t.rooms && t.rooms[room].password.Some? ==>
      var v := t.rooms[room].password.value; v == [] || v[0] == 0
  }

  lemma ReadsEmpty(t: Tables, room: int)
    ensures ReadPassword(t, room) == [] <==> Passwordless(t, room)
  {
    if room in t.rooms {
      var b := match t.rooms[room].password
        case None => Buffer([])
        case Some(v) => Buffer(if |v| <= NAME_LENGTH then v else v[..NAME_LENGTH]);
      assert b[0] == 0 <==> CStr(b) == [];
    }
  }

  /** The room exists and was made with this NUL-free password. */
  predicate HasPassword(t: Tables, room: int, text: seq<Byte>) {
    && 0 !in text && |text| < NAME_LENGTH && room in t.rooms
    && t.rooms[room].password == if text == [] then None else Some(text)
  }

  lemma ReadsPassword(t: Tables, room: int, text: seq<Byte>)
    requires HasPassword(t, room, text)
    ensures ReadPassword(t, room) == text
  {
    CStrBuffer(text);
    CStrBuffer([]);
  }

  lemma NulFree(text: seq<Byte>)
    requires 0 !in text
    ensures CStr(text) == text
  {
    assert text[..|text|] == text;
    CStrUnique(text, |text|);
  }

  /** Storing and reading back a room's password gives the text before its first NUL; in particular
      every NUL-free password of at most 255 bytes comes back unchanged. */
  lemma PasswordRoundTrip(name: seq<Byte>, password: seq<Byte>)
    requires |CStr(name)| < NAME_LENGTH && |CStr(password)| < NAME_LENGTH
    ensures ReadColumn(StoredRoom(name, password).password) == CStr(password)
    ensures 0 !in password ==> CStr(password) == password
  {
    CStrBuffer(CStr(password));
    CStrBuffer([]);
    if 0 !in password {
      NulFree(password);
    }
  }
}
