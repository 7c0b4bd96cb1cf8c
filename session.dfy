/**
 * The chat server's socket session engine: the handshake check, the
 * presence registry `roomUsers` (room -> usernames, insertion-ordered), the
 * per-socket fields `socket.data.user` / `socket.data.room`, the socket.io
 * room relation used for broadcasts, the append-only message store and the
 * events the server emits. Each socket event runs to completion before the
 * next one starts.
 *
 * The state transitions are given as functions on `State`; the class
 * `ChatServer` at the end performs them in place, step by step.
 */
module Session {
  import opened Wrappers
  import opened Tokens
  import opened JsString
  import OrderedSet
  import History

  type SocketId = nat
  type Message = History.Message

  /** `socket.data`: the verified claims and the current room ("" while no room was joined). */
  datatype SocketData = SocketData(user: Identity, room: string)

  /** The JavaScript values a client may send as the `isTyping` flag. */
  datatype JsValue = Undefined | Null | Bool(b: bool) | Number(n: int) | Str(s: string) | Object

  /** `!!v` */
  predicate Truthy(v: JsValue)
  {
    match v
    case Undefined => false
    case Null => false
    case Bool(b) => b
    case Number(n) => n != 0
    case Str(s) => s != ""
    case Object => true
  }

  /** The events the server emits to clients. */
  datatype Event =
    | OnlineUsers(users: seq<string>)
    | ChatHistory(messages: seq<Message>)
    | ChatMessage(message: Message)
    | Typing(username: string, isTyping: bool)

  /** One emitted event together with the sockets it is delivered to. */
  datatype Emit = Emit(to: set<SocketId>, event: Event)

  /**
   * The whole server state.
   * `roomUsers`: the presence registry.
   * `data`: `socket.data` of every socket that passed the handshake.
   * `rooms`: the socket.io adapter, the connected sockets and the rooms each has joined.
   * `log`: the message store, in insertion order.
   * `outbox`: every event emitted so far, oldest first.
   */
  datatype State = State(
    roomUsers: map<string, seq<string>>,
    data: map<SocketId, SocketData>,
    rooms: map<SocketId, set<string>>,
    log: seq<Message>,
    outbox: seq<Emit>)

  const Initial: State := State(map[], map[], map[], [], [])

  /** The longest chat text accepted, in UTF-16 code units. */
  const MaxTextLength: nat := 1000

  /** `io.to(room)`: the connected sockets that joined the room. */
  function Members(rooms: map<SocketId, set<string>>, room: string): (m: set<SocketId>)
    ensures forall s :: s in m <==> s in rooms && room in rooms[s]
  {
    set s | s in rooms && room in rooms[s]
  }

  /** `getOnline`: the room's usernames in insertion order, [] for an unknown room. */
  function GetOnline(users: map<string, seq<string>>, room: string): seq<string>
  {
    if room in users then users[room] else []
  }

  /**
   * `set.delete(username)` on the room's set, and `roomUsers.delete(room)` once
   * it is empty; nothing when the room has no set.
   */
  function RemoveUser(users: map<string, seq<string>>, room: string, u: string): (out: map<string, seq<string>>)
    ensures forall r :: GetOnline(out, r) == if r == room then OrderedSet.Delete(GetOnline(users, r), u) else GetOnline(users, r)
    ensures out.Keys <= users.Keys
    ensures room in out ==> out[room] != []
  {
    if room in users then
      var rest := OrderedSet.Delete(users[room], u);
      if rest == [] then users - {room} else users[room := rest]
    else
      assert OrderedSet.Delete([], u) == [];
      users
  }

  /** Creates the room's set when missing, then `add(username)`. */
  function AddUser(users: map<string, seq<string>>, room: string, u: string): (out: map<string, seq<string>>)
    ensures forall r :: GetOnline(out, r) == if r == room then OrderedSet.Add(GetOnline(users, r), u) else GetOnline(users, r)
    ensures out.Keys == users.Keys + {room}
  {
    users[room := OrderedSet.Add(GetOnline(users, room), u)]
  }

  // ---------------------------------------------------------------------------
  // Invariants
  // ---------------------------------------------------------------------------

  /** No room maps to an empty set, no set holds a name twice, and no name is empty. */
  ghost predicate PresenceWellFormed(users: map<string, seq<string>>)
  {
    forall r :: r in users ==> users[r] != [] && OrderedSet.NoDup(users[r]) && "" !in users[r]
  }

  /**
   * Every connected socket is in the socket.io room its `data.room` names and
   * in no other, and only a socket with a username has a room.
   */
  ghost predicate OneRoomPerSocket(data: map<SocketId, SocketData>, rooms: map<SocketId, set<string>>)
  {
    && rooms.Keys <= data.Keys
    && forall s :: s in rooms ==>
         && rooms[s] == (if data[s].room == "" then {} else {data[s].room})
         && (data[s].room != "" ==> data[s].user.username != "")
  }

  /** Every listed name belongs to some connected socket that is in that room. */
  ghost predicate PresenceSound(users: map<string, seq<string>>, data: map<SocketId, SocketData>, rooms: map<SocketId, set<string>>)
  {
    forall r, u :: r in users && u in users[r] ==>
      exists s :: s in rooms && s in data && r in rooms[s] && data[s].user.username == u
  }

  /** Stored message ids are their positions, and every stored text passed the handler's checks. */
  ghost predicate LogWellFormed(log: seq<Message>)
  {
    forall i :: 0 <= i < |log| ==>
      && log[i].id == i
      && log[i].username != "" && log[i].room != ""
      && AcceptedText(log[i].text)
  }

  ghost predicate Inv(st: State)
  {
    && PresenceWellFormed(st.roomUsers)
    && OneRoomPerSocket(st.data, st.rooms)
    && PresenceSound(st.roomUsers, st.data, st.rooms)
    && LogWellFormed(st.log)
  }

  /** The text check of `chatMessage`, applied to the trimmed text. */
  predicate AcceptedText(trimmed: string)
  {
    trimmed != "" && Utf16Length(trimmed) <= MaxTextLength
  }

  lemma InitialInv()
    ensures Inv(Initial)
  {
  }

  lemma {:induction false} WellFormedAfterRemove(users: map<string, seq<string>>, room: string, u: string)
    requires PresenceWellFormed(users)
    ensures PresenceWellFormed(RemoveUser(users, room, u))
  {
    var out := RemoveUser(users, room, u);
    forall r | r in out ensures out[r] != [] && OrderedSet.NoDup(out[r]) && "" !in out[r] {
      assert GetOnline(out, r) == out[r];
      assert r in users;
    }
  }

  lemma {:induction false} WellFormedAfterAdd(users: map<string, seq<string>>, room: string, u: string)
    requires PresenceWellFormed(users) && u != ""
    ensures PresenceWellFormed(AddUser(users, room, u))
  {
    var out := AddUser(users, room, u);
    forall r | r in out ensures out[r] != [] && OrderedSet.NoDup(out[r]) && "" !in out[r] {
      assert GetOnline(out, r) == out[r];
      if r == room {
        assert OrderedSet.NoDup(GetOnline(users, room)) && "" !in GetOnline(users, room);
      } else {
        assert r in users && out[r] == users[r];
      }
    }
  }

  /** A socket leaving room r while its username u leaves r's set keeps the presence sound. */
  lemma {:induction false} SoundAfterLeave(users: map<string, seq<string>>, data: map<SocketId, SocketData>,
                      rooms: map<SocketId, set<string>>, s: SocketId, r: string, u: string)
    requires PresenceSound(users, data, rooms)
    requires s in rooms && s in data && data[s].user.username == u
    ensures PresenceSound(RemoveUser(users, r, u), data, rooms[s := rooms[s] - {r}])
  {
    var out := RemoveUser(users, r, u);
    var rooms' := rooms[s := rooms[s] - {r}];
    forall r', v | r' in out && v in out[r']
      ensures exists s' :: s' in rooms' && s' in data && r' in rooms'[s'] && data[s'].user.username == v
    {
      assert GetOnline(out, r') == out[r'];
      assert r' in users && v in users[r'] && (r' == r ==> v != u);
      var w :| w in rooms && w in data && r' in rooms[w] && data[w].user.username == v;
      assert w in rooms' && r' in rooms'[w];
    }
  }

  /** A socket joining room r while its username u is added to r's set keeps the presence sound. */
  lemma {:induction false} SoundAfterJoin(users: map<string, seq<string>>, data: map<SocketId, SocketData>,
                     rooms: map<SocketId, set<string>>, s: SocketId, r: string, u: string)
    requires PresenceSound(users, data, rooms)
    requires s in rooms && s in data && data[s].user.username == u
    ensures PresenceSound(AddUser(users, r, u), data, rooms[s := rooms[s] + {r}])
  {
    var out := AddUser(users, r, u);
    var rooms' := rooms[s := rooms[s] + {r}];
    forall r', v | r' in out && v in out[r']
      ensures exists s' :: s' in rooms' && s' in data && r' in rooms'[s'] && data[s'].user.username == v
    {
      assert GetOnline(out, r') == out[r'];
      if r' == r && v == u {
        assert s in rooms' && r' in rooms'[s];
      } else {
        assert r' in users && v in users[r'];
        var w :| w in rooms && w in data && r' in rooms[w] && data[w].user.username == v;
        assert w in rooms' && r' in rooms'[w];
      }
    }
  }

  /** A socket that is in no room can drop out of the adapter without touching presence. */
  lemma {:induction false} SoundAfterDrop(users: map<string, seq<string>>, data: map<SocketId, SocketData>,
                     rooms: map<SocketId, set<string>>, s: SocketId)
    requires PresenceSound(users, data, rooms)
    requires s in rooms && rooms[s] == {}
    ensures PresenceSound(users, data, rooms - {s})
  {
    forall r, v | r in users && v in users[r]
      ensures exists s' :: s' in rooms - {s} && s' in data && r in (rooms - {s})[s'] && data[s'].user.username == v
    {
      var w :| w in rooms && w in data && r in rooms[w] && data[w].user.username == v;
      assert w != s;
    }
  }

  /** Changing a socket's `data.room` does not change the usernames presence relies on. */
  lemma {:induction false} SoundAfterDataUpdate(users: map<string, seq<string>>, data: map<SocketId, SocketData>,
                           rooms: map<SocketId, set<string>>, s: SocketId, room: string)
    requires PresenceSound(users, data, rooms) && s in data
    ensures PresenceSound(users, data[s := data[s].(room := room)], rooms)
  {
    var data' := data[s := data[s].(room := room)];
    forall r, v | r in users && v in users[r]
      ensures exists s' :: s' in rooms && s' in data' && r in rooms[s'] && data'[s'].user.username == v
    {
      var w :| w in rooms && w in data && r in rooms[w] && data[w].user.username == v;
      assert w in data' && data'[w].user.username == v;
    }
  }

  // ---------------------------------------------------------------------------
  // The handshake middleware `io.use`
  // ---------------------------------------------------------------------------

  datatype Handshake = Accepted(user: Identity) | Refused(error: string)

  /** The token is `socket.handshake.auth?.token`, "" when it is missing. */
  function Authenticate(token: string, verify: Verifier): (h: Handshake)
    ensures h.Accepted? <==> token != "" && verify(token).Some?
    ensures h.Accepted? ==> h.user == verify(token).value
    ensures token == "" ==> h == Refused("Missing auth token")
    ensures token != "" && verify(token).None? ==> h == Refused("Invalid auth token")
  {
    if token == "" then Refused("Missing auth token")
    else match verify(token)
      case None => Refused("Invalid auth token")
      case Some(user) => Accepted(user)
  }

  /** A connection attempt with socket id s: accepted sockets get `data.user` and are connected, in no room. */
  function ConnectStep(st: State, s: SocketId, token: string, verify: Verifier): State
    requires s !in st.data
  {
    match Authenticate(token, verify)
    case Refused(_) => st
    case Accepted(user) => st.(data := st.data[s := SocketData(user, "")], rooms := st.rooms[s := {}])
  }

  /**
   * A refused handshake changes nothing; an accepted one registers the socket
   * with the decoded identity and no room, and nothing else changes.
   */
  lemma ConnectSpec(st: State, s: SocketId, token: string, verify: Verifier)
    requires Inv(st) && s !in st.data
    ensures var st' := ConnectStep(st, s, token, verify);
            && Inv(st')
            && (Authenticate(token, verify).Refused? ==> st' == st)
            && (Authenticate(token, verify).Accepted? ==>
                  && s in st'.data && st'.data[s] == SocketData(verify(token).value, "")
                  && s in st'.rooms && st'.rooms[s] == {}
                  && st'.roomUsers == st.roomUsers && st'.log == st.log && st'.outbox == st.outbox)
  {
    var st' := ConnectStep(st, s, token, verify);
    if Authenticate(token, verify).Accepted? {
      assert s !in st.rooms;
      forall r, v | r in st'.roomUsers && v in st'.roomUsers[r]
        ensures exists s' :: s' in st'.rooms && s' in st'.data && r in st'.rooms[s'] && st'.data[s'].user.username == v
      {
        var w :| w in st.rooms && w in st.data && r in st.rooms[w] && st.data[w].user.username == v;
        assert w != s && w in st'.rooms && w in st'.data;
      }
    }
  }

  // ---------------------------------------------------------------------------
  // joinRoom
  // ---------------------------------------------------------------------------

  /** Leaving the previous room: `socket.leave(prev)`, the set update, and a snapshot to prev. */
  function LeavePrevious(st: State, s: SocketId, u: string): State
    requires s in st.rooms && s in st.data
  {
    var prev := st.data[s].room;
    var rooms := st.rooms[s := st.rooms[s] - {prev}];
    var users := RemoveUser(st.roomUsers, prev, u);
    st.(rooms := rooms, roomUsers := users,
        outbox := st.outbox + [Emit(Members(rooms, prev), OnlineUsers(GetOnline(users, prev)))])
  }

  /** Joining the new room: `data.room`, `socket.join(room)`, the set update, and a snapshot to room. */
  function EnterRoom(st: State, s: SocketId, u: string, room: string): State
    requires s in st.rooms && s in st.data
  {
    var rooms := st.rooms[s := st.rooms[s] + {room}];
    var users := AddUser(st.roomUsers, room, u);
    st.(data := st.data[s := st.data[s].(room := room)], rooms := rooms, roomUsers := users,
        outbox := st.outbox + [Emit(Members(rooms, room), OnlineUsers(GetOnline(users, room)))])
  }

  /**
   * The `joinRoom` handler. `historyFails` says whether the history query
   * rejects, which ends the handler before `chatHistory` is sent.
   */
  function JoinRoomStep(st: State, s: SocketId, room: string, historyFails: bool): State
    requires s in st.rooms && s in st.data
  {
    var u := st.data[s].user.username;
    if room == "" || u == "" then st
    else SendHistory(EnterRoom(LeaveIfPlaced(st, s), s, u, room), s, room, historyFails)
  }

  /** The leave part of `joinRoom`: only a socket that has a room leaves it. */
  function LeaveIfPlaced(st: State, s: SocketId): State
    requires s in st.rooms && s in st.data
  {
    if st.data[s].room != "" then LeavePrevious(st, s, st.data[s].user.username) else st
  }

  /** The last part of `joinRoom`: the room's replay to the joiner alone, unless the query fails. */
  function SendHistory(st: State, s: SocketId, room: string, historyFails: bool): State
  {
    if historyFails then st
    else st.(outbox := st.outbox + [Emit({s}, ChatHistory(History.Replay(st.log, room, History.JoinReplayLimit)))])
  }

  /** The state with socket s's `data.room` cleared. */
  function ClearRoom(st: State, s: SocketId): State
    requires s in st.data
  {
    st.(data := st.data[s := st.data[s].(room := "")])
  }

  /** Leaving the previous room gives a valid state once the socket's room field is cleared. */
  lemma LeavePreviousInv(st: State, s: SocketId)
    requires Inv(st) && s in st.rooms && st.data[s].room != ""
    ensures var left := LeavePrevious(st, s, st.data[s].user.username);
            && Inv(ClearRoom(left, s))
            && left.data == st.data && left.log == st.log
  {
    var u := st.data[s].user.username;
    var prev := st.data[s].room;
    var left := LeavePrevious(st, s, u);
    WellFormedAfterRemove(st.roomUsers, prev, u);
    SoundAfterLeave(st.roomUsers, st.data, st.rooms, s, prev, u);
    assert left.rooms[s] == {};
    SoundAfterDataUpdate(left.roomUsers, left.data, left.rooms, s, "");
  }

  /** Entering a room from no room keeps the invariant. */
  lemma EnterRoomInv(st: State, s: SocketId, room: string)
    requires Inv(st) && s in st.rooms && st.data[s].room == ""
    requires room != "" && st.data[s].user.username != ""
    ensures Inv(EnterRoom(st, s, st.data[s].user.username, room))
  {
    var u := st.data[s].user.username;
    var joined := EnterRoom(st, s, u, room);
    assert st.rooms[s] == {};
    WellFormedAfterAdd(st.roomUsers, room, u);
    SoundAfterJoin(st.roomUsers, st.data, st.rooms, s, room, u);
    SoundAfterDataUpdate(joined.roomUsers, st.data, joined.rooms, s, room);
    assert joined.rooms[s] == {room};
  }

  /** Entering overwrites the room field, so clearing it first makes no difference. */
  lemma EnterAfterClear(st: State, s: SocketId, u: string, room: string)
    requires s in st.rooms && s in st.data
    ensures EnterRoom(ClearRoom(st, s), s, u, room) == EnterRoom(st, s, u, room)
  {
    UpdateTwice(st.data, s, st.data[s].(room := ""), st.data[s].(room := room));
  }

  lemma JoinRoomInv(st: State, s: SocketId, room: string, historyFails: bool)
    requires Inv(st) && s in st.rooms
    ensures Inv(JoinRoomStep(st, s, room, historyFails))
  {
    var u := st.data[s].user.username;
    if room != "" && u != "" {
      var left := LeaveIfPlaced(st, s);
      if st.data[s].room != "" {
        LeavePreviousInv(st, s);
        EnterRoomInv(ClearRoom(left, s), s, room);
        EnterAfterClear(left, s, u, room);
      } else {
        EnterRoomInv(st, s, room);
      }
      SendHistorySpec(EnterRoom(left, s, u, room), s, room, historyFails);
    }
  }

  /** `joinRoom` does nothing without a room name or without a username. */
  lemma JoinRoomIgnored(st: State, s: SocketId, room: string, historyFails: bool)
    requires s in st.rooms && s in st.data
    requires room == "" || st.data[s].user.username == ""
    ensures JoinRoomStep(st, s, room, historyFails) == st
  {
  }

  /** Socket s is connected and in exactly the socket.io room its `data.room` names. */
  ghost predicate Placed(st: State, s: SocketId)
  {
    s in st.rooms && s in st.data && st.rooms[s] == (if st.data[s].room == "" then {} else {st.data[s].room})
  }

  /** The snapshot `joinRoom` sends to the room the socket leaves. */
  function LeaveSnapshot(st: State, s: SocketId): seq<Emit>
    requires s in st.data
  {
    var prev := st.data[s].room;
    if prev == "" then []
    else [Emit(Members(st.rooms[s := {}], prev), OnlineUsers(OrderedSet.Delete(GetOnline(st.roomUsers, prev), st.data[s].user.username)))]
  }

  /** The previous room loses the socket and the name and gets one snapshot; nothing else changes. */
  lemma LeavePreviousSpec(st: State, s: SocketId)
    requires Placed(st, s) && st.data[s].room != ""
    ensures var u := st.data[s].user.username;
            var prev := st.data[s].room;
            var left := LeavePrevious(st, s, u);
            && left.rooms == st.rooms[s := {}] && left.data == st.data && left.log == st.log
            && left.outbox == st.outbox + LeaveSnapshot(st, s)
            && GetOnline(left.roomUsers, prev) == OrderedSet.Delete(GetOnline(st.roomUsers, prev), u)
            && (forall r :: r != prev ==> GetOnline(left.roomUsers, r) == GetOnline(st.roomUsers, r))
  {
    var prev := st.data[s].room;
    assert st.rooms[s] == {prev};
    assert st.rooms[s] - {prev} == {};
  }

  /** The state after the leave part of `joinRoom`. */
  lemma LeftState(st: State, s: SocketId)
    requires Placed(st, s)
    ensures var u := st.data[s].user.username;
            var prev := st.data[s].room;
            var left := LeaveIfPlaced(st, s);
            && left.rooms == st.rooms[s := {}] && left.data == st.data && left.log == st.log
            && left.outbox == st.outbox + LeaveSnapshot(st, s)
            && (prev != "" ==> u !in GetOnline(left.roomUsers, prev))
  {
    if st.data[s].room != "" {
      LeavePreviousSpec(st, s);
    } else {
      assert st.rooms[s] == {};
    }
  }

  /** A second update of the same key overrides the first. */
  lemma UpdateTwice<K, V>(m: map<K, V>, k: K, a: V, b: V)
    ensures m[k := a][k := b] == m[k := b]
  {
  }

  /** Entering a room sets `data.room`, adds the socket.io room and the name, and sends one snapshot. */
  lemma EnterRoomSpec(st: State, s: SocketId, u: string, room: string)
    requires s in st.rooms && s in st.data
    ensures var joined := EnterRoom(st, s, u, room);
            && joined.data == st.data[s := st.data[s].(room := room)]
            && joined.rooms == st.rooms[s := st.rooms[s] + {room}]
            && joined.log == st.log
            && GetOnline(joined.roomUsers, room) == OrderedSet.Add(GetOnline(st.roomUsers, room), u)
            && (forall r :: r != room ==> GetOnline(joined.roomUsers, r) == GetOnline(st.roomUsers, r))
            && joined.outbox == st.outbox + [Emit(Members(joined.rooms, room), OnlineUsers(GetOnline(joined.roomUsers, room)))]
  {
  }

  /** Sending the history changes only the outbox. */
  lemma SendHistorySpec(st: State, s: SocketId, room: string, historyFails: bool)
    ensures var st' := SendHistory(st, s, room, historyFails);
            && st'.(outbox := st.outbox) == st
            && st'.outbox == st.outbox
                 + (if historyFails then [] else [Emit({s}, ChatHistory(History.Replay(st.log, room, History.JoinReplayLimit)))])
  {
  }

  /**
   * After a join the socket's room is the new one, it is in that socket.io
   * room and no other, and the store is untouched.
   */
  lemma JoinRoomSpec(st: State, s: SocketId, room: string, historyFails: bool)
    requires Placed(st, s)
    requires room != "" && st.data[s].user.username != ""
    ensures var st' := JoinRoomStep(st, s, room, historyFails);
            && st'.data == st.data[s := st.data[s].(room := room)]
            && st'.rooms == st.rooms[s := {room}]
            && st'.log == st.log
  {
    var u := st.data[s].user.username;
    var left := LeaveIfPlaced(st, s);
    LeftState(st, s);
    EnterRoomSpec(left, s, u, room);
    var joined := EnterRoom(left, s, u, room);
    SendHistorySpec(joined, s, room, historyFails);
    assert left.rooms[s] + {room} == {room};
    UpdateTwice(st.rooms, s, {}, {room});
  }

  /**
   * After a join the username is listed in the new room; when the socket
   * came from another room, the name and the socket are gone from it.
   */
  lemma JoinRoomPresence(st: State, s: SocketId, room: string, historyFails: bool)
    requires Placed(st, s)
    requires room != "" && st.data[s].user.username != ""
    ensures var st' := JoinRoomStep(st, s, room, historyFails);
            var u := st.data[s].user.username;
            var prev := st.data[s].room;
            && u in GetOnline(st'.roomUsers, room)
            && (prev != "" && prev != room ==> u !in GetOnline(st'.roomUsers, prev) && s !in Members(st'.rooms, prev))
  {
    var u := st.data[s].user.username;
    var left := LeaveIfPlaced(st, s);
    LeftState(st, s);
    EnterRoomSpec(left, s, u, room);
    var joined := EnterRoom(left, s, u, room);
    SendHistorySpec(joined, s, room, historyFails);
    JoinRoomSpec(st, s, room, historyFails);
  }

  /**
   * The events of a join, in order: a snapshot to the previous room (when
   * there was one), a snapshot to the new room, sent to every member with the
   * joiner included, and the replay of the room's newest 50 messages to the
   * joiner alone (unless the history query fails).
   */
  lemma JoinRoomEvents(st: State, s: SocketId, room: string, historyFails: bool)
    requires Placed(st, s)
    requires room != "" && st.data[s].user.username != ""
    ensures var st' := JoinRoomStep(st, s, room, historyFails);
            && s in Members(st'.rooms, room)
            && st'.outbox == st.outbox + LeaveSnapshot(st, s)
                 + [Emit(Members(st'.rooms, room), OnlineUsers(GetOnline(st'.roomUsers, room)))]
                 + (if historyFails then [] else [Emit({s}, ChatHistory(History.Replay(st.log, room, History.JoinReplayLimit)))])
  {
    var u := st.data[s].user.username;
    var left := LeaveIfPlaced(st, s);
    LeftState(st, s);
    EnterRoomSpec(left, s, u, room);
    var joined := EnterRoom(left, s, u, room);
    SendHistorySpec(joined, s, room, historyFails);
    assert s in Members(joined.rooms, room);
  }

  /** The registry after a join: the name leaves the previous room's set, then joins the new room's. */
  lemma JoinRoomUsers(st: State, s: SocketId, room: string, historyFails: bool)
    requires s in st.rooms && s in st.data
    requires room != "" && st.data[s].user.username != ""
    ensures var u := st.data[s].user.username;
            var prev := st.data[s].room;
            JoinRoomStep(st, s, room, historyFails).roomUsers ==
            AddUser(if prev != "" then RemoveUser(st.roomUsers, prev, u) else st.roomUsers, room, u)
  {
    SendHistorySpec(EnterRoom(LeaveIfPlaced(st, s), s, st.data[s].user.username, room), s, room, historyFails);
  }

  /**
   * Re-joining the current room takes the name out and puts it back at the
   * end of the list, and leaves the socket.io rooms as they were; by
   * `JoinRoomEvents` the room receives two snapshots, the leave snapshot and
   * then one with the name.
   */
  lemma RejoinSameRoom(st: State, s: SocketId, historyFails: bool)
    requires Placed(st, s)
    requires st.data[s].room != "" && st.data[s].user.username != ""
    ensures var room := st.data[s].room;
            var u := st.data[s].user.username;
            var st' := JoinRoomStep(st, s, room, historyFails);
            var without := OrderedSet.Delete(GetOnline(st.roomUsers, room), u);
            && GetOnline(st'.roomUsers, room) == without + [u]
            && st'.rooms == st.rooms
  {
    var room := st.data[s].room;
    var u := st.data[s].user.username;
    JoinRoomUsers(st, s, room, historyFails);
    ReaddUser(st.roomUsers, room, u);
    JoinRoomSpec(st, s, room, historyFails);
    UpdateSame(st.rooms, s);
  }

  /** Removing a name and adding it back moves it to the end of the room's list. */
  lemma ReaddUser(users: map<string, seq<string>>, room: string, u: string)
    ensures GetOnline(AddUser(RemoveUser(users, room, u), room, u), room) == OrderedSet.Delete(GetOnline(users, room), u) + [u]
  {
    var without := OrderedSet.Delete(GetOnline(users, room), u);
    assert GetOnline(RemoveUser(users, room, u), room) == without;
    assert OrderedSet.Add(without, u) == without + [u];
  }

  /** Updating a key with the value it already has changes nothing. */
  lemma UpdateSame<K, V>(m: map<K, V>, k: K)
    requires k in m
    ensures m[k := m[k]] == m
  {
  }

  /** The first of the two snapshots goes to the room's other members and lacks the name. */
  lemma RejoinLeaveSnapshot(st: State, s: SocketId)
    requires Placed(st, s) && st.data[s].room != ""
    ensures var room := st.data[s].room;
            LeaveSnapshot(st, s) ==
            [Emit(Members(st.rooms, room) - {s}, OnlineUsers(OrderedSet.Delete(GetOnline(st.roomUsers, room), st.data[s].user.username)))]
  {
    var room := st.data[s].room;
    assert Members(st.rooms[s := {}], room) == Members(st.rooms, room) - {s};
  }

  // ---------------------------------------------------------------------------
  // chatMessage
  // ---------------------------------------------------------------------------

  /**
   * The `chatMessage` handler. `text` is the payload's text ("" when absent),
   * `now` the store's clock, and `storeFails` whether the insert rejects, which
   * ends the handler before the broadcast.
   */
  function ChatMessageStep(st: State, s: SocketId, text: string, now: nat, storeFails: bool): State
    requires s in st.data
  {
    var u := st.data[s].user.username;
    var room := st.data[s].room;
    if u == "" || room == "" then st
    else
      var trimmed := Trim(text);
      if !AcceptedText(trimmed) || storeFails then st
      else
        var doc := History.Message(|st.log|, room, u, trimmed, now);
        st.(log := st.log + [doc], outbox := st.outbox + [Emit(Members(st.rooms, room), ChatMessage(doc))])
  }

  /**
   * A message is stored exactly when the socket has a room and a username and
   * the trimmed text is 1 to 1000 code units long (and the store does not
   * fail). Then exactly one record is appended, with the next id, the room,
   * the username, the trimmed text and the store's time, and exactly one event
   * is emitted: that same record, to every socket in the room, sender included.
   * Otherwise nothing changes.
   */
  lemma ChatMessageSpec(st: State, s: SocketId, text: string, now: nat, storeFails: bool)
    requires Inv(st) && s in st.rooms
    ensures var st' := ChatMessageStep(st, s, text, now, storeFails);
            var u := st.data[s].user.username;
            var room := st.data[s].room;
            var accepted := u != "" && room != "" && AcceptedText(Trim(text)) && !storeFails;
            && Inv(st')
            && (!accepted ==> st' == st)
            && (accepted ==>
                  && st'.log == st.log + [History.Message(|st.log|, room, u, Trim(text), now)]
                  && st'.outbox == st.outbox + [Emit(Members(st.rooms, room), ChatMessage(st'.log[|st.log|]))]
                  && s in Members(st.rooms, room)
                  && st'.roomUsers == st.roomUsers && st'.data == st.data && st'.rooms == st.rooms)
  {
  }

  /** A text of 1000 code units without surrounding whitespace is accepted as it is. */
  lemma LongestTextAccepted(text: string)
    requires IsTrimmed(text) && Utf16Length(text) == MaxTextLength
    ensures AcceptedText(Trim(text)) && Trim(text) == text
  {
    TrimOfTrimmed(text);
  }

  /** A text of more than 1000 code units without surrounding whitespace is dropped. */
  lemma OverlongTextDropped(text: string)
    requires IsTrimmed(text) && Utf16Length(text) > MaxTextLength
    ensures !AcceptedText(Trim(text))
  {
    TrimOfTrimmed(text);
  }

  /** A text made only of whitespace (including the empty text) is dropped. */
  lemma BlankTextDropped(text: string)
    requires AllWhitespace(text)
    ensures !AcceptedText(Trim(text))
  {
    TrimEmptyIff(text);
  }

  // ---------------------------------------------------------------------------
  // typing
  // ---------------------------------------------------------------------------

  /** The `typing` handler: `socket.to(room)` reaches the room's sockets except the sender. */
  function TypingStep(st: State, s: SocketId, isTyping: JsValue): State
    requires s in st.data
  {
    var u := st.data[s].user.username;
    var room := st.data[s].room;
    if u == "" || room == "" then st
    else st.(outbox := st.outbox + [Emit(Members(st.rooms, room) - {s}, Typing(u, Truthy(isTyping)))])
  }

  /**
   * Without a room, typing does nothing. Otherwise exactly one event is added:
   * the username and the coerced flag, to every other socket in the room and
   * never to the sender. Nothing else changes.
   */
  lemma TypingSpec(st: State, s: SocketId, isTyping: JsValue)
    requires Inv(st) && s in st.rooms
    ensures var st' := TypingStep(st, s, isTyping);
            var u := st.data[s].user.username;
            var room := st.data[s].room;
            && Inv(st')
            && (room == "" ==> st' == st)
            && (room != "" ==>
                  && st'.outbox == st.outbox + [Emit(Members(st.rooms, room) - {s}, Typing(u, Truthy(isTyping)))]
                  && s !in st'.outbox[|st.outbox|].to
                  && (forall t :: t in st'.outbox[|st.outbox|].to <==> t != s && t in st.rooms && room in st.rooms[t])
                  && st'.(outbox := st.outbox) == st)
  {
  }

  // ---------------------------------------------------------------------------
  // disconnect
  // ---------------------------------------------------------------------------

  /**
   * A disconnection. socket.io takes the socket out of all its rooms before the
   * `disconnect` handler runs; the handler then removes the username from the
   * current room and sends that room a snapshot. `data.room` is not cleared.
   */
  function DisconnectStep(st: State, s: SocketId): State
    requires s in st.data
  {
    var rooms := st.rooms - {s};
    var u := st.data[s].user.username;
    var room := st.data[s].room;
    if room != "" && u != "" then
      var users := RemoveUser(st.roomUsers, room, u);
      st.(rooms := rooms, roomUsers := users,
          outbox := st.outbox + [Emit(Members(rooms, room), OnlineUsers(GetOnline(users, room)))])
    else st.(rooms := rooms)
  }

  /**
   * A socket that never joined a room only leaves the adapter: no presence
   * change and no event. A socket in a room is removed from the room's
   * socket.io members and its username from the room's set (the set is
   * deleted once empty), and the remaining members receive one snapshot.
   */
  lemma DisconnectSpec(st: State, s: SocketId)
    requires Inv(st) && s in st.rooms
    ensures var st' := DisconnectStep(st, s);
            var u := st.data[s].user.username;
            var room := st.data[s].room;
            && Inv(st')
            && st'.rooms == st.rooms - {s} && st'.data == st.data && st'.log == st.log
            && (room == "" ==> st'.roomUsers == st.roomUsers && st'.outbox == st.outbox)
            && (room != "" ==>
                  && u !in GetOnline(st'.roomUsers, room)
                  && GetOnline(st'.roomUsers, room) == OrderedSet.Delete(GetOnline(st.roomUsers, room), u)
                  && (room in st'.roomUsers ==> st'.roomUsers[room] != [])
                  && (forall r :: r != room ==> GetOnline(st'.roomUsers, r) == GetOnline(st.roomUsers, r))
                  && st'.outbox == st.outbox + [Emit(Members(st.rooms, room) - {s}, OnlineUsers(GetOnline(st'.roomUsers, room)))])
  {
    var u := st.data[s].user.username;
    var room := st.data[s].room;
    var st' := DisconnectStep(st, s);
    if room != "" {
      WellFormedAfterRemove(st.roomUsers, room, u);
      SoundAfterLeave(st.roomUsers, st.data, st.rooms, s, room, u);
      assert st.rooms[s := st.rooms[s] - {room}] - {s} == st.rooms - {s};
      SoundAfterDrop(RemoveUser(st.roomUsers, room, u), st.data, st.rooms[s := st.rooms[s] - {room}], s);
      assert Members(st.rooms - {s}, room) == Members(st.rooms, room) - {s};
    } else {
      SoundAfterDrop(st.roomUsers, st.data, st.rooms, s);
    }
  }

  /**
   * The handler itself is not idempotent: since `data.room` survives, running
   * it a second time for the same socket sends the room's remaining members a
   * second, identical snapshot, and changes the presence no further.
   * (socket.io fires `disconnect` once per socket.)
   */
  lemma DisconnectTwiceSnapshotsTwice(st: State, s: SocketId)
    requires s in st.data && st.data[s].room != "" && st.data[s].user.username != ""
    ensures var room := st.data[s].room;
            var once := DisconnectStep(st, s);
            var twice := DisconnectStep(once, s);
            var snapshot := Emit(Members(st.rooms - {s}, room), OnlineUsers(GetOnline(once.roomUsers, room)));
            && twice.outbox == st.outbox + [snapshot, snapshot]
            && GetOnline(twice.roomUsers, room) == GetOnline(once.roomUsers, room)
  {
    var room := st.data[s].room;
    var u := st.data[s].user.username;
    var once := DisconnectStep(st, s);
    OrderedSet.DeleteAbsent(GetOnline(once.roomUsers, room), u);
    assert once.rooms - {s} == st.rooms - {s};
  }

  /**
   * Presence is keyed by username: when one of two sockets of the same user
   * in a room disconnects, the name leaves the online list although the other
   * socket is still a member of the room.
   */
  lemma SharedUsernameLeavesEarly(st: State, s1: SocketId, s2: SocketId)
    requires Inv(st) && s1 in st.rooms && s2 in st.rooms && s1 != s2
    requires st.data[s1].room != "" && st.data[s2].room == st.data[s1].room
    requires st.data[s1].user.username == st.data[s2].user.username
    ensures var room := st.data[s1].room;
            var st' := DisconnectStep(st, s1);
            && s2 in Members(st'.rooms, room)
            && st.data[s1].user.username !in GetOnline(st'.roomUsers, room)
  {
  }

  /** Every name on a room's online list belongs to a connected socket that is in the room. */
  lemma OnlineMeansConnected(st: State, room: string, u: string)
    requires Inv(st) && u in GetOnline(st.roomUsers, room)
    ensures ConnectedIn(st, room, u)
  {
  }

  /** Some connected socket of user u is a member of the room. */
  ghost predicate ConnectedIn(st: State, room: string, u: string)
  {
    exists s :: s in Members(st.rooms, room) && s in st.data && st.data[s].user.username == u
  }

  /** A connected socket is in at most one socket.io room, the one `data.room` names. */
  lemma AtMostOneRoom(st: State, s: SocketId, r1: string, r2: string)
    requires Inv(st) && s in Members(st.rooms, r1) && s in Members(st.rooms, r2)
    ensures r1 == r2 && r1 == st.data[s].room
  {
  }

  // ---------------------------------------------------------------------------
  // The server object
  // ---------------------------------------------------------------------------

  /** The server process: the module-level `roomUsers` map, the sockets, the store and what was emitted. */
  class ChatServer {
    const verify: Verifier
    var roomUsers: map<string, seq<string>>
    var data: map<SocketId, SocketData>
    var rooms: map<SocketId, set<string>>
    var log: seq<Message>
    var outbox: seq<Emit>

    ghost function Snapshot(): State
      reads this
    {
      State(roomUsers, data, rooms, log, outbox)
    }

    ghost predicate Valid()
      reads this
    {
      Inv(Snapshot())
    }

    constructor (verify: Verifier)
      ensures Valid() && Snapshot() == Initial && this.verify == verify
    {
      this.verify := verify;
      roomUsers, data, rooms, log, outbox := map[], map[], map[], [], [];
    }

    /** `io.use`: on success `socket.data.user` is set and the socket connects. */
    method Handshake(s: SocketId, token: string) returns (h: Handshake)
      requires Valid() && s !in data
      modifies this
      ensures Valid()
      ensures h == Authenticate(token, verify)
      ensures Snapshot() == ConnectStep(old(Snapshot()), s, token, verify)
    {
      ConnectSpec(Snapshot(), s, token, verify);
      h := Authenticate(token, verify);
      if h.Accepted? {
        data := data[s := SocketData(h.user, "")];
        rooms := rooms[s := {}];
      }
    }

    /** `set.delete(username)` on the room's set, and the set's removal once it is empty. */
    method Unlist(room: string, username: string)
      modifies this
      ensures roomUsers == RemoveUser(old(roomUsers), room, username)
      ensures data == old(data) && rooms == old(rooms) && log == old(log) && outbox == old(outbox)
    {
      if room in roomUsers {
        var members := OrderedSet.Delete(roomUsers[room], username);
        roomUsers := roomUsers[room := members];
        if members == [] {
          roomUsers := roomUsers - {room};
        }
      }
    }

    /** Creates the room's set when missing, then `add(username)`. */
    method List(room: string, username: string)
      modifies this
      ensures roomUsers == AddUser(old(roomUsers), room, username)
      ensures data == old(data) && rooms == old(rooms) && log == old(log) && outbox == old(outbox)
    {
      var members := if room in roomUsers then roomUsers[room] else [];
      roomUsers := roomUsers[room := OrderedSet.Add(members, username)];
    }

    /** `socket.leave(prev)`, the username leaves prev's set, and prev gets a snapshot. */
    method Leave(s: SocketId, username: string)
      requires s in rooms && s in data
      modifies this
      ensures Snapshot() == LeavePrevious(old(Snapshot()), s, username)
    {
      ghost var st := Snapshot();
      var prev := data[s].room;
      rooms := rooms[s := rooms[s] - {prev}];
      Unlist(prev, username);
      assert Snapshot() == st.(rooms := rooms, roomUsers := roomUsers);
      outbox := outbox + [Emit(Members(rooms, prev), OnlineUsers(GetOnline(roomUsers, prev)))];
    }

    /** `socket.data.room = room`, `socket.join(room)`, the username joins the set, and the room gets a snapshot. */
    method Enter(s: SocketId, username: string, room: string)
      requires s in rooms && s in data
      modifies this
      ensures Snapshot() == EnterRoom(old(Snapshot()), s, username, room)
    {
      ghost var st := Snapshot();
      data := data[s := data[s].(room := room)];
      rooms := rooms[s := rooms[s] + {room}];
      List(room, username);
      assert Snapshot() == st.(data := data, rooms := rooms, roomUsers := roomUsers);
      outbox := outbox + [Emit(Members(rooms, room), OnlineUsers(GetOnline(roomUsers, room)))];
    }

    method OnJoinRoom(s: SocketId, room: string, historyFails: bool)
      requires Valid() && s in rooms
      modifies this
      ensures Valid()
      ensures Snapshot() == JoinRoomStep(old(Snapshot()), s, room, historyFails)
    {
      ghost var st := Snapshot();
      var username := data[s].user.username;
      if room == "" || username == "" {
        return;
      }
      if data[s].room != "" {
        Leave(s, username);
      }
      assert Snapshot() == LeaveIfPlaced(st, s);
      Enter(s, username, room);
      ghost var joined := Snapshot();
      assert joined == EnterRoom(LeaveIfPlaced(st, s), s, username, room);
      if !historyFails {
        var history := History.Replay(log, room, History.JoinReplayLimit);
        outbox := outbox + [Emit({s}, ChatHistory(history))];
      }
      assert Snapshot() == SendHistory(joined, s, room, historyFails);
      JoinRoomInv(st, s, room, historyFails);
    }

    method OnChatMessage(s: SocketId, text: string, now: nat, storeFails: bool)
      requires Valid() && s in rooms
      modifies this
      ensures Valid()
      ensures Snapshot() == ChatMessageStep(old(Snapshot()), s, text, now, storeFails)
    {
      ChatMessageSpec(Snapshot(), s, text, now, storeFails);
      var username := data[s].user.username;
      var room := data[s].room;
      if username == "" || room == "" {
        return;
      }
      var trimmed := Trim(text);
      if trimmed == "" || Utf16Length(trimmed) > MaxTextLength {
        return;
      }
      if storeFails {
        return;
      }
      var doc := History.Message(|log|, room, username, trimmed, now);
      log := log + [doc];
      outbox := outbox + [Emit(Members(rooms, room), ChatMessage(doc))];
    }

    method OnTyping(s: SocketId, isTyping: JsValue)
      requires Valid() && s in rooms
      modifies this
      ensures Valid()
      ensures Snapshot() == TypingStep(old(Snapshot()), s, isTyping)
    {
      TypingSpec(Snapshot(), s, isTyping);
      var username := data[s].user.username;
      var room := data[s].room;
      if username == "" || room == "" {
        return;
      }
      outbox := outbox + [Emit(Members(rooms, room) - {s}, Typing(username, Truthy(isTyping)))];
    }

    method OnDisconnect(s: SocketId)
      requires Valid() && s in rooms
      modifies this
      ensures Valid()
      ensures Snapshot() == DisconnectStep(old(Snapshot()), s)
    {
      DisconnectSpec(Snapshot(), s);
      rooms := rooms - {s};
      var username := data[s].user.username;
      var room := data[s].room;
      if room != "" && username != "" {
        ghost var st := Snapshot();
        Unlist(room, username);
        assert Snapshot() == st.(roomUsers := roomUsers);
        outbox := outbox + [Emit(Members(rooms, room), OnlineUsers(GetOnline(roomUsers, room)))];
      }
    }
  }
}
