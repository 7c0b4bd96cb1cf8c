/**
 * What clients see of the server's events: a broadcast chat message passes
 * the room's filters and is appended, an online-users snapshot shows only
 * connected names, and a replayed history renders with distinct keys.
 */
module Delivery {
  import opened Wrappers
  import JsString
  import OrderedSet
  import History
  import Session
  import Wire
  import ChatRoom
  import MessageList

  /** Stored records are pairwise distinct, since each carries its own position as id. */
  lemma LogNoDup(log: seq<History.Message>)
    requires Session.LogWellFormed(log)
    ensures OrderedSet.NoDup(log)
  {
  }

  /**
   * The event an accepted `chatMessage` broadcasts carries the trimmed text
   * and, once serialized, is appended by every receiving chat room.
   */
  lemma BroadcastAppended(st: Session.State, s: Session.SocketId, text: string, now: nat, shown: seq<Wire.WireMessage>)
    requires Session.Inv(st) && s in st.rooms
    requires st.data[s].room != "" && Session.AcceptedText(JsString.Trim(text))
    ensures var st' := Session.ChatMessageStep(st, s, text, now, false);
            && |st'.outbox| == |st.outbox| + 1
            && st'.outbox[|st.outbox|].event.ChatMessage?
            && var w := Wire.ToWire(st'.outbox[|st.outbox|].event.message);
               && w.text == JsString.Trim(text) && w.username == st.data[s].user.username
               && ChatRoom.OnChatMessage(shown, Some(w)) == shown + [w]
  {
    Session.ChatMessageSpec(st, s, text, now, false);
  }

  /**
   * Every `onlineUsers` snapshot the server sends is the registry's list for
   * the room in the state it has just reached (LeavePreviousSpec,
   * EnterRoomSpec, DisconnectSpec), and that state keeps the invariant. A
   * client applying it shows exactly that list, without duplicates and free
   * of "", and every name it shows belongs to a connected socket in the room.
   */
  lemma OnlineSnapshotShown(st: Session.State, room: string)
    requires Session.Inv(st)
    ensures var names := Session.GetOnline(st.roomUsers, room);
            var shown := ChatRoom.OnOnlineUsers(ChatRoom.Names(names));
            && shown == names
            && OrderedSet.NoDup(shown) && "" !in shown
            && forall u :: u in shown ==> Session.ConnectedIn(st, room, u)
  {
    assert OrderedSet.NoDup<string>([]);
    forall u | u in Session.GetOnline(st.roomUsers, room) ensures Session.ConnectedIn(st, room, u) {
      Session.OnlineMeansConnected(st, room, u);
    }
  }

  /** Any selection of stored records consists of the records at the positions their ids name. */
  lemma SelectionAtIds(a: seq<History.Message>, log: seq<History.Message>)
    requires Session.LogWellFormed(log) && multiset(a) <= multiset(log)
    ensures forall i :: 0 <= i < |a| ==> a[i].id < |log| && a[i] == log[a[i].id]
  {
    forall i | 0 <= i < |a| ensures a[i].id < |log| && a[i] == log[a[i].id] {
      assert a[i] in multiset(log);
      var p :| 0 <= p < |log| && log[p] == a[i];
    }
  }

  /** A replayed message is the stored record at the position its id names. */
  lemma ReplayFromLog(log: seq<History.Message>, room: string, limit: nat)
    requires Session.LogWellFormed(log)
    ensures var r := History.Replay(log, room, limit);
            forall i :: 0 <= i < |r| ==> r[i].id < |log| && r[i] == log[r[i].id]
  {
    History.ReplayFromRoom(log, room, limit);
    SelectionAtIds(History.Replay(log, room, limit), log);
  }

  /** No record is replayed twice, so the replayed ids are pairwise distinct. */
  lemma ReplayIdsDistinct(log: seq<History.Message>, room: string, limit: nat)
    requires Session.LogWellFormed(log)
    ensures var r := History.Replay(log, room, limit);
            forall i, j :: 0 <= i < j < |r| ==> r[i].id != r[j].id
  {
    var r := History.Replay(log, room, limit);
    History.ReplayFromRoom(log, room, limit);
    LogNoDup(log);
    OrderedSet.SubMultisetNoDup(r, log);
    ReplayFromLog(log, room, limit);
  }

  /**
   * A replayed history renders completely: every message passes the list's
   * filter, and no two of them share a React key.
   */
  lemma HistoryRendersWithDistinctKeys(log: seq<History.Message>, room: string, limit: nat)
    requires Session.LogWellFormed(log)
    ensures var r := History.Replay(log, room, limit);
            && (forall i :: 0 <= i < |r| ==> Wire.Renderable(Some(Wire.ToWire(r[i]))))
            && (forall i, j :: 0 <= i < j < |r| ==>
                  MessageList.Key(Wire.ToWire(r[i])) != MessageList.Key(Wire.ToWire(r[j])))
  {
    var r := History.Replay(log, room, limit);
    ReplayFromLog(log, room, limit);
    ReplayIdsDistinct(log, room, limit);
    forall i | 0 <= i < |r| ensures Wire.Renderable(Some(Wire.ToWire(r[i]))) {
      assert r[i] == log[r[i].id];
    }
    forall i, j | 0 <= i < j < |r|
      ensures MessageList.Key(Wire.ToWire(r[i])) != MessageList.Key(Wire.ToWire(r[j]))
    {
      MessageList.ServerKeysDistinct(r[i], r[j]);
    }
  }
}
