/**
 * The message history as the server reads it back: the room's messages
 * sorted newest-first by creation time, cut to a limit, and reversed so that
 * the client receives them oldest-first. This is both the replay sent on
 * `joinRoom` and the protected REST route `/rooms/:room/messages`.
 */
module History {
  import opened Wrappers

  /** A persisted chat message; the store assigns `id` and `createdAt`. */
  datatype Message = Message(id: nat, room: string, username: string, text: string, createdAt: nat)

  /**
   * The store's order: creation time, ties broken by insertion order (the id).
   * The database leaves the order of equal timestamps open; the id fixes one.
   */
  predicate NotNewer(a: Message, b: Message)
  {
    a.createdAt < b.createdAt || (a.createdAt == b.createdAt && a.id <= b.id)
  }

  predicate NewestFirst(s: seq<Message>)
  {
    forall i, j :: 0 <= i < j < |s| ==> NotNewer(s[j], s[i])
  }

  predicate OldestFirst(s: seq<Message>)
  {
    forall i, j :: 0 <= i < j < |s| ==> NotNewer(s[i], s[j])
  }

  /** Every message of s belongs to the room. */
  ghost predicate AllInRoom(s: seq<Message>, room: string)
  {
    forall i :: 0 <= i < |s| ==> s[i].room == room
  }

  /** The query `{ room }`: only the room's messages, none added. */
  function InRoom(log: seq<Message>, room: string): (r: seq<Message>)
    ensures AllInRoom(r, room)
    ensures multiset(r) <= multiset(log)
  {
    if log == [] then []
    else
      assert log == [log[0]] + log[1..];
      (if log[0].room == room then [log[0]] else []) + InRoom(log[1..], room)
  }

  /** The query loses none of the room's messages. */
  lemma {:induction false} InRoomComplete(log: seq<Message>, room: string)
    ensures forall m: Message :: m.room == room ==> multiset(InRoom(log, room))[m] == multiset(log)[m]
  {
    if log != [] {
      InRoomComplete(log[1..], room);
      assert log == [log[0]] + log[1..];
    }
  }

  /** A sub-multiset of the room's messages holds only the room's messages. */
  lemma SubMultisetInRoom(a: seq<Message>, b: seq<Message>, room: string)
    requires AllInRoom(b, room) && multiset(a) <= multiset(b)
    ensures AllInRoom(a, room)
  {
    forall i | 0 <= i < |a| ensures a[i].room == room {
      assert a[i] in multiset(b);
      var j :| 0 <= j < |b| && b[j] == a[i];
    }
  }

  /** One step of the sort: m goes in front of the first message not newer than it. */
  function Insert(m: Message, s: seq<Message>): (r: seq<Message>)
    requires NewestFirst(s)
    ensures NewestFirst(r)
    ensures multiset(r) == multiset(s) + multiset{m}
    ensures |r| == |s| + 1 && (r[0] == m || (s != [] && r[0] == s[0]))
  {
    if s == [] || NotNewer(s[0], m) then [m] + s
    else
      var rest := Insert(m, s[1..]);
      assert s == [s[0]] + s[1..];
      assert |s| > 1 ==> s[1..][0] == s[1] && NotNewer(s[1], s[0]);
      ConsNewestFirst(s[0], rest);
      [s[0]] + rest
  }

  /** A message not older than the head of a newest-first sequence can go in front of it. */
  lemma ConsNewestFirst(h: Message, s: seq<Message>)
    requires NewestFirst(s) && (s != [] ==> NotNewer(s[0], h))
    ensures NewestFirst([h] + s)
  {
    var r := [h] + s;
    forall i, j | 0 <= i < j < |r| ensures NotNewer(r[j], r[i]) {
      assert r[j] == s[j - 1];
      if i == 0 && j > 1 {
        assert NotNewer(s[j - 1], s[0]);
      } else if i > 0 {
        assert r[i] == s[i - 1];
      }
    }
  }

  /** `sort({ createdAt: -1 })`: a newest-first permutation of its input. */
  function SortNewestFirst(s: seq<Message>): (r: seq<Message>)
    ensures NewestFirst(r)
    ensures multiset(r) == multiset(s)
    ensures |r| == |s|
  {
    if s == [] then []
    else
      assert s == [s[0]] + s[1..];
      Insert(s[0], SortNewestFirst(s[1..]))
  }

  /** `limit(n)` for a positive n: the first n elements, or all of them when there are fewer. */
  function Take<T>(s: seq<T>, n: nat): (r: seq<T>)
    ensures |r| == if n < |s| then n else |s|
    ensures r == s[..|r|]
  {
    if n < |s| then s[..n] else s
  }

  /** A cut splits a sequence, and its multiset, into the kept prefix and the rest. */
  lemma TakeSplit<T>(s: seq<T>, n: nat)
    ensures s == Take(s, n) + s[|Take(s, n)|..]
    ensures multiset(s) == multiset(Take(s, n)) + multiset(s[|Take(s, n)|..])
  {
    var t := Take(s, n);
    assert s == t + s[|t|..];
  }

  /** A prefix of a newest-first sequence is newest-first. */
  lemma TakeNewestFirst(s: seq<Message>, n: nat)
    requires NewestFirst(s)
    ensures NewestFirst(Take(s, n))
  {
    var t := Take(s, n);
    forall i, j | 0 <= i < j < |t| ensures NotNewer(t[j], t[i]) {
      assert t[i] == s[i] && t[j] == s[j];
    }
  }

  /** Array.prototype.reverse. */
  function Reverse<T>(s: seq<T>): (r: seq<T>)
    ensures |r| == |s|
    ensures forall i :: 0 <= i < |s| ==> r[i] == s[|s| - 1 - i]
  {
    if s == [] then [] else Reverse(s[1..]) + [s[0]]
  }

  /** Reversing a newest-first sequence gives an oldest-first one. */
  lemma ReverseNewestFirst(s: seq<Message>)
    requires NewestFirst(s)
    ensures OldestFirst(Reverse(s))
  {
    var r := Reverse(s);
    forall i, j | 0 <= i < j < |r| ensures NotNewer(r[i], r[j]) {
      assert r[i] == s[|s| - 1 - i] && r[j] == s[|s| - 1 - j];
    }
  }

  lemma {:induction false} ReverseMultiset<T>(s: seq<T>)
    ensures multiset(Reverse(s)) == multiset(s)
  {
    if s != [] {
      ReverseMultiset(s[1..]);
      assert s == [s[0]] + s[1..];
    }
  }

  /** The number of messages replayed on joining a room. */
  const JoinReplayLimit: nat := 50

  /** find({ room }).sort({ createdAt: -1 }).limit(n), reversed. */
  function Replay(log: seq<Message>, room: string, limit: nat): seq<Message>
  {
    Reverse(Take(SortNewestFirst(InRoom(log, room)), limit))
  }

  /** The replay is as long as the limit allows. */
  lemma ReplayLength(log: seq<Message>, room: string, limit: nat)
    ensures |Replay(log, room, limit)| == if limit < |InRoom(log, room)| then limit else |InRoom(log, room)|
  {
  }

  /** Every replayed message belongs to the room, and none is replayed more often than it was stored. */
  lemma ReplayFromRoom(log: seq<Message>, room: string, limit: nat)
    ensures AllInRoom(Replay(log, room, limit), room)
    ensures multiset(Replay(log, room, limit)) <= multiset(InRoom(log, room))
  {
    var sorted := SortNewestFirst(InRoom(log, room));
    TakeSplit(sorted, limit);
    ReverseMultiset(Take(sorted, limit));
    SubMultisetInRoom(Replay(log, room, limit), InRoom(log, room), room);
  }

  /** The replay is delivered oldest-first. */
  lemma ReplayOldestFirst(log: seq<Message>, room: string, limit: nat)
    ensures OldestFirst(Replay(log, room, limit))
  {
    var sorted := SortNewestFirst(InRoom(log, room));
    TakeNewestFirst(sorted, limit);
    ReverseNewestFirst(Take(sorted, limit));
  }

  /** In a newest-first sequence, whatever follows a cut is not newer than what precedes it. */
  lemma DroppedNotNewer(s: seq<Message>, t: seq<Message>, d: seq<Message>)
    requires NewestFirst(s) && s == t + d
    ensures forall x, y :: x in d && y in t ==> NotNewer(x, y)
  {
    forall x, y | x in d && y in t ensures NotNewer(x, y) {
      var k :| 0 <= k < |d| && d[k] == x;
      var j :| 0 <= j < |t| && t[j] == y;
      assert s[|t| + k] == x && s[j] == y;
    }
  }

  /** The room messages a replay under `limit` leaves out. */
  function Dropped(log: seq<Message>, room: string, limit: nat): seq<Message>
  {
    var sorted := SortNewestFirst(InRoom(log, room));
    sorted[|Take(sorted, limit)|..]
  }

  /**
   * The replay keeps the room's newest messages: the room's messages are split
   * between the replay and the dropped rest, and nothing dropped is newer than
   * anything replayed.
   */
  lemma ReplayIsNewest(log: seq<Message>, room: string, limit: nat)
    ensures multiset(Replay(log, room, limit)) + multiset(Dropped(log, room, limit)) == multiset(InRoom(log, room))
    ensures forall x, y :: x in Dropped(log, room, limit) && y in Replay(log, room, limit) ==> NotNewer(x, y)
  {
    var sorted := SortNewestFirst(InRoom(log, room));
    var t := Take(sorted, limit);
    TakeSplit(sorted, limit);
    ReverseMultiset(t);
    DroppedNotNewer(sorted, t, Dropped(log, room, limit));
  }

  /** The join replay is the REST history with its default limit. */
  lemma JoinReplayIsRestDefault(log: seq<Message>, room: string)
    ensures RestHistory(log, room, None) == Replay(log, room, JoinReplayLimit)
  {
  }

  const DefaultRestLimit: nat := 50
  const MaxRestLimit: nat := 200

  /**
   * `Math.min(parseInt(req.query.limit || '50', 10), 200)`. The argument is the
   * parsed number, None when the parameter is absent or empty.
   */
  function RestLimit(limitParam: Option<int>): (n: int)
    ensures n <= MaxRestLimit
    ensures limitParam.None? ==> n == DefaultRestLimit
    ensures limitParam.Some? && limitParam.value <= MaxRestLimit ==> n == limitParam.value
    ensures limitParam.Some? && limitParam.value > MaxRestLimit ==> n == MaxRestLimit
  {
    var requested := if limitParam.Some? then limitParam.value else DefaultRestLimit;
    if requested < MaxRestLimit then requested else MaxRestLimit
  }

  /**
   * The database's `limit(k)`: 0 means no limit, and a negative k returns at
   * most |k| documents (in a single batch).
   */
  function DbLimit<T>(s: seq<T>, k: int): (r: seq<T>)
    ensures k == 0 ==> r == s
    ensures var m := if k < 0 then -k else k;
            k != 0 ==> |r| == (if m < |s| then m else |s|) && r == s[..|r|]
  {
    if k == 0 then s else Take(s, if k < 0 then -k else k)
  }

  /** The REST route as written. */
  function RestHistoryAsWritten(log: seq<Message>, room: string, limitParam: Option<int>): seq<Message>
  {
    Reverse(DbLimit(SortNewestFirst(InRoom(log, room)), RestLimit(limitParam)))
  }

  /**
   * As written, `?limit=0` returns the room's whole history and `?limit=-k`
   * up to k messages: the cap of 200 holds only for positive requests.
   */
  lemma RestCapBypassed(log: seq<Message>, room: string, k: int)
    requires k >= 1
    ensures |RestHistoryAsWritten(log, room, Some(0))| == |InRoom(log, room)|
    ensures |RestHistoryAsWritten(log, room, Some(-k))| == (if k < |InRoom(log, room)| then k else |InRoom(log, room)|)
  {
  }

  /** The evidently intended limit: the requested number within 1..200, the default otherwise. */
  function ClampedRestLimit(limitParam: Option<int>): (n: nat)
    ensures 1 <= n <= MaxRestLimit
    ensures limitParam.Some? && 1 <= limitParam.value ==> n == RestLimit(limitParam)
    ensures (limitParam.None? || limitParam.value < 1) ==> n == DefaultRestLimit
  {
    if limitParam.Some? && 1 <= limitParam.value then RestLimit(limitParam) else DefaultRestLimit
  }

  /** The REST history with the intended limit: the replay under that limit. */
  function RestHistory(log: seq<Message>, room: string, limitParam: Option<int>): seq<Message>
  {
    Replay(log, room, ClampedRestLimit(limitParam))
  }

  /**
   * The intended route never returns more than 200 messages; being a replay,
   * they are the room's newest, oldest-first (ReplayIsNewest, ReplayOldestFirst).
   */
  lemma RestHistoryBounded(log: seq<Message>, room: string, limitParam: Option<int>)
    ensures |RestHistory(log, room, limitParam)| <= MaxRestLimit
  {
  }

  /** For an absent parameter or a positive one, the intended route and the route as written agree. */
  lemma RestHistoryAgrees(log: seq<Message>, room: string, limitParam: Option<int>)
    requires limitParam.None? || 1 <= limitParam.value
    ensures RestHistoryAsWritten(log, room, limitParam) == RestHistory(log, room, limitParam)
  {
  }
}
