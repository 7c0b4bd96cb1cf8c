/**
 * The web client's chat room: how it folds incoming socket events into its
 * state (messages, online list, the set of typing users), the typing
 * indicator text, and the guard on creating a room.
 */
module ChatRoom {
  import opened Wrappers
  import opened JsString
  import opened Wire
  import OrderedSet
  import MessageList

  /** `onChatMessage`: a renderable message is appended, anything else is ignored. */
  function OnChatMessage(prev: seq<WireMessage>, msg: Option<WireMessage>): (next: seq<WireMessage>)
    ensures Renderable(msg) ==> next == prev + [msg.value]
    ensures !Renderable(msg) ==> next == prev
  {
    if !Renderable(msg) then prev else prev + [msg.value]
  }

  /** The message state handed to the list as its `messages` prop. */
  function AsProp(ms: seq<WireMessage>): (p: MessageList.MessagesProp)
    ensures p.Array? && |p.items| == |ms|
    ensures forall i :: 0 <= i < |ms| ==> p.items[i] == Some(ms[i])
  {
    MessageList.Array(seq(|ms|, i requires 0 <= i < |ms| => Some(ms[i])))
  }

  /** Every message the room state holds passes the list's filter. */
  ghost predicate AllRenderable(ms: seq<WireMessage>)
  {
    forall i :: 0 <= i < |ms| ==> ms[i].text != "" && ms[i].username != ""
  }

  /**
   * The room only ever holds renderable messages, and the list then shows all
   * of them in arrival order: what `onChatMessage` accepts is exactly what is
   * rendered.
   */
  lemma ChatMessageShown(prev: seq<WireMessage>, msg: Option<WireMessage>)
    requires AllRenderable(prev)
    ensures AllRenderable(OnChatMessage(prev, msg))
    ensures MessageList.Clean(AsProp(OnChatMessage(prev, msg))) == OnChatMessage(prev, msg)
  {
    var next := OnChatMessage(prev, msg);
    MessageList.KeepAllRenderable(AsProp(next).items);
    assert MessageList.Keep(AsProp(next).items) == next;
  }

  /** The `onlineUsers` payload: an array of names, or any other value. */
  datatype OnlineUsersPayload = Names(names: seq<string>) | NotNames

  /** `onOnlineUsers`: an array replaces the list wholesale, anything else empties it. */
  function OnOnlineUsers(payload: OnlineUsersPayload): (list: seq<string>)
    ensures payload.Names? ==> list == payload.names
    ensures payload.NotNames? ==> list == []
  {
    match payload
    case Names(names) => names
    case NotNames => []
  }

  /** `onTyping`: a fresh copy of the set with u added or removed. */
  function OnTyping(prev: seq<string>, u: string, isTyping: bool): (next: seq<string>)
    ensures u in next <==> isTyping
    ensures forall v :: v != u ==> (v in next <==> v in prev)
    ensures OrderedSet.NoDup(prev) ==> OrderedSet.NoDup(next)
  {
    if isTyping then OrderedSet.Add(prev, u) else OrderedSet.Delete(prev, u)
  }

  /** A user who starts and then stops typing leaves the set as it was. */
  lemma TypingStartStop(prev: seq<string>, u: string)
    requires u !in prev
    ensures OnTyping(OnTyping(prev, u, true), u, false) == prev
  {
    OrderedSet.AddThenDelete(prev, u);
  }

  /** Repeating the same typing event changes nothing the second time. */
  lemma TypingRepeat(prev: seq<string>, u: string, isTyping: bool)
    ensures OnTyping(OnTyping(prev, u, isTyping), u, isTyping) == OnTyping(prev, u, isTyping)
  {
    if !isTyping {
      OrderedSet.DeleteAbsent(OrderedSet.Delete(prev, u), u);
    }
  }

  /** `.filter(u => u !== username)`, which keeps order. */
  function Others(typers: seq<string>, me: string): (r: seq<string>)
    ensures |r| <= |typers|
  {
    if typers == [] then [] else (if typers[0] == me then [] else [typers[0]]) + Others(typers[1..], me)
  }

  /** The filter keeps exactly the names other than the viewer's. */
  lemma {:induction false} OthersMembers(typers: seq<string>, me: string)
    ensures forall u :: u in Others(typers, me) <==> u in typers && u != me
  {
    if typers != [] {
      OthersMembers(typers[1..], me);
      assert typers == [typers[0]] + typers[1..];
    }
  }

  lemma {:induction false} OthersConcat(a: seq<string>, b: seq<string>, me: string)
    ensures Others(a + b, me) == Others(a, me) + Others(b, me)
  {
    if a == [] {
      assert a + b == b;
    } else {
      OrderedSet.ConcatCons(a, b);
      OthersConcat(a[1..], b, me);
    }
  }

  lemma {:induction false} OthersAfterDelete(typers: seq<string>, me: string)
    ensures Others(OrderedSet.Delete(typers, me), me) == Others(typers, me)
  {
    if typers != [] {
      OthersAfterDelete(typers[1..], me);
    }
  }

  /** The indicator for a list of other typers: "", one name, or two names and a count of the rest. */
  function Indicator(others: seq<string>): string
  {
    if |others| == 0 then ""
    else if |others| == 1 then others[0] + " is typing..."
    else Join(others[..2], ", ") + (if |others| > 2 then " +" + NatToString(|others| - 2) else "") + " are typing..."
  }

  /** `typingText`: the indicator for everyone typing except the viewer. */
  function TypingText(typers: seq<string>, me: string): string
  {
    Indicator(Others(typers, me))
  }

  /** The text is empty exactly when no one but the viewer is typing. */
  lemma TypingTextEmptyIff(typers: seq<string>, me: string)
    ensures TypingText(typers, me) == "" <==> forall u :: u in typers ==> u == me
  {
    var others := Others(typers, me);
    OthersMembers(typers, me);
    if |others| > 0 {
      assert others[0] in others;
    }
  }

  /**
   * With one other typer the text names that user; with more, it names the
   * first two in order, separated by ", ", followed by " +k" when k > 0 more
   * are typing, written in decimal without a leading zero, so that k can be
   * read back from the text.
   */
  lemma TypingTextForms(typers: seq<string>, me: string)
    ensures var others := Others(typers, me);
            && (|others| == 1 ==> TypingText(typers, me) == others[0] + " is typing...")
            && (|others| == 2 ==> TypingText(typers, me) == others[0] + ", " + others[1] + " are typing...")
            && (|others| > 2 ==>
                  exists count: string ::
                    && IsDecimal(count) && count[0] != '0' && DecimalValue(count) == |others| - 2
                    && TypingText(typers, me) == others[0] + ", " + others[1] + " +" + count + " are typing...")
  {
    var others := Others(typers, me);
    if |others| == 2 {
      JoinFirstTwo(others, ", ");
    } else if |others| > 2 {
      IndicatorMany(others);
    }
  }

  /** The indicator for more than two typers, with the count of the rest. */
  lemma IndicatorMany(others: seq<string>)
    requires |others| > 2
    ensures var count := NatToString(|others| - 2);
            Indicator(others) == others[0] + ", " + others[1] + " +" + count + " are typing..."
  {
    JoinFirstTwo(others, ", ");
    var count := NatToString(|others| - 2);
    assert Indicator(others) == (others[0] + ", " + others[1]) + (" +" + count) + " are typing...";
  }

  /** The first two names, joined. */
  lemma JoinFirstTwo(names: seq<string>, sep: string)
    requires |names| >= 2
    ensures Join(names[..2], sep) == names[0] + sep + names[1]
  {
    assert names[..2][1..] == [names[1]];
  }

  /** The viewer's own typing events never change the viewer's indicator. */
  lemma OwnTypingIgnored(typers: seq<string>, me: string, isTyping: bool)
    ensures TypingText(OnTyping(typers, me, isTyping), me) == TypingText(typers, me)
  {
    assert Others(OnTyping(typers, me, isTyping), me) == Others(typers, me) by {
      if isTyping {
        if me !in typers {
          OthersConcat(typers, [me], me);
          assert Others([me], me) == [];
          assert OnTyping(typers, me, true) == typers + [me];
        }
      } else {
        OthersAfterDelete(typers, me);
      }
    }
  }

  /** The outcome of `createRoom`: the name posted, if any, and the input field afterwards. */
  datatype CreateOutcome = CreateOutcome(posted: Option<string>, input: string)

  /**
   * `createRoom`: a blank name posts nothing; otherwise the trimmed name is
   * posted, and the field is cleared once the awaited `fetch` resolves. When
   * the fetch rejects (`fetchRejects`), the function stops at the `await` and
   * the field keeps what was typed. An HTTP error status still resolves.
   */
  function CreateRoom(newRoom: string, fetchRejects: bool): (o: CreateOutcome)
    ensures o.posted.Some? <==> !AllWhitespace(newRoom)
    ensures o.posted.Some? ==> o.posted.value == Trim(newRoom) && o.posted.value != "" && IsTrimmed(o.posted.value)
    ensures o.posted.Some? && !fetchRejects ==> o.input == ""
    ensures o.posted.None? || fetchRejects ==> o.input == newRoom
  {
    TrimEmptyIff(newRoom);
    var name := Trim(newRoom);
    if name == "" then CreateOutcome(None, newRoom)
    else if fetchRejects then CreateOutcome(Some(name), newRoom)
    else CreateOutcome(Some(name), "")
  }
}
