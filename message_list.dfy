/**
 * The web client's message list: which received messages it renders, and the
 * React key and CSS class of each rendered bubble.
 */
module MessageList {
  import opened Wrappers
  import opened Wire
  import OrderedSet
  import History
  import JsString

  /** The `messages` prop: an array (null or undefined elements are None) or any other value. */
  datatype MessagesProp = Array(items: seq<Option<WireMessage>>) | NotArray

  /** The array filter `m => m && m.text && m.username`, which keeps order. */
  function Keep(items: seq<Option<WireMessage>>): (r: seq<WireMessage>)
    ensures forall m :: m in r <==> Some(m) in items && Renderable(Some(m))
    ensures |r| <= |items|
  {
    if items == [] then []
    else
      assert items == [items[0]] + items[1..];
      (if Renderable(items[0]) then [items[0].value] else []) + Keep(items[1..])
  }

  /** The rendered messages: the kept elements of an array, none for anything else. */
  function Clean(messages: MessagesProp): (r: seq<WireMessage>)
    ensures messages.NotArray? ==> r == []
    ensures forall m :: m in r ==> m.text != "" && m.username != ""
  {
    match messages
    case NotArray => []
    case Array(items) => Keep(items)
  }

  /** Filtering works element by element, so it distributes over concatenation. */
  lemma {:induction false} KeepConcat(a: seq<Option<WireMessage>>, b: seq<Option<WireMessage>>)
    ensures Keep(a + b) == Keep(a) + Keep(b)
  {
    if a == [] {
      assert a + b == b;
    } else {
      OrderedSet.ConcatCons(a, b);
      KeepConcat(a[1..], b);
    }
  }

  /** No qualifying element is dropped: an array of renderable messages is shown whole, in order. */
  lemma {:induction false} KeepAllRenderable(items: seq<Option<WireMessage>>)
    requires forall i :: 0 <= i < |items| ==> Renderable(items[i])
    ensures |Keep(items)| == |items|
    ensures forall i :: 0 <= i < |items| ==> items[i] == Some(Keep(items)[i])
  {
    if items != [] {
      KeepAllRenderable(items[1..]);
      assert forall i :: 1 <= i < |items| ==> items[1..][i - 1] == items[i];
    }
  }

  /** `${m.createdAt}`: the text of the timestamp, "undefined" when it is absent. */
  function CreatedAtText(createdAt: Option<string>): string
  {
    match createdAt
    case None => "undefined"
    case Some(t) => t
  }

  /** The React key: `_id` when present, else username, time and text joined by "-". */
  function Key(m: WireMessage): string
  {
    if m.id != "" then m.id else m.username + "-" + CreatedAtText(m.createdAt) + "-" + m.text
  }

  /** Messages sent by the server are keyed by their id, so distinct records get distinct keys. */
  lemma ServerKeysDistinct(a: History.Message, b: History.Message)
    requires a.id != b.id
    ensures Key(ToWire(a)) == ToWire(a).id
    ensures Key(ToWire(a)) != Key(ToWire(b))
  {
    if Key(ToWire(a)) == Key(ToWire(b)) {
      JsString.NatToStringInjective(a.id, b.id);
    }
  }

  /** Without an id the key falls back to the other fields, so two such messages alike in them share a key. */
  lemma FallbackKeyCollides(a: WireMessage, b: WireMessage)
    requires a.id == "" && b.id == "" && a.username == b.username && a.createdAt == b.createdAt && a.text == b.text
    ensures Key(a) == Key(b)
  {
  }

  /** The bubble's class: "msg me" for the viewer's own messages, "msg " for the rest. */
  function ClassName(m: WireMessage, me: string): (c: string)
    ensures c == "msg me" <==> m.username == me
    ensures c == "msg " <==> m.username != me
  {
    "msg " + (if m.username == me then "me" else "")
  }
}
