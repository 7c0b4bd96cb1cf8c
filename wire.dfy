/**
 * Chat messages as the clients receive them: the JSON form of a stored
 * record, with `_id` and `createdAt` written out as text.
 */
module Wire {
  import opened Wrappers
  import opened JsString
  import History

  /**
   * A received message. String fields are "" when absent (both are falsy);
   * `createdAt` is the serialized timestamp, None when the field is absent.
   */
  datatype WireMessage = WireMessage(id: string, room: string, username: string, text: string, createdAt: Option<string>)

  /** `msg && msg.text && msg.username` on an incoming value; None stands for null or undefined. */
  predicate Renderable(m: Option<WireMessage>)
  {
    m.Some? && m.value.text != "" && m.value.username != ""
  }

  /**
   * The server's serialization of a stored record. The model's ids and
   * timestamps are numbers and are written in decimal; only the injectivity
   * and non-emptiness of that rendering matter to the lemmas below.
   */
  function ToWire(m: History.Message): (w: WireMessage)
    ensures w.id != "" && w.createdAt.Some?
    ensures w.room == m.room && w.username == m.username && w.text == m.text
  {
    WireMessage(NatToString(m.id), m.room, m.username, m.text, Some(NatToString(m.createdAt)))
  }

  /** Serialization loses nothing: distinct records are sent differently. */
  lemma ToWireInjective(a: History.Message, b: History.Message)
    requires ToWire(a) == ToWire(b)
    ensures a == b
  {
    NatToStringInjective(a.id, b.id);
    NatToStringInjective(a.createdAt, b.createdAt);
  }
}
