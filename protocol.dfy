/**
 * The protocol collaborator the session calls into. Its message layout and
 * its dispatch table are not part of this model, so every entry point is a
 * function value supplied from outside: the session model holds for every
 * choice of them.
 */
module Protocol {
  import opened Common

  /** A decoded protocol message; its structure is owned by the protocol module. */
  type Message

  /** A socket address; the session only hands it to `HandshakeMessage::start`. */
  type SocketAddr

  /** What `response_for_received` answers: `Err`, `Ok(None)` or `Ok(Some(response))`. */
  datatype Dispatch = DispatchErr | NoResponse | Respond(response: Message)

  /** The protocol entry points the session uses. */
  datatype Codec = Codec(
    fromBytes: Bytes -> Option<Message>,       // `Message::from_bytes`
    responseFor: Message -> Dispatch,          // `Message::response_for_received`
    asBytes: Message -> Option<Bytes>,         // `as_bytes`, which may fail to serialise
    handshakeStart: SocketAddr -> Option<Message> // `HandshakeMessage::start`
  )
}
