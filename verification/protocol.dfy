/**
 * The wire vocabulary of the signaling service (signaling/actions.go,
 * signaling/errors.go and the Message record of signaling/types.go).
 */
module Protocol {
  import Database

  // Message types carried in the `type` field of forwarded messages.
  const OFFER: string := "OFFER"
  const ANSWER: string := "ANSWER"
  const CANDIDATE: string := "CANDIDATE"

  // Actions a client sends.
  const START: string := "START"
  const JOIN: string := "JOIN"
  const END: string := "END"
  const LEAVE: string := "LEAVE"
  const MESSAGE: string := "MESSAGE"

  // Actions the server sends.
  const READY: string := "READY"
  const WAIT_PAIR: string := "WAIT_PAIR"
  const WAIT: string := "WAIT"
  const ERROR: string := "ERROR"

  // Admission actions, sent in both directions. The file that declares them is
  // not part of this model; their values are taken to be their names.
  const APPROVE: string := "APPROVE"
  const REJECT: string := "REJECT"
  const PERMIT: string := "PERMIT"
  const FULL: string := "FULL"

  /** The `from` field of replies that the server itself originates. */
  const ServerId: string := "server"

  /** The scope of an unregister request: the whole room or the requester only. */
  datatype Scope = All | Self

  /** signaling/errors.go, plus errors passed through from the room store. */
  datatype SignalError =
    | BadMessage
    | NotOwner
    | NotFound
    | UserAlreadyPresent(userId: string, roomId: string)
    | UserNotPresent(userId: string, roomId: string)
    | RoomNotFound(roomId: string)
    | Store(cause: Database.DbError)

  /**
   * The untyped `data` field: absent, a JSON string, any other JSON value, or
   * the text of an error.
   */
  datatype Payload = NoData | Text(text: string) | Structured | ErrorText(error: SignalError)

  /** A wire message; every field but the action may be empty. */
  datatype Message = Message(
    action: string,
    userId: string,
    data: Payload,
    kind: string,
    to: string,
    from: string,
    displayName: string)

  /** A server reply that sets only the action, recipient and origin. */
  function Reply(action: string, to: string, from: string): Message {
    Message(action, "", NoData, "", to, from, "")
  }
}
