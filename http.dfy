/** The JSON replies of the route handlers: a status and one keyed text field. */
module Http {

  /**
   * A reply `NextResponse.json({ [key]: text }, { status })`; the key is
   * "message" for most handlers and "error" for some.
   */
  datatype Reply = Reply(status: int, key: string, text: string)

  function Message(status: int, text: string): Reply {
    Reply(status, "message", text)
  }

  function Error(status: int, text: string): Reply {
    Reply(status, "error", text)
  }

  /**
   * The 500 reply of a handler that returns the caught exception itself as
   * `{ message: error }`; the serialized exception is not modelled and is
   * written as the empty text.
   */
  function Thrown(): Reply {
    Reply(500, "message", "")
  }
}
