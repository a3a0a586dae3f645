/** The response side of a handler: status code, JSON payload, and what the
    handler does to the session cookie. */
module Http {
  import opened Common
  import opened Models

  /** The JSON payloads the handlers send. */
  datatype Body =
    | Notice(message: string)
    | NoticeWithUser(message: string, user: UserView)
    | OneUser(user: UserView)
    | Null
    | UserList(users: seq<UserView>)
    | OneMessage(msg: Message)
    | MessageList(messages: seq<Message>)

  /** Effect on the `jwt` cookie: untouched, a token minted for a user, or cleared. */
  datatype Session = Untouched | IssueToken(userId: Id) | ClearToken

  datatype Response = Response(status: nat, body: Body, session: Session)

  /** A plain JSON response that leaves the session cookie alone. */
  function Json(status: nat, body: Body): Response
  {
    Response(status, body, Untouched)
  }
}
