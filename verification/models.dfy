/** The persisted records: users (with their password digest) and messages,
    plus the password-free view of a user that responses carry. */
module Models {
  import opened Common
  import opened Crypto

  /** Profile picture of a freshly created user. */
  const DefaultProfilePic := ""

  datatype User = User(id: Id, email: string, fullName: string, password: Digest, profilePic: string)

  /** A user as sent to clients: every field except the password. */
  datatype UserView = UserView(id: Id, email: string, fullName: string, profilePic: string)

  function View(u: User): UserView
  {
    UserView(u.id, u.email, u.fullName, u.profilePic)
  }

  /** A stored message; `text` is kept exactly as received, `image` and
      `audio` are `None` when stored as `null`. */
  datatype Message = Message(id: Id, senderId: Id, receiverId: Id, text: Field, image: Option<string>, audio: Option<string>)

  /** The message belongs to the conversation of the unordered pair {a, b}. */
  predicate InConversation(m: Message, a: Id, b: Id)
  {
    (m.senderId == a && m.receiverId == b) || (m.senderId == b && m.receiverId == a)
  }

  function UserIdOf(u: User): Id { u.id }

  function EmailOf(u: User): string { u.email }

  function MessageIdOf(m: Message): Id { m.id }
}
