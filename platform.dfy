/** The values the bot receives from the chat platform, with every API call
    replaced by the data or the outcome it would have produced. */
module Platform {

  /** Platform snowflake ids are non-negative integers. */
  type UserId = nat
  type MessageId = nat

  /** The marker emoji that asks for a pin: U+1F4CC, "📌". */
  const PinEmoji: string := "📌"

  datatype Option<+T> = None | Some(value: T)

  /** One account that holds a reaction; `isBot` marks automated accounts. */
  datatype Reactor = Reactor(id: UserId, isBot: bool)

  /** What enumerating the users behind a reaction yields: the users, in the
      platform's order, or the error the enumeration raised, `denied` when
      it was a permission error. */
  datatype Enumeration = Users(list: seq<Reactor>) | EnumerationFailed(denied: bool)

  /** One reaction on a message: its emoji (as text), the platform's own
      counter, and the enumeration of its users. */
  datatype Reaction = Reaction(emoji: string, count: nat, users: Enumeration)

  /** A snapshot of a message as fetched. `authorName` is the author's
      display name; `link` is the message link /pinnedlist formats from the
      guild, channel and message ids; `createdAt` is a timestamp in
      microseconds since 0001-01-01 00:00 UTC. */
  datatype Message = Message(
    id: MessageId,
    authorId: UserId,
    authorName: string,
    content: string,
    createdAt: int,
    pinned: bool,
    reactions: seq<Reaction>,
    link: string)

  /** The outcome of one pin() or unpin() call: success, a permission error,
      any other HTTP error, or an error of some other kind. */
  datatype CallResult = Ok | Forbidden | HttpError | Unexpected
}
