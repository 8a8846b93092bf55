/** What the bot receives from Telegram and what it sends back. */
module Messages {
  import opened Wrappers
  import opened Store

  /** Telegram's user identifier. */
  type UserId = int

  /** The kinds of Telegram chat; only `Private` is treated differently. */
  datatype ChatType = Private | Group | Supergroup | Channel

  /** The fields of an incoming message that the handlers read. */
  datatype Message = Message(
    date: int,                   // unix time of sending, in seconds
    chat: ChatId,
    chatType: ChatType,
    senderId: UserId,
    senderName: Option<string>)  // the sender's @username, which Telegram users may lack

  /** One `sendMessage` call, by the options it is made with. */
  datatype Reply =
    | Say(chat: ChatId, text: string)      // plain text
    | Ack(chat: ChatId, text: string)      // plain text that the bot deletes again after five seconds
    | Listing(chat: ChatId, text: string)  // Markdown, without link preview and without notification
    | HelpText(chat: ChatId)               // the fixed help text, as Markdown
    | ForwardError(chat: ChatId)           // the Redis error object, sent as it is
}
