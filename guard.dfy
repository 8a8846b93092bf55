/**
 * The two checks every handler makes before doing anything: the message must be recent,
 * and in a group the command must be addressed to this bot by name.
 */
module Guard {
  import opened Wrappers
  import opened Text
  import opened Messages

  /** Largest distance, in seconds, between a message's date and the current time. */
  const MaxAge := 20

  function Abs(x: int): nat {
    if x < 0 then -x else x
  }

  /**
   * `Math.abs(date - Math.floor(Date.now() / 1000)) > 20` rejects: a message is accepted
   * when its date is within 20 seconds either side of the current second, both ends included.
   */
  function Fresh(date: int, nowMs: nat): (ok: bool)
    ensures ok <==> nowMs / 1000 - MaxAge <= date <= nowMs / 1000 + MaxAge
  {
    Abs(date - nowMs / 1000) <= MaxAge
  }

  /**
   * The mention check: outside private chats the optional `@name` group of the command must be
   * present and non-empty, and what follows its first character must be the bot's username.
   */
  function Addressed(t: ChatType, mention: Option<string>, botName: string): (ok: bool)
    ensures t == Private ==> ok
    ensures t != Private && mention.None? ==> !ok
  {
    t == Private || (mention.Some? && mention.value != "" && mention.value[1..] == botName)
  }

  /**
   * The command pattern captures the mention group with a leading '@'; for such a group the
   * check accepts exactly '@' followed by the bot's username, compared case-sensitively.
   */
  lemma AddressedMeansExactMention(t: ChatType, mention: Option<string>, botName: string)
    ensures (mention.Some? ==> StartsWithAt(mention.value)) ==>
              (Addressed(t, mention, botName) <==> t == Private || mention == Some("@" + botName))
  {
    if mention.Some? && mention.value != "" {
      var m := mention.value;
      assert m == [m[0]] + m[1..];
      assert ("@" + botName)[1..] == botName;
    }
  }

  /**
   * Both checks, in the order the handlers make them. For a mention group as the command
   * patterns capture it, a message passes exactly when it is at most 20 seconds off and
   * it is private or names the bot exactly.
   */
  function Admitted(msg: Message, mention: Option<string>, nowMs: nat, botName: string): (ok: bool)
    ensures ok ==> Fresh(msg.date, nowMs)
    ensures (mention.Some? ==> StartsWithAt(mention.value)) ==>
              (ok <==> && nowMs / 1000 - MaxAge <= msg.date <= nowMs / 1000 + MaxAge
                       && (msg.chatType == Private || mention == Some("@" + botName)))
  {
    AddressedMeansExactMention(msg.chatType, mention, botName);
    Fresh(msg.date, nowMs) && Addressed(msg.chatType, mention, botName)
  }
}
