/**
 * The bot's command handlers. Each takes the fields of the message, the groups its command
 * pattern captured, the current time and the bot's username, checks the guards, issues at
 * most one Redis command on the chat's hash and returns the messages it sends.
 */
module Handlers {
  import opened Wrappers
  import opened Text
  import opened Store
  import opened Messages
  import opened Guard
  import opened Format

  /** Payloads of this length or more draw the "Too long!" warning. */
  const TooLongAt := 1000

  /** The target of `/delete` and `/show`: the argument lower-cased, then one leading '@' dropped. */
  function TargetKey(arg: string): (key: string)
    ensures IsLower(key)
    ensures if StartsWithAt(arg) then "@" + key == Lower(arg) else key == Lower(arg)
  {
    var u := Lower(arg);
    if StartsWithAt(u) then
      assert u == "@" + u[1..];
      u[1..]
    else
      u
  }

  /**
   * Naming a user as `name`, `@name` or in any mix of upper and lower case reaches the field
   * under which that user's own commands store their note.
   */
  lemma TargetKeyOfUser(name: string, arg: string)
    requires !StartsWithAt(name)
    requires EqualIgnoringCase(arg, name) || EqualIgnoringCase(arg, "@" + name)
    ensures TargetKey(arg) == Lower(name)
  {
    LowerEqualIff(arg, name);
    LowerEqualIff(arg, "@" + name);
    LowerAppend("@", name);
    assert Lower("@") == "@";
    assert ("@" + Lower(name))[1..] == Lower(name);
  }

  /**
   * What the stored data always satisfies: Redis keeps no empty hash, every field is a
   * lower-cased username and no stored note is empty (the `/update` pattern captures at
   * least one character).
   */
  ghost predicate WellFormed(db: Db) {
    && NoEmptyHash(db)
    && forall c, f :: HGet(db, c, f).Some? ==> IsLower(f) && HGet(db, c, f).value != ""
  }

  /** The messages sent when Redis reports an error: two to the admin chat, if one is configured, then "Error". */
  function ErrorReport(fault: bool, chat: ChatId, adminChat: Option<ChatId>, query: string): (r: seq<Reply>)
    ensures !fault ==> r == []
    ensures fault ==> |r| > 0 && r[|r| - 1] == Say(chat, "Error")
    ensures fault ==> (|r| == 3 <==> adminChat.Some?) && (|r| == 1 <==> adminChat.None?)
    ensures forall i :: 0 <= i < |r| - 1 ==> adminChat.Some? && r[i].chat == adminChat.value
    ensures fault && adminChat.Some? ==> r[0] == Say(adminChat.value, "Error occurred. Query:" + query)
  {
    if !fault then []
    else
      (if adminChat.Some? then [Say(adminChat.value, "Error occurred. Query:" + query), ForwardError(adminChat.value)] else [])
      + [Say(chat, "Error")]
  }

  /** After `/update text` by a user, asking for that user by name finds exactly that text. */
  lemma ShowAfterUpdate(db: Db, c: ChatId, name: string, text: string, arg: string)
    requires !StartsWithAt(name)
    requires EqualIgnoringCase(arg, name) || EqualIgnoringCase(arg, "@" + name)
    ensures HGet(HSet(db, c, Lower(name), text), c, TargetKey(arg)) == Some(text)
  {
    TargetKeyOfUser(name, arg);
  }

  /** In a chat with no notes yet, one `/update` makes `/show` list a single block: that user's. */
  lemma ShowAllAfterFirstUpdate(db: Db, c: ChatId, key: string, text: string, order: seq<string>)
    requires c !in db
    requires Enumerates(order, HSet(db, c, key, text)[c])
    ensures RenderAll(HSet(db, c, key, text)[c], order) == Block(key, text)
  {
    assert HSet(db, c, key, text)[c] == map[key := text];
    RenderSingleField(key, text, order);
  }

  /** The bot's view of Redis, shared by all handlers. */
  class Bot {
    var hashes: Db

    ghost predicate Valid()
      reads this
    {
      WellFormed(hashes)
    }

    constructor (db: Db)
      requires WellFormed(db)
      ensures Valid() && hashes == db
    {
      hashes := db;
    }

    /**
     * `/update text`: stores the text under the sender's lower-cased username in the chat's
     * hash, replacing any earlier note; warns first when the text is 1000 characters or more,
     * but stores it all the same.
     */
    method Update(msg: Message, mention: Option<string>, payload: string, nowMs: nat, botName: string)
      returns (out: seq<Reply>)
      requires Valid()
      requires payload != ""
      requires Admitted(msg, mention, nowMs, botName) ==> msg.senderName.Some?
      modifies this
      ensures Valid()
      ensures !Admitted(msg, mention, nowMs, botName) ==> hashes == old(hashes) && out == []
      ensures Admitted(msg, mention, nowMs, botName) ==>
                && hashes == HSet(old(hashes), msg.chat, Lower(msg.senderName.value), payload)
                && out == (if |payload| >= TooLongAt then [Say(msg.chat, "Too long!")] else [])
                          + [Ack(msg.chat, "OK!")]
    {
      out := [];
      if !Fresh(msg.date, nowMs) {
        return;
      }
      if !Addressed(msg.chatType, mention, botName) {
        return;
      }
      if |payload| >= TooLongAt {
        out := out + [Say(msg.chat, "Too long!")];
      }
      hashes := HSet(hashes, msg.chat, Lower(msg.senderName.value), payload);
      out := out + [Ack(msg.chat, "OK!")];
    }

    /**
     * `/delete@bot target`: once Telegram has listed the chat's administrators, an
     * administrator's command removes the target's note and is answered "OK"; anyone else
     * gets "Admins only" and nothing changes. `admins` is None when Telegram refuses the
     * list (as it does for private chats): then nothing happens at all.
     */
    method Delete(msg: Message, mention: string, target: string, nowMs: nat, botName: string,
                  admins: Option<set<UserId>>)
      returns (out: seq<Reply>)
      requires Valid()
      modifies this
      ensures Valid()
      ensures !Admitted(msg, Some(mention), nowMs, botName) || admins.None? ==>
                hashes == old(hashes) && out == []
      ensures Admitted(msg, Some(mention), nowMs, botName) && admins.Some? && msg.senderId in admins.value ==>
                hashes == HDel(old(hashes), msg.chat, TargetKey(target)) && out == [Say(msg.chat, "OK")]
      ensures Admitted(msg, Some(mention), nowMs, botName) && admins.Some? && msg.senderId !in admins.value ==>
                hashes == old(hashes) && out == [Say(msg.chat, "Admins only")]
    {
      out := [];
      if !Fresh(msg.date, nowMs) {
        return;
      }
      if !Addressed(msg.chatType, Some(mention), botName) {
        return;
      }
      var user := TargetKey(target);
      if admins.None? {
        return;
      }
      if msg.senderId in admins.value {
        hashes := HDel(hashes, msg.chat, user);
        out := [Say(msg.chat, "OK")];
      } else {
        out := [Say(msg.chat, "Admins only")];
      }
    }

    /**
     * `/deleteme`: removes the sender's own note from the chat's hash and acknowledges;
     * when there is no such note nothing changes, so repeating it is harmless.
     */
    method DeleteMe(msg: Message, mention: Option<string>, nowMs: nat, botName: string)
      returns (out: seq<Reply>)
      requires Valid()
      requires Admitted(msg, mention, nowMs, botName) ==> msg.senderName.Some?
      modifies this
      ensures Valid()
      ensures !Admitted(msg, mention, nowMs, botName) ==> hashes == old(hashes) && out == []
      ensures Admitted(msg, mention, nowMs, botName) ==>
                && hashes == HDel(old(hashes), msg.chat, Lower(msg.senderName.value))
                && out == [Ack(msg.chat, "OK!")]
      ensures Admitted(msg, mention, nowMs, botName)
              && HGet(old(hashes), msg.chat, Lower(msg.senderName.value)) == None ==>
                hashes == old(hashes)
    {
      out := [];
      if !Fresh(msg.date, nowMs) {
        return;
      }
      if !Addressed(msg.chatType, mention, botName) {
        return;
      }
      hashes := HDel(hashes, msg.chat, Lower(msg.senderName.value));
      out := [Ack(msg.chat, "OK!")];
    }

    /**
     * `/show user` and `/show`. With a user, answers "user:" and the note, quoting the user as
     * typed, or "Not found!". Without one, lists every note of the chat (in the order Redis
     * returned the fields, `order`) or answers "Empty". When Redis reports an error
     * (`fault`), the error messages go out first and the answer is the one for no data.
     * The store is never changed.
     */
    method Show(msg: Message, mention: Option<string>, arg: string, nowMs: nat, botName: string,
                adminChat: Option<ChatId>, query: string, fault: bool, order: seq<string>)
      returns (out: seq<Reply>)
      requires Valid()
      requires arg == "" && msg.chat in hashes ==> Enumerates(order, hashes[msg.chat])
      ensures !Admitted(msg, mention, nowMs, botName) ==> out == []
      ensures Admitted(msg, mention, nowMs, botName) && arg != "" ==>
                var found := HGet(hashes, msg.chat, TargetKey(arg));
                out == ErrorReport(fault, msg.chat, adminChat, query)
                       + [if !fault && found.Some? then Listing(msg.chat, arg + ":\n" + found.value)
                          else Say(msg.chat, "Not found!")]
      ensures Admitted(msg, mention, nowMs, botName) && arg == "" ==>
                out == ErrorReport(fault, msg.chat, adminChat, query)
                       + [if !fault && msg.chat in hashes then Listing(msg.chat, RenderAll(hashes[msg.chat], order))
                          else Say(msg.chat, "Empty")]
    {
      out := [];
      if !Fresh(msg.date, nowMs) {
        return;
      }
      if !Addressed(msg.chatType, mention, botName) {
        return;
      }
      var user := Lower(arg);
      if user != "" {
        user := TargetKey(arg);
        var result := if fault then None else HGet(hashes, msg.chat, user);
        out := out + ErrorReport(fault, msg.chat, adminChat, query);
        if result.Some? && result.value != "" {
          out := out + [Listing(msg.chat, arg + ":\n" + result.value)];
        }
        if !(result.Some? && result.value != "") {
          out := out + [Say(msg.chat, "Not found!")];
        }
      } else {
        var keys := if fault then None else HGetAll(hashes, msg.chat);
        out := out + ErrorReport(fault, msg.chat, adminChat, query);
        if keys.None? {
          out := out + [Say(msg.chat, "Empty")];
          return;
        }
        out := out + [Listing(msg.chat, RenderAll(keys.value, order))];
      }
    }

    /** `/help` and `/start`: the help text, once both guards pass. */
    method Welcome(msg: Message, mention: Option<string>, nowMs: nat, botName: string)
      returns (out: seq<Reply>)
      ensures Admitted(msg, mention, nowMs, botName) ==> out == [HelpText(msg.chat)]
      ensures !Admitted(msg, mention, nowMs, botName) ==> out == []
    {
      out := [];
      if !Fresh(msg.date, nowMs) {
        return;
      }
      if !Addressed(msg.chatType, mention, botName) {
        return;
      }
      out := [HelpText(msg.chat)];
    }
  }

  /**
   * The round trip through the handlers: `/update text` from a user, then `/show` naming
   * that user (with or without '@', in any case), answers with exactly that text.
   */
  method UpdateThenShow(b: Bot, msg: Message, mention: Option<string>, text: string, nowMs: nat,
                        botName: string, arg: string, adminChat: Option<ChatId>, query: string)
    returns (out: seq<Reply>)
    requires b.Valid()
    requires text != ""
    requires Admitted(msg, mention, nowMs, botName) && msg.senderName.Some?
    requires msg.senderName.value != "" && !StartsWithAt(msg.senderName.value)
    requires EqualIgnoringCase(arg, msg.senderName.value) || EqualIgnoringCase(arg, "@" + msg.senderName.value)
    modifies b
    ensures b.Valid()
    ensures b.hashes == HSet(old(b.hashes), msg.chat, Lower(msg.senderName.value), text)
    ensures out == [Listing(msg.chat, arg + ":\n" + text)]
  {
    var acks := b.Update(msg, mention, text, nowMs, botName);
    ShowAfterUpdate(old(b.hashes), msg.chat, msg.senderName.value, text, arg);
    assert |arg| > 0;
    out := b.Show(msg, mention, arg, nowMs, botName, adminChat, query, false, []);
  }
}
