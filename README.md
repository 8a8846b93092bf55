# hwsurveybot: a Dafny model of the command handlers

hwsurveybot is a Telegram bot that lets members of a group store a short free-text note
about their hardware and read back each other's notes. Notes live in Redis: one hash per
chat, keyed by the chat id, whose fields are lower-cased usernames. This project models
the bot's command handling in `index.js`:

- the two guards every handler applies first: a freshness window of 20 seconds around the
  current time, and in non-private chats a mention that must name this bot exactly;
- the target normalisation of `/delete` and `/show`: lower-case, then drop one leading `@`;
- the handlers `/update`, `/delete@bot`, `/deleteme`, `/show` (one user or everyone) and
  `/help`/`/start`, each issuing at most one Redis command and choosing its replies;
- the rendering of the `/show` listing.

Modules, one per component:

- `Store` (`store.dfy`): the Redis database as `map<ChatId, map<string, string>>` with
  HSET, HDEL, HGET and HGETALL as functions. Their contracts give the frame conditions:
  exactly one field of one chat changes. A hash disappears with its last field, as in Redis.
- `Guard` (`guard.dfy`): the freshness and mention checks.
- `Format` (`format.dfy`): the `*name*:\n<note>` blocks joined with new lines.
- `Text` (`text.dfy`): `toLowerCase` and `join`.
- `Messages` (`messages.dfy`): the message fields the handlers read, and the replies, told
  apart by the `sendMessage` options used.
- `Handlers` (`handlers.dfy`): class `Bot`, whose field `hashes` is the store. Each handler
  is a method that takes the message fields, the captured command groups, the current time
  in milliseconds and the bot's username, and returns the replies it sends. The store
  invariant `WellFormed` says three things: no hash is empty, every field is lower-case,
  and no note is empty.

Inputs the source gets from elsewhere are parameters: `Date.now()` (`nowMs`), the bot's
username from `getMe`, the administrator list from `getChatAdministrators`, the `ADMINID`
setting, the full matched command text (`query`), whether Redis answered a read with an
error (`fault`), and the order `Object.keys` gives for the fields of the HGETALL reply (`order`).

Behaviour of the code that the model keeps on purpose:

- An `/update` payload of 1000 characters or more draws "Too long!" but is still stored.
- `/show` without a user answers "Empty" only when Redis returns no hash, which is exactly
  when the chat has no notes, because Redis keeps no empty hash.
- In a private chat, `/delete` accepts any mention.
- After a Redis read error, the handler still sends "Not found!" or "Empty" after "Error".

## Model

| member | source | states |
|---|---|---|
| `Guard.Fresh` | index.js:62-64 | A message is accepted exactly when its date lies within 20 seconds of the current second (`Date.now()` floored to seconds). A difference of exactly 20 is accepted. |
| `Guard.Addressed` | index.js:66-69 | Private chats always pass. In other chats a missing mention group fails. |
| `Guard.AddressedMeansExactMention` | index.js:66 | For a mention group beginning with `@`, as the command patterns capture it, the check passes iff the chat is private or the group is `"@" + botUsername`, compared case-sensitively. |
| `Guard.Admitted` | index.js:62-69 | A handler proceeds only on a fresh message. For a mention group beginning with `@`, it proceeds exactly when the date is within 20 seconds of the current second and the chat is private or the mention is `"@" + botUsername`. |
| `Text.Lower` | index.js:75 | Each character of the result is the lower-case form of the character at the same position of the input: A–Z become a–z and everything else is kept. Hence the length is kept, no capital is left, lower-case text is unchanged (lower-casing twice is lower-casing once) and a leading `@` survives. |
| `Text.LowerAppend` | index.js:94 | Lower-casing distributes over concatenation. |
| `Text.LowerChar` | index.js:75 | A capital A–Z becomes the letter 32 code points higher (its lower-case form); every other character is kept. The result is never a capital, and it is `@` exactly when the input is. |
| `Text.LowerCharEqualIff` | index.js:75 | Two characters lower-case to the same character exactly when they are equal or are the two cases of one ASCII letter. |
| `Text.LowerEqualIff` | index.js:75 | Two strings lower-case to the same string exactly when they have equal length and agree character by character up to ASCII case: keys are compared case-insensitively. |
| `Text.Join` | index.js:172 | Joining no parts gives the empty string, and joining one part gives that part. |
| `Text.JoinSnoc` | index.js:172 | Joining one more part appends the separator and then that part, so the parts appear in order with a separator between neighbours. |
| `Store.HSet` | index.js:75 | After HSET the field holds the value. Every other field of every chat reads as before. No empty hash is created. |
| `Store.HGet` | index.js:139 | HGET returns a value exactly when the chat's hash exists and has the field, and then it returns that field's value. |
| `Store.HDel` | index.js:99 | After HDEL the field is absent. Every other field of every chat reads as before. Deleting an absent field changes nothing. |
| `Store.HGetAll` | index.js:156 | HGETALL returns null only when the chat has no fields. Otherwise it returns exactly the chat's fields, and on a store without empty hashes that result is non-empty. |
| `Store.SameFieldsSameDb` | index.js:75 | Two stores without empty hashes that answer every HGET alike are equal. |
| `Store.HSetReplaces` | index.js:75 | A second `/update` by the same user replaces the note; it never appends. |
| `Store.HDelUndoesHSet` | index.js:117 | A `/deleteme` after `/update` leaves the store as if the update had never happened. |
| `Format.DistinctCount` | index.js:170 | A field list without repetitions has as many distinct fields as it is long. |
| `Format.BlockPerField` | index.js:170-172 | The listing has exactly one block per field of the chat's hash, and each field's `*name*:\n<note>` block is among them. |
| `Format.RenderSingleField` | index.js:170-177 | A hash with one field renders as that field's block alone. |
| `Format.Block` | index.js:171 | A block is the name in bold (`*name*`), then `:` and a line break, then the note verbatim, with nothing escaped. |
| `Format.Blocks` | index.js:170-171 | There is one block per listed field, and the i-th block is the i-th field's name with its note. |
| `Format.RenderAll` | index.js:170-172 | The listing is empty for no fields and is the single block for one field. For more fields, it is the listing of all but the last field, a line break, and the last field's block. |
| `Handlers.TargetKey` | index.js:94-95 | The target key is lower-case. When the argument begins with `@`, the key is the lower-cased argument without that one `@` (so `@@bob` gives `@bob`); otherwise it is the whole lower-cased argument. |
| `Handlers.TargetKeyOfUser` | index.js:136-138 | Any argument equal, up to ASCII case, to `name` or to `@name` resolves to the key `lower(name)`, for a username that does not itself begin with `@`. |
| `Handlers.ShowAfterUpdate` | index.js:136-153 | After HSET of the sender's lower-cased username, a lookup with any argument equal up to case to the name or to `@` plus the name finds exactly the stored text. |
| `Handlers.ShowAllAfterFirstUpdate` | index.js:156-177 | In a chat without notes, one update makes the listing a single block holding that user's note. |
| `Handlers.ErrorReport` | index.js:140-146 | Nothing is sent without a Redis error. On an error the last message is "Error" to the chat. Before it come two messages to the admin chat, the first `Error occurred. Query:` plus the query, exactly when an admin chat is configured. No other chat receives anything. |
| `Handlers.Bot.Update` | index.js:61-82 | A rejected message changes nothing and sends nothing. Otherwise the sender's lower-cased username is set to the payload, replacing any earlier value, and nothing else changes. The replies are "Too long!" (only for 1000 characters or more) and then the self-deleting "OK!". The store invariant is preserved. |
| `Handlers.Bot.Delete` | index.js:84-105 | A rejected message, or a failed administrator query, changes nothing and sends nothing. An administrator's command removes the normalised target and replies "OK". Anyone else gets "Admins only" and the store is unchanged. |
| `Handlers.Bot.DeleteMe` | index.js:107-124 | A rejected message changes nothing. Otherwise the sender's own field is removed and "OK!" is sent. When that field is already absent the store is unchanged. |
| `Handlers.Bot.Show` | index.js:126-180 | A rejected message sends nothing. With an argument, the reply is the argument as typed, `:\n` and the note under the normalised key, or "Not found!". Without one, it is the listing of the chat's hash, or "Empty". A Redis error first sends the admin report and "Error", then the no-data answer. The store is only read. |
| `Handlers.Bot.Welcome` | index.js:182-198 | `/help` and `/start` send the help text exactly when both guards pass. |
| `Handlers.UpdateThenShow` | index.js:61-153 | Running `/update text` and then `/show` naming the same user answers exactly `arg:\ntext`, and the store holds the new note. |

## Left out

- Transport set-up (webhook or polling, `setWebHook`) and `getMe` at start-up (index.js:37-59): I/O. The bot's username is a parameter of every handler.
- The five-second timer that deletes "OK!" (index.js:77-81, 119-123): a timer and a foreign call. The `Ack` reply marks the messages it applies to.
- The help text's wording (index.js:17-35): static content. The `HelpText` reply stands for it.
- The Redis connection and the `redis.print` callbacks. HSET and HDEL are taken to succeed, because their failures are only logged. A read error is the `fault` parameter, and the contents of the error object are not modelled (`ForwardError`).
- The `onText` regular expressions: unanchored matching, several handlers firing on one message, and what `[^$]+` and `(.+)` capture. The captured groups are inputs. The non-empty `/update` payload is a precondition, because the pattern guarantees it.
- A missing `msg.from.username` makes the source throw once the guards pass. Here it is a precondition of `/update` and `/deleteme`.
- Text.Lower: maps only the ASCII letters A–Z, while JavaScript's `toLowerCase` applies full Unicode case mapping. Telegram usernames are ASCII, but a `/show` argument in another script is compared as typed.
- Handlers.Bot.Update: compares the payload's length in characters, while JavaScript counts UTF-16 code units. The two differ for characters outside the Basic Multilingual Plane.
- Asynchrony: the administrator query and the Redis callbacks complete later in the source. Each handler here is one atomic step, and interleavings of concurrent handlers are not modelled.
- Markdown rendering of the replies, logging, environment variables, and the `polling_error` handler (index.js:200-202).
