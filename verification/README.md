# Discord Gemini bot: conversation history, reply chunking and message gating

This project models the core of a Discord bot that forwards messages to
Google's Gemini model. The model covers:

- **The conversation history store.** An in-memory `Map` from a conversation
  key to an array of turns `{ role, parts: [{ text }] }`. The key is a channel
  id for the `messageCreate` handler in `src/index.js`, which keeps its own
  module-level map, and a user id for the `/chat` and `/reset` slash
  commands, which receive their map from their caller.
  - An entry is created empty the first time its key is seen.
  - Each exchange pushes the user turn, then splices the oldest turns off so
    that at most `W` remain (20 per channel, 30 per user).
  - Gemini's chat is started with every turn but the newest. The user text is
    sent as the message.
  - On success the model turn is pushed *after* the splice, so a stored
    history can hold `W + 1` turns.
  - On failure nothing is rolled back.
  - `/reset` deletes the caller's entry.
- **Reply chunking.** `reply.match(/[\s\S]{1,2000}/g)` splits a reply longer
  than 2000 code units into consecutive pieces.
  - The channel handler sends one `message.reply` per piece.
  - `/chat` edits its deferred reply to the first piece, then sends one
    `followUp` per remaining piece, with the command's own `ephemeral` flag.
- **Message gating and text cleaning.**
  - Both message handlers ignore messages from bots. The slash commands do not
    check the author.
  - The channel handler answers only a mention of the bot or a reply to a
    message.
  - The channel handler removes every `<@id>` / `<@!id>` token, trims, and
    puts the replied-to message's content in front of the text.
  - The standalone bot in the root `index.js` removes only the first literal
    `<@botId>` and trims. It answers nothing when the result is empty. It
    replies with Gemini's text cut to 1900 code units.

Strings are sequences of UTF-16 code units (`JsText.CodeUnit`), as JavaScript
sees them. Lengths, `slice`, `trim` and the regular expressions work on code
units. Message contents, ids and Gemini's text are arbitrary code-unit
sequences. Only the source's own string literals go through `JsText.Lit`,
which turns each character into one code unit; all of them lie in the Basic
Multilingual Plane.

Each handler is a pure function (`Handle`, `Reset`) that says what one event
does, which Gemini call it makes and what it sends. The three handlers that
keep a history (the channel handler, `/chat` and `/reset`) are also modelled
as an imperative method on a `History.HistoryStore` object. That method does
the work step by step, in the source's order, and its contract proves it
equal to the function. The root `index.js` keeps no state, so it is modelled
by its function alone.

Gemini's answer (`History.Generation`) and the outcome of fetching the
replied-to message (`ChannelHandler.Fetch`) are inputs to the model.

Two behaviours of `src/index.js` worth noting:

- **A failed fetch of the replied-to message.** The fetch sits inside the
  handler's `try`, so a failure reaches the catch: the error text is sent and
  Gemini is not called. An entry created at lines 49-51 for this message stays
  behind empty; an existing history stays as it was
  (`ChannelHandler.FailedFetch`).
- **Direct messages.** A direct message is answered only when it mentions the
  bot or replies to a message, like any other message
  (`ChannelHandler.Admitted`).

## Model

| member | source | states |
|---|---|---|
| JsText.Trim | src/index.js:55 | the result neither starts nor ends with whitespace; it is the part of the input after its leading whitespace, and only whitespace follows it |
| JsText.TrimIdempotent | src/index.js:55 | trimming a trimmed string changes nothing |
| JsText.TrimEmptyIff | index.js:30-32 | the trimmed text is empty exactly when the input is all whitespace, the case the early `return` catches |
| JsText.TrimKeepsUnpadded | index.js:30 | text with no whitespace at either end is left as it is |
| JsText.IndexFrom | index.js:29 | the first index at or after `i` where the pattern occurs, with no occurrence before it; or none, when the pattern occurs nowhere from `i` on |
| JsText.RemoveFirst | index.js:29 | `replace` with a string pattern leaves the text unchanged when the pattern is absent, and otherwise removes exactly one occurrence |
| JsText.RemoveFirstAfter | index.js:29 | when no occurrence starts before it, the first occurrence is the one removed and any later occurrence stays |
| JsText.SliceTo | index.js:40 | `slice(0, n)` is the first `min(length, n)` code units |
| Mentions.MentionEnd | src/index.js:55 | a match of `<@!?\d+>` starts at `i` and ends at `e` exactly when `s[i..e]` is a mention token; when none is found, no end works |
| Mentions.MentionAtRun | src/index.js:55 | `<@`, an optional `!`, a non-empty digit run and `>` form a match |
| Mentions.NoMentionPastRun | src/index.js:55 | any match starting at `i` must close its digit run with `>` |
| Mentions.MentionEndsUnique | src/index.js:55 | two matches starting at the same index end at the same index |
| Mentions.GtOnlyAtEnd | src/index.js:55 | inside a match, `>` occurs only as its last code unit |
| Mentions.MentionTokenIsMention | src/index.js:55 | `<@id>` and `<@!id>` with a non-empty digit id are matches |
| Mentions.MentionTokenMatches | src/index.js:55 | a mention token at the front is matched whole, whatever follows it |
| Mentions.StripMentions | src/index.js:55 | the global replace never lengthens the text |
| Mentions.StripKeeps | src/index.js:55 | a code unit that does not begin `<@` starts no match and is kept |
| Mentions.NoMatchWithoutLtAt | src/index.js:55 | no match starts where the text does not begin with `<@` |
| Mentions.NoMatchWithoutId | src/index.js:55 | `<@` followed by neither `!` nor a digit, as in a role mention `<@&id>`, starts no match |
| Mentions.StripPlainPrefix | src/index.js:55 | inert text passes through the replace unchanged, whatever follows it; inert means every `<@` in it is followed within it by neither `!` nor a digit, and it does not end with `<` |
| Mentions.RoleMentionInert | src/index.js:55 | a role mention `<@&id>` is inert text, so the replace keeps it whole wherever it stands |
| Mentions.StripMentionPrefix | src/index.js:55 | a mention token at the front is dropped whole |
| Mentions.StripRemovesEveryMention | src/index.js:55 | for content made of mention tokens and inert text pieces (so role mentions `<@&id>`, custom emoji `<:name:id>`, channel links `<#id>` and `<3` are allowed in the text), every token (the bot's or another user's, with or without `!`) is removed and the text is kept in order |
| Mentions.UnclosedNoMatch | src/index.js:55 | `<@` followed by `<` starts no match |
| Mentions.StripUnclosedPrefix | src/index.js:55 | `<@` followed by `<` is kept as it is |
| Mentions.SinglePassCanLeaveMention | src/index.js:55 | one left-to-right pass turns `<@<@id>id>` into the token `<@id>`, so the cleaned text can still hold a mention |
| Chunking.Chunks | src/index.js:96 | the pieces put back together give the reply; each holds 1 to 2000 code units, and all but the last hold exactly 2000 |
| Chunking.ChunkCount | src/index.js:96 | a reply of `L > 0` code units is cut into ceil(L / 2000) pieces, and the empty reply into none |
| Chunking.ReplySends | src/index.js:95-102 | definition of the handler's sends: the reply alone up to 2000 code units, its chunks past that; `Chunking.ReplySendsFaithful` and `Chunking.SendReply` state its properties |
| Chunking.ReplySendsFaithful | src/index.js:95-102 | what the channel handler sends reproduces the reply in order; each message fits Discord's limit; a reply that fits is sent once as it is; a non-empty reply is never sent as an empty message |
| Chunking.SendEach | src/index.js:97-99 | the awaited loop sends the chunks one by one, in order |
| Chunking.SendReply | src/index.js:95-102 | sending a reply is exactly the sends described by `ReplySends` |
| Chunking.OneOverLimit | src/index.js:95-96 | a reply of 2001 code units goes out as 2000, then 1 |
| History.Window | src/index.js:70-72 | the splice keeps `min(length, W)` turns |
| History.WindowIsNewest | src/index.js:70-72 | the turns the splice keeps are the newest ones, in their order |
| History.Context | src/index.js:76 | `slice(0, -1)` followed by the newest turn gives back the history |
| History.WindowAbsorbs | src/index.js:70-72 | splicing after more pushes equals splicing once: dropped turns never come back |
| History.WindowOfSuffix | src/index.js:70-72 | a suffix at least as long as the window keeps the same newest turns |
| History.PushEachKeepsNewest | src/index.js:64-72 | after any number of push-then-splice steps, the history is the newest `W` turns of everything pushed, in arrival order |
| History.CallFor | src/index.js:64-84 | definition of the Gemini call of one exchange: the spliced history with the user turn, minus that turn, as context, and the user text as the message; `History.ExchangeShape` states its properties |
| History.AfterExchange | src/index.js:64-92 | definition of the history after one exchange: the spliced history with the user turn, plus the model turn on success; `History.ExchangeShape`, `History.PushEachKeepsNewest` and `History.RunKeepsNewest` state its properties |
| History.WithEntry | src/index.js:49-51 | afterwards the key has an entry: the existing history if there was one, otherwise an empty one; no other key gains, loses or changes an entry |
| History.ExchangeShape | src/index.js:64-92 | one exchange: the user turn is the newest of at most `W` kept turns; Gemini gets those turns minus the user turn as context and the user text as the message; on success the history ends with the user turn then the model turn and holds at most `W + 1` turns; on failure it ends with the user turn |
| History.RunKeepsNewest | src/index.js:64-92 | after any run of successful exchanges, the stored history is the newest `W` of all turns up to the last user turn, then the last reply |
| History.ExchangeAfterWindow | src/index.js:64-92 | one more exchange on a spliced history plus a reply is a single splice of everything |
| History.HistoryStore.constructor | src/index.js:28 | the store starts empty |
| History.HistoryStore.EnsureEntry | src/index.js:49-51 | an empty entry is created only for an absent key |
| History.HistoryStore.Push | src/index.js:64-67 | the turn is appended to the key's history and nothing else changes |
| History.HistoryStore.SpliceOldest | src/index.js:70-72 | the key's history becomes its window and nothing else changes |
| History.HistoryStore.Exchange | src/index.js:63-92 | push, splice, call and push update only the key's entry, to `AfterExchange`, and the call made is `CallFor` of the old history |
| History.HistoryStore.Delete | src/commands/reset.js:14 | the key's entry is removed and nothing else changes |
| ChannelHandler.IsReply | src/index.js:40 | definition: `message.reference?.messageId` is truthy, so present and not empty |
| ChannelHandler.Admitted | src/index.js:36-42 | definition of the gate: not from a bot, and a mention of the bot or a reply; `ChannelHandler.IgnoredMessage` states what a refused message does |
| ChannelHandler.Cleaned | src/index.js:55 | the cleaned text is never longer than the content and starts and ends with no whitespace |
| ChannelHandler.WithReplyContext | src/index.js:58-61 | definition of the reply prefix `[Đang trả lời tin nhắn: "…"]` and a newline in front of the text; `ChannelHandler.UserTextShape` states the result |
| ChannelHandler.UserText | src/index.js:54-61 | definition of the user turn's text; `ChannelHandler.UserTextShape` states its shape |
| ChannelHandler.Handle | src/index.js:34-108 | an admitted message always gets at least one reply and leaves its channel with a history; any other message changes nothing, calls nothing and sends nothing |
| ChannelHandler.HandleMessage | src/index.js:34-108 | the handler updates the store and makes the call and sends described by `Handle` |
| ChannelHandler.IgnoredMessage | src/index.js:36-42 | a message from a bot, or one that neither mentions the bot nor replies, changes nothing, calls nothing and sends nothing |
| ChannelHandler.SuccessfulExchange | src/index.js:48-102 | on success, the channel's history ends with the user turn and the reply and holds `min(n + 1, 20) + 1` turns, at most 21; Gemini gets the spliced history minus the user turn; the sends reproduce the reply in pieces of at most 2000; other channels are untouched |
| ChannelHandler.FailedGeneration | src/index.js:104-107 | when Gemini fails, the error text is sent and the user turn stays as the history's newest turn |
| ChannelHandler.FailedFetch | src/index.js:58-60 | when fetching the replied-to message fails, Gemini is not called, the error text is sent, and the entry created before the fetch stays behind |
| ChannelHandler.HistoriesStayBounded | src/index.js:69-92 | if every history holds at most 21 turns before a message, it still does after |
| ChannelHandler.UserTextShape | src/index.js:54-61 | for content made of mention tokens and inert text pieces (role mentions `<@&id>` included), the user turn is the text trimmed, behind the replied-to content for a reply |
| ChatCommand.IsPrivate | src/commands/chat.js:24 | the reply is ephemeral exactly when `private` is given as true |
| ChatCommand.FollowUps | src/commands/chat.js:67-69 | the follow-ups carry the chunks' text exactly, in order, one per chunk, each with the command's flag |
| ChatCommand.Delivery | src/commands/chat.js:63-72 | definition of the responses after the deferral on success; `ChatCommand.DeliveryFaithful` states its properties |
| ChatCommand.DeliveryFaithful | src/commands/chat.js:63-72 | the edit comes first and every later response is a follow-up with the command's flag; together they carry the reply exactly, each within 2000; a reply that fits takes the edit alone |
| ChatCommand.FollowUpRest | src/commands/chat.js:66-69 | the loop from `i = 1` edits with the first chunk and follows up with each later chunk, in order |
| ChatCommand.Handle | src/commands/chat.js:22-78 | the command defers with the private flag and then edits the deferred reply, whatever Gemini answers; the user has a history afterwards |
| ChatCommand.Execute | src/commands/chat.js:22-78 | the command updates the store and makes the call and responses described by `Handle` |
| ChatCommand.SuccessfulChat | src/commands/chat.js:30-72 | on success, the user's history ends with the message and the reply and holds `min(n + 1, 30) + 1` turns, at most 31; Gemini gets the spliced history minus the new turn; the responses are the deferral with the private flag, then the delivery; other keys are untouched |
| ChatCommand.FailedChat | src/commands/chat.js:74-77 | when Gemini fails, the deferred reply is edited to the error text and the user turn stays |
| ChatCommand.ChatHistoriesStayBounded | src/commands/chat.js:43-61 | if every history holds at most 31 turns before `/chat`, it still does after |
| ResetCommand.Reset | src/commands/reset.js:10-25 | definition of `/reset`; `ResetCommand.ResetForgetsOnlyCaller` and `ResetCommand.ResetTwice` state its properties |
| ResetCommand.Execute | src/commands/reset.js:10-25 | the command updates the store and responds as `Reset` describes |
| ResetCommand.ResetForgetsOnlyCaller | src/commands/reset.js:13-24 | afterwards the caller has no history; every other key is as it was; the one ephemeral reply reports a deletion exactly when the caller had a history |
| ResetCommand.ResetTwice | src/commands/reset.js:13-24 | a second reset finds nothing, reports so and changes nothing |
| LegacyHandler.Prompt | index.js:28-30 | the prompt starts and ends with no whitespace; without the bot's plain mention it is the trimmed content, and with it at least the mention's length shorter than the content |
| LegacyHandler.Handle | index.js:21-44 | at most one reply, exactly when a prompt went to Gemini, and every reply fits in 1900 code units |
| LegacyHandler.CalledIff | index.js:21-44 | Gemini is called exactly when the author is not a bot, the bot is mentioned and something other than whitespace remains once the first plain mention is removed; otherwise nothing is sent; a call gets exactly one reply, the error text on failure |
| LegacyHandler.ReplyIsPrefix | index.js:36-40 | the reply is the first `min(L, 1900)` code units of Gemini's text: all of it when it fits, and always under Discord's 2000 |
| LegacyHandler.StripsFirstMentionOnly | index.js:28-30 | for text `a + <@botId> + b` with no `<` in `a`, the prompt is `a + b` trimmed, so later mentions in `b` stay |
| LegacyHandler.DoublePingKeepsOne | index.js:28-30 | a message of two plain pings sends the second ping to Gemini as the prompt |
| LegacyHandler.NicknamePingKept | index.js:28-30 | a message that is the nickname form `<@!botId>` followed by text with no `<` keeps the ping: the prompt is the whole message trimmed |

## Left out

- The typing indicator (`sendTyping`) is not modelled. Its failure would reach the same catch as a Gemini failure.
- Failures of Discord sends are not modelled: `reply`, `editReply`, `followUp`, and Discord refusing an empty message, such as an empty Gemini text. Each send is assumed to succeed.
- A failure of `deferReply` is not modelled. It lies outside the command's `try`.
- Concurrency is not modelled. The model runs each event to completion before the next, while the source's async handlers can interleave at every `await`; two events on the same key interleaving their pushes and splices is not captured.
- The Gemini SDK is not modelled: model names, `generationConfig`, token limits and the text of the answer. The answer is an input.
- Client setup, intents, login, the `ready` log, `console.error` logging, and the slash-command builders' names, descriptions, integration types and contexts are not part of this model.
- Command registration and dispatch of interactions to `execute` are not part of this model.
- How discord.js computes `message.mentions.has(client.user)` is not modelled. It is an input flag.
- Whether `/chat` and `/reset` are handed the same map as each other, or the channel handler's, is decided by a caller that is not part of this model. The model gives each handler a map argument, so any sharing is the caller's choice; channel and user ids are Discord snowflakes, which never collide, so sharing would not mix histories.
- `JsText.Lit` assumes every message literal lies in the Basic Multilingual Plane (one code unit per character). A character outside it would be replaced by U+FFFD.
