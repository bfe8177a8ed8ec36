/**
 * The `messageCreate` handler of the bot under src/: a channel conversation
 * with Gemini, keyed by channel id and kept to the newest 20 turns before
 * each model call.
 */
module ChannelHandler {
  import opened Wrappers
  import opened JsText
  import opened Mentions
  import opened Chunking
  import opened History

  /** How many turns survive the splice before each model call. */
  const ChannelWindow: nat := 20

  const ReplyOpen: Str := Lit("[Đang trả lời tin nhắn: \"")
  const ReplyClose: Str := Lit("\"]\n")
  const ErrorText: Str := Lit("⚠️ Xin lỗi, đã có lỗi xảy ra khi xử lý tin nhắn của bạn.")

  /**
   * What the handler reads from a Discord message. `mentionsBot` is
   * `message.mentions.has(client.user)` as discord.js computes it;
   * `referenceId` is `message.reference?.messageId`.
   */
  datatype ChannelMessage = ChannelMessage(
    authorIsBot: bool,
    mentionsBot: bool,
    referenceId: Option<Str>,
    channelId: Key,
    content: Str)

  /** The replied-to message as `channel.messages.fetch` returns it, or its failure. */
  datatype Fetch = Fetched(content: Str) | FetchFailed

  /** The store afterwards, the Gemini call made (if any), and the replies sent in order. */
  datatype Outcome = Outcome(entries: map<Key, seq<Turn>>, call: Option<ModelCall>, replies: seq<Str>)

  /** `message.reference?.messageId` is truthy: present and not the empty string. */
  predicate IsReply(m: ChannelMessage) {
    m.referenceId.Some? && |m.referenceId.value| > 0
  }

  /** Not from a bot, and either mentioning the bot or replying to a message. */
  predicate Admitted(m: ChannelMessage) {
    !m.authorIsBot && (m.mentionsBot || IsReply(m))
  }

  /** `content.replace(/<@!?\d+>/g, '').trim()` */
  function Cleaned(content: Str): (r: Str)
    ensures |r| <= |content|
    ensures |r| > 0 ==> !IsSpace(r[0]) && !IsSpace(r[|r| - 1])
  {
    Trim(StripMentions(content))
  }

  /** `[Đang trả lời tin nhắn: "<replied>"]\n<text>` */
  function WithReplyContext(replied: Str, text: Str): Str {
    ReplyOpen + replied + ReplyClose + text
  }

  /** The user turn's text: the cleaned content, behind the replied-to content for a reply. */
  function UserText(m: ChannelMessage, fetched: Fetch): Str {
    if IsReply(m) && fetched.Fetched? then WithReplyContext(fetched.content, Cleaned(m.content))
    else Cleaned(m.content)
  }

  /**
   * What one `messageCreate` event does, from start to end: an admitted
   * message always gets at least one reply and leaves its channel with a
   * history; any other changes and sends nothing.
   */
  function Handle(entries: map<Key, seq<Turn>>, m: ChannelMessage, fetched: Fetch, gen: Generation): (o: Outcome)
    ensures Admitted(m) <==> |o.replies| > 0
    ensures Admitted(m) ==> m.channelId in o.entries
    ensures !Admitted(m) ==> o.entries == entries && o.call.None?
  {
    if !Admitted(m) then Outcome(entries, None, [])
    else
      var key := m.channelId;
      var created := WithEntry(entries, key);
      if IsReply(m) && fetched.FetchFailed? then
        // the fetch throws after the entry was created; the catch only replies
        Outcome(created, None, [ErrorText])
      else
        var text := UserText(m, fetched);
        var h := created[key];
        Outcome(
          created[key := AfterExchange(h, text, gen, ChannelWindow)],
          Some(CallFor(h, text, ChannelWindow)),
          if gen.Generated? then ReplySends(gen.text) else [ErrorText])
  }

  /**
   * The handler itself, updating the store in place: create the
   * entry, push the user turn, splice to 20, call Gemini with all but the
   * newest turn, push the model turn, and send the reply chunk by chunk.
   */
  method HandleMessage(store: HistoryStore, m: ChannelMessage, fetched: Fetch, gen: Generation)
    returns (call: Option<ModelCall>, replies: seq<Str>)
    modifies store
    ensures var o := Handle(old(store.entries), m, fetched, gen);
      store.entries == o.entries && call == o.call && replies == o.replies
  {
    call, replies := None, [];
    if m.authorIsBot {
      return;
    }
    var isReply := IsReply(m);
    if !m.mentionsBot && !isReply {
      return;
    }
    var key := m.channelId;
    store.EnsureEntry(key);
    assert store.entries == WithEntry(old(store.entries), key);
    var userMessage := Cleaned(m.content);
    if isReply {
      match fetched
      case FetchFailed =>
        replies := [ErrorText];
        return;
      case Fetched(replied) =>
        userMessage := WithReplyContext(replied, userMessage);
    }
    assert userMessage == UserText(m, fetched);
    var c := store.Exchange(key, userMessage, gen, ChannelWindow);
    call := Some(c);
    match gen
    case GenerationFailed =>
      replies := [ErrorText];
    case Generated(botReply) =>
      replies := SendReply(botReply);
  }

  /**
   * A message from a bot, or one that neither mentions the bot nor replies
   * to a message, leaves the store alone, calls nothing and sends nothing.
   */
  lemma IgnoredMessage(entries: map<Key, seq<Turn>>, m: ChannelMessage, fetched: Fetch, gen: Generation)
    requires m.authorIsBot || (!m.mentionsBot && !IsReply(m))
    ensures Handle(entries, m, fetched, gen) == Outcome(entries, None, [])
  {
  }

  /**
   * A successful exchange in a channel. The channel's history, created empty
   * if absent, keeps the newest min(n + 1, 20) turns ending with the user
   * turn, then gains the model turn, so it holds at most 21. Gemini gets that
   * spliced history minus the user turn as context and the user turn's text
   * as the message. The reply goes out in order in pieces of at most 2000
   * code units. No other channel's history changes.
   */
  /** An admitted message whose fetch, if any, succeeded runs the exchange. */
  lemma AdmittedOutcome(entries: map<Key, seq<Turn>>, m: ChannelMessage, fetched: Fetch, gen: Generation)
    requires Admitted(m) && (IsReply(m) ==> fetched.Fetched?)
    ensures var created := WithEntry(entries, m.channelId);
      var h0, text := created[m.channelId], UserText(m, fetched);
      Handle(entries, m, fetched, gen) == Outcome(
        created[m.channelId := AfterExchange(h0, text, gen, ChannelWindow)],
        Some(CallFor(h0, text, ChannelWindow)),
        if gen.Generated? then ReplySends(gen.text) else [ErrorText])
  {
  }

  lemma SuccessfulExchange(entries: map<Key, seq<Turn>>, m: ChannelMessage, fetched: Fetch, reply: Str)
    requires Admitted(m) && (IsReply(m) ==> fetched.Fetched?)
    ensures var o := Handle(entries, m, fetched, Generated(reply));
      var old_h := if m.channelId in entries then entries[m.channelId] else [];
      var text := UserText(m, fetched);
      && m.channelId in o.entries
      && var h := o.entries[m.channelId];
      && |h| == Min(|old_h| + 1, ChannelWindow) + 1 && |h| <= ChannelWindow + 1
      && h[..|h| - 1] == Window(old_h + [Turn(User, text)], ChannelWindow)
      && h[|h| - 2] == Turn(User, text) && h[|h| - 1] == Turn(Model, reply)
      && o.call == Some(ModelCall(h[..|h| - 2], text))
      && Concat(o.replies) == reply
      && (forall k :: 0 <= k < |o.replies| ==> |o.replies[k]| <= MessageLimit)
      && (forall c :: c != m.channelId ==> (c in o.entries <==> c in entries))
      && (forall c :: c != m.channelId && c in entries ==> o.entries[c] == entries[c])
  {
    AdmittedOutcome(entries, m, fetched, Generated(reply));
    ExchangedOutcome(entries, m.channelId, UserText(m, fetched), reply, Handle(entries, m, fetched, Generated(reply)));
  }

  /** The shape of the outcome of an exchange on `key` with user text `text`, apart from the message. */
  lemma ExchangedOutcome(entries: map<Key, seq<Turn>>, key: Key, text: Str, reply: Str, o: Outcome)
    requires var created := WithEntry(entries, key);
      o == Outcome(
        created[key := AfterExchange(created[key], text, Generated(reply), ChannelWindow)],
        Some(CallFor(created[key], text, ChannelWindow)),
        ReplySends(reply))
    ensures var old_h := if key in entries then entries[key] else [];
      && key in o.entries
      && var h := o.entries[key];
      && |h| == Min(|old_h| + 1, ChannelWindow) + 1 && |h| <= ChannelWindow + 1
      && h[..|h| - 1] == Window(old_h + [Turn(User, text)], ChannelWindow)
      && h[|h| - 2] == Turn(User, text) && h[|h| - 1] == Turn(Model, reply)
      && o.call == Some(ModelCall(h[..|h| - 2], text))
      && Concat(o.replies) == reply
      && (forall k :: 0 <= k < |o.replies| ==> |o.replies[k]| <= MessageLimit)
      && (forall c :: c != key ==> (c in o.entries <==> c in entries))
      && (forall c :: c != key && c in entries ==> o.entries[c] == entries[c])
  {
    var h0 := WithEntry(entries, key)[key];
    ExchangeShape(h0, text, Generated(reply), ChannelWindow);
    ReplySendsFaithful(reply);
  }

  /**
   * When Gemini fails, the catch replies with the error text and rolls
   * nothing back: the history keeps the user turn as its newest turn.
   */
  lemma FailedGeneration(entries: map<Key, seq<Turn>>, m: ChannelMessage, fetched: Fetch)
    requires Admitted(m) && (IsReply(m) ==> fetched.Fetched?)
    ensures var o := Handle(entries, m, fetched, GenerationFailed);
      var old_h := if m.channelId in entries then entries[m.channelId] else [];
      && m.channelId in o.entries
      && o.entries[m.channelId] == Window(old_h + [Turn(User, UserText(m, fetched))], ChannelWindow)
      && o.entries[m.channelId][|o.entries[m.channelId]| - 1] == Turn(User, UserText(m, fetched))
      && o.call.Some?
      && o.replies == [ErrorText]
  {
    var created := WithEntry(entries, m.channelId);
    ExchangeShape(created[m.channelId], UserText(m, fetched), GenerationFailed, ChannelWindow);
  }

  /**
   * When fetching the replied-to message fails, Gemini is not called and the
   * error text is sent, but the channel's entry, created before the fetch,
   * stays behind empty.
   */
  lemma FailedFetch(entries: map<Key, seq<Turn>>, m: ChannelMessage, gen: Generation)
    requires Admitted(m) && IsReply(m)
    ensures var o := Handle(entries, m, FetchFailed, gen);
      && o.call == None && o.replies == [ErrorText]
      && o.entries == if m.channelId in entries then entries else entries[m.channelId := []]
  {
  }

  /**
   * Every stored history stays within 21 turns, whatever happens: the only
   * growth past 20 is the model turn pushed after the splice.
   */
  lemma HistoriesStayBounded(entries: map<Key, seq<Turn>>, m: ChannelMessage, fetched: Fetch, gen: Generation)
    requires forall c :: c in entries ==> |entries[c]| <= ChannelWindow + 1
    ensures var o := Handle(entries, m, fetched, gen);
      forall c :: c in o.entries ==> |o.entries[c]| <= ChannelWindow + 1
  {
    if Admitted(m) && !(IsReply(m) && fetched.FetchFailed?) {
      var created := WithEntry(entries, m.channelId);
      ExchangeShape(created[m.channelId], UserText(m, fetched), gen, ChannelWindow);
    }
  }

  /**
   * The user turn is the cleaned content, with the replied-to content in
   * front for a reply: every mention token is gone from content made of
   * plain text and mentions, and the text is trimmed.
   */
  lemma UserTextShape(m: ChannelMessage, replied: Str, ps: seq<Piece>)
    requires WellFormed(ps) && m.content == Render(ps)
    ensures UserText(m, Fetched(replied))
         == if IsReply(m) then ReplyOpen + replied + ReplyClose + Trim(PlainText(ps)) else Trim(PlainText(ps))
  {
    StripRemovesEveryMention(ps);
  }
}
