/**
 * The standalone bot at the repository root: one stateless Gemini call per
 * message that pings the bot, with the reply cut to 1900 code units.
 */
module LegacyHandler {
  import opened Wrappers
  import opened JsText
  import opened Mentions
  import opened History

  /** The reply is cut well under Discord's 2000 to leave room. */
  const ReplyLimit: nat := 1900

  const ErrorText: Str := Lit("❌ Lỗi Gemini AI")

  /**
   * What the handler reads from a Discord message; `mentionsBot` is
   * `message.mentions.has(client.user)` as discord.js computes it.
   */
  datatype LegacyMessage = LegacyMessage(authorIsBot: bool, mentionsBot: bool, content: Str)

  /** The prompt sent to `generateContent`, if any, and the replies sent. */
  datatype Outcome = Outcome(prompt: Option<Str>, replies: seq<Str>)

  /** `` `<@${client.user.id}>` ``: the bot's mention in its plain form. */
  function BotMention(botId: Str): Str {
    MentionToken(false, botId)
  }

  /** `content.replace(`<@${id}>`, '').trim()`: the first plain mention of the bot goes. */
  function Prompt(content: Str, botId: Str): (r: Str)
    ensures |r| > 0 ==> !IsSpace(r[0]) && !IsSpace(r[|r| - 1])
    ensures IndexOf(content, BotMention(botId)).None? ==> r == Trim(content)
    ensures IndexOf(content, BotMention(botId)).Some? ==> |r| <= |content| - |BotMention(botId)|
  {
    Trim(RemoveFirst(content, BotMention(botId)))
  }

  /**
   * What one `messageCreate` event does: at most one reply, and only for a
   * call, and whatever is sent fits in 1900 code units.
   */
  function Handle(m: LegacyMessage, botId: Str, gen: Generation): (o: Outcome)
    ensures |o.replies| == (if o.prompt.Some? then 1 else 0)
    ensures forall k :: 0 <= k < |o.replies| ==> |o.replies[k]| <= ReplyLimit
  {
    if m.authorIsBot || !m.mentionsBot then Outcome(None, [])
    else
      var prompt := Prompt(m.content, botId);
      if |prompt| == 0 then Outcome(None, [])
      else
        match gen
        case Generated(reply) => Outcome(Some(prompt), [SliceTo(reply, ReplyLimit)])
        case GenerationFailed => Outcome(Some(prompt), [ErrorText])
  }

  /**
   * Gemini is called exactly when the author is not a bot, the bot is
   * mentioned and something other than whitespace is left once the first
   * plain mention is removed; otherwise nothing at all is sent. A failed
   * call is answered with the error text.
   */
  lemma CalledIff(m: LegacyMessage, botId: Str, gen: Generation)
    ensures var o := Handle(m, botId, gen);
      && (o.prompt.Some? <==>
            !m.authorIsBot && m.mentionsBot && !AllSpace(RemoveFirst(m.content, BotMention(botId))))
      && (o.prompt.None? ==> o.replies == [])
      && (o.prompt.Some? ==> |o.replies| == 1 && |o.prompt.value| > 0)
      && (o.prompt.Some? && gen.GenerationFailed? ==> o.replies == [ErrorText])
  {
    TrimEmptyIff(RemoveFirst(m.content, BotMention(botId)));
  }

  /**
   * On success the one reply is the start of Gemini's text: all of it when
   * it has at most 1900 code units, else its first 1900, which always fits a
   * Discord message. On failure the reply is the error text.
   */
  lemma ReplyIsPrefix(m: LegacyMessage, botId: Str, reply: Str)
    requires Handle(m, botId, Generated(reply)).prompt.Some?
    ensures var rs := Handle(m, botId, Generated(reply)).replies;
      && |rs| == 1
      && |rs[0]| == Min(|reply|, ReplyLimit) && |rs[0]| < 2000
      && rs[0] == reply[..|rs[0]|]
      && (|reply| <= ReplyLimit ==> rs[0] == reply)
  {
  }

  /**
   * With no `<` before the bot's first plain mention, the prompt is what
   * surrounds that mention, trimmed; any later mention of the bot stays in
   * the prompt.
   */
  lemma StripsFirstMentionOnly(a: Str, botId: Str, b: Str)
    requires Lt !in a
    ensures Prompt(a + BotMention(botId) + b, botId) == Trim(a + b)
  {
    var s := a + BotMention(botId) + b;
    forall k | 0 <= k < |a| ensures !OccursAt(s, BotMention(botId), k) {
      assert s[k] == a[k];
    }
    RemoveFirstAfter(a, BotMention(botId), b);
  }

  /** A message of two plain pings sends the second ping to Gemini as the prompt. */
  lemma DoublePingKeepsOne(botId: Str)
    ensures Prompt(BotMention(botId) + BotMention(botId), botId) == BotMention(botId)
  {
    var t := BotMention(botId);
    calc {
      Prompt(t + t, botId);
      Trim(RemoveFirst(t + t, t));
      == { RemoveFirstOfTwo(t); }
      Trim(t);
      == { BotMentionUnpadded(botId); TrimKeepsUnpadded(t); }
      t;
    }
  }

  /** The bot's mention starts with `<` and ends with `>`, neither of them whitespace. */
  lemma BotMentionUnpadded(botId: Str)
    ensures var t := BotMention(botId); |t| > 0 && !IsSpace(t[0]) && !IsSpace(t[|t| - 1])
  {
    var t := BotMention(botId);
    assert t == [Lt, At] + botId + [Gt];
    assert t[0] == Lt && t[|t| - 1] == Gt;
  }

  lemma RemoveFirstOfTwo(t: Str)
    ensures RemoveFirst(t + t, t) == t
  {
    RemoveFirstAfter([], t, t);
    assert [] + t + t == t + t && [] + t == t;
  }

  /**
   * The nickname form `<@!id>` is not the literal searched for: a message
   * that pings the bot only that way reaches Gemini with the ping still in
   * it.
   */
  lemma NicknamePingKept(botId: Str, b: Str)
    requires |botId| > 0 && AllDigits(botId) && Lt !in b
    ensures Prompt(MentionToken(true, botId) + b, botId) == Trim(MentionToken(true, botId) + b)
  {
    var tok, p := MentionToken(true, botId), BotMention(botId);
    var s := tok + b;
    forall k | 0 <= k <= |s| ensures !OccursAt(s, p, k) {
      if k + |p| <= |s| {
        if k == 0 {
          // `<@!` against `<@` and a digit
          assert s[2] == Bang && p[2] == botId[0];
          assert s[k..k + |p|][2] != p[2];
        } else {
          // no `<` after the first code unit
          if k < 3 {
            assert s[k] == tok[k];
          } else if k < 3 + |botId| {
            assert s[k] == botId[k - 3];
          } else if k < |tok| {
            assert s[k] == Gt;
          } else {
            assert s[k] == b[k - |tok|];
          }
          assert s[k..k + |p|][0] != p[0];
        }
      }
    }
    assert IndexOf(s, p).None?;
  }
}
