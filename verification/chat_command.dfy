/**
 * The `/chat` slash command: a private conversation with Gemini per user,
 * keyed by user id and kept to the newest 30 turns before each model call.
 */
module ChatCommand {
  import opened Wrappers
  import opened JsText
  import opened Chunking
  import opened History
  import opened Interactions

  /** How many turns survive the splice before each model call. */
  const ChatWindow: nat := 30

  const ErrorText: Str := Lit("⚠️ Đã có lỗi xảy ra khi xử lý yêu cầu của bạn.")

  /**
   * What `execute` reads from the interaction: the user id, the required
   * `message` option and the optional `private` option.
   */
  datatype ChatInteraction = ChatInteraction(userId: Key, message: Str, privateOption: Option<bool>)

  /** The store afterwards, the Gemini call made, and the responses in order. */
  datatype Outcome = Outcome(entries: map<Key, seq<Turn>>, call: ModelCall, actions: seq<Action>)

  /** `getBoolean('private') ?? false`: private only when the option is given as true. */
  function IsPrivate(option: Option<bool>): (p: bool)
    ensures p <==> option == Some(true)
  {
    option.GetOr(false)
  }

  /**
   * `{ content: chunk, ephemeral }` for each chunk, in order: one follow-up
   * per chunk, all with the same flag, carrying the chunks' text exactly.
   */
  function FollowUps(chunks: seq<Str>, ephemeral: bool): (acts: seq<Action>)
    ensures |acts| == |chunks|
    ensures forall k :: 0 <= k < |chunks| ==> acts[k] == FollowUp(chunks[k], ephemeral)
    ensures TextOf(acts) == Concat(chunks)
    decreases |chunks|
  {
    if chunks == [] then []
    else
      var rest := FollowUps(chunks[1..], ephemeral);
      assert ([FollowUp(chunks[0], ephemeral)] + rest)[1..] == rest;
      [FollowUp(chunks[0], ephemeral)] + rest
  }

  /**
   * How a reply reaches the user: the deferred reply is edited to the whole
   * reply, or, past 2000 code units, to the first chunk, with the remaining
   * chunks as follow-ups.
   */
  function Delivery(reply: Str, ephemeral: bool): seq<Action> {
    if |reply| > MessageLimit then
      var chunks := Chunks(reply, MessageLimit);
      [EditReply(chunks[0])] + FollowUps(chunks[1..], ephemeral)
    else [EditReply(reply)]
  }

  /** The texts the responses carry, in order. */
  function TextOf(acts: seq<Action>): Str {
    if acts == [] then []
    else (match acts[0]
          case Defer(_) => []
          case EditReply(t) => t
          case FollowUp(t, _) => t
          case Reply(t, _) => t) + TextOf(acts[1..])
  }

  /**
   * The edit comes first and every later response is a follow-up carrying
   * the command's own ephemeral flag; together they carry the reply exactly,
   * each within Discord's limit; a reply that fits takes the edit alone.
   */
  lemma DeliveryFaithful(reply: Str, ephemeral: bool)
    ensures var acts := Delivery(reply, ephemeral);
      && |acts| >= 1 && acts[0].EditReply?
      && (forall k :: 1 <= k < |acts| ==> acts[k].FollowUp? && acts[k].ephemeral == ephemeral)
      && (forall k :: 0 <= k < |acts| ==> |acts[k].text| <= MessageLimit)
      && TextOf(acts) == reply
      && (|acts| == 1 <==> |reply| <= MessageLimit)
  {
    var acts := Delivery(reply, ephemeral);
    if |reply| > MessageLimit {
      var chunks := Chunks(reply, MessageLimit);
      assert chunks == [chunks[0]] + chunks[1..];
      assert acts[1..] == FollowUps(chunks[1..], ephemeral);
      assert Concat(chunks) == chunks[0] + Concat(chunks[1..]);
    } else {
      assert TextOf(acts) == reply + TextOf([]);
    }
  }

  /**
   * What one `/chat` interaction does, from start to end: it defers with the
   * private flag, then edits the deferred reply, whatever Gemini answers, and
   * the user has a history afterwards.
   */
  function Handle(entries: map<Key, seq<Turn>>, ix: ChatInteraction, gen: Generation): (o: Outcome)
    ensures |o.actions| >= 2 && o.actions[0] == Defer(ix.privateOption == Some(true)) && o.actions[1].EditReply?
    ensures ix.userId in o.entries
  {
    var p := IsPrivate(ix.privateOption);
    var key := ix.userId;
    var created := WithEntry(entries, key);
    var h := created[key];
    Outcome(
      created[key := AfterExchange(h, ix.message, gen, ChatWindow)],
      CallFor(h, ix.message, ChatWindow),
      [Defer(p)] + if gen.Generated? then Delivery(gen.text, p) else [EditReply(ErrorText)])
  }

  /**
   * `execute`, updating the store in place: defer, create the user's
   * entry, run the exchange with a window of 30, then edit the deferred reply
   * and follow up with the remaining chunks one at a time.
   */
  method Execute(store: HistoryStore, ix: ChatInteraction, gen: Generation)
    returns (call: ModelCall, actions: seq<Action>)
    modifies store
    ensures var o := Handle(old(store.entries), ix, gen);
      store.entries == o.entries && call == o.call && actions == o.actions
  {
    var isPrivate := IsPrivate(ix.privateOption);
    actions := [Defer(isPrivate)];
    var userId := ix.userId;
    store.EnsureEntry(userId);
    call := store.Exchange(userId, ix.message, gen, ChatWindow);
    match gen
    case GenerationFailed =>
      actions := actions + [EditReply(ErrorText)];
    case Generated(botReply) =>
      if |botReply| > MessageLimit {
        var chunks := Chunks(botReply, MessageLimit);
        var sent := FollowUpRest(chunks, isPrivate);
        actions := actions + sent;
      } else {
        actions := actions + [EditReply(botReply)];
      }
  }

  /**
   * `editReply(chunks[0])`, then `for (let i = 1; i < chunks.length; i++)
   * followUp(...)`: the edit, then one follow-up per later chunk, in order.
   */
  method FollowUpRest(chunks: seq<Str>, ephemeral: bool) returns (acts: seq<Action>)
    requires |chunks| > 0
    ensures acts == [EditReply(chunks[0])] + FollowUps(chunks[1..], ephemeral)
  {
    acts := [EditReply(chunks[0])];
    var i := 1;
    while i < |chunks|
      invariant 1 <= i <= |chunks|
      invariant acts == [EditReply(chunks[0])] + FollowUps(chunks[1..i], ephemeral)
    {
      FollowUpsStep(chunks, i, ephemeral);
      acts := acts + [FollowUp(chunks[i], ephemeral)];
      i := i + 1;
    }
    assert chunks[1..i] == chunks[1..];
  }

  /** Taking one more chunk adds one follow-up at the end. */
  lemma FollowUpsStep(chunks: seq<Str>, i: nat, ephemeral: bool)
    requires 1 <= i < |chunks|
    ensures FollowUps(chunks[1..i + 1], ephemeral) == FollowUps(chunks[1..i], ephemeral) + [FollowUp(chunks[i], ephemeral)]
  {
    assert chunks[1..i + 1] == chunks[1..i] + [chunks[i]];
    FollowUpsSnoc(chunks[1..i], chunks[i], ephemeral);
  }

  /** One more chunk is one more follow-up at the end. */
  lemma FollowUpsSnoc(chunks: seq<Str>, c: Str, ephemeral: bool)
    ensures FollowUps(chunks + [c], ephemeral) == FollowUps(chunks, ephemeral) + [FollowUp(c, ephemeral)]
  {
    var l, r := FollowUps(chunks + [c], ephemeral), FollowUps(chunks, ephemeral) + [FollowUp(c, ephemeral)];
    assert forall k :: 0 <= k < |l| ==> l[k] == r[k] by {
      forall k | 0 <= k < |l| ensures l[k] == r[k] {
        if k < |chunks| { assert (chunks + [c])[k] == chunks[k]; }
      }
    }
  }

  /**
   * A successful `/chat`. The user's history, created empty if absent,
   * keeps the newest min(n + 1, 30) turns ending with the user's message,
   * then gains the reply, so it holds at most 31. Gemini gets that spliced
   * history minus the new turn as context and the message itself. The
   * responses are the deferral with the private flag, then the delivery.
   * No other user's history changes.
   */
  lemma SuccessfulChat(entries: map<Key, seq<Turn>>, ix: ChatInteraction, reply: Str)
    ensures var o := Handle(entries, ix, Generated(reply));
      var old_h := if ix.userId in entries then entries[ix.userId] else [];
      && ix.userId in o.entries
      && var h := o.entries[ix.userId];
      && |h| == Min(|old_h| + 1, ChatWindow) + 1 && |h| <= ChatWindow + 1
      && h[..|h| - 1] == Window(old_h + [Turn(User, ix.message)], ChatWindow)
      && h[|h| - 2] == Turn(User, ix.message) && h[|h| - 1] == Turn(Model, reply)
      && o.call == ModelCall(h[..|h| - 2], ix.message)
      && o.actions == [Defer(ix.privateOption == Some(true))] + Delivery(reply, ix.privateOption == Some(true))
      && (forall c :: c != ix.userId ==> (c in o.entries <==> c in entries))
      && (forall c :: c != ix.userId && c in entries ==> o.entries[c] == entries[c])
  {
    var created := WithEntry(entries, ix.userId);
    var h0 := created[ix.userId];
    ExchangeShape(h0, ix.message, Generated(reply), ChatWindow);
  }

  /**
   * When Gemini fails, the deferred reply is edited to the error text and
   * nothing is rolled back: the user's history keeps the new user turn.
   */
  lemma FailedChat(entries: map<Key, seq<Turn>>, ix: ChatInteraction)
    ensures var o := Handle(entries, ix, GenerationFailed);
      var old_h := if ix.userId in entries then entries[ix.userId] else [];
      && ix.userId in o.entries
      && o.entries[ix.userId] == Window(old_h + [Turn(User, ix.message)], ChatWindow)
      && o.entries[ix.userId][|o.entries[ix.userId]| - 1] == Turn(User, ix.message)
      && o.actions == [Defer(ix.privateOption == Some(true)), EditReply(ErrorText)]
  {
    var created := WithEntry(entries, ix.userId);
    var o := Handle(entries, ix, GenerationFailed);
    ExchangeShape(created[ix.userId], ix.message, GenerationFailed, ChatWindow);
    assert o.entries[ix.userId] == AfterExchange(created[ix.userId], ix.message, GenerationFailed, ChatWindow);
  }

  /**
   * Every user's history stays within 31 turns: the only growth past 30 is
   * the reply pushed after the splice.
   */
  lemma ChatHistoriesStayBounded(entries: map<Key, seq<Turn>>, ix: ChatInteraction, gen: Generation)
    requires forall c :: c in entries ==> |entries[c]| <= ChatWindow + 1
    ensures var o := Handle(entries, ix, gen);
      forall c :: c in o.entries ==> |o.entries[c]| <= ChatWindow + 1
  {
    var created := WithEntry(entries, ix.userId);
    ExchangeShape(created[ix.userId], ix.message, gen, ChatWindow);
  }
}
