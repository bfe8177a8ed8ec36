/**
 * The conversation history kept in memory: a `Map` from a conversation key
 * (a channel id or a user id) to the array of turns sent to Gemini as
 * context. Each exchange pushes the user turn, splices the oldest turns off
 * so that at most `w` remain, sends all but the newest turn as context, and
 * pushes the model turn without splicing again.
 */
module History {
  import opened Wrappers
  import opened JsText

  datatype Role = User | Model

  /** `{ role, parts: [{ text }] }` */
  datatype Turn = Turn(role: Role, text: Str)

  /** A Discord snowflake id as the string discord.js hands out. */
  type Key = Str

  /** What Gemini's chat session is started with and then sent. */
  datatype ModelCall = ModelCall(context: seq<Turn>, message: Str)

  /** The outcome of `chat.sendMessage(...)` and `response.text()`. */
  datatype Generation = Generated(text: Str) | GenerationFailed

  /**
   * `if (h.length > w) h.splice(0, h.length - w)`: the newest `w` turns,
   * or all of them when there are no more than `w`.
   */
  function Window(h: seq<Turn>, w: nat): (r: seq<Turn>)
    ensures |r| == Min(|h|, w)
  {
    if |h| > w then h[|h| - w..] else h
  }

  /**
   * The turns the splice keeps are the newest ones, in their order. Kept as
   * a lemma rather than on `Window` itself, so that every proof that uses a
   * window does not also carry the slice.
   */
  lemma WindowIsNewest(h: seq<Turn>, w: nat)
    ensures Window(h, w) == h[|h| - Min(|h|, w)..]
  {
  }

  /** `h.slice(0, -1)`: everything but the newest turn. */
  function Context(h: seq<Turn>): (r: seq<Turn>)
    ensures |h| > 0 ==> r + [h[|h| - 1]] == h
    ensures |h| == 0 ==> r == []
  {
    if |h| == 0 then [] else h[..|h| - 1]
  }

  /** The history once the user turn is pushed and the oldest turns spliced off. */
  function WithUserTurn(h: seq<Turn>, text: Str, w: nat): seq<Turn> {
    Window(h + [Turn(User, text)], w)
  }

  /** What `startChat` and `sendMessage` receive for this exchange. */
  function CallFor(h: seq<Turn>, text: Str, w: nat): ModelCall {
    ModelCall(Context(WithUserTurn(h, text, w)), text)
  }

  /**
   * The stored history after the exchange: the model turn is pushed after
   * the splice when generation succeeds; when it fails, nothing is rolled
   * back and the user turn stays.
   */
  function AfterExchange(h: seq<Turn>, text: Str, gen: Generation, w: nat): seq<Turn> {
    var h1 := WithUserTurn(h, text, w);
    match gen
    case Generated(reply) => h1 + [Turn(Model, reply)]
    case GenerationFailed => h1
  }

  /**
   * Splicing a spliced history after more pushes is the same as splicing
   * once: older turns never come back.
   */
  lemma WindowAbsorbs(x: seq<Turn>, y: seq<Turn>, w: nat)
    ensures Window(Window(x, w) + y, w) == Window(x + y, w)
  {
    var wx := Window(x, w);
    var dropped := x[..|x| - |wx|];
    assert x == dropped + wx;
    assert x + y == dropped + (wx + y);
    WindowOfSuffix(dropped, wx + y, w);
  }

  /** A suffix at least as long as the window holds the same newest turns. */
  lemma WindowOfSuffix(pre: seq<Turn>, z: seq<Turn>, w: nat)
    requires Min(|pre| + |z|, w) <= |z|
    ensures Window(pre + z, w) == Window(z, w)
  {
    var u := pre + z;
    var m := Min(|u|, w);
    assert u[|pre|..] == z;
    assert u[|u| - m..] == z[|z| - m..];
  }

  /** Pushing each turn in order, splicing after each push. */
  function PushEach(h: seq<Turn>, ts: seq<Turn>, w: nat): seq<Turn>
    decreases |ts|
  {
    if ts == [] then h else PushEach(Window(h + [ts[0]], w), ts[1..], w)
  }

  /**
   * After any number of pushes, each followed by the splice, the history is
   * the newest `w` turns of everything pushed, in arrival order; its length
   * is `min(N, w)` when it started empty.
   */
  lemma {:induction false} PushEachKeepsNewest(h: seq<Turn>, ts: seq<Turn>, w: nat)
    ensures PushEach(Window(h, w), ts, w) == Window(h + ts, w)
    decreases |ts|
  {
    if ts != [] {
      WindowAbsorbs(h, [ts[0]], w);
      PushEachKeepsNewest(h + [ts[0]], ts[1..], w);
      assert h + [ts[0]] + ts[1..] == h + ts;
    } else {
      assert h + ts == h;
      WindowAbsorbs(h, [], w);
      assert Window(h, w) + [] == Window(h, w);
    }
  }

  /**
   * One exchange on a history of any length: the user turn is the newest of
   * at most `w` kept turns; the context is exactly those turns minus the
   * user turn, which is sent as the message instead; on success the history
   * ends with the user turn then the model turn and holds at most `w + 1`
   * turns; on failure it ends with the user turn.
   */
  lemma ExchangeShape(h: seq<Turn>, text: Str, gen: Generation, w: nat)
    requires w > 0
    ensures var h1 := WithUserTurn(h, text, w);
      && |h1| == Min(|h| + 1, w)
      && h1[|h1| - 1] == Turn(User, text)
      && CallFor(h, text, w).context + [Turn(User, text)] == h1
      && CallFor(h, text, w).message == text
      && |CallFor(h, text, w).context| < w
    ensures var after := AfterExchange(h, text, gen, w);
      match gen
      case Generated(reply) =>
        && |after| == Min(|h| + 1, w) + 1 && |after| <= w + 1
        && after[|after| - 2] == Turn(User, text)
        && after[|after| - 1] == Turn(Model, reply)
        && after[..|after| - 1] == WithUserTurn(h, text, w)
        && CallFor(h, text, w) == ModelCall(after[..|after| - 2], text)
      case GenerationFailed =>
        && after == WithUserTurn(h, text, w)
        && after[|after| - 1] == Turn(User, text)
  {
    var hu := h + [Turn(User, text)];
    var h1 := WithUserTurn(h, text, w);
    assert hu == hu[..|hu| - |h1|] + h1;
    assert h1[|h1| - 1] == hu[|hu| - 1];
    match gen
    case Generated(reply) =>
      var after := h1 + [Turn(Model, reply)];
      assert after[..|after| - 1] == h1;
      assert after[..|after| - 2] == h1[..|h1| - 1];
    case GenerationFailed =>
  }

  /** One successful exchange: the user's text and the reply it got. */
  datatype Round = Round(said: Str, answer: Str)

  /** The turns a run of successful exchanges pushes, in order. */
  function TurnsOf(rs: seq<Round>): seq<Turn> {
    if rs == [] then [] else [Turn(User, rs[0].said), Turn(Model, rs[0].answer)] + TurnsOf(rs[1..])
  }

  /** The stored history after a run of successful exchanges. */
  function Run(h: seq<Turn>, rs: seq<Round>, w: nat): seq<Turn>
    decreases |rs|
  {
    if rs == [] then h
    else Run(AfterExchange(h, rs[0].said, Generated(rs[0].answer), w), rs[1..], w)
  }

  lemma {:induction false} RunSnoc(h: seq<Turn>, rs: seq<Round>, r: Round, w: nat)
    ensures Run(h, rs + [r], w) == AfterExchange(Run(h, rs, w), r.said, Generated(r.answer), w)
    decreases |rs|
  {
    if rs == [] {
      assert [] + [r] == [r];
    } else {
      assert (rs + [r])[1..] == rs[1..] + [r];
      RunSnoc(AfterExchange(h, rs[0].said, Generated(rs[0].answer), w), rs[1..], r, w);
    }
  }

  lemma {:induction false} TurnsOfSnoc(rs: seq<Round>, r: Round)
    ensures TurnsOf(rs + [r]) == TurnsOf(rs) + [Turn(User, r.said), Turn(Model, r.answer)]
    decreases |rs|
  {
    if rs == [] {
      assert [] + [r] == [r];
    } else {
      assert (rs + [r])[1..] == rs[1..] + [r];
      TurnsOfSnoc(rs[1..], r);
    }
  }

  /**
   * After any run of successful exchanges ending with `r`, the stored
   * history is the newest `w` of all turns up to and including the last user
   * turn, followed by the last reply: every splice drops the oldest turns,
   * and the model push after it is what lets the store hold `w + 1` turns.
   */
  lemma {:induction false} RunKeepsNewest(h: seq<Turn>, rs: seq<Round>, r: Round, w: nat)
    ensures Run(h, rs + [r], w)
         == Window(h + TurnsOf(rs) + [Turn(User, r.said)], w) + [Turn(Model, r.answer)]
    decreases |rs|
  {
    if rs == [] {
      RunSnoc(h, rs, r, w);
      assert h + TurnsOf(rs) == h;
    } else {
      var init, l := rs[..|rs| - 1], rs[|rs| - 1];
      assert rs == init + [l];
      var a := h + TurnsOf(init) + [Turn(User, l.said)];
      calc {
        Run(h, rs + [r], w);
        == { RunSnoc(h, rs, r, w); }
        AfterExchange(Run(h, init + [l], w), r.said, Generated(r.answer), w);
        == { RunKeepsNewest(h, init, l, w); }
        AfterExchange(Window(a, w) + [Turn(Model, l.answer)], r.said, Generated(r.answer), w);
        == { ExchangeAfterWindow(Window(a, w) + [Turn(Model, l.answer)], a, l.answer, r, w); }
        Window(a + [Turn(Model, l.answer), Turn(User, r.said)], w) + [Turn(Model, r.answer)];
        == { TurnsOfSnoc(init, l);
             Regroup(h, TurnsOf(init), Turn(User, l.said), Turn(Model, l.answer), Turn(User, r.said)); }
        Window(h + TurnsOf(rs) + [Turn(User, r.said)], w) + [Turn(Model, r.answer)];
      }
    }
  }

  lemma Regroup(h: seq<Turn>, t: seq<Turn>, u: Turn, m: Turn, v: Turn)
    ensures h + (t + [u, m]) + [v] == h + t + [u] + [m, v]
  {
  }

  /** One more exchange on a history that is a window plus a reply. */
  lemma ExchangeAfterWindow(prev: seq<Turn>, a: seq<Turn>, answer: Str, r: Round, w: nat)
    requires prev == Window(a, w) + [Turn(Model, answer)]
    ensures AfterExchange(prev, r.said, Generated(r.answer), w)
         == Window(a + [Turn(Model, answer), Turn(User, r.said)], w) + [Turn(Model, r.answer)]
  {
    var tail := [Turn(Model, answer), Turn(User, r.said)];
    assert prev + [Turn(User, r.said)] == Window(a, w) + tail;
    WindowAbsorbs(a, tail, w);
  }

  /**
   * The store with an empty history created for `key` when it has none: the
   * key then has an entry, an existing history is kept as it was, and no
   * other key gains, loses or changes an entry.
   */
  function WithEntry(entries: map<Key, seq<Turn>>, key: Key): (r: map<Key, seq<Turn>>)
    ensures key in r && r[key] == (if key in entries then entries[key] else [])
    ensures forall c :: c != key ==> (c in r <==> c in entries)
    ensures forall c :: c != key && c in entries ==> r[c] == entries[c]
  {
    if key in entries then entries else entries[key := []]
  }

  /**
   * A `conversationHistory` map. The handlers update it in place:
   * `set` on a missing key, `push` and `splice` on the array under a key,
   * `delete` on reset.
   */
  class HistoryStore {
    var entries: map<Key, seq<Turn>>

    constructor ()
      ensures entries == map[]
    {
      entries := map[];
    }

    /** `if (!m.has(key)) m.set(key, [])` */
    method EnsureEntry(key: Key)
      modifies this
      ensures entries == WithEntry(old(entries), key)
    {
      if key !in entries {
        entries := entries[key := []];
      }
    }

    /** `m.get(key).push(turn)` */
    method Push(key: Key, turn: Turn)
      requires key in entries
      modifies this
      ensures entries == old(entries)[key := old(entries)[key] + [turn]]
    {
      entries := entries[key := entries[key] + [turn]];
    }

    /** `if (h.length > w) h.splice(0, h.length - w)` on `h = m.get(key)` */
    method SpliceOldest(key: Key, w: nat)
      requires key in entries
      modifies this
      ensures entries == old(entries)[key := Window(old(entries)[key], w)]
    {
      var h := entries[key];
      if |h| > w {
        entries := entries[key := h[|h| - w..]];
      }
    }

    /**
     * The exchange both conversation handlers run on the array under `key`:
     * push the user turn, splice to `w`, start the chat with all but the
     * newest turn and send the user text, then push the reply if one came.
     */
    method Exchange(key: Key, text: Str, gen: Generation, w: nat) returns (call: ModelCall)
      requires key in entries
      modifies this
      ensures entries == old(entries)[key := AfterExchange(old(entries)[key], text, gen, w)]
      ensures call == CallFor(old(entries)[key], text, w)
    {
      Push(key, Turn(User, text));
      SpliceOldest(key, w);
      var history := entries[key];
      call := ModelCall(Context(history), text);
      if gen.Generated? {
        Push(key, Turn(Model, gen.text));
      }
    }

    /** `m.delete(key)` */
    method Delete(key: Key)
      modifies this
      ensures entries == old(entries) - {key}
    {
      entries := entries - {key};
    }
  }
}
