/**
 * Splitting a long reply for Discord, whose messages hold at most 2000 code
 * units: `reply.match(/[\s\S]{1,2000}/g)` cuts it into consecutive pieces,
 * each as long as the greedy quantifier allows.
 */
module Chunking {
  import opened JsText

  /** Discord's limit on the length of one message. */
  const MessageLimit: nat := 2000

  function Concat(cs: seq<Str>): Str {
    if cs == [] then [] else cs[0] + Concat(cs[1..])
  }

  /**
   * `s.match(/[\s\S]{1,n}/g) || []`: the pieces, in order, put back together
   * give `s`; every piece holds 1 to `n` code units and all but the last hold
   * exactly `n`.
   */
  function Chunks(s: Str, n: nat): (cs: seq<Str>)
    requires n > 0
    ensures Concat(cs) == s
    ensures forall k :: 0 <= k < |cs| ==> 0 < |cs[k]| <= n
    ensures forall k :: 0 <= k < |cs| - 1 ==> |cs[k]| == n
    decreases |s|
  {
    if |s| == 0 then []
    else if |s| <= n then
      assert Concat([s]) == s + Concat([]);
      [s]
    else
      var rest := Chunks(s[n..], n);
      assert Concat([s[..n]] + rest) == s[..n] + Concat(rest) by {
        assert ([s[..n]] + rest)[1..] == rest;
      }
      assert s[..n] + s[n..] == s;
      [s[..n]] + rest
  }

  /** A reply of `L` code units, `L > 0`, is sent as ceil(L / n) pieces. */
  lemma {:induction false} ChunkCount(s: Str, n: nat)
    requires n > 0
    ensures var k := |Chunks(s, n)|; (k - 1) * n < |s| <= k * n || (|s| == 0 && k == 0)
    decreases |s|
  {
    if |s| > n {
      ChunkCount(s[n..], n);
      var k := |Chunks(s[n..], n)|;
      assert |Chunks(s, n)| == k + 1;
      assert (k + 1 - 1) * n == (k - 1) * n + n;
      assert (k + 1) * n == k * n + n;
    }
  }

  /**
   * What the channel handler sends for a reply: the reply itself when it
   * fits in one message, otherwise its chunks.
   */
  function ReplySends(reply: Str): seq<Str> {
    if |reply| > MessageLimit then Chunks(reply, MessageLimit) else [reply]
  }

  /**
   * The sends reproduce the reply in order, each fits in a Discord message,
   * a reply that fits is sent once, and a non-empty reply is never sent as
   * an empty message.
   */
  lemma ReplySendsFaithful(reply: Str)
    ensures Concat(ReplySends(reply)) == reply
    ensures forall k :: 0 <= k < |ReplySends(reply)| ==> |ReplySends(reply)[k]| <= MessageLimit
    ensures |reply| <= MessageLimit <==> ReplySends(reply) == [reply]
    ensures |reply| > 0 ==> forall k :: 0 <= k < |ReplySends(reply)| ==> |ReplySends(reply)[k]| > 0
  {
    if |reply| <= MessageLimit {
      assert Concat([reply]) == reply + Concat([]);
    }
  }

  /**
   * `for (const chunk of chunks) await send(chunk)`: one send per chunk,
   * each awaited before the next, so the sends are the chunks in order.
   */
  method SendEach(chunks: seq<Str>) returns (sent: seq<Str>)
    ensures sent == chunks
  {
    sent := [];
    var i := 0;
    while i < |chunks|
      invariant 0 <= i <= |chunks|
      invariant sent == chunks[..i]
    {
      sent := sent + [chunks[i]];
      i := i + 1;
    }
  }

  /** The channel handler's sending: one message, or the chunks one by one. */
  method SendReply(reply: Str) returns (sent: seq<Str>)
    ensures sent == ReplySends(reply)
  {
    if |reply| > MessageLimit {
      var chunks := Chunks(reply, MessageLimit);
      sent := SendEach(chunks);
    } else {
      sent := [reply];
    }
  }

  /** A reply of exactly 2001 code units goes out as 2000 then 1. */
  lemma OneOverLimit(reply: Str)
    requires |reply| == MessageLimit + 1
    ensures ReplySends(reply) == [reply[..MessageLimit], reply[MessageLimit..]]
  {
    var tail := reply[MessageLimit..];
    assert |tail| == 1;
    assert Chunks(tail, MessageLimit) == [tail];
  }
}
