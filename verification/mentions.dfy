/**
 * Mention tokens as Discord writes them in message content: `<@digits>` for a
 * user and `<@!digits>` for a user addressed by nickname. The channel handler
 * removes every match of `/<@!?\d+>/g`; the standalone bot removes only the
 * first literal `<@botId>`.
 */
module Mentions {
  import opened Wrappers
  import opened JsText

  const Lt: CodeUnit := 0x3C
  const At: CodeUnit := 0x40
  const Bang: CodeUnit := 0x21
  const Gt: CodeUnit := 0x3E
  const Amp: CodeUnit := 0x26

  /** `\d` without the `u` flag: the ASCII digits only. */
  predicate IsDigit(u: CodeUnit) {
    0x30 <= u <= 0x39
  }

  predicate AllDigits(s: Str) {
    forall k :: 0 <= k < |s| ==> IsDigit(s[k])
  }

  /** The whole of `t` is one match of `<@!?\d+>`. */
  predicate IsMention(t: Str) {
    && |t| >= 4 && t[0] == Lt && t[1] == At && t[|t| - 1] == Gt
    && var digits := if t[2] == Bang then t[3..|t| - 1] else t[2..|t| - 1];
       |digits| > 0 && AllDigits(digits)
  }

  /** The mention token for user `id`, with or without the nickname `!`. */
  function MentionToken(nick: bool, id: Str): Str {
    [Lt, At] + (if nick then [Bang] else []) + id + [Gt]
  }

  /** The end of the run of digits in `s` that starts at `i`. */
  function DigitRun(s: Str, i: nat): (j: nat)
    requires i <= |s|
    ensures i <= j <= |s|
    ensures forall k :: i <= k < j ==> IsDigit(s[k])
    ensures j < |s| ==> !IsDigit(s[j])
    decreases |s| - i
  {
    if i < |s| && IsDigit(s[i]) then DigitRun(s, i + 1) else i
  }

  /**
   * Where the match of `/<@!?\d+>/` that starts at index `i` of `s` ends, if
   * one starts there: `Some(e)` exactly when `s[i..e]` is a mention token.
   */
  function MentionEnd(s: Str, i: nat): (r: Option<nat>)
    requires i <= |s|
    ensures r.Some? ==> i < r.value <= |s| && IsMention(s[i..r.value])
    ensures r.None? ==> forall e {:trigger IsMention(s[i..e])} :: i < e <= |s| ==> !IsMention(s[i..e])
  {
    if i + 1 < |s| && s[i] == Lt && s[i + 1] == At then
      var d := if i + 2 < |s| && s[i + 2] == Bang then i + 3 else i + 2;
      var e := DigitRun(s, d);
      if d < e < |s| && s[e] == Gt then
        MentionAtRun(s, i, d, e);
        Some(e + 1)
      else
        assert forall e' {:trigger IsMention(s[i..e'])} :: i < e' <= |s| ==> !IsMention(s[i..e']) by {
          forall e' | i < e' <= |s| && IsMention(s[i..e'])
            ensures false
          {
            NoMentionPastRun(s, i, d, e, e');
          }
        }
        None
    else
      None
  }

  /** Why `MentionEnd` finds a match when its digit run is closed by `>`. */
  lemma MentionAtRun(s: Str, i: nat, d: nat, e: nat)
    requires i + 1 < |s| && s[i] == Lt && s[i + 1] == At
    requires d == if i + 2 < |s| && s[i + 2] == Bang then i + 3 else i + 2
    requires d < e < |s| && s[e] == Gt
    requires forall k :: d <= k < e ==> IsDigit(s[k])
    ensures IsMention(s[i..e + 1])
  {
    var t := s[i..e + 1];
    assert t[0] == Lt && t[1] == At && t[|t| - 1] == Gt && t[2] == s[i + 2];
    var digits := t[d - i..|t| - 1];
    forall k | 0 <= k < |digits| ensures IsDigit(digits[k]) {
      assert digits[k] == s[d + k];
    }
  }

  /** Why `MentionEnd` finds nothing when its digit run is not closed by `>`. */
  lemma NoMentionPastRun(s: Str, i: nat, d: nat, e: nat, e': nat)
    requires i + 1 < |s| && s[i] == Lt && s[i + 1] == At
    requires d == if i + 2 < |s| && s[i + 2] == Bang then i + 3 else i + 2
    requires d <= |s| && e == DigitRun(s, d)
    requires i < e' <= |s| && IsMention(s[i..e'])
    ensures d < e < |s| && s[e] == Gt
  {
    var t := s[i..e'];
    var off := if t[2] == Bang then 3 else 2;
    var digits := t[off..|t| - 1];
    assert t[2] == s[i + 2];
    assert d == i + off;
    forall k | d <= k < e' - 1
      ensures IsDigit(s[k])
    {
      assert digits[k - d] == t[k - i] == s[k];
    }
    assert s[e' - 1] == t[|t| - 1] == Gt;
    assert e == e' - 1;
  }

  /** A mention token built from a non-empty run of digits is one match. */
  lemma MentionTokenIsMention(nick: bool, id: Str)
    requires |id| > 0 && AllDigits(id)
    ensures IsMention(MentionToken(nick, id))
  {
    var t := MentionToken(nick, id);
    var digits := if t[2] == Bang then t[3..|t| - 1] else t[2..|t| - 1];
    assert digits == id;
  }

  /** A mention token is recognised whole, at its first code unit. */
  lemma MentionTokenMatches(nick: bool, id: Str, rest: Str)
    requires |id| > 0 && AllDigits(id)
    ensures MentionEnd(MentionToken(nick, id) + rest, 0) == Some(|MentionToken(nick, id)|)
  {
    var t := MentionToken(nick, id);
    var s := t + rest;
    MentionTokenIsMention(nick, id);
    assert s[0..|t|] == t;
    assert IsMention(s[0..|t|]);
    match MentionEnd(s, 0)
    case None =>
      assert false;
    case Some(e) =>
      MentionEndsUnique(s, e, |t|);
  }

  /** Two matches starting at the same index end at the same index. */
  lemma MentionEndsUnique(s: Str, e1: nat, e2: nat)
    requires 0 < e1 <= |s| && 0 < e2 <= |s|
    requires IsMention(s[..e1]) && IsMention(s[..e2])
    ensures e1 == e2
  {
    if e1 < e2 {
      GtOnlyAtEnd(s, e2, e1 - 1);
    } else if e2 < e1 {
      GtOnlyAtEnd(s, e1, e2 - 1);
    }
  }

  /** Inside a match, `>` appears only as its last code unit. */
  lemma GtOnlyAtEnd(s: Str, e: nat, k: nat)
    requires 0 < e <= |s| && IsMention(s[..e]) && k < e - 1
    ensures s[k] != Gt
  {
    var t := s[..e];
    var off := if t[2] == Bang then 3 else 2;
    var digits := t[off..|t| - 1];
    assert t[k] == s[k];
    if off <= k {
      assert digits[k - off] == t[k];
    }
  }

  /**
   * `s.replace(/<@!?\d+>/g, '')`: scanning from the left, each match is
   * dropped and the scan resumes after it; a code unit where no match starts
   * is kept and the scan moves on by one.
   */
  function StripMentions(s: Str): (r: Str)
    ensures |r| <= |s|
    decreases |s|
  {
    if |s| == 0 then []
    else match MentionEnd(s, 0)
      case Some(e) => StripMentions(s[e..])
      case None => [s[0]] + StripMentions(s[1..])
  }

  /** `s` starts with `<@`, the only way a match can start. */
  predicate StartsLtAt(s: Str) {
    |s| > 1 && s[0] == Lt && s[1] == At
  }

  /**
   * Text in which no match can start, whatever follows it: every `<@` in it
   * is followed, inside the text, by a code unit that is neither `!` nor a
   * digit (as in a role mention `<@&id>`), and it does not end with `<`.
   */
  predicate Inert(t: Str)
    decreases |t|
  {
    |t| == 0 ||
    ((t[0] == Lt ==> |t| > 1 && (t[1] == At ==> |t| > 2 && t[2] != Bang && !IsDigit(t[2])))
     && Inert(t[1..]))
  }

  /** Text without `<` is inert. */
  lemma {:induction false} InertWithoutLt(t: Str)
    requires Lt !in t
    ensures Inert(t)
    decreases |t|
  {
    if |t| > 0 {
      assert t[0] in t;
      assert forall u :: u in t[1..] ==> u in t;
      InertWithoutLt(t[1..]);
    }
  }

  /** Where no `<@` starts, no match starts, so the scan keeps the code unit. */
  lemma StripKeeps(s: Str)
    requires |s| > 0 && !StartsLtAt(s)
    ensures StripMentions(s) == [s[0]] + StripMentions(s[1..])
  {
    NoMatchWithoutLtAt(s);
  }

  lemma NoMatchWithoutLtAt(s: Str)
    requires |s| > 0 && !StartsLtAt(s)
    ensures MentionEnd(s, 0).None?
  {
  }

  /** `<@` followed by neither `!` nor a digit starts no match. */
  lemma NoMatchWithoutId(s: Str)
    requires |s| > 2 && StartsLtAt(s) && s[2] != Bang && !IsDigit(s[2])
    ensures MentionEnd(s, 0).None?
  {
    assert DigitRun(s, 2) == 2;
  }

  /** Where no match starts, the scan keeps the code unit and moves on by one. */
  lemma StripSkips(s: Str)
    requires |s| > 0 && MentionEnd(s, 0).None?
    ensures StripMentions(s) == [s[0]] + StripMentions(s[1..])
  {
  }

  /**
   * Text in which no match can start passes through the stripping untouched,
   * whatever follows it.
   */
  lemma {:induction false} StripPlainPrefix(p: Str, s: Str)
    requires Inert(p)
    ensures StripMentions(p + s) == p + StripMentions(s)
    decreases |p|
  {
    if |p| > 0 {
      var rest := p[1..];
      calc {
        StripMentions(p + s);
        == { InertStep(p, s); }
        [p[0]] + StripMentions(rest + s);
        == { StripPlainPrefix(rest, s); }
        [p[0]] + (rest + StripMentions(s));
        == { assert p == [p[0]] + rest; }
        p + StripMentions(s);
      }
    } else {
      assert p + s == s;
    }
  }

  /** No match starts at the front of inert text, so its first code unit is kept. */
  lemma InertStep(p: Str, s: Str)
    requires |p| > 0 && Inert(p)
    ensures StripMentions(p + s) == [p[0]] + StripMentions(p[1..] + s)
  {
    var ps := p + s;
    assert ps[0] == p[0] && ps[1..] == p[1..] + s;
    if StartsLtAt(ps) {
      assert |p| > 1 && p[1] == ps[1];
      assert 2 < |p| && ps[2] == p[2];
      NoMatchWithoutId(ps);
    } else {
      NoMatchWithoutLtAt(ps);
    }
    StripSkips(ps);
  }


  /**
   * A role mention `<@&id>` starts no match, so it is plain text: the
   * stripping keeps it whole, whatever surrounds it.
   */
  lemma RoleMentionInert(role: Str)
    requires AllDigits(role)
    ensures Inert([Lt, At, Amp] + role + [Gt])
  {
    var t := [Lt, At, Amp] + role + [Gt];
    assert t[1..] == [At, Amp] + role + [Gt];
    assert Lt !in t[1..] by {
      assert forall k :: 0 <= k < |t[1..]| ==> t[1..][k] == At || t[1..][k] == Amp || t[1..][k] == Gt || IsDigit(t[1..][k]);
    }
    InertWithoutLt(t[1..]);
  }

  /** A mention token at the front is dropped whole. */
  lemma StripMentionPrefix(nick: bool, id: Str, s: Str)
    requires |id| > 0 && AllDigits(id)
    ensures StripMentions(MentionToken(nick, id) + s) == StripMentions(s)
  {
    var t := MentionToken(nick, id);
    MentionTokenMatches(nick, id, s);
    assert (t + s)[|t|..] == s;
  }

  /**
   * A piece of message content: text in which no match starts (role
   * mentions `<@&id>`, custom emoji `<:name:id>`, channel mentions `<#id>`,
   * `<3` and the like are all allowed), or a mention.
   */
  datatype Piece = Text(text: Str) | Mention(nick: bool, id: Str)

  predicate WellFormed(ps: seq<Piece>) {
    forall k :: 0 <= k < |ps| ==>
      match ps[k]
      case Text(t) => Inert(t)
      case Mention(_, id) => |id| > 0 && AllDigits(id)
  }

  function Render(ps: seq<Piece>): Str {
    if ps == [] then []
    else
      (match ps[0] case Text(t) => t case Mention(nick, id) => MentionToken(nick, id))
      + Render(ps[1..])
  }

  function PlainText(ps: seq<Piece>): Str {
    if ps == [] then []
    else (match ps[0] case Text(t) => t case Mention(_, _) => []) + PlainText(ps[1..])
  }

  /**
   * Every mention token, the bot's or anyone else's, with or without `!`, is
   * removed from content made of plain text and mentions, and the text
   * between them is kept in order.
   */
  lemma {:induction false} StripRemovesEveryMention(ps: seq<Piece>)
    requires WellFormed(ps)
    ensures StripMentions(Render(ps)) == PlainText(ps)
    decreases |ps|
  {
    if ps != [] {
      assert WellFormed(ps[1..]) by {
        forall k | 0 <= k < |ps[1..]| ensures ps[1..][k] == ps[k + 1] { }
      }
      StripRemovesEveryMention(ps[1..]);
      match ps[0]
      case Text(t) =>
        assert Inert(t) by { assert ps[0] == Text(t); }
        StripPlainPrefix(t, Render(ps[1..]));
      case Mention(nick, id) =>
        StripMentionPrefix(nick, id, Render(ps[1..]));
    }
  }

  lemma UnclosedNoMatch(s: Str)
    requires |s| > 2 && s[0] == Lt && s[1] == At && s[2] == Lt
    ensures MentionEnd(s, 0).None?
  {
    assert DigitRun(s, 2) == 2;
  }

  /** `<@` followed by `<` starts no match: both code units are kept. */
  lemma StripUnclosedPrefix(s: Str)
    requires |s| > 2 && s[0] == Lt && s[1] == At && s[2] == Lt
    ensures StripMentions(s) == [Lt, At] + StripMentions(s[2..])
  {
    UnclosedNoMatch(s);
    StripKeeps(s[1..]);
    assert s[1..][1..] == s[2..];
  }

  /**
   * A single left-to-right pass can leave a mention behind: removing the
   * inner token of `<@<@id>id>` joins its two halves into `<@id>`.
   */
  lemma SinglePassCanLeaveMention(id: Str)
    requires |id| > 0 && AllDigits(id)
    ensures var s := [Lt, At] + MentionToken(false, id) + id + [Gt];
      IsMention(StripMentions(s)) && StripMentions(s) == MentionToken(false, id)
  {
    var inner, tail := MentionToken(false, id), id + [Gt];
    var s := [Lt, At] + inner + id + [Gt];
    NestedShape(id);
    StripUnclosedPrefix(s);
    StripMentionPrefix(false, id, tail);
    DigitsThenGtKept(id);
    MentionTokenIsMention(false, id);
  }

  /** How `<@<@id>id>` is put together. */
  lemma NestedShape(id: Str)
    ensures var inner, tail := MentionToken(false, id), id + [Gt];
      var s := [Lt, At] + inner + id + [Gt];
      && |s| > 2 && s[0] == Lt && s[1] == At && s[2] == Lt
      && s[2..] == inner + tail
      && [Lt, At] + tail == inner
  {
    var inner, tail := MentionToken(false, id), id + [Gt];
    var s := [Lt, At] + inner + id + [Gt];
    assert s[2] == inner[0];
    assert s[2..] == inner + tail;
  }

  /** The digits and `>` left after the inner token are plain text. */
  lemma DigitsThenGtKept(id: Str)
    requires AllDigits(id)
    ensures StripMentions(id + [Gt]) == id + [Gt]
  {
    var tail := id + [Gt];
    assert Lt !in tail by {
      assert forall k :: 0 <= k < |tail| ==> tail[k] == Gt || IsDigit(tail[k]);
    }
    InertWithoutLt(tail);
    StripPlainPrefix(tail, []);
    assert tail + [] == tail;
  }
}
