/**
 * JavaScript strings as the handlers see them. `length`, `slice`, `indexOf`
 * and regular expressions without the `u` flag all count UTF-16 code units,
 * so a string is a sequence of code units here, not of characters.
 */
module JsText {
  import opened Wrappers

  newtype CodeUnit = x: int | 0 <= x < 0x1_0000

  type Str = seq<CodeUnit>

  function Min(a: int, b: int): int {
    if a <= b then a else b
  }

  /**
   * The UTF-16 code units of a string literal of the program. Every literal
   * the handlers send lies in the Basic Multilingual Plane, where UTF-16
   * spends one code unit per character; anything beyond it would become
   * U+FFFD here.
   */
  function Lit(s: string): (r: Str)
    ensures |r| == |s|
  {
    seq(|s|, i requires 0 <= i < |s| => if s[i] as int < 0x1_0000 then s[i] as int as CodeUnit else 0xFFFD)
  }

  /** The code units `String.prototype.trim` removes: WhiteSpace and LineTerminator. */
  predicate IsSpace(u: CodeUnit) {
    || u == 0x09 || u == 0x0A || u == 0x0B || u == 0x0C || u == 0x0D
    || u == 0x20 || u == 0xA0 || u == 0x1680 || 0x2000 <= u <= 0x200A
    || u == 0x2028 || u == 0x2029 || u == 0x202F || u == 0x205F
    || u == 0x3000 || u == 0xFEFF
  }

  predicate AllSpace(s: Str) {
    forall i :: 0 <= i < |s| ==> IsSpace(s[i])
  }

  /** How many code units of whitespace `s` starts with. */
  function LeadingSpaces(s: Str): (n: nat)
    ensures n <= |s|
    ensures AllSpace(s[..n])
    ensures n < |s| ==> !IsSpace(s[n])
  {
    if |s| > 0 && IsSpace(s[0]) then
      var n := 1 + LeadingSpaces(s[1..]);
      assert s[..n] == [s[0]] + s[1..][..n - 1];
      n
    else 0
  }

  /** How many code units of whitespace `s` ends with. */
  function TrailingSpaces(s: Str): (n: nat)
    ensures n <= |s|
    ensures AllSpace(s[|s| - n..])
    ensures n < |s| ==> !IsSpace(s[|s| - 1 - n])
  {
    if |s| > 0 && IsSpace(s[|s| - 1]) then
      var init := s[..|s| - 1];
      var m := TrailingSpaces(init);
      forall k | |s| - 1 - m <= k < |s| - 1 ensures IsSpace(s[k]) {
        assert init[|init| - m..][k - (|s| - 1 - m)] == s[k];
      }
      1 + m
    else 0
  }

  /**
   * `String.prototype.trim`: the infix of `s` left once the whitespace at
   * both ends is gone; it neither starts nor ends with whitespace.
   */
  function Trim(s: Str): (r: Str)
    ensures |r| > 0 ==> !IsSpace(r[0]) && !IsSpace(r[|r| - 1])
    ensures LeadingSpaces(s) + |r| <= |s|
    ensures r == s[LeadingSpaces(s)..LeadingSpaces(s) + |r|]
    ensures AllSpace(s[LeadingSpaces(s) + |r|..])
  {
    var a := LeadingSpaces(s);
    var b := TrailingSpaces(s[a..]);
    TrimInfix(s, a, b);
    s[a..|s| - b]
  }

  /** The infix between `a` leading and `b` trailing code units, given what trimming knows about them. */
  lemma TrimInfix(s: Str, a: nat, b: nat)
    requires a + b <= |s|
    requires a < |s| ==> !IsSpace(s[a])
    requires b < |s| - a ==> !IsSpace(s[a..][|s| - a - 1 - b])
    requires AllSpace(s[a..][|s| - a - b..])
    ensures var r := s[a..|s| - b];
      && (|r| > 0 ==> !IsSpace(r[0]) && !IsSpace(r[|r| - 1]))
      && a + |r| <= |s| && r == s[a..a + |r|] && AllSpace(s[a + |r|..])
  {
    TrimEnds(s, a, b);
    TrimTail(s, a, b);
  }

  /** Neither end of the trimmed infix is whitespace. */
  lemma TrimEnds(s: Str, a: nat, b: nat)
    requires a + b <= |s|
    requires a < |s| ==> !IsSpace(s[a])
    requires b < |s| - a ==> !IsSpace(s[a..][|s| - a - 1 - b])
    ensures var r := s[a..|s| - b]; |r| > 0 ==> !IsSpace(r[0]) && !IsSpace(r[|r| - 1])
  {
    var t, r := s[a..], s[a..|s| - b];
    assert |r| > 0 ==> r[0] == s[a] && r[|r| - 1] == t[|t| - 1 - b];
  }

  /** Only whitespace follows the trimmed infix. */
  lemma TrimTail(s: Str, a: nat, b: nat)
    requires a + b <= |s| && AllSpace(s[a..][|s| - a - b..])
    ensures AllSpace(s[|s| - b..])
  {
    assert s[|s| - b..] == s[a..][|s| - a - b..];
  }

  /** A string made of whitespace up to `a` and whitespace from `a` on is all whitespace. */
  lemma SpaceOnBothSides(s: Str, a: nat)
    requires a <= |s| && AllSpace(s[..a]) && AllSpace(s[a..])
    ensures AllSpace(s)
  {
    forall i | 0 <= i < |s| ensures IsSpace(s[i]) {
      if i < a {
        assert s[..a][i] == s[i];
      } else {
        assert s[a..][i - a] == s[i];
      }
    }
  }

  /** Trimming a trimmed string changes nothing. */
  lemma TrimIdempotent(s: Str)
    ensures Trim(Trim(s)) == Trim(s)
  {
    var r := Trim(s);
    assert LeadingSpaces(r) == 0;
    assert TrailingSpaces(r) == 0;
  }

  /** A string trims to the empty string exactly when it is all whitespace. */
  lemma TrimEmptyIff(s: Str)
    ensures |Trim(s)| == 0 <==> AllSpace(s)
  {
    if |Trim(s)| == 0 {
      TrimEmptyIsSpace(s);
    }
  }

  lemma TrimEmptyIsSpace(s: Str)
    requires |Trim(s)| == 0
    ensures AllSpace(s)
  {
    // the leading whitespace is whitespace, and so is everything after the
    // (empty) trimmed infix
    SpaceOnBothSides(s, LeadingSpaces(s));
  }

  /** Text that neither starts nor ends with whitespace is left as it is. */
  lemma TrimKeepsUnpadded(s: Str)
    requires |s| > 0 && !IsSpace(s[0]) && !IsSpace(s[|s| - 1])
    ensures Trim(s) == s
  {
  }

  /** `p` occurs in `s` starting at index `k`. */
  predicate OccursAt(s: Str, p: Str, k: nat) {
    k + |p| <= |s| && s[k..k + |p|] == p
  }

  /** The first index at or after `i` where `p` occurs in `s`. */
  function IndexFrom(s: Str, p: Str, i: nat): (r: Option<nat>)
    requires i <= |s|
    ensures r.Some? ==> i <= r.value && OccursAt(s, p, r.value)
    ensures r.Some? ==> forall k :: i <= k < r.value ==> !OccursAt(s, p, k)
    ensures r.None? ==> forall k :: i <= k <= |s| ==> !OccursAt(s, p, k)
    decreases |s| - i
  {
    if OccursAt(s, p, i) then Some(i)
    else if i == |s| then None
    else IndexFrom(s, p, i + 1)
  }

  /** `s.indexOf(p)`, with "not found" as `None` rather than -1. */
  function IndexOf(s: Str, p: Str): Option<nat> {
    IndexFrom(s, p, 0)
  }

  /** `s.replace(p, '')` with a string pattern: only the first occurrence goes. */
  function RemoveFirst(s: Str, p: Str): (r: Str)
    ensures IndexOf(s, p).None? ==> r == s
    ensures IndexOf(s, p).Some? ==> |r| == |s| - |p|
  {
    match IndexOf(s, p)
    case None => s
    case Some(k) => s[..k] + s[k + |p|..]
  }

  /**
   * When no occurrence of `p` starts inside `a`, removing the first
   * occurrence from `a + p + b` leaves `a + b`, whatever `b` holds
   * (further occurrences in `b` stay).
   */
  lemma RemoveFirstAfter(a: Str, p: Str, b: Str)
    requires forall k :: 0 <= k < |a| ==> !OccursAt(a + p + b, p, k)
    ensures RemoveFirst(a + p + b, p) == a + b
  {
    var s := a + p + b;
    assert OccursAt(s, p, |a|) by { assert s[|a|..|a| + |p|] == p; }
    var r := IndexOf(s, p);
    assert r == Some(|a|);
    assert s[..|a|] == a;
    assert s[|a| + |p|..] == b;
  }

  /** `s.slice(0, n)` for `n >= 0`: the first `min(|s|, n)` code units. */
  function SliceTo(s: Str, n: nat): (r: Str)
    ensures |r| == Min(|s|, n)
    ensures r == s[..|r|]
  {
    if |s| <= n then s else s[..n]
  }
}
