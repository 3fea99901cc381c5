/**
 * Stripping the API token from echoed text
 * (backend/app/brokers/oanda_adapter.py:36-44).
 */
module Redaction {
  import opened Prelude

  const MARKER := "[REDACTED_TOKEN]"
  const LIMIT := 500

  predicate OccursAt(s: string, t: string, i: int) {
    0 <= i && i + |t| <= |s| && s[i..i + |t|] == t
  }

  ghost predicate Contains(s: string, t: string) {
    exists i :: OccursAt(s, t, i)
  }

  /** str.replace with an empty pattern puts m before every character and at the end. */
  function Interleave(s: string, m: string): string {
    if s == [] then m else m + [s[0]] + Interleave(s[1..], m)
  }

  /** str.replace: left to right, without overlaps. */
  function ReplaceAll(s: string, t: string, m: string): string
    decreases |s|
  {
    if t == [] then Interleave(s, m)
    else if |s| < |t| then s
    else if s[..|t|] == t then m + ReplaceAll(s[|t|..], t, m)
    else [s[0]] + ReplaceAll(s[1..], t, m)
  }

  function Cap(s: string): string {
    if |s| <= LIMIT then s else s[..LIMIT]
  }

  function Sanitize(text: Option<string>, token: string): string {
    if text.None? || text.value == [] then ""
    else
      var once := ReplaceAll(text.value, token, MARKER);
      Cap(if |token| >= 8 then ReplaceAll(once, token[..8], MARKER) else once)
  }

  // ---- how a replacement can put the pattern together again ------------------

  /** The marker itself contains t. */
  ghost predicate InsideMarker(t: string, m: string) {
    Contains(m, t)
  }

  /** The marker ends with the first k characters of t, so the text after it may complete t. */
  predicate CompletedAfter(t: string, m: string, k: int) {
    0 < k < |t| && k <= |m| && t[..k] == m[|m| - k..]
  }

  /**
   * The marker begins with all of t but its first j characters, and these may
   * stand before an occurrence of t without forming an earlier one.
   */
  predicate CompletedBefore(t: string, m: string, j: int) {
    && 0 < j < |t| && t[j..] <= m
    && forall i :: 0 <= i < j ==> !OccursAt(t[..j] + t, t, i)
  }

  ghost predicate Leaky(t: string, m: string) {
    || InsideMarker(t, m)
    || (exists k :: CompletedAfter(t, m, k))
    || (exists j :: CompletedBefore(t, m, j))
  }

  // ---- left-to-right replacement ---------------------------------------------

  lemma SliceOfSlice(s: string, a: int, i: int, n: int)
    requires 0 <= a <= |s| && 0 <= i && 0 <= n && a + i + n <= |s|
    ensures s[a..][i..i + n] == s[a + i..a + i + n]
  {
  }

  /** Dropping the first character shifts occurrences by one. */
  lemma Shift(s: string, t: string, i: int)
    requires s != [] && i >= 0
    ensures OccursAt(s[1..], t, i) <==> OccursAt(s, t, i + 1)
  {
    if i + 1 + |t| <= |s| {
      SliceOfSlice(s, 1, i, |t|);
    }
  }

  lemma ReplaceStep(s: string, t: string, m: string)
    requires t != [] && s != [] && !OccursAt(s, t, 0)
    ensures ReplaceAll(s, t, m) == [s[0]] + ReplaceAll(s[1..], t, m)
  {
    assert |s| >= |t| ==> s[0..0 + |t|] == s[..|t|];
  }

  lemma ReplaceAtStart(s: string, t: string, m: string)
    requires t != [] && OccursAt(s, t, 0)
    ensures ReplaceAll(s, t, m) == s[..0] + m + ReplaceAll(s[0 + |t|..], t, m)
  {
    assert s[..|t|] == s[0..0 + |t|];
    assert s[..0] + m == m;
  }

  /** The first occurrence of t in s is at g. */
  ghost predicate FirstAt(s: string, t: string, g: int) {
    OccursAt(s, t, g) && forall i :: 0 <= i < g ==> !OccursAt(s, t, i)
  }

  lemma FirstInTail(s: string, t: string, g: int)
    requires FirstAt(s, t, g) && g > 0
    ensures FirstAt(s[1..], t, g - 1)
    ensures s[1..][g - 1 + |t|..] == s[g + |t|..]
  {
    Shift(s, t, g - 1);
    forall i | 0 <= i < g - 1 ensures !OccursAt(s[1..], t, i) {
      Shift(s, t, i);
    }
  }

  lemma Reassemble(s: string, g: int, m: string, r: string)
    requires 0 < g <= |s|
    ensures [s[0]] + (s[1..][..g - 1] + m + r) == s[..g] + m + r
  {
    assert s[..g] == [s[0]] + s[1..][..g - 1];
  }

  /** In the replacement the text is kept up to g, and there the marker takes the place of t. */
  ghost predicate MarkedAt(s: string, t: string, m: string, g: int) {
    0 <= g && g + |t| <= |s| && ReplaceAll(s, t, m) == s[..g] + m + ReplaceAll(s[g + |t|..], t, m)
  }

  lemma ReplaceLater(s: string, t: string, m: string, g: int)
    requires t != [] && FirstAt(s, t, g) && g > 0 && MarkedAt(s[1..], t, m, g - 1)
    ensures MarkedAt(s, t, m, g)
  {
    var r := ReplaceAll(s[g + |t|..], t, m);
    ReplaceStep(s, t, m);
    assert s[1..][g - 1 + |t|..] == s[g + |t|..];
    Reassemble(s, g, m, r);
  }

  /** Up to its first occurrence the text is kept; there the marker takes its place. */
  lemma {:induction false} ReplaceFirst(s: string, t: string, m: string, g: int)
    requires t != [] && FirstAt(s, t, g)
    ensures MarkedAt(s, t, m, g)
    decreases |s|
  {
    if g > 0 {
      FirstInTail(s, t, g);
      ReplaceFirst(s[1..], t, m, g - 1);
      ReplaceLater(s, t, m, g);
    } else {
      ReplaceAtStart(s, t, m);
    }
  }

  lemma {:induction false} ReplaceNothing(s: string, t: string, m: string)
    requires t != [] && forall i :: 0 <= i <= |s| ==> !OccursAt(s, t, i)
    ensures ReplaceAll(s, t, m) == s
    decreases |s|
  {
    if |s| >= |t| {
      var tail := s[1..];
      assert !OccursAt(s, t, 0);
      forall i | 0 <= i <= |tail| ensures !OccursAt(tail, t, i) {
        Shift(s, t, i);
      }
      ReplaceNothing(tail, t, m);
    }
  }

  lemma {:induction false} FirstOccurrence(s: string, t: string, i: int) returns (g: int)
    requires OccursAt(s, t, i)
    ensures FirstAt(s, t, g)
    decreases i
  {
    if j :| 0 <= j < i && OccursAt(s, t, j) {
      g := FirstOccurrence(s, t, j);
    } else {
      g := i;
    }
  }

  /** If t starts the output and the first marker comes g characters in, it is completed by the marker. */
  lemma LeansOnMarker(s: string, t: string, m: string, g: int, rest: string)
    requires 0 < g && |t| <= |m| && !(t <= s)
    requires FirstAt(s, t, g)
    requires t <= s[..g] + m + rest
    ensures CompletedBefore(t, m, g)
  {
    var out := s[..g] + m + rest;
    if g >= |t| {
      PrefixOfPrefix(s, t, g, m, rest);
    } else {
      assert t[..g] == out[..|t|][..g] == s[..g];
      assert t[g..] == out[..|t|][g..] == m[..|t| - g];
      forall i | 0 <= i < g ensures !OccursAt(t[..g] + t, t, i) {
        StartsEarlier(s, t, g, i);
      }
    }
  }

  lemma PrefixOfPrefix(s: string, t: string, g: int, m: string, rest: string)
    requires 0 <= |t| <= g <= |s|
    ensures t <= s[..g] + m + rest ==> t <= s
  {
    assert (s[..g] + m + rest)[..|t|] == s[..|t|];
  }

  lemma StartsEarlier(s: string, t: string, g: int, i: int)
    requires 0 <= i < g < |t| && OccursAt(s, t, g) && t[..g] == s[..g] && !OccursAt(s, t, i)
    ensures !OccursAt(t[..g] + t, t, i)
  {
    assert t[..g] + t == s[..g] + s[g..g + |t|] == s[..g + |t|];
    assert s[..g + |t|][i..i + |t|] == s[i..i + |t|];
  }

  /** An occurrence at the start of the output that the input did not have leans on the first marker. */
  lemma NewAtStart(s: string, t: string, m: string)
    requires t != [] && |t| <= |m| && !(t <= s)
    requires t <= ReplaceAll(s, t, m)
    ensures exists j :: CompletedBefore(t, m, j)
  {
    if i :| 0 <= i <= |s| && OccursAt(s, t, i) {
      var g := FirstOccurrence(s, t, i);
      ReplaceFirst(s, t, m, g);
      LeansOnMarker(s, t, m, g, ReplaceAll(s[g + |t|..], t, m));
    } else {
      ReplaceNothing(s, t, m);
    }
  }

  /** An occurrence that starts inside a marker lies in it or is completed after it. */
  lemma StartsInMarker(t: string, m: string, rest: string, i: int)
    requires OccursAt(m + rest, t, i) && i < |m| && t != []
    ensures InsideMarker(t, m) || exists k :: CompletedAfter(t, m, k)
  {
    if i + |t| <= |m| {
      assert (m + rest)[i..i + |t|] == m[i..i + |t|];
      assert OccursAt(m, t, i);
    } else {
      var k := |m| - i;
      assert t[..k] == (m + rest)[i..i + |t|][..k] == m[i..];
      assert CompletedAfter(t, m, k);
    }
  }

  lemma OccursLater(a: string, rest: string, t: string, i: int)
    requires OccursAt(a + rest, t, i) && i >= |a|
    ensures OccursAt(rest, t, i - |a|)
  {
    assert (a + rest)[i..i + |t|] == rest[i - |a|..i - |a| + |t|];
  }

  /** Replacing a pattern that is not leaky leaves no occurrence of it anywhere. */
  lemma {:induction false} NoneLeft(s: string, t: string, m: string, i: int)
    requires t != [] && |t| <= |m| && !Leaky(t, m)
    ensures !OccursAt(ReplaceAll(s, t, m), t, i)
    decreases |s|
  {
    var out := ReplaceAll(s, t, m);
    if OccursAt(out, t, i) && |s| >= |t| {
      if s[..|t|] == t {
        var rest := ReplaceAll(s[|t|..], t, m);
        if i < |m| {
          StartsInMarker(t, m, rest, i);
        } else {
          OccursLater(m, rest, t, i);
          NoneLeft(s[|t|..], t, m, i - |m|);
        }
      } else {
        var rest := ReplaceAll(s[1..], t, m);
        if i == 0 {
          assert t == out[..|t|];
          NewAtStart(s, t, m);
        } else {
          OccursLater([s[0]], rest, t, i);
          NoneLeft(s[1..], t, m, i - 1);
        }
      }
    }
  }

  /** For every leaky pattern some text comes out of the replacement with the pattern in it. */
  lemma LeakyLeaks(t: string, m: string) returns (s: string)
    requires t != [] && |t| <= |m| && Leaky(t, m)
    ensures 0 < |s| < 2 * |t|
    ensures Contains(ReplaceAll(s, t, m), t) && |ReplaceAll(s, t, m)| <= |m| + |t|
  {
    if InsideMarker(t, m) {
      s := t;
      assert s[|t|..] == [] && ReplaceAll(s, t, m) == m + [] == m;
    } else if k :| CompletedAfter(t, m, k) {
      s := t + t[k..];
      assert s[..|t|] == t && s[|t|..] == t[k..];
      assert ReplaceAll(s, t, m) == m + t[k..];
      assert (m + t[k..])[|m| - k..|m| - k + |t|] == t;
      assert OccursAt(ReplaceAll(s, t, m), t, |m| - k);
    } else {
      var j :| CompletedBefore(t, m, j);
      s := t[..j] + t;
      assert s[j..j + |t|] == t && s[j + |t|..] == [];
      ReplaceFirst(s, t, m, j);
      assert ReplaceAll(s, t, m) == t[..j] + m;
      assert (t[..j] + m)[0..|t|] == t;
      assert OccursAt(ReplaceAll(s, t, m), t, 0);
    }
  }

  /** With an empty pattern the marker comes before every character and at the end. */
  lemma {:induction false} EmptyPattern(a: string, c: char, b: string, m: string)
    ensures ReplaceAll([], [], m) == m
    ensures ReplaceAll(a + [c] + b, [], m) == ReplaceAll(a, [], m) + [c] + ReplaceAll(b, [], m)
  {
    var s := a + [c] + b;
    if a == [] {
      assert s[1..] == b;
    } else {
      EmptyPattern(a[1..], c, b, m);
      assert s[1..] == a[1..] + [c] + b;
    }
  }

  // ---- the sanitizer ---------------------------------------------------------

  lemma CapKeeps(s: string, t: string, i: int)
    requires OccursAt(Cap(s), t, i)
    ensures OccursAt(s, t, i)
  {
    assert Cap(s)[i..i + |t|] == s[i..i + |t|];
  }

  lemma StartOfOccurrence(s: string, t: string, i: int, n: nat)
    requires OccursAt(s, t, i) && n <= |t|
    ensures OccursAt(s, t[..n], i)
  {
    assert s[i..i + n] == s[i..i + |t|][..n];
  }

  /** What the last replacement looks for: the whole token, or its first 8 characters. */
  function Pattern(token: string): string {
    if |token| >= 8 then token[..8] else token
  }

  ghost predicate Redacted(out: string, token: string) {
    !Contains(out, token) && !Contains(out, Pattern(token)) && |out| <= 500
  }

  /** If the pattern is not leaky, no text lets the token or its first 8 characters through. */
  lemma SafeTokenNeverEchoed(text: Option<string>, token: string)
    requires token != [] && !Leaky(Pattern(token), MARKER)
    ensures Redacted(Sanitize(text, token), token)
  {
    var out, p := Sanitize(text, token), Pattern(token);
    forall i ensures !OccursAt(out, p, i) {
      if OccursAt(out, p, i) && text.Some? && text.value != [] {
        var once := ReplaceAll(text.value, token, MARKER);
        CapKeeps(if |token| >= 8 then ReplaceAll(once, p, MARKER) else once, p, i);
        NoneLeft(if |token| >= 8 then once else text.value, p, MARKER, i);
      }
    }
    forall i ensures !OccursAt(out, token, i) {
      if OccursAt(out, token, i) {
        StartOfOccurrence(out, token, i, |p|);
      }
    }
  }

  /** A text without the token, and without its first 8 characters, is only cut to 500. */
  lemma OtherTextPasses(text: string, token: string)
    requires token != [] && !Contains(text, if |token| >= 8 then token[..8] else token)
    ensures Sanitize(Some(text), token) == if |text| <= 500 then text else text[..500]
    ensures Sanitize(None, token) == ""
  {
    forall i ensures !OccursAt(text, token, i) {
      if OccursAt(text, token, i) {
        StartOfOccurrence(text, token, i, if |token| >= 8 then 8 else |token|);
      }
    }
    ReplaceNothing(text, token, MARKER);
    if |token| >= 8 {
      ReplaceNothing(text, token[..8], MARKER);
    }
  }

  /** Where the token comes once, the marker takes its place, and the text around it stays. */
  lemma TokenReplaced(before: string, token: string, after: string)
    requires token != [] && FirstAt(before + token + after, token, |before|) && !Contains(after, token)
    requires |token| >= 8 ==> !Contains(before + "[REDACTED_TOKEN]" + after, token[..8])
    requires |before| + 16 + |after| <= 500
    ensures Sanitize(Some(before + token + after), token) == before + "[REDACTED_TOKEN]" + after
  {
    var text := before + token + after;
    ReplaceFirst(text, token, MARKER, |before|);
    assert text[..|before|] == before && text[|before| + |token|..] == after;
    ReplaceNothing(after, token, MARKER);
    if |token| >= 8 {
      ReplaceNothing(before + "[REDACTED_TOKEN]" + after, token[..8], MARKER);
    }
  }

  ghost predicate Disjoint(t: string, m: string) {
    forall c :: c in t ==> c !in m
  }

  lemma SharedCharacter(t: string, m: string, i: int, j: int)
    requires 0 <= i < |t| && 0 <= j < |m| && t[i] == m[j]
    ensures !Disjoint(t, m)
  {
    assert t[i] in t && t[i] in m;
  }

  lemma LeakyShares(t: string, m: string)
    requires t != [] && Leaky(t, m)
    ensures !Disjoint(t, m)
  {
    if i :| OccursAt(m, t, i) {
      assert m[i] == m[i..i + |t|][0];
      SharedCharacter(t, m, 0, i);
    } else if k :| CompletedAfter(t, m, k) {
      assert t[0] == t[..k][0] == m[|m| - k..][0];
      SharedCharacter(t, m, 0, |m| - k);
    } else {
      var j :| CompletedBefore(t, m, j);
      assert t[j] == t[j..][0] == m[0];
      SharedCharacter(t, m, j, 0);
    }
  }

  /** Tokens that share no character with the marker are never echoed, whole or by their first 8. */
  lemma DisjointTokenNeverEchoed(text: Option<string>, token: string)
    requires token != [] && Disjoint(token, MARKER)
    ensures Redacted(Sanitize(text, token), token)
  {
    if Leaky(Pattern(token), MARKER) {
      LeakyShares(Pattern(token), MARKER);
    }
    SafeTokenNeverEchoed(text, token);
  }

  /** A token the marker itself begins with shows that the promise fails without a condition. */
  lemma LeakyTokenExists()
    ensures Sanitize(Some("[RED]"), "[RED") == "[REDACTED_TOKEN]]"
    ensures OccursAt(Sanitize(Some("[RED]"), "[RED"), "[RED", 0)
  {
    var text, token := "[RED]", "[RED";
    assert text[..4] == token && text[4..] == "]";
    assert ReplaceAll(text[4..], token, MARKER) == "]";
    assert ReplaceAll(text, token, MARKER) == MARKER + "]";
  }
}
