/**
 * Exactly which tokens the sanitizer can be made to echo
 * (backend/app/brokers/oanda_adapter.py:36-44). Tokens of 8 characters and
 * more go through two replacements, the second of which may undo the first,
 * or put the first 8 characters together again from its own marker.
 */
module RedactionLaw {
  import opened Prelude
  import opened Redaction

  /** Both replacements, before the text is cut to size. */
  function Twice(s: string, token: string): string
    requires |token| >= 8
  {
    ReplaceAll(ReplaceAll(s, token, MARKER), token[..8], MARKER)
  }

  /**
   * What the caller of _sanitize would have to rule out. A marker that ends
   * with the first k characters puts the pattern together again when the other
   * characters follow it, and they can follow it twice unless that text
   * contains the whole token.
   */
  ghost predicate Echoable(token: string) {
    if |token| < 8 then Leaky(token, MARKER)
    else
      var p := token[..8];
      || InsideMarker(p, MARKER)
      || (exists j :: CompletedBefore(p, MARKER, j))
      || (exists k :: CompletedAfter(p, MARKER, k) && !Contains(p[k..] + p[k..], token))
  }

  lemma MarkerFacts()
    ensures |MARKER| == 16 && MARKER[0] == '[' && MARKER[15] == ']'
    ensures forall i :: 0 <= i < 15 ==> MARKER[i] != ']'
    ensures forall i :: 0 < i < 16 ==> MARKER[i] != '['
    ensures forall i, j :: 9 <= i < j < 16 ==> MARKER[i] != MARKER[j]
  {
  }

  lemma MarkerBracket(i: int)
    requires 0 <= i < |MARKER| && MARKER[i] == ']'
    ensures i == 15
  {
    MarkerFacts();
  }

  lemma CharAt(s: string, t: string, i: int, a: int)
    requires OccursAt(s, t, i) && 0 <= a < |t|
    ensures t[a] == s[i + a]
  {
    assert s[i..i + |t|][a] == s[i + a];
  }

  /** Where the marker's last k characters start the pattern, they start with its first. */
  lemma AfterStarts(t: string, k: int)
    requires CompletedAfter(t, MARKER, k)
    ensures t[0] == MARKER[16 - k] && t[k - 1] == ']'
  {
    MarkerFacts();
    assert t[0] == t[..k][0];
    assert t[k - 1] == t[..k][k - 1] == MARKER[16 - k..][k - 1];
  }

  /** How much of the pattern the marker ends with is settled by the pattern's first character. */
  lemma AfterUnique(t: string, k: int, l: int)
    requires |t| == 8 && CompletedAfter(t, MARKER, k) && CompletedAfter(t, MARKER, l)
    ensures k == l
  {
    MarkerFacts();
    AfterStarts(t, k);
    AfterStarts(t, l);
  }

  lemma Within(a: string, s: string, b: string, t: string, i: int)
    requires OccursAt(s, t, i)
    ensures OccursAt(a + s + b, t, |a| + i)
  {
    assert (a + s + b)[|a| + i..|a| + i + |t|] == s[i..i + |t|];
  }

  lemma ShortText(s: string, t: string, m: string)
    requires t != [] && |s| < |t|
    ensures ReplaceAll(s, t, m) == s
  {
  }

  lemma ReplaceStart(t: string, rest: string, m: string)
    requires t != []
    ensures ReplaceAll(t + rest, t, m) == m + ReplaceAll(rest, t, m)
  {
    assert (t + rest)[..|t|] == t && (t + rest)[|t|..] == rest;
  }

  lemma Untouched(s: string, t: string, m: string)
    requires t != [] && !Contains(s, t)
    ensures ReplaceAll(s, t, m) == s
  {
    ReplaceNothing(s, t, m);
  }

  // ---- texts that come out with the pattern in them --------------------------

  /** The token itself: its marker holds the pattern, and replacing that brings another marker. */
  lemma InsideEchoes(token: string)
    requires |token| >= 8 && InsideMarker(token[..8], MARKER)
    ensures Contains(Twice(token, token), token[..8])
    ensures |Twice(token, token)| <= LIMIT
  {
    var p := token[..8];
    assert token + [] == token;
    ReplaceStart(token, [], MARKER);
    assert ReplaceAll(token, token, MARKER) == MARKER;
    var i :| OccursAt(MARKER, p, i);
    var g := FirstOccurrence(MARKER, p, i);
    ReplaceFirst(MARKER, p, MARKER, g);
    var tail := MARKER[g + 8..];
    ShortReplacement(tail, p);
    Within(MARKER[..g], MARKER, ReplaceAll(tail, p, MARKER), p, i);
  }

  lemma ShortReplacement(s: string, p: string)
    requires |p| == 8 && |s| <= 16
    ensures |ReplaceAll(s, p, MARKER)| <= 32
  {
    ReplacementSize(s, p);
  }

  lemma {:induction false} ReplacementSize(s: string, p: string)
    requires |p| == 8
    ensures |ReplaceAll(s, p, MARKER)| <= 2 * |s|
    decreases |s|
  {
    if |s| >= 8 {
      if s[..8] == p {
        ReplacementSize(s[8..], p);
      } else {
        ReplacementSize(s[1..], p);
      }
    }
  }

  /** What is before the first occurrence stays, what is after it is replaced in turn. */
  lemma ReplaceMiddle(pre: string, t: string, post: string, m: string)
    requires t != [] && FirstAt(pre + t + post, t, |pre|)
    ensures ReplaceAll(pre + t + post, t, m) == pre + m + ReplaceAll(post, t, m)
  {
    var s := pre + t + post;
    assert s[..|pre|] == pre && s[|pre| + |t|..] == post;
    ReplaceFirst(s, t, m, |pre|);
  }

  lemma InsideAt(rest: string, p: string, i: int)
    requires OccursAt(MARKER + rest, p, i) && i + |p| <= |MARKER|
    ensures InsideMarker(p, MARKER)
  {
    assert MARKER[i..i + |p|] == (MARKER + rest)[i..i + |p|];
    assert OccursAt(MARKER, p, i);
  }

  lemma AcrossAt(rest: string, p: string, i: int)
    requires OccursAt(MARKER + rest, p, i) && i < 16 < i + |p|
    ensures CompletedAfter(p, MARKER, 16 - i) && p[16 - i..] <= rest
  {
    var s := MARKER + rest;
    assert p == s[i..i + |p|];
    assert p[..16 - i] == MARKER[i..];
    assert p[16 - i..] == rest[..i + |p| - 16];
  }

  lemma MarkerThen(t: string, k: int, rest: string)
    requires |t| == 8 && CompletedAfter(t, MARKER, k)
    ensures MARKER[..16 - k] + t + rest == MARKER + (t[k..] + rest)
  {
    assert MARKER == MARKER[..16 - k] + t[..k];
    assert t == t[..k] + t[k..];
  }

  /** The pattern first occurs in a marker and what follows where the marker ends with it. */
  lemma FirstAcross(t: string, k: int, rest: string)
    requires |t| == 8 && !InsideMarker(t, MARKER) && CompletedAfter(t, MARKER, k)
    ensures FirstAt(MARKER[..16 - k] + t + rest, t, 16 - k)
  {
    var s := MARKER[..16 - k] + t + rest;
    assert s[16 - k..24 - k] == t;
    MarkerThen(t, k, rest);
    forall i | 0 <= i < 16 - k ensures !OccursAt(s, t, i) {
      if OccursAt(s, t, i) {
        if i + 8 <= 16 {
          InsideAt(t[k..] + rest, t, i);
        } else {
          AcrossAt(t[k..] + rest, t, i);
          AfterUnique(t, k, 16 - i);
        }
      }
    }
  }

  /** The token and twice what completes the pattern: one goes with the first marker, the other with the second. */
  lemma AfterEchoes(token: string, k: int) returns (text: string)
    requires |token| >= 8 && !InsideMarker(token[..8], MARKER) && CompletedAfter(token[..8], MARKER, k)
    requires !Contains(token[..8][k..] + token[..8][k..], token)
    ensures text != [] && Contains(Twice(text, token), token[..8])
    ensures |Twice(text, token)| <= LIMIT
  {
    var p := token[..8];
    var q := p[k..];
    text := token + (q + q);
    ReplaceStart(token, q + q, MARKER);
    Untouched(q + q, token, MARKER);
    MarkerThen(p, k, q);
    EchoAfter(p, k);
  }

  lemma EchoAfter(p: string, k: int)
    requires |p| == 8 && !InsideMarker(p, MARKER) && CompletedAfter(p, MARKER, k)
    ensures OccursAt(ReplaceAll(MARKER[..16 - k] + p + p[k..], p, MARKER), p, 32 - 2 * k)
    ensures |ReplaceAll(MARKER[..16 - k] + p + p[k..], p, MARKER)| <= LIMIT
  {
    var pre, q := MARKER[..16 - k], p[k..];
    FirstAcross(p, k, q);
    ReplaceMiddle(pre, p, q, MARKER);
    ShortText(q, p, MARKER);
    MarkerEndsPattern(p, k);
    PutAt(pre + pre, p);
  }

  lemma MarkerEndsPattern(p: string, k: int)
    requires |p| == 8 && CompletedAfter(p, MARKER, k)
    ensures MARKER[..16 - k] + MARKER + p[k..] == MARKER[..16 - k] + MARKER[..16 - k] + p
  {
    MarkerThen(p, k, []);
    assert p[k..] + [] == p[k..];
    assert MARKER[..16 - k] + p + [] == MARKER[..16 - k] + p;
  }

  lemma PutAt(a: string, t: string)
    ensures OccursAt(a + t, t, |a|)
  {
    assert (a + t)[|a|..|a| + |t|] == t;
  }

  /** In the missing start and the pattern, the pattern comes first where it was put. */
  lemma FirstBefore(t: string, j: int, rest: string)
    requires |t| == 8 && CompletedBefore(t, MARKER, j)
    ensures FirstAt(t[..j] + t + rest, t, j)
  {
    var s := t[..j] + t;
    assert (s + rest)[j..j + 8] == t;
    forall i | 0 <= i < j ensures !OccursAt(s + rest, t, i) {
      assert !OccursAt(s, t, i);
      assert (s + rest)[i..i + 8] == s[i..i + 8];
    }
  }

  /** Putting the missing start there once more makes no earlier occurrence. */
  lemma FirstAfterTwo(t: string, j: int)
    requires |t| == 8 && CompletedBefore(t, MARKER, j)
    ensures FirstAt(t[..j] + t[..j] + t, t, 2 * j)
  {
    var x := t[..j];
    var s := x + x + t;
    assert s[2 * j..2 * j + 8] == t;
    forall i | 0 <= i < 2 * j ensures !OccursAt(s, t, i) {
      if i >= j {
        assert !OccursAt(x + t, t, i - j);
        assert (x + t)[i - j..i - j + 8] == s[i..i + 8];
      } else {
        NotEarlier(t, j, i);
      }
    }
  }

  /** Of the pattern, what the marker begins with has its only opening bracket in front. */
  lemma BeforeBrackets(t: string, j: int, a: int)
    requires |t| == 8 && CompletedBefore(t, MARKER, j) && j < a < 8
    ensures t[j] == '[' && t[a] != '['
  {
    MarkerFacts();
    assert t[j] == t[j..][0] == MARKER[0];
    assert t[a] == t[j..][a - j] == MARKER[a - j];
  }

  lemma NotEarlier(t: string, j: int, i: int)
    requires |t| == 8 && CompletedBefore(t, MARKER, j) && 0 <= i < j
    ensures !OccursAt(t[..j] + t[..j] + t, t, i)
  {
    if i + 8 <= 2 * j {
      WithinTwo(t, j, i);
    } else {
      PastTwo(t, j, i);
    }
  }

  lemma WithinTwo(t: string, j: int, i: int)
    requires |t| == 8 && CompletedBefore(t, MARKER, j) && 0 <= i < j && i + 8 <= 2 * j
    ensures !OccursAt(t[..j] + t[..j] + t, t, i)
  {
    var x := t[..j];
    assert !OccursAt(x + t, t, i);
    assert t == x + t[j..];
    assert (x + t)[i..i + 8] == (x + x + t)[i..i + 8];
  }

  lemma PastTwo(t: string, j: int, i: int)
    requires |t| == 8 && CompletedBefore(t, MARKER, j) && 0 <= i < j && i + 8 > 2 * j
    ensures !OccursAt(t[..j] + t[..j] + t, t, i)
  {
    var s := t[..j] + t[..j] + t;
    BeforeBrackets(t, j, 2 * j - i);
    if OccursAt(s, t, i) {
      CharAt(s, t, i, 2 * j - i);
      CharAt(s, t, i, 0);
      CharAt(s, t, i, j);
    }
  }

  lemma TwoAndPattern(p: string, j: int)
    requires |p| == 8 && CompletedBefore(p, MARKER, j)
    ensures ReplaceAll(p[..j] + p[..j] + p, p, MARKER) == p[..j] + p + MARKER[8 - j..]
  {
    var x := p[..j];
    FirstAfterTwo(p, j);
    assert x + x + p + [] == x + x + p;
    ReplaceMiddle(x + x, p, [], MARKER);
    ShortText([], p, MARKER);
    PatternThenMarker(p, j);
  }

  lemma PatternThenMarker(p: string, j: int)
    requires |p| == 8 && CompletedBefore(p, MARKER, j)
    ensures p[..j] + p[..j] + MARKER + [] == p[..j] + p + MARKER[8 - j..]
  {
    assert p == p[..j] + MARKER[..8 - j];
    assert MARKER == MARKER[..8 - j] + MARKER[8 - j..];
  }

  /** A longer token would have to start where the pattern does, and run out of text. */
  lemma NoRoomForToken(token: string, j: int)
    requires |token| > 8 && CompletedBefore(token[..8], MARKER, j)
    ensures !Contains(token[..8][..j] + token[..8], token)
  {
    var text := token[..8][..j] + token[..8];
    forall i ensures !OccursAt(text, token, i) {
      if OccursAt(text, token, i) {
        StartOfOccurrence(text, token, i, 8);
      }
    }
  }

  /** A text whose first replacement is the missing start and the pattern. */
  lemma BeforeEchoes(token: string, j: int) returns (text: string)
    requires |token| >= 8 && CompletedBefore(token[..8], MARKER, j)
    ensures text != [] && Contains(Twice(text, token), token[..8])
    ensures |Twice(text, token)| <= LIMIT
  {
    var p := token[..8];
    var x := p[..j];
    var rest;
    if |token| == 8 {
      assert p == token;
      text, rest := x + x + p, MARKER[8 - j..];
      TwoAndPattern(p, j);
    } else {
      text, rest := x + p, [];
      NoRoomForToken(token, j);
      Untouched(text, token, MARKER);
      assert text == x + p + rest;
    }
    EchoBefore(p, j, rest);
  }

  lemma EchoBefore(p: string, j: int, rest: string)
    requires |p| == 8 && CompletedBefore(p, MARKER, j) && |rest| <= 16
    ensures OccursAt(ReplaceAll(p[..j] + p + rest, p, MARKER), p, 0)
    ensures |ReplaceAll(p[..j] + p + rest, p, MARKER)| <= LIMIT
  {
    FirstBefore(p, j, rest);
    ReplaceMiddle(p[..j], p, rest, MARKER);
    ShortReplacement(rest, p);
    assert p == p[..j] + MARKER[..8 - j];
    assert (p[..j] + MARKER + ReplaceAll(rest, p, MARKER))[0..8] == p;
  }

  // ---- tokens that occur in what would complete them -------------------------

  /** A word that ends with a bracket and contains the token cannot start the first replacement's output. */
  lemma StartsLiteral(s: string, token: string, v: string)
    requires token != [] && 0 < |v| <= 15 && v[|v| - 1] == ']' && Contains(v, token)
    ensures !(v <= ReplaceAll(s, token, MARKER))
  {
    if v <= ReplaceAll(s, token, MARKER) {
      if i :| OccursAt(s, token, i) {
        var g := FirstOccurrence(s, token, i);
        ReplaceFirst(s, token, MARKER, g);
        var rest := ReplaceAll(s[g + |token|..], token, MARKER);
        if g < |v| {
          BracketInMarker(s[..g], rest, v);
        } else {
          assert v == (s[..g] + MARKER + rest)[..|v|] == s[..|v|];
          var o := InStart(s, v, token);
        }
      } else {
        Untouched(s, token, MARKER);
        var o := InStart(s, v, token);
      }
    }
  }

  lemma InStart(s: string, v: string, t: string) returns (o: int)
    requires v <= s && Contains(v, t)
    ensures OccursAt(s, t, o) && o + |t| <= |v|
  {
    o :| OccursAt(v, t, o);
    assert s[o..o + |t|] == v[o..o + |t|];
  }

  /** A short word that runs into a marker does not end with a bracket. */
  lemma BracketInMarker(a: string, rest: string, v: string)
    requires |a| < |v| <= 15 && v <= a + MARKER + rest
    ensures v[|v| - 1] != ']'
  {
    MarkerFacts();
    assert v[|v| - 1] == (a + MARKER + rest)[|v| - 1] == MARKER[|v| - 1 - |a|];
  }

  /** The pattern, and what would complete it at the marker's end: the token occurs in that twice over. */
  ghost predicate SelfMade(token: string, k: int) {
    && |token| >= 8 && CompletedAfter(token[..8], MARKER, k)
    && Contains(token[..8][k..] + token[..8][k..], token)
  }

  lemma EndsWithBracket(token: string, k: int)
    requires SelfMade(token, k)
    ensures token[7] == ']'
  {
    var p := token[..8];
    var q := p[k..];
    AfterStarts(p, k);
    var i :| OccursAt(q + q, token, i);
    StartOfOccurrence(q + q, token, i, 8);
    CharAt(q + q, p, i, k - 1);
    CharAt(q + q, p, i, 7);
  }

  /** No output of the first replacement holds the pattern and its completion. */
  lemma {:induction false} NeverCompleted(s: string, token: string, k: int, w: string, i: int)
    requires SelfMade(token, k) && w == token[..8] + token[..8][k..]
    ensures !OccursAt(ReplaceAll(s, token, MARKER), w, i)
    decreases |s|
  {
    if |s| < |token| {
      WordFacts(token, k);
      TokenInside(s, token, w, i);
    } else if token <= s {
      if i >= 16 {
        NeverCompleted(s[|token|..], token, k, w, i - 16);
        NotLater(MARKER, ReplaceAll(s[|token|..], token, MARKER), w, i);
      } else {
        NotAcross(s[|token|..], token, k, w, i);
      }
    } else if i == 0 {
      NotAtStart(s, token, k, w);
    } else if i > 0 {
      NeverCompleted(s[1..], token, k, w, i - 1);
      NotLater([s[0]], ReplaceAll(s[1..], token, MARKER), w, i);
    }
  }

  lemma NotLater(a: string, rest: string, t: string, i: int)
    requires i >= |a| && !OccursAt(rest, t, i - |a|)
    ensures !OccursAt(a + rest, t, i)
  {
    if OccursAt(a + rest, t, i) {
      OccursLater(a, rest, t, i);
    }
  }

  lemma NotAcross(s: string, token: string, k: int, w: string, i: int)
    requires SelfMade(token, k) && w == token[..8] + token[..8][k..] && i < 16
    ensures !OccursAt(MARKER + ReplaceAll(s, token, MARKER), w, i)
  {
    if OccursAt(MARKER + ReplaceAll(s, token, MARKER), w, i) {
      WordFacts(token, k);
      WordAcross(token, k, ReplaceAll(s, token, MARKER), i);
      StartsLiteral(s, token, token[..8][k..] + token[..8][k..]);
    }
  }

  lemma NotAtStart(s: string, token: string, k: int, w: string)
    requires SelfMade(token, k) && w == token[..8] + token[..8][k..]
    ensures !OccursAt(ReplaceAll(s, token, MARKER), w, 0)
  {
    if OccursAt(ReplaceAll(s, token, MARKER), w, 0) {
      WordFacts(token, k);
      StartsWith(ReplaceAll(s, token, MARKER), w);
      StartsLiteral(s, token, w);
    }
  }

  lemma StartsWith(s: string, t: string)
    requires OccursAt(s, t, 0)
    ensures t <= s
  {
    assert s[..|t|] == s[0..|t|];
  }

  lemma TokenInside(s: string, token: string, w: string, i: int)
    requires |s| < |token| && Contains(w, token)
    ensures !OccursAt(s, w, i)
  {
  }

  /** The pattern and its completion: the marker's share of the pattern, then the rest of it twice. */
  lemma WordFacts(token: string, k: int)
    requires SelfMade(token, k)
    ensures var q := token[..8][k..];
      var w := token[..8] + q;
      && w == token[..8][..k] + (q + q) && Contains(w, token)
      && |w| == 16 - k && q[|q| - 1] == ']' && w[|w| - 1] == ']'
  {
    EndsWithBracket(token, k);
    var p := token[..8];
    var q := p[k..];
    assert p + q == p[..k] + (q + q) + [];
    var o :| OccursAt(q + q, token, o);
    Within(p[..k], q + q, [], token, o);
  }

  lemma AfterPart(s: string, a: string, b: string, i: int)
    requires OccursAt(s, a + b, i)
    ensures b <= s[i + |a|..]
  {
    assert b == (a + b)[|a|..] == s[i..i + |a + b|][|a|..];
  }

  /** The word starts inside a marker only where the marker ends with the start of the pattern. */
  lemma WordAcross(token: string, k: int, rest: string, i: int)
    requires SelfMade(token, k) && i < 16
    requires OccursAt(MARKER + rest, token[..8] + token[..8][k..], i)
    ensures token[..8][k..] + token[..8][k..] <= rest
  {
    var p := token[..8];
    var q := p[k..];
    WordStart(p, q, k, rest, i);
    WordFacts(token, k);
    AfterPart(MARKER + rest, p[..k], q + q, i);
    assert (MARKER + rest)[16..] == rest;
  }

  lemma WordStart(p: string, q: string, k: int, rest: string, i: int)
    requires |p| == 8 && CompletedAfter(p, MARKER, k) && i < 16 && OccursAt(MARKER + rest, p + q, i)
    ensures i == 16 - k
  {
    AfterStarts(p, k);
    CharAt(MARKER + rest, p + q, i, 0);
    CharAt(MARKER + rest, p + q, i, k - 1);
    if i + k - 1 < 16 {
      MarkerBracket(i + k - 1);
    } else {
      MarkerFacts();
    }
  }

  /** The pattern comes out of the second replacement only where a marker ends with its start. */
  ghost predicate OnlyAfter(p: string, k: int) {
    && |p| == 8 && CompletedAfter(p, MARKER, k) && p[7] == ']'
    && !InsideMarker(p, MARKER) && forall j :: !CompletedBefore(p, MARKER, j)
  }

  /** An output of the second replacement with the pattern in it had the pattern and its completion before. */
  lemma {:induction false} CompletedFrom(s: string, p: string, k: int, w: string, i: int) returns (at: int)
    requires OnlyAfter(p, k) && w == p + p[k..]
    requires OccursAt(ReplaceAll(s, p, MARKER), p, i)
    ensures OccursAt(s, w, at)
    decreases |s|
  {
    if |s| >= 8 && p <= s {
      if i >= 16 {
        OccursLater(MARKER, ReplaceAll(s[8..], p, MARKER), p, i);
        at := CompletedFrom(s[8..], p, k, w, i - 16);
        at := LaterBy(s, 8, w, at);
      } else {
        at := CompletedHere(s, p, k, i);
      }
    } else {
      NotFirst(s, p, k);
      OccursLater([s[0]], ReplaceAll(s[1..], p, MARKER), p, i);
      at := CompletedFrom(s[1..], p, k, w, i - 1);
      at := LaterBy(s, 1, w, at);
    }
  }

  lemma CompletedHere(s: string, p: string, k: int, i: int) returns (at: int)
    requires OnlyAfter(p, k) && p <= s && i < 16
    requires OccursAt(MARKER + ReplaceAll(s[8..], p, MARKER), p, i)
    ensures OccursAt(s, p + p[k..], at)
  {
    StartsAfter(p, k, ReplaceAll(s[8..], p, MARKER), i);
    LiteralStart(s[8..], p, p[k..]);
    at := Joined(s, p, p[k..]);
  }

  lemma NotFirst(s: string, p: string, k: int)
    requires OnlyAfter(p, k) && !(p <= s)
    ensures !OccursAt(ReplaceAll(s, p, MARKER), p, 0)
  {
    var out := ReplaceAll(s, p, MARKER);
    if OccursAt(out, p, 0) {
      assert p == out[..8];
      NewAtStart(s, p, MARKER);
    }
  }

  lemma LaterBy(s: string, n: nat, t: string, i: int) returns (at: int)
    requires n <= |s| && OccursAt(s[n..], t, i)
    ensures OccursAt(s, t, at)
  {
    at := n + i;
    SliceOfSlice(s, n, i, |t|);
  }

  lemma Joined(s: string, p: string, q: string) returns (at: int)
    requires p <= s && q <= s[|p|..]
    ensures OccursAt(s, p + q, at)
  {
    at := 0;
    assert s[0..|p + q|] == s[..|p|] + s[|p|..][..|q|];
  }

  lemma StartsAfter(p: string, k: int, rest: string, i: int)
    requires |p| == 8 && !InsideMarker(p, MARKER) && CompletedAfter(p, MARKER, k)
    requires OccursAt(MARKER + rest, p, i) && i < 16
    ensures p[k..] <= rest
  {
    if i + 8 <= 16 {
      InsideAt(rest, p, i);
    } else {
      AcrossAt(rest, p, i);
      AfterUnique(p, k, 16 - i);
    }
  }

  /** A short word that ends with a bracket starts the output only if it starts the text. */
  lemma LiteralStart(s: string, p: string, q: string)
    requires |p| == 8 && 0 < |q| < 8 && q[|q| - 1] == ']' && q <= ReplaceAll(s, p, MARKER)
    ensures q <= s
  {
    if i :| OccursAt(s, p, i) {
      var g := FirstOccurrence(s, p, i);
      ReplaceFirst(s, p, MARKER, g);
      var rest := ReplaceAll(s[g + 8..], p, MARKER);
      if g < |q| {
        BracketInMarker(s[..g], rest, q);
      } else {
        assert q == (s[..g] + MARKER + rest)[..|q|] == s[..|q|];
      }
    } else {
      Untouched(s, p, MARKER);
    }
  }

  /** Such a token is safe, although its pattern is leaky. */
  lemma SelfMadeSafe(s: string, token: string, k: int, i: int)
    requires SelfMade(token, k) && !InsideMarker(token[..8], MARKER)
    requires forall j :: !CompletedBefore(token[..8], MARKER, j)
    ensures !OccursAt(Twice(s, token), token[..8], i)
  {
    var p := token[..8];
    EndsWithBracket(token, k);
    if OccursAt(Twice(s, token), p, i) {
      var at := CompletedFrom(ReplaceAll(s, token, MARKER), p, k, p + p[k..], i);
      NeverCompleted(s, token, k, p + p[k..], at);
    }
  }

  // ---- the law ---------------------------------------------------------------

  lemma SafeTwice(s: string, token: string, i: int)
    requires |token| >= 8 && !Echoable(token)
    ensures !OccursAt(Twice(s, token), token[..8], i)
  {
    var p := token[..8];
    if k :| CompletedAfter(p, MARKER, k) {
      assert SelfMade(token, k);
      SelfMadeSafe(s, token, k, i);
    } else {
      NoneLeft(ReplaceAll(s, token, MARKER), p, MARKER, i);
    }
  }

  lemma NotEchoed(text: Option<string>, token: string)
    requires token != [] && !Echoable(token)
    ensures Redacted(Sanitize(text, token), token)
  {
    if |token| < 8 {
      SafeTokenNeverEchoed(text, token);
    } else {
      var out, p := Sanitize(text, token), token[..8];
      forall i ensures !OccursAt(out, p, i) && !OccursAt(out, token, i) {
        if text.Some? && text.value != [] {
          SafeTwice(text.value, token, i);
          if OccursAt(out, token, i) {
            StartOfOccurrence(out, token, i, 8);
          }
          if OccursAt(out, p, i) {
            CapKeeps(Twice(text.value, token), p, i);
          }
        }
      }
    }
  }

  lemma EchoedBy(token: string) returns (text: string)
    requires token != [] && Echoable(token)
    ensures !Redacted(Sanitize(Some(text), token), token)
  {
    if |token| < 8 {
      text := LeakyLeaks(token, MARKER);
      assert Sanitize(Some(text), token) == ReplaceAll(text, token, MARKER);
    } else {
      var p := token[..8];
      if InsideMarker(p, MARKER) {
        text := token;
        InsideEchoes(token);
      } else if j :| CompletedBefore(p, MARKER, j) {
        text := BeforeEchoes(token, j);
      } else {
        var k :| CompletedAfter(p, MARKER, k) && !Contains(p[k..] + p[k..], token);
        text := AfterEchoes(token, k);
      }
      assert Sanitize(Some(text), token) == Twice(text, token);
    }
  }

  /** Whatever the text, neither the token nor its first 8 characters come out, if and only if it is not echoable. */
  lemma TokenSafeIff(token: string)
    requires token != []
    ensures (forall text :: Redacted(Sanitize(text, token), token)) <==> !Echoable(token)
  {
    if Echoable(token) {
      var text := EchoedBy(token);
      assert !Redacted(Sanitize(Some(text), token), token);
    } else {
      forall text ensures Redacted(Sanitize(text, token), token) {
        NotEchoed(text, token);
      }
    }
  }

  /** A pattern can be leaky and the token safe: nine brackets never come out. */
  lemma NineBrackets()
    ensures Leaky("]]]]]]]]", MARKER) && !Echoable("]]]]]]]]]")
  {
    var token := "]]]]]]]]]";
    var p := token[..8];
    MarkerFacts();
    assert p == "]]]]]]]]";
    assert p[..1] == MARKER[15..];
    assert CompletedAfter(p, MARKER, 1);
    forall i ensures !OccursAt(MARKER, p, i) {
      assert 0 <= i < 9 ==> MARKER[i..i + 8][0] == MARKER[i];
    }
    forall j ensures !CompletedBefore(p, MARKER, j) {
      assert 0 < j < 8 ==> p[j..][0] == ']';
    }
    forall k | CompletedAfter(p, MARKER, k) ensures Contains(p[k..] + p[k..], token) {
      AfterUnique(p, k, 1);
      assert (p[1..] + p[1..])[0..9] == token;
      assert OccursAt(p[1..] + p[1..], token, 0);
    }
  }

  /** No token of 16 or more characters occurs in 14, so there the pattern alone decides. */
  lemma LongToken(token: string)
    requires |token| >= 15
    ensures Echoable(token) <==> Leaky(token[..8], MARKER)
  {
    var p := token[..8];
    if k :| CompletedAfter(p, MARKER, k) {
      assert !Contains(p[k..] + p[k..], token);
    }
  }
}
