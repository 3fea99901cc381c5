/**
 * One-minute equity bars (backend/app/api/aurum.py:201-229): DISTINCT ON the
 * minute over rows ordered by minute and descending ts, then ordered by ts.
 */
module EquityBars {
  import opened PaperEvents
  import opened Sorting

  const MINUTE := 60_000_000

  function Minute(ts: int): int {
    ts / MINUTE
  }

  predicate InWindow(e: Event, start: int) {
    e.eventType == "equity_snapshot" && e.ts >= start
  }

  function Window(rows: seq<Event>, start: int): seq<Event> {
    if rows == [] then []
    else
      var last := rows[|rows| - 1];
      Window(rows[..|rows| - 1], start) + if InWindow(last, start) then [last] else []
  }

  predicate ByMinute(a: Event, b: Event) {
    Minute(a.ts) < Minute(b.ts) || (Minute(a.ts) == Minute(b.ts) && a.ts >= b.ts)
  }

  predicate OldestFirst(a: Event, b: Event) {
    a.ts <= b.ts
  }

  /** DISTINCT ON: the first row of every run of equal minutes. */
  function FirstPerMinute(order: seq<Event>): seq<Event> {
    if order == [] then []
    else
      var n := |order| - 1;
      FirstPerMinute(order[..n]) +
      if n == 0 || Minute(order[n - 1].ts) != Minute(order[n].ts) then [order[n]] else []
  }

  /** An answer of the query; "order" is how it happened to order equal rows. */
  ghost predicate IsAnswer(rows: seq<Event>, start: int, order: seq<Event>, bars: seq<Event>) {
    && Sorted(ByMinute, order) && multiset(order) == multiset(Window(rows, start))
    && Sorted(OldestFirst, bars) && multiset(bars) == multiset(FirstPerMinute(order))
  }

  lemma {:induction false} WindowMembers(rows: seq<Event>, start: int, e: Event)
    ensures e in Window(rows, start) <==> e in rows && InWindow(e, start)
  {
    if rows != [] {
      WindowMembers(rows[..|rows| - 1], start, e);
      assert rows == rows[..|rows| - 1] + [rows[|rows| - 1]];
    }
  }

  lemma SameMembers(a: seq<Event>, b: seq<Event>, e: Event)
    requires multiset(a) == multiset(b)
    ensures e in a <==> e in b
  {
    assert e in a <==> e in multiset(a);
    assert e in b <==> e in multiset(b);
  }

  /** Some bar in e's minute is at least as late as e. */
  ghost predicate Covered(bars: seq<Event>, e: Event) {
    exists b :: b in bars && Minute(b.ts) == Minute(e.ts) && e.ts <= b.ts
  }

  /** One bar for every minute that has rows, each of maximal ts, minutes ascending. */
  ghost predicate MinuteMaxima(rows: seq<Event>, bars: seq<Event>) {
    && (forall i, j :: 0 <= i < j < |bars| ==> Minute(bars[i].ts) < Minute(bars[j].ts))
    && (forall b :: b in bars ==> b in rows)
    && (forall e {:trigger Covered(bars, e)} :: e in rows ==> Covered(bars, e))
  }

  lemma NextRowSameMinute(front: seq<Event>, bars: seq<Event>, e: Event)
    requires MinuteMaxima(front, bars) && front != []
    requires Minute(front[|front| - 1].ts) == Minute(e.ts) && e.ts <= front[|front| - 1].ts
    ensures MinuteMaxima(front + [e], bars)
  {
    assert Covered(bars, front[|front| - 1]);
    forall f | f in front + [e] ensures Covered(bars, f) {
      if f in front {
        assert Covered(bars, f);
      }
    }
  }

  lemma NextRowNewMinute(front: seq<Event>, bars: seq<Event>, e: Event)
    requires MinuteMaxima(front, bars)
    requires bars != [] ==> Minute(bars[|bars| - 1].ts) < Minute(e.ts)
    ensures MinuteMaxima(front + [e], bars + [e])
  {
    var bars' := bars + [e];
    forall i, j | 0 <= i < j < |bars'| ensures Minute(bars'[i].ts) < Minute(bars'[j].ts) {
      if j == |bars| && i < |bars| - 1 {
        assert Minute(bars[i].ts) < Minute(bars[|bars| - 1].ts);
      }
    }
    forall f | f in front + [e] ensures Covered(bars', f) {
      if f in front {
        assert Covered(bars, f);
        var b :| b in bars && Minute(b.ts) == Minute(f.ts) && f.ts <= b.ts;
        assert b in bars';
      } else {
        assert e in bars';
      }
    }
  }

  lemma {:induction false} FirstsAreMaxima(order: seq<Event>)
    requires Sorted(ByMinute, order)
    ensures MinuteMaxima(order, FirstPerMinute(order))
    ensures order != [] ==>
      var bars := FirstPerMinute(order);
      bars != [] && Minute(bars[|bars| - 1].ts) == Minute(order[|order| - 1].ts)
  {
    if order != [] {
      var n := |order| - 1;
      var front := order[..n];
      FirstsAreMaxima(front);
      assert n > 0 ==> ByMinute(order[n - 1], order[n]);
      assert order == front + [order[n]];
      if n > 0 && Minute(order[n - 1].ts) == Minute(order[n].ts) {
        NextRowSameMinute(front, FirstPerMinute(front), order[n]);
        assert FirstPerMinute(order) == FirstPerMinute(front);
      } else {
        NextRowNewMinute(front, FirstPerMinute(front), order[n]);
      }
    }
  }

  lemma MinuteOrder(a: int, b: int)
    ensures Minute(a) < Minute(b) ==> a < b
  {
  }

  lemma MaximaAscend(rows: seq<Event>, bars: seq<Event>)
    requires MinuteMaxima(rows, bars)
    ensures forall i, j :: 0 <= i < j < |bars| ==> bars[i].ts < bars[j].ts
    ensures Sorted(OldestFirst, bars) && TieFree(OldestFirst, bars)
  {
    forall i, j | 0 <= i < j < |bars| ensures bars[i].ts < bars[j].ts {
      MinuteOrder(bars[i].ts, bars[j].ts);
    }
  }

  /**
   * Whatever the ties, the answer holds exactly one bar per nonempty minute of
   * the window, of maximal ts, and its ts strictly increase.
   */
  lemma BarsAreMinuteMaxima(rows: seq<Event>, start: int, order: seq<Event>, bars: seq<Event>)
    requires IsAnswer(rows, start, order, bars)
    ensures MinuteMaxima(Window(rows, start), bars)
    ensures forall i, j :: 0 <= i < j < |bars| ==> bars[i].ts < bars[j].ts
  {
    var firsts := FirstPerMinute(order);
    FirstsAreMaxima(order);
    MaximaAscend(order, firsts);
    StrictUnique(OldestFirst, firsts, bars);
    forall e ensures e in order <==> e in Window(rows, start) {
      SameMembers(order, Window(rows, start), e);
    }
  }

  /** The 60 seconds of minute m, in microseconds. */
  predicate InMinute(e: Event, m: int) {
    m * 60 * 1_000_000 <= e.ts < (m + 1) * 60 * 1_000_000
  }

  /** A row of the table that the window is about. */
  predicate IsSnapshot(e: Event, rows: seq<Event>, start: int) {
    e in rows && e.eventType == "equity_snapshot" && e.ts >= start
  }

  lemma MinuteIff(e: Event, m: int)
    ensures InMinute(e, m) <==> Minute(e.ts) == m
  {
  }

  /**
   * Told minute by minute: there is a bar in a minute exactly if there is an
   * equity snapshot of the window in it, there is no other bar in it, and the
   * bar is a snapshot as late as any.
   */
  lemma OneBarPerMinute(rows: seq<Event>, start: int, order: seq<Event>, bars: seq<Event>, m: int)
    requires IsAnswer(rows, start, order, bars)
    ensures (exists b :: b in bars && InMinute(b, m)) <==>
      exists e :: IsSnapshot(e, rows, start) && InMinute(e, m)
    ensures forall i, j :: 0 <= i < |bars| && 0 <= j < |bars| && InMinute(bars[i], m) && InMinute(bars[j], m) ==> i == j
    ensures forall b, e :: b in bars && InMinute(b, m) && IsSnapshot(e, rows, start) && InMinute(e, m) ==> e.ts <= b.ts
    ensures forall b :: b in bars ==> IsSnapshot(b, rows, start)
  {
    BarsAreMinuteMaxima(rows, start, order, bars);
    forall e ensures InMinute(e, m) <==> Minute(e.ts) == m { MinuteIff(e, m); }
    forall e ensures e in Window(rows, start) <==> e in rows && InWindow(e, start) { WindowMembers(rows, start, e); }
    forall e | IsSnapshot(e, rows, start) && InMinute(e, m)
      ensures exists b :: b in bars && InMinute(b, m) && e.ts <= b.ts
    {
      assert Covered(bars, e);
      var b :| b in bars && Minute(b.ts) == Minute(e.ts) && e.ts <= b.ts;
      assert InMinute(b, m);
    }
    forall b, c | b in bars && c in bars && InMinute(b, m) && InMinute(c, m) ensures b == c {
      SameMinuteBar(Window(rows, start), bars, b, c);
    }
  }

  // ---- bars of bars ----------------------------------------------------------

  predicate SameTime(e: Event, f: Event) {
    e.ts == f.ts
  }

  /** Equal ts only in equal rows. */
  ghost predicate DistinctTimes(rows: seq<Event>) {
    forall e, f {:trigger SameTime(e, f)} :: e in rows && f in rows && SameTime(e, f) ==> e == f
  }

  /** e is the row of maximal ts in its minute. */
  ghost predicate IsTop(rows: seq<Event>, e: Event) {
    e in rows && forall f :: f in rows && Minute(f.ts) == Minute(e.ts) ==> f.ts <= e.ts
  }

  lemma SameMinuteBar(rows: seq<Event>, bars: seq<Event>, a: Event, b: Event)
    requires MinuteMaxima(rows, bars) && a in bars && b in bars && Minute(a.ts) == Minute(b.ts)
    ensures a == b
  {
    var i :| 0 <= i < |bars| && bars[i] == a;
    var j :| 0 <= j < |bars| && bars[j] == b;
  }

  lemma MaximaAreTops(rows: seq<Event>, bars: seq<Event>, e: Event)
    requires MinuteMaxima(rows, bars) && DistinctTimes(rows)
    ensures e in bars <==> IsTop(rows, e)
  {
    if e in bars {
      forall f | f in rows && Minute(f.ts) == Minute(e.ts) ensures f.ts <= e.ts {
        assert Covered(bars, f);
        var b :| b in bars && Minute(b.ts) == Minute(f.ts) && f.ts <= b.ts;
        SameMinuteBar(rows, bars, b, e);
      }
    }
    if IsTop(rows, e) {
      assert Covered(bars, e);
      var b :| b in bars && Minute(b.ts) == Minute(e.ts) && e.ts <= b.ts;
      assert SameTime(b, e);
    }
  }

  ghost predicate Ascends(s: seq<Event>) {
    forall i, j :: 0 <= i < j < |s| ==> s[i].ts < s[j].ts
  }

  lemma SameLatest(a: seq<Event>, b: seq<Event>)
    requires Ascends(a) && Ascends(b) && a != [] && b != []
    requires a[|a| - 1] in b && b[|b| - 1] in a
    ensures a[|a| - 1] == b[|b| - 1]
  {
    var i :| 0 <= i < |b| && b[i] == a[|a| - 1];
    var j :| 0 <= j < |a| && a[j] == b[|b| - 1];
  }

  lemma WithoutLast(a: seq<Event>, e: Event)
    requires Ascends(a) && a != []
    ensures e in a[..|a| - 1] <==> e in a && e != a[|a| - 1]
  {
    assert a == a[..|a| - 1] + [a[|a| - 1]];
  }

  lemma {:induction false} AscendingUnique(a: seq<Event>, b: seq<Event>)
    requires Ascends(a) && Ascends(b)
    requires forall e :: e in a <==> e in b
    ensures a == b
  {
    assert a != [] ==> a[0] in a;
    assert b != [] ==> b[0] in b;
    if a != [] {
      SameLatest(a, b);
      var a', b' := a[..|a| - 1], b[..|b| - 1];
      forall e ensures e in a' <==> e in b' {
        WithoutLast(a, e);
        WithoutLast(b, e);
      }
      AscendingUnique(a', b');
      assert a == a' + [a[|a| - 1]] && b == b' + [b[|b| - 1]];
    }
  }

  /** Bars with the same tops are the same bars. */
  lemma SameTops(rows: seq<Event>, bars: seq<Event>, rows': seq<Event>, bars': seq<Event>)
    requires MinuteMaxima(rows, bars) && DistinctTimes(rows)
    requires MinuteMaxima(rows', bars') && DistinctTimes(rows')
    requires forall e {:trigger IsTop(rows, e)} :: IsTop(rows, e) <==> IsTop(rows', e)
    ensures bars == bars'
  {
    MaximaAscend(rows, bars);
    MaximaAscend(rows', bars');
    forall e ensures e in bars <==> e in bars' {
      MaximaAreTops(rows, bars, e);
      MaximaAreTops(rows', bars', e);
    }
    AscendingUnique(bars, bars');
  }

  /** Downsampling bars again changes nothing, even with ties. */
  lemma Idempotent(rows: seq<Event>, start: int, order: seq<Event>, bars: seq<Event>, order': seq<Event>,
                   bars': seq<Event>)
    requires IsAnswer(rows, start, order, bars) && IsAnswer(bars, start, order', bars')
    ensures bars' == bars
  {
    BarsAreMinuteMaxima(rows, start, order, bars);
    BarsAreMinuteMaxima(bars, start, order', bars');
    forall e ensures e in Window(bars, start) <==> e in bars {
      WindowMembers(rows, start, e);
      WindowMembers(bars, start, e);
    }
    MaximaOfMaxima(Window(rows, start), bars, Window(bars, start), bars');
  }

  lemma MaximaOfMaxima(rows: seq<Event>, bars: seq<Event>, again: seq<Event>, bars': seq<Event>)
    requires MinuteMaxima(rows, bars) && MinuteMaxima(again, bars')
    requires forall e :: e in again <==> e in bars
    ensures bars' == bars
  {
    MaximaAscend(rows, bars);
    MaximaAscend(again, bars');
    forall e | e in bars ensures e in bars' {
      assert Covered(bars', e);
      var b :| b in bars' && Minute(b.ts) == Minute(e.ts) && e.ts <= b.ts;
      SameMinuteBar(rows, bars, b, e);
    }
    AscendingUnique(bars', bars);
  }

  /** If every row of the whole is covered by the parts, which are rows of it, the tops agree. */
  lemma TopOfParts(whole: seq<Event>, parts: seq<Event>, e: Event)
    requires DistinctTimes(whole)
    requires forall f :: f in parts ==> f in whole
    requires forall f {:trigger Covered(parts, f)} :: f in whole ==> Covered(parts, f)
    ensures IsTop(whole, e) <==> IsTop(parts, e)
  {
    if IsTop(whole, e) {
      assert Covered(parts, e);
      var g :| g in parts && Minute(g.ts) == Minute(e.ts) && e.ts <= g.ts;
      assert SameTime(g, e);
    }
    if IsTop(parts, e) {
      forall f | f in whole && Minute(f.ts) == Minute(e.ts) ensures f.ts <= e.ts {
        assert Covered(parts, f);
        var g :| g in parts && Minute(g.ts) == Minute(f.ts) && f.ts <= g.ts;
      }
    }
  }

  /** The bars of two parts are rows of the whole and cover it. */
  lemma PartsCover(a: seq<Event>, b: seq<Event>, start: int, da: seq<Event>, db: seq<Event>)
    requires MinuteMaxima(Window(a, start), da) && MinuteMaxima(Window(b, start), db)
    ensures forall f :: f in Window(da + db, start) ==> f in Window(a + b, start)
    ensures forall f {:trigger Covered(Window(da + db, start), f)} ::
      f in Window(a + b, start) ==> Covered(Window(da + db, start), f)
  {
    var whole, parts := Window(a + b, start), Window(da + db, start);
    forall f | f in parts ensures f in whole {
      WindowMembers(da + db, start, f);
      WindowMembers(a, start, f);
      WindowMembers(b, start, f);
      WindowMembers(a + b, start, f);
    }
    forall f | f in whole ensures Covered(parts, f) {
      WindowMembers(a + b, start, f);
      WindowMembers(a, start, f);
      WindowMembers(b, start, f);
      var d, w := if f in a then da else db, if f in a then Window(a, start) else Window(b, start);
      assert Covered(d, f);
      var g :| g in d && Minute(g.ts) == Minute(f.ts) && f.ts <= g.ts;
      WindowMembers(if f in a then a else b, start, g);
      WindowMembers(da + db, start, g);
    }
  }

  function Times(bars: seq<Event>): (times: seq<int>)
    ensures |times| == |bars| && forall i :: 0 <= i < |bars| ==> times[i] == bars[i].ts
  {
    seq(|bars|, i requires 0 <= i < |bars| => bars[i].ts)
  }

  /** Some bar has this ts. */
  ghost predicate HasTime(bars: seq<Event>, ts: int) {
    exists b :: b in bars && b.ts == ts
  }

  /** Rows that cover one another have bars at the same times, whichever of equal rows they hold. */
  lemma TimeKept(rows: seq<Event>, bars: seq<Event>, rows': seq<Event>, bars': seq<Event>, b: Event)
    requires MinuteMaxima(rows, bars) && MinuteMaxima(rows', bars') && b in bars
    requires forall e {:trigger Covered(rows, e)} :: e in rows' ==> Covered(rows, e)
    requires forall e {:trigger Covered(rows', e)} :: e in rows ==> Covered(rows', e)
    ensures HasTime(bars', b.ts)
  {
    assert Covered(rows', b);
    var g :| g in rows' && Minute(g.ts) == Minute(b.ts) && b.ts <= g.ts;
    assert Covered(bars', g);
    var c :| c in bars' && Minute(c.ts) == Minute(g.ts) && g.ts <= c.ts;
    assert Covered(rows, c);
    var h :| h in rows && Minute(h.ts) == Minute(c.ts) && c.ts <= h.ts;
    assert Covered(bars, h);
    var d :| d in bars && Minute(d.ts) == Minute(h.ts) && h.ts <= d.ts;
    SameMinuteBar(rows, bars, d, b);
  }

  /** Every ts of a is one of b. */
  ghost predicate TimesIn(a: seq<Event>, b: seq<Event>) {
    forall e :: e in a ==> HasTime(b, e.ts)
  }

  lemma {:induction false} AscendingTimes(a: seq<Event>, b: seq<Event>)
    requires Ascends(a) && Ascends(b) && TimesIn(a, b) && TimesIn(b, a)
    ensures Times(a) == Times(b)
  {
    if a != [] {
      SomeTime(a, b);
      LastTime(a, b);
      LastTime(b, a);
      EarlierTimes(a, b);
      EarlierTimes(b, a);
      AscendingTimes(a[..|a| - 1], b[..|b| - 1]);
      TimesNext(a);
      TimesNext(b);
    } else if b != [] {
      SomeTime(b, a);
    }
  }

  lemma SomeTime(a: seq<Event>, b: seq<Event>)
    requires a != [] && TimesIn(a, b)
    ensures b != []
  {
    assert a[0] in a;
  }

  lemma TimesNext(a: seq<Event>)
    requires a != []
    ensures Times(a) == Times(a[..|a| - 1]) + [a[|a| - 1].ts]
  {
  }

  lemma LastTime(a: seq<Event>, b: seq<Event>)
    requires Ascends(b) && a != [] && b != [] && TimesIn(a, b)
    ensures a[|a| - 1].ts <= b[|b| - 1].ts
  {
    assert HasTime(b, a[|a| - 1].ts);
    var e :| e in b && e.ts == a[|a| - 1].ts;
    var i :| 0 <= i < |b| && b[i] == e;
  }

  lemma EarlierTimes(a: seq<Event>, b: seq<Event>)
    requires Ascends(a) && a != [] && b != [] && a[|a| - 1].ts == b[|b| - 1].ts && TimesIn(a, b)
    ensures TimesIn(a[..|a| - 1], b[..|b| - 1])
  {
    forall e | e in a[..|a| - 1] ensures HasTime(b[..|b| - 1], e.ts) {
      var i :| 0 <= i < |a| - 1 && a[i] == e;
      assert HasTime(b, e.ts);
      var f :| f in b && f.ts == e.ts;
      var j :| 0 <= j < |b| && b[j] == f;
      assert b[..|b| - 1][j] == f;
    }
  }

  lemma SameTimes(whole: seq<Event>, all: seq<Event>, parts: seq<Event>, merged: seq<Event>)
    requires MinuteMaxima(whole, all) && MinuteMaxima(parts, merged)
    requires forall f :: f in parts ==> f in whole
    requires forall f {:trigger Covered(parts, f)} :: f in whole ==> Covered(parts, f)
    ensures Times(merged) == Times(all)
  {
    MaximaAscend(whole, all);
    MaximaAscend(parts, merged);
    forall b | b in all ensures HasTime(merged, b.ts) { TimeKept(whole, all, parts, merged, b); }
    forall b | b in merged ensures HasTime(all, b.ts) { TimeKept(parts, merged, whole, all, b); }
    AscendingTimes(merged, all);
  }

  /**
   * Bars of two parts of a journal merge: the bars of the parts' bars together
   * are at the times of the bars of the whole, and the same bars where no two
   * rows have the same ts.
   */
  lemma BarsMerge(a: seq<Event>, b: seq<Event>, start: int,
                  oa: seq<Event>, da: seq<Event>, ob: seq<Event>, db: seq<Event>,
                  oall: seq<Event>, all: seq<Event>, omerged: seq<Event>, merged: seq<Event>)
    requires IsAnswer(a, start, oa, da) && IsAnswer(b, start, ob, db)
    requires IsAnswer(a + b, start, oall, all) && IsAnswer(da + db, start, omerged, merged)
    ensures Times(merged) == Times(all)
    ensures DistinctTimes(a + b) ==> merged == all
  {
    BarsAreMinuteMaxima(a, start, oa, da);
    BarsAreMinuteMaxima(b, start, ob, db);
    BarsAreMinuteMaxima(a + b, start, oall, all);
    BarsAreMinuteMaxima(da + db, start, omerged, merged);
    PartsCover(a, b, start, da, db);
    var whole, parts := Window(a + b, start), Window(da + db, start);
    SameTimes(whole, all, parts, merged);
    if DistinctTimes(a + b) {
      WindowDistinct(a + b, start);
      SamePartsBars(whole, all, parts, merged);
    }
  }

  lemma SamePartsBars(whole: seq<Event>, all: seq<Event>, parts: seq<Event>, merged: seq<Event>)
    requires MinuteMaxima(whole, all) && MinuteMaxima(parts, merged) && DistinctTimes(whole)
    requires forall f :: f in parts ==> f in whole
    requires forall f {:trigger Covered(parts, f)} :: f in whole ==> Covered(parts, f)
    ensures merged == all
  {
    forall e ensures IsTop(whole, e) <==> IsTop(parts, e) {
      TopOfParts(whole, parts, e);
    }
    SameTops(parts, merged, whole, all);
  }

  lemma WindowDistinct(rows: seq<Event>, start: int)
    requires DistinctTimes(rows)
    ensures DistinctTimes(Window(rows, start))
  {
    forall e, f | e in Window(rows, start) && f in Window(rows, start) && SameTime(e, f) ensures e == f {
      WindowMembers(rows, start, e);
      WindowMembers(rows, start, f);
    }
  }
}
