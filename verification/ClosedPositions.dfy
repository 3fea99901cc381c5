/**
 * Paging through closed positions (backend/app/api/aurum.py:234-271). The
 * query orders by ts alone, so each answer is any newest-first order of the
 * matching rows; a walk follows next_before until it is absent.
 */
module ClosedPositions {
  import opened Prelude
  import opened PaperEvents
  import opened Sorting

  datatype Page = Page(items: seq<Event>, nextBefore: Option<int>)

  /** Which row the cursor is taken from: the code's rows[limit], or the last row shown. */
  datatype Cursor = FirstHidden | LastShown

  predicate Matches(e: Event, before: Option<int>) {
    e.eventType == "position_closed" && (before.Some? ==> e.ts < before.value)
  }

  function Matching(table: seq<Event>, before: Option<int>): seq<Event> {
    if table == [] then []
    else
      var last := table[|table| - 1];
      Matching(table[..|table| - 1], before) + if Matches(last, before) then [last] else []
  }

  predicate NewestFirst(a: Event, b: Event) {
    a.ts >= b.ts
  }

  /** The rows the query may order as it likes among equal ts. */
  ghost predicate IsAnswer(table: seq<Event>, before: Option<int>, order: seq<Event>) {
    Sorted(NewestFirst, order) && multiset(order) == multiset(Matching(table, before))
  }

  function Take<T>(s: seq<T>, n: nat): seq<T> {
    if n < |s| then s[..n] else s
  }

  function PageOf(order: seq<Event>, limit: nat, cursor: Cursor): Page
    requires limit > 0
  {
    var rows := Take(order, limit + 1);
    Page(Take(rows, limit),
         if |rows| <= limit then None
         else Some(rows[if cursor.FirstHidden? then limit else limit - 1].ts))
  }

  /** The answers seen while following next_before, possibly not yet to the end. */
  ghost predicate IsPartialWalk(table: seq<Event>, limit: nat, cursor: Cursor, before: Option<int>,
                                orders: seq<seq<Event>>)
    requires limit > 0
    decreases |orders|
  {
    orders == [] ||
      (&& IsAnswer(table, before, orders[0])
       && (|orders| > 1 ==>
             && PageOf(orders[0], limit, cursor).nextBefore.Some?
             && IsPartialWalk(table, limit, cursor, PageOf(orders[0], limit, cursor).nextBefore, orders[1..])))
  }

  /** A walk followed until next_before is absent. */
  ghost predicate IsWalk(table: seq<Event>, limit: nat, cursor: Cursor, before: Option<int>, orders: seq<seq<Event>>)
    requires limit > 0
    decreases |orders|
  {
    && orders != []
    && IsAnswer(table, before, orders[0])
    && (var next := PageOf(orders[0], limit, cursor).nextBefore;
        if next.None? then |orders| == 1 else IsWalk(table, limit, cursor, next, orders[1..]))
  }

  function Collected(limit: nat, cursor: Cursor, orders: seq<seq<Event>>): seq<Event>
    requires limit > 0
  {
    if orders == [] then []
    else PageOf(orders[0], limit, cursor).items + Collected(limit, cursor, orders[1..])
  }

  // ---- counting rows ---------------------------------------------------------

  /** The query selects the closed positions before the cursor, each as often as it is in the table. */
  lemma {:induction false} MatchingCount(table: seq<Event>, before: Option<int>, e: Event)
    ensures multiset(Matching(table, before))[e] ==
      if e.eventType == "position_closed" && (before.None? || e.ts < before.value) then multiset(table)[e] else 0
  {
    if table != [] {
      MatchingCount(table[..|table| - 1], before, e);
      assert table == table[..|table| - 1] + [table[|table| - 1]];
    }
  }

  /** Narrowing the cursor keeps exactly the rows below it. */
  lemma NarrowedCount(table: seq<Event>, before: Option<int>, c: int, e: Event)
    requires before.Some? ==> c <= before.value
    ensures multiset(Matching(table, Some(c)))[e] == if e.ts < c then multiset(Matching(table, before))[e] else 0
  {
    MatchingCount(table, Some(c), e);
    MatchingCount(table, before, e);
  }

  /** low holds what all holds below c. */
  ghost predicate Lowered(all: multiset<Event>, low: multiset<Event>, c: int) {
    forall e {:trigger low[e]} :: low[e] == if e.ts < c then all[e] else 0
  }

  lemma Narrowed(table: seq<Event>, before: Option<int>, c: int)
    requires before.Some? ==> c <= before.value
    ensures Lowered(multiset(Matching(table, before)), multiset(Matching(table, Some(c))), c)
  {
    forall e
      ensures multiset(Matching(table, Some(c)))[e] == if e.ts < c then multiset(Matching(table, before))[e] else 0
    {
      NarrowedCount(table, before, c, e);
    }
  }

  lemma CursorOf(table: seq<Event>, limit: nat, cursor: Cursor, before: Option<int>, order: seq<Event>)
    requires limit > 0 && IsAnswer(table, before, order)
    ensures var p := PageOf(order, limit, cursor);
      && (p.nextBefore.None? <==> |order| <= limit)
      && (p.nextBefore.Some? ==>
            && (before.Some? ==> p.nextBefore.value < before.value)
            && p.items == order[..limit]
            && p.nextBefore.value == order[if cursor.FirstHidden? then limit else limit - 1].ts
            && forall i :: 0 <= i < limit ==> order[i].ts >= p.nextBefore.value)
      && (p.nextBefore.None? ==> p.items == order)
  {
    var k := if cursor.FirstHidden? then limit else limit - 1;
    if |order| > limit {
      MatchingCount(table, before, order[k]);
      assert multiset(order)[order[k]] > 0;
      forall i | 0 <= i < limit ensures order[i].ts >= order[k].ts {
        assert i == k || NewestFirst(order[i], order[k]) || i > k;
      }
    }
  }

  // ---- every table, ties included --------------------------------------------

  ghost predicate AllBelow(rows: seq<Event>, c: int) {
    forall i :: 0 <= i < |rows| ==> rows[i].ts < c
  }

  lemma AnswerBelow(table: seq<Event>, before: Option<int>, order: seq<Event>)
    requires IsAnswer(table, before, order)
    ensures before.Some? ==> AllBelow(order, before.value)
  {
    forall i | 0 <= i < |order| ensures before.Some? ==> order[i].ts < before.value {
      MatchingCount(table, before, order[i]);
      assert multiset(order)[order[i]] > 0;
    }
  }

  lemma TakeIsSub(s: seq<Event>, n: nat)
    requires n <= |s|
    ensures multiset(s[..n]) <= multiset(s)
  {
    assert s == s[..n] + s[n..];
  }

  lemma PageThenRest(all: multiset<Event>, low: multiset<Event>, items: seq<Event>, rest: seq<Event>, c: int)
    requires multiset(items) <= all && multiset(rest) <= low
    requires Lowered(all, low, c)
    requires forall i :: 0 <= i < |items| ==> items[i].ts >= c
    ensures multiset(items + rest) <= all
  {
    forall e ensures multiset(items + rest)[e] <= all[e] {
      assert multiset(items + rest)[e] == multiset(items)[e] + multiset(rest)[e];
      if e in multiset(items) {
        assert e in items;
      }
    }
  }

  lemma SortedAcross(order: seq<Event>, k: nat, rest: seq<Event>, c: int)
    requires Sorted(NewestFirst, order) && Sorted(NewestFirst, rest) && AllBelow(rest, c)
    requires k <= |order| && forall i :: 0 <= i < k ==> order[i].ts >= c
    ensures Sorted(NewestFirst, order[..k] + rest)
  {
    var all := order[..k] + rest;
    forall i, j | 0 <= i < j < |all| ensures NewestFirst(all[i], all[j]) {
      if j < k {
        assert NewestFirst(order[i], order[j]);
      } else if i >= k {
        assert NewestFirst(rest[i - k], rest[j - k]);
      }
    }
  }

  /** One page of a walk and what the rest of the walk may still return. */
  lemma PageStep(table: seq<Event>, limit: nat, cursor: Cursor, before: Option<int>, order: seq<Event>,
                 rest: seq<Event>, c: int)
    requires limit > 0 && IsAnswer(table, before, order) && |order| > limit
    requires PageOf(order, limit, cursor).nextBefore == Some(c)
    requires multiset(rest) <= multiset(Matching(table, Some(c)))
    ensures multiset(order[..limit] + rest) <= multiset(Matching(table, before))
  {
    var items := order[..limit];
    CursorOf(table, limit, cursor, before, order);
    TakeIsSub(order, limit);
    Narrowed(table, before, c);
    assert forall i :: 0 <= i < |items| ==> items[i].ts >= c;
    PageThenRest(multiset(Matching(table, before)), multiset(Matching(table, Some(c))), items, rest, c);
  }

  lemma PageBelow(table: seq<Event>, limit: nat, cursor: Cursor, before: Option<int>, order: seq<Event>,
                  rest: seq<Event>, c: int)
    requires limit > 0 && IsAnswer(table, before, order) && |order| > limit
    requires PageOf(order, limit, cursor).nextBefore == Some(c) && AllBelow(rest, c)
    ensures before.Some? ==> AllBelow(order[..limit] + rest, before.value)
  {
    CursorOf(table, limit, cursor, before, order);
    AnswerBelow(table, before, order);
  }

  /**
   * No row is returned twice, whatever the ties: the walk returns rows of the
   * table, each at most as often as it is there, newest first throughout.
   */
  lemma {:induction false} NeverTwice(table: seq<Event>, limit: nat, cursor: Cursor, before: Option<int>,
                                      orders: seq<seq<Event>>)
    requires limit > 0 && IsWalk(table, limit, cursor, before, orders)
    ensures multiset(Collected(limit, cursor, orders)) <= multiset(Matching(table, before))
    ensures before.Some? ==> AllBelow(Collected(limit, cursor, orders), before.value)
    ensures Sorted(NewestFirst, Collected(limit, cursor, orders))
    ensures var rows := Collected(limit, cursor, orders);
      forall i, j :: 0 <= i < j < |rows| ==> rows[i].ts >= rows[j].ts
    decreases |orders|
  {
    var order := orders[0];
    CursorOf(table, limit, cursor, before, order);
    if |order| <= limit {
      AnswerBelow(table, before, order);
      assert Collected(limit, cursor, orders) == order + [];
      assert order + [] == order;
    } else {
      NeverTwice(table, limit, cursor, PageOf(order, limit, cursor).nextBefore, orders[1..]);
      var c, rest := PageOf(order, limit, cursor).nextBefore.value, Collected(limit, cursor, orders[1..]);
      PageStep(table, limit, cursor, before, order, rest, c);
      PageBelow(table, limit, cursor, before, order, rest, c);
      SortedAcross(order, limit, rest, c);
    }
  }

  lemma NarrowedSize(all: multiset<Event>, low: multiset<Event>, c: int, dropped: seq<Event>)
    requires Lowered(all, low, c)
    requires multiset(dropped) <= all && forall i :: 0 <= i < |dropped| ==> dropped[i].ts >= c
    ensures |low| + |dropped| <= |all|
  {
    forall e ensures (low + multiset(dropped))[e] <= all[e] {
      if e in multiset(dropped) {
        assert e in dropped;
      }
    }
    var sum := low + multiset(dropped);
    assert sum <= all;
    assert all == sum + (all - sum);
    assert |all| == |sum| + |all - sum|;
  }

  /** How many rows each further page uses up: the page itself and, with the code's cursor, one more. */
  function Stride(limit: nat, cursor: Cursor): nat {
    if cursor.FirstHidden? then limit + 1 else limit
  }

  /** The rows a page uses up are not below its cursor. */
  lemma StrideAbove(table: seq<Event>, limit: nat, cursor: Cursor, before: Option<int>, order: seq<Event>)
    requires limit > 0 && IsAnswer(table, before, order) && |order| > limit
    ensures var c := PageOf(order, limit, cursor).nextBefore;
      && c.Some? && (before.Some? ==> c.value <= before.value)
      && forall i :: 0 <= i < Stride(limit, cursor) ==> order[i].ts >= c.value
  {
    CursorOf(table, limit, cursor, before, order);
  }

  /** Going to the next page leaves at least a stride fewer rows. */
  lemma PageShrinks(table: seq<Event>, limit: nat, cursor: Cursor, before: Option<int>, order: seq<Event>)
    requires limit > 0 && IsAnswer(table, before, order) && |order| > limit
    ensures PageOf(order, limit, cursor).nextBefore.Some?
    ensures |Matching(table, PageOf(order, limit, cursor).nextBefore)| + Stride(limit, cursor)
      <= |Matching(table, before)|
  {
    StrideAbove(table, limit, cursor, before, order);
    var n, c := Stride(limit, cursor), PageOf(order, limit, cursor).nextBefore.value;
    TakeIsSub(order, n);
    Narrowed(table, before, c);
    NarrowedSize(multiset(Matching(table, before)), multiset(Matching(table, Some(c))), c, order[..n]);
  }

  /** Every walk ends: n rows allow at most n / (limit + 1) pages that point to a next one. */
  lemma {:induction false} WalkEnds(table: seq<Event>, limit: nat, cursor: Cursor, before: Option<int>,
                                    orders: seq<seq<Event>>)
    requires limit > 0 && IsPartialWalk(table, limit, cursor, before, orders)
    ensures orders != [] ==> (|orders| - 1) * Stride(limit, cursor) <= |Matching(table, before)|
    ensures orders != [] && cursor.FirstHidden? ==> (|orders| - 1) * (limit + 1) <= |Matching(table, before)|
    decreases |orders|
  {
    if |orders| > 1 {
      CursorOf(table, limit, cursor, before, orders[0]);
      PageShrinks(table, limit, cursor, before, orders[0]);
      WalkEnds(table, limit, cursor, PageOf(orders[0], limit, cursor).nextBefore, orders[1..]);
      Distribute(|orders| - 2, Stride(limit, cursor));
    }
  }

  lemma Distribute(a: int, n: int)
    ensures (a + 1) * n == a * n + n
  {
  }

  /** A walk to the end exists from every cursor. */
  lemma {:induction false} WalkExists(table: seq<Event>, limit: nat, cursor: Cursor, before: Option<int>)
    returns (orders: seq<seq<Event>>)
    requires limit > 0
    ensures IsWalk(table, limit, cursor, before, orders)
    decreases |Matching(table, before)|
  {
    var order := Sort(NewestFirst, Matching(table, before));
    SortIsStable(NewestFirst, Matching(table, before));
    SortPermutes(NewestFirst, Matching(table, before));
    orders := [order];
    CursorOf(table, limit, cursor, before, order);
    if |order| > limit {
      PageShrinks(table, limit, cursor, before, order);
      var rest := WalkExists(table, limit, cursor, PageOf(order, limit, cursor).nextBefore);
      orders := [order] + rest;
    }
  }

  lemma FirstHiddenIsLost(order: seq<Event>, limit: nat, rest: seq<Event>)
    requires limit < |order| && AllBelow(rest, order[limit].ts)
    ensures multiset(order[..limit] + rest) != multiset(order)
  {
    var x := order[limit];
    assert order == order[..limit] + [x] + order[limit + 1..];
    assert x !in rest;
    assert multiset(order[..limit] + rest)[x] == multiset(order[..limit])[x];
  }

  /** With the code's cursor a walk returns every row if and only if one page holds them all. */
  lemma CompleteIffOnePage(table: seq<Event>, limit: nat, before: Option<int>, orders: seq<seq<Event>>)
    requires limit > 0 && IsWalk(table, limit, FirstHidden, before, orders)
    ensures multiset(Collected(limit, FirstHidden, orders)) == multiset(Matching(table, before))
      <==> |Matching(table, before)| <= limit
  {
    var order := orders[0];
    CursorOf(table, limit, FirstHidden, before, order);
    assert |order| == |multiset(order)| == |multiset(Matching(table, before))| == |Matching(table, before)|;
    if |order| <= limit {
      assert Collected(limit, FirstHidden, orders) == order + [];
    } else {
      NeverTwice(table, limit, FirstHidden, Some(order[limit].ts), orders[1..]);
      FirstHiddenIsLost(order, limit, Collected(limit, FirstHidden, orders[1..]));
    }
  }

  // ---- distinct ts: the exact law --------------------------------------------

  ghost predicate DistinctTimes(rows: seq<Event>) {
    forall i, j :: 0 <= i < j < |rows| ==> rows[i].ts != rows[j].ts
  }

  lemma CountedTwice(s: seq<Event>, i: nat, j: nat)
    requires i < j < |s| && s[i] == s[j]
    ensures multiset(s)[s[i]] >= 2
  {
    assert s == s[..j] + s[j..];
    assert s[..j][i] == s[i] && s[j..][0] == s[i];
  }

  lemma CountedOnce(s: seq<Event>, x: Event)
    requires DistinctTimes(s) && x in s
    ensures multiset(s)[x] == 1
  {
    var k :| 0 <= k < |s| && s[k] == x;
    assert s == s[..k] + [x] + s[k + 1..];
    assert x !in s[..k] && x !in s[k + 1..];
  }

  lemma DistinctPermuted(a: seq<Event>, b: seq<Event>)
    requires DistinctTimes(a) && multiset(a) == multiset(b)
    ensures DistinctTimes(b) && TieFree(NewestFirst, b)
  {
    forall x, y | x in b && y in b && x.ts == y.ts ensures x == y {
      assert x in multiset(a) && y in multiset(a);
    }
    forall i, j | 0 <= i < j < |b| ensures b[i].ts != b[j].ts {
      if b[i] == b[j] {
        CountedTwice(b, i, j);
        assert b[i] in multiset(a);
        CountedOnce(a, b[i]);
      }
    }
  }

  lemma TailBelow(order: seq<Event>, k: nat)
    requires Sorted(NewestFirst, order) && DistinctTimes(order) && k < |order|
    ensures AllBelow(order[k + 1..], order[k].ts)
    ensures forall i :: 0 <= i <= k ==> order[i].ts >= order[k].ts
    ensures DistinctTimes(order[k + 1..]) && Sorted(NewestFirst, order[k + 1..])
  {
    forall i | k < i < |order| ensures order[i].ts < order[k].ts {
      assert NewestFirst(order[k], order[i]);
    }
    forall i | 0 <= i <= k ensures order[i].ts >= order[k].ts {
      assert i == k || NewestFirst(order[i], order[k]);
    }
  }

  lemma SplitCount(head: seq<Event>, tail: seq<Event>, c: int, e: Event)
    requires AllBelow(tail, c) && forall i :: 0 <= i < |head| ==> head[i].ts >= c
    ensures multiset(tail)[e] == if e.ts < c then multiset(head + tail)[e] else 0
  {
    assert multiset(head + tail)[e] == multiset(head)[e] + multiset(tail)[e];
    if e in multiset(head) {
      assert e in head;
    }
    if e in multiset(tail) {
      assert e in tail;
    }
  }

  lemma TailLowered(order: seq<Event>, k: nat)
    requires Sorted(NewestFirst, order) && DistinctTimes(order) && k < |order|
    ensures Lowered(multiset(order), multiset(order[k + 1..]), order[k].ts)
  {
    TailBelow(order, k);
    assert order == order[..k + 1] + order[k + 1..];
    forall e ensures multiset(order[k + 1..])[e] == if e.ts < order[k].ts then multiset(order)[e] else 0 {
      SplitCount(order[..k + 1], order[k + 1..], order[k].ts, e);
    }
  }

  lemma LoweredUnique(all: multiset<Event>, a: multiset<Event>, b: multiset<Event>, c: int)
    requires Lowered(all, a, c) && Lowered(all, b, c)
    ensures a == b
  {
    forall e ensures a[e] == b[e] {
    }
  }

  /** The next answer is what the previous order has left below the cursor. */
  lemma NextAnswer(table: seq<Event>, before: Option<int>, order: seq<Event>, k: nat, next: seq<Event>)
    requires IsAnswer(table, before, order) && DistinctTimes(order) && k < |order|
    requires IsAnswer(table, Some(order[k].ts), next)
    ensures next == order[k + 1..]
  {
    var c, tail := order[k].ts, order[k + 1..];
    AnswerBelow(table, before, order);
    TailBelow(order, k);
    TailLowered(order, k);
    Narrowed(table, before, c);
    LoweredUnique(multiset(order), multiset(tail), multiset(next), c);
    DistinctPermuted(tail, next);
    StrictUnique(NewestFirst, next, tail);
  }

  /** What the code's cursor keeps of rows in descending order: it drops one row per page boundary. */
  function Kept(order: seq<Event>, limit: nat): seq<Event>
    requires limit > 0
    decreases |order|
  {
    if |order| <= limit then order else order[..limit] + Kept(order[limit + 1..], limit)
  }

  /** A walk with more than one page: where its second page starts, and what it collects. */
  lemma WalkNext(table: seq<Event>, limit: nat, cursor: Cursor, before: Option<int>, orders: seq<seq<Event>>)
    requires limit > 0 && IsWalk(table, limit, cursor, before, orders) && |orders[0]| > limit
    ensures var k := if cursor.FirstHidden? then limit else limit - 1;
      && |orders| > 1
      && IsWalk(table, limit, cursor, Some(orders[0][k].ts), orders[1..])
      && IsAnswer(table, Some(orders[0][k].ts), orders[1])
    ensures Collected(limit, cursor, orders) == orders[0][..limit] + Collected(limit, cursor, orders[1..])
  {
    CursorOf(table, limit, cursor, before, orders[0]);
  }

  lemma WalkLast(table: seq<Event>, limit: nat, cursor: Cursor, before: Option<int>, orders: seq<seq<Event>>)
    requires limit > 0 && IsWalk(table, limit, cursor, before, orders) && |orders[0]| <= limit
    ensures Collected(limit, cursor, orders) == orders[0]
  {
    CursorOf(table, limit, cursor, before, orders[0]);
    assert Collected(limit, cursor, orders) == orders[0] + [];
  }

  lemma {:induction false} WalkKeeps(table: seq<Event>, limit: nat, before: Option<int>, orders: seq<seq<Event>>)
    requires limit > 0 && IsWalk(table, limit, FirstHidden, before, orders) && DistinctTimes(orders[0])
    ensures Collected(limit, FirstHidden, orders) == Kept(orders[0], limit)
    decreases |orders|
  {
    var order := orders[0];
    if |order| <= limit {
      WalkLast(table, limit, FirstHidden, before, orders);
    } else {
      WalkNext(table, limit, FirstHidden, before, orders);
      NextAnswer(table, before, order, limit, orders[1]);
      WalkKeeps(table, limit, Some(order[limit].ts), orders[1..]);
    }
  }

  lemma {:induction false} WalkComplete(table: seq<Event>, limit: nat, before: Option<int>, orders: seq<seq<Event>>)
    requires limit > 0 && IsWalk(table, limit, LastShown, before, orders) && DistinctTimes(orders[0])
    ensures Collected(limit, LastShown, orders) == orders[0]
    decreases |orders|
  {
    var order := orders[0];
    if |order| <= limit {
      WalkLast(table, limit, LastShown, before, orders);
    } else {
      assert order[..limit] + order[limit..] == order;
      WalkNext(table, limit, LastShown, before, orders);
      NextAnswer(table, before, order, limit - 1, orders[1]);
      WalkComplete(table, limit, Some(order[limit - 1].ts), orders[1..]);
    }
  }

  lemma {:induction false} AtLeastOnce(a: int, n: int)
    requires a >= 1 && n > 0
    ensures a * n >= n
  {
    Distribute(a - 1, n);
    if a > 1 {
      AtLeastOnce(a - 1, n);
    }
  }

  lemma SameQuotient(n: int, q: int, r: int, q': int, r': int)
    requires n > 0 && q * n + r == q' * n + r' && 0 <= r < n && 0 <= r' < n
    ensures q == q' && r == r'
  {
    assert (q - q') * n == q * n - q' * n;
    assert (q' - q) * n == q' * n - q * n;
    if q > q' {
      AtLeastOnce(q - q', n);
    } else if q < q' {
      AtLeastOnce(q' - q, n);
    }
  }

  lemma DivUnique(x: int, n: int, q: int, r: int)
    requires n > 0 && x == q * n + r && 0 <= r < n
    ensures x / n == q && x % n == r
  {
    SameQuotient(n, x / n, x % n, q, r);
  }

  lemma DivStep(i: nat, n: nat)
    requires n > 0 && i >= n
    ensures (i - n) / n == i / n - 1 && (i - n) % n == i % n
  {
    var q, r := i / n, i % n;
    assert i - n == (q - 1) * n + r;
    DivUnique(i - n, n, q - 1, r);
  }

  /** Index i of the rows is either the one dropped at its page boundary or kept in place. */
  ghost predicate KeptAt(order: seq<Event>, limit: nat, i: nat)
    requires limit > 0 && i < |order|
  {
    i % (limit + 1) != limit ==>
      && 0 <= i - i / (limit + 1) < |Kept(order, limit)|
      && Kept(order, limit)[i - i / (limit + 1)] == order[i]
  }

  /** Of n rows, Kept has n - n / (limit + 1); index i is missing exactly when i mod (limit + 1) is limit. */
  lemma {:induction false} KeptLaw(order: seq<Event>, limit: nat, i: nat)
    requires limit > 0
    ensures |Kept(order, limit)| == |order| - |order| / (limit + 1)
    ensures i < |order| ==> KeptAt(order, limit, i)
    decreases |order|
  {
    var n := limit + 1;
    if |order| > limit {
      var tail := order[n..];
      DivStep(|order|, n);
      KeptLaw(tail, limit, if i >= n then i - n else 0);
      if n <= i < |order| {
        DivStep(i, n);
        assert tail[i - n] == order[i];
      } else if i < n {
        DivUnique(i, n, 0, i);
      }
    } else {
      DivUnique(|order|, n, 0, |order|);
      if i < |order| {
        DivUnique(i, n, 0, i);
      }
    }
  }

  /**
   * Over rows with distinct ts, the walk returns exactly the rows at
   * descending index i with i mod (limit + 1) other than limit; taking the
   * cursor from the last row shown instead returns every row once.
   */
  lemma CursorWalkLaw(table: seq<Event>, limit: nat, before: Option<int>, orders: seq<seq<Event>>,
                      repaired: seq<seq<Event>>)
    requires limit > 0 && DistinctTimes(Matching(table, before))
    requires IsWalk(table, limit, FirstHidden, before, orders)
    requires IsWalk(table, limit, LastShown, before, repaired)
    ensures var all, got := Collected(limit, LastShown, repaired), Collected(limit, FirstHidden, orders);
      && multiset(all) == multiset(Matching(table, before))
      && |got| == |all| - |all| / (limit + 1)
      && got == Kept(all, limit)
      && forall i {:trigger KeptAt(all, limit, i)} :: 0 <= i < |all| ==> KeptAt(all, limit, i)
  {
    DistinctPermuted(Matching(table, before), orders[0]);
    DistinctPermuted(Matching(table, before), repaired[0]);
    WalkKeeps(table, limit, before, orders);
    WalkComplete(table, limit, before, repaired);
    StrictUnique(NewestFirst, orders[0], repaired[0]);
    KeptLaw(orders[0], limit, 0);
    forall i | 0 <= i < |orders[0]| ensures KeptAt(orders[0], limit, i) {
      KeptLaw(orders[0], limit, i);
    }
  }
}
