/**
 * The daily trading report (backend/app/api/aurum.py:285-356): SQL aggregates
 * over the closed positions of one UTC day, with reals for floats.
 */
module DailyReport {
  import opened Prelude
  import opened PaperEvents

  const DAY := 86_400_000_000

  /** pnl > 0, pnl <= 0, or no pnl in the payload. */
  datatype Kind = Win | Loss | Unpriced

  datatype Group = Group(nTrades: nat, totalPnl: real)

  datatype Report = Report(nTrades: nat, nWins: nat, nLosses: nat, winRate: Option<real>, totalPnl: real,
                           avgWin: Option<real>, avgLoss: Option<real>, perInstrument: map<string, Group>)

  function KindOf(e: Event): Kind {
    match e.payload.pnl
    case None => Unpriced
    case Some(pnl) => if pnl > 0.0 then Win else Loss
  }

  function Amount(e: Event): real {
    match e.payload.pnl
    case None => 0.0
    case Some(pnl) => pnl
  }

  predicate InDay(e: Event, start: int, end: int) {
    e.eventType == "position_closed" && start <= e.ts < end
  }

  function Closed(table: seq<Event>, start: int, end: int): seq<Event> {
    if table == [] then []
    else
      var last := table[|table| - 1];
      Closed(table[..|table| - 1], start, end) + if InDay(last, start, end) then [last] else []
  }

  function Count(rows: seq<Event>, kind: Kind): nat {
    if rows == [] then 0
    else Count(rows[..|rows| - 1], kind) + if KindOf(rows[|rows| - 1]) == kind then 1 else 0
  }

  function SumOf(rows: seq<Event>, kind: Kind): real {
    if rows == [] then 0.0
    else SumOf(rows[..|rows| - 1], kind) + if KindOf(rows[|rows| - 1]) == kind then Amount(rows[|rows| - 1]) else 0.0
  }

  /** COALESCE(SUM(pnl), 0): rows without pnl do not contribute. */
  function Total(rows: seq<Event>): real {
    if rows == [] then 0.0 else Total(rows[..|rows| - 1]) + Amount(rows[|rows| - 1])
  }

  /** AVG with a FILTER is NULL when nothing passes. */
  function Mean(sum: real, n: nat): Option<real> {
    if n == 0 then None else Some(sum / n as real)
  }

  /** A mean times the number of its terms. */
  function Product(n: nat, mean: Option<real>): real {
    if mean.None? then 0.0 else n as real * mean.value
  }

  function AddTo(groups: map<string, Group>, e: Event): map<string, Group> {
    if e.instrument.None? then groups
    else
      var key := e.instrument.value;
      var g := if key in groups then groups[key] else Group(0, 0.0);
      groups[key := Group(g.nTrades + 1, g.totalPnl + Amount(e))]
  }

  /** GROUP BY instrument over the rows that have one. */
  function Groups(rows: seq<Event>): map<string, Group> {
    if rows == [] then map[] else AddTo(Groups(rows[..|rows| - 1]), rows[|rows| - 1])
  }

  function ReportOver(table: seq<Event>, start: int, end: int): Report {
    var rows := Closed(table, start, end);
    Report(|rows|, Count(rows, Win), Count(rows, Loss),
           Mean(Count(rows, Win) as real, |rows|), Total(rows),
           Mean(SumOf(rows, Win), Count(rows, Win)), Mean(SumOf(rows, Loss), Count(rows, Loss)), Groups(rows))
  }

  function DailyReport(table: seq<Event>, dayStart: int): Report {
    ReportOver(table, dayStart, dayStart + DAY)
  }

  // ---- wins, losses and totals -----------------------------------------------

  lemma {:induction false} Partition(rows: seq<Event>)
    ensures Count(rows, Win) + Count(rows, Loss) + Count(rows, Unpriced) == |rows|
    ensures SumOf(rows, Win) + SumOf(rows, Loss) == Total(rows)
    ensures Count(rows, Win) > 0 ==> SumOf(rows, Win) > 0.0
    ensures Count(rows, Win) == 0 ==> SumOf(rows, Win) == 0.0
    ensures SumOf(rows, Loss) <= 0.0
    ensures Count(rows, Loss) == 0 ==> SumOf(rows, Loss) == 0.0
  {
    if rows != [] {
      Partition(rows[..|rows| - 1]);
    }
  }

  lemma MeanFacts(sum: real, n: nat)
    requires n == 0 ==> sum == 0.0
    ensures Product(n, Mean(sum, n)) == sum
    ensures Mean(sum, n).Some? <==> n > 0
    ensures n > 0 && sum > 0.0 ==> Mean(sum, n).value > 0.0
    ensures n > 0 && sum <= 0.0 ==> Mean(sum, n).value <= 0.0
    ensures n > 0 && 0.0 <= sum <= n as real ==> 0.0 <= Mean(sum, n).value <= 1.0
  {
    if n > 0 {
      var d := n as real;
      assert d * (sum / d) == sum;
    }
  }

  /**
   * Every trade of the day is a win, a loss or has no pnl; the averages times
   * their counts make up the total; the win rate is the share of wins.
   */
  lemma ReportConserves(table: seq<Event>, start: int, end: int)
    ensures var r, rows := ReportOver(table, start, end), Closed(table, start, end);
      && r.nWins + r.nLosses + Count(rows, Unpriced) == r.nTrades == |rows|
      && Product(r.nWins, r.avgWin) + Product(r.nLosses, r.avgLoss) == r.totalPnl
      && (r.avgWin.Some? <==> r.nWins > 0) && (r.avgWin.Some? ==> r.avgWin.value > 0.0)
      && (r.avgLoss.Some? <==> r.nLosses > 0) && (r.avgLoss.Some? ==> r.avgLoss.value <= 0.0)
      && (r.winRate.Some? <==> r.nTrades > 0)
      && (r.winRate.Some? ==> 0.0 <= r.winRate.value <= 1.0)
      && Product(r.nTrades, r.winRate) == r.nWins as real
  {
    var rows := Closed(table, start, end);
    Partition(rows);
    MeanFacts(SumOf(rows, Win), Count(rows, Win));
    MeanFacts(SumOf(rows, Loss), Count(rows, Loss));
    MeanFacts(Count(rows, Win) as real, |rows|);
  }

  // ---- what one row does -----------------------------------------------------

  function Added(b: bool, x: real): real {
    if b then x else 0.0
  }

  lemma SumsNext(rows: seq<Event>, e: Event)
    ensures Count(rows + [e], Win) == Count(rows, Win) + (if KindOf(e) == Win then 1 else 0)
    ensures Count(rows + [e], Loss) == Count(rows, Loss) + (if KindOf(e) == Loss then 1 else 0)
    ensures Total(rows + [e]) == Total(rows) + Amount(e)
    ensures SumOf(rows + [e], Win) == SumOf(rows, Win) + Added(KindOf(e) == Win, Amount(e))
    ensures SumOf(rows + [e], Loss) == SumOf(rows, Loss) + Added(KindOf(e) == Loss, Amount(e))
    ensures Groups(rows + [e]) == AddTo(Groups(rows), e)
  {
    assert (rows + [e])[..|rows|] == rows;
  }

  lemma MeansMultiplied(table: seq<Event>, start: int, end: int)
    ensures var r, rows := ReportOver(table, start, end), Closed(table, start, end);
      && Product(r.nWins, r.avgWin) == SumOf(rows, Win)
      && Product(r.nLosses, r.avgLoss) == SumOf(rows, Loss)
  {
    var rows := Closed(table, start, end);
    Partition(rows);
    MeanFacts(SumOf(rows, Win), Count(rows, Win));
    MeanFacts(SumOf(rows, Loss), Count(rows, Loss));
  }

  /** A report over nothing. */
  lemma EmptyReport(start: int, end: int)
    ensures ReportOver([], start, end) == Report(0, 0, 0, None, 0.0, None, None, map[])
  {
  }

  /**
   * What one more row of the table does to a report. A closed position of the
   * interval counts once, with exactly its pnl: as a win above 0, as a loss at
   * 0 or below, with neither if it has none, and in the group of its instrument
   * if it has one. Any other row changes nothing.
   */
  lemma OneMoreRow(table: seq<Event>, e: Event, start: int, end: int, key: string)
    ensures var r, s := ReportOver(table, start, end), ReportOver(table + [e], start, end);
      if e.eventType == "position_closed" && start <= e.ts && e.ts < end then
        var priced := e.payload.pnl.Some?;
        var pnl := if priced then e.payload.pnl.value else 0.0;
        && s.nTrades == r.nTrades + 1 && s.totalPnl == r.totalPnl + pnl
        && s.nWins == r.nWins + (if priced && pnl > 0.0 then 1 else 0)
        && s.nLosses == r.nLosses + (if priced && pnl <= 0.0 then 1 else 0)
        && Product(s.nWins, s.avgWin) == Product(r.nWins, r.avgWin) + (if pnl > 0.0 then pnl else 0.0)
        && Product(s.nLosses, s.avgLoss) == Product(r.nLosses, r.avgLoss) + (if pnl <= 0.0 then pnl else 0.0)
        && (key in s.perInstrument <==> key in r.perInstrument || e.instrument == Some(key))
        && (key in s.perInstrument ==>
              var was := if key in r.perInstrument then r.perInstrument[key] else Group(0, 0.0);
              s.perInstrument[key] ==
                if e.instrument == Some(key) then Group(was.nTrades + 1, was.totalPnl + pnl) else was)
      else s == r
  {
    assert (table + [e])[..|table|] == table;
    assert Closed(table + [e], start, end) ==
      if InDay(e, start, end) then Closed(table, start, end) + [e] else Closed(table, start, end);
    SumsNext(Closed(table, start, end), e);
    MeansMultiplied(table, start, end);
    MeansMultiplied(table + [e], start, end);
  }

  /** The report of a day covers its 24 hours, counted in microseconds. */
  lemma DayIsReported(table: seq<Event>, dayStart: int)
    ensures DailyReport(table, dayStart) == ReportOver(table, dayStart, dayStart + 24 * 60 * 60 * 1_000_000)
  {
  }

  // ---- instruments -----------------------------------------------------------

  function ForInstrument(rows: seq<Event>, key: string): seq<Event> {
    if rows == [] then []
    else
      var last := rows[|rows| - 1];
      ForInstrument(rows[..|rows| - 1], key) + if last.instrument == Some(key) then [last] else []
  }

  function WithInstrument(rows: seq<Event>): seq<Event> {
    if rows == [] then []
    else
      var last := rows[|rows| - 1];
      WithInstrument(rows[..|rows| - 1]) + if last.instrument.Some? then [last] else []
  }

  lemma ForInstrumentNext(rows: seq<Event>, key: string)
    requires rows != []
    ensures var mine, last := ForInstrument(rows[..|rows| - 1], key), rows[|rows| - 1];
      if last.instrument == Some(key)
      then |ForInstrument(rows, key)| == |mine| + 1 && Total(ForInstrument(rows, key)) == Total(mine) + Amount(last)
      else ForInstrument(rows, key) == mine
  {
    var mine, last := ForInstrument(rows[..|rows| - 1], key), rows[|rows| - 1];
    assert (mine + [last])[..|mine|] == mine;
    assert mine + [] == mine;
  }

  function GroupAt(groups: map<string, Group>, key: string): Group {
    if key in groups then groups[key] else Group(0, 0.0)
  }

  function Plus(a: Group, b: Group): Group {
    Group(a.nTrades + b.nTrades, a.totalPnl + b.totalPnl)
  }

  lemma AddToAt(groups: map<string, Group>, e: Event, key: string)
    ensures GroupAt(AddTo(groups, e), key) ==
      if e.instrument == Some(key) then Plus(GroupAt(groups, key), Group(1, Amount(e))) else GroupAt(groups, key)
  {
  }

  lemma {:induction false} GroupAtIs(rows: seq<Event>, key: string)
    ensures GroupAt(Groups(rows), key) == Group(|ForInstrument(rows, key)|, Total(ForInstrument(rows, key)))
  {
    if rows != [] {
      GroupAtIs(rows[..|rows| - 1], key);
      ForInstrumentNext(rows, key);
      AddToAt(Groups(rows[..|rows| - 1]), rows[|rows| - 1], key);
    }
  }

  lemma {:induction false} GroupThere(rows: seq<Event>, key: string)
    ensures key in Groups(rows) <==> ForInstrument(rows, key) != []
  {
    if rows != [] {
      GroupThere(rows[..|rows| - 1], key);
      ForInstrumentNext(rows, key);
    }
  }

  /** Each group counts and sums exactly the rows of its instrument. */
  lemma GroupMeaning(rows: seq<Event>, key: string)
    ensures key in Groups(rows) <==> ForInstrument(rows, key) != []
    ensures key in Groups(rows) ==>
      Groups(rows)[key] == Group(|ForInstrument(rows, key)|, Total(ForInstrument(rows, key)))
    ensures ForInstrument(rows, key) == [] ==> Total(ForInstrument(rows, key)) == 0.0
  {
    GroupAtIs(rows, key);
    GroupThere(rows, key);
  }

  /** The sum of all groups; the order of summation does not matter. */
  ghost function SumGroups(groups: map<string, Group>): Group {
    if groups == map[] then Group(0, 0.0)
    else
      var key :| key in groups;
      var rest := SumGroups(groups - {key});
      Group(rest.nTrades + groups[key].nTrades, rest.totalPnl + groups[key].totalPnl)
  }

  lemma {:induction false} SumWithout(groups: map<string, Group>, key: string)
    requires key in groups
    ensures SumGroups(groups) == Plus(SumGroups(groups - {key}), groups[key])
    decreases |groups|
  {
    var k :| k in groups && SumGroups(groups) == Plus(SumGroups(groups - {k}), groups[k]);
    if k != key {
      SumWithout(groups - {k}, key);
      SumWithout(groups - {key}, k);
      assert groups - {k} - {key} == groups - {key} - {k};
      var both := SumGroups(groups - {key} - {k});
      assert SumGroups(groups - {k}) == Plus(both, groups[key]);
      assert SumGroups(groups - {key}) == Plus(both, groups[k]);
      assert SumGroups(groups) == Plus(Plus(both, groups[key]), groups[k]);
      assert Plus(Plus(both, groups[key]), groups[k]) == Plus(Plus(both, groups[k]), groups[key]);
    }
  }

  lemma SumUpdated(groups: map<string, Group>, key: string, g: Group)
    ensures var before := if key in groups then groups[key] else Group(0, 0.0);
      && SumGroups(groups[key := g]).nTrades + before.nTrades == SumGroups(groups).nTrades + g.nTrades
      && SumGroups(groups[key := g]).totalPnl + before.totalPnl == SumGroups(groups).totalPnl + g.totalPnl
  {
    SumWithout(groups[key := g], key);
    assert groups[key := g] - {key} == groups - {key};
    if key in groups {
      SumWithout(groups, key);
    } else {
      assert groups - {key} == groups;
    }
  }

  /** The groups together account for exactly the rows that have an instrument. */
  lemma {:induction false} GroupsConserve(rows: seq<Event>)
    ensures SumGroups(Groups(rows)) == Group(|WithInstrument(rows)|, Total(WithInstrument(rows)))
  {
    if rows != [] {
      var front, last := rows[..|rows| - 1], rows[|rows| - 1];
      GroupsConserve(front);
      var those := WithInstrument(front);
      assert (those + [last])[..|those|] == those;
      assert those + [] == those;
      if last.instrument.Some? {
        var key, groups := last.instrument.value, Groups(front);
        SumUpdated(groups, key, AddTo(groups, last)[key]);
      }
    }
  }

  // ---- consecutive intervals -------------------------------------------------

  lemma ClosedNext(table: seq<Event>, start: int, end: int)
    requires table != []
    ensures var last, now := table[|table| - 1], Closed(table, start, end);
      var was := Closed(table[..|table| - 1], start, end);
      if InDay(last, start, end) then now != [] && now[|now| - 1] == last && now[..|now| - 1] == was else now == was
  {
    var last, was, now := table[|table| - 1], Closed(table[..|table| - 1], start, end), Closed(table, start, end);
    assert InDay(last, start, end) ==> (was + [last])[..|was|] == was;
  }

  lemma {:induction false} CountsAdd(table: seq<Event>, a: int, b: int, c: int, kind: Kind)
    requires a <= b <= c
    ensures |Closed(table, a, c)| == |Closed(table, a, b)| + |Closed(table, b, c)|
    ensures Count(Closed(table, a, c), kind) == Count(Closed(table, a, b), kind) + Count(Closed(table, b, c), kind)
  {
    if table != [] {
      CountsAdd(table[..|table| - 1], a, b, c, kind);
      ClosedNext(table, a, c);
      ClosedNext(table, a, b);
      ClosedNext(table, b, c);
    }
  }

  lemma {:induction false} TotalsAdd(table: seq<Event>, a: int, b: int, c: int)
    requires a <= b <= c
    ensures Total(Closed(table, a, c)) == Total(Closed(table, a, b)) + Total(Closed(table, b, c))
  {
    if table != [] {
      TotalsAdd(table[..|table| - 1], a, b, c);
      ClosedNext(table, a, c);
      ClosedNext(table, a, b);
      ClosedNext(table, b, c);
    }
  }

  /** The group of one instrument over an interval, as the report over it shows it. */
  function GroupOver(table: seq<Event>, start: int, end: int, key: string): Group {
    GroupAt(Groups(Closed(table, start, end)), key)
  }

  lemma GroupNext(table: seq<Event>, start: int, end: int, key: string)
    requires table != []
    ensures var front, last := table[..|table| - 1], table[|table| - 1];
      GroupOver(table, start, end, key) ==
        if InDay(last, start, end) && last.instrument == Some(key)
        then Plus(GroupOver(front, start, end, key), Group(1, Amount(last)))
        else GroupOver(front, start, end, key)
  {
    var front, last := table[..|table| - 1], table[|table| - 1];
    ClosedNext(table, start, end);
    AddToAt(Groups(Closed(front, start, end)), last, key);
  }

  function TradesOf(table: seq<Event>, start: int, end: int, key: string): nat {
    if table == [] then 0
    else
      var last := table[|table| - 1];
      TradesOf(table[..|table| - 1], start, end, key) +
      if InDay(last, start, end) && last.instrument == Some(key) then 1 else 0
  }

  function PnlOf(table: seq<Event>, start: int, end: int, key: string): real {
    if table == [] then 0.0
    else
      var last := table[|table| - 1];
      PnlOf(table[..|table| - 1], start, end, key) +
      if InDay(last, start, end) && last.instrument == Some(key) then Amount(last) else 0.0
  }

  /** The group of an instrument counts and sums its closed positions of the interval. */
  lemma {:induction false} GroupOverIs(table: seq<Event>, start: int, end: int, key: string)
    ensures GroupOver(table, start, end, key) == Group(TradesOf(table, start, end, key), PnlOf(table, start, end, key))
  {
    if table != [] {
      GroupOverIs(table[..|table| - 1], start, end, key);
      GroupNext(table, start, end, key);
    }
  }

  lemma {:induction false} TradesAdd(table: seq<Event>, a: int, b: int, c: int, key: string)
    requires a <= b <= c
    ensures TradesOf(table, a, c, key) == TradesOf(table, a, b, key) + TradesOf(table, b, c, key)
    ensures PnlOf(table, a, c, key) == PnlOf(table, a, b, key) + PnlOf(table, b, c, key)
  {
    if table != [] {
      TradesAdd(table[..|table| - 1], a, b, c, key);
    }
  }

  lemma GroupsAdd(table: seq<Event>, a: int, b: int, c: int, key: string)
    requires a <= b <= c
    ensures GroupOver(table, a, c, key) == Plus(GroupOver(table, a, b, key), GroupOver(table, b, c, key))
  {
    calc {
      GroupOver(table, a, c, key);
      { GroupOverIs(table, a, c, key); }
      Group(TradesOf(table, a, c, key), PnlOf(table, a, c, key));
      { TradesAdd(table, a, b, c, key); }
      Plus(Group(TradesOf(table, a, b, key), PnlOf(table, a, b, key)),
           Group(TradesOf(table, b, c, key), PnlOf(table, b, c, key)));
      { GroupOverIs(table, a, b, key); GroupOverIs(table, b, c, key); }
      Plus(GroupOver(table, a, b, key), GroupOver(table, b, c, key));
    }
  }

  /**
   * The reports of two consecutive days add up to the report over both, in
   * counts and totals, overall and for every instrument.
   */
  lemma ReportsAdd(table: seq<Event>, day: int, key: string)
    ensures var r, s := DailyReport(table, day), DailyReport(table, day + DAY);
      var both := ReportOver(table, day, day + 2 * DAY);
      && both.nTrades == r.nTrades + s.nTrades
      && both.nWins == r.nWins + s.nWins
      && both.nLosses == r.nLosses + s.nLosses
      && both.totalPnl == r.totalPnl + s.totalPnl
    ensures var r, s := DailyReport(table, day), DailyReport(table, day + DAY);
      var both := ReportOver(table, day, day + 2 * DAY);
      GroupAt(both.perInstrument, key) == Plus(GroupAt(r.perInstrument, key), GroupAt(s.perInstrument, key))
  {
    CountsAdd(table, day, day + DAY, day + 2 * DAY, Win);
    CountsAdd(table, day, day + DAY, day + 2 * DAY, Loss);
    TotalsAdd(table, day, day + DAY, day + 2 * DAY);
    GroupsAdd(table, day, day + DAY, day + 2 * DAY, key);
  }
}
