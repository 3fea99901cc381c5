/**
 * Filtering and sorting one page of closed trades in the browser
 * (frontend/src/app/(authed)/dashboard/trades/page.tsx:282-345). Case folding
 * and locale order come from the engine and are parameters.
 */
module TradeTable {
  import opened Prelude
  import opened Sorting

  datatype Row = Row(
    id: nat, ts: int, instrument: Option<string>, side: string, direction: string, pnl: Option<real>,
    durationSeconds: Option<real>, openTime: Option<int>, closeTime: Option<int>)

  /** toUpperCase, and whether localeCompare puts the first string after the second. */
  datatype Locale = Locale(upper: string -> string, after: (string, string) -> bool)

  ghost predicate IsLocale(loc: Locale) {
    TotalPreorder((a, b) => !loc.after(a, b))
  }

  datatype SortKey = ByTs | ByInstrument | ByPnl | ByHold
  datatype SortDir = Asc | Desc

  /** A date field: not given, given but not a date, or an instant in milliseconds. */
  datatype Bound = Unset | Invalid | At(ms: int)

  datatype Filters = Filters(instruments: seq<string>, side: string, start: Bound, end: Bound,
                             key: SortKey, dir: SortDir)

  // ---- filtering -------------------------------------------------------------

  datatype Stage = Instruments(names: seq<string>) | Side(side: string) | From(bound: Bound) | To(bound: Bound)

  predicate Passes(loc: Locale, stage: Stage, r: Row) {
    match stage
    case Instruments(names) =>
      r.instrument.Some? && r.instrument.value != "" &&
      exists i :: 0 <= i < |names| && loc.upper(names[i]) == loc.upper(r.instrument.value)
    case Side(side) => loc.upper(if r.side != "" then r.side else r.direction) == side
    case From(bound) => bound.At? && r.ts >= bound.ms
    case To(bound) => bound.At? && r.ts <= bound.ms
  }

  function Filtered(loc: Locale, stage: Stage, rows: seq<Row>): seq<Row> {
    if rows == [] then []
    else
      var last := rows[|rows| - 1];
      Filtered(loc, stage, rows[..|rows| - 1]) + if Passes(loc, stage, last) then [last] else []
  }

  /** One stage after another. */
  function Staged(loc: Locale, stages: seq<Stage>, rows: seq<Row>): seq<Row> {
    if stages == [] then rows
    else Filtered(loc, stages[|stages| - 1], Staged(loc, stages[..|stages| - 1], rows))
  }

  function StageIf(active: bool, stage: Stage): seq<Stage> {
    if active then [stage] else []
  }

  /** The stages that are active, in the order the code applies them. */
  function Active(f: Filters): seq<Stage> {
    StageIf(f.instruments != [], Instruments(f.instruments)) +
    StageIf(f.side != "all", Side(f.side)) +
    StageIf(f.start != Unset, From(f.start)) +
    StageIf(f.end != Unset, To(f.end))
  }

  predicate PassesAll(loc: Locale, stages: seq<Stage>, r: Row) {
    forall i :: 0 <= i < |stages| ==> Passes(loc, stages[i], r)
  }

  /** The rows that meet every condition, in their order. */
  function Kept(loc: Locale, stages: seq<Stage>, rows: seq<Row>): seq<Row> {
    if rows == [] then []
    else
      var last := rows[|rows| - 1];
      Kept(loc, stages, rows[..|rows| - 1]) + if PassesAll(loc, stages, last) then [last] else []
  }

  // ---- sorting ---------------------------------------------------------------

  /** Math.round of a number of thousandths. */
  function RoundThousandths(ms: int): int {
    (ms + 500) / 1000
  }

  function HoldSeconds(r: Row): Option<real> {
    if r.durationSeconds.Some? then r.durationSeconds
    else if r.openTime.Some? && r.closeTime.Some? then
      Some(RoundThousandths(r.closeTime.value - r.openTime.value) as real)
    else None
  }

  function OrZero(v: Option<real>): real {
    if v.Some? then v.value else 0.0
  }

  /** The comparator gives a positive number. */
  predicate Above(loc: Locale, key: SortKey, a: Row, b: Row) {
    match key
    case ByTs => a.ts > b.ts
    case ByInstrument =>
      loc.after(if a.instrument.Some? then a.instrument.value else "",
                if b.instrument.Some? then b.instrument.value else "")
    case ByPnl => OrZero(a.pnl) > OrZero(b.pnl)
    case ByHold => OrZero(HoldSeconds(a)) > OrZero(HoldSeconds(b))
  }

  predicate InOrder(loc: Locale, key: SortKey, dir: SortDir, a: Row, b: Row) {
    if dir == Asc then !Above(loc, key, a, b) else !Above(loc, key, b, a)
  }

  function Order(loc: Locale, key: SortKey, dir: SortDir): (Row, Row) -> bool {
    (a: Row, b: Row) => InOrder(loc, key, dir, a, b)
  }

  /** Array.prototype.sort on a copy: the given rows stay as they are. */
  method SortRows(loc: Locale, rows: seq<Row>, key: SortKey, dir: SortDir) returns (copy: array<Row>)
    ensures fresh(copy) && copy[..] == Sort(Order(loc, key, dir), rows)
  {
    copy := new Row[|rows|](i requires 0 <= i < |rows| => rows[i]);
    assert copy[..] == rows;
    SortInPlace(Order(loc, key, dir), copy);
  }

  method FilterRows(loc: Locale, stage: Stage, rows: seq<Row>) returns (out: seq<Row>)
    ensures out == Filtered(loc, stage, rows)
  {
    out := [];
    for i := 0 to |rows|
      invariant out == Filtered(loc, stage, rows[..i])
    {
      assert rows[..i + 1][..i] == rows[..i];
      if Passes(loc, stage, rows[i]) {
        out := out + [rows[i]];
      }
    }
    assert rows[..|rows|] == rows;
  }

  /** One "if" of applyClientFilters, which may rebind out. */
  method FilterIf(loc: Locale, active: bool, stage: Stage, out: seq<Row>, ghost before: seq<Stage>,
                  ghost rows: seq<Row>)
    returns (next: seq<Row>)
    requires out == Staged(loc, before, rows)
    ensures next == Staged(loc, before + StageIf(active, stage), rows)
  {
    if active {
      StagedNext(loc, before, stage, rows);
      next := FilterRows(loc, stage, out);
    } else {
      assert before + [] == before;
      next := out;
    }
  }

  method ApplyClientFilters(loc: Locale, rows: seq<Row>, f: Filters) returns (sorted: array<Row>)
    ensures fresh(sorted) && sorted[..] == Sort(Order(loc, f.key, f.dir), Kept(loc, Active(f), rows))
  {
    ghost var s1 := [] + StageIf(f.instruments != [], Instruments(f.instruments));
    ghost var s2 := s1 + StageIf(f.side != "all", Side(f.side));
    ghost var s3 := s2 + StageIf(f.start != Unset, From(f.start));
    var out := rows;
    out := FilterIf(loc, f.instruments != [], Instruments(f.instruments), out, [], rows);
    out := FilterIf(loc, f.side != "all", Side(f.side), out, s1, rows);
    out := FilterIf(loc, f.start != Unset, From(f.start), out, s2, rows);
    out := FilterIf(loc, f.end != Unset, To(f.end), out, s3, rows);
    assert s1 == StageIf(f.instruments != [], Instruments(f.instruments));
    StagesAreConjunction(loc, Active(f), rows);
    sorted := SortRows(loc, out, f.key, f.dir);
  }

  // ---- what comes out --------------------------------------------------------

  lemma StagedNext(loc: Locale, stages: seq<Stage>, stage: Stage, rows: seq<Row>)
    ensures Staged(loc, stages + [stage], rows) == Filtered(loc, stage, Staged(loc, stages, rows))
  {
    assert (stages + [stage])[..|stages|] == stages;
  }

  lemma {:induction false} FilteredAppend(loc: Locale, stage: Stage, rows: seq<Row>, r: Row)
    ensures Filtered(loc, stage, rows + [r]) == Filtered(loc, stage, rows) + if Passes(loc, stage, r) then [r] else []
  {
    assert (rows + [r])[..|rows|] == rows;
  }

  lemma PassesNext(loc: Locale, stages: seq<Stage>, r: Row)
    requires stages != []
    ensures PassesAll(loc, stages, r) <==>
      PassesAll(loc, stages[..|stages| - 1], r) && Passes(loc, stages[|stages| - 1], r)
  {
  }

  lemma {:induction false} FilterKept(loc: Locale, stages: seq<Stage>, rows: seq<Row>)
    requires stages != []
    ensures Filtered(loc, stages[|stages| - 1], Kept(loc, stages[..|stages| - 1], rows)) == Kept(loc, stages, rows)
  {
    if rows != [] {
      var front, last := rows[..|rows| - 1], rows[|rows| - 1];
      FilterKept(loc, stages, front);
      PassesNext(loc, stages, last);
      var earlier := Kept(loc, stages[..|stages| - 1], front);
      FilteredAppend(loc, stages[|stages| - 1], earlier, last);
      assert Kept(loc, stages, front) + [] == Kept(loc, stages, front);
      assert earlier + [] == earlier;
    }
  }

  lemma {:induction false} KeptByNone(loc: Locale, rows: seq<Row>)
    ensures Kept(loc, [], rows) == rows
  {
    if rows != [] {
      KeptByNone(loc, rows[..|rows| - 1]);
      assert rows == rows[..|rows| - 1] + [rows[|rows| - 1]];
    }
  }

  /** Stage after stage leaves exactly the rows that meet every condition. */
  lemma {:induction false} StagesAreConjunction(loc: Locale, stages: seq<Stage>, rows: seq<Row>)
    ensures Staged(loc, stages, rows) == Kept(loc, stages, rows)
  {
    if stages == [] {
      KeptByNone(loc, rows);
    } else {
      StagesAreConjunction(loc, stages[..|stages| - 1], rows);
      FilterKept(loc, stages, rows);
    }
  }

  lemma {:induction false} KeptBySame(loc: Locale, stages: seq<Stage>, stages': seq<Stage>, rows: seq<Row>)
    requires forall s :: s in stages <==> s in stages'
    ensures Kept(loc, stages, rows) == Kept(loc, stages', rows)
  {
    if rows != [] {
      KeptBySame(loc, stages, stages', rows[..|rows| - 1]);
      SameConditions(loc, stages, stages', rows[|rows| - 1]);
    }
  }

  lemma SameConditions(loc: Locale, stages: seq<Stage>, stages': seq<Stage>, r: Row)
    requires forall s :: s in stages <==> s in stages'
    ensures PassesAll(loc, stages, r) <==> PassesAll(loc, stages', r)
  {
    if PassesAll(loc, stages, r) {
      forall i | 0 <= i < |stages'| ensures Passes(loc, stages'[i], r) {
        assert stages'[i] in stages;
      }
    }
    if PassesAll(loc, stages', r) {
      forall i | 0 <= i < |stages| ensures Passes(loc, stages[i], r) {
        assert stages[i] in stages';
      }
    }
  }

  /** The order of the stages does not matter, nor does repeating one. */
  lemma StageOrderIrrelevant(loc: Locale, stages: seq<Stage>, stages': seq<Stage>, rows: seq<Row>)
    requires forall s :: s in stages <==> s in stages'
    ensures Staged(loc, stages, rows) == Staged(loc, stages', rows)
  {
    StagesAreConjunction(loc, stages, rows);
    StagesAreConjunction(loc, stages', rows);
    KeptBySame(loc, stages, stages', rows);
  }

  lemma {:induction false} KeptCount(loc: Locale, stages: seq<Stage>, rows: seq<Row>, r: Row)
    ensures multiset(Kept(loc, stages, rows))[r] == if PassesAll(loc, stages, r) then multiset(rows)[r] else 0
  {
    if rows != [] {
      KeptCount(loc, stages, rows[..|rows| - 1], r);
      assert rows == rows[..|rows| - 1] + [rows[|rows| - 1]];
    }
  }

  lemma OrderIsPreorder(loc: Locale, key: SortKey, dir: SortDir)
    requires IsLocale(loc)
    ensures TotalPreorder(Order(loc, key, dir))
  {
    var order := Order(loc, key, dir);
    var notAfter := (a, b) => !loc.after(a, b);
    assert TotalPreorder(notAfter);
    forall a, b, c | order(a, b) && order(b, c) ensures order(a, c) {
      if key == ByInstrument {
        var x := if a.instrument.Some? then a.instrument.value else "";
        var y := if b.instrument.Some? then b.instrument.value else "";
        var z := if c.instrument.Some? then c.instrument.value else "";
        assert notAfter(x, y) == !loc.after(x, y) && notAfter(y, z) == !loc.after(y, z);
        assert notAfter(z, y) == !loc.after(z, y) && notAfter(y, x) == !loc.after(y, x);
        assert notAfter(x, z) == !loc.after(x, z) && notAfter(z, x) == !loc.after(z, x);
      }
    }
    forall a, b ensures order(a, b) || order(b, a) {
      if key == ByInstrument {
        var x := if a.instrument.Some? then a.instrument.value else "";
        var y := if b.instrument.Some? then b.instrument.value else "";
        assert notAfter(x, y) || notAfter(y, x);
      }
    }
  }

  /**
   * The table shows exactly the rows that meet all active conditions, each as
   * often as it was given, in the chosen order, ties in the order they came.
   */
  lemma TableMeaning(loc: Locale, rows: seq<Row>, f: Filters, r: Row)
    requires IsLocale(loc)
    ensures var order := Order(loc, f.key, f.dir);
      var kept := Kept(loc, Active(f), rows);
      var table := Sort(order, kept);
      && StableSortOf(order, kept, table)
      && multiset(table)[r] == if PassesAll(loc, Active(f), r) then multiset(rows)[r] else 0
  {
    var order := Order(loc, f.key, f.dir);
    OrderIsPreorder(loc, f.key, f.dir);
    SortIsStable(order, Kept(loc, Active(f), rows));
    SortPermutes(order, Kept(loc, Active(f), rows));
    KeptCount(loc, Active(f), rows, r);
  }

  /**
   * Which rows the table shows, told by the filters: with an instrument of the
   * chosen ones, of the chosen side, not before the first instant and not after
   * the last; a date that is none shows nothing.
   */
  lemma RowShown(loc: Locale, rows: seq<Row>, f: Filters, r: Row)
    ensures r in Kept(loc, Active(f), rows) <==>
      && r in rows
      && (f.instruments == [] ||
            (r.instrument.Some? && r.instrument.value != "" &&
             exists i :: 0 <= i < |f.instruments| && loc.upper(f.instruments[i]) == loc.upper(r.instrument.value)))
      && (f.side == "all" || f.side == loc.upper(if r.side != "" then r.side else r.direction))
      && (f.start == Unset || (f.start.At? && f.start.ms <= r.ts))
      && (f.end == Unset || (f.end.At? && r.ts <= f.end.ms))
  {
    KeptCount(loc, Active(f), rows, r);
    assert r in Kept(loc, Active(f), rows) <==> r in multiset(Kept(loc, Active(f), rows));
    ActivePasses(loc, f, r);
  }

  lemma ActivePasses(loc: Locale, f: Filters, r: Row)
    ensures PassesAll(loc, Active(f), r) <==>
      && (f.instruments == [] || Passes(loc, Instruments(f.instruments), r))
      && (f.side == "all" || Passes(loc, Side(f.side), r))
      && (f.start == Unset || Passes(loc, From(f.start), r))
      && (f.end == Unset || Passes(loc, To(f.end), r))
  {
    var a, b := StageIf(f.instruments != [], Instruments(f.instruments)), StageIf(f.side != "all", Side(f.side));
    var c, d := StageIf(f.start != Unset, From(f.start)), StageIf(f.end != Unset, To(f.end));
    PassesBoth(loc, a + b + c, d, r);
    PassesBoth(loc, a + b, c, r);
    PassesBoth(loc, a, b, r);
    PassesOne(loc, f.instruments != [], Instruments(f.instruments), r);
    PassesOne(loc, f.side != "all", Side(f.side), r);
    PassesOne(loc, f.start != Unset, From(f.start), r);
    PassesOne(loc, f.end != Unset, To(f.end), r);
  }

  lemma PassesOne(loc: Locale, active: bool, stage: Stage, r: Row)
    ensures PassesAll(loc, StageIf(active, stage), r) <==> (active ==> Passes(loc, stage, r))
  {
    assert active ==> StageIf(active, stage)[0] == stage;
  }

  lemma PassesBoth(loc: Locale, a: seq<Stage>, b: seq<Stage>, r: Row)
    ensures PassesAll(loc, a + b, r) <==> PassesAll(loc, a, r) && PassesAll(loc, b, r)
  {
    if PassesAll(loc, a + b, r) {
      forall i | 0 <= i < |a| ensures Passes(loc, a[i], r) { assert (a + b)[i] == a[i]; }
      forall i | 0 <= i < |b| ensures Passes(loc, b[i], r) { assert (a + b)[|a| + i] == b[i]; }
    }
  }

  /**
   * How the rows follow one another: ascending or descending in the chosen
   * column, a missing value counting as 0 or as the empty name.
   */
  lemma RowsFollow(loc: Locale, rows: seq<Row>, f: Filters, i: nat, j: nat)
    requires IsLocale(loc) && i < j < |Sort(Order(loc, f.key, f.dir), Kept(loc, Active(f), rows))|
    ensures var table := Sort(Order(loc, f.key, f.dir), Kept(loc, Active(f), rows));
      var lower, upper := if f.dir == Asc then table[i] else table[j], if f.dir == Asc then table[j] else table[i];
      match f.key
      case ByTs => lower.ts <= upper.ts
      case ByPnl =>
        (if lower.pnl.Some? then lower.pnl.value else 0.0) <= (if upper.pnl.Some? then upper.pnl.value else 0.0)
      case ByHold =>
        (if HoldSeconds(lower).Some? then HoldSeconds(lower).value else 0.0)
        <= (if HoldSeconds(upper).Some? then HoldSeconds(upper).value else 0.0)
      case ByInstrument =>
        !loc.after(if lower.instrument.Some? then lower.instrument.value else "",
                   if upper.instrument.Some? then upper.instrument.value else "")
  {
    OrderIsPreorder(loc, f.key, f.dir);
    SortIsStable(Order(loc, f.key, f.dir), Kept(loc, Active(f), rows));
  }

  /** The hold time: as recorded, else between opening and closing to the nearest second, halves up. */
  lemma HoldMeaning(r: Row)
    ensures r.durationSeconds.Some? ==> HoldSeconds(r) == r.durationSeconds
    ensures r.durationSeconds.None? && r.openTime.Some? && r.closeTime.Some? ==>
      var ms := (r.closeTime.value - r.openTime.value) as real;
      && HoldSeconds(r).Some? && HoldSeconds(r).value == HoldSeconds(r).value.Floor as real
      && 1000.0 * HoldSeconds(r).value - 500.0 <= ms < 1000.0 * HoldSeconds(r).value + 500.0
    ensures r.durationSeconds.None? && (r.openTime.None? || r.closeTime.None?) ==> HoldSeconds(r) == None
  {
    if r.durationSeconds.None? && r.openTime.Some? && r.closeTime.Some? {
      var ms := r.closeTime.value - r.openTime.value;
      var h := RoundThousandths(ms);
      assert 1000 * h - 500 <= ms < 1000 * h + 500;
      assert HoldSeconds(r) == Some(h as real);
    }
  }
}
