/**
 * What one file does to paper_events and etl_checkpoints, as functions
 * (backend/app/workers/journal_etl.py:129-206), and what those functions mean.
 */
module JournalTable {
  import opened Prelude
  import opened JournalLine

  type Table = map<EventId, Row>

  datatype Checkpoint = Checkpoint(file: string, ts: int, eventId: EventId)

  datatype Db = Db(events: Table, checkpoint: Option<Checkpoint>)

  /** A line of the journal together with its position; lines count from 1. */
  datatype Entry = Entry(file: string, lineno: nat, line: Line)

  function Tag(name: string, lines: seq<Line>): (entries: seq<Entry>)
    ensures |entries| == |lines|
    ensures forall i :: 0 <= i < |lines| ==> entries[i] == Entry(name, i + 1, lines[i])
  {
    seq(|lines|, i requires 0 <= i < |lines| => Entry(name, i + 1, lines[i]))
  }

  function RowOf(e: Entry): Option<Row> {
    ParseLine(e.line, e.file, e.lineno)
  }

  /** The rows of the parseable lines, in order. */
  function RowsOf(entries: seq<Entry>): seq<Row> {
    if entries == [] then []
    else
      var row := RowOf(entries[|entries| - 1]);
      RowsOf(entries[..|entries| - 1]) + if row.Some? then [row.value] else []
  }

  /** One row under ON CONFLICT (event_id) DO NOTHING. */
  function InsertIfAbsent(t: Table, row: Row): Table {
    if row.eventId in t then t else t[row.eventId := row]
  }

  function InsertAll(t: Table, rows: seq<Row>): Table {
    if rows == [] then t
    else InsertIfAbsent(InsertAll(t, rows[..|rows| - 1]), rows[|rows| - 1])
  }

  /** The table an empty database holds after the given lines. */
  function Load(entries: seq<Entry>): Table {
    InsertAll(map[], RowsOf(entries))
  }

  /** The committed outcome of one file: all its rows, then the checkpoint. */
  function FileEffect(db: Db, name: string, lines: seq<Line>): Db {
    var rows := RowsOf(Tag(name, lines));
    Db(InsertAll(db.events, rows),
       if rows == [] then db.checkpoint
       else Some(Checkpoint(name, rows[|rows| - 1].ts, rows[|rows| - 1].eventId)))
  }

  /** Line k is the last of them that bears a row. */
  ghost predicate IsLastRow(name: string, lines: seq<Line>, k: int) {
    && 0 <= k < |lines| && ParseLine(lines[k], name, k + 1).Some?
    && forall j :: k < j < |lines| ==> ParseLine(lines[j], name, j + 1).None?
  }

  /** Without a row-bearing line the checkpoint stays; otherwise it names the file and its last row. */
  lemma CheckpointIsLastRow(db: Db, name: string, lines: seq<Line>, k: int)
    ensures (forall j :: 0 <= j < |lines| ==> ParseLine(lines[j], name, j + 1).None?) ==>
      FileEffect(db, name, lines).checkpoint == db.checkpoint
    ensures IsLastRow(name, lines, k) ==>
      var cp := FileEffect(db, name, lines).checkpoint;
      && cp.Some? && cp.value.file == name
      && lines[k].Object? && lines[k].ts.Stamp? && lines[k].ts.instant == Some(cp.value.ts)
      && cp.value.eventId == ParseLine(lines[k], name, k + 1).value.eventId
  {
    var entries := Tag(name, lines);
    if IsLastRow(name, lines, k) {
      assert entries == entries[..k + 1] + entries[k + 1..];
      RowsOfAppend(entries[..k + 1], entries[k + 1..]);
      RowsOfNone(entries[k + 1..]);
      RowsOfNext(name, lines, k);
      ParseLineMeaning(lines[k], name, k + 1);
    } else if forall j :: 0 <= j < |lines| ==> ParseLine(lines[j], name, j + 1).None? {
      RowsOfNone(entries);
    }
  }

  lemma {:induction false} RowsOfNone(entries: seq<Entry>)
    requires forall j :: 0 <= j < |entries| ==> RowOf(entries[j]).None?
    ensures RowsOf(entries) == []
  {
    if entries != [] {
      RowsOfNone(entries[..|entries| - 1]);
    }
  }

  // ---- rows of concatenations ------------------------------------------------

  lemma {:induction false} RowsOfAppend(a: seq<Entry>, b: seq<Entry>)
    ensures RowsOf(a + b) == RowsOf(a) + RowsOf(b)
  {
    if b == [] {
      assert a + b == a;
    } else {
      RowsOfAppend(a, b[..|b| - 1]);
      assert (a + b)[..|a + b| - 1] == a + b[..|b| - 1];
    }
  }

  /** What one more line adds. */
  lemma RowsOfNext(name: string, lines: seq<Line>, i: nat)
    requires i < |lines|
    ensures RowsOf(Tag(name, lines)[..i + 1]) == RowsOf(Tag(name, lines)[..i]) +
      var row := ParseLine(lines[i], name, i + 1);
      if row.Some? then [row.value] else []
  {
    var entries := Tag(name, lines);
    assert entries[..i + 1][..i] == entries[..i];
  }

  lemma {:induction false} InsertAllAppend(t: Table, a: seq<Row>, b: seq<Row>)
    ensures InsertAll(t, a + b) == InsertAll(InsertAll(t, a), b)
  {
    if b == [] {
      assert a + b == a;
    } else {
      InsertAllAppend(t, a, b[..|b| - 1]);
      assert (a + b)[..|a + b| - 1] == a + b[..|b| - 1];
    }
  }

  lemma LoadAppend(a: seq<Entry>, b: seq<Entry>)
    ensures Load(a + b) == InsertAll(Load(a), RowsOf(b))
  {
    RowsOfAppend(a, b);
    InsertAllAppend(map[], RowsOf(a), RowsOf(b));
  }

  // ---- insert-if-absent ------------------------------------------------------

  /** Insertion keeps every row it finds, adds no row but those given, and misses none. */
  lemma {:induction false} InsertAllKeeps(t: Table, rows: seq<Row>)
    ensures forall id :: id in t ==> id in InsertAll(t, rows) && InsertAll(t, rows)[id] == t[id]
    ensures forall id :: id in InsertAll(t, rows) ==> id in t || exists i :: 0 <= i < |rows| && rows[i].eventId == id
    ensures forall i :: 0 <= i < |rows| ==> rows[i].eventId in InsertAll(t, rows)
  {
    if rows != [] {
      InsertAllKeeps(t, rows[..|rows| - 1]);
    }
  }

  lemma {:induction false} InsertAllKnown(t: Table, rows: seq<Row>)
    requires forall i :: 0 <= i < |rows| ==> rows[i].eventId in t
    ensures InsertAll(t, rows) == t
  {
    if rows != [] {
      InsertAllKnown(t, rows[..|rows| - 1]);
    }
  }

  lemma {:induction false} RowsOfMember(entries: seq<Entry>, k: nat)
    requires k < |entries| && RowOf(entries[k]).Some?
    ensures RowOf(entries[k]).value in RowsOf(entries)
  {
    if k < |entries| - 1 {
      RowsOfMember(entries[..|entries| - 1], k);
    }
  }

  lemma {:induction false} RowsOfSource(entries: seq<Entry>, i: nat) returns (k: nat)
    requires i < |RowsOf(entries)|
    ensures k < |entries| && RowOf(entries[k]) == Some(RowsOf(entries)[i])
  {
    var front := entries[..|entries| - 1];
    if i < |RowsOf(front)| {
      k := RowsOfSource(front, i);
    } else {
      k := |entries| - 1;
    }
  }

  /** Position i holds the first row of its event id. */
  ghost predicate IsFirst(rows: seq<Row>, i: int) {
    0 <= i < |rows| && forall j :: 0 <= j < i ==> rows[j].eventId != rows[i].eventId
  }

  lemma {:induction false} FirstRowStays(t: Table, rows: seq<Row>, i: nat)
    requires IsFirst(rows, i) && rows[i].eventId !in t
    ensures rows[i].eventId in InsertAll(t, rows) && InsertAll(t, rows)[rows[i].eventId] == rows[i]
  {
    var front := rows[..|rows| - 1];
    if i < |front| {
      FirstRowStays(t, front, i);
    } else {
      InsertAllKeeps(t, front);
    }
  }

  /**
   * First writer wins: the table holds exactly the first row of every event
   * id among the parseable lines.
   */
  lemma FirstWriterWins(rows: seq<Row>, id: EventId)
    ensures id in InsertAll(map[], rows) <==> exists i :: 0 <= i < |rows| && rows[i].eventId == id
    ensures forall i :: IsFirst(rows, i) && rows[i].eventId == id ==> InsertAll(map[], rows)[id] == rows[i]
  {
    InsertAllKeeps(map[], rows);
    forall i | IsFirst(rows, i) && rows[i].eventId == id ensures InsertAll(map[], rows)[id] == rows[i] {
      FirstRowStays(map[], rows, i);
    }
  }

  /** Replaying lines the table has already seen, then newer ones, adds only the newer ones. */
  lemma ReplayThenNew(a: seq<Entry>, b: seq<Entry>, c: seq<Entry>)
    ensures InsertAll(Load(a + b), RowsOf(b + c)) == Load(a + b + c)
  {
    var t := Load(a + b);
    LoadAppend(a, b);
    InsertAllKeeps(Load(a), RowsOf(b));
    RowsOfAppend(b, c);
    InsertAllAppend(t, RowsOf(b), RowsOf(c));
    InsertAllKnown(t, RowsOf(b));
    LoadAppend(a + b, c);
  }

  /** Replaying only lines the table has already seen changes nothing. */
  lemma ReplayOnly(a: seq<Entry>, b: seq<Entry>, c: seq<Entry>)
    ensures InsertAll(Load(a + b + c), RowsOf(b)) == Load(a + b + c)
  {
    LoadAppend(a, b);
    LoadAppend(a + b, c);
    InsertAllKeeps(Load(a), RowsOf(b));
    InsertAllKeeps(Load(a + b), RowsOf(c));
    InsertAllKnown(Load(a + b + c), RowsOf(b));
  }
}
