/**
 * The ETL's database session and the two loops that drive it
 * (backend/app/workers/journal_etl.py:129-242), proved against JournalTable.
 */
module JournalSession {
  import opened Prelude
  import opened JournalLine
  import opened JournalTable

  datatype DbError = DbError

  datatype Stats = Stats(parsed: nat, inserted: nat)

  datatype PassStats = PassStats(parsed: nat, inserted: nat, files: nat)

  /** A journal file and the lines an iteration over it yields, in the order it yields them. */
  datatype Snapshot = Snapshot(name: string, lines: seq<Line>)

  /** The files of one pass, processed in order. */
  function PassEffect(db: Db, files: seq<Snapshot>): Db {
    if files == [] then db
    else
      var last := files[|files| - 1];
      FileEffect(PassEffect(db, files[..|files| - 1]), last.name, last.lines)
  }

  /** The number of parseable lines of all files. */
  function ParsedIn(files: seq<Snapshot>): nat {
    if files == [] then 0
    else
      var last := files[|files| - 1];
      ParsedIn(files[..|files| - 1]) + |RowsOf(Tag(last.name, last.lines))|
  }

  /** The first position whose name is the checkpointed one, or 0. */
  function StartIndex(cp: Option<Checkpoint>, names: seq<string>): (i: nat)
    ensures names == [] || i < |names|
    ensures cp.Some? && cp.value.file != "" && cp.value.file in names ==> names != [] && names[i] == cp.value.file
    ensures cp.None? || cp.value.file == "" || cp.value.file !in names ==> i == 0
    ensures forall j :: 0 <= j < i && j < |names| && cp.Some? ==> names[j] != cp.value.file
  {
    if cp.None? || cp.value.file == "" || cp.value.file !in names then 0
    else FirstIndex(names, cp.value.file)
  }

  function FirstIndex(names: seq<string>, name: string): (i: nat)
    requires name in names
    ensures i < |names| && names[i] == name
    ensures forall j :: 0 <= j < i ==> names[j] != name
  {
    if names[0] == name then 0 else 1 + FirstIndex(names[1..], name)
  }

  function Names(files: seq<Snapshot>): seq<string> {
    seq(|files|, i requires 0 <= i < |files| => files[i].name)
  }

  function LastOf(rows: seq<Row>): Option<Row> {
    if rows == [] then None else Some(rows[|rows| - 1])
  }

  /** The files a pass processes: the checkpointed one and those after it. */
  function Todo(db: Db, files: seq<Snapshot>): seq<Snapshot> {
    if files == [] then [] else files[StartIndex(db.checkpoint, Names(files))..]
  }

  /** A pass that failed has committed exactly the files before the failing one. */
  ghost predicate StoppedWithin(before: Db, todo: seq<Snapshot>, after: Db) {
    exists k :: 0 <= k < |todo| && after == PassEffect(before, todo[..k])
  }

  class Session {
    /** What other connections see. */
    var committed: Db
    /** What this transaction sees. */
    var working: Db
    /** How many more statements the database will serve; None for ever. */
    var serves: Option<nat>

    constructor (db: Db, serves: Option<nat>)
      ensures committed == working == db && this.serves == serves
    {
      committed, working, this.serves := db, db, serves;
    }

    /** One round trip to the database, which may be the one that fails. */
    method Serve() returns (ok: bool)
      modifies this`serves
      ensures old(serves).None? ==> ok && serves.None?
      ensures old(serves).Some? ==> ok == (old(serves).value > 0)
    {
      match serves {
        case None => ok := true;
        case Some(n) =>
          ok := n > 0;
          serves := Some(if n > 0 then n - 1 else 0);
      }
    }

    /** INSERT ... ON CONFLICT DO NOTHING of a batch; the result is its row count. */
    method InsertBatch(rows: seq<Row>) returns (r: Result<nat, DbError>)
      modifies this`working, this`serves
      ensures r.Failure? ==> working == old(working)
      ensures r.Success? ==>
        && working == old(working).(events := InsertAll(old(working).events, rows))
        && r.value == |working.events| - |old(working).events|
      ensures old(serves).None? ==> r.Success? && serves.None?
    {
      if rows == [] {
        return Success(0);
      }
      var ok := Serve();
      if !ok {
        return Failure(DbError);
      }
      var events := working.events;
      var count := 0;
      for i := 0 to |rows|
        invariant events == InsertAll(working.events, rows[..i])
        invariant count == |events| - |working.events|
      {
        assert rows[..i + 1][..i] == rows[..i];
        if rows[i].eventId !in events {
          events := events[rows[i].eventId := rows[i]];
          count := count + 1;
        }
      }
      assert rows[..|rows|] == rows;
      working := working.(events := events);
      r := Success(count);
    }

    /** Upserts the single checkpoint row of the paper journal. */
    method UpdateCheckpoint(file: string, ts: int, eventId: EventId) returns (ok: bool)
      modifies this`working, this`serves
      ensures !ok ==> working == old(working)
      ensures ok ==> working == old(working).(checkpoint := Some(Checkpoint(file, ts, eventId)))
      ensures old(serves).None? ==> ok && serves.None?
    {
      ok := Serve();
      if ok {
        working := working.(checkpoint := Some(Checkpoint(file, ts, eventId)));
      }
    }

    method Commit() returns (ok: bool)
      modifies this
      ensures working == old(working)
      ensures committed == if ok then old(working) else old(committed)
      ensures old(serves).None? ==> ok && serves.None?
    {
      ok := Serve();
      if ok {
        committed := working;
      }
    }

    method Rollback()
      modifies this`working
      ensures working == committed
    {
      working := committed;
    }

    /** Inserts what has been batched, after the rows already flushed. */
    method Flush(ghost before: Table, ghost flushed: seq<Row>, batch: seq<Row>, inserted: nat)
      returns (r: Result<nat, DbError>)
      requires working.events == InsertAll(before, flushed) && inserted == |working.events| - |before|
      modifies this`working, this`serves
      ensures working.checkpoint == old(working).checkpoint
      ensures r.Success? ==>
        working.events == InsertAll(before, flushed + batch) && r.value == |working.events| - |before|
      ensures old(serves).None? ==> r.Success? && serves.None?
    {
      var n := InsertBatch(batch);
      if n.Failure? {
        return Failure(DbError);
      }
      InsertAllAppend(before, flushed, batch);
      r := Success(inserted + n.value);
    }

    /**
     * The reading loop over the lines the iteration yields, each under the
     * number it is counted with: every row seen is flushed or still batched.
     */
    method ReadLines(name: string, lines: seq<Line>, batchSize: int)
      returns (r: Result<Stats, DbError>, last: Option<Row>, batch: seq<Row>, ghost flushed: seq<Row>)
      modifies this`working, this`serves
      ensures working.checkpoint == old(working).checkpoint
      ensures r.Success? ==>
        && RowsOf(Tag(name, lines)) == flushed + batch
        && working.events == InsertAll(old(working).events, flushed)
        && r.value.parsed == |flushed + batch|
        && r.value.inserted == |working.events| - |old(working).events|
        && last == LastOf(flushed + batch)
      ensures old(serves).None? ==> r.Success? && serves.None?
    {
      var parsed: nat, inserted: nat := 0, 0;
      batch, flushed, last := [], [], None;
      ghost var seen: seq<Row> := [];
      ghost var before := working.events;
      for i := 0 to |lines|
        invariant seen == RowsOf(Tag(name, lines)[..i])
        invariant seen == flushed + batch
        invariant parsed == |seen| && last == LastOf(seen)
        invariant working.checkpoint == old(working).checkpoint
        invariant working.events == InsertAll(before, flushed) && inserted == |working.events| - |before|
        invariant old(serves).None? ==> serves.None?
      {
        RowsOfNext(name, lines, i);
        var row := ParseLine(lines[i], name, i + 1);
        if row.None? {
          continue;
        }
        parsed := parsed + 1;
        last := row;
        batch := batch + [row.value];
        seen := seen + [row.value];
        assert seen == flushed + batch;
        if |batch| >= batchSize {
          var n := Flush(before, flushed, batch, inserted);
          if n.Failure? {
            return Failure(DbError), last, batch, flushed;
          }
          inserted := n.value;
          flushed, batch := seen, [];
        }
      }
      assert Tag(name, lines)[..|lines|] == Tag(name, lines);
      r := Success(Stats(parsed, inserted));
    }

    /** The loop and its final flush; the last row feeds the checkpoint. */
    method ReadAndInsert(name: string, lines: seq<Line>, batchSize: int)
      returns (r: Result<Stats, DbError>, last: Option<Row>)
      modifies this`working, this`serves
      ensures r.Success? ==>
        var rows := RowsOf(Tag(name, lines));
        && working == old(working).(events := InsertAll(old(working).events, rows))
        && r.value.parsed == |rows|
        && r.value.inserted == |working.events| - |old(working).events|
        && last == LastOf(rows)
      ensures old(serves).None? ==> r.Success? && serves.None?
    {
      var batch;
      ghost var flushed;
      r, last, batch, flushed := ReadLines(name, lines, batchSize);
      if r.Success? && batch != [] {
        var n := Flush(old(working).events, flushed, batch, r.value.inserted);
        if n.Failure? {
          return Failure(DbError), last;
        }
        r := Success(r.value.(inserted := n.value));
      }
      assert batch == [] ==> flushed + batch == flushed;
    }

    /**
     * Reads a file to its end and inserts it in batches. Whatever the batch size,
     * the committed outcome is that of inserting row by row; after a database
     * error nothing of the file remains.
     */
    method ProcessFile(name: string, lines: seq<Line>, batchSize: int) returns (r: Result<Stats, DbError>)
      requires working == committed
      modifies this
      ensures working == committed
      ensures r.Failure? ==> committed == old(committed)
      ensures r.Success? ==>
        && committed == FileEffect(old(committed), name, lines)
        && r.value.parsed == |RowsOf(Tag(name, lines))|
        && r.value.inserted == |committed.events| - |old(committed).events|
      ensures old(serves).None? ==> r.Success? && serves.None?
    {
      var last;
      r, last := ReadAndInsert(name, lines, batchSize);
      var ok := r.Success?;
      if ok && last.Some? {
        ok := UpdateCheckpoint(name, last.value.ts, last.value.eventId);
      }
      if ok {
        ok := Commit();
      }
      if !ok {
        Rollback();
        r := Failure(DbError);
      }
    }

    /** The file loop of one pass. */
    method ProcessFiles(todo: seq<Snapshot>, batchSize: int) returns (r: Result<Stats, DbError>)
      requires working == committed
      modifies this
      ensures working == committed
      ensures r.Failure? ==> StoppedWithin(old(committed), todo, committed)
      ensures r.Success? ==>
        && committed == PassEffect(old(committed), todo)
        && r.value.parsed == ParsedIn(todo)
        && r.value.inserted == |committed.events| - |old(committed).events|
      ensures old(serves).None? ==> r.Success?
    {
      var parsed: nat, inserted: nat := 0, 0;
      for k := 0 to |todo|
        invariant working == committed
        invariant committed == PassEffect(old(committed), todo[..k])
        invariant parsed == ParsedIn(todo[..k])
        invariant inserted == |committed.events| - |old(committed).events|
        invariant old(serves).None? ==> serves.None?
      {
        PassEffectNext(old(committed), todo, k);
        var one := ProcessFile(todo[k].name, todo[k].lines, batchSize);
        if one.Failure? {
          return Failure(DbError);
        }
        parsed, inserted := parsed + one.value.parsed, inserted + one.value.inserted;
      }
      assert todo[..|todo|] == todo;
      r := Success(Stats(parsed, inserted));
    }

    /**
     * One pass over the journal directory, given the listed files in order.
     * It commits file by file from the checkpointed one on, and stops at the
     * first database error, keeping what was committed before it.
     */
    method RunOnce(files: seq<Snapshot>, batchSize: int) returns (r: Result<PassStats, DbError>)
      requires working == committed
      modifies this
      ensures working == committed
      ensures r.Failure? ==> StoppedWithin(old(committed), Todo(old(committed), files), committed)
      ensures r.Success? ==>
        && committed == PassEffect(old(committed), Todo(old(committed), files))
        && r.value.parsed == ParsedIn(Todo(old(committed), files))
        && r.value.inserted == |committed.events| - |old(committed).events|
        && r.value.files == |Todo(old(committed), files)|
      ensures old(serves).None? ==> r.Success?
    {
      if files == [] {
        return Success(PassStats(0, 0, 0));
      }
      var cp := committed.checkpoint;
      var start := 0;
      if cp.Some? && cp.value.file != "" {
        for i := 0 to |files|
          invariant start == 0
          invariant forall j :: 0 <= j < i ==> files[j].name != cp.value.file
        {
          if files[i].name == cp.value.file {
            start := i;
            break;
          }
        }
      }
      StartIndexFound(cp, files, start);
      var walked := ProcessFiles(files[start..], batchSize);
      r := match walked
        case Success(stats) => Success(PassStats(stats.parsed, stats.inserted, |files| - start))
        case Failure(e) => Failure(e);
    }
  }

  lemma PassEffectNext(db: Db, todo: seq<Snapshot>, k: nat)
    requires k < |todo|
    ensures PassEffect(db, todo[..k + 1]) == FileEffect(PassEffect(db, todo[..k]), todo[k].name, todo[k].lines)
    ensures ParsedIn(todo[..k + 1]) == ParsedIn(todo[..k]) + |RowsOf(Tag(todo[k].name, todo[k].lines))|
  {
    assert todo[..k + 1][..k] == todo[..k];
  }

  /** The search loop of a pass computes StartIndex. */
  lemma StartIndexFound(cp: Option<Checkpoint>, files: seq<Snapshot>, start: nat)
    requires start < |files|
    requires forall j :: 0 <= j < start ==> cp.Some? && files[j].name != cp.value.file
    requires start > 0 ==> cp.Some? && cp.value.file != "" && files[start].name == cp.value.file
    requires start == 0 && cp.Some? && cp.value.file != "" ==>
      files[0].name == cp.value.file || forall j :: 0 <= j < |files| ==> files[j].name != cp.value.file
    ensures StartIndex(cp, Names(files)) == start
  {
    var names, i := Names(files), StartIndex(cp, Names(files));
    if cp.Some? && cp.value.file != "" {
      assert names[start] == files[start].name;
      assert names[i] == files[i].name;
    }
  }
}
