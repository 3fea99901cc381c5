/**
 * One line of the runner's journal and the row the ETL makes of it
 * (backend/app/workers/journal_etl.py:65-126). JSON text is already
 * classified; what _parse_line does with it is not.
 */
module JournalLine {
  import opened Prelude

  /** A JSON member as Python's truth test and str() see it. */
  datatype Member = Falsy | Truthy(text: string)

  /** "ts": its text, and the instant fromisoformat reads in it, if any. */
  datatype Stamp = NoStamp | Stamp(text: string, instant: Option<int>)

  /** "event_id": absent or falsy, or the UUID its text denotes, if any. */
  datatype Ident = NoIdent | Ident(uuid: Option<nat>)

  datatype Line =
    | Blank
    | Malformed
    | NotAnObject
    | Object(kind: Member, eventType: Member, ts: Stamp, eventId: Ident,
             instrument: Option<string>, payload: string)

  /**
   * UUIDv5 is taken as injective on its name (section 5.5 of RFC 9562) and
   * never equal to an identifier the runner wrote itself.
   */
  datatype EventId = Native(uuid: nat) | Synthetic(name: string)

  datatype Row = Row(eventId: EventId, ts: int, instrument: Option<string>, eventType: string,
                     payload: string, sourceFile: string, sourceLine: nat, synthetic: bool)

  function Digit(d: nat): char
    requires d < 10
  {
    '0' + d as char
  }

  function Decimal(n: nat): string {
    if n < 10 then [Digit(n)] else Decimal(n / 10) + [Digit(n % 10)]
  }

  function SyntheticName(file: string, line: nat, ts: string, eventType: string): string {
    file + ":" + Decimal(line) + ":" + ts + ":" + eventType
  }

  function ParseLine(line: Line, file: string, lineno: nat): Option<Row> {
    match line
    case Blank | Malformed | NotAnObject => None
    case Object(kind, eventType, ts, eventId, instrument, payload) =>
      var k := if kind.Truthy? then kind else eventType;
      if k.Falsy? || ts.NoStamp? || ts.instant.None? then None
      else
        var native := eventId.Ident? && eventId.uuid.Some?;
        var id := if native then Native(eventId.uuid.value)
                  else Synthetic(SyntheticName(file, lineno, ts.text, k.text));
        Some(Row(id, ts.instant.value, instrument, k.text, payload, file, lineno, !native))
  }

  predicate IsDigit(c: char) {
    '0' <= c <= '9'
  }

  /** The names _FILENAME_RE matches; Python's $ also matches before a final newline. */
  predicate IsJournalName(name: string) {
    && (|name| == 22 || (|name| == 23 && name[22] == '\n'))
    && name[..8] == "journal_"
    && (forall i :: 8 <= i < 16 ==> IsDigit(name[i]))
    && name[16..22] == ".jsonl"
  }

  lemma {:induction false} DecimalDigits(n: nat)
    ensures Decimal(n) != [] && forall i :: 0 <= i < |Decimal(n)| ==> IsDigit(Decimal(n)[i])
  {
    if n >= 10 {
      DecimalDigits(n / 10);
    }
  }

  lemma {:induction false} DecimalInjective(m: nat, n: nat)
    requires Decimal(m) == Decimal(n)
    ensures m == n
  {
    DecimalDigits(m / 10);
    DecimalDigits(n / 10);
    var p, q := Decimal(m), Decimal(n);
    assert p[|p| - 1] == Digit(m % 10) && q[|q| - 1] == Digit(n % 10);
    if m >= 10 && n >= 10 {
      assert p[..|p| - 1] == Decimal(m / 10) && q[..|q| - 1] == Decimal(n / 10);
      DecimalInjective(m / 10, n / 10);
    }
  }

  /** The text before the first c determines where a concatenation was cut. */
  lemma CutAtFirst(a: string, b: string, x: string, y: string, c: char)
    requires c !in a && c !in b
    requires a + [c] + x == b + [c] + y
    ensures a == b && x == y
  {
    var s := a + [c] + x;
    var t := b + [c] + y;
    assert forall i :: 0 <= i < |a| ==> s[i] == a[i];
    assert forall i :: 0 <= i < |b| ==> t[i] == b[i];
    assert s[|a|] == c && t[|b|] == c;
    assert |a| == |b|;
    assert a == s[..|a|] && b == t[..|b|];
    assert x == s[|a| + 1..] && y == t[|b| + 1..];
  }

  lemma JournalNameHasNoColon(name: string)
    requires IsJournalName(name)
    ensures ':' !in name
  {
    forall i | 0 <= i < |name| ensures name[i] != ':' {
      if i < 8 {
        assert name[i] == name[..8][i];
      } else if 16 <= i < 22 {
        assert name[i] == name[16..22][i - 16];
      }
    }
  }

  /**
   * The name hashed into a synthetic id determines the journal position,
   * although ts and type may themselves contain colons.
   */
  lemma SyntheticNameInjective(f: string, m: nat, ts: string, k: string, f': string, m': nat, ts': string, k': string)
    requires IsJournalName(f) && IsJournalName(f')
    requires SyntheticName(f, m, ts, k) == SyntheticName(f', m', ts', k')
    ensures f == f' && m == m'
  {
    JournalNameHasNoColon(f);
    JournalNameHasNoColon(f');
    DecimalDigits(m);
    DecimalDigits(m');
    var x, x' := Decimal(m) + ":" + (ts + ":" + k), Decimal(m') + ":" + (ts' + ":" + k');
    assert SyntheticName(f, m, ts, k) == f + [':'] + x;
    assert SyntheticName(f', m', ts', k') == f' + [':'] + x';
    CutAtFirst(f, f', x, x', ':');
    CutAtFirst(Decimal(m), Decimal(m'), ts + ":" + k, ts' + ":" + k', ':');
    DecimalInjective(m, m');
  }

  /** Two different positions never share a synthetic id, whatever their lines say. */
  lemma SyntheticIdsNeverCollide(line: Line, f: string, m: nat, line': Line, f': string, m': nat)
    requires IsJournalName(f) && IsJournalName(f') && (f, m) != (f', m')
    requires ParseLine(line, f, m).Some? && ParseLine(line', f', m').Some?
    requires ParseLine(line, f, m).value.synthetic
    ensures ParseLine(line, f, m).value.eventId != ParseLine(line', f', m').value.eventId
  {
    var k := if line.kind.Truthy? then line.kind else line.eventType;
    var k' := if line'.kind.Truthy? then line'.kind else line'.eventType;
    if SyntheticName(f, m, line.ts.text, k.text) == SyntheticName(f', m', line'.ts.text, k'.text) {
      SyntheticNameInjective(f, m, line.ts.text, k.text, f', m', line'.ts.text, k'.text);
    }
  }

  /** What the digits of a number say, read from the left. */
  function ReadDecimal(s: string): int {
    if s == [] then 0 else 10 * ReadDecimal(s[..|s| - 1]) + (s[|s| - 1] as int - 48)
  }

  /** A line number is written in decimal digits, without leading zeros. */
  lemma {:induction false} DecimalReads(n: nat)
    ensures ReadDecimal(Decimal(n)) == n
    ensures n > 0 ==> Decimal(n)[0] != '0'
  {
    DecimalDigits(n);
    if n >= 10 {
      DecimalReads(n / 10);
      DecimalDigits(n / 10);
      var d := Decimal(n);
      assert d[..|d| - 1] == Decimal(n / 10);
    } else {
      assert Decimal(n)[..0] == [];
    }
  }

  /** At one position, a different ts or a different type gives a different name. */
  lemma SyntheticNameTells(f: string, m: nat, ts: string, k: string, ts': string, k': string)
    requires SyntheticName(f, m, ts, k) == SyntheticName(f, m, ts', k')
    ensures ts == ts' <==> k == k'
  {
    var head := f + ":" + Decimal(m) + ":";
    assert SyntheticName(f, m, ts, k) == head + (ts + ":" + k);
    assert SyntheticName(f, m, ts', k') == head + (ts' + ":" + k');
    assert ts + ":" + k == (head + (ts + ":" + k))[|head|..] == ts' + ":" + k';
    if ts == ts' {
      assert k == (ts + ":" + k)[|ts| + 1..];
    }
    if k == k' {
      assert |ts| == |ts'|;
      assert ts == (ts + ":" + k)[..|ts|];
    }
  }

  /** Eight digits between two fixed parts, and perhaps a newline. */
  ghost predicate NamedFor(name: string, date: string) {
    && |date| == 8 && (forall i :: 0 <= i < 8 ==> date[i] in "0123456789")
    && (name == "journal_" + date + ".jsonl" || name == "journal_" + date + ".jsonl\n")
  }

  /** The names of journal files. */
  lemma JournalNameIff(name: string)
    ensures IsJournalName(name) <==> exists date :: NamedFor(name, date)
  {
    if IsJournalName(name) {
      var date := name[8..16];
      forall i | 0 <= i < 8 ensures date[i] in "0123456789" {
        DigitIff(name[8 + i]);
      }
      assert name[..22] == name[..8] + date + name[16..22];
      assert |name| == 22 ==> name == name[..22];
      assert |name| == 23 ==> name == name[..22] + "\n";
      assert NamedFor(name, date);
    }
    if date :| NamedFor(name, date) {
      forall i | 8 <= i < 16 ensures IsDigit(name[i]) {
        assert name[i] == date[i - 8];
        DigitIff(date[i - 8]);
      }
    }
  }

  lemma DigitIff(c: char)
    ensures IsDigit(c) <==> c in "0123456789"
  {
    if IsDigit(c) {
      assert c == "0123456789"[c as int - 48];
    }
  }

  /**
   * A row says what its line says: the line's own instant, instrument and
   * payload, and the first of "type" and "event_type" that is there.
   */
  ghost predicate Carries(row: Row, line: Line) {
    && line.Object? && line.ts.Stamp? && line.ts.instant == Some(row.ts)
    && row.instrument == line.instrument && row.payload == line.payload
    && (line.kind.Truthy? ==> row.eventType == line.kind.text)
    && (line.kind.Falsy? ==> line.eventType == Truthy(row.eventType))
  }

  /**
   * When a line yields a row, and what the row says: "type" or "event_type" is
   * needed, and a readable "ts"; the id is the runner's own exactly when
   * "event_id" is a UUID, and otherwise made of the line's position and text.
   */
  lemma ParseLineMeaning(line: Line, file: string, lineno: nat)
    ensures ParseLine(line, file, lineno).Some? <==>
      && line.Object?
      && (line.kind.Truthy? || line.eventType.Truthy?)
      && line.ts.Stamp? && line.ts.instant.Some?
    ensures ParseLine(line, file, lineno).Some? ==>
      var row := ParseLine(line, file, lineno).value;
      && Carries(row, line) && row.sourceFile == file && row.sourceLine == lineno
      && (row.synthetic <==> !(line.eventId.Ident? && line.eventId.uuid.Some?))
      && row.eventId == (if row.synthetic then Synthetic(SyntheticName(file, lineno, line.ts.text, row.eventType))
                         else Native(line.eventId.uuid.value))
  {
  }
}
