/**
 atlas/ingest/stream.py: the append-only JSONL tailer. One call reads the
 complete lines past the watermark, sorts each into exactly one class, inserts
 the good ones keyed by (stream, byte offset) and moves the watermark, all in
 one transaction.

 SHA-256 is taken to be collision free, so a stream id is the bytes it digests.
 */
module StreamTail {
  import opened Sequences
  import opened Wrappers

  const STREAM_ID_HEAD_BYTES: nat := 4096

  type StreamId = Bytes

  function StreamIdOf(file: Bytes): StreamId
  {
    if |file| <= STREAM_ID_HEAD_BYTES then file else file[..STREAM_ID_HEAD_BYTES]
  }

  /** Growth keeps the identity exactly when the head was full, or nothing was added. */
  lemma IdentityKept(file: Bytes, longer: Bytes)
    requires GrewTo(file, longer)
    ensures StreamIdOf(file) == StreamIdOf(longer) <==>
            |file| >= STREAM_ID_HEAD_BYTES || |file| == |longer|
  {
  }

  // ---- one line ------------------------------------------------------------

  /** What a mapped field can hold. `Structured` is a dict or list, which cannot be bound. */
  datatype Value = NullValue | IntValue(number: int) | FloatValue | TextValue(text: string) | BlobValue | Structured

  type Row = map<string, Value>

  /** json.loads: JSONDecodeError is caught by the tailer, UnicodeDecodeError is not. */
  datatype Decoded<+Obj> = Parsed(obj: Obj) | NotJson | NotUtf8

  datatype Mapped = MappedRow(row: Row) | RejectedRow | MapperRaised

  /** What the store says of a row apart from its key: a constraint by name, or some other failure. */
  datatype Violation = Constraint(name: string) | UnnamedConstraint | StoreFailure

  /** The caller's mapper, the JSON decoder and the table's own checks. */
  datatype Source<!Obj> = Source(
    decode: Bytes -> Decoded<Obj>,
    rowMapper: (Obj, Bytes) -> Mapped,
    violation: Row -> Option<Violation>)

  const BAD_DATA_CONSTRAINTS := {"SQLITE_CONSTRAINT_CHECK", "SQLITE_CONSTRAINT_NOTNULL"}
  const PIPELINE_FAULT_CONSTRAINTS :=
    {"SQLITE_CONSTRAINT_PRIMARYKEY", "SQLITE_CONSTRAINT_UNIQUE", "SQLITE_CONSTRAINT_FOREIGNKEY"}
  const PRIMARY_KEY := Constraint("SQLITE_CONSTRAINT_PRIMARYKEY")

  /** Only a constraint the row itself broke may be contained; the unknown stays loud. */
  predicate IsBadDataConstraint(v: Violation)
  {
    v.Constraint? && v.name !in PIPELINE_FAULT_CONSTRAINTS && v.name in BAD_DATA_CONSTRAINTS
  }

  function UnsupportedTypeFields(row: Row): set<string>
  {
    set field | field in row && row[field] == Structured
  }

  predicate OutOfRange(v: Value)
  {
    v.IntValue? && !(-0x8000_0000_0000_0000 <= v.number < 0x8000_0000_0000_0000)
  }

  /** The one class each complete line falls into. `Fault` leaves `tail` by an exception. */
  datatype Class = Blank | Malformed | Rejected | Quarantined | Accepted(row: Row) | Fault

  function Classify<Obj>(source: Source<Obj>, text: Bytes): Class
  {
    if IsBlank(text) then Blank
    else match source.decode(text)
      case NotUtf8 => Fault
      case NotJson => Malformed
      case Parsed(obj) =>
        match source.rowMapper(obj, text)
        case MapperRaised => Fault
        case RejectedRow => Rejected
        case MappedRow(row) =>
          if UnsupportedTypeFields(row) != {} then Quarantined
          else if exists field :: field in row && OutOfRange(row[field]) then Quarantined
          else match source.violation(row)
            case None => Accepted(row)
            case Some(v) => if IsBadDataConstraint(v) then Quarantined else Fault
  }

  // What each class means, in the terms of the line, the row and the store.

  predicate OnlyWhiteSpace(text: Bytes)
  {
    forall i | 0 <= i < |text| :: text[i] in {9, 10, 11, 12, 13, 32}
  }

  /** Some field is a dict or a list, or an integer that 64 bits do not hold. */
  predicate HasUnbindableField(row: Row)
  {
    exists field :: field in row &&
      match row[field]
      case Structured => true
      case IntValue(n) => n < -9223372036854775808 || n > 9223372036854775807
      case _ => false
  }

  /** The row breaks a CHECK or a NOT NULL of the table. */
  predicate BreaksOwnConstraint<Obj>(source: Source<Obj>, row: Row)
  {
    source.violation(row) in {Some(Constraint("SQLITE_CONSTRAINT_CHECK")), Some(Constraint("SQLITE_CONSTRAINT_NOTNULL"))}
  }

  /**
   The classes, one by one: blank; no JSON; rejected by the mapper; held back because a field
   cannot be bound or the row breaks a CHECK or a NOT NULL; accepted because nothing is wrong with it.
   Everything else is a fault.
   */
  lemma ClassIs<Obj>(source: Source<Obj>, text: Bytes)
    ensures var class_ := Classify(source, text);
      && (class_.Blank? <==> OnlyWhiteSpace(text))
      && (class_.Malformed? <==> !OnlyWhiteSpace(text) && source.decode(text).NotJson?)
      && (class_.Rejected? <==>
            !OnlyWhiteSpace(text) && source.decode(text).Parsed? && source.rowMapper(source.decode(text).obj, text).RejectedRow?)
      && (class_.Quarantined? <==>
            !OnlyWhiteSpace(text) && source.decode(text).Parsed? &&
            var mapped := source.rowMapper(source.decode(text).obj, text);
            mapped.MappedRow? && (HasUnbindableField(mapped.row) || BreaksOwnConstraint(source, mapped.row)))
      && (class_.Accepted? <==>
            !OnlyWhiteSpace(text) && source.decode(text).Parsed? &&
            var mapped := source.rowMapper(source.decode(text).obj, text);
            mapped.MappedRow? && !HasUnbindableField(mapped.row) && source.violation(mapped.row) == None)
      && (class_.Accepted? ==> class_.row == source.rowMapper(source.decode(text).obj, text).row)
  {
    if source.decode(text).Parsed? && source.rowMapper(source.decode(text).obj, text).MappedRow? {
      var row := source.rowMapper(source.decode(text).obj, text).row;
      UnbindableIs(row);
      OwnConstraintIs(source, row);
    }
  }

  lemma UnbindableIs(row: Row)
    ensures HasUnbindableField(row) <==>
            UnsupportedTypeFields(row) != {} || exists field :: field in row && OutOfRange(row[field])
  {
    if field :| field in row && row[field] == Structured {
      assert field in UnsupportedTypeFields(row);
    }
    if UnsupportedTypeFields(row) != {} {
      var field :| field in UnsupportedTypeFields(row);
      assert row[field] == Structured;
    }
  }

  lemma OwnConstraintIs<Obj>(source: Source<Obj>, row: Row)
    ensures BreaksOwnConstraint(source, row) <==>
            source.violation(row).Some? && IsBadDataConstraint(source.violation(row).value)
  {
  }

  /** What leaves the tailer by an exception: bad UTF-8, a failing mapper, or a violation that is not the row's own. */
  lemma FaultIs<Obj>(source: Source<Obj>, text: Bytes)
    ensures Classify(source, text).Fault? <==>
            !OnlyWhiteSpace(text) &&
            match source.decode(text)
            case NotUtf8 => true
            case NotJson => false
            case Parsed(obj) =>
              match source.rowMapper(obj, text)
              case MapperRaised => true
              case RejectedRow => false
              case MappedRow(row) =>
                !HasUnbindableField(row) &&
                match source.violation(row)
                case None => false
                case Some(StoreFailure) => true
                case Some(UnnamedConstraint) => true
                case Some(Constraint(name)) => name != "SQLITE_CONSTRAINT_CHECK" && name != "SQLITE_CONSTRAINT_NOTNULL"
  {
    ClassIs(source, text);
    if source.decode(text).Parsed? && source.rowMapper(source.decode(text).obj, text).MappedRow? {
      UnbindableIs(source.rowMapper(source.decode(text).obj, text).row);
    }
  }

  /** In particular a key, uniqueness or reference violation is a fault of the pipeline, never quarantined. */
  lemma PipelineViolationsFault<Obj>(source: Source<Obj>, text: Bytes, row: Row, name: string)
    requires name in {"SQLITE_CONSTRAINT_PRIMARYKEY", "SQLITE_CONSTRAINT_UNIQUE", "SQLITE_CONSTRAINT_FOREIGNKEY"}
    requires !OnlyWhiteSpace(text) && source.decode(text).Parsed?
    requires source.rowMapper(source.decode(text).obj, text) == MappedRow(row) && !HasUnbindableField(row)
    requires source.violation(row) == Some(Constraint(name))
    ensures Classify(source, text).Fault?
  {
    FaultIs(source, text);
  }

  /** The identity is the first 4096 bytes, or all of a shorter file. */
  lemma StreamIdIs(file: Bytes)
    ensures StreamIdOf(file) <= file && |StreamIdOf(file)| == if |file| < 4096 then |file| else 4096
  {
  }

  /** The counters. Every line but a faulting one adds one to exactly one of the five. */
  datatype Tally = Tally(blank: nat, inserted: nat, skipped: nat, rejected: nat, quarantined: nat) {

    function Tick(class_: Class): Tally {
      match class_
      case Blank => this.(blank := blank + 1)
      case Malformed => this.(skipped := skipped + 1)
      case Rejected => this.(rejected := rejected + 1)
      case Quarantined => this.(quarantined := quarantined + 1)
      case Accepted(_) => this.(inserted := inserted + 1)
      case Fault => this
    }
  }

  const ZERO := Tally(0, 0, 0, 0, 0)

  /** A complete line as the tailer sees it: where it starts and what it is. */
  datatype Entry = Entry(offset: nat, class_: Class)

  function Entries<Obj>(source: Source<Obj>, lines: seq<Line>): (entries: seq<Entry>)
    ensures |entries| == |lines|
    ensures forall i | 0 <= i < |lines| ::
              entries[i] == Entry(lines[i].offset, Classify(source, lines[i].text))
  {
    seq(|lines|, i requires 0 <= i < |lines| => Entry(lines[i].offset, Classify(source, lines[i].text)))
  }

  function TallyOf(entries: seq<Entry>): Tally
  {
    if entries == [] then ZERO
    else
      var last := |entries| - 1;
      TallyOf(entries[..last]).Tick(entries[last].class_)
  }

  // ---- the store -----------------------------------------------------------

  type Key = (StreamId, nat)

  datatype SourceRow = SourceRow(byteOffset: nat, rowsIngested: nat)

  datatype Reason = FirstSeen | Rotation | Truncation

  datatype HistoryRow = HistoryRow(
    sourceName: string, streamId: StreamId, reason: Reason, prior: Option<(StreamId, nat)>)

  datatype Tables = Tables(
    rows: map<Key, Row>,
    sources: map<(string, StreamId), SourceRow>,
    history: seq<HistoryRow>)

  datatype TailResult =
    | Missing
    | Raised
    | Tailed(tally: Tally, rotationDetected: bool)

  /** The rows the accepted lines become, each under its line's true offset. */
  function RowsOf(stream: StreamId, entries: seq<Entry>): map<Key, Row>
  {
    if entries == [] then map[]
    else
      var last := |entries| - 1;
      var before := RowsOf(stream, entries[..last]);
      match entries[last].class_
      case Accepted(row) => before[(stream, entries[last].offset) := row]
      case _ => before
  }

  /** The line leaves by an exception, or lands on a key already taken. */
  predicate FaultsAt(stream: StreamId, entry: Entry, rows: map<Key, Row>)
  {
    entry.class_.Fault? || (entry.class_.Accepted? && (stream, entry.offset) in rows)
  }

  predicate Faults(stream: StreamId, entries: seq<Entry>, rows: map<Key, Row>)
  {
    exists i | 0 <= i < |entries| :: FaultsAt(stream, entries[i], rows)
  }

  /** A row the resume query may return: any stream of this source, or none when there is none. */
  predicate Fetchable(t: Tables, name: string, existing: Option<StreamId>)
  {
    match existing
    case Some(stream) => (name, stream) in t.sources
    case None => forall key | key in t.sources :: key.0 != name
  }

  function StartOffset(t: Tables, name: string, existing: Option<StreamId>, current: StreamId): nat
    requires Fetchable(t, name, existing)
  {
    if existing == Some(current) then t.sources[(name, current)].byteOffset else 0
  }

  function HistoryFor(t: Tables, name: string, existing: Option<StreamId>, atOpen: Bytes): seq<HistoryRow>
    requires Fetchable(t, name, existing)
  {
    var current := StreamIdOf(atOpen);
    match existing
    case None => [HistoryRow(name, current, FirstSeen, None)]
    case Some(prev) =>
      if prev == current then []
      else
        var offset := t.sources[(name, prev)].byteOffset;
        [HistoryRow(name, current, if |atOpen| < offset then Truncation else Rotation, Some((prev, offset)))]
  }

  function WithWatermark(t: Tables, name: string, existing: Option<StreamId>, atOpen: Bytes,
                         offset: nat, inserted: nat): Tables
    requires Fetchable(t, name, existing)
  {
    var current := StreamIdOf(atOpen);
    var before := if existing == Some(current) then t.sources[(name, current)].rowsIngested else 0;
    t.(sources := t.sources[(name, current) := SourceRow(offset, before + inserted)],
       history := t.history + HistoryFor(t, name, existing, atOpen))
  }

  /** What one fault-free pass commits. */
  function TailedTables<Obj>(source: Source<Obj>, t: Tables, name: string, existing: Option<StreamId>,
                             atOpen: Bytes, file: Bytes): Tables
    requires Fetchable(t, name, existing)
  {
    var current := StreamIdOf(atOpen);
    var start := StartOffset(t, name, existing, current);
    var entries := PassEntries(source, t, name, existing, atOpen, file);
    WithWatermark(t.(rows := t.rows + RowsOf(current, entries)), name, existing, atOpen,
                  NewOffset(file, start), TallyOf(entries).inserted)
  }

  predicate PassFaults<Obj>(source: Source<Obj>, t: Tables, name: string, existing: Option<StreamId>,
                            atOpen: Bytes, file: Bytes)
    requires Fetchable(t, name, existing)
  {
    var current := StreamIdOf(atOpen);
    Faults(current, PassEntries(source, t, name, existing, atOpen, file), t.rows)
  }

  /** The complete lines this pass reads. */
  function PassEntries<Obj>(source: Source<Obj>, t: Tables, name: string, existing: Option<StreamId>,
                            atOpen: Bytes, file: Bytes): seq<Entry>
    requires Fetchable(t, name, existing)
  {
    Entries(source, NewLines(file, StartOffset(t, name, existing, StreamIdOf(atOpen))))
  }

  /** A pass records one line of history unless the identity is the known one: first seen, cut short, or replaced. */
  lemma HistoryIs<Obj>(source: Source<Obj>, t: Tables, name: string, existing: Option<StreamId>, atOpen: Bytes, file: Bytes)
    requires Fetchable(t, name, existing)
    ensures var after := TailedTables(source, t, name, existing, atOpen, file).history;
      && t.history <= after
      && |after| == |t.history| + (if existing == Some(StreamIdOf(atOpen)) then 0 else 1)
      && (existing != Some(StreamIdOf(atOpen)) ==>
            var row := after[|t.history|];
            && row.sourceName == name && row.streamId == StreamIdOf(atOpen)
            && (row.reason == FirstSeen <==> existing == None)
            && (row.reason == Truncation <==> existing.Some? && |atOpen| < t.sources[(name, existing.value)].byteOffset)
            && (existing == None ==> row.prior == None)
            && (existing.Some? ==> row.prior == Some((existing.value, t.sources[(name, existing.value)].byteOffset))))
  {
    hide PassEntries, RowsOf, TallyOf;
  }

  // ---- the call ------------------------------------------------------------

  /** The connection `tail` is handed: what is durable, and what this transaction has written. */
  class Warehouse<!Obj> {
    var committed: Tables
    var working: Tables

    /**
     One call of `tail`. `atOpen` is the file when its head is read, `file` when its
     bytes are. `existing` is the row the resume query happened to return.
     */
    method Tail(source: Source<Obj>, name: string, onDisk: bool, atOpen: Bytes, file: Bytes)
      returns (result: TailResult, existing: Option<StreamId>)
      modifies this
      ensures onDisk ==> Fetchable(old(working), name, existing)
      ensures !onDisk ==> result == Missing && working == old(working) && committed == old(committed)
      ensures onDisk && PassFaults(source, old(working), name, existing, atOpen, file) ==>
        result == Raised && committed == old(committed) && working.sources == old(working).sources
      ensures onDisk && !PassFaults(source, old(working), name, existing, atOpen, file) ==>
        && committed == working == TailedTables(source, old(working), name, existing, atOpen, file)
        && result == Tailed(
             TallyOf(PassEntries(source, old(working), name, existing, atOpen, file)),
             existing.Some? && existing != Some(StreamIdOf(atOpen)))
    {
      if !onDisk {
        return Missing, None;
      }
      existing := FetchExisting(name);
      var current := StreamIdOf(atOpen);
      var start := StartOffset(working, name, existing, current);
      var complete, consumed := ReadFrom(file, start);
      var ok, tally := IngestLines(source, current, start, complete, file);
      if !ok {
        return Raised, existing;
      }
      MoveWatermark(name, existing, atOpen, start + consumed, tally.inserted);
      result := Tailed(tally, existing.Some? && existing != Some(current));
    }

    /** The history row, the watermark upsert and the one commit. */
    method MoveWatermark(name: string, existing: Option<StreamId>, atOpen: Bytes, offset: nat, inserted: nat)
      requires Fetchable(working, name, existing)
      modifies this
      ensures committed == working == WithWatermark(old(working), name, existing, atOpen, offset, inserted)
    {
      var current := StreamIdOf(atOpen);
      var before := if existing == Some(current) then working.sources[(name, current)].rowsIngested else 0;
      working := Tables(
        working.rows,
        working.sources[(name, current) := SourceRow(offset, before + inserted)],
        working.history + HistoryFor(working, name, existing, atOpen));
      committed := working;
    }

    /** The resume query selects by source name alone and takes whichever row comes first. */
    method FetchExisting(name: string) returns (existing: Option<StreamId>)
      ensures Fetchable(working, name, existing)
    {
      var known := set key | key in working.sources && key.0 == name :: key.1;
      assert forall key | key in working.sources :: key.0 == name ==> key.1 in known;
      if known == {} {
        return None;
      }
      var stream :| stream in known;
      return Some(stream);
    }

    /** The loop over the complete lines: `ok` is false when an exception leaves it. */
    method IngestLines(source: Source<Obj>, stream: StreamId, start: nat, complete: seq<Bytes>, ghost file: Bytes)
      returns (ok: bool, tally: Tally)
      requires complete == Texts(NewLines(file, start))
      modifies this`working
      ensures working.sources == old(working).sources && working.history == old(working).history
      ensures var entries := Entries(source, NewLines(file, start));
        && ok == !Faults(stream, entries, old(working).rows)
        && (ok ==>
             && tally == TallyOf(entries)
             && working.rows == old(working).rows + RowsOf(stream, entries))
    {
      hide LinesFrom, Watermark, Texts, Classify;
      ghost var lines := NewLines(file, start);
      ghost var entries := Entries(source, lines);
      ghost var rows := working.rows;
      NewLinesAreContiguous(file, start);
      tally := ZERO;
      var lineStart: nat := start;
      var i := 0;
      while i < |complete|
        invariant 0 <= i <= |complete| == |lines| == |entries|
        invariant Contiguous(lines[i..], lineStart, NewOffset(file, start))
        invariant ReadSoFar(stream, entries[..i], rows, working.rows, tally)
        invariant working.sources == old(working).sources && working.history == old(working).history
      {
        var line := complete[i];
        var offset := lineStart;
        lineStart := lineStart + |line| + 1;
        TextsAt(lines, i);
        LineKeyIsNew(source, file, start, i, stream);
        ReadOneMore(stream, entries, i, rows, working.rows, tally);
        ok, tally := IngestLine(source, stream, offset, line, tally);
        if !ok {
          return;
        }
        i := i + 1;
      }
      assert entries[..i] == entries;
      ok := true;
    }

    /** The body of the loop: `ok` is false when an exception leaves it. */
    method IngestLine(source: Source<Obj>, stream: StreamId, offset: nat, line: Bytes, tally: Tally)
      returns (ok: bool, tallied: Tally)
      modifies this`working
      ensures var entry := Entry(offset, Classify(source, line));
        && ok == !FaultsAt(stream, entry, old(working).rows)
        && (ok ==> tallied == tally.Tick(entry.class_))
        && working == match entry.class_
             case Accepted(row) =>
               if ok then old(working).(rows := old(working).rows[(stream, offset) := row]) else old(working)
             case _ => old(working)
    {
      if IsBlank(line) {
        return true, tally.(blank := tally.blank + 1);
      }
      var decoded := source.decode(line);
      if decoded.NotUtf8? {
        return false, tally;
      }
      if decoded.NotJson? {
        return true, tally.(skipped := tally.skipped + 1);
      }
      var mapped := source.rowMapper(decoded.obj, line);
      if mapped.MapperRaised? {
        return false, tally;
      }
      if mapped.RejectedRow? {
        return true, tally.(rejected := tally.rejected + 1);
      }
      if UnsupportedTypeFields(mapped.row) != {} {
        return true, tally.(quarantined := tally.quarantined + 1);
      }
      var outcome := Insert(source, (stream, offset), mapped.row);
      match outcome {
        case Inserted =>
          return true, tally.(inserted := tally.inserted + 1);
        case Overflow =>
          return true, tally.(quarantined := tally.quarantined + 1);
        case Violates(v) =>
          if !IsBadDataConstraint(v) {
            return false, tally;
          }
          return true, tally.(quarantined := tally.quarantined + 1);
      }
    }

    /** The plain INSERT: out-of-range values fail at binding, then the row's own checks, then the key. */
    method Insert(source: Source<Obj>, key: Key, row: Row) returns (r: InsertOutcome)
      modifies this`working
      ensures r.Inserted? <==>
        && !(exists field :: field in row && OutOfRange(row[field]))
        && source.violation(row) == None
        && key !in old(working).rows
      ensures r.Overflow? <==> exists field :: field in row && OutOfRange(row[field])
      ensures r.Violates? ==>
        r.violation == match source.violation(row) case Some(v) => v case None => PRIMARY_KEY
      ensures working == if r.Inserted? then old(working).(rows := old(working).rows[key := row])
                         else old(working)
    {
      if exists field :: field in row && OutOfRange(row[field]) {
        return Overflow;
      }
      match source.violation(row) {
        case Some(v) => return Violates(v);
        case None =>
      }
      if key in working.rows {
        return Violates(PRIMARY_KEY);
      }
      working := working.(rows := working.rows[key := row]);
      return Inserted;
    }
  }

  datatype InsertOutcome = Inserted | Overflow | Violates(violation: Violation)

  /** The rows a pass has added so far sit below the line it is about to read. */
  lemma LineKeyIsNew<Obj>(source: Source<Obj>, file: Bytes, start: nat, i: nat, stream: StreamId)
    requires i < |NewLines(file, start)|
    ensures (stream, NewLines(file, start)[i].offset) !in
            RowsOf(stream, Entries(source, NewLines(file, start))[..i])
  {
    LinesAreOrdered(file, start);
    RowKeysAreOffsets(stream, Entries(source, NewLines(file, start))[..i]);
  }

  /** The loop's state after the lines in `done`, none of which faulted. */
  ghost predicate ReadSoFar(stream: StreamId, done: seq<Entry>, before: map<Key, Row>, rows: map<Key, Row>, tally: Tally)
  {
    && tally == TallyOf(done)
    && rows == before + RowsOf(stream, done)
    && !Faults(stream, done, before)
  }

  lemma ReadOneMore(stream: StreamId, entries: seq<Entry>, i: nat, before: map<Key, Row>, rows: map<Key, Row>, tally: Tally)
    requires i < |entries| && ReadSoFar(stream, entries[..i], before, rows, tally)
    requires (stream, entries[i].offset) !in RowsOf(stream, entries[..i])
    ensures FaultsAt(stream, entries[i], rows) ==> Faults(stream, entries, before)
    ensures !FaultsAt(stream, entries[i], rows) ==>
              ReadSoFar(stream, entries[..i + 1], before,
                        if entries[i].class_.Accepted? then rows[(stream, entries[i].offset) := entries[i].class_.row]
                        else rows,
                        tally.Tick(entries[i].class_))
  {
    assert entries[..i + 1][..i] == entries[..i];
    assert FaultsAt(stream, entries[i], rows) == FaultsAt(stream, entries[i], before);
    if !FaultsAt(stream, entries[i], rows) {
      assert forall k | 0 <= k < i :: entries[..i + 1][k] == entries[..i][k];
    }
  }

  /** Exactly the offsets of accepted lines are keys. */
  lemma {:induction false} RowKeysAreOffsets(stream: StreamId, entries: seq<Entry>)
    ensures forall key | key in RowsOf(stream, entries) ::
              key.0 == stream && exists k :: 0 <= k < |entries| && entries[k].offset == key.1 && entries[k].class_.Accepted?
    ensures forall k | 0 <= k < |entries| && entries[k].class_.Accepted? ::
              (stream, entries[k].offset) in RowsOf(stream, entries)
  {
    if entries != [] {
      RowKeysAreOffsets(stream, entries[..|entries| - 1]);
    }
  }

  lemma {:induction false} InsertedAppend(a: seq<Entry>, b: seq<Entry>)
    ensures TallyOf(a + b).inserted == TallyOf(a).inserted + TallyOf(b).inserted
  {
    if b == [] {
      assert a + b == a;
    } else {
      var last := |b| - 1;
      InsertedAppend(a, b[..last]);
      assert (a + b)[..|a + b| - 1] == a + b[..last];
    }
  }

  lemma {:induction false} RowsAppend(stream: StreamId, a: seq<Entry>, b: seq<Entry>)
    ensures RowsOf(stream, a + b) == RowsOf(stream, a) + RowsOf(stream, b)
  {
    if b == [] {
      assert a + b == a;
    } else {
      var last := |b| - 1;
      RowsAppend(stream, a, b[..last]);
      assert (a + b)[..|a + b| - 1] == a + b[..last];
    }
  }
}
