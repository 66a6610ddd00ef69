/**
 atlas/ingest/session_pull.py: reading each main-session transcript from its
 watermark, one commit or rollback at a time.
 */
module SessionPull {
  import opened Sequences
  import opened Wrappers
  import opened Transcript
  import opened TranscriptStore

  type Path = string

  type Store = map<Path, FileTables>

  /** One transcript as this pull meets it; other processes may append between the three reads. */
  datatype Snapshot = Snapshot(atHead: Bytes, atStat: Bytes, atRead: Bytes)

  /**
   A discovered path. `disk` is None when the path is not a session transcript or
   is no longer a file. `crashAt` names the new line at which something else raises,
   counting the step after the last line as one more.
   */
  datatype Visit = Visit(path: Path, disk: Option<Snapshot>, crashAt: Option<nat>)

  datatype Counts = Counts(calls: nat, results: nat, texts: nat, malformed: nat)

  const NO_COUNTS := Counts(0, 0, 0, 0)

  datatype Outcome = Skipped | Pulled(tables: FileTables, counts: Counts) | Crashed

  // ---- one transcript ------------------------------------------------------

  const EMPTY_TABLES := FileTables([], 0, 0, map[], map[], map[], map[])

  function Lookup(store: Store, path: Path): Option<FileTables>
  {
    if path in store then Some(store[path]) else None
  }

  /** The transcript row after the upsert; a changed identity is re-read from zero. */
  function Upserted(before: Option<FileTables>, streamId: Bytes): FileTables
  {
    (match before case None => EMPTY_TABLES case Some(t) => t).(streamId := streamId)
  }

  function ResumeOffset(before: Option<FileTables>, streamId: Bytes): nat
  {
    match before
    case None => 0
    case Some(t) => if t.streamId != streamId then 0 else t.byteOffset
  }

  datatype Progress = Going(tables: FileTables, counts: Counts) | Failed

  function PullLine(codec: Codec, before: Progress, line: Line, denyIds: set<string>): Progress
  {
    match before
    case Failed => Failed
    case Going(t, c) =>
      match ReadLine(codec, line, denyIds)
      case Uncaught => Failed
      case Blank => Going(t, c)
      case Malformed => Going(t, c.(malformed := c.malformed + 1))
      case Good(rows) => if RowsRaise(t, rows) then Failed else Going(StoreRows(t, rows), Counted(t, c, rows))
  }

  function Counted(t: FileTables, c: Counts, rows: LineRows): Counts
  {
    var kept := KeepFirst(t.results, rows.results);
    Counts(
      c.calls + AdmittedCount(t.calls, rows.calls),
      c.results + if |kept| > |t.results| then |kept| - |t.results| else 0,
      c.texts + AdmittedCount(t.texts, rows.texts),
      c.malformed)
  }

  function PullLines(codec: Codec, t0: FileTables, lines: seq<Line>, denyIds: set<string>): Progress
  {
    if lines == [] then Going(t0, NO_COUNTS)
    else
      var last := |lines| - 1;
      PullLine(codec, PullLines(codec, t0, lines[..last], denyIds), lines[last], denyIds)
  }

  /** The new lines this visit reads: none when the file is no larger than the watermark. */
  function VisitLines(before: Option<FileTables>, disk: Snapshot, streamId: Bytes): seq<Line>
  {
    var start := ResumeOffset(before, streamId);
    if |disk.atStat| <= start then [] else NewLines(disk.atRead, start)
  }

  predicate CrashFires(crashAt: Option<nat>, lines: nat)
  {
    crashAt.Some? && crashAt.value <= lines
  }

  /** What `pull_session` does to the transcript's own rows. */
  function PullFile(codec: Codec, before: Option<FileTables>, visit: Visit, denyIds: set<string>): Outcome
  {
    if visit.disk == None || StreamIdOfPath(visit.disk.value.atHead) == None then Skipped
    else
      var disk := visit.disk.value;
      var streamId := StreamIdOfPath(disk.atHead).value;
      var t0 := Upserted(before, streamId);
      var start := ResumeOffset(before, streamId);
      var lines := VisitLines(before, disk, streamId);
      if CrashFires(visit.crashAt, |lines|) then Crashed
      else if |disk.atStat| <= start then Pulled(t0, NO_COUNTS)
      else
        match PullLines(codec, t0, lines, denyIds)
        case Failed => Crashed
        case Going(t, c) =>
          Pulled(t.(byteOffset := NewOffset(disk.atRead, start), callsIngested := t.callsIngested + c.calls), c)
  }

  // ---- the run -------------------------------------------------------------

  datatype Db = Db(committed: Store, working: Store)

  predicate Commits(o: Outcome)
  {
    o.Pulled? && (o.counts.calls > 0 || o.counts.results > 0 || o.counts.texts > 0)
  }

  function VisitFile(codec: Codec, db: Db, visit: Visit, denyIds: set<string>): Db
  {
    var outcome := PullFile(codec, Lookup(db.working, visit.path), visit, denyIds);
    match outcome
    case Skipped => db
    case Crashed => Db(db.committed, db.committed)
    case Pulled(t, _) =>
      var working := db.working[visit.path := t];
      Db(if Commits(outcome) then working else db.committed, working)
  }

  function VisitFiles(codec: Codec, db: Db, visits: seq<Visit>, denyIds: set<string>): Db
  {
    if visits == [] then db
    else
      var last := |visits| - 1;
      VisitFile(codec, VisitFiles(codec, db, visits[..last], denyIds), visits[last], denyIds)
  }

  /** What a whole run leaves durable: the loop, then its closing commit. */
  function RunStore(codec: Codec, store: Store, visits: seq<Visit>, denyIds: set<string>): Store
  {
    VisitFiles(codec, Db(store, store), visits, denyIds).working
  }

  // ---- the program ---------------------------------------------------------

  datatype PullResult = NotATranscript | Done(counts: Counts) | Raised

  datatype Summary = Summary(read: nat, skipped: nat, errored: nat)

  /** The shared connection: what is durable, and what the open transaction holds. */
  class Connection {
    var committed: Store
    var working: Store

    method PullSession(codec: Codec, visit: Visit, denyIds: set<string>) returns (result: PullResult)
      modifies this`working
      ensures match PullFile(codec, Lookup(old(working), visit.path), visit, denyIds)
        case Skipped => result == NotATranscript && working == old(working)
        case Pulled(t, c) => result == Done(c) && working == old(working)[visit.path := t]
        case Crashed => result == Raised
    {
      hide PullLines, LinesFrom, Watermark, StreamIdOfPath;
      if visit.disk == None {
        return NotATranscript;
      }
      var disk := visit.disk.value;
      var id := StreamIdOfPath(disk.atHead);
      if id == None {
        return NotATranscript;
      }
      var path, before := visit.path, Lookup(working, visit.path);
      ghost var entry := working;
      var start := ResumeOffset(before, id.value);
      ghost var t0 := Upserted(before, id.value);
      working := working[path := Upserted(before, id.value)];
      if |disk.atStat| <= start {
        if visit.crashAt == Some(0) {
          return Raised;
        }
        return Done(NO_COUNTS);
      }
      var complete, consumed := ReadFrom(disk.atRead, start);
      var ok, counts := PullNewLines(codec, path, start, complete, denyIds, visit.crashAt, entry, disk.atRead);
      if !ok {
        return Raised;
      }
      var t := working[path];
      working := working[path := t.(byteOffset := start + consumed, callsIngested := t.callsIngested + counts.calls)];
      assert working == entry[path := working[path]];
      return Done(counts);
    }

    /** The loop over the complete lines; `ok` is false when an exception leaves it. */
    method PullNewLines(codec: Codec, path: Path, start: nat, complete: seq<Bytes>, denyIds: set<string>,
                        crashAt: Option<nat>, ghost entry: Store, ghost file: Bytes)
      returns (ok: bool, counts: Counts)
      requires complete == Texts(NewLines(file, start))
      requires path in working && working == entry[path := working[path]]
      modifies this`working
      ensures path in working && working == entry[path := working[path]]
      ensures var lines := NewLines(file, start);
        var progress := PullLines(codec, old(working[path]), lines, denyIds);
        && ok == (!CrashFires(crashAt, |lines|) && progress.Going?)
        && (ok ==> progress == Going(working[path], counts))
    {
      hide PullLines, PullLine, LinesFrom, Watermark, Texts;
      ghost var lines := NewLines(file, start);
      ghost var t0 := working[path];
      NewLinesAreContiguous(file, start);
      NothingPulled(codec, t0, lines, denyIds);
      counts := NO_COUNTS;
      var offset: nat := start;
      var i := 0;
      while i < |complete|
        invariant 0 <= i <= |complete| == |lines|
        invariant Contiguous(lines[i..], offset, NewOffset(file, start))
        invariant path in working && working == entry[path := working[path]]
        invariant PullLines(codec, t0, lines[..i], denyIds) == Going(working[path], counts)
        invariant crashAt.Some? ==> i <= crashAt.value
      {
        var line := complete[i];
        var thisOffset := offset;
        offset := offset + |line| + 1;
        TextsAt(lines, i);
        PullOneMore(codec, t0, lines, i, denyIds);
        if crashAt == Some(i) {
          return false, counts;
        }
        ok, counts := PullOneLine(codec, path, Line(thisOffset, line), denyIds, counts, entry);
        if !ok {
          FailedStaysFailed(codec, t0, lines, i + 1, denyIds);
          return;
        }
        i := i + 1;
      }
      assert lines[..i] == lines;
      ok := crashAt != Some(i);
    }

    /** The body of the loop. */
    method PullOneLine(codec: Codec, path: Path, line: Line, denyIds: set<string>, counts: Counts, ghost entry: Store)
      returns (ok: bool, counted: Counts)
      requires path in working && working == entry[path := working[path]]
      modifies this`working
      ensures path in working && working == entry[path := working[path]]
      ensures var progress := PullLine(codec, Going(old(working[path]), counts), line, denyIds);
        && ok == progress.Going?
        && (ok ==> progress == Going(working[path], counted))
    {
      counted := counts;
      if IsBlank(line.text) {
        return true, counted;
      }
      if codec.breaks(line.text) {
        return false, counted;
      }
      var loaded := codec.loads(line.text);
      if loaded == None || !loaded.value.Object? {
        return true, counted.(malformed := counted.malformed + 1);
      }
      var mapped := MapTranscriptLine(codec, loaded.value.fields, line.offset, denyIds);
      if mapped.ShapeError? {
        return true, counted.(malformed := counted.malformed + 1);
      }
      if mapped.EncodeError? {
        return false, counted;
      }
      ok, counted := StoreLine(path, mapped.rows, counts, entry);
    }

    method StoreLine(path: Path, rows: LineRows, counts: Counts, ghost entry: Store)
      returns (ok: bool, counted: Counts)
      requires path in working && working == entry[path := working[path]]
      modifies this`working
      ensures path in working && working == entry[path := working[path]]
      ensures ok == !RowsRaise(old(working[path]), rows)
      ensures ok ==> working[path] == StoreRows(old(working[path]), rows)
                     && counted == Counted(old(working[path]), counts, rows)
    {
      hide AdmitAll, AdmittedCount, KeepFirst, Raises, Check;
      var t := working[path];
      counted := counts;
      var texts, calls, blocks, results, added;
      ok, texts, added := InsertRows(t.texts, rows.texts);
      if !ok {
        return;
      }
      counted := counted.(texts := counted.texts + added);
      ok, calls, added := InsertRows(t.calls, rows.calls);
      if !ok {
        return;
      }
      counted := counted.(calls := counted.calls + added);
      ok, results := InsertOrIgnore(t.results, rows.results);
      if !ok {
        return;
      }
      counted := counted.(results := counted.results + if |results| > |t.results| then |results| - |t.results| else 0);
      ok, blocks, added := InsertRows(t.blocks, rows.blocks);
      if !ok {
        return;
      }
      working := working[path := t.(texts := texts, calls := calls, results := results, blocks := blocks)];
    }

    /**
     One pass over the corpus. An exception in one file rolls back to the last commit
     and the loop goes on; a file commits only if it inserted a call, a result or a text.
     */
    method Run(codec: Codec, visits: seq<Visit>, denyIds: set<string>) returns (summary: Summary)
      modifies this
      ensures committed == working == RunStore(codec, old(committed), visits, denyIds)
      ensures summary.read + summary.skipped + summary.errored == |visits|
    {
      working := committed;
      summary := Summary(0, 0, 0);
      ghost var db0 := Db(committed, committed);
      for i := 0 to |visits|
        invariant Db(committed, working) == VisitFiles(codec, db0, visits[..i], denyIds)
        invariant summary.read + summary.skipped + summary.errored == i
      {
        assert visits[..i + 1][..i] == visits[..i];
        var result := PullSession(codec, visits[i], denyIds);
        match result {
          case Raised =>
            working := committed;
            summary := summary.(errored := summary.errored + 1);
          case NotATranscript =>
            summary := summary.(skipped := summary.skipped + 1);
          case Done(c) =>
            summary := summary.(read := summary.read + 1);
            if c.calls > 0 || c.results > 0 || c.texts > 0 {
              committed := working;
            }
        }
      }
      assert visits[..|visits|] == visits;
      committed := working;
    }
  }

  /** Check for a replay, then insert, row by row. */
  method InsertRows<R>(table: Table<R>, rows: seq<Candidate<R>>) returns (ok: bool, after: Table<R>, added: nat)
    ensures ok == !Raises(table, rows)
    ensures ok ==> after == AdmitAll(table, rows) && added == AdmittedCount(table, rows)
  {
    after, added := table, 0;
    for i := 0 to |rows|
      invariant after == AdmitAll(table, rows[..i]) && added == AdmittedCount(table, rows[..i])
      invariant !Raises(table, rows[..i])
    {
      assert rows[..i + 1][..i] == rows[..i];
      var c := rows[i];
      var check := Check(after, c);
      if check in {Alarm, Collision, Refused} {
        RaisesEarlier(table, rows, i + 1);
        return false, after, added;
      }
      if check == Fresh {
        after := after[KeyOf(c) := StoredRow(c.recordUuid, c.content)];
        added := added + 1;
      }
    }
    assert rows[..|rows|] == rows;
    ok := true;
  }

  method InsertOrIgnore(results: map<Json, ResultRow>, rows: seq<ResultRow>) returns (ok: bool, after: map<Json, ResultRow>)
    ensures ok == !ResultsRaise(rows)
    ensures ok ==> after == KeepFirst(results, rows)
  {
    after := results;
    for i := 0 to |rows|
      invariant after == KeepFirst(results, rows[..i])
      invariant forall j | 0 <= j < i :: rows[j].binds
    {
      assert rows[..i + 1][..i] == rows[..i];
      if !rows[i].binds {
        return false, after;
      }
      if rows[i].toolUseId !in after {
        after := after[rows[i].toolUseId := rows[i]];
      }
    }
    assert rows[..|rows|] == rows;
    ok := true;
  }

  lemma {:induction false} RaisesEarlier<R>(table: Table<R>, rows: seq<Candidate<R>>, n: nat)
    requires n <= |rows| && Raises(table, rows[..n])
    ensures Raises(table, rows)
    decreases |rows| - n
  {
    if n < |rows| {
      assert rows[..n + 1][..n] == rows[..n];
      RaisesEarlier(table, rows, n + 1);
    } else {
      assert rows[..n] == rows;
    }
  }

  lemma NothingPulled(codec: Codec, t0: FileTables, lines: seq<Line>, denyIds: set<string>)
    ensures PullLines(codec, t0, lines[..0], denyIds) == Going(t0, NO_COUNTS)
  {
  }

  lemma PullOneMore(codec: Codec, t0: FileTables, lines: seq<Line>, i: nat, denyIds: set<string>)
    requires i < |lines|
    ensures PullLines(codec, t0, lines[..i + 1], denyIds) ==
            PullLine(codec, PullLines(codec, t0, lines[..i], denyIds), lines[i], denyIds)
  {
    assert lines[..i + 1][..i] == lines[..i];
  }

  lemma {:induction false} FailedStaysFailed(codec: Codec, t0: FileTables, lines: seq<Line>, n: nat, denyIds: set<string>)
    requires n <= |lines| && PullLines(codec, t0, lines[..n], denyIds) == Failed
    ensures PullLines(codec, t0, lines, denyIds) == Failed
    decreases |lines| - n
  {
    if n < |lines| {
      PullOneMore(codec, t0, lines, n, denyIds);
      FailedStaysFailed(codec, t0, lines, n + 1, denyIds);
    } else {
      assert lines[..n] == lines;
    }
  }
}
