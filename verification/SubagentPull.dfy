/**
 atlas/ingest/subagent_pull.py, `pull_transcript` and the loop of `run`: plain
 inserts, no per-file rollback, and an error path that commits whatever the
 crashed file had inserted.
 */
module SubagentPull {
  import opened Sequences
  import opened Wrappers
  import opened Transcript
  import opened TranscriptStore
  import opened SessionPull

  datatype SubTables = SubTables(
    streamId: Bytes,
    byteOffset: nat,
    callsIngested: nat,
    texts: map<RowKey, TextRow>,
    calls: map<RowKey, CallRow>,
    results: map<Json, ResultRow>)

  const EMPTY_SUB_TABLES := SubTables([], 0, 0, map[], map[], map[])

  // ---- one transcript ------------------------------------------------------

  /** What the loop does for a line, one statement at a time. `Raise` is the decoding or the unguarded mapping raising. */
  datatype Step =
    | InsertText(text: Candidate<TextRow>)
    | InsertCall(call: Candidate<CallRow>)
    | InsertResult(result: ResultRow)
    | CountMalformed
    | Raise

  function TextSteps(texts: seq<Candidate<TextRow>>): seq<Step>
  {
    if texts == [] then [] else [InsertText(texts[0])] + TextSteps(texts[1..])
  }

  function CallSteps(calls: seq<Candidate<CallRow>>): seq<Step>
  {
    if calls == [] then [] else [InsertCall(calls[0])] + CallSteps(calls[1..])
  }

  function ResultSteps(results: seq<ResultRow>): seq<Step>
  {
    if results == [] then [] else [InsertResult(results[0])] + ResultSteps(results[1..])
  }

  function StepsOfRows(rows: LineRows): seq<Step>
  {
    TextSteps(rows.texts) + CallSteps(rows.calls) + ResultSteps(rows.results)
  }

  function StepsOfLine(codec: Codec, line: Line, denyIds: set<string>): seq<Step>
  {
    if IsBlank(line.text) then []
    else if codec.breaks(line.text) then [Raise]
    else match codec.loads(line.text)
      case Some(Object(fields)) =>
        (match MapTranscriptLine(codec, fields, line.offset, denyIds)
         case Rows(rows) => StepsOfRows(rows)
         case _ => [Raise])
      case _ => [CountMalformed]
  }

  function StepsOfLines(codec: Codec, lines: seq<Line>, denyIds: set<string>): seq<Step>
  {
    if lines == [] then []
    else StepsOfLine(codec, lines[0], denyIds) + StepsOfLines(codec, lines[1..], denyIds)
  }

  /** `ok` turns false at the first exception; the tables are what the transaction then holds. */
  datatype SubProgress = SubProgress(ok: bool, tables: SubTables, counts: Counts)

  /**
   A plain INSERT fails on a row the table does not take and on a key already taken; a result
   that can be bound is inserted or ignored.
   */
  function Do(p: SubProgress, step: Step): SubProgress
  {
    var t, c := p.tables, p.counts;
    match step
    case InsertText(text) =>
      if !text.inSubagent || KeyOf(text) in t.texts then p.(ok := false)
      else p.(tables := t.(texts := t.texts[KeyOf(text) := text.content]), counts := c.(texts := c.texts + 1))
    case InsertCall(call) =>
      if !call.inSubagent || KeyOf(call) in t.calls then p.(ok := false)
      else p.(tables := t.(calls := t.calls[KeyOf(call) := call.content]), counts := c.(calls := c.calls + 1))
    case InsertResult(result) =>
      if !result.binds then p.(ok := false)
      else if result.toolUseId in t.results then p
      else p.(tables := t.(results := t.results[result.toolUseId := result]), counts := c.(results := c.results + 1))
    case CountMalformed => p.(counts := c.(malformed := c.malformed + 1))
    case Raise => p.(ok := false)
  }

  function Less(budget: Option<nat>, n: nat): Option<nat>
  {
    match budget
    case None => None
    case Some(left) => Some(if n <= left then left - n else 0)
  }

  /** The steps in order; with a budget, something else raises before the step after that many. */
  function DoUntil(p: SubProgress, steps: seq<Step>, budget: Option<nat>): SubProgress
    decreases |steps|
  {
    if !p.ok || steps == [] then p
    else if budget == Some(0) then p.(ok := false)
    else DoUntil(Do(p, steps[0]), steps[1..], Less(budget, 1))
  }

  /** The whole loop; the exception may also come after its last step. */
  function DoSteps(p: SubProgress, steps: seq<Step>, budget: Option<nat>): SubProgress
  {
    var done := DoUntil(p, steps, budget);
    if budget.Some? && budget.value <= |steps| then done.(ok := false) else done
  }

  /** Where something outside the loop's own statements raises, if it does. */
  datatype Crash = NoCrash | AtOpen | After(steps: nat)

  /** One visit; `disk` is None when the path is not a transcript or is no longer a file. */
  datatype SubVisit = SubVisit(path: Path, disk: Option<Bytes>, denyIds: set<string>, crash: Crash)

  datatype SubOutcome =
    | Unread
    | Read(tables: SubTables, counts: Counts)
    | Broken(left: Option<SubTables>)

  /** The upsert: a changed identity is recorded, and read from zero. */
  function Renamed(before: Option<SubTables>, streamId: Bytes): SubTables
  {
    (match before case None => EMPTY_SUB_TABLES case Some(t) => t).(streamId := streamId)
  }

  function StartOf(before: Option<SubTables>, streamId: Bytes): nat
  {
    match before
    case None => 0
    case Some(t) => if t.streamId != streamId then 0 else t.byteOffset
  }

  function Budget(crash: Crash): Option<nat>
  {
    if crash.After? then Some(crash.steps) else None
  }

  function PullSubFile(codec: Codec, before: Option<SubTables>, visit: SubVisit): SubOutcome
  {
    if visit.disk == None then Unread
    else if visit.crash == AtOpen then Broken(before)
    else if StreamIdOfPath(visit.disk.value) == None then Unread
    else
      var file, streamId := visit.disk.value, StreamIdOfPath(visit.disk.value).value;
      var start := StartOf(before, streamId);
      var steps := StepsOfLines(codec, NewLines(file, start), visit.denyIds);
      var p := DoSteps(SubProgress(true, Renamed(before, streamId), NO_COUNTS), steps, Budget(visit.crash));
      if !p.ok then Broken(Some(p.tables))
      else if |file| <= start then Read(p.tables, p.counts)
      else
        Read(p.tables.(byteOffset := NewOffset(file, start), callsIngested := p.tables.callsIngested + p.counts.calls),
             p.counts)
  }

  // ---- the run -------------------------------------------------------------

  type SubStore = map<Path, SubTables>

  function Held(store: SubStore, path: Path): Option<SubTables>
  {
    if path in store then Some(store[path]) else None
  }

  function Put(store: SubStore, path: Path, t: Option<SubTables>): SubStore
  {
    match t case None => store case Some(tables) => store[path := tables]
  }

  /** What is durable, what the open transaction holds, and whether the loop still goes on. */
  datatype SubRun = SubRun(committed: SubStore, working: SubStore, going: bool)

  predicate CommitsAfter(c: Counts)
  {
    c.calls > 0 || c.results > 0 || c.texts > 0
  }

  /** One turn of the loop; an exception ends the run, and its error path commits. */
  function VisitSubFile(codec: Codec, run: SubRun, visit: SubVisit): SubRun
  {
    if !run.going then run
    else match PullSubFile(codec, Held(run.working, visit.path), visit)
      case Unread => run
      case Read(t, counts) =>
        var working := run.working[visit.path := t];
        SubRun(if CommitsAfter(counts) then working else run.committed, working, true)
      case Broken(left) =>
        var working := Put(run.working, visit.path, left);
        SubRun(working, working, false)
  }

  function VisitSubFiles(codec: Codec, run: SubRun, visits: seq<SubVisit>): SubRun
  {
    if visits == [] then run
    else VisitSubFile(codec, VisitSubFiles(codec, run, visits[..|visits| - 1]), visits[|visits| - 1])
  }

  // ---- the program ---------------------------------------------------------

  class SubConnection {
    var committed: SubStore
    var working: SubStore

    method PullTranscript(codec: Codec, visit: SubVisit) returns (result: PullResult)
      modifies this`working
      ensures match PullSubFile(codec, Held(old(working), visit.path), visit)
        case Unread => result == NotATranscript && working == old(working)
        case Read(t, counts) => result == Done(counts) && working == old(working)[visit.path := t]
        case Broken(left) => result == Raised && working == Put(old(working), visit.path, left)
    {
      hide DoUntil, StepsOfLine, LinesFrom, Watermark, StreamIdOfPath;
      if visit.disk == None {
        return NotATranscript;
      }
      if visit.crash == AtOpen {
        return Raised;
      }
      var file, id := visit.disk.value, StreamIdOfPath(visit.disk.value);
      if id == None {
        return NotATranscript;
      }
      var path, before := visit.path, Held(working, visit.path);
      ghost var entry := working;
      var start := StartOf(before, id.value);
      working := working[path := Renamed(before, id.value)];
      if |file| <= start {
        NothingNew(file, start);
        NothingMore(SubProgress(true, working[path], NO_COUNTS), [], Budget(visit.crash));
        if visit.crash == After(0) {
          return Raised;
        }
        return Done(NO_COUNTS);
      }
      var complete, consumed := ReadFrom(file, start);
      var progress := PullNewSubLines(codec, working[path], file, start, complete, visit.denyIds, Budget(visit.crash));
      working := working[path := progress.tables];
      assert working == entry[path := progress.tables];
      if !progress.ok {
        return Raised;
      }
      var t := progress.tables;
      working := working[path := t.(byteOffset := start + consumed, callsIngested := t.callsIngested + progress.counts.calls)];
      assert working == entry[path := working[path]];
      return Done(progress.counts);
    }

    method Run(codec: Codec, visits: seq<SubVisit>) returns (ok: bool)
      modifies this
      ensures SubRun(committed, working, ok) ==
              (var run := VisitSubFiles(codec, SubRun(old(committed), old(committed), true), visits);
               run.(committed := run.working))
    {
      hide PullSubFile;
      working := committed;
      ghost var start := SubRun(committed, committed, true);
      for i := 0 to |visits|
        invariant SubRun(committed, working, true) == VisitSubFiles(codec, start, visits[..i])
      {
        assert visits[..i + 1][..i] == visits[..i];
        var result := PullTranscript(codec, visits[i]);
        match result {
          case Raised =>
            committed := working;
            StoppedStaysStopped(codec, start, visits, i + 1);
            return false;
          case NotATranscript =>
          case Done(c) =>
            if c.calls > 0 || c.results > 0 || c.texts > 0 {
              committed := working;
            }
        }
      }
      assert visits[..|visits|] == visits;
      committed := working;
      ok := true;
    }
  }

  /** The loop over the lines; an exception leaves it with whatever it had inserted. */
  method PullNewSubLines(codec: Codec, t: SubTables, file: Bytes, start: nat, complete: seq<Bytes>,
                         denyIds: set<string>, budget: Option<nat>)
    returns (p: SubProgress)
    requires complete == Texts(NewLines(file, start))
    ensures p == DoSteps(SubProgress(true, t, NO_COUNTS), StepsOfLines(codec, NewLines(file, start), denyIds), budget)
  {
    hide DoUntil, Do, StepsOfLine, LinesFrom, Watermark, Texts;
    ghost var lines := NewLines(file, start);
    NewLinesAreContiguous(file, start);
    p := SubProgress(true, t, NO_COUNTS);
    var left := budget;
    var offset: nat := start;
    var i := 0;
    assert lines[i..] == lines;
    while i < |complete|
      invariant 0 <= i <= |complete| == |lines|
      invariant Contiguous(lines[i..], offset, NewOffset(file, start))
      invariant DoSteps(SubProgress(true, t, NO_COUNTS), StepsOfLines(codec, lines, denyIds), budget)
                == DoSteps(p, StepsOfLines(codec, lines[i..], denyIds), left)
    {
      TextsAt(lines, i);
      DoStepsAppend(p, StepsOfLine(codec, lines[i], denyIds), StepsOfLines(codec, lines[i + 1..], denyIds), left);
      p, left := PullOneSubLine(codec, p, Line(offset, complete[i]), denyIds, left);
      if !p.ok {
        NothingMore(p, StepsOfLines(codec, lines[i + 1..], denyIds), left);
        return;
      }
      offset := offset + |complete[i]| + 1;
      i := i + 1;
    }
    NothingMore(p, [], left);
    if left == Some(0) {
      p := p.(ok := false);
    }
  }

  method PullOneSubLine(codec: Codec, before: SubProgress, line: Line, denyIds: set<string>, budget: Option<nat>)
    returns (p: SubProgress, left: Option<nat>)
    ensures p == DoUntil(before, StepsOfLine(codec, line, denyIds), budget)
    ensures left == Less(budget, |StepsOfLine(codec, line, denyIds)|)
  {
    hide DoUntil, Do, TextSteps, CallSteps, ResultSteps, MapTranscriptLine;
    p, left := before, budget;
    NothingMore(p, [], left);
    if IsBlank(line.text) {
      return;
    }
    if codec.breaks(line.text) {
      p, left := Execute(p, Step.Raise, left);
      return;
    }
    var loaded := codec.loads(line.text);
    if loaded == None || !loaded.value.Object? {
      p, left := Execute(p, CountMalformed, left);
      return;
    }
    var mapped := MapTranscriptLine(codec, loaded.value.fields, line.offset, denyIds);
    if !mapped.Rows? {
      p, left := Execute(p, Step.Raise, left);
      return;
    }
    var rows := mapped.rows;
    DoUntilAppend(p, TextSteps(rows.texts) + CallSteps(rows.calls), ResultSteps(rows.results), left);
    DoUntilAppend(p, TextSteps(rows.texts), CallSteps(rows.calls), left);
    p, left := InsertTexts(p, rows.texts, left);
    p, left := InsertCalls(p, rows.calls, left);
    p, left := InsertResults(p, rows.results, left);
  }

  method InsertTexts(before: SubProgress, texts: seq<Candidate<TextRow>>, budget: Option<nat>)
    returns (p: SubProgress, left: Option<nat>)
    ensures p == DoUntil(before, TextSteps(texts), budget) && left == Less(budget, |TextSteps(texts)|)
  {
    hide DoUntil, Do;
    p, left := before, budget;
    for i := 0 to |texts|
      invariant DoUntil(before, TextSteps(texts), budget) == DoUntil(p, TextSteps(texts[i..]), left)
      invariant Less(budget, |TextSteps(texts)|) == Less(left, |TextSteps(texts[i..])|)
    {
      assert texts[i..][1..] == texts[i + 1..];
      DoUntilAppend(p, [InsertText(texts[i])], TextSteps(texts[i + 1..]), left);
      p, left := Execute(p, InsertText(texts[i]), left);
    }
    NothingMore(p, [], left);
  }

  method InsertCalls(before: SubProgress, calls: seq<Candidate<CallRow>>, budget: Option<nat>)
    returns (p: SubProgress, left: Option<nat>)
    ensures p == DoUntil(before, CallSteps(calls), budget) && left == Less(budget, |CallSteps(calls)|)
  {
    hide DoUntil, Do;
    p, left := before, budget;
    for i := 0 to |calls|
      invariant DoUntil(before, CallSteps(calls), budget) == DoUntil(p, CallSteps(calls[i..]), left)
      invariant Less(budget, |CallSteps(calls)|) == Less(left, |CallSteps(calls[i..])|)
    {
      assert calls[i..][1..] == calls[i + 1..];
      DoUntilAppend(p, [InsertCall(calls[i])], CallSteps(calls[i + 1..]), left);
      p, left := Execute(p, InsertCall(calls[i]), left);
    }
    NothingMore(p, [], left);
  }

  method InsertResults(before: SubProgress, results: seq<ResultRow>, budget: Option<nat>)
    returns (p: SubProgress, left: Option<nat>)
    ensures p == DoUntil(before, ResultSteps(results), budget) && left == Less(budget, |ResultSteps(results)|)
  {
    hide DoUntil, Do;
    p, left := before, budget;
    for i := 0 to |results|
      invariant DoUntil(before, ResultSteps(results), budget) == DoUntil(p, ResultSteps(results[i..]), left)
      invariant Less(budget, |ResultSteps(results)|) == Less(left, |ResultSteps(results[i..])|)
    {
      assert results[i..][1..] == results[i + 1..];
      DoUntilAppend(p, [InsertResult(results[i])], ResultSteps(results[i + 1..]), left);
      p, left := Execute(p, InsertResult(results[i]), left);
    }
    NothingMore(p, [], left);
  }

  /** One statement against the connection, unless an exception has already left the loop. */
  method Execute(before: SubProgress, step: Step, budget: Option<nat>) returns (p: SubProgress, left: Option<nat>)
    ensures p == DoUntil(before, [step], budget) && left == Less(budget, 1)
  {
    p, left := before, Less(budget, 1);
    DoOne(before, step, budget);
    if p.ok {
      p := if budget == Some(0) then p.(ok := false) else Do(p, step);
    }
  }

  lemma DoOne(p: SubProgress, step: Step, budget: Option<nat>)
    ensures DoUntil(p, [step], budget) ==
            if !p.ok then p else if budget == Some(0) then p.(ok := false) else Do(p, step)
  {
    hide Do;
    assert [step][1..] == [];
    var rest: seq<Step> := [];
    assert p.ok && budget != Some(0) ==> DoUntil(p, [step], budget) == DoUntil(Do(p, step), rest, Less(budget, 1));
  }

  lemma NothingMore(p: SubProgress, steps: seq<Step>, budget: Option<nat>)
    requires !p.ok || steps == []
    ensures DoUntil(p, steps, budget) == p
  {
  }

  lemma {:induction false} DoUntilAppend(p: SubProgress, a: seq<Step>, b: seq<Step>, budget: Option<nat>)
    ensures DoUntil(p, a + b, budget) == DoUntil(DoUntil(p, a, budget), b, Less(budget, |a|))
    decreases |a|
  {
    hide Do;
    if a == [] {
      assert a + b == b;
    } else if p.ok && budget != Some(0) {
      DoUntilAppend(Do(p, a[0]), a[1..], b, Less(budget, 1));
      assert (a + b)[1..] == a[1..] + b;
    }
  }

  lemma DoStepsAppend(p: SubProgress, a: seq<Step>, b: seq<Step>, budget: Option<nat>)
    ensures var after := DoUntil(p, a, budget);
      DoSteps(p, a + b, budget) == DoSteps(after, b, Less(budget, |a|))
  {
    hide DoUntil;
    DoUntilAppend(p, a, b, budget);
  }

  lemma NothingNew(file: Bytes, start: nat)
    requires |file| <= start
    ensures NewLines(file, start) == []
  {
  }

  // ---- what a pull that gets through stores ---------------------------------

  /** The rows are in, each under its key and with its content, and nothing else changed. */
  ghost predicate Gains<R>(before: map<RowKey, R>, after: map<RowKey, R>, rows: seq<Candidate<R>>)
  {
    && (forall key :: key in after <==> key in before || exists c :: c in rows && KeyOf(c) == key)
    && (forall key | key in before :: key in after && after[key] == before[key])
    && (forall c | c in rows :: KeyOf(c) in after && after[KeyOf(c)] == c.content)
  }

  lemma GainsNothing<R>(table: map<RowKey, R>)
    ensures Gains(table, table, [])
  {
  }

  lemma GainsOne<R>(table: map<RowKey, R>, c: Candidate<R>)
    requires KeyOf(c) !in table
    ensures Gains(table, table[KeyOf(c) := c.content], [c])
  {
  }

  lemma GainsBoth<R>(a: map<RowKey, R>, b: map<RowKey, R>, c: map<RowKey, R>, x: seq<Candidate<R>>, y: seq<Candidate<R>>)
    requires Gains(a, b, x) && Gains(b, c, y)
    ensures Gains(a, c, x + y)
  {
    forall key ensures key in c <==> key in a || exists row :: row in x + y && KeyOf(row) == key {
      if row :| row in x + y && KeyOf(row) == key {
        assert row in x || row in y;
      }
      if row :| row in x && KeyOf(row) == key {
        assert row in x + y;
      }
      if row :| row in y && KeyOf(row) == key {
        assert row in x + y;
      }
    }
  }

  /** Texts, calls and results all in, and counted. */
  ghost predicate AllGain(p: SubProgress, q: SubProgress, rows: LineRows)
  {
    && q.ok && Gains(p.tables.texts, q.tables.texts, rows.texts) && Gains(p.tables.calls, q.tables.calls, rows.calls)
    && q.tables.results == KeepFirst(p.tables.results, rows.results)
    && q.counts.texts == p.counts.texts + |rows.texts| && q.counts.calls == p.counts.calls + |rows.calls|
    && q.tables.callsIngested == p.tables.callsIngested
  }

  lemma AllGainNothing(p: SubProgress, q: SubProgress)
    requires p.ok && q.ok && q.tables == p.tables && q.counts.texts == p.counts.texts && q.counts.calls == p.counts.calls
    ensures AllGain(p, q, NO_ROWS)
  {
    GainsNothing(p.tables.texts);
    GainsNothing(p.tables.calls);
  }

  lemma AllGainBoth(p: SubProgress, q: SubProgress, r: SubProgress, x: LineRows, y: LineRows)
    requires AllGain(p, q, x) && AllGain(q, r, y)
    ensures AllGain(p, r, Concat(x, y))
  {
    hide Gains;
    GainsBoth(p.tables.texts, q.tables.texts, r.tables.texts, x.texts, y.texts);
    GainsBoth(p.tables.calls, q.tables.calls, r.tables.calls, x.calls, y.calls);
    KeepFirstAppend(p.tables.results, x.results, y.results);
  }

  function RowsOfStep(step: Step): LineRows
  {
    match step
    case InsertText(text) => NO_ROWS.(texts := [text])
    case InsertCall(call) => NO_ROWS.(calls := [call])
    case InsertResult(result) => NO_ROWS.(results := [result])
    case _ => NO_ROWS
  }

  function RowsOfSteps(steps: seq<Step>): LineRows
  {
    if steps == [] then NO_ROWS else Concat(RowsOfStep(steps[0]), RowsOfSteps(steps[1..]))
  }

  lemma StepGains(p: SubProgress, step: Step)
    requires p.ok && Do(p, step).ok
    ensures AllGain(p, Do(p, step), RowsOfStep(step))
  {
    hide Gains;
    var q := Do(p, step);
    GainsNothing(p.tables.texts);
    GainsNothing(p.tables.calls);
    match step {
      case InsertText(text) => GainsOne(p.tables.texts, text);
      case InsertCall(call) => GainsOne(p.tables.calls, call);
      case InsertResult(result) => KeepOne(p.tables.results, result);
      case _ =>
    }
  }

  lemma KeepOne(results: map<Json, ResultRow>, row: ResultRow)
    ensures KeepFirst(results, [row]) == if row.toolUseId in results then results else results[row.toolUseId := row]
  {
    assert [row][..0] == [];
  }

  lemma {:induction false} StepsGain(p: SubProgress, steps: seq<Step>, budget: Option<nat>)
    requires p.ok && DoUntil(p, steps, budget).ok
    ensures AllGain(p, DoUntil(p, steps, budget), RowsOfSteps(steps))
    decreases |steps|
  {
    hide Do, AllGain;
    if steps == [] {
      AllGainNothing(p, p);
    } else {
      var q := Do(p, steps[0]);
      if q.ok {
        StepGains(p, steps[0]);
        StepsGain(q, steps[1..], Less(budget, 1));
        AllGainBoth(p, q, DoUntil(q, steps[1..], Less(budget, 1)), RowsOfStep(steps[0]), RowsOfSteps(steps[1..]));
      }
    }
  }

  lemma {:induction false} RowsOfStepsAppend(a: seq<Step>, b: seq<Step>)
    ensures RowsOfSteps(a + b) == Concat(RowsOfSteps(a), RowsOfSteps(b))
  {
    hide RowsOfStep;
    if a == [] {
      assert a + b == b;
    } else {
      assert (a + b)[1..] == a[1..] + b;
      RowsOfStepsAppend(a[1..], b);
    }
  }

  lemma {:induction false} RowsOfTextSteps(texts: seq<Candidate<TextRow>>)
    ensures RowsOfSteps(TextSteps(texts)) == NO_ROWS.(texts := texts)
  {
    if texts != [] {
      RowsOfTextSteps(texts[1..]);
    }
  }

  lemma {:induction false} RowsOfCallSteps(calls: seq<Candidate<CallRow>>)
    ensures RowsOfSteps(CallSteps(calls)) == NO_ROWS.(calls := calls)
  {
    if calls != [] {
      RowsOfCallSteps(calls[1..]);
    }
  }

  lemma {:induction false} RowsOfResultSteps(results: seq<ResultRow>)
    ensures RowsOfSteps(ResultSteps(results)) == NO_ROWS.(results := results)
  {
    if results != [] {
      RowsOfResultSteps(results[1..]);
    }
  }

  lemma RowsOfRowSteps(rows: LineRows)
    ensures RowsOfSteps(StepsOfRows(rows)) == rows.(blocks := [])
  {
    hide RowsOfSteps, TextSteps, CallSteps, ResultSteps;
    RowsOfTextSteps(rows.texts);
    RowsOfCallSteps(rows.calls);
    RowsOfResultSteps(rows.results);
    RowsOfStepsAppend(TextSteps(rows.texts) + CallSteps(rows.calls), ResultSteps(rows.results));
    RowsOfStepsAppend(TextSteps(rows.texts), CallSteps(rows.calls));
  }

  lemma RowsOfLineSteps(codec: Codec, line: Line, denyIds: set<string>)
    ensures RowsOfSteps(StepsOfLine(codec, line, denyIds)) == RowsOfLine(codec, line, denyIds).(blocks := [])
  {
    hide MapTranscriptLine, StepsOfRows;
    match ReadLine(codec, line, denyIds)
    case Good(rows) => RowsOfRowSteps(rows);
    case _ =>
  }

  lemma {:induction false} RowsOfLinesSteps(codec: Codec, lines: seq<Line>, denyIds: set<string>)
    ensures RowsOfSteps(StepsOfLines(codec, lines, denyIds)) == RowsOfLines(codec, lines, denyIds).(blocks := [])
  {
    hide StepsOfLine, RowsOfSteps, RowsOfLine;
    if lines == [] {
      NoStepsNoRows();
    } else {
      RowsOfStepsAppend(StepsOfLine(codec, lines[0], denyIds), StepsOfLines(codec, lines[1..], denyIds));
      RowsOfLineSteps(codec, lines[0], denyIds);
      RowsOfLinesSteps(codec, lines[1..], denyIds);
      RowsOfFirst(codec, lines, denyIds);
    }
  }

  lemma NoStepsNoRows()
    ensures RowsOfSteps([]) == NO_ROWS
  {
  }

  lemma RowsOfFirst(codec: Codec, lines: seq<Line>, denyIds: set<string>)
    requires lines != []
    ensures RowsOfLines(codec, lines, denyIds) == Concat(RowsOfLine(codec, lines[0], denyIds), RowsOfLines(codec, lines[1..], denyIds))
  {
    hide RowsOfLine;
    RowsOfLinesAppend(codec, [lines[0]], lines[1..], denyIds);
    assert lines == [lines[0]] + lines[1..];
    assert [lines[0]][..0] == [];
    assert RowsOfLines(codec, [lines[0]], denyIds) == RowsOfLine(codec, lines[0], denyIds);
  }

  /**
   A pull that gets through stores exactly the rows of its new lines, each under its own key, keeps what
   was there, and keeps of several results of a call the first.
   */
  lemma PullStoresTheRows(codec: Codec, before: Option<SubTables>, visit: SubVisit)
    requires visit.disk.Some? && PullSubFile(codec, before, visit).Read?
    ensures var streamId := StreamIdOfPath(visit.disk.value);
      && streamId.Some?
      && var lines := NewLines(visit.disk.value, StartOf(before, streamId.value));
         var rows, was := RowsOfLines(codec, lines, visit.denyIds), Renamed(before, streamId.value);
         var Read(t, counts) := PullSubFile(codec, before, visit);
         && Gains(was.texts, t.texts, rows.texts) && Gains(was.calls, t.calls, rows.calls)
         && t.results == KeepFirst(was.results, rows.results)
         && counts.texts == |rows.texts| && counts.calls == |rows.calls| && t.callsIngested == was.callsIngested + |rows.calls|
  {
    hide DoUntil, StepsOfLines, Gains, RowsOfSteps, RowsOfLines, LinesFrom, Watermark, StreamIdOfPath;
    var file, streamId := visit.disk.value, StreamIdOfPath(visit.disk.value).value;
    var start := StartOf(before, streamId);
    var steps := StepsOfLines(codec, NewLines(file, start), visit.denyIds);
    StepsGain(SubProgress(true, Renamed(before, streamId), NO_COUNTS), steps, Budget(visit.crash));
    RowsOfLinesSteps(codec, NewLines(file, start), visit.denyIds);
    if |file| <= start {
      NothingNew(file, start);
      NoLines(codec, visit.denyIds);
    }
  }

  lemma {:induction false} StoppedStaysStopped(codec: Codec, run: SubRun, visits: seq<SubVisit>, n: nat)
    requires n <= |visits| && !VisitSubFiles(codec, run, visits[..n]).going
    ensures VisitSubFiles(codec, run, visits) == VisitSubFiles(codec, run, visits[..n])
    decreases |visits| - n
  {
    if n < |visits| {
      assert visits[..n + 1][..n] == visits[..n];
      StoppedStaysStopped(codec, run, visits, n + 1);
    } else {
      assert visits[..n] == visits;
    }
  }

  // ---- which transcripts can be read ---------------------------------------

  /** A step that cannot succeed on these tables. */
  predicate Blocked(t: SubTables, step: Step)
  {
    match step
    case InsertText(text) => !text.inSubagent || KeyOf(text) in t.texts
    case InsertCall(call) => !call.inSubagent || KeyOf(call) in t.calls
    case InsertResult(result) => !result.binds
    case Raise => true
    case _ => false
  }

  ghost predicate AnyBlocked(t: SubTables, steps: seq<Step>)
  {
    exists i :: 0 <= i < |steps| && Blocked(t, steps[i])
  }

  predicate Inserts(step: Step)
  {
    step.InsertText? || step.InsertCall?
  }

  ghost predicate AnyInsert(steps: seq<Step>, n: nat)
  {
    exists i :: 0 <= i < n && i < |steps| && Inserts(steps[i])
  }

  /** The two steps insert under one key into one table. */
  predicate Clash(a: Step, b: Step)
  {
    || (a.InsertText? && b.InsertText? && KeyOf(a.text) == KeyOf(b.text))
    || (a.InsertCall? && b.InsertCall? && KeyOf(a.call) == KeyOf(b.call))
  }

  ghost predicate Apart(steps: seq<Step>)
  {
    forall i, j | 0 <= i < j < |steps| :: !Clash(steps[i], steps[j])
  }

  lemma DoBlocks(p: SubProgress, step: Step, other: Step)
    requires p.ok
    ensures Do(p, step).ok <==> !Blocked(p.tables, step)
    ensures Do(p, step).ok ==>
              (Blocked(Do(p, step).tables, other) <==> Blocked(p.tables, other) || Clash(step, other))
    ensures !Do(p, step).ok ==> Do(p, step).tables == p.tables
  {
  }

  lemma AnyBlockedAppend(t: SubTables, a: seq<Step>, b: seq<Step>)
    ensures AnyBlocked(t, a + b) <==> AnyBlocked(t, a) || AnyBlocked(t, b)
  {
    hide Blocked;
    var whole := a + b;
    assert forall i | 0 <= i < |a| :: whole[i] == a[i];
    assert forall i | 0 <= i < |b| :: whole[|a| + i] == b[i];
  }

  /** Steps with distinct keys get through exactly when none of them is blocked at the start. */
  lemma {:induction false} PassesIffNothingBlocked(p: SubProgress, steps: seq<Step>)
    requires p.ok && Apart(steps)
    ensures DoUntil(p, steps, None).ok <==> !AnyBlocked(p.tables, steps)
    decreases |steps|
  {
    hide Do, Blocked, Clash;
    if steps != [] {
      var first, rest, after := steps[0], steps[1..], Do(p, steps[0]);
      assert steps == [first] + rest;
      DoBlocks(p, first, first);
      if after.ok {
        PassesIffNothingBlocked(after, rest);
        forall i | 0 <= i < |rest| ensures Blocked(after.tables, rest[i]) <==> Blocked(p.tables, rest[i]) {
          DoBlocks(p, first, rest[i]);
          assert rest[i] == steps[i + 1];
        }
        AnyBlockedAppend(p.tables, [first], rest);
      } else {
        NothingMore(after, rest, None);
      }
    }
  }

  /** What blocks a step goes on blocking it, and the loop itself never moves the watermark. */
  lemma {:induction false} BlockedStays(p: SubProgress, steps: seq<Step>, budget: Option<nat>, step: Step)
    ensures var t := DoUntil(p, steps, budget).tables;
      && (Blocked(p.tables, step) ==> Blocked(t, step))
      && t.byteOffset == p.tables.byteOffset && t.streamId == p.tables.streamId
    decreases |steps|
  {
    if p.ok && steps != [] && budget != Some(0) {
      BlockedStays(Do(p, steps[0]), steps[1..], Less(budget, 1), step);
    }
  }

  /** After `n` steps exactly the keys they inserted have become taken. */
  lemma {:induction false} DoneBlocks(p: SubProgress, steps: seq<Step>, n: nat, step: Step)
    requires p.ok && n <= |steps| && Apart(steps) && !AnyBlocked(p.tables, steps)
    ensures Blocked(DoUntil(p, steps, Some(n)).tables, step) <==>
            Blocked(p.tables, step) || exists i :: 0 <= i < n && Clash(steps[i], step)
    decreases |steps|
  {
    hide Do, Blocked, Clash;
    if n > 0 {
      var first, rest, after := steps[0], steps[1..], Do(p, steps[0]);
      DoBlocks(p, first, step);
      forall i | 0 <= i < |rest| ensures !Blocked(after.tables, rest[i]) {
        DoBlocks(p, first, rest[i]);
        assert rest[i] == steps[i + 1];
      }
      DoneBlocks(after, rest, n - 1, step);
      assert forall i | 0 <= i < n - 1 :: rest[i] == steps[i + 1];
      assert forall i | 0 < i < n :: steps[i] == rest[i - 1];
    }
  }

  // ---- the steps of a file are apart ---------------------------------------

  predicate OffsetWithin(step: Step, from: nat, mark: nat)
  {
    match step
    case InsertText(text) => from <= text.byteOffset < mark
    case InsertCall(call) => from <= call.byteOffset < mark
    case _ => true
  }

  ghost predicate ApartWithin(steps: seq<Step>, from: nat, mark: nat)
  {
    Apart(steps) && forall i | 0 <= i < |steps| :: OffsetWithin(steps[i], from, mark)
  }

  lemma ApartAppend(a: seq<Step>, from: nat, middle: nat, b: seq<Step>, mark: nat)
    requires ApartWithin(a, from, middle) && ApartWithin(b, middle, mark) && from <= middle <= mark
    ensures ApartWithin(a + b, from, mark)
  {
  }

  lemma {:induction false} TextStepsAre(texts: seq<Candidate<TextRow>>)
    ensures |TextSteps(texts)| == |texts| && forall i | 0 <= i < |texts| :: TextSteps(texts)[i] == InsertText(texts[i])
  {
    if texts != [] {
      TextStepsAre(texts[1..]);
    }
  }

  lemma {:induction false} CallStepsAre(calls: seq<Candidate<CallRow>>)
    ensures |CallSteps(calls)| == |calls| && forall i | 0 <= i < |calls| :: CallSteps(calls)[i] == InsertCall(calls[i])
  {
    if calls != [] {
      CallStepsAre(calls[1..]);
    }
  }

  lemma {:induction false} ResultStepsAre(results: seq<ResultRow>)
    ensures |ResultSteps(results)| == |results|
    ensures forall i | 0 <= i < |results| :: ResultSteps(results)[i] == InsertResult(results[i])
  {
    if results != [] {
      ResultStepsAre(results[1..]);
    }
  }

  /** Position by position: the texts, then the calls, then the results. */
  lemma StepsOfRowsAre(rows: LineRows, i: nat)
    requires i < |StepsOfRows(rows)|
    ensures |StepsOfRows(rows)| == |rows.texts| + |rows.calls| + |rows.results|
    ensures StepsOfRows(rows)[i] ==
              if i < |rows.texts| then InsertText(rows.texts[i])
              else if i < |rows.texts| + |rows.calls| then InsertCall(rows.calls[i - |rows.texts|])
              else InsertResult(rows.results[i - |rows.texts| - |rows.calls|])
  {
    TextStepsAre(rows.texts);
    CallStepsAre(rows.calls);
    ResultStepsAre(rows.results);
  }

  lemma RowsAreApart(rows: LineRows, from: nat, mark: nat)
    requires AllInOrder(rows, from, mark)
    ensures ApartWithin(StepsOfRows(rows), from, mark)
  {
    hide StepsOfRows;
    var steps := StepsOfRows(rows);
    forall i | 0 <= i < |steps| ensures OffsetWithin(steps[i], from, mark) {
      StepsOfRowsAre(rows, i);
    }
    forall i, j | 0 <= i < j < |steps| ensures !Clash(steps[i], steps[j]) {
      StepsOfRowsAre(rows, i);
      StepsOfRowsAre(rows, j);
    }
  }

  lemma LineIsApart(codec: Codec, line: Line, denyIds: set<string>)
    ensures ApartWithin(StepsOfLine(codec, line, denyIds), line.offset, line.offset + 1)
  {
    hide MapTranscriptLine, StepsOfRows, InOrder;
    LineIsInOrder(codec, line, denyIds);
    var loaded := codec.loads(line.text);
    if !IsBlank(line.text) && !codec.breaks(line.text) && loaded.Some? && loaded.value.Object? {
      var mapped := MapTranscriptLine(codec, loaded.value.fields, line.offset, denyIds);
      if mapped.Rows? {
        RowsAreApart(mapped.rows, line.offset, line.offset + 1);
      }
    }
  }

  lemma {:induction false} LinesAreApart(codec: Codec, lines: seq<Line>, denyIds: set<string>, from: nat, mark: nat)
    requires Ordered(lines, from, mark) && from <= mark
    ensures ApartWithin(StepsOfLines(codec, lines, denyIds), from, mark)
  {
    hide StepsOfLine;
    if lines != [] {
      var next := lines[0].offset + 1;
      LineIsApart(codec, lines[0], denyIds);
      LinesAreApart(codec, lines[1..], denyIds, next, mark);
      var first, rest := StepsOfLine(codec, lines[0], denyIds), StepsOfLines(codec, lines[1..], denyIds);
      assert ApartWithin(first, from, next);
      ApartAppend(first, from, next, rest, mark);
    }
  }

  lemma NewStepsAreApart(codec: Codec, file: Bytes, start: nat, denyIds: set<string>)
    ensures ApartWithin(StepsOfLines(codec, NewLines(file, start), denyIds), start, NewOffset(file, start))
  {
    hide StepsOfLine, LinesFrom, Watermark;
    if start <= |file| {
      LinesAreOrdered(file, start);
    }
    LinesAreApart(codec, NewLines(file, start), denyIds, start, NewOffset(file, start));
  }

  // ---- verdicts do not matter ----------------------------------------------

  /** The same step, up to a result's remedy. */
  predicate SameStep(a: Step, b: Step)
  {
    a == b || (a.InsertResult? && b.InsertResult? && a.result.binds == b.result.binds)
  }

  ghost predicate SameSteps(a: seq<Step>, b: seq<Step>)
  {
    |a| == |b| && forall i | 0 <= i < |a| :: SameStep(a[i], b[i])
  }

  lemma {:induction false} StepsIgnoreVerdicts(codec: Codec, lines: seq<Line>, denyIds: set<string>)
    ensures SameSteps(StepsOfLines(codec, lines, {}), StepsOfLines(codec, lines, denyIds))
  {
    hide StepsOfLine;
    if lines != [] {
      LineIgnoresVerdicts(codec, lines[0], denyIds);
      StepsIgnoreVerdicts(codec, lines[1..], denyIds);
    }
  }

  lemma LineIgnoresVerdicts(codec: Codec, line: Line, denyIds: set<string>)
    ensures SameSteps(StepsOfLine(codec, line, {}), StepsOfLine(codec, line, denyIds))
  {
    hide MapBlocks, StepsOfRows;
    var loaded := codec.loads(line.text);
    if loaded.Some? && loaded.value.Object? {
      var message := Get(loaded.value.fields, "message");
      if message.Object? {
        var content := Get(message.fields, "content");
        if content.Array? {
          VerdictsOnlyAddRemedies(codec, loaded.value.fields, line.offset, content.items, {}, denyIds);
          var a := MapBlocks(codec, loaded.value.fields, line.offset, {}, content.items);
          var b := MapBlocks(codec, loaded.value.fields, line.offset, denyIds, content.items);
          if a.Rows? {
            RowsIgnoreVerdicts(a.rows, b.rows);
          }
        }
      }
      RowsIgnoreVerdicts(NO_ROWS, NO_ROWS);
    }
  }

  lemma RowsIgnoreVerdicts(a: LineRows, b: LineRows)
    requires b == a.(results := b.results) && SameButLaterAll(a.results, b.results)
    ensures SameSteps(StepsOfRows(a), StepsOfRows(b))
  {
    TextStepsAre(a.texts);
    CallStepsAre(a.calls);
    ResultStepsAre(a.results);
    ResultStepsAre(b.results);
  }

  lemma SameStepsBlock(t: SubTables, a: seq<Step>, b: seq<Step>)
    requires SameSteps(a, b)
    ensures AnyBlocked(t, a) <==> AnyBlocked(t, b)
    ensures forall n: nat :: AnyInsert(a, n) <==> AnyInsert(b, n)
  {
    forall i | 0 <= i < |a| ensures (Blocked(t, a[i]) <==> Blocked(t, b[i])) && (Inserts(a[i]) <==> Inserts(b[i])) {
    }
  }

  // ---- readable, or trapped ------------------------------------------------

  /** Some step past the watermark cannot succeed: a line that raises, or a row already stored. */
  ghost predicate Trapped(codec: Codec, file: Bytes, t: SubTables, start: nat)
  {
    AnyBlocked(t, StepsOfLines(codec, NewLines(file, start), {}))
  }

  /** The line raises by itself: in decoding, in mapping, or at a row that its table does not take. */
  ghost predicate Raising(codec: Codec, line: Line)
  {
    && !IsBlank(line.text)
    && (codec.breaks(line.text) ||
        var loaded := codec.loads(line.text);
        && loaded.Some? && loaded.value.Object?
        && var mapped := MapTranscriptLine(codec, loaded.value.fields, line.offset, {});
           mapped.Rows? ==> RowsRefused(mapped.rows))
  }

  function TextRecord(timestamp: Json): map<string, Json>
  {
    var block := Object(map["type" := Str("text", true), "text" := Str("hi", true)]);
    map["type" := Str("assistant", true), "timestamp" := timestamp, "message" := Object(map["content" := Array([block])])]
  }

  /** A list for a timestamp maps without complaint and then cannot be bound: the line raises at its INSERT. */
  lemma ListTimestampRaises(codec: Codec, line: Line)
    requires !IsBlank(line.text) && !codec.breaks(line.text)
    requires codec.loads(line.text) == Some(Object(TextRecord(Array([]))))
    ensures MapTranscriptLine(codec, TextRecord(Array([])), line.offset, {}).Rows?
    ensures Raising(codec, line)
  {
    hide MapBlock, RowsRefused, BlockRefused;
    var obj := TextRecord(Array([]));
    var block := Object(map["type" := Str("text", true), "text" := Str("hi", true)]);
    var content := [block];
    assert content[..0] == [];
    MapsOneText(codec, obj, line.offset, block);
    BlocksRefused(codec, obj, line.offset, {}, content);
    ListIsNotTaken(codec, Get(obj, "uuid"));
    TextIsRefused(codec, obj, content[0]);
    var message := map["content" := Array(content)];
    assert "content" in message && Get(obj, "message") == Object(message);
    assert MapTranscriptLine(codec, obj, line.offset, {}) == MapBlocks(codec, obj, line.offset, {}, content);
  }

  lemma TextIsRefused(codec: Codec, obj: map<string, Json>, block: Json)
    requires IsKind(block, "text") && IsText(Get(obj, "type"), "assistant")
    requires !Takes(codec, SubagentText, [Get(obj, "timestamp"), Get(obj, "uuid")])
    ensures BlockRefused(codec, obj, block)
  {
  }

  lemma MapsOneText(codec: Codec, obj: map<string, Json>, byteOffset: nat, block: Json)
    requires block == Object(map["type" := Str("text", true), "text" := Str("hi", true)])
    ensures MapBlock(codec, obj, byteOffset, {}, block, 0, NO_ROWS).Rows?
  {
  }

  lemma ListIsNotTaken(codec: Codec, uuid: Json)
    ensures !Takes(codec, SubagentText, [Array([]), uuid])
  {
    assert !Bindable([Array([]), uuid][0]);
  }

  ghost predicate HasStoredRow(codec: Codec, t: SubTables, line: Line)
  {
    var rows := RowsOfLine(codec, line, {});
    || (exists i :: 0 <= i < |rows.texts| && KeyOf(rows.texts[i]) in t.texts)
    || (exists i :: 0 <= i < |rows.calls| && KeyOf(rows.calls[i]) in t.calls)
  }

  /** In the transcript's own terms. */
  lemma TrappedIs(codec: Codec, file: Bytes, t: SubTables, start: nat)
    ensures Trapped(codec, file, t, start) <==>
            exists line :: line in NewLines(file, start) && (Raising(codec, line) || HasStoredRow(codec, t, line))
  {
    hide AnyBlocked, NewLines, StepsOfLines, Raising, HasStoredRow;
    LinesBlockedIs(codec, NewLines(file, start), t);
  }

  lemma {:induction false} LinesBlockedIs(codec: Codec, lines: seq<Line>, t: SubTables)
    ensures AnyBlocked(t, StepsOfLines(codec, lines, {})) <==>
            exists line :: line in lines && (Raising(codec, line) || HasStoredRow(codec, t, line))
  {
    hide AnyBlocked, StepsOfLine, Raising, HasStoredRow;
    if lines == [] {
      assert !AnyBlocked(t, []) by { NothingBlocked(t); }
    } else {
      LineBlockedIs(codec, lines[0], t);
      LinesBlockedIs(codec, lines[1..], t);
      AnyBlockedAppend(t, StepsOfLine(codec, lines[0], {}), StepsOfLines(codec, lines[1..], {}));
      assert lines == [lines[0]] + lines[1..];
    }
  }

  lemma NothingBlocked(t: SubTables)
    ensures !AnyBlocked(t, [])
  {
  }

  lemma LineBlockedIs(codec: Codec, line: Line, t: SubTables)
    ensures AnyBlocked(t, StepsOfLine(codec, line, {})) <==> Raising(codec, line) || HasStoredRow(codec, t, line)
  {
    hide MapTranscriptLine, StepsOfRows, AnyBlocked, RowsRefused;
    var loaded := codec.loads(line.text);
    NothingRefused();
    RowsBlockedIs(NO_ROWS, t);
    if IsBlank(line.text) {
      NothingBlocked(t);
    } else if codec.breaks(line.text) {
      OneBlocked(t, Step.Raise);
    } else if loaded.Some? && loaded.value.Object? {
      var mapped := MapTranscriptLine(codec, loaded.value.fields, line.offset, {});
      if mapped.Rows? {
        RowsBlockedIs(mapped.rows, t);
      } else {
        OneBlocked(t, Step.Raise);
      }
    } else {
      OneBlocked(t, CountMalformed);
    }
  }

  lemma OneBlocked(t: SubTables, step: Step)
    ensures AnyBlocked(t, [step]) <==> Blocked(t, step)
  {
    assert [step][0] == step;
  }

  lemma RowsBlockedIs(rows: LineRows, t: SubTables)
    ensures AnyBlocked(t, StepsOfRows(rows)) <==>
            || RowsRefused(rows)
            || (exists i :: 0 <= i < |rows.texts| && KeyOf(rows.texts[i]) in t.texts)
            || (exists i :: 0 <= i < |rows.calls| && KeyOf(rows.calls[i]) in t.calls)
  {
    hide StepsOfRows;
    var steps := StepsOfRows(rows);
    StepCount(rows);
    forall i | 0 <= i < |steps| ensures Blocked(t, steps[i]) <==>
        if i < |rows.texts| then !rows.texts[i].inSubagent || KeyOf(rows.texts[i]) in t.texts
        else if i < |rows.texts| + |rows.calls| then
          !rows.calls[i - |rows.texts|].inSubagent || KeyOf(rows.calls[i - |rows.texts|]) in t.calls
        else !rows.results[i - |rows.texts| - |rows.calls|].binds
    {
      StepsOfRowsAre(rows, i);
    }
    if i :| 0 <= i < |rows.calls| && (!rows.calls[i].inSubagent || KeyOf(rows.calls[i]) in t.calls) {
      assert Blocked(t, steps[|rows.texts| + i]);
    }
    if i :| 0 <= i < |rows.results| && !rows.results[i].binds {
      assert Blocked(t, steps[|rows.texts| + |rows.calls| + i]);
    }
  }

  lemma StepCount(rows: LineRows)
    ensures |StepsOfRows(rows)| == |rows.texts| + |rows.calls| + |rows.results|
  {
    TextStepsAre(rows.texts);
    CallStepsAre(rows.calls);
    ResultStepsAre(rows.results);
  }

  /** The pull reads through, and moves its watermark past every complete line, exactly when the transcript is not trapped. */
  lemma ReadableIff(codec: Codec, before: Option<SubTables>, visit: SubVisit)
    requires visit.disk.Some? && StreamIdOfPath(visit.disk.value).Some? && visit.crash == NoCrash
    ensures var file := visit.disk.value;
      var id := StreamIdOfPath(file).value;
      var start := StartOf(before, id);
      var outcome := PullSubFile(codec, before, visit);
      && (outcome.Read? <==> !Trapped(codec, file, Renamed(before, id), start))
      && (outcome.Read? && start < |file| ==> outcome.tables.byteOffset == Watermark(file, start))
      && (!outcome.Read? ==> outcome.Broken?)
  {
    hide DoUntil, StepsOfLines, LinesFrom, Watermark, StreamIdOfPath, AnyBlocked, Apart;
    var file := visit.disk.value;
    var id := StreamIdOfPath(file).value;
    var lines := NewLines(file, StartOf(before, id));
    StepsIgnoreVerdicts(codec, lines, visit.denyIds);
    NewStepsAreApart(codec, file, StartOf(before, id), visit.denyIds);
    var steps := StepsOfLines(codec, lines, visit.denyIds);
    SameStepsBlock(Renamed(before, id), StepsOfLines(codec, lines, {}), steps);
    PassesIffNothingBlocked(SubProgress(true, Renamed(before, id), NO_COUNTS), steps);
  }

  /** The transcript's own rows after a visit, whatever became of it. */
  function Left(before: Option<SubTables>, outcome: SubOutcome): Option<SubTables>
  {
    match outcome
    case Unread => before
    case Read(t, _) => Some(t)
    case Broken(left) => left
  }

  /**
   An exception between any two statements leaves the transcript trapped exactly when it was
   trapped before or a text or a call had been inserted: those rows are committed and the
   watermark is not moved, so the next pull meets them again.
   */
  lemma CrashTrapsIff(codec: Codec, before: Option<SubTables>, visit: SubVisit)
    requires visit.disk.Some? && StreamIdOfPath(visit.disk.value).Some? && visit.crash.After?
    requires before.Some? ==> before.value.streamId == StreamIdOfPath(visit.disk.value).value
    requires var start := if before.Some? then before.value.byteOffset else 0;
      visit.crash.steps <= |StepsOfLines(codec, NewLines(visit.disk.value, start), visit.denyIds)|
    ensures var file := visit.disk.value;
      var start := if before.Some? then before.value.byteOffset else 0;
      var t0 := Renamed(before, StreamIdOfPath(file).value);
      var outcome := PullSubFile(codec, before, visit);
      && outcome.Broken? && outcome.left.Some? && outcome.left.value.byteOffset == start
      && (Trapped(codec, file, outcome.left.value, start) <==>
          || Trapped(codec, file, t0, start)
          || AnyInsert(StepsOfLines(codec, NewLines(file, start), visit.denyIds), visit.crash.steps))
  {
    hide DoUntil, StepsOfLines, NewLines, StreamIdOfPath, AnyBlocked, AnyInsert, Apart;
    var file, n := visit.disk.value, visit.crash.steps;
    var start := if before.Some? then before.value.byteOffset else 0;
    var p := SubProgress(true, Renamed(before, StreamIdOfPath(file).value), NO_COUNTS);
    var plain, steps := StepsOfLines(codec, NewLines(file, start), {}), StepsOfLines(codec, NewLines(file, start), visit.denyIds);
    StepsIgnoreVerdicts(codec, NewLines(file, start), visit.denyIds);
    NewStepsAreApart(codec, file, start, visit.denyIds);
    SameStepsBlock(p.tables, plain, steps);
    var after := DoUntil(p, steps, Some(n)).tables;
    SameStepsBlock(after, plain, steps);
    if AnyBlocked(p.tables, steps) {
      AnyBlockedStays(p, steps, Some(n), steps);
    } else {
      PrefixBlocks(p, steps, n);
      MarkStays(p, steps, Some(n));
    }
  }

  lemma AnyBlockedStays(p: SubProgress, steps: seq<Step>, budget: Option<nat>, ahead: seq<Step>)
    requires AnyBlocked(p.tables, ahead)
    ensures AnyBlocked(DoUntil(p, steps, budget).tables, ahead)
    ensures var t := DoUntil(p, steps, budget).tables;
      t.byteOffset == p.tables.byteOffset && t.streamId == p.tables.streamId
  {
    hide DoUntil, Blocked;
    var i :| 0 <= i < |ahead| && Blocked(p.tables, ahead[i]);
    BlockedStays(p, steps, budget, ahead[i]);
  }

  lemma MarkStays(p: SubProgress, steps: seq<Step>, budget: Option<nat>)
    ensures var t := DoUntil(p, steps, budget).tables;
      t.byteOffset == p.tables.byteOffset && t.streamId == p.tables.streamId
  {
    BlockedStays(p, steps, budget, CountMalformed);
  }

  lemma PrefixBlocks(p: SubProgress, steps: seq<Step>, n: nat)
    requires p.ok && n <= |steps| && Apart(steps) && !AnyBlocked(p.tables, steps)
    ensures AnyBlocked(DoUntil(p, steps, Some(n)).tables, steps) <==> AnyInsert(steps, n)
  {
    hide DoUntil, Blocked;
    var after := DoUntil(p, steps, Some(n)).tables;
    forall j | 0 <= j < |steps|
      ensures Blocked(after, steps[j]) <==> j < n && Inserts(steps[j])
    {
      DoneBlocks(p, steps, n, steps[j]);
      ClashIsOwn(steps, j);
      assert !Blocked(p.tables, steps[j]);
    }
  }

  /** Among steps that are apart, an insert clashes with itself alone. */
  lemma ClashIsOwn(steps: seq<Step>, j: nat)
    requires Apart(steps) && j < |steps|
    ensures forall i | 0 <= i < |steps| :: Clash(steps[i], steps[j]) <==> i == j && Inserts(steps[j])
  {
    forall i | 0 <= i < |steps| ensures Clash(steps[i], steps[j]) <==> i == j && Inserts(steps[j]) {
      assert Clash(steps[i], steps[j]) <==> Clash(steps[j], steps[i]);
    }
  }

  // ---- for ever ------------------------------------------------------------

  /** The file as the visit found it, or as it was. */
  function FileAt(file: Bytes, visit: SubVisit): Bytes
  {
    match visit.disk case None => file case Some(grown) => grown
  }

  predicate Grows(file: Bytes, visit: SubVisit)
  {
    visit.disk.Some? ==> GrewTo(file, visit.disk.value)
  }

  /** The transcript is on record under its own identity, and trapped. */
  ghost predicate IsTrapped(codec: Codec, file: Bytes, t: Option<SubTables>)
  {
    t.Some? && StreamIdOfPath(file) == Some(t.value.streamId) && Trapped(codec, file, t.value, t.value.byteOffset)
  }

  /** A pull of a trapped transcript fails, at its own steps or before, and leaves it trapped. */
  lemma TrappedFails(codec: Codec, file: Bytes, t: Option<SubTables>, visit: SubVisit)
    requires IsTrapped(codec, file, t) && Grows(file, visit)
    ensures var outcome := PullSubFile(codec, t, visit);
      && (visit.disk.Some? ==> outcome.Broken?)
      && IsTrapped(codec, FileAt(file, visit), Left(t, outcome))
      && Left(t, outcome).value.byteOffset == t.value.byteOffset
  {
    hide DoUntil, StepsOfLines, NewLines, StreamIdOfPath, AnyBlocked, Apart, GrewTo;
    if visit.disk.Some? {
      var grown, start := visit.disk.value, t.value.byteOffset;
      IdentityIsStable(file, grown);
      TrappedGrows(codec, file, grown, t.value, start);
      var p := SubProgress(true, Renamed(t, t.value.streamId), NO_COUNTS);
      var plain := StepsOfLines(codec, NewLines(grown, start), {});
      var steps := StepsOfLines(codec, NewLines(grown, start), visit.denyIds);
      StepsIgnoreVerdicts(codec, NewLines(grown, start), visit.denyIds);
      NewStepsAreApart(codec, grown, start, visit.denyIds);
      SameStepsBlock(p.tables, plain, steps);
      PassesIffNothingBlocked(p, steps);
      AnyBlockedStays(p, steps, Budget(visit.crash), plain);
      BudgetOnlyFails(p, steps, Budget(visit.crash));
    }
  }

  lemma {:induction false} BudgetOnlyFails(p: SubProgress, steps: seq<Step>, budget: Option<nat>)
    requires !DoUntil(p, steps, None).ok
    ensures !DoSteps(p, steps, budget).ok
    decreases |steps|
  {
    hide Do;
    if p.ok && steps != [] {
      BudgetOnlyFails(Do(p, steps[0]), steps[1..], Less(budget, 1));
    }
  }

  lemma TrappedGrows(codec: Codec, file: Bytes, grown: Bytes, t: SubTables, start: nat)
    requires Trapped(codec, file, t, start) && GrewTo(file, grown)
    ensures Trapped(codec, grown, t, start)
  {
    hide StepsOfLines, LinesFrom, Watermark, Raising, HasStoredRow, AnyBlocked;
    TrappedIs(codec, file, t, start);
    TrappedIs(codec, grown, t, start);
    if start <= |file| {
      LinesOfGrown(file, grown, start);
    }
  }

  function VisitsOf(codec: Codec, t: Option<SubTables>, visits: seq<SubVisit>): Option<SubTables>
  {
    if visits == [] then t
    else
      var before := VisitsOf(codec, t, visits[..|visits| - 1]);
      Left(before, PullSubFile(codec, before, visits[|visits| - 1]))
  }

  function FileAfter(file: Bytes, visits: seq<SubVisit>): Bytes
  {
    if visits == [] then file
    else FileAt(FileAfter(file, visits[..|visits| - 1]), visits[|visits| - 1])
  }

  /** Each visit that finds the file finds it grown. */
  predicate GrowsAlong(file: Bytes, visits: seq<SubVisit>)
  {
    visits == [] ||
    (GrowsAlong(file, visits[..|visits| - 1]) && Grows(FileAfter(file, visits[..|visits| - 1]), visits[|visits| - 1]))
  }

  /** Once trapped, always trapped: no later pull of the growing file succeeds or moves the watermark. */
  lemma {:induction false} TrappedForEver(codec: Codec, file: Bytes, t: Option<SubTables>, visits: seq<SubVisit>)
    requires IsTrapped(codec, file, t) && GrowsAlong(file, visits)
    ensures var after := VisitsOf(codec, t, visits);
      && IsTrapped(codec, FileAfter(file, visits), after)
      && after.value.byteOffset == t.value.byteOffset
      && (visits != [] && visits[|visits| - 1].disk.Some? ==>
            PullSubFile(codec, VisitsOf(codec, t, visits[..|visits| - 1]), visits[|visits| - 1]).Broken?)
  {
    hide PullSubFile, Trapped, Grows, StreamIdOfPath;
    if visits != [] {
      var last := |visits| - 1;
      TrappedForEver(codec, file, t, visits[..last]);
      TrappedFails(codec, FileAfter(file, visits[..last]), VisitsOf(codec, t, visits[..last]), visits[last]);
    }
  }

  /**
   A file replaced by another is read from zero, but the watermark is reset only by a pull
   that gets through. After an exception the new identity is on record with the old watermark,
   and the lines of the new file below it are never read.
   */
  lemma ReplacedFileLosesItsHead(codec: Codec, t: SubTables, visit: SubVisit, next: SubVisit)
    requires visit.disk.Some? && StreamIdOfPath(visit.disk.value).Some? && visit.crash != AtOpen
    requires t.streamId != StreamIdOfPath(visit.disk.value).value
    requires PullSubFile(codec, Some(t), visit).Broken?
    requires next.disk.Some? && GrewTo(visit.disk.value, next.disk.value)
    ensures var left := PullSubFile(codec, Some(t), visit).left;
      && left.Some?
      && StartOf(left, StreamIdOfPath(next.disk.value).value) == t.byteOffset
      && forall line | line in LinesFrom(next.disk.value, 0) && line.offset < t.byteOffset ::
           line !in NewLines(next.disk.value, StartOf(left, StreamIdOfPath(next.disk.value).value))
  {
    hide DoUntil, StepsOfLines, LinesFrom, Watermark, StreamIdOfPath;
    var file, grown := visit.disk.value, next.disk.value;
    IdentityIsStable(file, grown);
    var p := SubProgress(true, Renamed(Some(t), StreamIdOfPath(file).value), NO_COUNTS);
    MarkStays(p, StepsOfLines(codec, NewLines(file, 0), visit.denyIds), Budget(visit.crash));
    if t.byteOffset <= |grown| {
      LinesAreOrdered(grown, t.byteOffset);
    }
  }
}
