/**
 A rebuild of the subagent plane after any history of pulls, broken-off pulls and
 reconciliations: what the full re-pull stores, and how the count of unacknowledged
 credential hits after the restore compares with the count before.
 */
module RebuildRuns {
  import opened Sequences
  import opened Wrappers
  import opened Transcript
  import opened TranscriptStore
  import opened SubagentPull
  import opened SubagentRuns
  import opened PlaneListings
  import SessionPull
  import LateVerdicts
  import Runs = LateVerdictRuns
  import Acks = CredentialAcks

  type World = Runs.World

  // ---- what steps add to each table ----------------------------------------

  lemma {:induction false} StepsOfLinesAppend(codec: Codec, a: seq<Line>, b: seq<Line>, denyIds: set<string>)
    ensures StepsOfLines(codec, a + b, denyIds) == StepsOfLines(codec, a, denyIds) + StepsOfLines(codec, b, denyIds)
  {
    hide StepsOfLine;
    if a == [] {
      assert a + b == b;
    } else {
      StepsOfLinesAppend(codec, a[1..], b, denyIds);
      assert (a + b)[1..] == a[1..] + b;
    }
  }

  /** The result row of a step, if it inserts one. */
  function ResultOf(step: Step): seq<ResultRow>
  {
    if step.InsertResult? then [step.result] else []
  }

  /** The result rows among the steps, in order. */
  function ResultsIn(steps: seq<Step>): seq<ResultRow>
  {
    if steps == [] then [] else ResultOf(steps[0]) + ResultsIn(steps[1..])
  }

  lemma ResultsUnfold(step: Step, rest: seq<Step>)
    ensures ResultsIn([step] + rest) == ResultOf(step) + ResultsIn(rest)
  {
    hide ResultOf;
    assert ([step] + rest)[1..] == rest;
  }

  lemma Associates<T>(a: seq<T>, b: seq<T>, c: seq<T>)
    ensures (a + b) + c == a + (b + c)
  {
  }

  lemma {:induction false} ResultsInAppend(a: seq<Step>, b: seq<Step>)
    ensures ResultsIn(a + b) == ResultsIn(a) + ResultsIn(b)
  {
    if a == [] {
      assert a + b == b;
    } else {
      hide ResultsIn, ResultOf;
      var first, rest := a[0], a[1..];
      ResultsInAppend(rest, b);
      ResultsUnfold(first, rest);
      ResultsUnfold(first, rest + b);
      Associates([first], rest, b);
      Associates(ResultOf(first), ResultsIn(rest), ResultsIn(b));
      assert a == [first] + rest;
    }
  }

  lemma {:induction false} NoResultsIn(steps: seq<Step>)
    requires forall i | 0 <= i < |steps| :: !steps[i].InsertResult?
    ensures ResultsIn(steps) == []
  {
    if steps != [] {
      NoResultsIn(steps[1..]);
    }
  }

  lemma {:induction false} ResultsInResultSteps(results: seq<ResultRow>)
    ensures ResultsIn(ResultSteps(results)) == results
  {
    if results != [] {
      ResultsInResultSteps(results[1..]);
    }
  }

  lemma ResultsInRows(rows: LineRows)
    ensures ResultsIn(StepsOfRows(rows)) == rows.results
  {
    hide ResultsIn;
    ResultsInAppend(TextSteps(rows.texts) + CallSteps(rows.calls), ResultSteps(rows.results));
    TextStepsAre(rows.texts);
    CallStepsAre(rows.calls);
    NoResultsIn(TextSteps(rows.texts) + CallSteps(rows.calls));
    ResultsInResultSteps(rows.results);
  }

  lemma ResultsInLine(codec: Codec, line: Line, denyIds: set<string>)
    ensures ResultsIn(StepsOfLine(codec, line, denyIds)) == RowsOfLine(codec, line, denyIds).results
  {
    hide MapTranscriptLine, StepsOfRows;
    var loaded := codec.loads(line.text);
    if !IsBlank(line.text) && !codec.breaks(line.text) && loaded.Some? && loaded.value.Object? {
      var mapped := MapTranscriptLine(codec, loaded.value.fields, line.offset, denyIds);
      if mapped.Rows? {
        ResultsInRows(mapped.rows);
      }
    }
  }

  /** The result steps of lines are the result rows the lines give. */
  lemma {:induction false} ResultsInLines(codec: Codec, lines: seq<Line>, denyIds: set<string>)
    ensures ResultsIn(StepsOfLines(codec, lines, denyIds)) == RowsOfLines(codec, lines, denyIds).results
  {
    hide StepsOfLine, RowsOfLine, ResultsIn;
    if lines == [] {
      assert ResultsIn([]) == [] by { NoResultsIn([]); }
    } else {
      var last := |lines| - 1;
      var front, own := StepsOfLines(codec, lines[..last], denyIds), StepsOfLine(codec, lines[last], denyIds);
      StepsOfLinesAppend(codec, lines[..last], [lines[last]], denyIds);
      assert lines == lines[..last] + [lines[last]];
      OneLine(codec, lines[last], denyIds);
      ResultsInAppend(front, own);
      ResultsInLines(codec, lines[..last], denyIds);
      ResultsInLine(codec, lines[last], denyIds);
    }
  }

  lemma OneLine(codec: Codec, line: Line, denyIds: set<string>)
    ensures StepsOfLines(codec, [line], denyIds) == StepsOfLine(codec, line, denyIds)
  {
    hide StepsOfLine;
    assert [line][1..] == [];
  }

  /** How many steps are done before the loop stops. */
  function Done(p: SubProgress, steps: seq<Step>, budget: Option<nat>): (n: nat)
    ensures n <= |steps|
    decreases |steps|
  {
    if !p.ok || steps == [] || budget == Some(0) || !Do(p, steps[0]).ok then 0
    else 1 + Done(Do(p, steps[0]), steps[1..], Less(budget, 1))
  }

  lemma {:induction false} AllDone(p: SubProgress, steps: seq<Step>, budget: Option<nat>)
    requires DoUntil(p, steps, budget).ok
    ensures Done(p, steps, budget) == |steps|
    decreases |steps|
  {
    hide Do;
    if steps != [] {
      if !Do(p, steps[0]).ok {
        NothingMore(Do(p, steps[0]), steps[1..], Less(budget, 1));
      }
      AllDone(Do(p, steps[0]), steps[1..], Less(budget, 1));
    }
  }

  /** The loop keeps the first result of each call among the steps it did. */
  lemma {:induction false} DoneKeepsResults(p: SubProgress, steps: seq<Step>, budget: Option<nat>)
    ensures DoUntil(p, steps, budget).tables.results ==
            KeepFirst(p.tables.results, ResultsIn(steps[..Done(p, steps, budget)]))
    decreases |steps|
  {
    hide Do, KeepFirst;
    KeepNone(p.tables.results);
    if p.ok && steps != [] && budget != Some(0) {
      var next, n := Do(p, steps[0]), Done(p, steps, budget);
      DoKeepsResults(p, steps[0]);
      if next.ok {
        DoneKeepsResults(next, steps[1..], Less(budget, 1));
        assert steps[..n][1..] == steps[1..][..n - 1];
        var own, later := ResultsIn([steps[0]]), ResultsIn(steps[1..][..n - 1]);
        assert steps[..n] == [steps[0]] + steps[1..][..n - 1];
        ResultsInAppend([steps[0]], steps[1..][..n - 1]);
        KeepFirstAppend(p.tables.results, own, later);
      } else {
        NothingMore(next, steps[1..], Less(budget, 1));
      }
    }
  }

  lemma DoKeepsResults(p: SubProgress, step: Step)
    ensures Do(p, step).tables.results ==
            if Do(p, step).ok then KeepFirst(p.tables.results, ResultsIn([step])) else p.tables.results
    requires p.ok
  {
    assert [step][1..] == [];
    KeepNone(p.tables.results);
    if step.InsertResult? {
      KeepOne(p.tables.results, step.result);
      assert ResultsIn([step]) == [step.result];
    }
  }

  lemma KeepOne(kept: map<Json, ResultRow>, row: ResultRow)
    ensures KeepFirst(kept, [row]) == if row.toolUseId in kept then kept else kept[row.toolUseId := row]
  {
    assert [row][..0] == [];
  }

  lemma KeepNone(kept: map<Json, ResultRow>)
    ensures KeepFirst(kept, []) == kept
  {
  }

  // ---- how far a transcript has got ----------------------------------------

  const NOTHING_YET := SubProgress(true, EMPTY_SUB_TABLES, SessionPull.NO_COUNTS)

  /** Every step of the file's complete lines; the verdicts play no part in its texts and calls. */
  function AllSteps(codec: Codec, file: Bytes): seq<Step>
  {
    StepsOfLines(codec, LinesFrom(file, 0), {})
  }

  /** Two passes that stand alike, up to their results and watermarks. */
  predicate Alike(p: SubProgress, q: SubProgress)
  {
    p.ok == q.ok && p.tables.texts == q.tables.texts && p.tables.calls == q.tables.calls
  }

  /** The tables hold the texts and calls of one pass from nothing through the first `n` steps. */
  ghost predicate StandsAt(all: seq<Step>, t: SubTables, n: nat)
  {
    && n <= |all|
    && DoUntil(NOTHING_YET, all[..n], None).ok
    && Alike(SubProgress(true, t, SessionPull.NO_COUNTS), DoUntil(NOTHING_YET, all[..n], None))
  }

  lemma OneStepFurther(all: seq<Step>, n: nat)
    requires n < |all| && DoUntil(NOTHING_YET, all[..n], None).ok
    ensures DoUntil(NOTHING_YET, all[..n + 1], None) == Do(DoUntil(NOTHING_YET, all[..n], None), all[n])
  {
    hide DoUntil, Do;
    assert all[..n + 1] == all[..n] + [all[n]];
    DoUntilAppend(NOTHING_YET, all[..n], [all[n]], None);
    DoOne(DoUntil(NOTHING_YET, all[..n], None), all[n], None);
  }

  /** A step that was passed did not fail, and its key has been taken since. */
  lemma {:induction false} PassedStep(all: seq<Step>, n: nat, i: nat, t: SubTables)
    requires i < n && StandsAt(all, t, n)
    ensures !all[i].Raise? && (all[i].InsertResult? ==> all[i].result.binds)
    ensures Inserts(all[i]) ==> Blocked(t, all[i])
  {
    hide DoUntil, Do;
    var at := DoUntil(NOTHING_YET, all[..i], None);
    assert all[..n] == all[..i] + all[i..n] && all[i..n] == [all[i]] + all[i + 1..n];
    DoUntilAppend(NOTHING_YET, all[..i], all[i..n], None);
    DoUntilAppend(at, [all[i]], all[i + 1..n], None);
    DoOne(at, all[i], None);
    if !at.ok {
      NothingMore(at, all[i..n], None);
    } else {
      var next := Do(at, all[i]);
      if !next.ok {
        NothingMore(next, all[i + 1..n], None);
      } else {
        DoBlocks(at, all[i], all[i]);
        BlockedStays(next, all[i + 1..n], None, all[i]);
        BlockedBySame(t, DoUntil(NOTHING_YET, all[..n], None).tables, all[i]);
      }
    }
  }

  lemma BlockedBySame(a: SubTables, b: SubTables, step: Step)
    requires a.texts == b.texts && a.calls == b.calls
    ensures Blocked(a, step) <==> Blocked(b, step)
  {
  }

  lemma OneStepAlike(p: SubProgress, q: SubProgress, a: Step, b: Step)
    requires Alike(p, q) && SameStep(a, b)
    ensures Alike(Do(p, a), Do(q, b))
  {
  }

  lemma FailedLeaves(p: SubProgress, step: Step)
    requires p.ok && !Do(p, step).ok
    ensures Do(p, step).tables == p.tables
  {
  }

  /** A passed step that inserts neither text nor call does nothing to them when it is done again. */
  lemma IdleStep(p: SubProgress, step: Step)
    requires p.ok && !Inserts(step) && !step.Raise? && (step.InsertResult? ==> step.result.binds)
    ensures Do(p, step).ok && Do(p, step).tables.texts == p.tables.texts && Do(p, step).tables.calls == p.tables.calls
  {
  }

  lemma AlikeStands(all: seq<Step>, t: SubTables, u: SubTables, n: nat)
    requires StandsAt(all, t, n) && t.texts == u.texts && t.calls == u.calls
    ensures StandsAt(all, u, n)
  {
  }

  /**
   Doing the steps from the `i`th on again, from tables that stand at a later one: either a key
   already taken stops it where it stands, or it idles up to there and goes on. It never falls back,
   and if it gets through it has done them all.
   */
  lemma {:induction false} Rerun(all: seq<Step>, p: SubProgress, steps: seq<Step>, i: nat, n: nat, budget: Option<nat>)
      returns (reached: nat)
    requires p.ok && i <= n && StandsAt(all, p.tables, n) && SameSteps(steps, all[i..])
    ensures n <= reached && StandsAt(all, DoUntil(p, steps, budget).tables, reached)
    ensures DoUntil(p, steps, budget).ok ==> reached == |all|
    decreases |steps|
  {
    hide DoUntil, Do, StandsAt, Inserts;
    StandsWithin(all, p.tables, n);
    if steps == [] {
      NothingMore(p, [], budget);
      return n;
    }
    assert SameStep(steps[0], all[i]);
    RestIsSame(steps, all, i);
    DoUnfolds(p, steps, budget);
    if budget == Some(0) {
      return n;
    }
    var next := Do(p, steps[0]);
    if i < n {
      PassedStep(all, n, i, p.tables);
      if Inserts(all[i]) {
        SameInsert(steps[0], all[i]);
        DoBlocks(p, steps[0], steps[0]);
        FailedLeaves(p, steps[0]);
        NothingMore(next, steps[1..], Less(budget, 1));
        return n;
      }
      SameIdle(steps[0], all[i]);
      IdleStep(p, steps[0]);
      AlikeStands(all, p.tables, next.tables, n);
      reached := Rerun(all, next, steps[1..], i + 1, n, Less(budget, 1));
    } else if !next.ok {
      FailedLeaves(p, steps[0]);
      NothingMore(next, steps[1..], Less(budget, 1));
      return n;
    } else {
      NextStands(all, p, steps[0], n);
      reached := Rerun(all, next, steps[1..], n + 1, n + 1, Less(budget, 1));
    }
  }

  lemma StandsWithin(all: seq<Step>, t: SubTables, n: nat)
    requires StandsAt(all, t, n)
    ensures n <= |all|
  {
  }

  lemma RestIsSame(steps: seq<Step>, all: seq<Step>, i: nat)
    requires i < |all| && steps != [] && SameSteps(steps, all[i..])
    ensures SameSteps(steps[1..], all[i + 1..])
  {
  }

  lemma DoUnfolds(p: SubProgress, steps: seq<Step>, budget: Option<nat>)
    requires p.ok && steps != []
    ensures budget == Some(0) ==> DoUntil(p, steps, budget) == p.(ok := false)
    ensures budget != Some(0) ==> DoUntil(p, steps, budget) == DoUntil(Do(p, steps[0]), steps[1..], Less(budget, 1))
  {
    hide Do;
  }

  lemma SameInsert(a: Step, b: Step)
    requires SameStep(a, b) && Inserts(b)
    ensures a == b
  {
  }

  lemma SameIdle(a: Step, b: Step)
    requires SameStep(a, b) && !Inserts(b) && !b.Raise? && (b.InsertResult? ==> b.result.binds)
    ensures !Inserts(a) && !a.Raise? && (a.InsertResult? ==> a.result.binds)
  {
  }

  lemma NextStands(all: seq<Step>, p: SubProgress, step: Step, n: nat)
    requires p.ok && StandsAt(all, p.tables, n) && n < |all| && SameStep(step, all[n]) && Do(p, step).ok
    ensures StandsAt(all, Do(p, step).tables, n + 1)
  {
    hide DoUntil, Do;
    var q := DoUntil(NOTHING_YET, all[..n], None);
    OneStepFurther(all, n);
    OneStepAlike(p, q, step, all[n]);
  }

  lemma NothingStandsAtStart(all: seq<Step>, t: SubTables)
    requires t.texts == map[] && t.calls == map[]
    ensures StandsAt(all, t, 0)
  {
    assert all[..0] == [];
    NothingMore(NOTHING_YET, [], None);
  }

  /** More steps at the end do not move what stands. */
  lemma StandsInLonger(all: seq<Step>, longer: seq<Step>, t: SubTables, n: nat)
    requires StandsAt(all, t, n) && all <= longer
    ensures StandsAt(longer, t, n)
  {
    assert longer[..n] == all[..n];
  }

  // ---- the steps of a file -------------------------------------------------

  lemma AllStepsOfGrown(codec: Codec, file: Bytes, longer: Bytes)
    requires GrewTo(file, longer)
    ensures AllSteps(codec, file) <= AllSteps(codec, longer)
  {
    hide StepsOfLines, LinesFrom, Watermark;
    LinesOfGrown(file, longer, 0);
    StepsOfLinesAppend(codec, LinesFrom(file, 0), LinesFrom(longer, Watermark(file, 0)), {});
  }

  /** The steps of a pull from the watermark on, among all the file's steps. */
  lemma StepsPastMark(codec: Codec, file: Bytes, mark: nat, denyIds: set<string>)
    requires mark <= |file| && Watermark(file[..mark], 0) == mark
    ensures var all, below := AllSteps(codec, file), AllSteps(codec, file[..mark]);
      && |below| <= |all|
      && SameSteps(StepsOfLines(codec, LinesFrom(file, mark), denyIds), all[|below|..])
    ensures AllSteps(codec, file[..Watermark(file, mark)]) == AllSteps(codec, file)
    ensures Watermark(file, mark) == Watermark(file, 0) && Watermark(file[..Watermark(file, mark)], 0) == Watermark(file, mark)
  {
    hide StepsOfLines, LinesFrom, Watermark;
    var old_, new_ := LinesFrom(file[..mark], 0), LinesFrom(file, mark);
    LinesOfGrown(file[..mark], file, 0);
    CutAtWatermark(file, 0);
    StepsOfLinesAppend(codec, old_, new_, {});
    StepsIgnoreVerdicts(codec, new_, denyIds);
    SameStepsSwap(StepsOfLines(codec, new_, {}), StepsOfLines(codec, new_, denyIds));
  }

  lemma SameStepsSwap(a: seq<Step>, b: seq<Step>)
    requires SameSteps(a, b)
    ensures SameSteps(b, a)
  {
  }

  // ---- histories of the plane ----------------------------------------------

  /** The transcript has got as far as its watermark at least. */
  ghost predicate GotTo(codec: Codec, file: Bytes, mark: nat, t: SubTables)
    requires mark <= |file|
  {
    exists n :: |AllSteps(codec, file[..mark])| <= n && StandsAt(AllSteps(codec, file), t, n)
  }

  /**
   The stored transcript: its watermark, its identity, its results, and the texts and calls of
   all the bytes below the watermark and of what a broken-off pull inserted past it.
   */
  ghost predicate HoldsAt(codec: Codec, w: World, path: Path, t: SubTables)
  {
    && path in w.files
    && t.byteOffset == Runs.MarkOf(w, path) <= |w.files[path]|
    && StreamIdOfPath(w.files[path]) == Some(t.streamId)
    && t.results == Runs.ResultsOf(w.results, path)
    && Watermark(w.files[path][..t.byteOffset], 0) == t.byteOffset
    && GotTo(codec, w.files[path], t.byteOffset, t)
  }

  ghost predicate Holds(codec: Codec, w: World, store: SubStore)
  {
    && w.marks.Keys <= store.Keys
    && (forall path | path in store :: HoldsAt(codec, w, path, store[path]))
    && (forall key | key in w.results :: key.0 in store)
  }

  function VisitOf(w: World, path: Path, denyIds: set<string>, crash: Crash): SubVisit
    requires path in w.files
  {
    SubVisit(path, Some(w.files[path]), denyIds, crash)
  }

  /** The result rows a pull inserts or ignores before it stops. */
  function ResultsDone(codec: Codec, before: Option<SubTables>, visit: SubVisit): nat
    requires visit.disk.Some? && StreamIdOfPath(visit.disk.value).Some?
  {
    if visit.crash == AtOpen then 0
    else
      var file, id := visit.disk.value, StreamIdOfPath(visit.disk.value).value;
      var steps := StepsOfLines(codec, NewLines(file, StartOf(before, id)), visit.denyIds);
      var p := SubProgress(true, Renamed(before, id), SessionPull.NO_COUNTS);
      |ResultsIn(steps[..Done(p, steps, Budget(visit.crash))])|
  }

  /** The pull raises, at a step of its own or by an accident, and what it had inserted is committed. */
  ghost predicate BreaksOff(codec: Codec, w: World, store: SubStore, e: Runs.Event, crash: Crash, after: SubStore)
    requires e.BrokenPull? && e.path in w.files
  {
    var visit, before := VisitOf(w, e.path, e.denyIds, crash), Held(store, e.path);
    var outcome := PullSubFile(codec, before, visit);
    && StreamIdOfPath(visit.disk.value).Some?
    && outcome.Broken?
    && e.rows == ResultsDone(codec, before, visit)
    && after == Put(store, e.path, outcome.left)
  }

  /** The event can happen, and what it does to the plane's own tables. */
  ghost predicate PlaneStep(codec: Codec, w: World, store: SubStore, e: Runs.Event, after: SubStore)
  {
    && Runs.Possible(codec, w, e)
    && match e
       case Pull(path, denyIds) =>
         var outcome := PullSubFile(codec, Held(store, path), VisitOf(w, path, denyIds, NoCrash));
         outcome.Read? && after == store[path := outcome.tables]
       case BrokenPull(path, denyIds, rows) => exists crash :: BreaksOff(codec, w, store, e, crash, after)
       case Reconcile(readable) =>
         var results := Runs.ReconciledTable(codec, w, readable);
         after == map path | path in store :: store[path].(results := Runs.ResultsOf(results, path))
       case _ => after == store
  }

  ghost predicate IsPlaneRun(codec: Codec, events: seq<Runs.Event>, worlds: seq<World>, stores: seq<SubStore>)
  {
    && Runs.IsRun(codec, events, worlds)
    && |stores| == |worlds|
    && stores[0] == map[]
    && forall i | 0 <= i < |events| :: PlaneStep(codec, worlds[i], stores[i], events[i], stores[i + 1])
  }

  lemma HeldIsOnRecord(codec: Codec, w: World, path: Path, t: SubTables)
    requires HoldsAt(codec, w, path, t)
    ensures path in w.files
  {
  }

  lemma HoldsStill(codec: Codec, w: World, after: World, path: Path, t: SubTables)
    requires HoldsAt(codec, w, path, t)
    requires path in after.files && after.files[path] == w.files[path]
    requires Runs.MarkOf(after, path) == Runs.MarkOf(w, path)
    requires Runs.ResultsOf(after.results, path) == Runs.ResultsOf(w.results, path)
    ensures HoldsAt(codec, after, path, t)
  {
    hide GotTo, Runs.ResultsOf, Watermark, StreamIdOfPath;
  }

  lemma AppendHolds(codec: Codec, w: World, store: SubStore, path: Path, longer: Bytes)
    requires Holds(codec, w, store) && Runs.Possible(codec, w, Runs.Append(path, longer))
    ensures Holds(codec, Runs.Apply(codec, w, Runs.Append(path, longer)), store)
  {
    hide HoldsAt, Runs.ResultsOf, GrewTo;
    var after := Runs.Apply(codec, w, Runs.Append(path, longer));
    forall p | p in store ensures HoldsAt(codec, after, p, store[p]) {
      HeldIsOnRecord(codec, w, p, store[p]);
      if p == path {
        GrownHolds(codec, w, path, longer, store[path]);
      } else {
        HoldsStill(codec, w, after, p, store[p]);
      }
    }
  }

  lemma GrownHolds(codec: Codec, w: World, path: Path, longer: Bytes, t: SubTables)
    requires path in w.files && HoldsAt(codec, w, path, t) && GrewTo(w.files[path], longer)
    ensures HoldsAt(codec, w.(files := w.files[path := longer]), path, t)
  {
    hide AllSteps, StandsAt, Runs.ResultsOf, Watermark, StreamIdOfPath;
    var file := w.files[path];
    IdentityIsStable(file, longer);
    assert longer[..t.byteOffset] == file[..t.byteOffset];
    AllStepsOfGrown(codec, file, longer);
    var n :| |AllSteps(codec, file[..t.byteOffset])| <= n && StandsAt(AllSteps(codec, file), t, n);
    StandsInLonger(AllSteps(codec, file), AllSteps(codec, longer), t, n);
  }

  /** A pull from the watermark, whatever stops it: how far its tables get and which results it keeps. */
  lemma PullGets(codec: Codec, file: Bytes, mark: nat, p: SubProgress, denyIds: set<string>, budget: Option<nat>)
    requires p.ok && mark <= |file| && Watermark(file[..mark], 0) == mark && GotTo(codec, file, mark, p.tables)
    ensures var steps := StepsOfLines(codec, LinesFrom(file, mark), denyIds);
      var q := DoUntil(p, steps, budget);
      var done := ResultsIn(steps[..Done(p, steps, budget)]);
      && GotTo(codec, file, mark, q.tables)
      && (q.ok ==> GotTo(codec, file, Watermark(file, mark), q.tables))
      && q.tables.byteOffset == p.tables.byteOffset && q.tables.streamId == p.tables.streamId
      && q.tables.results == KeepFirst(p.tables.results, done)
      && done <= RowsOfLines(codec, LinesFrom(file, mark), denyIds).results
      && (q.ok ==> done == RowsOfLines(codec, LinesFrom(file, mark), denyIds).results)
  {
    hide DoUntil, StepsOfLines, LinesFrom, Watermark, AllSteps, StandsAt, KeepFirst, RowsOfLines, ResultsIn, Done, SameSteps;
    var all, below := AllSteps(codec, file), AllSteps(codec, file[..mark]);
    var steps := StepsOfLines(codec, LinesFrom(file, mark), denyIds);
    StepsPastMark(codec, file, mark, denyIds);
    var n :| |below| <= n && StandsAt(all, p.tables, n);
    var reached := Rerun(all, p, steps, |below|, n, budget);
    var k := Done(p, steps, budget);
    DoneKeepsResults(p, steps, budget);
    MarkStays(p, steps, budget);
    ResultsInAppend(steps[..k], steps[k..]);
    assert steps[..k] + steps[k..] == steps;
    ResultsInLines(codec, LinesFrom(file, mark), denyIds);
    if DoUntil(p, steps, budget).ok {
      AllDone(p, steps, budget);
      assert steps[..k] == steps;
    }
  }

  /** Where a pull of a transcript starts from. */
  lemma PullStarts(codec: Codec, w: World, store: SubStore, path: Path)
    requires Holds(codec, w, store) && path in w.files && StreamIdOfPath(w.files[path]).Some?
    ensures var file, mark := w.files[path], Runs.MarkOf(w, path);
      var id := StreamIdOfPath(file).value;
      var t := Renamed(Held(store, path), id);
      && StartOf(Held(store, path), id) == mark <= |file|
      && t.byteOffset == mark && t.streamId == id
      && Watermark(file[..mark], 0) == mark
      && GotTo(codec, file, mark, t)
      && t.results == Runs.ResultsOf(w.results, path)
  {
    hide LinesFrom, Watermark, StreamIdOfPath, Runs.ResultsOf, StandsAt, AllSteps;
    if path in store {
      assert HoldsAt(codec, w, path, store[path]);
    } else {
      StartsEmpty(codec, w, path);
    }
  }

  lemma StartsEmpty(codec: Codec, w: World, path: Path)
    requires path in w.files && path !in w.marks && forall key | key in w.results :: key.0 != path
    ensures Watermark(w.files[path][..0], 0) == 0 && Runs.ResultsOf(w.results, path) == map[]
    ensures forall id :: GotTo(codec, w.files[path], 0, EMPTY_SUB_TABLES.(streamId := id))
  {
    hide StandsAt;
    assert w.files[path][..0] == [] && LinesFrom([], 0) == [];
    assert |AllSteps(codec, w.files[path][..0])| == 0;
    forall id ensures GotTo(codec, w.files[path], 0, EMPTY_SUB_TABLES.(streamId := id)) {
      NothingStandsAtStart(AllSteps(codec, w.files[path]), EMPTY_SUB_TABLES.(streamId := id));
    }
  }

  lemma SameRowsGotTo(codec: Codec, file: Bytes, mark: nat, t: SubTables, u: SubTables)
    requires mark <= |file| && GotTo(codec, file, mark, t) && t.texts == u.texts && t.calls == u.calls
    ensures GotTo(codec, file, mark, u)
  {
    hide AllSteps, StandsAt;
    var n :| |AllSteps(codec, file[..mark])| <= n && StandsAt(AllSteps(codec, file), t, n);
    AlikeStands(AllSteps(codec, file), t, u, n);
  }

  /** The pulled transcript itself. */
  lemma PulledHolds(codec: Codec, w: World, store: SubStore, path: Path, denyIds: set<string>, after: SubStore)
    requires Holds(codec, w, store) && PlaneStep(codec, w, store, Runs.Pull(path, denyIds), after)
    ensures HoldsAt(codec, Runs.Apply(codec, w, Runs.Pull(path, denyIds)), path, after[path])
  {
    hide DoUntil, StepsOfLines, LinesFrom, Watermark, StreamIdOfPath, GotTo, Runs.ResultsOf, Runs.KeepFirstAt,
      KeepFirst, RowsOfLines, Runs.AllResults, ResultsIn, Done;
    var file, mark := w.files[path], Runs.MarkOf(w, path);
    var id := StreamIdOfPath(file).value;
    PullStarts(codec, w, store, path);
    var p := SubProgress(true, Renamed(Held(store, path), id), SessionPull.NO_COUNTS);
    PullGets(codec, file, mark, p, denyIds, None);
    StepsPastMark(codec, file, mark, denyIds);
    var rows := Runs.NewResults(codec, w, path, denyIds);
    assert rows[..|rows|] == rows;
    Runs.KeepFirstAtIsKeepFirst(w.results, path, rows, path);
    if mark == |file| {
      NoMoreLines(file);
    }
    var q := DoUntil(p, StepsOfLines(codec, LinesFrom(file, mark), denyIds), None);
    SameRowsGotTo(codec, file, Watermark(file, mark), q.tables, after[path]);
  }

  lemma NoMoreLines(file: Bytes)
    ensures Watermark(file, |file|) == |file|
  {
  }

  /** What a broken-off pull leaves of its transcript. */
  lemma BrokenHolds(codec: Codec, w: World, store: SubStore, e: Runs.Event, crash: Crash, after: SubStore)
    requires Holds(codec, w, store) && e.BrokenPull? && Runs.Possible(codec, w, e)
    requires BreaksOff(codec, w, store, e, crash, after)
    ensures e.path in after ==> HoldsAt(codec, Runs.Apply(codec, w, e), e.path, after[e.path])
    ensures e.path !in after ==> e.path !in store && e.rows == 0
  {
    hide DoUntil, StepsOfLines, LinesFrom, Watermark, StreamIdOfPath, GotTo, Runs.ResultsOf, Runs.KeepFirstAt,
      KeepFirst, RowsOfLines, Runs.AllResults, ResultsIn, Done;
    var path, file, mark := e.path, w.files[e.path], Runs.MarkOf(w, e.path);
    var id := StreamIdOfPath(file).value;
    PullStarts(codec, w, store, path);
    var p := SubProgress(true, Renamed(Held(store, path), id), SessionPull.NO_COUNTS);
    PullGets(codec, file, mark, p, e.denyIds, Budget(crash));
    var rows := Runs.NewResults(codec, w, path, e.denyIds);
    Runs.KeepFirstAtIsKeepFirst(w.results, path, rows[..e.rows], path);
    if crash == AtOpen {
      assert rows[..0] == [];
      KeepNone(Runs.ResultsOf(w.results, path));
      if path in store {
        assert HoldsAt(codec, w, path, store[path]);
      }
    } else {
      var steps := StepsOfLines(codec, LinesFrom(file, mark), e.denyIds);
      var done := ResultsIn(steps[..Done(p, steps, Budget(crash))]);
      assert e.rows == |done| && rows[..|done|] == done;
      assert after[path] == DoUntil(p, steps, Budget(crash)).tables;
    }
  }

  lemma PullHolds(codec: Codec, w: World, store: SubStore, path: Path, denyIds: set<string>, after: SubStore)
    requires Holds(codec, w, store) && PlaneStep(codec, w, store, Runs.Pull(path, denyIds), after)
    ensures Holds(codec, Runs.Apply(codec, w, Runs.Pull(path, denyIds)), after)
  {
    hide HoldsAt, Runs.ResultsOf, PullSubFile, Runs.NewResults, Runs.KeepFirstAt, Runs.AllResults;
    var now := Runs.Apply(codec, w, Runs.Pull(path, denyIds));
    var rows := Runs.NewResults(codec, w, path, denyIds);
    PulledHolds(codec, w, store, path, denyIds, after);
    Runs.KeepFirstAtIsKeepFirst(w.results, path, rows[..|rows|], path);
    forall p | p in after && p != path ensures HoldsAt(codec, now, p, after[p]) {
      Runs.KeepFirstAtIsKeepFirst(w.results, path, rows[..|rows|], p);
      HeldIsOnRecord(codec, w, p, store[p]);
      HoldsStill(codec, w, now, p, store[p]);
    }
  }

  lemma BrokenPullHolds(codec: Codec, w: World, store: SubStore, e: Runs.Event, crash: Crash, after: SubStore)
    requires Holds(codec, w, store) && e.BrokenPull? && Runs.Possible(codec, w, e)
    requires BreaksOff(codec, w, store, e, crash, after)
    ensures Holds(codec, Runs.Apply(codec, w, e), after)
  {
    hide HoldsAt, Runs.ResultsOf, PullSubFile, Runs.NewResults, Runs.KeepFirstAt, Runs.AllResults, ResultsDone;
    var now := Runs.Apply(codec, w, e);
    var rows := Runs.NewResults(codec, w, e.path, e.denyIds);
    BrokenHolds(codec, w, store, e, crash, after);
    Runs.KeepFirstAtIsKeepFirst(w.results, e.path, rows[..e.rows], e.path);
    forall p | p in after && p != e.path ensures HoldsAt(codec, now, p, after[p]) {
      Runs.KeepFirstAtIsKeepFirst(w.results, e.path, rows[..e.rows], p);
      HeldIsOnRecord(codec, w, p, store[p]);
      HoldsStill(codec, w, now, p, store[p]);
    }
    if e.path !in after {
      NoRowsNoKeys(w.results, e.path, rows[..e.rows]);
    }
  }

  lemma NoRowsNoKeys(results: map<LateVerdicts.Key, ResultRow>, path: Path, rows: seq<ResultRow>)
    requires rows == []
    ensures Runs.KeepFirstAt(results, path, rows) == results
  {
  }

  lemma ReconcileHolds(codec: Codec, w: World, store: SubStore, readable: set<Path>, after: SubStore)
    requires Holds(codec, w, store) && PlaneStep(codec, w, store, Runs.Reconcile(readable), after)
    ensures Holds(codec, Runs.Apply(codec, w, Runs.Reconcile(readable)), after)
  {
    hide HoldsAt, Runs.ResultsOf, Runs.ReconciledTable;
    var now := Runs.Apply(codec, w, Runs.Reconcile(readable));
    forall path | path in after ensures HoldsAt(codec, now, path, after[path]) {
      ReconciledHolds(codec, w, path, store[path], now);
    }
    SameKeys(codec, w, readable);
  }

  lemma SameKeys(codec: Codec, w: World, readable: set<Path>)
    ensures Runs.ReconciledTable(codec, w, readable).Keys == w.results.Keys
  {
  }

  lemma ReconciledHolds(codec: Codec, w: World, path: Path, t: SubTables, now: World)
    requires HoldsAt(codec, w, path, t) && now == w.(results := now.results)
    ensures HoldsAt(codec, now, path, t.(results := Runs.ResultsOf(now.results, path)))
  {
    hide GotTo, Runs.ResultsOf, Watermark, StreamIdOfPath;
    SameRowsGotTo(codec, w.files[path], t.byteOffset, t, t.(results := Runs.ResultsOf(now.results, path)));
  }

  /**
   Throughout any history, broken-off pulls included, the plane holds for each transcript the
   texts and calls of one pass through a first part of its steps, all those below the watermark
   at least, and its part of the shared results.
   */
  lemma {:induction false} PlaneHolds(codec: Codec, events: seq<Runs.Event>, worlds: seq<World>, stores: seq<SubStore>, n: nat)
    requires IsPlaneRun(codec, events, worlds, stores) && n < |worlds|
    ensures Holds(codec, worlds[n], stores[n])
  {
    hide HoldsAt, Runs.Apply, PlaneStep;
    if n > 0 {
      PlaneHolds(codec, events, worlds, stores, n - 1);
      var w, store, e := worlds[n - 1], stores[n - 1], events[n - 1];
      assert PlaneStep(codec, w, store, e, stores[n]);
      EventHolds(codec, w, store, e, stores[n]);
    }
  }

  lemma EventHolds(codec: Codec, w: World, store: SubStore, e: Runs.Event, after: SubStore)
    requires Holds(codec, w, store) && PlaneStep(codec, w, store, e, after)
    ensures Runs.Possible(codec, w, e)
    ensures Holds(codec, Runs.Apply(codec, w, e), after)
  {
    hide HoldsAt, Runs.ReconciledTable, Runs.Inserted, PullSubFile, BreaksOff;
    match e {
      case Append(path, longer) => AppendHolds(codec, w, store, path, longer);
      case Pull(path, denyIds) => PullHolds(codec, w, store, path, denyIds, after);
      case BrokenPull(_, _, _) =>
        var crash :| BreaksOff(codec, w, store, e, crash, after);
        BrokenPullHolds(codec, w, store, e, crash, after);
      case Reconcile(readable) => ReconcileHolds(codec, w, store, readable, after);
      case VerdictLands(id) => VerdictHolds(codec, w, store, id);
    }
  }

  lemma VerdictHolds(codec: Codec, w: World, store: SubStore, id: string)
    requires Holds(codec, w, store)
    ensures Holds(codec, Runs.Apply(codec, w, Runs.VerdictLands(id)), store)
  {
    hide HoldsAt, Runs.ResultsOf;
    forall path | path in store ensures HoldsAt(codec, Runs.Apply(codec, w, Runs.VerdictLands(id)), path, store[path]) {
      HeldIsOnRecord(codec, w, path, store[path]);
      HoldsStill(codec, w, Runs.Apply(codec, w, Runs.VerdictLands(id)), path, store[path]);
    }
  }

  // ---- the rebuild ---------------------------------------------------------

  /** The re-pull from an empty plane with every verdict landed by now; an accident may end it anywhere. */
  ghost predicate IsRepull(w: World, visits: seq<SubVisit>)
  {
    && DistinctVisits(visits)
    && forall i | 0 <= i < |visits| ::
         visits[i].path in w.files && visits[i] == VisitOf(w, visits[i].path, w.verdicts, visits[i].crash)
  }

  /** The plane after the re-pull. */
  function Repulled(codec: Codec, visits: seq<SubVisit>): SubStore
  {
    RunOf(codec, map[], visits).working
  }

  /** The transcript is read up to its last complete line. */
  predicate ReadThrough(w: World, store: SubStore, path: Path)
  {
    path in store && path in w.files && store[path].byteOffset == Watermark(w.files[path], 0)
  }

  /** The transcripts read to their end before the rebuild and again by the re-pull. */
  function Unchanged(w: World, store: SubStore, after: SubStore): set<Path>
  {
    set path | path in store && ReadThrough(w, store, path) && ReadThrough(w, after, path)
  }

  /** One pull of every complete line with every verdict landed by now. */
  function WholeOneShot(codec: Codec, w: World, path: Path): LateVerdicts.Results
    requires path in w.files
  {
    LateVerdicts.OneShot(codec, w.files[path][..Watermark(w.files[path], 0)], w.verdicts)
  }

  lemma StandAlike(all: seq<Step>, t: SubTables, u: SubTables, n: nat)
    requires StandsAt(all, t, n) && StandsAt(all, u, n)
    ensures t.texts == u.texts && t.calls == u.calls
  {
    hide DoUntil;
  }

  lemma GotToTheEnd(codec: Codec, file: Bytes, t: SubTables)
    requires GotTo(codec, file, Watermark(file, 0), t)
    ensures StandsAt(AllSteps(codec, file), t, |AllSteps(codec, file)|)
  {
    hide StepsOfLines, LinesFrom, Watermark, StandsAt;
    CutAtWatermark(file, 0);
    var n :| |AllSteps(codec, file)| <= n && StandsAt(AllSteps(codec, file), t, n);
    StandsWithin(AllSteps(codec, file), t, n);
  }

  /** What the re-pull leaves of one transcript. */
  ghost predicate IsRepulled(codec: Codec, visits: seq<SubVisit>, path: Path, t: SubTables)
  {
    exists i :: 0 <= i < |visits| && visits[i].path == path && Left(None, PullSubFile(codec, None, visits[i])) == Some(t)
  }

  lemma {:induction false} RepullLeaves(codec: Codec, visits: seq<SubVisit>, n: nat)
    requires DistinctVisits(visits) && n <= |visits|
    ensures forall path | path in Repulled(codec, visits[..n]) :: IsRepulled(codec, visits, path, Repulled(codec, visits[..n])[path])
  {
    hide PullSubFile, VisitSubFiles;
    if n == 0 {
      assert visits[..0] == [] && RunOf(codec, map[], []) == SubRun(map[], map[], true) by { NoVisits(codec); }
    } else {
      RepullLeaves(codec, visits, n - 1);
      OneMoreVisit(codec, map[], visits, n);
      UnvisitedAreAsBefore(codec, map[], visits, n - 1);
      assert Held(Repulled(codec, visits[..n - 1]), visits[n - 1].path) == None;
    }
  }

  lemma NoVisits(codec: Codec)
    ensures RunOf(codec, map[], []) == SubRun(map[], map[], true)
  {
  }

  /** A pull of a whole file from nothing that moved its watermark to the end got to the end. */
  lemma PulledThrough(codec: Codec, w: World, path: Path, crash: Crash, t: SubTables)
    requires path in w.files
    requires Left(None, PullSubFile(codec, None, VisitOf(w, path, w.verdicts, crash))) == Some(t)
    requires t.byteOffset == Watermark(w.files[path], 0)
    ensures StandsAt(AllSteps(codec, w.files[path]), t, |AllSteps(codec, w.files[path])|)
    ensures t.results == WholeOneShot(codec, w, path)
  {
    hide DoUntil, StepsOfLines, LinesFrom, Watermark, StreamIdOfPath, KeepFirst, RowsOfLines, GotTo, StandsAt, ResultsIn, Done;
    var file := w.files[path];
    var id := StreamIdOfPath(file).value;
    var p := SubProgress(true, Renamed(None, id), SessionPull.NO_COUNTS);
    var steps := StepsOfLines(codec, LinesFrom(file, 0), w.verdicts);
    assert file[..0] == [];
    NothingReadOf(codec, file, p.tables);
    PullGets(codec, file, 0, p, w.verdicts, Budget(crash));
    CutAtWatermark(file, 0);
    if Watermark(file, 0) == 0 {
      NothingInIt(codec, file, w.verdicts);
      NothingMore(p, [], Budget(crash));
    }
    var q := DoUntil(p, steps, Budget(crash));
    assert q.ok;
    SameRowsGotTo(codec, file, Watermark(file, 0), q.tables, t);
    GotToTheEnd(codec, file, t);
  }

  lemma NothingReadOf(codec: Codec, file: Bytes, t: SubTables)
    requires t.texts == map[] && t.calls == map[]
    ensures Watermark(file[..0], 0) == 0 && GotTo(codec, file, 0, t)
  {
    hide StandsAt;
    assert file[..0] == [] && LinesFrom([], 0) == [];
    assert |AllSteps(codec, file[..0])| == 0;
    NothingStandsAtStart(AllSteps(codec, file), t);
  }

  lemma NothingInIt(codec: Codec, file: Bytes, denyIds: set<string>)
    requires Watermark(file, 0) == 0
    ensures StepsOfLines(codec, LinesFrom(file, 0), denyIds) == []
  {
    hide StepsOfLine, LinesFrom;
    LinesAreOrdered(file, 0);
    if LinesFrom(file, 0) != [] {
      LinesTakeRoom(LinesFrom(file, 0), 0, Watermark(file, 0));
    }
  }

  lemma LinesTakeRoom(lines: seq<Line>, from: nat, mark: nat)
    requires Ordered(lines, from, mark) && lines != []
    ensures from < mark
  {
    assert from <= lines[0].offset < mark;
  }

  lemma RepulledStands(codec: Codec, w: World, visits: seq<SubVisit>, path: Path)
    requires IsRepull(w, visits) && ReadThrough(w, Repulled(codec, visits), path)
    ensures StandsAt(AllSteps(codec, w.files[path]), Repulled(codec, visits)[path], |AllSteps(codec, w.files[path])|)
    ensures Repulled(codec, visits)[path].results == WholeOneShot(codec, w, path)
  {
    hide PullSubFile, VisitSubFiles, StreamIdOfPath, WholeOneShot, Watermark, StandsAt, AllSteps;
    RepullLeaves(codec, visits, |visits|);
    assert visits[..|visits|] == visits;
    var t := Repulled(codec, visits)[path];
    var i :| 0 <= i < |visits| && visits[i].path == path && Left(None, PullSubFile(codec, None, visits[i])) == Some(t);
    PulledThrough(codec, w, path, visits[i].crash, t);
  }

  lemma HeldStands(codec: Codec, w: World, store: SubStore, path: Path)
    requires Holds(codec, w, store) && ReadThrough(w, store, path)
    ensures StandsAt(AllSteps(codec, w.files[path]), store[path], |AllSteps(codec, w.files[path])|)
  {
    hide GotTo, StandsAt, AllSteps, StreamIdOfPath, Watermark, Runs.ResultsOf;
    assert HoldsAt(codec, w, path, store[path]);
    GotToTheEnd(codec, w.files[path], store[path]);
  }

  /** The re-pull of an unchanged transcript finds the same calls, and the same results up to late remedies. */
  lemma RepulledPath(codec: Codec, w: World, store: SubStore, visits: seq<SubVisit>, path: Path)
    requires Runs.WorldInv(codec, w) && Holds(codec, w, store) && IsRepull(w, visits)
    requires ReadThrough(w, store, path) && ReadThrough(w, Repulled(codec, visits), path)
    ensures var after := Repulled(codec, visits);
      && after[path].calls == store[path].calls
      && after[path].results == WholeOneShot(codec, w, path)
      && LateVerdicts.Lags(store[path].results, after[path].results)
  {
    hide Repulled, WholeOneShot, LateVerdicts.Lags, Runs.WorldInv, Holds, IsRepull, Watermark, StandsAt, AllSteps;
    RepulledStands(codec, w, visits, path);
    HeldStands(codec, w, store, path);
    StandAlike(AllSteps(codec, w.files[path]), Repulled(codec, visits)[path], store[path], |AllSteps(codec, w.files[path])|);
    LagsOneShot(codec, w, store, path);
  }

  /** With the watermark past the last complete line, every result is in. */
  lemma ReferenceIsWhole(codec: Codec, w: World, path: Path)
    requires path in w.files && Runs.MarkIsSound(codec, w, path) && Runs.MarkOf(w, path) == Watermark(w.files[path], 0)
    ensures Runs.Reference(codec, w, path) == WholeOneShot(codec, w, path)
  {
    hide LinesFrom, RowsOfLines, Watermark, KeepFirst, LateVerdicts.OneShot;
    var file := w.files[path];
    CutAtWatermark(file, 0);
    Runs.CountIgnoresVerdicts(codec, file, w.verdicts);
    Runs.ReferenceAtMark(codec, w, path);
  }

  /** A transcript read to its end lags one pull of all its complete lines. */
  lemma LagsOneShot(codec: Codec, w: World, store: SubStore, path: Path)
    requires Runs.WorldInv(codec, w) && Holds(codec, w, store) && ReadThrough(w, store, path)
    ensures LateVerdicts.Lags(store[path].results, WholeOneShot(codec, w, path))
  {
    hide GotTo, Runs.MarkIsSound, Runs.Reference, WholeOneShot, Watermark, StreamIdOfPath, Runs.ResultsOf, LateVerdicts.Lags;
    assert HoldsAt(codec, w, path, store[path]);
    assert Runs.PathInv(codec, w, path);
    ReferenceIsWhole(codec, w, path);
  }

  /** What the re-pull finds of the transcripts it and the earlier pulls read to the end. */
  lemma RepullFindsTheSame(codec: Codec, events: seq<Runs.Event>, worlds: seq<World>, stores: seq<SubStore>, visits: seq<SubVisit>)
    requires IsPlaneRun(codec, events, worlds, stores) && LateVerdicts.IgnoresNewline(codec)
    requires IsRepull(worlds[|events|], visits)
    ensures var w, store, after := worlds[|events|], stores[|events|], Repulled(codec, visits);
      var same := Unchanged(w, store, after);
      && LagsBehind(Only(store, same), Only(after, same))
      && forall path | path in same :: path in w.files && after[path].results == WholeOneShot(codec, w, path)
  {
    hide IsPlaneRun, IsRepull, HoldsAt, Repulled, WholeOneShot, LateVerdicts.Lags, Runs.WorldInv, Watermark;
    RunOfPlane(codec, events, worlds, stores);
    var w, store, after := worlds[|events|], stores[|events|], Repulled(codec, visits);
    PlaneHolds(codec, events, worlds, stores, |events|);
    Runs.RunKeepsInv(codec, events, worlds, |events|);
    forall path | path in Unchanged(w, store, after)
      ensures after[path].calls == store[path].calls && after[path].results == WholeOneShot(codec, w, path)
      ensures LateVerdicts.Lags(store[path].results, after[path].results)
    {
      RepulledPath(codec, w, store, visits, path);
    }
  }

  lemma RunOfPlane(codec: Codec, events: seq<Runs.Event>, worlds: seq<World>, stores: seq<SubStore>)
    requires IsPlaneRun(codec, events, worlds, stores)
    ensures Runs.IsRun(codec, events, worlds) && |stores| == |worlds| == |events| + 1
  {
  }

  // ---- the count -----------------------------------------------------------

  /** Listings of the plane before and after, of what changed in either, and of what did not. */
  datatype Listings = Listings(before: Listing, after: Listing, changedBefore: Listing, changedAfter: Listing, same: Listing)

  ghost predicate ListsAll(store: SubStore, after: SubStore, same: set<Path>, ls: Listings)
  {
    && Lists(store, ls.before) && Lists(after, ls.after)
    && Lists(Only(store, store.Keys - same), ls.changedBefore)
    && Lists(Only(after, after.Keys - same), ls.changedAfter)
    && Lists(Only(after, same), ls.same)
  }

  /** The matching payloads of a plane that no saved acknowledgement names. */
  function UnsavedIn(s: Acks.Scanner, saved: seq<Acks.Ack>, store: SubStore, l: Listing): nat
    requires |l.calls| == |l.callIds|
  {
    Acks.Unsaved(s, saved, Acks.Candidates(PlaneOf(store, l)))
  }

  ghost predicate SameLengths(ls: Listings)
  {
    && |ls.before.calls| == |ls.before.callIds| && |ls.after.calls| == |ls.after.callIds|
    && |ls.changedBefore.calls| == |ls.changedBefore.callIds|
    && |ls.changedAfter.calls| == |ls.changedAfter.callIds|
    && |ls.same.calls| == |ls.same.callIds|
  }

  lemma ListedLengths(store: SubStore, after: SubStore, same: set<Path>, ls: Listings)
    requires ListsAll(store, after, same, ls)
    ensures SameLengths(ls)
  {
    hide Enumerates, Only;
  }

  /** The unsaved payloads of the later plane, from those of the earlier one. */
  lemma UnsavedMoves(s: Acks.Scanner, saved: seq<Acks.Ack>, store: SubStore, after: SubStore, same: set<Path>, ls: Listings)
    requires ListsAll(store, after, same, ls) && LagsBehind(Only(store, same), Only(after, same))
    ensures SameLengths(ls)
    ensures UnsavedIn(s, saved, after, ls.after) + UnsavedIn(s, saved, Only(store, store.Keys - same), ls.changedBefore) ==
            UnsavedIn(s, saved, store, ls.before)
            + Acks.Unsaved(s, saved, LateRemedies(Only(store, same), Only(after, same), ls.same))
            + UnsavedIn(s, saved, Only(after, after.Keys - same), ls.changedAfter)
  {
    hide Acks.Unsaved, Acks.Candidates, PlaneOf, LateRemedies, LagsBehind, Lists, Only;
    ListedLengths(store, after, same, ls);
    ListsBoth(Only(store, same), Only(after, same), ls.same);
    ScanSplits(s, saved, store, ls.before, same, ls.same, store.Keys - same, ls.changedBefore);
    ScanSplits(s, saved, after, ls.after, same, ls.same, after.Keys - same, ls.changedAfter);
    LateRemediesAddUp(s, saved, Only(store, same), Only(after, same), ls.same);
  }

  /**
   The exact count after rebuild, re-pull and restore, under any new row ids and after any
   history: what the scan found before, less the saved payloads it had missed and the transcripts
   that changed, plus the remedies the unchanged ones still lacked, what the changed ones hold
   now, and the saved payloads the restore misses.
   */
  lemma RebuildCount(s: Acks.Scanner, codec: Codec, events: seq<Runs.Event>, worlds: seq<World>, stores: seq<SubStore>,
                     visits: seq<SubVisit>, ls: Listings, acks: map<Acks.CallId, Acks.Ack>, saved: seq<Acks.Ack>)
    requires IsPlaneRun(codec, events, worlds, stores) && LateVerdicts.IgnoresNewline(codec)
    requires IsRepull(worlds[|events|], visits)
    requires var store, after := stores[|events|], Repulled(codec, visits);
      ListsAll(store, after, Unchanged(worlds[|events|], store, after), ls)
    requires forall ack :: ack in saved <==> ack in acks.Values
    ensures SameLengths(ls)
    ensures var store, after := stores[|events|], Repulled(codec, visits);
      var same := Unchanged(worlds[|events|], store, after);
      var before, now := PlaneOf(store, ls.before), PlaneOf(after, ls.after);
      var restored := Acks.AttachAll(s, now, map[], saved);
      Acks.Hits(s, restored, Acks.Candidates(now))
      + Acks.Missed(s, acks, saved, Acks.Candidates(before))
      + UnsavedIn(s, saved, Only(store, store.Keys - same), ls.changedBefore) ==
        Acks.Hits(s, acks, Acks.Candidates(before))
        + Acks.Unsaved(s, saved, LateRemedies(Only(store, same), Only(after, same), ls.same))
        + UnsavedIn(s, saved, Only(after, after.Keys - same), ls.changedAfter)
        + Acks.Missed(s, restored, saved, Acks.Candidates(now))
  {
    hide IsPlaneRun, IsRepull, Repulled, Unchanged, Only, Acks.Candidates, Acks.AttachAll, Acks.Hits, Acks.Missed,
      Acks.Unsaved, PlaneOf, LateRemedies, LagsBehind, ListsAll;
    RunOfPlane(codec, events, worlds, stores);
    RepullFindsTheSame(codec, events, worlds, stores, visits);
    var store, after := stores[|events|], Repulled(codec, visits);
    var same := Unchanged(worlds[|events|], store, after);
    UnsavedMoves(s, saved, store, after, same, ls);
    var restored := Acks.AttachAll(s, PlaneOf(after, ls.after), map[], saved);
    forall id | id in restored ensures restored[id] in saved {
      Acks.RestoredAreSaved(s, PlaneOf(after, ls.after), saved, id);
    }
    Acks.HitsAreUnsavedAndMissed(s, restored, saved, Acks.Candidates(PlaneOf(after, ls.after)));
    Acks.HitsAreUnsavedAndMissed(s, acks, saved, Acks.Candidates(PlaneOf(store, ls.before)));
  }

  // ---- a rebuild that re-reads everything ----------------------------------

  /** Every transcript with an identity is on record and read up to its last complete line. */
  ghost predicate AllRead(w: World, store: SubStore)
  {
    forall path | path in w.files && StreamIdOfPath(w.files[path]).Some? :: ReadThrough(w, store, path)
  }

  /** Each file is visited, and no accident befalls the run. */
  ghost predicate IsWhole(w: World, visits: seq<SubVisit>)
  {
    && IsRepull(w, visits)
    && (forall i | 0 <= i < |visits| :: visits[i].crash == NoCrash)
    && (forall path | path in w.files :: exists i :: 0 <= i < |visits| && visits[i].path == path)
  }

  lemma {:induction false} StayAlike(p: SubProgress, q: SubProgress, a: seq<Step>, b: seq<Step>)
    requires Alike(p, q) && SameSteps(a, b)
    ensures Alike(DoUntil(p, a, None), DoUntil(q, b, None))
    decreases |a|
  {
    hide Do, Alike;
    OkOfAlike(p, q);
    if a != [] && p.ok {
      assert SameStep(a[0], b[0]);
      OneStepAlike(p, q, a[0], b[0]);
      StayAlike(Do(p, a[0]), Do(q, b[0]), a[1..], b[1..]);
    }
  }

  lemma OkOfAlike(p: SubProgress, q: SubProgress)
    requires Alike(p, q)
    ensures p.ok == q.ok
  {
  }

  /** A transcript that was read to its end once is read to its end again, from nothing. */
  lemma ReadThroughAgain(codec: Codec, w: World, store: SubStore, path: Path)
    requires Holds(codec, w, store) && ReadThrough(w, store, path)
    ensures var outcome := PullSubFile(codec, None, VisitOf(w, path, w.verdicts, NoCrash));
      outcome.Read? && outcome.tables.byteOffset == Watermark(w.files[path], 0)
  {
    hide DoUntil, StepsOfLines, LinesFrom, Watermark, StreamIdOfPath, GotTo, Runs.ResultsOf;
    var file := w.files[path];
    assert HoldsAt(codec, w, path, store[path]);
    HeldStands(codec, w, store, path);
    var p := SubProgress(true, Renamed(None, store[path].streamId), SessionPull.NO_COUNTS);
    var all := AllSteps(codec, file);
    assert all[..|all|] == all;
    StepsIgnoreVerdicts(codec, LinesFrom(file, 0), w.verdicts);
    StayAlike(NOTHING_YET, p, all, StepsOfLines(codec, LinesFrom(file, 0), w.verdicts));
    MarkStays(p, StepsOfLines(codec, LinesFrom(file, 0), w.verdicts), None);
    if |file| == 0 {
      NoMoreLines(file);
    }
  }

  /** Then the whole re-pull gets through, and reads everything again. */
  lemma {:induction false} WholeRepull(codec: Codec, w: World, store: SubStore, visits: seq<SubVisit>, n: nat)
    requires Holds(codec, w, store) && AllRead(w, store) && IsWhole(w, visits) && n <= |visits|
    ensures var run := RunOf(codec, map[], visits[..n]);
      && run.going
      && (forall i | 0 <= i < n && StreamIdOfPath(w.files[visits[i].path]).Some? :: ReadThrough(w, run.working, visits[i].path))
      && (forall path | path in run.working :: ReadThrough(w, store, path))
  {
    hide PullSubFile, HoldsAt, StreamIdOfPath, Watermark;
    if n > 0 {
      WholeRepull(codec, w, store, visits, n - 1);
      OneMoreVisit(codec, map[], visits, n);
      UnvisitedAreAsBefore(codec, map[], visits, n - 1);
      var run, visit := RunOf(codec, map[], visits[..n - 1]), visits[n - 1];
      assert visit == VisitOf(w, visit.path, w.verdicts, NoCrash);
      assert Held(run.working, visit.path) == None;
      if StreamIdOfPath(w.files[visit.path]).Some? {
        ReadThroughAgain(codec, w, store, visit.path);
      } else {
        NotReadYet(codec, None, visit);
      }
    }
  }

  lemma NotReadYet(codec: Codec, before: Option<SubTables>, visit: SubVisit)
    requires visit.disk.Some? && visit.crash == NoCrash && StreamIdOfPath(visit.disk.value) == None
    ensures PullSubFile(codec, before, visit).Unread?
  {
  }

  lemma OnRecordHasIdentity(codec: Codec, w: World, store: SubStore)
    requires Holds(codec, w, store)
    ensures forall path | path in store :: path in w.files && StreamIdOfPath(w.files[path]).Some?
  {
    hide GotTo, StreamIdOfPath, Watermark;
    forall path | path in store ensures path in w.files && StreamIdOfPath(w.files[path]).Some? {
      assert HoldsAt(codec, w, path, store[path]);
    }
  }

  lemma EverythingUnchanged(codec: Codec, w: World, store: SubStore, visits: seq<SubVisit>)
    requires Holds(codec, w, store) && AllRead(w, store) && IsWhole(w, visits)
    ensures RunOf(codec, map[], visits).going
    ensures var after := Repulled(codec, visits);
      Unchanged(w, store, after) == store.Keys == after.Keys
  {
    hide HoldsAt, VisitSubFiles, StreamIdOfPath, Watermark;
    WholeRepull(codec, w, store, visits, |visits|);
    assert visits[..|visits|] == visits;
    OnRecordHasIdentity(codec, w, store);
    var after := Repulled(codec, visits);
    forall path | path in store ensures ReadThrough(w, store, path) && ReadThrough(w, after, path) {
      var i :| 0 <= i < |visits| && visits[i].path == path;
    }
  }

  lemma {:induction false} NoWeight<K>(weight: K -> nat, keys: seq<K>)
    requires forall k | k in keys :: weight(k) == 0
    ensures Tally(weight, keys) == 0
  {
    if keys != [] {
      NoWeight(weight, keys[..|keys| - 1]);
    }
  }

  lemma NoLateRemedies(s: Acks.Scanner, saved: seq<Acks.Ack>, before: SubStore, after: SubStore, l: Listing)
    requires LagsBehind(before, after) && Lists(after, l)
    requires forall path | path in before :: before[path].results == after[path].results
    ensures |l.calls| == |l.callIds|
    ensures Acks.Unsaved(s, saved, LateRemedies(before, after, l)) == 0
  {
    hide Acks.Unsaved, Acks.DenyRows, PlaneResults, PlaneCalls, Lists, Tally;
    RemediesCount(s, saved, after, l, LateTexts(before, after), |l.results|);
    NoWeight(ResultWeights(s, saved, after, LateTexts(before, after), l.calls), l.results[..|l.results|]);
  }

  /** One listing of everything and, for the changed transcripts, of nothing. */
  function WholeListings(a: Listing, b: Listing): Listings
  {
    var none := Listing(map[], [], [], []);
    Listings(a, b, none, none, b)
  }

  lemma WholeListingsList(store: SubStore, after: SubStore, a: Listing, b: Listing)
    requires Lists(store, a) && Lists(after, b) && store.Keys == after.Keys
    ensures ListsAll(store, after, store.Keys, WholeListings(a, b))
    ensures Only(store, store.Keys) == store && Only(after, store.Keys) == after
    ensures Only(store, store.Keys - store.Keys) == map[] && Only(after, after.Keys - store.Keys) == map[]
  {
    assert CallKeys(map[]) == {} && ResultKeys(map[]) == {};
    assert Only(store, store.Keys) == store && Only(after, store.Keys) == after;
    assert Only(store, store.Keys - store.Keys) == map[] && Only(after, after.Keys - store.Keys) == map[];
  }

  lemma NothingUnsaved(s: Acks.Scanner, saved: seq<Acks.Ack>)
    ensures UnsavedIn(s, saved, map[], Listing(map[], [], [], [])) == 0
  {
  }

  /**
   If every transcript had been read to its end, the plane's last event was a reconciliation that
   could read every transcript, and no call carries two differently hashed saved payloads, then the
   re-pull gets through and the count after the rebuild is that of the payloads no acknowledgement
   named, and so never more than before.
   */
  lemma RebuildNeverRaisesTheCount(s: Acks.Scanner, codec: Codec, events: seq<Runs.Event>, worlds: seq<World>,
                                   stores: seq<SubStore>, visits: seq<SubVisit>, a: Listing, b: Listing,
                                   acks: map<Acks.CallId, Acks.Ack>, saved: seq<Acks.Ack>)
    requires IsPlaneRun(codec, events, worlds, stores) && LateVerdicts.IgnoresNewline(codec)
    requires AllRead(worlds[|events|], stores[|events|]) && IsWhole(worlds[|events|], visits)
    requires Lists(stores[|events|], a) && Lists(Repulled(codec, visits), b)
    requires forall ack :: ack in saved <==> ack in acks.Values
    requires events != [] && events[|events| - 1] == Runs.Reconcile(worlds[|events| - 1].files.Keys)
    requires |b.calls| == |b.callIds| && forall id :: Acks.OneSavedPayload(s, PlaneOf(Repulled(codec, visits), b), saved, id)
    ensures |a.calls| == |a.callIds| && RunOf(codec, map[], visits).going
    ensures var before, after := PlaneOf(stores[|events|], a), PlaneOf(Repulled(codec, visits), b);
      var now := Acks.Hits(s, Acks.AttachAll(s, after, map[], saved), Acks.Candidates(after));
      now == Acks.Unsaved(s, saved, Acks.Candidates(before)) <= Acks.Hits(s, acks, Acks.Candidates(before))
  {
    hide IsPlaneRun, AllRead, Holds, Repulled, VisitSubFiles, Unchanged, Only, Acks.Candidates, Acks.AttachAll, Acks.Hits,
      Acks.Missed, Acks.Unsaved, PlaneOf, LateRemedies, LagsBehind, Lists, ListsAll, Acks.OneSavedPayload;
    RunOfPlane(codec, events, worlds, stores);
    var store, after := stores[|events|], Repulled(codec, visits);
    PlaneHolds(codec, events, worlds, stores, |events|);
    EverythingUnchanged(codec, worlds[|events|], store, visits);
    var ls := WholeListings(a, b);
    WholeListingsList(store, after, a, b);
    RebuildCount(s, codec, events, worlds, stores, visits, ls, acks, saved);
    RepullFindsTheSame(codec, events, worlds, stores, visits);
    ReconciledIsOneShot(codec, events, worlds, stores);
    forall path | path in store ensures store[path].results == after[path].results {
    }
    NoLateRemedies(s, saved, store, after, b);
    NothingUnsaved(s, saved);
    Acks.NothingMissed(s, PlaneOf(after, b), saved);
    Acks.HitsAreUnsavedAndMissed(s, acks, saved, Acks.Candidates(PlaneOf(store, a)));
  }

  /** After such a reconciliation every stored result has the remedy one pull with every verdict gives. */
  lemma ReconciledIsOneShot(codec: Codec, events: seq<Runs.Event>, worlds: seq<World>, stores: seq<SubStore>)
    requires IsPlaneRun(codec, events, worlds, stores) && LateVerdicts.IgnoresNewline(codec)
    requires |worlds| == |stores| == |events| + 1 && events != []
    requires events[|events| - 1] == Runs.Reconcile(worlds[|events| - 1].files.Keys)
    requires AllRead(worlds[|events|], stores[|events|])
    ensures var w, store := worlds[|events|], stores[|events|];
      forall path | path in store ::
        path in w.files && store[path].results == WholeOneShot(codec, w, path)
  {
    hide HoldsAt, PlaneStep, Watermark, StreamIdOfPath, WholeOneShot, Runs.PathInv, Runs.ResultsOf;
    var n := |events| - 1;
    var w, store := worlds[n], stores[n];
    PlaneHolds(codec, events, worlds, stores, n + 1);
    Runs.RunKeepsInv(codec, events, worlds, n);
    var after, stored := worlds[n + 1], stores[n + 1];
    OnRecordHasIdentity(codec, after, stored);
    forall path | path in stored
      ensures path in after.files && stored[path].results == WholeOneShot(codec, after, path)
    {
      ReconcileLeaves(codec, w, after);
      CaughtUpIsOneShot(codec, w, after, path, stored[path]);
    }
  }

  lemma HeldResults(codec: Codec, w: World, path: Path, t: SubTables)
    requires HoldsAt(codec, w, path, t)
    ensures t.results == Runs.ResultsOf(w.results, path) && t.byteOffset == Runs.MarkOf(w, path)
  {
  }

  lemma SameWhole(codec: Codec, w: World, after: World, path: Path)
    requires path in w.files && after == w.(results := after.results)
    ensures WholeOneShot(codec, after, path) == WholeOneShot(codec, w, path) && Runs.MarkOf(after, path) == Runs.MarkOf(w, path)
  {
  }

  lemma ReconcileLeaves(codec: Codec, w: World, after: World)
    requires after == Runs.Apply(codec, w, Runs.Reconcile(w.files.Keys))
    ensures after == w.(results := after.results) && after.results == Runs.ReconciledTable(codec, w, w.files.Keys)
  {
    hide Runs.ReconciledTable;
  }

  lemma CatchesUpWhole(codec: Codec, w: World, path: Path)
    requires Runs.WorldInv(codec, w) && LateVerdicts.IgnoresNewline(codec)
    requires path in w.files && Runs.MarkOf(w, path) == Watermark(w.files[path], 0)
    ensures Runs.ResultsOf(Runs.ReconciledTable(codec, w, w.files.Keys), path) == WholeOneShot(codec, w, path)
  {
    hide Runs.MarkIsSound, Runs.Reference, Runs.ResultsOf, Runs.ReconciledTable, Watermark, WholeOneShot, LateVerdicts.Lags;
    assert Runs.PathInv(codec, w, path);
    ReferenceIsWhole(codec, w, path);
    Runs.PathCatchesUp(codec, w, path);
  }

  lemma CaughtUpIsOneShot(codec: Codec, w: World, after: World, path: Path, t: SubTables)
    requires Runs.WorldInv(codec, w) && LateVerdicts.IgnoresNewline(codec)
    requires after == w.(results := Runs.ReconciledTable(codec, w, w.files.Keys))
    requires HoldsAt(codec, after, path, t) && path in w.files && t.byteOffset == Watermark(w.files[path], 0)
    ensures t.results == WholeOneShot(codec, after, path)
  {
    hide HoldsAt, Watermark, WholeOneShot, Runs.ResultsOf, Runs.MarkOf, Runs.ReconciledTable, Runs.WorldInv,
      LateVerdicts.IgnoresNewline;
    HeldResults(codec, after, path, t);
    SameWhole(codec, w, after, path);
    CatchesUpWhole(codec, w, path);
  }
}
