/**
 Whole histories of the session pull: what every run keeps, whatever crashes
 and wherever, while the transcripts only grow.
 */
module SessionRuns {
  import opened Sequences
  import opened Wrappers
  import opened Transcript
  import opened TranscriptStore
  import opened SessionPull

  // ---- one transcript ------------------------------------------------------

  /**
   The rows are exactly those of the lines below the watermark, which sits at a
   line boundary of a file that still has the identity on record.
   */
  ghost predicate FileInv(codec: Codec, file: Bytes, t: FileTables)
  {
    && t.byteOffset <= |file|
    && StreamIdOfPath(file) == Some(t.streamId)
    && var done := file[..t.byteOffset];
    && var rows := RowsOfLines(codec, LinesFrom(done, 0), {});
    && Watermark(done, 0) == t.byteOffset
    && !RowsUnstorable(rows)
    && t.texts == AdmitAll(map[], rows.texts)
    && t.calls == AdmitAll(map[], rows.calls)
    && t.blocks == AdmitAll(map[], rows.blocks)
    && t.callsIngested == |t.calls|
  }

  lemma GrewToPrefix(file: Bytes, longer: Bytes, n: nat)
    requires GrewTo(file, longer) && n <= |file|
    ensures longer[..n] == file[..n]
  {
  }

  /** Appending to a transcript disturbs nothing already stored. */
  lemma AppendKeepsInv(codec: Codec, file: Bytes, longer: Bytes, t: FileTables)
    requires FileInv(codec, file, t) && GrewTo(file, longer)
    ensures FileInv(codec, longer, t)
  {
    IdentityIsStable(file, longer);
    GrewToPrefix(file, longer, t.byteOffset);
  }

  /** The loop stores the lines' rows in file order, unless a line or one of its rows raises. */
  lemma {:induction false} PullStoresRows(codec: Codec, t0: FileTables, lines: seq<Line>, denyIds: set<string>)
    ensures var progress := PullLines(codec, t0, lines, denyIds);
      && (progress.Failed? <==>
          AnyUncaught(codec, lines, denyIds) || RowsRaise(t0, RowsOfLines(codec, lines, denyIds)))
      && (progress.Going? ==> progress.tables == StoreRows(t0, RowsOfLines(codec, lines, denyIds)))
  {
    hide ReadLine, AdmitAll, KeepFirst, Raises, Counted;
    if lines == [] {
      StoreNothing(t0);
    } else {
      var last := |lines| - 1;
      var init := lines[..last];
      var before, own := RowsOfLines(codec, init, denyIds), RowsOfLine(codec, lines[last], denyIds);
      StoreRowsAppend(t0, before, own);
      PullStoresRows(codec, t0, init, denyIds);
      AnyUncaughtLast(codec, lines, denyIds);
      if PullLines(codec, t0, init, denyIds).Going? {
        StoreNothing(StoreRows(t0, before));
      }
    }
  }

  /** The counters count rows: each table grew by what was reported inserted. */
  lemma {:induction false} CountersCountRows(codec: Codec, t0: FileTables, lines: seq<Line>, denyIds: set<string>)
    ensures var progress := PullLines(codec, t0, lines, denyIds);
      progress.Going? ==>
        && |progress.tables.calls| == |t0.calls| + progress.counts.calls
        && |progress.tables.texts| == |t0.texts| + progress.counts.texts
        && |progress.tables.results| == |t0.results| + progress.counts.results
        && progress.tables.callsIngested == t0.callsIngested
  {
    hide ReadLine, AdmitAll, AdmittedCount, KeepFirst, RowsRaise;
    if lines != [] {
      var last := |lines| - 1;
      CountersCountRows(codec, t0, lines[..last], denyIds);
      var before := PullLines(codec, t0, lines[..last], denyIds);
      var reading := ReadLine(codec, lines[last], denyIds);
      if before.Going? && reading.Good? {
        AdmittedCountIsGrowth(before.tables.calls, reading.rows.calls);
        AdmittedCountIsGrowth(before.tables.texts, reading.rows.texts);
        KeepFirstGrows(before.tables.results, reading.rows.results);
      }
    }
  }

  lemma {:induction false} AdmittedCountIsGrowth<R>(table: Table<R>, rows: seq<Candidate<R>>)
    ensures |AdmitAll(table, rows)| == |table| + AdmittedCount(table, rows)
  {
    if rows != [] {
      AdmittedCountIsGrowth(table, rows[..|rows| - 1]);
    }
  }

  lemma {:induction false} KeepFirstGrows(results: map<Json, ResultRow>, rows: seq<ResultRow>)
    ensures |KeepFirst(results, rows)| >= |results|
  {
    if rows != [] {
      KeepFirstGrows(results, rows[..|rows| - 1]);
    }
  }

  lemma AnyUncaughtLast(codec: Codec, lines: seq<Line>, denyIds: set<string>)
    requires lines != []
    ensures var last := |lines| - 1;
      AnyUncaught(codec, lines, denyIds) <==>
      AnyUncaught(codec, lines[..last], denyIds) || ReadLine(codec, lines[last], denyIds).Uncaught?
  {
  }

  lemma StoreNothing(t: FileTables)
    ensures StoreRows(t, NO_ROWS) == t && !RowsRaise(t, NO_ROWS)
  {
  }

  /** Verdicts decide remedies only: calls, texts and blocks of a line do not depend on them. */
  lemma {:induction false} RowsIgnoreVerdicts(codec: Codec, lines: seq<Line>, denyIds: set<string>)
    ensures var a, b := RowsOfLines(codec, lines, {}), RowsOfLines(codec, lines, denyIds);
      && a.texts == b.texts && a.calls == b.calls && a.blocks == b.blocks
      && (ResultsRaise(a.results) <==> ResultsRaise(b.results))
  {
    hide RowsOfLine, ResultsRaise;
    if lines != [] {
      var last := |lines| - 1;
      RowsIgnoreVerdicts(codec, lines[..last], denyIds);
      LineIgnoresVerdicts(codec, lines[last], denyIds);
      ResultsRaiseAppend(RowsOfLines(codec, lines[..last], {}).results, RowsOfLine(codec, lines[last], {}).results);
      ResultsRaiseAppend(RowsOfLines(codec, lines[..last], denyIds).results, RowsOfLine(codec, lines[last], denyIds).results);
    }
  }

  lemma LineIgnoresVerdicts(codec: Codec, line: Line, denyIds: set<string>)
    ensures var a, b := RowsOfLine(codec, line, {}), RowsOfLine(codec, line, denyIds);
      && a.texts == b.texts && a.calls == b.calls && a.blocks == b.blocks
      && (ResultsRaise(a.results) <==> ResultsRaise(b.results))
  {
    hide MapBlocks;
    var loaded := codec.loads(line.text);
    if loaded.Some? && loaded.value.Object? {
      var message := Get(loaded.value.fields, "message");
      if message.Object? {
        var content := Get(message.fields, "content");
        if content.Array? {
          VerdictsOnlyAddRemedies(codec, loaded.value.fields, line.offset, content.items, {}, denyIds);
        }
      }
    }
  }

  lemma GrewToTransitive(a: Bytes, b: Bytes, c: Bytes)
    requires GrewTo(a, b) && GrewTo(b, c)
    ensures GrewTo(a, c)
  {
  }

  /** Reading on from a boundary: the lines below the new watermark are the old ones and the new ones. */
  lemma LinesBelowNewMark(file: Bytes, mark: nat)
    requires mark <= |file| && Watermark(file[..mark], 0) == mark
    ensures var mark' := Watermark(file, mark);
      && LinesFrom(file[..mark'], 0) == LinesFrom(file[..mark], 0) + LinesFrom(file, mark)
      && Watermark(file[..mark'], 0) == mark'
  {
    hide LinesFrom;
    LinesOfGrown(file[..mark], file, 0);
    CutAtWatermark(file, 0);
  }

  /** Some row of the file's complete lines can be neither skipped as a repeat nor inserted. */
  ghost predicate RowFails(codec: Codec, file: Bytes)
  {
    RowsUnstorable(RowsOfLines(codec, LinesFrom(file, 0), {}))
  }

  /** The rows past a watermark come after the stored ones, so none raises but one that fails by itself. */
  lemma NewRowsRaiseIff(codec: Codec, file: Bytes, mark: nat, t: FileTables, denyIds: set<string>)
    requires mark <= |file| && Watermark(file[..mark], 0) == mark
    requires var rows := RowsOfLines(codec, LinesFrom(file[..mark], 0), {});
      && t.texts == AdmitAll(map[], rows.texts)
      && t.calls == AdmitAll(map[], rows.calls)
      && t.blocks == AdmitAll(map[], rows.blocks)
      && !RowsUnstorable(rows)
    ensures var more := RowsOfLines(codec, LinesFrom(file, mark), denyIds);
      var all := RowsOfLines(codec, LinesFrom(file[..Watermark(file, mark)], 0), {});
      && (RowsRaise(t, more) <==> RowsUnstorable(all))
      && (RowsUnstorable(all) <==> RowFails(codec, file))
      && AdmitAll(t.texts, more.texts) == AdmitAll(map[], all.texts)
      && AdmitAll(t.calls, more.calls) == AdmitAll(map[], all.calls)
      && AdmitAll(t.blocks, more.blocks) == AdmitAll(map[], all.blocks)
  {
    hide LinesFrom, RowsOfLines, AdmitAll, Raises, Watermark, AnyUnstorable;
    var mark' := Watermark(file, mark);
    var old_, new_ := LinesFrom(file[..mark], 0), LinesFrom(file, mark);
    LinesBelowNewMark(file, mark);
    RowsOfLinesAppend(codec, old_, new_, {});
    RowsIgnoreVerdicts(codec, new_, denyIds);
    LinesAreOrdered(file[..mark'], 0);
    RowsAreInOrder(codec, old_ + new_, {}, 0, mark');
    var all := RowsOfLines(codec, old_ + new_, {});
    var rows, more := RowsOfLines(codec, old_, {}), RowsOfLines(codec, new_, {});
    LinesOfGrown(file[..mark], file, 0);
    ResultsRaiseAppend(rows.results, more.results);
    AdmitsInTwoParts(rows.texts, more.texts, mark');
    AdmitsInTwoParts(rows.calls, more.calls, mark');
    AdmitsInTwoParts(rows.blocks, more.blocks, mark');
  }

  lemma AdmitsInTwoParts<R>(a: seq<Candidate<R>>, b: seq<Candidate<R>>, mark: nat)
    requires InOrder(a + b, 0, mark) && !AnyUnstorable(a)
    ensures AdmitAll(AdmitAll(map[], a), b) == AdmitAll(map[], a + b)
    ensures Raises(AdmitAll(map[], a), b) <==> AnyUnstorable(a + b)
  {
    hide AdmitAll, Raises, AnyUnstorable, HoldsFirstOccurrences;
    AdmitAllAppend(map[], a, b);
    AdmitsFirstOccurrences(a + b, 0, mark);
    InOrderPrefix(a, b, mark);
    AdmitsFirstOccurrences(a, 0, mark);
  }

  lemma InOrderPrefix<R>(a: seq<Candidate<R>>, b: seq<Candidate<R>>, mark: nat)
    requires InOrder(a + b, 0, mark)
    ensures InOrder(a, 0, mark)
  {
    assert forall i | 0 <= i < |a| :: (a + b)[i] == a[i];
  }

  predicate GrowingVisit(file: Bytes, disk: Snapshot)
  {
    GrewTo(file, disk.atHead) && GrewTo(disk.atHead, disk.atStat) && GrewTo(disk.atStat, disk.atRead)
  }

  /** The watermark and identity an earlier pull left, or a start from nothing. */
  ghost predicate HistoryInv(codec: Codec, file: Bytes, before: Option<FileTables>)
  {
    before.Some? ==> FileInv(codec, file, before.value)
  }

  lemma StartIsSound(codec: Codec, file: Bytes, before: Option<FileTables>, disk: Snapshot)
    requires HistoryInv(codec, file, before) && GrowingVisit(file, disk)
    requires StreamIdOfPath(disk.atHead).Some?
    ensures var streamId := StreamIdOfPath(disk.atHead).value;
      var t0, start := Upserted(before, streamId), ResumeOffset(before, streamId);
      && StreamIdOfPath(disk.atRead) == Some(streamId)
      && start == t0.byteOffset
      && (before.Some? ==> t0 == before.value)
      && start <= |disk.atHead|
      && FileInv(codec, disk.atRead, t0)
  {
    IdentityIsStable(disk.atHead, disk.atStat);
    IdentityIsStable(disk.atStat, disk.atRead);
    if before.Some? {
      IdentityIsStable(file, disk.atHead);
      GrewToTransitive(file, disk.atHead, disk.atStat);
      GrewToTransitive(file, disk.atStat, disk.atRead);
      AppendKeepsInv(codec, file, disk.atRead, before.value);
    } else {
      NothingRead(codec, disk.atRead);
    }
  }

  lemma NothingRead(codec: Codec, file: Bytes)
    requires StreamIdOfPath(file).Some?
    ensures FileInv(codec, file, EMPTY_TABLES.(streamId := StreamIdOfPath(file).value))
  {
  }

  /**
   A pull keeps the invariant. It fails exactly where a crash is injected, a new line raises by
   itself or a new row cannot be stored: never on the replay alarm and never on a key collision.
   */
  lemma PullKeepsInv(codec: Codec, file: Bytes, before: Option<FileTables>, visit: Visit, denyIds: set<string>)
    requires visit.disk.Some? && StreamIdOfPath(visit.disk.value.atHead).Some?
    requires HistoryInv(codec, file, before) && GrowingVisit(file, visit.disk.value)
    ensures var disk := visit.disk.value;
      var lines := VisitLines(before, disk, StreamIdOfPath(disk.atHead).value);
      var outcome := PullFile(codec, before, visit, denyIds);
      && !outcome.Skipped?
      && (outcome.Pulled? ==>
            && FileInv(codec, disk.atRead, outcome.tables)
            && outcome.tables.results ==
               KeepFirst((if before.Some? then before.value.results else map[]), RowsOfLines(codec, lines, denyIds).results))
      && (outcome.Crashed? <==>
          || (visit.crashAt.Some? && visit.crashAt.value <= |lines|)
          || AnyUncaught(codec, lines, denyIds)
          || (lines != [] && RowFails(codec, disk.atRead)))
  {
    hide PullLines, LinesFrom, AdmitAll, Watermark, StreamIdOfPath, KeepFirst, RowsOfLines, RowsUnstorable, AnyUncaught;
    var disk := visit.disk.value;
    var streamId := StreamIdOfPath(disk.atHead).value;
    var t0 := Upserted(before, streamId);
    StartIsSound(codec, file, before, disk);
    if |disk.atStat| > t0.byteOffset {
      NewRowsRaiseIff(codec, disk.atRead, t0.byteOffset, t0, denyIds);
      PullStoresRows(codec, t0, LinesFrom(disk.atRead, t0.byteOffset), denyIds);
      LinesBelowNewMark(disk.atRead, t0.byteOffset);
      CountersCountRows(codec, t0, LinesFrom(disk.atRead, t0.byteOffset), denyIds);
    }
    NoLinesNoRows(codec, t0, denyIds);
  }

  lemma NoLinesNoRows(codec: Codec, t: FileTables, denyIds: set<string>)
    ensures RowsOfLines(codec, [], denyIds) == NO_ROWS && !RowsRaise(t, NO_ROWS)
    ensures KeepFirst(t.results, NO_ROWS.results) == t.results
    ensures !AnyUncaught(codec, [], denyIds)
  {
  }

  /**
   Declaratively: each table holds the first occurrence of every (record, position),
   and every row of a record without a uuid, among the lines below the watermark.
   */
  lemma StoredAreFirstOccurrences(codec: Codec, file: Bytes, t: FileTables)
    requires FileInv(codec, file, t)
    ensures var below := LinesFrom(file[..t.byteOffset], 0);
      var rows := RowsOfLines(codec, below, {});
      && (forall line | line in LinesFrom(file, 0) :: line in below <==> line.offset < t.byteOffset)
      && HoldsFirstOccurrences(t.texts, rows.texts)
      && HoldsFirstOccurrences(t.calls, rows.calls)
      && HoldsFirstOccurrences(t.blocks, rows.blocks)
  {
    hide LinesFrom, RowsOfLines, AdmitAll, Raises, Watermark, HoldsFirstOccurrences, AnyUnstorable;
    var mark := t.byteOffset;
    var done := file[..mark];
    var rows := RowsOfLines(codec, LinesFrom(done, 0), {});
    LinesAreOrdered(done, 0);
    RowsAreInOrder(codec, LinesFrom(done, 0), {}, 0, mark);
    AdmitsFirstOccurrences(rows.texts, 0, mark);
    AdmitsFirstOccurrences(rows.calls, 0, mark);
    AdmitsFirstOccurrences(rows.blocks, 0, mark);
    LinesOfGrown(done, file, 0);
    LinesAreOrdered(file, mark);
    var more := LinesFrom(file, mark);
    forall line | line in LinesFrom(file, 0) ensures line in LinesFrom(done, 0) <==> line.offset < mark {
      assert line in LinesFrom(done, 0) || line in more;
    }
  }

  /** A line past the watermark raises beyond the guard, or one of its rows cannot be stored. */
  ghost predicate Stopped(codec: Codec, file: Bytes, start: nat, denyIds: set<string>)
  {
    || (exists line :: line in NewLines(file, start) && ReadLine(codec, line, denyIds).Uncaught?)
    || RowFails(codec, file)
  }

  lemma RowFailsForGood(codec: Codec, file: Bytes, longer: Bytes)
    requires RowFails(codec, file) && GrewTo(file, longer)
    ensures RowFails(codec, longer)
  {
    hide LinesFrom, RowsOfLines, AnyUnstorable, Watermark;
    LinesOfGrown(file, longer, 0);
    var old_, new_ := LinesFrom(file, 0), LinesFrom(longer, Watermark(file, 0));
    RowsOfLinesAppend(codec, old_, new_, {});
    var a, b := RowsOfLines(codec, old_, {}), RowsOfLines(codec, new_, {});
    ResultsRaiseAppend(a.results, b.results);
    if AnyUnstorable(a.texts) {
      UnstorableStays(a.texts, b.texts);
    } else if AnyUnstorable(a.calls) {
      UnstorableStays(a.calls, b.calls);
    } else if AnyUnstorable(a.blocks) {
      UnstorableStays(a.blocks, b.blocks);
    }
  }

  /** The stored part has no such row, so the lines past its watermark hold it. */
  lemma FailingRowIsNew(codec: Codec, file: Bytes, t: FileTables)
    requires FileInv(codec, file, t) && RowFails(codec, file)
    ensures NewLines(file, t.byteOffset) != []
  {
    hide LinesFrom, RowsOfLines, RowsUnstorable, AdmitAll, Watermark;
    var done := file[..t.byteOffset];
    LinesOfGrown(done, file, 0);
    assert LinesFrom(done, 0) + [] == LinesFrom(done, 0);
  }

  /** A line that raises by itself, or a row that cannot be stored, stops its transcript for good. */
  lemma UncaughtLineIsATrap(codec: Codec, file: Bytes, before: Option<FileTables>, visit: Visit, denyIds: set<string>)
    requires HistoryInv(codec, file, before)
    requires visit.disk.Some? && GrowingVisit(file, visit.disk.value)
    requires StreamIdOfPath(visit.disk.value.atHead).Some?
    requires Stopped(codec, file, if before.Some? then before.value.byteOffset else 0, denyIds)
    ensures PullFile(codec, before, visit, denyIds) == Crashed
  {
    hide PullLines, RowsOfLines, AdmitAll, ReadLine, PullFile, RowFails, LinesFrom, Watermark, StreamIdOfPath;
    var disk := visit.disk.value;
    var start := if before.Some? then before.value.byteOffset else 0;
    StartIsSound(codec, file, before, disk);
    PullKeepsInv(codec, file, before, visit, denyIds);
    GrewToTransitive(file, disk.atHead, disk.atStat);
    GrewToTransitive(file, disk.atStat, disk.atRead);
    LinesOfGrown(file, disk.atRead, start);
    var lines := VisitLines(before, disk, StreamIdOfPath(disk.atHead).value);
    if line :| line in NewLines(file, start) && ReadLine(codec, line, denyIds).Uncaught? {
      LinesAreOrdered(file, start);
      assert line in LinesFrom(disk.atRead, start);
      assert line in lines;
      var i :| 0 <= i < |lines| && lines[i] == line;
    } else {
      RowFailsForGood(codec, file, disk.atRead);
      StartIsAtFile(codec, file, before);
      LinesAreOrdered(file, start);
    }
  }

  lemma StartIsAtFile(codec: Codec, file: Bytes, before: Option<FileTables>)
    requires HistoryInv(codec, file, before) && RowFails(codec, file)
    ensures NewLines(file, if before.Some? then before.value.byteOffset else 0) != []
  {
    hide FileInv;
    if before.Some? {
      FailingRowIsNew(codec, file, before.value);
    } else {
      NoRowsNoFailure(codec);
    }
  }

  lemma NoRowsNoFailure(codec: Codec)
    ensures !RowsUnstorable(RowsOfLines(codec, [], {}))
  {
  }

  // ---- a run over many transcripts -----------------------------------------

  ghost predicate DistinctPaths(visits: seq<Visit>)
  {
    forall i, j | 0 <= i < j < |visits| :: visits[i].path != visits[j].path
  }

  /** What each visit does, given that no other visit of the run touches its transcript. */
  function OutcomeOf(codec: Codec, store: Store, visit: Visit, denyIds: set<string>): Outcome
  {
    PullFile(codec, Lookup(store, visit.path), visit, denyIds)
  }

  /** The visit put in a call, a result or a text. */
  predicate Inserted(outcome: Outcome)
  {
    match outcome
    case Pulled(_, Counts(calls, results, texts, _)) => calls + results + texts > 0
    case _ => false
  }

  /** A commit happened at or after visit `i`, among the first `n`. */
  ghost predicate CommittedSince(codec: Codec, store: Store, visits: seq<Visit>, denyIds: set<string>, i: nat, n: nat)
    requires n <= |visits|
  {
    exists k :: i <= k < n && Inserted(OutcomeOf(codec, store, visits[k], denyIds))
  }

  /** A later crash rolled visit `i` back: nothing committed from it up to the crash. */
  ghost predicate RolledBack(codec: Codec, store: Store, visits: seq<Visit>, denyIds: set<string>, i: nat, n: nat)
    requires n <= |visits|
  {
    exists j ::
      && i < j < n
      && OutcomeOf(codec, store, visits[j], denyIds).Crashed?
      && !CommittedSince(codec, store, visits, denyIds, i, j)
  }

  /** The rows visit `i`'s transcript has after the first `n` visits: in the transaction, and durably. */
  ghost predicate SeenAs(codec: Codec, store: Store, visits: seq<Visit>, denyIds: set<string>, i: nat, n: nat, db: Db)
    requires i < n <= |visits|
  {
    var path, outcome := visits[i].path, OutcomeOf(codec, store, visits[i], denyIds);
    var kept := outcome.Pulled? && !RolledBack(codec, store, visits, denyIds, i, n);
    && Lookup(db.working, path) == (if kept then Some(outcome.tables) else Lookup(store, path))
    && Lookup(db.committed, path) ==
       (if kept && CommittedSince(codec, store, visits, denyIds, i, n) then Some(outcome.tables)
        else Lookup(store, path))
  }

  ghost predicate OthersUntouched(store: Store, visits: seq<Visit>, n: nat, db: Db)
    requires n <= |visits|
  {
    forall path | (forall i | 0 <= i < n :: visits[i].path != path) ::
      Lookup(db.working, path) == Lookup(store, path) && Lookup(db.committed, path) == Lookup(store, path)
  }

  /**
   The exact effect of a run: a transcript ends with its pulled rows, whole, unless a
   crash came after it before the next commit, in which case it ends as it began.
   */
  lemma {:induction false} RunKeepsWholeFiles(codec: Codec, store: Store, visits: seq<Visit>, denyIds: set<string>, n: nat)
    requires n <= |visits| && DistinctPaths(visits)
    ensures var db := VisitFiles(codec, Db(store, store), visits[..n], denyIds);
      && OthersUntouched(store, visits, n, db)
      && forall i | 0 <= i < n :: SeenAs(codec, store, visits, denyIds, i, n, db)
  {
    hide PullFile, SeenAs, OthersUntouched, VisitFile;
    if n == 0 {
      NothingVisited(store, visits);
    } else {
      var last := n - 1;
      RunKeepsWholeFiles(codec, store, visits, denyIds, last);
      assert visits[..n][..last] == visits[..last];
      var db := VisitFiles(codec, Db(store, store), visits[..last], denyIds);
      var after := VisitFile(codec, db, visits[last], denyIds);
      NextVisit(codec, store, visits, denyIds, last, db);
      forall i | 0 <= i < last ensures SeenAs(codec, store, visits, denyIds, i, n, after) {
        EarlierVisit(codec, store, visits, denyIds, i, last, db);
      }
    }
  }

  lemma NothingVisited(store: Store, visits: seq<Visit>)
    ensures OthersUntouched(store, visits, 0, Db(store, store))
  {
  }

  lemma CommittedSinceNext(codec: Codec, store: Store, visits: seq<Visit>, denyIds: set<string>, i: nat, n: nat)
    requires i <= n < |visits|
    ensures CommittedSince(codec, store, visits, denyIds, i, n + 1) <==>
            CommittedSince(codec, store, visits, denyIds, i, n) || Inserted(OutcomeOf(codec, store, visits[n], denyIds))
  {
  }

  lemma RolledBackNext(codec: Codec, store: Store, visits: seq<Visit>, denyIds: set<string>, i: nat, n: nat)
    requires i <= n < |visits|
    ensures RolledBack(codec, store, visits, denyIds, i, n + 1) <==>
            RolledBack(codec, store, visits, denyIds, i, n)
            || (i < n && OutcomeOf(codec, store, visits[n], denyIds).Crashed?
                && !CommittedSince(codec, store, visits, denyIds, i, n))
  {
  }

  /** The visited transcript itself, and those not visited yet. */
  lemma NextVisit(codec: Codec, store: Store, visits: seq<Visit>, denyIds: set<string>, n: nat, db: Db)
    requires n < |visits| && DistinctPaths(visits)
    requires OthersUntouched(store, visits, n, db)
    ensures var after := VisitFile(codec, db, visits[n], denyIds);
      OthersUntouched(store, visits, n + 1, after) && SeenAs(codec, store, visits, denyIds, n, n + 1, after)
  {
    hide PullFile, CommittedSince, RolledBack;
    CommittedSinceNext(codec, store, visits, denyIds, n, n);
    RolledBackNext(codec, store, visits, denyIds, n, n);
    NothingSince(codec, store, visits, denyIds, n);
    assert Lookup(db.working, visits[n].path) == Lookup(store, visits[n].path);
  }

  lemma NothingSince(codec: Codec, store: Store, visits: seq<Visit>, denyIds: set<string>, n: nat)
    requires n < |visits|
    ensures !CommittedSince(codec, store, visits, denyIds, n, n)
    ensures !RolledBack(codec, store, visits, denyIds, n, n)
  {
  }

  /** An earlier visit is undone by this one exactly when this one crashes before any commit. */
  lemma EarlierVisit(codec: Codec, store: Store, visits: seq<Visit>, denyIds: set<string>, i: nat, n: nat, db: Db)
    requires i < n < |visits| && DistinctPaths(visits)
    requires OthersUntouched(store, visits, n, db) && SeenAs(codec, store, visits, denyIds, i, n, db)
    ensures SeenAs(codec, store, visits, denyIds, i, n + 1, VisitFile(codec, db, visits[n], denyIds))
  {
    hide PullFile, CommittedSince, RolledBack;
    CommittedSinceNext(codec, store, visits, denyIds, i, n);
    RolledBackNext(codec, store, visits, denyIds, i, n);
    assert Lookup(db.working, visits[n].path) == Lookup(store, visits[n].path);
  }

  /**
   Only transcripts that inserted a call, a result or a text trigger a commit, so a crash
   can also take an earlier transcript that only moved its watermark or stored block rows.
   */
  lemma CrashCanTakeAnEarlierFile(codec: Codec, store: Store, quiet: Visit, crashing: Visit, denyIds: set<string>)
    requires quiet.path != crashing.path
    requires OutcomeOf(codec, store, quiet, denyIds).Pulled? && !Inserted(OutcomeOf(codec, store, quiet, denyIds))
    requires OutcomeOf(codec, store, crashing, denyIds).Crashed?
    ensures Lookup(RunStore(codec, store, [quiet, crashing], denyIds), quiet.path) == Lookup(store, quiet.path)
  {
    hide PullFile, SeenAs, OutcomeOf;
    var visits := [quiet, crashing];
    RunKeepsWholeFiles(codec, store, visits, denyIds, 2);
    assert visits[..2] == visits;
    var db := VisitFiles(codec, Db(store, store), visits, denyIds);
    assert SeenAs(codec, store, visits, denyIds, 0, 2, db);
    assert !CommittedSince(codec, store, visits, denyIds, 0, 1);
    assert RolledBack(codec, store, visits, denyIds, 0, 2);
    SeenAsRolledBack(codec, store, visits, denyIds, 0, 2, db);
  }

  lemma SeenAsRolledBack(codec: Codec, store: Store, visits: seq<Visit>, denyIds: set<string>, i: nat, n: nat, db: Db)
    requires i < n <= |visits| && SeenAs(codec, store, visits, denyIds, i, n, db)
    requires RolledBack(codec, store, visits, denyIds, i, n)
    ensures Lookup(db.working, visits[i].path) == Lookup(store, visits[i].path)
  {
  }

  // ---- histories -----------------------------------------------------------

  type Files = map<Path, Bytes>

  ghost predicate FilesGrew(files: Files, later: Files)
  {
    forall path | path in files :: path in later && GrewTo(files[path], later[path])
  }

  ghost predicate StoreInv(codec: Codec, files: Files, store: Store)
  {
    forall path | path in store :: path in files && FileInv(codec, files[path], store[path])
  }

  /**
   One run, with the files as they were when it began and when it ended. `killedIn` is the
   visit during which the process died, if it did.
   */
  datatype Tick = Tick(before: Files, visits: seq<Visit>, denyIds: set<string>, after: Files, killedIn: Option<nat>)

  /** What a run leaves durable: everything, or what was committed before it was killed. */
  function Durable(codec: Codec, store: Store, tick: Tick): Store
  {
    match tick.killedIn
    case None => RunStore(codec, store, tick.visits, tick.denyIds)
    case Some(n) =>
      var done := if n <= |tick.visits| then tick.visits[..n] else tick.visits;
      VisitFiles(codec, Db(store, store), done, tick.denyIds).committed
  }

  ghost predicate VisitFits(tick: Tick, visit: Visit)
  {
    visit.disk.Some? ==>
      && GrowingVisit(if visit.path in tick.before then tick.before[visit.path] else [], visit.disk.value)
      && visit.path in tick.after
      && GrewTo(visit.disk.value.atRead, tick.after[visit.path])
  }

  /** Transcripts only grow, each is visited once, and what a visit reads lies between the two. */
  ghost predicate AppendOnly(tick: Tick)
  {
    && FilesGrew(tick.before, tick.after)
    && DistinctPaths(tick.visits)
    && forall i | 0 <= i < |tick.visits| :: VisitFits(tick, tick.visits[i])
  }

  /** At every point of a run, what is committed is sound, and so is what the open transaction holds. */
  lemma EveryPointIsSound(codec: Codec, store: Store, tick: Tick, n: nat)
    requires AppendOnly(tick) && StoreInv(codec, tick.before, store) && n <= |tick.visits|
    ensures var db := VisitFiles(codec, Db(store, store), tick.visits[..n], tick.denyIds);
      StoreInv(codec, tick.after, db.working) && StoreInv(codec, tick.after, db.committed)
  {
    hide PullFile, FileInv, GrewTo, VisitFile;
    var visits := tick.visits;
    var db := VisitFiles(codec, Db(store, store), visits[..n], tick.denyIds);
    RunKeepsWholeFiles(codec, store, visits, tick.denyIds, n);
    forall path, held | held in {Lookup(db.working, path), Lookup(db.committed, path)} && held.Some?
      ensures path in tick.after && FileInv(codec, tick.after[path], held.value)
    {
      if exists i :: 0 <= i < n && visits[i].path == path {
        var i :| 0 <= i < n && visits[i].path == path;
        assert SeenAs(codec, store, visits, tick.denyIds, i, n, db);
        PulledFileIsSound(codec, store, tick, i);
      } else {
        assert held == Lookup(store, path);
      }
      if held == Lookup(store, path) {
        AppendKeepsInv(codec, tick.before[path], tick.after[path], store[path]);
      }
    }
    HeldIsSound(codec, tick.after, db.working);
    HeldIsSound(codec, tick.after, db.committed);
  }

  lemma HeldIsSound(codec: Codec, files: Files, store: Store)
    requires forall path | Lookup(store, path).Some? :: path in files && FileInv(codec, files[path], Lookup(store, path).value)
    ensures StoreInv(codec, files, store)
  {
    hide FileInv;
    forall path | path in store
      ensures path in files && FileInv(codec, files[path], store[path])
    {
      assert Lookup(store, path) == Some(store[path]);
    }
  }

  /** The store's invariant survives every run, whichever files crash and wherever it is killed. */
  lemma RunKeepsInv(codec: Codec, store: Store, tick: Tick)
    requires AppendOnly(tick) && StoreInv(codec, tick.before, store)
    ensures StoreInv(codec, tick.after, Durable(codec, store, tick))
  {
    hide StoreInv, VisitFiles;
    EveryPointIsSound(codec, store, tick, |tick.visits|);
    assert tick.visits[..|tick.visits|] == tick.visits;
    if tick.killedIn.Some? && tick.killedIn.value <= |tick.visits| {
      EveryPointIsSound(codec, store, tick, tick.killedIn.value);
    }
  }

  lemma PulledFileIsSound(codec: Codec, store: Store, tick: Tick, i: nat)
    requires AppendOnly(tick) && StoreInv(codec, tick.before, store)
    requires i < |tick.visits|
    ensures var visit := tick.visits[i];
      var outcome := OutcomeOf(codec, store, visit, tick.denyIds);
      outcome.Pulled? ==> visit.path in tick.after && FileInv(codec, tick.after[visit.path], outcome.tables)
  {
    hide FileInv, PullLines, GrewTo;
    var visit := tick.visits[i];
    if visit.disk.Some? && StreamIdOfPath(visit.disk.value.atHead).Some? {
      var file := if visit.path in tick.before then tick.before[visit.path] else [];
      assert VisitFits(tick, visit);
      PullKeepsInv(codec, file, Lookup(store, visit.path), visit, tick.denyIds);
      var outcome := OutcomeOf(codec, store, visit, tick.denyIds);
      if outcome.Pulled? {
        AppendKeepsInv(codec, visit.disk.value.atRead, tick.after[visit.path], outcome.tables);
      }
    }
  }

  /** The durable stores of a history that began empty, each left by one run, completed or killed, over the one before. */
  predicate AreLeftBy(codec: Codec, history: seq<Tick>, stores: seq<Store>)
  {
    && |stores| == |history| + 1 && stores[0] == map[]
    && forall i | 0 <= i < |history| :: stores[i + 1] == Durable(codec, stores[i], history[i])
  }

  ghost predicate AppendOnlyHistory(history: seq<Tick>)
  {
    && (forall i | 0 <= i < |history| :: AppendOnly(history[i]))
    && (forall i | 0 < i < |history| :: FilesGrew(history[i - 1].after, history[i].before))
  }

  /** Whatever the runs, the crashes, the kills and the appends, the durable store is always sound. */
  lemma {:induction false} HistoryKeepsInv(codec: Codec, history: seq<Tick>, stores: seq<Store>, n: nat)
    requires AppendOnlyHistory(history) && AreLeftBy(codec, history, stores) && 0 < n <= |history|
    ensures StoreInv(codec, history[n - 1].after, stores[n])
  {
    hide Durable, FileInv, GrewTo;
    var tick, store := history[n - 1], stores[n - 1];
    if n > 1 {
      HistoryKeepsInv(codec, history, stores, n - 1);
      var earlier := history[n - 2].after;
      assert FilesGrew(earlier, tick.before);
      forall path | path in store ensures path in tick.before && FileInv(codec, tick.before[path], store[path]) {
        AppendKeepsInv(codec, earlier[path], tick.before[path], store[path]);
      }
    }
    RunKeepsInv(codec, store, tick);
  }
}
