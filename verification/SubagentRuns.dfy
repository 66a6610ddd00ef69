/**
 Whole runs of the subagent pull: which transcripts a crash, a kill or a trapped
 file can spoil, and which it starves.
 */
module SubagentRuns {
  import opened Sequences
  import opened Wrappers
  import opened Transcript
  import opened TranscriptStore
  import opened SessionPull
  import opened SubagentPull

  // ---- rows below the watermark --------------------------------------------

  /** No text or call lies at or past the watermark. */
  ghost predicate RowsBelow(t: SubTables, mark: nat)
  {
    && (forall key | key in t.texts :: key.0 < mark)
    && (forall key | key in t.calls :: key.0 < mark)
  }

  ghost predicate Below(t: SubTables)
  {
    RowsBelow(t, t.byteOffset)
  }

  /** Of such a transcript only a line that raises by itself can stop the next pull. */
  lemma BelowIsReadable(codec: Codec, file: Bytes, t: SubTables)
    requires Below(t)
    ensures Trapped(codec, file, t, t.byteOffset) <==>
            exists line :: line in NewLines(file, t.byteOffset) && Raising(codec, line)
  {
    hide StepsOfLines, LinesFrom, Watermark, Raising, HasStoredRow, AnyBlocked;
    TrappedIs(codec, file, t, t.byteOffset);
    forall line | line in NewLines(file, t.byteOffset)
      ensures !HasStoredRow(codec, t, line)
    {
      LinesAreOrdered(file, t.byteOffset);
      NoStoredRowPast(codec, t, line);
    }
  }

  /**
   From nothing, as after a rebuild, a transcript is read through exactly when none of its complete
   lines raises by itself: whatever trapped it besides is gone.
   */
  lemma FromNothingReadableIff(codec: Codec, visit: SubVisit)
    requires visit.disk.Some? && StreamIdOfPath(visit.disk.value).Some? && visit.crash == NoCrash
    ensures PullSubFile(codec, None, visit).Read? <==>
            forall line | line in LinesFrom(visit.disk.value, 0) :: !Raising(codec, line)
  {
    hide PullSubFile, LinesFrom, Raising, Trapped, StreamIdOfPath;
    ReadableIff(codec, None, visit);
    BelowIsReadable(codec, visit.disk.value, Renamed(None, StreamIdOfPath(visit.disk.value).value));
  }

  lemma NoStoredRowPast(codec: Codec, t: SubTables, line: Line)
    requires Below(t) && line.offset >= t.byteOffset
    ensures !HasStoredRow(codec, t, line)
  {
    hide RowsOfLine;
    LineIsInOrder(codec, line, {});
  }

  lemma {:induction false} StepsKeepBelow(p: SubProgress, steps: seq<Step>, budget: Option<nat>, mark: nat)
    requires RowsBelow(p.tables, mark) && forall i | 0 <= i < |steps| :: OffsetWithin(steps[i], 0, mark)
    ensures RowsBelow(DoUntil(p, steps, budget).tables, mark)
    decreases |steps|
  {
    if p.ok && steps != [] && budget != Some(0) {
      assert OffsetWithin(steps[0], 0, mark);
      assert forall i | 0 <= i < |steps| - 1 :: steps[1..][i] == steps[i + 1];
      StepsKeepBelow(Do(p, steps[0]), steps[1..], Less(budget, 1), mark);
    }
  }

  /** The record has this file's identity, if it has a record and the file an identity. */
  predicate SameFile(t: Option<SubTables>, visit: SubVisit)
  {
    t.Some? && visit.disk.Some? && StreamIdOfPath(visit.disk.value).Some? ==>
      t.value.streamId == StreamIdOfPath(visit.disk.value).value
  }

  lemma PullKeepsBelow(codec: Codec, t: Option<SubTables>, visit: SubVisit)
    requires t.Some? ==> Below(t.value)
    requires SameFile(t, visit)
    ensures var outcome := PullSubFile(codec, t, visit);
      outcome.Read? ==> Below(outcome.tables)
  {
    hide DoUntil, StepsOfLines, LinesFrom, Watermark, StreamIdOfPath, Apart;
    var outcome := PullSubFile(codec, t, visit);
    if outcome.Read? {
      var file, id := visit.disk.value, StreamIdOfPath(visit.disk.value).value;
      var start := StartOf(t, id);
      var p := SubProgress(true, Renamed(t, id), NO_COUNTS);
      var steps := StepsOfLines(codec, NewLines(file, start), visit.denyIds);
      NewStepsAreApart(codec, file, start, visit.denyIds);
      MarkStays(p, steps, Budget(visit.crash));
      if start < |file| {
        StepsKeepBelow(p, steps, Budget(visit.crash), NewOffset(file, start));
      } else {
        NothingNew(file, start);
        NothingMore(p, [], Budget(visit.crash));
        assert StepsOfLines(codec, [], visit.denyIds) == [] by { NoSteps(codec, visit.denyIds); }
      }
    }
  }

  lemma NoSteps(codec: Codec, denyIds: set<string>)
    ensures StepsOfLines(codec, [], denyIds) == []
  {
  }

  // ---- a run ---------------------------------------------------------------

  ghost predicate DistinctVisits(visits: seq<SubVisit>)
  {
    forall i, j | 0 <= i < j < |visits| :: visits[i].path != visits[j].path
  }

  function RunOf(codec: Codec, store: SubStore, visits: seq<SubVisit>): SubRun
  {
    VisitSubFiles(codec, SubRun(store, store, true), visits)
  }

  lemma OneMoreVisit(codec: Codec, store: SubStore, visits: seq<SubVisit>, n: nat)
    requires 0 < n <= |visits|
    ensures RunOf(codec, store, visits[..n]) ==
            VisitSubFile(codec, RunOf(codec, store, visits[..n - 1]), visits[n - 1])
  {
    assert visits[..n][..n - 1] == visits[..n - 1];
  }

  /** The `n`th visit commits: it is made, and it inserted a call, a result or a text or was broken off. */
  predicate VisitCommits(codec: Codec, store: SubStore, visits: seq<SubVisit>, n: nat)
    requires 0 < n <= |visits|
  {
    var run, visit := RunOf(codec, store, visits[..n - 1]), visits[n - 1];
    run.going &&
    match PullSubFile(codec, Held(run.working, visit.path), visit)
    case Unread => false
    case Read(_, counts) => counts.calls > 0 || counts.results > 0 || counts.texts > 0
    case Broken(_) => true
  }

  /** What is durable at any point of a run is what the connection held after the last visit that commits. */
  lemma {:induction false} DurableIsTheLastCommit(codec: Codec, store: SubStore, visits: seq<SubVisit>, k: nat, n: nat)
    requires k <= n <= |visits| && (k == 0 || VisitCommits(codec, store, visits, k))
    requires forall j | k < j <= n :: !VisitCommits(codec, store, visits, j)
    ensures RunOf(codec, store, visits[..n]).committed == RunOf(codec, store, visits[..k]).working
  {
    hide PullSubFile;
    if n == 0 {
      assert visits[..0] == [];
    } else {
      OneMoreVisit(codec, store, visits, n);
      if k < n {
        DurableIsTheLastCommit(codec, store, visits, k, n - 1);
        assert !VisitCommits(codec, store, visits, n);
      }
    }
  }

  ghost predicate OthersAsBefore(store: SubStore, visits: seq<SubVisit>, n: nat, run: SubRun)
    requires n <= |visits|
  {
    forall path | (forall i | 0 <= i < n :: visits[i].path != path) ::
      Held(run.working, path) == Held(store, path) && Held(run.committed, path) == Held(store, path)
  }

  /** A transcript not visited yet is as it was. */
  lemma {:induction false} UnvisitedAreAsBefore(codec: Codec, store: SubStore, visits: seq<SubVisit>, n: nat)
    requires n <= |visits|
    ensures OthersAsBefore(store, visits, n, RunOf(codec, store, visits[..n]))
  {
    hide PullSubFile;
    if n > 0 {
      UnvisitedAreAsBefore(codec, store, visits, n - 1);
      OneMoreVisit(codec, store, visits, n);
    }
  }

  ghost predicate AllBelow(store: SubStore)
  {
    forall path | path in store :: Below(store[path])
  }

  ghost predicate AllBelowBut(store: SubStore, spoiled: Path)
  {
    forall path | path in store && path != spoiled :: Below(store[path])
  }

  /** The visit raised, and no other durable transcript has a row past its watermark. */
  ghost predicate SpoiledBy(codec: Codec, store: SubStore, visit: SubVisit, run: SubRun)
  {
    PullSubFile(codec, Held(store, visit.path), visit).Broken? && AllBelowBut(run.committed, visit.path)
  }

  /**
   At any point of a run, killed there or not, every durable transcript has its rows below its
   watermark; only once an exception has ended the run can one transcript differ, the one
   whose pull raised.
   */
  lemma {:induction false} RunSpoilsAtMostOne(codec: Codec, store: SubStore, visits: seq<SubVisit>, n: nat)
    requires n <= |visits| && DistinctVisits(visits) && AllBelow(store)
    requires forall i | 0 <= i < |visits| :: SameFile(Held(store, visits[i].path), visits[i])
    ensures var run := RunOf(codec, store, visits[..n]);
      && (run.going ==> AllBelow(run.committed) && AllBelow(run.working))
      && (!run.going ==> exists i :: 0 <= i < n && SpoiledBy(codec, store, visits[i], run))
  {
    hide PullSubFile, StreamIdOfPath, Below;
    if n > 0 {
      RunSpoilsAtMostOne(codec, store, visits, n - 1);
      OneMoreVisit(codec, store, visits, n);
      UnvisitedAreAsBefore(codec, store, visits, n - 1);
      var run, visit := RunOf(codec, store, visits[..n - 1]), visits[n - 1];
      if run.going {
        assert Held(run.working, visit.path) == Held(store, visit.path);
        PullKeepsBelow(codec, Held(store, visit.path), visit);
      }
    }
  }

  /**
   A run that comes to a trapped transcript, or breaks before it, ends in error, reads
   nothing that follows it in the order, and leaves it trapped for the next run.
   */
  lemma TrappedFailsEveryRun(codec: Codec, store: SubStore, visits: seq<SubVisit>, i: nat, file: Bytes)
    requires DistinctVisits(visits) && i < |visits| && visits[i].disk.Some?
    requires IsTrapped(codec, file, Held(store, visits[i].path)) && Grows(file, visits[i])
    ensures var run := RunOf(codec, store, visits);
      && !run.going
      && IsTrapped(codec, visits[i].disk.value, Held(run.committed, visits[i].path))
      && Held(run.committed, visits[i].path).value.byteOffset == store[visits[i].path].byteOffset
      && forall j | i < j < |visits| :: Held(run.committed, visits[j].path) == Held(store, visits[j].path)
  {
    hide PullSubFile, StreamIdOfPath, Trapped, Grows;
    var path := visits[i].path;
    var at := RunOf(codec, store, visits[..i]);
    UnvisitedAreAsBefore(codec, store, visits, i);
    UnvisitedAreAsBefore(codec, store, visits, i + 1);
    OneMoreVisit(codec, store, visits, i + 1);
    TrappedFails(codec, file, Held(store, path), visits[i]);
    TrappedLater(codec, file, Held(store, path), visits[i]);
    assert Held(at.working, path) == Held(at.committed, path) == Held(store, path);
    StoppedStaysStopped(codec, SubRun(store, store, true), visits, i + 1);
  }

  lemma TrappedLater(codec: Codec, file: Bytes, t: Option<SubTables>, visit: SubVisit)
    requires IsTrapped(codec, file, t) && Grows(file, visit) && visit.disk.Some?
    ensures IsTrapped(codec, visit.disk.value, t)
  {
    hide StreamIdOfPath, Trapped;
    IdentityIsStable(file, visit.disk.value);
    TrappedGrows(codec, file, visit.disk.value, t.value, t.value.byteOffset);
  }
}
