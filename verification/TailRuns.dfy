/**
 Whole histories of `tail` over one growing file: any number of passes, cut
 anywhere, leave what one pass over the final bytes leaves.
 */
module TailRuns {
  import opened Sequences
  import opened Wrappers
  import opened StreamTail

  /** A source not seen before, whose stream has no rows yet. */
  ghost predicate FreshFor(t: Tables, name: string, stream: StreamId)
  {
    && (forall key | key in t.sources :: key.0 != name)
    && (forall key | key in t.rows :: key.0 != stream)
  }

  function FileEntries<Obj>(source: Source<Obj>, file: Bytes): seq<Entry>
  {
    Entries(source, LinesFrom(file, 0))
  }

  /** `t0` with a first-seen stream that has stored `rows` and read up to `mark`. */
  function Stored(t0: Tables, name: string, stream: StreamId, rows: map<Key, Row>, mark: nat, count: nat): Tables
  {
    Tables(
      t0.rows + rows,
      t0.sources[(name, stream) := SourceRow(mark, count)],
      t0.history + [HistoryRow(name, stream, FirstSeen, None)])
  }

  /** `t` with more rows of a stream it already knows. */
  function Resumed(t: Tables, name: string, stream: StreamId, rows: map<Key, Row>, mark: nat, count: nat): Tables
  {
    Tables(t.rows + rows, t.sources[(name, stream) := SourceRow(mark, count)], t.history)
  }

  lemma ResumedStored(t0: Tables, name: string, stream: StreamId,
                      rows: map<Key, Row>, mark: nat, count: nat, more: map<Key, Row>, mark': nat, count': nat)
    ensures Resumed(Stored(t0, name, stream, rows, mark, count), name, stream, more, mark', count') ==
            Stored(t0, name, stream, rows + more, mark', count')
  {
    assert t0.rows + rows + more == t0.rows + (rows + more);
  }

  /** The one-shot state: every complete line of `file` read once from an unseen start. */
  function ReadUpTo<Obj>(source: Source<Obj>, t0: Tables, name: string, stream: StreamId, file: Bytes): Tables
  {
    var entries := FileEntries(source, file);
    Stored(t0, name, stream, RowsOf(stream, entries), Watermark(file, 0), TallyOf(entries).inserted)
  }

  predicate AnyFault(entries: seq<Entry>)
  {
    exists i | 0 <= i < |entries| :: entries[i].class_.Fault?
  }

  /** One pass of a history: the file when its head was read and when its bytes were. */
  datatype Pass = Pass(atOpen: Bytes, file: Bytes)

  /** A pass that commits, whichever row the resume query returned. */
  ghost predicate Commits<Obj>(source: Source<Obj>, name: string, before: Tables, pass: Pass, after: Tables)
  {
    exists existing ::
      && Fetchable(before, name, existing)
      && !PassFaults(source, before, name, existing, pass.atOpen, pass.file)
      && after == TailedTables(source, before, name, existing, pass.atOpen, pass.file)
  }

  /** A file only appended to, never changing its identity as seen by the passes. */
  ghost predicate Growing(passes: seq<Pass>, stream: StreamId)
  {
    && (forall i | 0 <= i < |passes| :: StreamIdOf(passes[i].atOpen) == stream)
    && (forall i, j | 0 <= i < j < |passes| :: GrewTo(passes[i].file, passes[j].file))
  }

  ghost predicate IsRun<Obj>(source: Source<Obj>, name: string, passes: seq<Pass>, states: seq<Tables>)
  {
    && |states| == |passes| + 1
    && forall i | 0 <= i < |passes| :: Commits(source, name, states[i], passes[i], states[i + 1])
  }

  lemma EntriesAppend<Obj>(source: Source<Obj>, a: seq<Line>, b: seq<Line>)
    ensures Entries(source, a + b) == Entries(source, a) + Entries(source, b)
  {
  }

  ghost predicate KeysAreNew(stream: StreamId, entries: seq<Entry>, rows: map<Key, Row>)
  {
    forall i | 0 <= i < |entries| :: (stream, entries[i].offset) !in rows
  }

  lemma FaultsAreOwn(stream: StreamId, entries: seq<Entry>, rows: map<Key, Row>)
    requires KeysAreNew(stream, entries, rows)
    ensures Faults(stream, entries, rows) <==> AnyFault(entries)
  {
  }

  lemma FirstPass<Obj>(source: Source<Obj>, t0: Tables, name: string, existing: Option<StreamId>, pass: Pass)
    requires Fetchable(t0, name, existing) && FreshFor(t0, name, StreamIdOf(pass.atOpen))
    ensures existing == None
    ensures PassFaults(source, t0, name, existing, pass.atOpen, pass.file) <==>
            AnyFault(FileEntries(source, pass.file))
    ensures TailedTables(source, t0, name, existing, pass.atOpen, pass.file) ==
            ReadUpTo(source, t0, name, StreamIdOf(pass.atOpen), pass.file)
  {
  }

  /** The lines past an old watermark land on no key the earlier passes took. */
  lemma LaterKeysAreNew<Obj>(source: Source<Obj>, t0: Tables, name: string, stream: StreamId, read: Bytes, file: Bytes)
    requires FreshFor(t0, name, stream) && GrewTo(read, file)
    ensures KeysAreNew(stream, Entries(source, LinesFrom(file, Watermark(read, 0))),
                       ReadUpTo(source, t0, name, stream, read).rows)
  {
    LinesAreOrdered(read, 0);
    LinesAreOrdered(file, Watermark(read, 0));
    RowKeysAreOffsets(stream, FileEntries(source, read));
  }

  lemma OnlyStreamFetched<Obj>(source: Source<Obj>, t0: Tables, name: string, existing: Option<StreamId>,
                               stream: StreamId, read: Bytes)
    requires FreshFor(t0, name, stream)
    requires Fetchable(ReadUpTo(source, t0, name, stream, read), name, existing)
    ensures existing == Some(stream)
  {
  }

  /** A later pass of the same stream meets no stored key: it faults only on a line that faults by itself. */
  lemma NextPassFaults<Obj>(source: Source<Obj>, t0: Tables, name: string, read: Bytes, pass: Pass)
    requires FreshFor(t0, name, StreamIdOf(pass.atOpen)) && GrewTo(read, pass.file)
    ensures var stream := StreamIdOf(pass.atOpen);
      PassFaults(source, ReadUpTo(source, t0, name, stream, read), name, Some(stream), pass.atOpen, pass.file) <==>
      AnyFault(Entries(source, LinesFrom(pass.file, Watermark(read, 0))))
  {
    var stream := StreamIdOf(pass.atOpen);
    var t := ReadUpTo(source, t0, name, stream, read);
    LaterKeysAreNew(source, t0, name, stream, read, pass.file);
    FaultsAreOwn(stream, Entries(source, LinesFrom(pass.file, Watermark(read, 0))), t.rows);
    ResumedPass(source, t, name, pass);
  }

  /** Reading on from the one-shot state of a prefix gives the one-shot state of the whole. */
  lemma NextPass<Obj>(source: Source<Obj>, t0: Tables, name: string, read: Bytes, pass: Pass)
    requires GrewTo(read, pass.file)
    ensures var stream := StreamIdOf(pass.atOpen);
      var t := ReadUpTo(source, t0, name, stream, read);
      && Fetchable(t, name, Some(stream))
      && TailedTables(source, t, name, Some(stream), pass.atOpen, pass.file) ==
         ReadUpTo(source, t0, name, stream, pass.file)
  {
    hide LinesFrom, RowsOf, TallyOf, Classify, StreamIdOf, Watermark;
    var stream := StreamIdOf(pass.atOpen);
    ResumedPass(source, ReadUpTo(source, t0, name, stream, read), name, pass);
    GrownEntries(source, stream, read, pass.file);
    var done := FileEntries(source, read);
    var more := Entries(source, LinesFrom(pass.file, Watermark(read, 0)));
    ResumedStored(t0, name, stream, RowsOf(stream, done), Watermark(read, 0), TallyOf(done).inserted,
                  RowsOf(stream, more), Watermark(pass.file, 0), TallyOf(FileEntries(source, pass.file)).inserted);
  }

  lemma GrownEntries<Obj>(source: Source<Obj>, stream: StreamId, read: Bytes, file: Bytes)
    requires GrewTo(read, file)
    ensures var done, more := FileEntries(source, read), Entries(source, LinesFrom(file, Watermark(read, 0)));
      && FileEntries(source, file) == done + more
      && RowsOf(stream, FileEntries(source, file)) == RowsOf(stream, done) + RowsOf(stream, more)
      && TallyOf(FileEntries(source, file)).inserted == TallyOf(done).inserted + TallyOf(more).inserted
      && Watermark(file, 0) == Watermark(file, Watermark(read, 0))
  {
    LinesOfGrown(read, file, 0);
    EntriesAppend(source, LinesFrom(read, 0), LinesFrom(file, Watermark(read, 0)));
    RowsAppend(stream, FileEntries(source, read), Entries(source, LinesFrom(file, Watermark(read, 0))));
    InsertedAppend(FileEntries(source, read), Entries(source, LinesFrom(file, Watermark(read, 0))));
  }

  /** A pass that finds its own stream reads from the stored offset and adds to what is there. */
  lemma ResumedPass<Obj>(source: Source<Obj>, t: Tables, name: string, pass: Pass)
    requires var key := (name, StreamIdOf(pass.atOpen));
      key in t.sources && t.sources[key].byteOffset <= |pass.file|
    ensures var stream := StreamIdOf(pass.atOpen);
      var row := t.sources[(name, stream)];
      var more := Entries(source, LinesFrom(pass.file, row.byteOffset));
      && PassEntries(source, t, name, Some(stream), pass.atOpen, pass.file) == more
      && TailedTables(source, t, name, Some(stream), pass.atOpen, pass.file) ==
         Resumed(t, name, stream, RowsOf(stream, more), Watermark(pass.file, row.byteOffset),
                 row.rowsIngested + TallyOf(more).inserted)
  {
    hide LinesFrom, RowsOf, TallyOf, Classify, StreamIdOf, Watermark;
    var stream := StreamIdOf(pass.atOpen);
    assert HistoryFor(t, name, Some(stream), pass.atOpen) == [];
  }

  /** After every pass the store is the one-shot state of what that pass read. */
  lemma {:induction false} RunIsOneShot<Obj>(source: Source<Obj>, name: string, stream: StreamId,
                                             passes: seq<Pass>, states: seq<Tables>, n: nat)
    requires IsRun(source, name, passes, states) && Growing(passes, stream)
    requires FreshFor(states[0], name, stream)
    requires 1 <= n <= |passes|
    ensures states[n] == ReadUpTo(source, states[0], name, stream, passes[n - 1].file)
    ensures !AnyFault(FileEntries(source, passes[n - 1].file))
  {
    var pass := passes[n - 1];
    assert Commits(source, name, states[n - 1], pass, states[n]);
    var existing :|
      && Fetchable(states[n - 1], name, existing)
      && !PassFaults(source, states[n - 1], name, existing, pass.atOpen, pass.file)
      && states[n] == TailedTables(source, states[n - 1], name, existing, pass.atOpen, pass.file);
    if n == 1 {
      FirstPass(source, states[0], name, existing, pass);
    } else {
      RunIsOneShot(source, name, stream, passes, states, n - 1);
      var read := passes[n - 2].file;
      assert GrewTo(read, pass.file);
      OnlyStreamFetched(source, states[0], name, existing, stream, read);
      NextPass(source, states[0], name, read, pass);
      NextPassFaults(source, states[0], name, read, pass);
      FaultsOfGrown(source, stream, read, pass.file);
    }
  }

  /**
   Incremental equals one-shot: however many passes there were and wherever they cut
   the file, one pass over the final bytes commits the same rows, watermark,
   counts and history.
   */
  lemma IncrementalEqualsOnePass<Obj>(source: Source<Obj>, name: string, stream: StreamId,
                                      passes: seq<Pass>, states: seq<Tables>)
    requires IsRun(source, name, passes, states) && Growing(passes, stream) && |passes| >= 1
    requires FreshFor(states[0], name, stream)
    ensures Commits(source, name, states[0], passes[|passes| - 1], states[|passes|])
  {
    var n := |passes|;
    RunIsOneShot(source, name, stream, passes, states, n);
    assert Fetchable(states[0], name, None);
    FirstPass(source, states[0], name, None, passes[n - 1]);
  }

  /**
   A pass of such a history leaves by an exception exactly when a complete line past
   the watermark faults by itself; the primary-key branch is never what raises.
   */
  lemma RaisesExactlyOnFaultyLine<Obj>(source: Source<Obj>, name: string, stream: StreamId,
                                       passes: seq<Pass>, states: seq<Tables>, existing: Option<StreamId>, next: Pass)
    requires IsRun(source, name, passes, states) && Growing(passes + [next], stream)
    requires FreshFor(states[0], name, stream)
    requires Fetchable(states[|passes|], name, existing)
    ensures PassFaults(source, states[|passes|], name, existing, next.atOpen, next.file) <==>
            AnyFault(FileEntries(source, next.file))
  {
    var n := |passes|;
    assert (passes + [next])[n] == next;
    if n == 0 {
      FirstPass(source, states[0], name, existing, next);
    } else {
      assert forall i | 0 <= i < n :: (passes + [next])[i] == passes[i];
      RunIsOneShot(source, name, stream, passes, states, n);
      var read := passes[n - 1].file;
      assert GrewTo((passes + [next])[n - 1].file, (passes + [next])[n].file);
      OnlyStreamFetched(source, states[0], name, existing, stream, read);
      NextPassFaults(source, states[0], name, read, next);
      FaultsOfGrown(source, stream, read, next.file);
    }
  }

  lemma FaultsOfGrown<Obj>(source: Source<Obj>, stream: StreamId, read: Bytes, file: Bytes)
    requires GrewTo(read, file)
    ensures AnyFault(FileEntries(source, file)) <==>
            AnyFault(FileEntries(source, read)) || AnyFault(Entries(source, LinesFrom(file, Watermark(read, 0))))
  {
    GrownEntries(source, stream, read, file);
    AnyFaultAppend(FileEntries(source, read), Entries(source, LinesFrom(file, Watermark(read, 0))));
  }

  lemma AnyFaultAppend(a: seq<Entry>, b: seq<Entry>)
    ensures AnyFault(a + b) <==> AnyFault(a) || AnyFault(b)
  {
    var whole := a + b;
    forall i | 0 <= i < |whole| ensures whole[i] == if i < |a| then a[i] else b[i - |a|] {
    }
    forall i | 0 <= i < |a| ensures a[i] == whole[i] {
    }
    forall i | 0 <= i < |b| ensures b[i] == whole[|a| + i] {
    }
  }

  /** A faulty line is never got past: every later pass over the growing file raises again. */
  lemma FaultyLineIsATrap<Obj>(source: Source<Obj>, t: Tables, name: string, existing: Option<StreamId>,
                               pass: Pass, later: Pass)
    requires Fetchable(t, name, existing)
    requires StreamIdOf(pass.atOpen) == StreamIdOf(later.atOpen) && GrewTo(pass.file, later.file)
    requires AnyFault(PassEntries(source, t, name, existing, pass.atOpen, pass.file))
    ensures PassFaults(source, t, name, existing, later.atOpen, later.file)
  {
    var start := StartOffset(t, name, existing, StreamIdOf(pass.atOpen));
    var was := PassEntries(source, t, name, existing, pass.atOpen, pass.file);
    var is_ := PassEntries(source, t, name, existing, later.atOpen, later.file);
    LinesOfGrown(pass.file, later.file, start);
    EntriesAppend(source, LinesFrom(pass.file, start), LinesFrom(later.file, Watermark(pass.file, start)));
    var i :| 0 <= i < |was| && was[i].class_.Fault?;
    assert is_[i] == was[i];
    assert FaultsAt(StreamIdOf(later.atOpen), is_[i], t.rows);
  }

  function Total(t: Tally): nat
  {
    t.blank + t.inserted + t.skipped + t.rejected + t.quarantined
  }

  /** Every complete line is accounted for once: the five counters add up to the lines. */
  lemma {:induction false} EveryLineCountedOnce(entries: seq<Entry>)
    requires !AnyFault(entries)
    ensures Total(TallyOf(entries)) == |entries|
  {
    hide TallyOf, AnyFault, Total;
    TotalOfNone();
    if entries != [] {
      var front, last := entries[..|entries| - 1], entries[|entries| - 1];
      LastAside(entries);
      AnyFaultAppend(front, [last]);
      FaultOfOne(last);
      EveryLineCountedOnce(front);
      TallyMore(front, last);
      TotalTick(TallyOf(front), last.class_);
    }
  }

  lemma TotalOfNone()
    ensures Total(TallyOf([])) == 0
  {
  }

  lemma TotalTick(x: Tally, class_: Class)
    ensures Total(x.Tick(class_)) == Total(x) + if class_.Fault? then 0 else 1
  {
  }

  lemma FaultOfOne(e: Entry)
    ensures AnyFault([e]) <==> e.class_.Fault?
  {
    assert [e][0] == e;
  }

  function Plus(x: Tally, y: Tally): Tally
  {
    Tally(x.blank + y.blank, x.inserted + y.inserted, x.skipped + y.skipped, x.rejected + y.rejected,
          x.quarantined + y.quarantined)
  }

  lemma TallyMore(entries: seq<Entry>, e: Entry)
    ensures TallyOf(entries + [e]) == TallyOf(entries).Tick(e.class_)
  {
    assert (entries + [e])[..|entries|] == entries;
  }

  lemma LastAside<T>(s: seq<T>)
    requires s != []
    ensures s[..|s| - 1] + [s[|s| - 1]] == s
  {
  }

  lemma LastAsideOfMore<T>(a: seq<T>, b: seq<T>)
    requires b != []
    ensures a + b[..|b| - 1] + [b[|b| - 1]] == a + b
  {
  }

  lemma PlusZero(x: Tally)
    ensures Plus(x, ZERO) == x && Plus(ZERO, x) == x && TallyOf([]) == ZERO && Sum([]) == ZERO
  {
  }

  lemma TickPlus(x: Tally, y: Tally, class_: Class)
    ensures Plus(x, y.Tick(class_)) == Plus(x, y).Tick(class_)
  {
  }

  lemma {:induction false} TalliesAdd(a: seq<Entry>, b: seq<Entry>)
    ensures TallyOf(a + b) == Plus(TallyOf(a), TallyOf(b))
  {
    hide TallyOf, Plus;
    if b == [] {
      PlusZero(TallyOf(a));
      assert a + b == a;
    } else {
      var front, e := b[..|b| - 1], b[|b| - 1];
      TalliesAdd(a, front);
      TallyMore(front, e);
      TallyMore(a + front, e);
      TickPlus(TallyOf(a), TallyOf(front), e.class_);
      LastAside(b);
      LastAsideOfMore(a, b);
    }
  }

  /** An accepted line is stored, and under its own offset. */
  lemma {:induction false} AcceptedLineIsStored<Obj>(source: Source<Obj>, stream: StreamId, lines: seq<Line>, k: nat)
    requires forall i, j | 0 <= i < j < |lines| :: lines[i].offset < lines[j].offset
    requires k < |lines| && Classify(source, lines[k].text).Accepted?
    ensures var rows := RowsOf(stream, Entries(source, lines));
      && (stream, lines[k].offset) in rows
      && rows[(stream, lines[k].offset)] == Classify(source, lines[k].text).row
  {
    var last := |lines| - 1;
    assert Entries(source, lines)[..last] == Entries(source, lines[..last]);
    if k < last {
      AcceptedLineIsStored(source, stream, lines[..last], k);
    }
  }

  /**
   The rows are the accepted lines: each such line's row sits under the offset its
   bytes have in the file, and every stored row is one of them.
   */
  lemma RowsAreAcceptedLines<Obj>(source: Source<Obj>, stream: StreamId, file: Bytes)
    ensures var rows := RowsOf(stream, FileEntries(source, file));
      && (forall line | line in LinesFrom(file, 0) && Classify(source, line.text).Accepted? ::
            && IsLineOf(line, file)
            && (stream, line.offset) in rows
            && rows[(stream, line.offset)] == Classify(source, line.text).row)
      && (forall key | key in rows ::
            key.0 == stream &&
            exists line :: line in LinesFrom(file, 0) && line.offset == key.1 && Classify(source, line.text).Accepted?)
  {
    var lines := LinesFrom(file, 0);
    var rows := RowsOf(stream, FileEntries(source, file));
    LinesAreWhereTheySay(file, 0);
    LinesAreOrdered(file, 0);
    RowKeysAreOffsets(stream, FileEntries(source, file));
    forall line | line in lines && Classify(source, line.text).Accepted?
      ensures (stream, line.offset) in rows && rows[(stream, line.offset)] == Classify(source, line.text).row
    {
      var k :| 0 <= k < |lines| && lines[k] == line;
      AcceptedLineIsStored(source, stream, lines, k);
    }
    forall key | key in rows
      ensures exists line :: line in lines && line.offset == key.1 && Classify(source, line.text).Accepted?
    {
      var k :| 0 <= k < |lines| && lines[k].offset == key.1 && Classify(source, lines[k].text).Accepted?;
      assert lines[k] in lines;
    }
  }

  lemma RowsOneMore(stream: StreamId, entries: seq<Entry>, e: Entry)
    ensures RowsOf(stream, entries + [e]) ==
            match e.class_ case Accepted(row) => RowsOf(stream, entries)[(stream, e.offset) := row] case _ => RowsOf(stream, entries)
  {
    assert (entries + [e])[..|entries|] == entries;
  }

  lemma LastKeyIsNew(stream: StreamId, entries: seq<Entry>)
    requires entries != [] && forall j, k | 0 <= j < k < |entries| :: entries[j].offset < entries[k].offset
    ensures (stream, entries[|entries| - 1].offset) !in RowsOf(stream, entries[..|entries| - 1])
  {
    hide RowsOf;
    RowKeysAreOffsets(stream, entries[..|entries| - 1]);
  }

  lemma {:induction false} InsertedIsRowCount(stream: StreamId, entries: seq<Entry>)
    requires forall j, k | 0 <= j < k < |entries| :: entries[j].offset < entries[k].offset
    ensures |RowsOf(stream, entries)| == TallyOf(entries).inserted
  {
    if entries != [] {
      hide RowsOf, TallyOf;
      var front, last := entries[..|entries| - 1], entries[|entries| - 1];
      InsertedIsRowCount(stream, front);
      LastKeyIsNew(stream, entries);
      LastAside(entries);
      RowsOneMore(stream, front, last);
      TallyMore(front, last);
    }
  }

  // ---- the accounts of a run -----------------------------------------------

  /** What a committing pass reports to its caller. */
  ghost predicate Reports<Obj>(source: Source<Obj>, name: string, before: Tables, pass: Pass, tally: Tally)
  {
    exists existing ::
      && Fetchable(before, name, existing)
      && tally == TallyOf(PassEntries(source, before, name, existing, pass.atOpen, pass.file))
  }

  ghost predicate AreReports<Obj>(source: Source<Obj>, name: string, passes: seq<Pass>, states: seq<Tables>, tallies: seq<Tally>)
    requires |states| == |passes| + 1
  {
    |tallies| == |passes| && forall i | 0 <= i < |passes| :: Reports(source, name, states[i], passes[i], tallies[i])
  }

  function Sum(tallies: seq<Tally>): Tally
  {
    if tallies == [] then ZERO else Plus(Sum(tallies[..|tallies| - 1]), tallies[|tallies| - 1])
  }

  function StreamRows(t: Tables, stream: StreamId): set<Key>
  {
    set key | key in t.rows && key.0 == stream
  }

  /** The reports of a run's passes add up to the report of one pass over the final bytes. */
  lemma {:induction false} ReportsAddUp<Obj>(source: Source<Obj>, name: string, stream: StreamId, passes: seq<Pass>,
                                             states: seq<Tables>, tallies: seq<Tally>, n: nat)
    requires IsRun(source, name, passes, states) && Growing(passes, stream) && AreReports(source, name, passes, states, tallies)
    requires FreshFor(states[0], name, stream)
    requires 1 <= n <= |passes|
    ensures Sum(tallies[..n]) == TallyOf(FileEntries(source, passes[n - 1].file))
  {
    hide TallyOf, LinesFrom, Watermark, Classify, Plus, Entries, StreamIdOf, RowsOf, Commits;
    var pass := passes[n - 1];
    assert Reports(source, name, states[n - 1], pass, tallies[n - 1]);
    var existing :| Fetchable(states[n - 1], name, existing)
      && tallies[n - 1] == TallyOf(PassEntries(source, states[n - 1], name, existing, pass.atOpen, pass.file));
    assert tallies[..n][..n - 1] == tallies[..n - 1];
    PlusZero(tallies[n - 1]);
    if n == 1 {
      assert tallies[..0] == [];
      FirstPass(source, states[0], name, existing, pass);
    } else {
      var read := passes[n - 2].file;
      assert GrewTo(read, pass.file);
      RunIsOneShot(source, name, stream, passes, states, n - 1);
      OnlyStreamFetched(source, states[0], name, existing, stream, read);
      ResumedPass(source, states[n - 1], name, pass);
      ReportsAddUp(source, name, stream, passes, states, tallies, n - 1);
      GrownEntries(source, stream, read, pass.file);
      TalliesAdd(FileEntries(source, read), Entries(source, LinesFrom(pass.file, Watermark(read, 0))));
    }
  }

  /**
   After any run every complete line of the file has been reported exactly once, in one of the
   five counters; the inserted ones are the stream's stored rows, and `rows_ingested` is their number.
   */
  lemma RunAccountsForEveryLine<Obj>(source: Source<Obj>, name: string, stream: StreamId, passes: seq<Pass>,
                                     states: seq<Tables>, tallies: seq<Tally>, n: nat)
    requires IsRun(source, name, passes, states) && Growing(passes, stream) && AreReports(source, name, passes, states, tallies)
    requires FreshFor(states[0], name, stream)
    requires 1 <= n <= |passes|
    ensures var t, file, sum := states[n], passes[n - 1].file, Sum(tallies[..n]);
      && (name, stream) in t.sources
      && Total(sum) == |LinesFrom(file, 0)|
      && t.sources[(name, stream)] == SourceRow(Watermark(file, 0), sum.inserted)
      && |StreamRows(t, stream)| == sum.inserted
  {
    hide TallyOf, LinesFrom, Watermark, Classify, RowsOf, Sum, Commits, Growing, Reports, StreamRows, FreshFor;
    var file := passes[n - 1].file;
    var entries := FileEntries(source, file);
    ReportsAddUp(source, name, stream, passes, states, tallies, n);
    RunIsOneShot(source, name, stream, passes, states, n);
    EveryLineCountedOnce(entries);
    LinesAreOrdered(file, 0);
    InsertedIsRowCount(stream, entries);
    StreamRowsAreTheFiles(source, states[0], name, stream, file);
  }

  lemma StreamRowsAreTheFiles<Obj>(source: Source<Obj>, t: Tables, name: string, stream: StreamId, file: Bytes)
    requires FreshFor(t, name, stream)
    ensures |StreamRows(ReadUpTo(source, t, name, stream, file), stream)| == |RowsOf(stream, FileEntries(source, file))|
  {
    hide RowsOf, LinesFrom, Watermark, Classify, TallyOf;
    var rows := RowsOf(stream, FileEntries(source, file));
    RowKeysAreOffsets(stream, FileEntries(source, file));
    assert StreamRows(ReadUpTo(source, t, name, stream, file), stream) == rows.Keys;
  }

  /**
   A file still shorter than the digested head changes identity when it grows. The next
   pass takes that for a rotation, starts from zero and stores every accepted line a
   second time under the new stream.
   */
  lemma ShortFileIsReadTwice<Obj>(source: Source<Obj>, t0: Tables, name: string, short: Bytes, longer: Bytes, line: Line)
    requires |short| < STREAM_ID_HEAD_BYTES && |short| < |longer| && GrewTo(short, longer)
    requires FreshFor(t0, name, StreamIdOf(short))
    requires line in LinesFrom(short, 0) && Classify(source, line.text).Accepted?
    ensures var t := ReadUpTo(source, t0, name, StreamIdOf(short), short);
      && Fetchable(t, name, Some(StreamIdOf(short)))
      && var after := TailedTables(source, t, name, Some(StreamIdOf(short)), longer, longer);
      && StreamIdOf(short) != StreamIdOf(longer)
      && (StreamIdOf(short), line.offset) in after.rows
      && (StreamIdOf(longer), line.offset) in after.rows
  {
    hide Classify, RowsOf, TallyOf;
    IdentityKept(short, longer);
    LinesOfGrown(short, longer, 0);
    assert line in LinesFrom(longer, 0);
    RowsAreAcceptedLines(source, StreamIdOf(short), short);
    RowsAreAcceptedLines(source, StreamIdOf(longer), longer);
    RotatedPass(source, ReadUpTo(source, t0, name, StreamIdOf(short), short), name, StreamIdOf(short), longer);
  }

  /** A pass that finds another stream reads the whole file again, under the new identity. */
  lemma RotatedPass<Obj>(source: Source<Obj>, t: Tables, name: string, stream: StreamId, file: Bytes)
    requires (name, stream) in t.sources && stream != StreamIdOf(file)
    ensures TailedTables(source, t, name, Some(stream), file, file).rows ==
            t.rows + RowsOf(StreamIdOf(file), FileEntries(source, file))
  {
  }
}
