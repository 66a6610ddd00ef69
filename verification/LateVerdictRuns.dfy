/**
 Confluence of late verdicts: whatever the order of appends, arriving verdicts,
 pulls with stale verdict snapshots, pulls broken off and partial reconciliations,
 one last reconciliation leaves what a single pull with every verdict would have stored.
 */
module LateVerdictRuns {
  import opened Sequences
  import opened Wrappers
  import opened Transcript
  import opened TranscriptStore
  import opened LateVerdicts

  /**
   Files on disk, verdicts landed, how far each transcript was read, and the result table.
   `stored` counts, of a transcript's result rows in file order, those inserted so far.
   */
  datatype World = World(
    files: Files,
    verdicts: set<string>,
    marks: map<Path, nat>,
    stored: map<Path, nat>,
    results: map<Key, ResultRow>)

  /** A broken-off pull is one whose exception was followed by a commit: `rows` results are in, the watermark is not moved. */
  datatype Event =
    | Append(path: Path, longer: Bytes)
    | VerdictLands(toolUseId: string)
    | Pull(path: Path, denyIds: set<string>)
    | BrokenPull(path: Path, denyIds: set<string>, rows: nat)
    | Reconcile(readable: set<Path>)

  function ResultsOf(results: map<Key, ResultRow>, path: Path): Results
  {
    map id | id in (set key | key in results && key.0 == path :: key.1) :: results[(path, id)]
  }

  /** INSERT OR IGNORE into the shared table, for one transcript. */
  function KeepFirstAt(results: map<Key, ResultRow>, path: Path, rows: seq<ResultRow>): map<Key, ResultRow>
  {
    if rows == [] then results
    else
      var last := |rows| - 1;
      var before := KeepFirstAt(results, path, rows[..last]);
      var key := (path, rows[last].toolUseId);
      if key in before then before else before[key := rows[last]]
  }

  function MarkOf(w: World, path: Path): nat
  {
    if path in w.marks then w.marks[path] else 0
  }

  function StoredOf(w: World, path: Path): nat
  {
    if path in w.stored then w.stored[path] else 0
  }

  /** Every result row of the complete lines, in file order. */
  function AllResults(codec: Codec, file: Bytes, denyIds: set<string>): seq<ResultRow>
  {
    RowsOfLines(codec, LinesFrom(file, 0), denyIds).results
  }

  /** The result rows a pull reads past the watermark. */
  function NewResults(codec: Codec, w: World, path: Path, denyIds: set<string>): seq<ResultRow>
    requires path in w.files && MarkOf(w, path) <= |w.files[path]|
  {
    RowsOfLines(codec, LinesFrom(w.files[path], MarkOf(w, path)), denyIds).results
  }

  function BelowMark(codec: Codec, w: World, path: Path): nat
    requires path in w.files && MarkOf(w, path) <= |w.files[path]|
  {
    |AllResults(codec, w.files[path][..MarkOf(w, path)], {})|
  }

  predicate CanPull(w: World, path: Path, denyIds: set<string>)
  {
    path in w.files && MarkOf(w, path) <= |w.files[path]| && denyIds <= w.verdicts
  }

  /** The events that can happen: files only grow, a pull's verdicts were landed when it took them. */
  ghost predicate Possible(codec: Codec, w: World, e: Event)
  {
    match e
    case Append(path, longer) => path in w.files ==> GrewTo(w.files[path], longer)
    case VerdictLands(_) => true
    case Pull(path, denyIds) => CanPull(w, path, denyIds)
    case BrokenPull(path, denyIds, rows) => CanPull(w, path, denyIds) && rows <= |NewResults(codec, w, path, denyIds)|
    case Reconcile(_) => true
  }

  function Readable(w: World, readable: set<Path>): Files
  {
    map path | path in w.files && path in readable :: w.files[path]
  }

  function ReconciledTable(codec: Codec, w: World, readable: set<Path>): map<Key, ResultRow>
  {
    map key | key in w.results :: Reconciled(codec, Readable(w, readable), key, w.results[key], w.verdicts)
  }

  function Max(a: nat, b: nat): nat
  {
    if a < b then b else a
  }

  /** The first `rows` results past the watermark are inserted or ignored. */
  function Inserted(codec: Codec, w: World, path: Path, denyIds: set<string>, rows: nat): World
    requires CanPull(w, path, denyIds) && rows <= |NewResults(codec, w, path, denyIds)|
  {
    w.(results := KeepFirstAt(w.results, path, NewResults(codec, w, path, denyIds)[..rows]),
       stored := w.stored[path := Max(StoredOf(w, path), BelowMark(codec, w, path) + rows)])
  }

  function Marked(w: World, path: Path): World
    requires path in w.files && MarkOf(w, path) <= |w.files[path]|
  {
    w.(marks := w.marks[path := Watermark(w.files[path], MarkOf(w, path))])
  }

  /** One event. A pull that is rolled back changes nothing and so is no event. */
  function Apply(codec: Codec, w: World, e: Event): World
    requires Possible(codec, w, e)
  {
    match e
    case Append(path, longer) => w.(files := w.files[path := longer])
    case VerdictLands(id) => w.(verdicts := w.verdicts + {id})
    case Pull(path, denyIds) =>
      Marked(Inserted(codec, w, path, denyIds, |NewResults(codec, w, path, denyIds)|), path)
    case BrokenPull(path, denyIds, rows) => Inserted(codec, w, path, denyIds, rows)
    case Reconcile(readable) => w.(results := ReconciledTable(codec, w, readable))
  }

  ghost predicate IsRun(codec: Codec, events: seq<Event>, worlds: seq<World>)
  {
    && |worlds| == |events| + 1
    && worlds[0].marks == map[] && worlds[0].stored == map[] && worlds[0].results == map[]
    && forall i | 0 <= i < |events| ::
         Possible(codec, worlds[i], events[i]) && worlds[i + 1] == Apply(codec, worlds[i], events[i])
  }

  // ---- the invariant -------------------------------------------------------

  /** The watermark sits at a line boundary, and every result below it has been inserted. */
  ghost predicate MarkIsSound(codec: Codec, w: World, path: Path)
    requires path in w.files
  {
    var file, mark := w.files[path], MarkOf(w, path);
    && mark <= |file|
    && Watermark(file[..mark], 0) == mark
    && BelowMark(codec, w, path) <= StoredOf(w, path) <= |AllResults(codec, file, w.verdicts)|
  }

  /** What one pull of the rows inserted so far, with every verdict landed so far, would hold. */
  ghost function Reference(codec: Codec, w: World, path: Path): Results
    requires path in w.files && StoredOf(w, path) <= |AllResults(codec, w.files[path], w.verdicts)|
  {
    KeepFirst(map[], AllResults(codec, w.files[path], w.verdicts)[..StoredOf(w, path)])
  }

  ghost predicate PathInv(codec: Codec, w: World, path: Path)
    requires path in w.files
  {
    && MarkIsSound(codec, w, path)
    && Lags(ResultsOf(w.results, path), Reference(codec, w, path))
  }

  ghost predicate WorldInv(codec: Codec, w: World)
  {
    && w.marks.Keys <= w.files.Keys
    && w.stored.Keys <= w.files.Keys
    && (forall key | key in w.results :: key.0 in w.files)
    && (forall path | path in w.files :: PathInv(codec, w, path))
  }

  lemma ResultsOfAt(results: map<Key, ResultRow>, path: Path, id: Json)
    ensures id in ResultsOf(results, path) <==> (path, id) in results
    ensures id in ResultsOf(results, path) ==> ResultsOf(results, path)[id] == results[(path, id)]
  {
  }

  lemma InsertAt(results: map<Key, ResultRow>, path: Path, row: ResultRow, other: Path)
    ensures ResultsOf(results[(path, row.toolUseId) := row], other) ==
            if other == path then ResultsOf(results, path)[row.toolUseId := row] else ResultsOf(results, other)
  {
  }

  /** In the shared table each transcript's rows behave as a table of their own. */
  lemma {:induction false} KeepFirstAtIsKeepFirst(results: map<Key, ResultRow>, path: Path, rows: seq<ResultRow>, other: Path)
    ensures ResultsOf(KeepFirstAt(results, path, rows), other) ==
            if other == path then KeepFirst(ResultsOf(results, path), rows) else ResultsOf(results, other)
    ensures forall key | key in KeepFirstAt(results, path, rows) :: key in results || key.0 == path
  {
    hide ResultsOf;
    if rows != [] {
      var last := |rows| - 1;
      var before := KeepFirstAt(results, path, rows[..last]);
      KeepFirstAtIsKeepFirst(results, path, rows[..last], other);
      ResultsOfAt(before, path, rows[last].toolUseId);
      InsertAt(before, path, rows[last], other);
      if other != path {
        KeepFirstAtIsKeepFirst(results, path, rows[..last], path);
      }
    }
  }

  // ---- the rows of a file --------------------------------------------------

  lemma CountIgnoresVerdicts(codec: Codec, file: Bytes, denyIds: set<string>)
    ensures |AllResults(codec, file, denyIds)| == |AllResults(codec, file, {})|
  {
    hide LinesFrom, RowsOfLines;
    RowsLag(codec, LinesFrom(file, 0), {}, denyIds);
  }

  /** Below the watermark, then past it. */
  lemma SplitAtMark(codec: Codec, file: Bytes, mark: nat, denyIds: set<string>)
    requires mark <= |file| && Watermark(file[..mark], 0) == mark
    ensures AllResults(codec, file, denyIds) ==
            AllResults(codec, file[..mark], denyIds) + RowsOfLines(codec, LinesFrom(file, mark), denyIds).results
    ensures Watermark(file, mark) == Watermark(file, 0)
  {
    hide LinesFrom, RowsOfLines, Watermark;
    LinesOfGrown(file[..mark], file, 0);
    RowsOfLinesAppend(codec, LinesFrom(file[..mark], 0), LinesFrom(file, mark), denyIds);
  }

  lemma ResultsOfGrown(codec: Codec, file: Bytes, longer: Bytes, denyIds: set<string>)
    requires GrewTo(file, longer)
    ensures AllResults(codec, file, denyIds) <= AllResults(codec, longer, denyIds)
  {
    hide LinesFrom, RowsOfLines, Watermark;
    LinesOfGrown(file, longer, 0);
    RowsOfLinesAppend(codec, LinesFrom(file, 0), LinesFrom(longer, Watermark(file, 0)), denyIds);
  }

  /** Rows whose calls all have a result already change nothing. */
  lemma {:induction false} NothingKept(results: Results, rows: seq<ResultRow>)
    requires forall i | 0 <= i < |rows| :: rows[i].toolUseId in results
    ensures KeepFirst(results, rows) == results
  {
    if rows != [] {
      NothingKept(results, rows[..|rows| - 1]);
    }
  }

  lemma {:induction false} AllAreKept(results: Results, rows: seq<ResultRow>)
    ensures forall i | 0 <= i < |rows| :: rows[i].toolUseId in KeepFirst(results, rows)
  {
    if rows != [] {
      AllAreKept(results, rows[..|rows| - 1]);
    }
  }

  /** Inserting rows `m..j` after rows `..n` were in is inserting the rows up to the further of the two. */
  lemma OverlapIsIgnored(all: seq<ResultRow>, m: nat, n: nat, j: nat)
    requires m <= n <= |all| && m <= j <= |all|
    ensures KeepFirst(KeepFirst(map[], all[..n]), all[m..j]) == KeepFirst(map[], all[..Max(n, j)])
  {
    hide KeepFirst;
    var held := KeepFirst(map[], all[..n]);
    var again := all[m..if j < n then j else n];
    AllAreKept(map[], all[..n]);
    forall i | 0 <= i < |again| ensures again[i].toolUseId in held {
      assert again[i] == all[..n][m + i];
    }
    NothingKept(held, again);
    if n < j {
      KeepFirstAppend(held, again, all[n..j]);
      KeepFirstAppend(map[], all[..n], all[n..j]);
      assert again + all[n..j] == all[m..j];
      assert all[..n] + all[n..j] == all[..j];
    }
  }

  // ---- each event keeps it -------------------------------------------------

  /** An event that leaves a transcript's file, records and rows alone leaves it sound. */
  lemma SamePath(codec: Codec, w: World, after: World, path: Path)
    requires path in w.files && path in after.files && PathInv(codec, w, path)
    requires after.files[path] == w.files[path] && after.verdicts == w.verdicts
    requires MarkOf(after, path) == MarkOf(w, path) && StoredOf(after, path) == StoredOf(w, path)
    requires ResultsOf(after.results, path) == ResultsOf(w.results, path)
    ensures PathInv(codec, after, path)
  {
    hide AllResults, Lags, ResultsOf, Watermark, KeepFirst, MarkOf, StoredOf;
  }

  lemma AppendKeeps(codec: Codec, w: World, path: Path, longer: Bytes)
    requires WorldInv(codec, w) && Possible(codec, w, Append(path, longer))
    ensures WorldInv(codec, Apply(codec, w, Append(path, longer)))
  {
    hide PathInv, GrewTo, ResultsOf;
    var after := Apply(codec, w, Append(path, longer));
    forall p | p in after.files ensures PathInv(codec, after, p) {
      if p != path {
        SamePath(codec, w, after, p);
      } else if path in w.files {
        GrownPath(codec, w, path, longer);
      } else {
        NothingStored(codec, after, path);
      }
    }
  }

  lemma GrownPath(codec: Codec, w: World, path: Path, longer: Bytes)
    requires path in w.files && PathInv(codec, w, path) && GrewTo(w.files[path], longer)
    ensures PathInv(codec, w.(files := w.files[path := longer]), path)
  {
    hide AllResults, Lags, ResultsOf, Watermark, KeepFirst;
    ResultsOfGrown(codec, w.files[path], longer, w.verdicts);
    assert longer[..MarkOf(w, path)] == w.files[path][..MarkOf(w, path)];
    var before, now := AllResults(codec, w.files[path], w.verdicts), AllResults(codec, longer, w.verdicts);
    assert now[..StoredOf(w, path)] == before[..StoredOf(w, path)];
  }

  lemma NothingStored(codec: Codec, w: World, path: Path)
    requires path in w.files && path !in w.marks && path !in w.stored && forall key | key in w.results :: key.0 != path
    ensures PathInv(codec, w, path)
  {
    assert w.files[path][..0] == [];
    assert LinesFrom([], 0) == [];
  }

  lemma VerdictKeeps(codec: Codec, w: World, id: string)
    requires WorldInv(codec, w)
    ensures WorldInv(codec, Apply(codec, w, VerdictLands(id)))
  {
    hide RowsOfLines, LinesFrom, Lags, ResultsOf, Watermark, KeepFirst;
    var after := Apply(codec, w, VerdictLands(id));
    forall p | p in after.files ensures PathInv(codec, after, p) {
      assert PathInv(codec, w, p);
      PrefixLags(codec, LinesFrom(w.files[p], 0), w.verdicts, after.verdicts, StoredOf(w, p));
      LagsTransitive(ResultsOf(w.results, p), Reference(codec, w, p), Reference(codec, after, p));
    }
  }

  /** The same number of rows under more verdicts. */
  lemma PrefixLags(codec: Codec, lines: seq<Line>, early: set<string>, late: set<string>, n: nat)
    requires early <= late && n <= |RowsOfLines(codec, lines, early).results|
    ensures var a, b := RowsOfLines(codec, lines, early).results, RowsOfLines(codec, lines, late).results;
      |a| == |b| && SameButLaterAll(a[..n], b[..n]) && Lags(KeepFirst(map[], a[..n]), KeepFirst(map[], b[..n]))
  {
    hide RowsOfLines, KeepFirst, SameButLater;
    var a, b := RowsOfLines(codec, lines, early).results, RowsOfLines(codec, lines, late).results;
    RowsLag(codec, lines, early, late);
    KeepFirstLags(map[], map[], a[..n], b[..n]);
  }

  /** The same lines past the watermark, whatever has been inserted of them before. */
  lemma InsertKeeps(codec: Codec, w: World, path: Path, denyIds: set<string>, rows: nat)
    requires WorldInv(codec, w) && CanPull(w, path, denyIds) && rows <= |NewResults(codec, w, path, denyIds)|
    ensures WorldInv(codec, Inserted(codec, w, path, denyIds, rows))
  {
    hide PathInv, NewResults, ResultsOf, KeepFirstAt;
    var after := Inserted(codec, w, path, denyIds, rows);
    var taken := NewResults(codec, w, path, denyIds)[..rows];
    KeepFirstAtIsKeepFirst(w.results, path, taken, path);
    forall p | p in after.files ensures PathInv(codec, after, p) {
      KeepFirstAtIsKeepFirst(w.results, path, taken, p);
      if p == path {
        InsertedPath(codec, w, path, denyIds, rows);
      } else {
        SamePath(codec, w, after, p);
      }
    }
  }

  lemma InsertedPath(codec: Codec, w: World, path: Path, denyIds: set<string>, rows: nat)
    requires path in w.files && PathInv(codec, w, path) && CanPull(w, path, denyIds)
    requires rows <= |NewResults(codec, w, path, denyIds)|
    ensures PathInv(codec, Inserted(codec, w, path, denyIds, rows), path)
  {
    hide AllResults, NewResults, Lags, ResultsOf, Watermark, KeepFirst, KeepFirstAt;
    InsertedRowsLag(codec, w, path, denyIds, rows);
    KeepFirstAtIsKeepFirst(w.results, path, NewResults(codec, w, path, denyIds)[..rows], path);
  }

  lemma InsertedRowsLag(codec: Codec, w: World, path: Path, denyIds: set<string>, rows: nat)
    requires path in w.files && PathInv(codec, w, path) && CanPull(w, path, denyIds)
    requires rows <= |NewResults(codec, w, path, denyIds)|
    ensures var all := AllResults(codec, w.files[path], w.verdicts);
      var n := Max(StoredOf(w, path), BelowMark(codec, w, path) + rows);
      && n <= |all|
      && Lags(KeepFirst(ResultsOf(w.results, path), NewResults(codec, w, path, denyIds)[..rows]), KeepFirst(map[], all[..n]))
  {
    hide LinesFrom, Lags, ResultsOf, Watermark, KeepFirst, RowsOfLines, SameButLaterAll;
    var file, mark := w.files[path], MarkOf(w, path);
    var all := AllResults(codec, file, w.verdicts);
    var m := BelowMark(codec, w, path);
    SplitAtMark(codec, file, mark, w.verdicts);
    CountIgnoresVerdicts(codec, file[..mark], w.verdicts);
    PrefixLags(codec, LinesFrom(file, mark), denyIds, w.verdicts, rows);
    var mine, theirs := NewResults(codec, w, path, denyIds)[..rows], NewResults(codec, w, path, w.verdicts)[..rows];
    assert theirs == all[m..m + rows];
    KeepFirstLags(ResultsOf(w.results, path), Reference(codec, w, path), mine, theirs);
    OverlapIsIgnored(all, m, StoredOf(w, path), m + rows);
  }

  /** A pull that gets through has inserted every result of the complete lines, and its watermark says so. */
  lemma PullReadsAll(codec: Codec, w: World, path: Path, denyIds: set<string>)
    requires WorldInv(codec, w) && Possible(codec, w, Pull(path, denyIds))
    ensures var after := Apply(codec, w, Pull(path, denyIds));
      && WorldInv(codec, after)
      && StoredOf(after, path) == BelowMark(codec, after, path) == |AllResults(codec, w.files[path], w.verdicts)|
      && Reference(codec, after, path) == OneShot(codec, w.files[path][..MarkOf(after, path)], w.verdicts)
  {
    hide PathInv, NewResults, Inserted, ResultsOf, AllResults, Reference, OneShot, Watermark, BelowMark;
    var rows := |NewResults(codec, w, path, denyIds)|;
    InsertKeeps(codec, w, path, denyIds, rows);
    var inserted := Inserted(codec, w, path, denyIds, rows);
    InsertedAll(codec, w, path, denyIds);
    MarkMoves(codec, inserted, path);
    var after := Marked(inserted, path);
    ReferenceAtMark(codec, after, path);
    forall p | p in after.files && p != path ensures PathInv(codec, after, p) {
      SamePath(codec, inserted, after, p);
    }
  }

  lemma InsertedAll(codec: Codec, w: World, path: Path, denyIds: set<string>)
    requires path in w.files && PathInv(codec, w, path) && CanPull(w, path, denyIds)
    ensures var after := Inserted(codec, w, path, denyIds, |NewResults(codec, w, path, denyIds)|);
      && after.files == w.files && after.marks == w.marks && after.verdicts == w.verdicts
      && StoredOf(after, path) == |AllResults(codec, w.files[path], w.verdicts)|
  {
    hide LinesFrom, Lags, ResultsOf, Watermark, KeepFirst, KeepFirstAt, RowsOfLines;
    var file, mark := w.files[path], MarkOf(w, path);
    SplitAtMark(codec, file, mark, denyIds);
    CountIgnoresVerdicts(codec, file[..mark], denyIds);
    CountIgnoresVerdicts(codec, file, denyIds);
    CountIgnoresVerdicts(codec, file, w.verdicts);
  }

  lemma MarkMoves(codec: Codec, w: World, path: Path)
    requires path in w.files && PathInv(codec, w, path)
    requires StoredOf(w, path) == |AllResults(codec, w.files[path], w.verdicts)|
    ensures var after := Marked(w, path);
      && PathInv(codec, after, path)
      && MarkIsSound(codec, after, path)
      && StoredOf(after, path) == BelowMark(codec, after, path)
  {
    hide LinesFrom, Lags, ResultsOf, Watermark, KeepFirst, RowsOfLines;
    var file := w.files[path];
    SplitAtMark(codec, file, MarkOf(w, path), {});
    CutAtWatermark(file, 0);
    CountIgnoresVerdicts(codec, file, w.verdicts);
  }

  /** A reconciliation brings each readable row up to its reference, and no row past it. */
  lemma RowCatchesUp(codec: Codec, w: World, readable: set<Path>, key: Key)
    requires WorldInv(codec, w) && IgnoresNewline(codec) && key in w.results
    ensures var row := ReconciledTable(codec, w, readable)[key];
      && PathInv(codec, w, key.0)
      && key.1 in Reference(codec, w, key.0)
      && var final := Reference(codec, w, key.0)[key.1];
      && SameButLater(row, final)
      && (key.0 in readable ==> row == final)
      && !RereadRow(codec, Readable(w, readable), key, w.results[key], w.verdicts).Raises?
  {
    hide OneShot, ResultsOf, Watermark, RereadLine, KeepFirst, AllResults, IgnoresNewline;
    var path, id := key.0, key.1;
    assert PathInv(codec, w, path);
    ResultsOfAt(w.results, path, id);
    var row, file := w.results[key], w.files[path];
    var final := Reference(codec, w, path)[id];
    ReferenceIsOneShot(codec, file, w.verdicts, StoredOf(w, path), id);
    RereadGivesOneShot(codec, file, Watermark(file, 0), w.verdicts, id, row);
    FilledIn(codec, Readable(w, readable), key, row, final, w.verdicts);
  }

  /** A row that lags its final form, and whose line now gives that form's remedy. */
  lemma FilledIn(codec: Codec, files: Files, key: Key, row: ResultRow, final: ResultRow, denyIds: set<string>)
    requires SameButLater(row, final)
    requires key.0 in files ==> RereadLine(codec, files[key.0], row, denyIds) == Remedy(final.denyText)
    requires final.denyText == None || final.isHookDeny || (row.toolUseId.Str? && row.toolUseId.text in denyIds)
    ensures var after := Reconciled(codec, files, key, row, denyIds);
      && SameButLater(after, final)
      && (key.0 in files ==> after == final)
      && !RereadRow(codec, files, key, row, denyIds).Raises?
  {
    hide RereadLine;
  }

  /** A call's first result among some of the rows is its first among all. */
  lemma ReferenceIsOneShot(codec: Codec, file: Bytes, denyIds: set<string>, n: nat, id: Json)
    requires n <= |AllResults(codec, file, denyIds)|
    requires id in KeepFirst(map[], AllResults(codec, file, denyIds)[..n])
    ensures var one := OneShot(codec, file[..Watermark(file, 0)], denyIds);
      id in one && one[id] == KeepFirst(map[], AllResults(codec, file, denyIds)[..n])[id] && one[id].toolUseId == id
  {
    hide LinesFrom, RowsOfLines, Watermark, KeepFirst;
    var all := AllResults(codec, file, denyIds);
    CutAtWatermark(file, 0);
    assert all == all[..n] + all[n..];
    KeepFirstAppend(map[], all[..n], all[n..]);
    KeepFirstIsFirst(KeepFirst(map[], all[..n]), all[n..], id);
    KeepFirstIsFirst(map[], all, id);
    FirstForIsOneOf(all, id);
  }

  lemma ReconcileKeeps(codec: Codec, w: World, readable: set<Path>)
    requires WorldInv(codec, w) && IgnoresNewline(codec)
    ensures WorldInv(codec, Apply(codec, w, Reconcile(readable)))
  {
    hide AllResults, Reference, BelowMark, ResultsOf, Lags, Watermark;
    var after := Apply(codec, w, Reconcile(readable));
    forall p | p in after.files ensures PathInv(codec, after, p) {
      assert PathInv(codec, w, p);
      ReconciledLags(codec, w, readable, p);
      SameReference(codec, w, after, p);
    }
  }

  lemma SameReference(codec: Codec, w: World, after: World, path: Path)
    requires path in w.files && MarkIsSound(codec, w, path) && after == w.(results := after.results)
    ensures MarkIsSound(codec, after, path) && Reference(codec, after, path) == Reference(codec, w, path)
  {
    hide AllResults, Watermark, KeepFirst;
  }

  lemma ReconciledLags(codec: Codec, w: World, readable: set<Path>, path: Path)
    requires WorldInv(codec, w) && IgnoresNewline(codec) && path in w.files && PathInv(codec, w, path)
    ensures Lags(ResultsOf(ReconciledTable(codec, w, readable), path), Reference(codec, w, path))
  {
    hide Reference, ResultsOf, SameButLater, RereadRow, Reconciled, WorldInv, AllResults, Watermark, BelowMark, IgnoresNewline;
    var after := ReconciledTable(codec, w, readable);
    forall id
      ensures id in ResultsOf(after, path) <==> id in ResultsOf(w.results, path)
      ensures id in ResultsOf(after, path) ==> SameButLater(ResultsOf(after, path)[id], Reference(codec, w, path)[id])
    {
      ResultsOfAt(w.results, path, id);
      ResultsOfAt(after, path, id);
      if (path, id) in w.results {
        RowCatchesUp(codec, w, readable, (path, id));
      }
    }
  }

  /** Every reachable state: the right rows, with only late remedies missing. */
  lemma {:induction false} RunKeepsInv(codec: Codec, events: seq<Event>, worlds: seq<World>, n: nat)
    requires IsRun(codec, events, worlds) && IgnoresNewline(codec) && n < |worlds|
    ensures WorldInv(codec, worlds[n])
  {
    hide Apply, PathInv, Reconciled, KeepFirst;
    if n == 0 {
      forall path | path in worlds[0].files ensures PathInv(codec, worlds[0], path) {
        NothingStored(codec, worlds[0], path);
      }
    } else {
      RunKeepsInv(codec, events, worlds, n - 1);
      EventKeepsInv(codec, worlds[n - 1], events[n - 1]);
    }
  }

  lemma EventKeepsInv(codec: Codec, w: World, e: Event)
    requires WorldInv(codec, w) && Possible(codec, w, e) && IgnoresNewline(codec)
    ensures WorldInv(codec, Apply(codec, w, e))
  {
    hide WorldInv, ReconciledTable, Inserted, Marked, NewResults, IgnoresNewline;
    match e {
      case Append(path, longer) => AppendKeeps(codec, w, path, longer);
      case VerdictLands(id) => VerdictKeeps(codec, w, id);
      case Pull(path, denyIds) => PullReadsAll(codec, w, path, denyIds);
      case BrokenPull(path, denyIds, rows) => InsertKeeps(codec, w, path, denyIds, rows);
      case Reconcile(readable) => ReconcileKeeps(codec, w, readable);
    }
  }

  /**
   Confluence. After any run, a reconciliation that can read every transcript leaves each
   transcript's result rows equal to those of one pull, with every verdict, of the rows
   inserted so far: all those below its watermark, and past it what a broken-off pull left.
   It cannot raise, and repeating it changes nothing.
   */
  lemma FinalReconcileIsConfluent(codec: Codec, events: seq<Event>, worlds: seq<World>)
    requires IsRun(codec, events, worlds) && IgnoresNewline(codec)
    ensures var w := worlds[|events|];
      var final := Apply(codec, w, Reconcile(w.files.Keys));
      && !AnyRaises(codec, Readable(w, w.files.Keys), w.verdicts, w.results, Candidates(w.results, w.verdicts))
      && (forall path | path in w.files ::
            && MarkIsSound(codec, w, path)
            && ResultsOf(final.results, path) == Reference(codec, w, path)
            && (StoredOf(w, path) == BelowMark(codec, w, path) ==>
                  ResultsOf(final.results, path) == OneShot(codec, w.files[path][..MarkOf(w, path)], w.verdicts)))
      && Apply(codec, final, Reconcile(w.files.Keys)) == final
  {
    hide ResultsOf, OneShot, RereadRow, Reconciled, Watermark, AllResults, KeepFirst, Lags;
    var w := worlds[|events|];
    var all := w.files.Keys;
    RunKeepsInv(codec, events, worlds, |events|);
    var final := Apply(codec, w, Reconcile(all));
    forall key | key in w.results ensures !RereadRow(codec, Readable(w, all), key, w.results[key], w.verdicts).Raises? {
      RowCatchesUp(codec, w, all, key);
    }
    forall path | path in w.files
      ensures MarkIsSound(codec, w, path) && ResultsOf(final.results, path) == Reference(codec, w, path)
      ensures StoredOf(w, path) == BelowMark(codec, w, path) ==>
                Reference(codec, w, path) == OneShot(codec, w.files[path][..MarkOf(w, path)], w.verdicts)
    {
      assert PathInv(codec, w, path);
      PathCatchesUp(codec, w, path);
      if StoredOf(w, path) == BelowMark(codec, w, path) {
        ReferenceAtMark(codec, w, path);
      }
    }
    ReconcileKeeps(codec, w, all);
    forall key | key in final.results ensures ReconciledTable(codec, final, all)[key] == final.results[key] {
      RowCatchesUp(codec, w, all, key);
      RowCatchesUp(codec, final, all, key);
    }
  }

  lemma PathCatchesUp(codec: Codec, w: World, path: Path)
    requires WorldInv(codec, w) && IgnoresNewline(codec) && path in w.files && PathInv(codec, w, path)
    ensures ResultsOf(ReconciledTable(codec, w, w.files.Keys), path) == Reference(codec, w, path)
  {
    hide ResultsOf, RereadRow, Reconciled, Watermark, AllResults, KeepFirst, SameButLater;
    var after := ReconciledTable(codec, w, w.files.Keys);
    forall id
      ensures id in ResultsOf(after, path) <==> id in Reference(codec, w, path)
      ensures id in ResultsOf(after, path) ==> ResultsOf(after, path)[id] == Reference(codec, w, path)[id]
    {
      ResultsOfAt(w.results, path, id);
      ResultsOfAt(after, path, id);
      if (path, id) in w.results {
        RowCatchesUp(codec, w, w.files.Keys, (path, id));
      }
    }
  }

  /** With nothing inserted past the watermark, the reference is one pull of the bytes below it. */
  lemma ReferenceAtMark(codec: Codec, w: World, path: Path)
    requires path in w.files && MarkIsSound(codec, w, path) && StoredOf(w, path) == BelowMark(codec, w, path)
    ensures Reference(codec, w, path) == OneShot(codec, w.files[path][..MarkOf(w, path)], w.verdicts)
  {
    hide LinesFrom, RowsOfLines, Watermark, KeepFirst;
    SplitAtMark(codec, w.files[path], MarkOf(w, path), w.verdicts);
    CountIgnoresVerdicts(codec, w.files[path][..MarkOf(w, path)], w.verdicts);
  }

  /** No event ever changes whether a stored row was a deny by its own opening words. */
  lemma DenyFlagNeverChanges(codec: Codec, w: World, e: Event, key: Key)
    requires Possible(codec, w, e) && key in w.results
    ensures var after := Apply(codec, w, e);
      && key in after.results
      && after.results[key].isHookDeny == w.results[key].isHookDeny
      && (w.results[key].denyText != None ==> after.results[key] == w.results[key])
  {
    hide RereadRow, NewResults;
    match e {
      case Pull(path, denyIds) =>
        var rows := NewResults(codec, w, path, denyIds);
        KeptRowsStay(w.results, path, rows[..|rows|], key);
      case BrokenPull(path, denyIds, n) => KeptRowsStay(w.results, path, NewResults(codec, w, path, denyIds)[..n], key);
      case _ =>
    }
  }

  lemma {:induction false} KeptRowsStay(results: map<Key, ResultRow>, path: Path, rows: seq<ResultRow>, key: Key)
    requires key in results
    ensures key in KeepFirstAt(results, path, rows) && KeepFirstAt(results, path, rows)[key] == results[key]
  {
    if rows != [] {
      KeptRowsStay(results, path, rows[..|rows| - 1], key);
    }
  }
}
