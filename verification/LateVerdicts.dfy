/**
 atlas/ingest/subagent_pull.py, `reconcile_deny_text`: results pulled before
 their verdict landed get their remedy later. Both pulls store results the same
 way, so this serves both.
 */
module LateVerdicts {
  import opened Sequences
  import opened Wrappers
  import opened Transcript
  import opened TranscriptStore

  type Path = string

  type Results = map<Json, ResultRow>

  /** What a transcript has stored: how far it was read, and its result rows. */
  datatype Late = Late(mark: nat, results: Results)

  // ---- the reconciliation --------------------------------------------------

  /** The ledger now calls this row a deny, and it has no remedy yet. */
  predicate IsCandidate(row: ResultRow, denyIds: set<string>)
  {
    row.denyText == None && !row.isHookDeny && row.toolUseId.Str? && row.toolUseId.text in denyIds
  }

  /** `fh.seek(offset); fh.readline()`: the bytes up to and including the next newline. */
  function ReadLineAt(file: Bytes, offset: nat): Bytes
  {
    if offset > |file| then []
    else
      var end := IndexFrom(file, NEWLINE, offset);
      if end < |file| then file[offset..end + 1] else file[offset..]
  }

  /** The first result of the line for this call, if the line still maps. */
  function FirstFor(results: seq<ResultRow>, id: Json): Option<ResultRow>
  {
    if results == [] then None
    else if results[0].toolUseId == id then Some(results[0])
    else FirstFor(results[1..], id)
  }

  /** Re-reading a row's source line: no file or no JSON there, an exception, or the remedy it now gives. */
  datatype Reread = Unreadable | Raises | Remedy(text: Option<string>)

  function RereadLine(codec: Codec, file: Bytes, row: ResultRow, denyIds: set<string>): Reread
  {
    if codec.breaks(ReadLineAt(file, row.byteOffset)) then Raises
    else match codec.loads(ReadLineAt(file, row.byteOffset))
    case None => Unreadable
    case Some(Object(fields)) =>
      (match MapTranscriptLine(codec, fields, row.byteOffset, denyIds)
       case Rows(rows) =>
         (match FirstFor(rows.results, row.toolUseId)
          case Some(found) => Remedy(found.denyText)
          case None => Remedy(None))
       case _ => Raises)
    case _ => Raises
  }

  type Files = map<Path, Bytes>

  type Key = (Path, Json)

  function RereadRow(codec: Codec, files: Files, key: Key, row: ResultRow, denyIds: set<string>): Reread
  {
    if key.0 in files then RereadLine(codec, files[key.0], row, denyIds) else Unreadable
  }

  /** The row after reconciliation: filled if it lacked a remedy that its line now gives. */
  function Reconciled(codec: Codec, files: Files, key: Key, row: ResultRow, denyIds: set<string>): ResultRow
  {
    var reread := RereadRow(codec, files, key, row, denyIds);
    if IsCandidate(row, denyIds) && reread.Remedy? then row.(denyText := reread.text) else row
  }

  datatype Summary = Summary(checked: nat, updated: nat, unreadable: nat)

  ghost predicate AllReconciledBut(codec: Codec, files: Files, denyIds: set<string>,
                                   before: map<Key, ResultRow>, after: map<Key, ResultRow>, todo: set<Key>)
  {
    && after.Keys == before.Keys
    && forall key | key in before ::
         after[key] == if key in todo then before[key] else Reconciled(codec, files, key, before[key], denyIds)
  }

  function Candidates(results: map<Key, ResultRow>, denyIds: set<string>): set<Key>
  {
    set key | key in results && IsCandidate(results[key], denyIds)
  }

  function Changed(before: map<Key, ResultRow>, after: map<Key, ResultRow>): set<Key>
  {
    set key | key in before && key in after && before[key] != after[key]
  }

  function UnreadableIn(codec: Codec, files: Files, denyIds: set<string>, rows: map<Key, ResultRow>, keys: set<Key>): set<Key>
  {
    set key | key in keys && key in rows && RereadRow(codec, files, key, rows[key], denyIds).Unreadable?
  }

  ghost predicate AnyRaises(codec: Codec, files: Files, denyIds: set<string>, rows: map<Key, ResultRow>, keys: set<Key>)
  {
    exists key :: key in keys && key in rows && RereadRow(codec, files, key, rows[key], denyIds).Raises?
  }

  class ResultTable {
    var results: map<Key, ResultRow>

    /** Candidate rows in whatever order the query gives them. */
    method ReconcileDenyText(codec: Codec, files: Files, denyIds: set<string>) returns (ok: bool, summary: Summary)
      modifies this
      ensures ok <==> !AnyRaises(codec, files, denyIds, old(results), Candidates(old(results), denyIds))
      ensures ok ==>
        && AllReconciledBut(codec, files, denyIds, old(results), results, {})
        && summary == Summary(
             |Candidates(old(results), denyIds)|,
             |Changed(old(results), results)|,
             |UnreadableIn(codec, files, denyIds, old(results), Candidates(old(results), denyIds))|)
    {
      hide RereadRow, IsCandidate, AllReconciledBut, Changed, UnreadableIn;
      ghost var before := results;
      var candidates := Candidates(results, denyIds);
      summary := Summary(|candidates|, 0, 0);
      var todo := candidates;
      StartReconciling(codec, files, denyIds, before);
      assert candidates - todo == {};
      while todo != {}
        invariant todo <= candidates
        invariant AllReconciledBut(codec, files, denyIds, before, results, todo)
        invariant summary.checked == |candidates|
        invariant summary.updated == |Changed(before, results)|
        invariant summary.unreadable == |UnreadableIn(codec, files, denyIds, before, candidates - todo)|
        invariant !AnyRaises(codec, files, denyIds, before, candidates - todo)
      {
        var key :| key in todo;
        OneMoreReconciled(codec, files, denyIds, before, results, todo, key);
        OneMoreChanged(codec, files, denyIds, before, results, key);
        OneMoreReread(codec, files, denyIds, before, candidates - todo, key);
        var reread := ReconcileRow(codec, files, denyIds, key);
        if reread.Raises? {
          return false, summary;
        }
        assert candidates - (todo - {key}) == candidates - todo + {key};
        todo := todo - {key};
        if reread.Unreadable? {
          summary := summary.(unreadable := summary.unreadable + 1);
        } else if reread.text != None {
          summary := summary.(updated := summary.updated + 1);
        }
      }
      assert candidates - todo == candidates;
      ok := true;
    }

    /** The UPDATE touches only its own row, and only while its remedy is missing. */
    method ReconcileRow(codec: Codec, files: Files, denyIds: set<string>, key: Key) returns (reread: Reread)
      requires key in results && IsCandidate(results[key], denyIds)
      modifies this
      ensures reread == RereadRow(codec, files, key, old(results)[key], denyIds)
      ensures results == old(results)[key := Reconciled(codec, files, key, old(results)[key], denyIds)]
    {
      var row := results[key];
      reread := RereadRow(codec, files, key, row, denyIds);
      if reread.Remedy? && reread.text != None {
        results := results[key := row.(denyText := reread.text)];
      }
      assert row.denyText == None;
    }
  }

  lemma StartReconciling(codec: Codec, files: Files, denyIds: set<string>, before: map<Key, ResultRow>)
    ensures AllReconciledBut(codec, files, denyIds, before, before, Candidates(before, denyIds))
    ensures Changed(before, before) == {}
    ensures UnreadableIn(codec, files, denyIds, before, {}) == {}
    ensures forall key | key in Candidates(before, denyIds) :: key in before && IsCandidate(before[key], denyIds)
  {
  }

  lemma OneMoreReconciled(codec: Codec, files: Files, denyIds: set<string>,
                          before: map<Key, ResultRow>, now: map<Key, ResultRow>, todo: set<Key>, key: Key)
    requires AllReconciledBut(codec, files, denyIds, before, now, todo)
    requires todo <= Candidates(before, denyIds) && key in todo
    ensures key in now && now[key] == before[key] && IsCandidate(now[key], denyIds)
    ensures AllReconciledBut(codec, files, denyIds, before,
                             now[key := Reconciled(codec, files, key, now[key], denyIds)], todo - {key})
  {
  }

  lemma OneMoreChanged(codec: Codec, files: Files, denyIds: set<string>,
                       before: map<Key, ResultRow>, now: map<Key, ResultRow>, key: Key)
    requires key in before && key in now && now[key] == before[key] && IsCandidate(now[key], denyIds)
    ensures var reread := RereadRow(codec, files, key, before[key], denyIds);
      |Changed(before, now[key := Reconciled(codec, files, key, now[key], denyIds)])| ==
      |Changed(before, now)| + (if reread.Remedy? && reread.text != None then 1 else 0)
  {
    hide RereadRow;
    var reread := RereadRow(codec, files, key, before[key], denyIds);
    var after := now[key := Reconciled(codec, files, key, now[key], denyIds)];
    assert Changed(before, after) == Changed(before, now) + if reread.Remedy? && reread.text != None then {key} else {};
  }

  lemma OneMoreReread(codec: Codec, files: Files, denyIds: set<string>,
                      before: map<Key, ResultRow>, done: set<Key>, key: Key)
    requires key in before && key !in done
    ensures var reread := RereadRow(codec, files, key, before[key], denyIds);
      && |UnreadableIn(codec, files, denyIds, before, done + {key})| ==
         |UnreadableIn(codec, files, denyIds, before, done)| + (if reread.Unreadable? then 1 else 0)
      && (AnyRaises(codec, files, denyIds, before, done + {key}) <==>
          AnyRaises(codec, files, denyIds, before, done) || reread.Raises?)
  {
    hide RereadRow;
    var reread := RereadRow(codec, files, key, before[key], denyIds);
    assert UnreadableIn(codec, files, denyIds, before, done + {key}) ==
           UnreadableIn(codec, files, denyIds, before, done) + if reread.Unreadable? then {key} else {};
  }

  /**
   A row whose source cannot be read now is left as it was and stays a candidate, so
   the next reconciliation tries it again.
   */
  lemma UnreadableIsTriedAgain(codec: Codec, files: Files, key: Key, row: ResultRow, denyIds: set<string>)
    requires IsCandidate(row, denyIds) && RereadRow(codec, files, key, row, denyIds).Unreadable?
    ensures IsCandidate(Reconciled(codec, files, key, row, denyIds), denyIds)
  {
  }

  // ---- the one-shot reference ----------------------------------------------

  /** What one pull of these bytes, knowing all these verdicts, would have stored. */
  function OneShot(codec: Codec, done: Bytes, denyIds: set<string>): Results
  {
    KeepFirst(map[], RowsOfLines(codec, LinesFrom(done, 0), denyIds).results)
  }

  /** Same rows, except that the earlier set may lack remedies the later one has. */
  ghost predicate Lags(early: Results, late: Results)
  {
    early.Keys == late.Keys && forall id | id in early :: SameButLater(early[id], late[id])
  }

  lemma LagsTransitive(a: Results, b: Results, c: Results)
    requires Lags(a, b) && Lags(b, c)
    ensures Lags(a, c)
  {
  }

  lemma {:induction false} KeepFirstLags(a: Results, b: Results, x: seq<ResultRow>, y: seq<ResultRow>)
    requires Lags(a, b) && SameButLaterAll(x, y)
    ensures Lags(KeepFirst(a, x), KeepFirst(b, y))
  {
    hide SameButLater;
    if x != [] {
      var last := |x| - 1;
      assert SameButLater(x[last], y[last]);
      KeepFirstLags(a, b, x[..last], y[..last]);
      OneMoreLags(KeepFirst(a, x[..last]), KeepFirst(b, y[..last]), x[last], y[last]);
    }
  }

  lemma OneMoreLags(a: Results, b: Results, x: ResultRow, y: ResultRow)
    requires Lags(a, b) && SameButLater(x, y)
    ensures x.toolUseId == y.toolUseId && Lags(a[x.toolUseId := x], b[y.toolUseId := y])
  {
  }

  lemma SameButLaterAppend(a: seq<ResultRow>, b: seq<ResultRow>, x: seq<ResultRow>, y: seq<ResultRow>)
    requires SameButLaterAll(a, b) && SameButLaterAll(x, y)
    ensures SameButLaterAll(a + x, b + y)
  {
  }

  lemma {:induction false} RowsLag(codec: Codec, lines: seq<Line>, early: set<string>, late: set<string>)
    requires early <= late
    ensures SameButLaterAll(RowsOfLines(codec, lines, early).results, RowsOfLines(codec, lines, late).results)
  {
    hide RowsOfLine, SameButLaterAll;
    if lines == [] {
      SameNothing();
    } else {
      var last := |lines| - 1;
      RowsLag(codec, lines[..last], early, late);
      LineLags(codec, lines[last], early, late);
      SameButLaterAppend(RowsOfLines(codec, lines[..last], early).results,
                         RowsOfLines(codec, lines[..last], late).results,
                         RowsOfLine(codec, lines[last], early).results,
                         RowsOfLine(codec, lines[last], late).results);
    }
  }

  lemma SameNothing()
    ensures SameButLaterAll([], [])
  {
  }

  lemma LineLags(codec: Codec, line: Line, early: set<string>, late: set<string>)
    requires early <= late
    ensures SameButLaterAll(RowsOfLine(codec, line, early).results, RowsOfLine(codec, line, late).results)
  {
    hide MapBlocks;
    var loaded := codec.loads(line.text);
    if loaded.Some? && loaded.value.Object? {
      var message := Get(loaded.value.fields, "message");
      if message.Object? {
        var content := Get(message.fields, "content");
        if content.Array? {
          VerdictsOnlyAddRemedies(codec, loaded.value.fields, line.offset, content.items, early, late);
        }
      }
    }
  }

  // ---- where a stored result came from -------------------------------------

  lemma {:induction false} FirstForAppend(a: seq<ResultRow>, b: seq<ResultRow>, id: Json)
    ensures FirstFor(a + b, id) == if FirstFor(a, id).Some? then FirstFor(a, id) else FirstFor(b, id)
  {
    if a == [] {
      assert a + b == b;
    } else {
      assert (a + b)[1..] == a[1..] + b;
      FirstForAppend(a[1..], b, id);
    }
  }

  lemma {:induction false} KeepFirstIsFirst(results: Results, rows: seq<ResultRow>, id: Json)
    ensures var kept := KeepFirst(results, rows);
      && (id in kept <==> id in results || FirstFor(rows, id).Some?)
      && (id in kept ==> kept[id] == if id in results then results[id] else FirstFor(rows, id).value)
  {
    if rows != [] {
      var last := |rows| - 1;
      KeepFirstIsFirst(results, rows[..last], id);
      FirstForAppend(rows[..last], [rows[last]], id);
      assert rows == rows[..last] + [rows[last]];
    }
  }

  /** The first result for a call comes from one line, and is the first for it on that line. */
  lemma {:induction false} FirstComesFromALine(codec: Codec, lines: seq<Line>, denyIds: set<string>, id: Json)
    requires FirstFor(RowsOfLines(codec, lines, denyIds).results, id).Some?
    ensures exists line | line in lines ::
              FirstFor(RowsOfLine(codec, line, denyIds).results, id) == FirstFor(RowsOfLines(codec, lines, denyIds).results, id)
  {
    hide RowsOfLine;
    if lines != [] {
      var last := |lines| - 1;
      var before := RowsOfLines(codec, lines[..last], denyIds).results;
      FirstForAppend(before, RowsOfLine(codec, lines[last], denyIds).results, id);
      if FirstFor(before, id).Some? {
        FirstComesFromALine(codec, lines[..last], denyIds, id);
      } else {
        assert lines[last] in lines;
      }
    }
  }

  /** A trailing newline means nothing to the decoder. */
  ghost predicate IgnoresNewline(codec: Codec)
  {
    forall text :: codec.loads(text + [NEWLINE]) == codec.loads(text) && codec.breaks(text + [NEWLINE]) == codec.breaks(text)
  }

  /** Seeking to a line's offset and reading one line gives that line back. */
  lemma ReadsTheLineBack(file: Bytes, mark: nat, line: Line)
    requires mark <= |file| && line in LinesFrom(file[..mark], 0)
    ensures ReadLineAt(file, line.offset) == line.text + [NEWLINE]
  {
    hide LinesFrom;
    LinesAreWhereTheySay(file[..mark], 0);
    var end := line.offset + |line.text|;
    assert forall k | line.offset <= k < end :: file[k] == line.text[k - line.offset];
    IndexFromIs(file, line.offset, end);
    assert file[line.offset..end + 1] == line.text + [NEWLINE];
  }

  lemma {:induction false} FirstForIsOneOf(rows: seq<ResultRow>, id: Json)
    requires FirstFor(rows, id).Some?
    ensures FirstFor(rows, id).value in rows && FirstFor(rows, id).value.toolUseId == id
  {
    if rows[0].toolUseId != id {
      FirstForIsOneOf(rows[1..], id);
    }
  }

  /** A remedy is justified by the prefix or by the ledger. */
  ghost predicate Justified(rows: seq<ResultRow>, byteOffset: nat, denyIds: set<string>)
  {
    forall i | 0 <= i < |rows| ::
      && rows[i].byteOffset == byteOffset
      && (rows[i].denyText == None || rows[i].isHookDeny
          || (rows[i].toolUseId.Str? && rows[i].toolUseId.text in denyIds))
  }

  lemma {:induction false} RemediesAreJustified(codec: Codec, obj: map<string, Json>, byteOffset: nat,
                                                denyIds: set<string>, content: seq<Json>)
    ensures var mapped := MapBlocks(codec, obj, byteOffset, denyIds, content);
      mapped.Rows? ==> Justified(mapped.rows.results, byteOffset, denyIds)
  {
    hide ExtractDenyText, StripLeft, Cap;
    if content != [] {
      RemediesAreJustified(codec, obj, byteOffset, denyIds, content[..|content| - 1]);
    }
  }

  lemma LineRemediesAreJustified(codec: Codec, line: Line, denyIds: set<string>)
    ensures Justified(RowsOfLine(codec, line, denyIds).results, line.offset, denyIds)
  {
    hide MapBlocks;
    var loaded := codec.loads(line.text);
    if loaded.Some? && loaded.value.Object? {
      var message := Get(loaded.value.fields, "message");
      if message.Object? {
        var content := Get(message.fields, "content");
        if content.Array? {
          RemediesAreJustified(codec, loaded.value.fields, line.offset, denyIds, content.items);
        }
      }
    }
  }

  /** The one-shot row of a call, and what re-reading its line gives. */
  lemma RereadGivesOneShot(codec: Codec, file: Bytes, mark: nat, denyIds: set<string>, id: Json, row: ResultRow)
    requires IgnoresNewline(codec) && mark <= |file|
    requires var one := OneShot(codec, file[..mark], denyIds);
      id in one && row.toolUseId == id && row.byteOffset == one[id].byteOffset
    ensures var final := OneShot(codec, file[..mark], denyIds)[id];
      && RereadLine(codec, file, row, denyIds) == Remedy(final.denyText)
      && final.toolUseId == id
      && (final.denyText == None || final.isHookDeny || (id.Str? && id.text in denyIds))
  {
    hide LinesFrom, RowsOfLines, MapTranscriptLine, ReadLineAt;
    var lines := LinesFrom(file[..mark], 0);
    var all := RowsOfLines(codec, lines, denyIds).results;
    KeepFirstIsFirst(map[], all, id);
    FirstComesFromALine(codec, lines, denyIds, id);
    var line :| line in lines && FirstFor(RowsOfLine(codec, line, denyIds).results, id) == FirstFor(all, id);
    LineRemediesAreJustified(codec, line, denyIds);
    FirstForIsOneOf(RowsOfLine(codec, line, denyIds).results, id);
    ReadsTheLineBack(file, mark, line);
    assert codec.loads(line.text + [NEWLINE]) == codec.loads(line.text);
  }
}
