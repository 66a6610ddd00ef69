/**
 The tables one main-session transcript owns, and what reading its lines in
 order stores in them (atlas/ingest/session_pull.py, `_is_replay` and the loop
 of `pull_session`).
 */
module TranscriptStore {
  import opened Sequences
  import opened Wrappers
  import opened Transcript

  /** (byte_offset, block_index), unique within one transcript. */
  type RowKey = (nat, nat)

  datatype StoredRow<+R> = StoredRow(recordUuid: Json, content: R)

  type Table<R> = map<RowKey, StoredRow<R>>

  datatype FileTables = FileTables(
    streamId: Bytes,
    byteOffset: nat,
    callsIngested: nat,
    texts: Table<TextRow>,
    calls: Table<CallRow>,
    blocks: Table<BlockRow>,
    results: map<Json, ResultRow>)

  // ---- deduplication -------------------------------------------------------

  function KeyOf<R>(c: Candidate<R>): RowKey
  {
    (c.byteOffset, c.blockIndex)
  }

  /** A stored row of the same record and position. */
  predicate Matches<R>(table: Table<R>, key: RowKey, c: Candidate<R>)
  {
    key in table && key.1 == c.blockIndex && table[key].recordUuid == c.recordUuid
  }

  datatype Dedup = Fresh | Replayed | Alarm | Collision | Refused

  /**
   `_is_replay`, then the INSERT with its own unique key. A record without a uuid is never a
   replay; a uuid that cannot be bound fails the lookup, a replay is not inserted at all.
   */
  function Check<R>(table: Table<R>, c: Candidate<R>): Dedup
  {
    if !Bindable(c.recordUuid) then Refused
    else if c.recordUuid != Null && exists key :: key in table && Matches(table, key, c) && key.0 == c.byteOffset then Alarm
    else if c.recordUuid != Null && exists key :: key in table && Matches(table, key, c) then Replayed
    else if !c.inSession then Refused
    else if KeyOf(c) in table then Collision
    else Fresh
  }

  function Admit<R>(table: Table<R>, c: Candidate<R>): Table<R>
  {
    if Check(table, c).Fresh? then table[KeyOf(c) := StoredRow(c.recordUuid, c.content)] else table
  }

  function AdmitAll<R>(table: Table<R>, rows: seq<Candidate<R>>): Table<R>
  {
    if rows == [] then table
    else
      var last := |rows| - 1;
      Admit(AdmitAll(table, rows[..last]), rows[last])
  }

  /** Some row raises when it is its turn. */
  predicate Raises<R>(table: Table<R>, rows: seq<Candidate<R>>)
  {
    if rows == [] then false
    else
      var last := |rows| - 1;
      Raises(table, rows[..last])
      || Check(AdmitAll(table, rows[..last]), rows[last]) in {Alarm, Collision, Refused}
  }

  /** How many rows an insertion pass added. */
  function AdmittedCount<R>(table: Table<R>, rows: seq<Candidate<R>>): nat
  {
    if rows == [] then 0
    else
      var last := |rows| - 1;
      AdmittedCount(table, rows[..last])
      + if Check(AdmitAll(table, rows[..last]), rows[last]).Fresh? then 1 else 0
  }

  /** INSERT OR IGNORE: the first result of a call is the one kept. */
  function KeepFirst(results: map<Json, ResultRow>, rows: seq<ResultRow>): map<Json, ResultRow>
  {
    if rows == [] then results
    else
      var last := |rows| - 1;
      var before := KeepFirst(results, rows[..last]);
      if rows[last].toolUseId in before then before else before[rows[last].toolUseId := rows[last]]
  }

  // ---- lines ---------------------------------------------------------------

  /** What a line gives the loop: rows, nothing, one more malformed line, or an uncaught exception. */
  datatype Reading = Good(rows: LineRows) | Blank | Malformed | Uncaught

  function ReadLine(codec: Codec, line: Line, denyIds: set<string>): Reading
  {
    if IsBlank(line.text) then Blank
    else if codec.breaks(line.text) then Uncaught
    else match codec.loads(line.text)
      case Some(Object(fields)) =>
        (match MapTranscriptLine(codec, fields, line.offset, denyIds)
         case Rows(rows) => Good(rows)
         case ShapeError => Malformed
         case EncodeError => Uncaught)
      case _ => Malformed
  }

  function RowsOfLine(codec: Codec, line: Line, denyIds: set<string>): LineRows
  {
    var reading := ReadLine(codec, line, denyIds);
    if reading.Good? then reading.rows else NO_ROWS
  }

  function Concat(a: LineRows, b: LineRows): LineRows
  {
    LineRows(a.calls + b.calls, a.results + b.results, a.texts + b.texts, a.blocks + b.blocks)
  }

  /** Every row the lines give, in file order. */
  function RowsOfLines(codec: Codec, lines: seq<Line>, denyIds: set<string>): LineRows
  {
    if lines == [] then NO_ROWS
    else
      var last := |lines| - 1;
      Concat(RowsOfLines(codec, lines[..last], denyIds), RowsOfLine(codec, lines[last], denyIds))
  }

  predicate AnyUncaught(codec: Codec, lines: seq<Line>, denyIds: set<string>)
  {
    exists i | 0 <= i < |lines| :: ReadLine(codec, lines[i], denyIds).Uncaught?
  }

  function StoreRows(t: FileTables, rows: LineRows): FileTables
  {
    t.(texts := AdmitAll(t.texts, rows.texts),
       calls := AdmitAll(t.calls, rows.calls),
       results := KeepFirst(t.results, rows.results),
       blocks := AdmitAll(t.blocks, rows.blocks))
  }

  predicate ResultsRaise(rows: seq<ResultRow>)
  {
    exists i | 0 <= i < |rows| :: !rows[i].binds
  }

  predicate RowsRaise(t: FileTables, rows: LineRows)
  {
    || Raises(t.texts, rows.texts) || Raises(t.calls, rows.calls) || ResultsRaise(rows.results)
    || Raises(t.blocks, rows.blocks)
  }

  // ---- order ---------------------------------------------------------------

  predicate Before(a: RowKey, b: RowKey)
  {
    a.0 < b.0 || (a.0 == b.0 && a.1 < b.1)
  }

  /** Rows come in strictly increasing (offset, index) order, below the given offset. */
  ghost predicate InOrder<R>(rows: seq<Candidate<R>>, from: nat, mark: nat)
  {
    && (forall i | 0 <= i < |rows| :: from <= rows[i].byteOffset < mark)
    && (forall i, j | 0 <= i < j < |rows| :: Before(KeyOf(rows[i]), KeyOf(rows[j])))
  }

  ghost predicate AllBefore<R>(rows: seq<Candidate<R>>, c: Candidate<R>)
  {
    forall i | 0 <= i < |rows| :: Before(KeyOf(rows[i]), KeyOf(c))
  }

  lemma LastComesAfter<R>(rows: seq<Candidate<R>>, from: nat, mark: nat)
    requires InOrder(rows, from, mark) && rows != []
    ensures var init := rows[..|rows| - 1];
      InOrder(init, from, mark) && AllBefore(init, rows[|rows| - 1]) && rows == init + [rows[|rows| - 1]]
  {
  }

  ghost predicate AllInOrder(rows: LineRows, from: nat, mark: nat)
  {
    InOrder(rows.texts, from, mark) && InOrder(rows.calls, from, mark) && InOrder(rows.blocks, from, mark)
  }

  lemma InOrderAppend<R>(a: seq<Candidate<R>>, from: nat, middle: nat, b: seq<Candidate<R>>, mark: nat)
    requires InOrder(a, from, middle) && InOrder(b, middle, mark) && from <= middle <= mark
    ensures InOrder(a + b, from, mark)
  {
  }

  lemma {:induction false} RowsAreInOrder(codec: Codec, lines: seq<Line>, denyIds: set<string>, from: nat, mark: nat)
    requires Ordered(lines, from, mark) && from <= mark
    ensures AllInOrder(RowsOfLines(codec, lines, denyIds), from, mark)
  {
    hide ReadLine, MapTranscriptLine;
    if lines != [] {
      var last := |lines| - 1;
      var line := lines[last];
      RowsAreInOrder(codec, lines[..last], denyIds, from, line.offset);
      LineIsInOrder(codec, line, denyIds);
      var before, own := RowsOfLines(codec, lines[..last], denyIds), RowsOfLine(codec, line, denyIds);
      InOrderAppend(before.texts, from, line.offset, own.texts, mark);
      InOrderAppend(before.calls, from, line.offset, own.calls, mark);
      InOrderAppend(before.blocks, from, line.offset, own.blocks, mark);
    }
  }

  lemma LineIsInOrder(codec: Codec, line: Line, denyIds: set<string>)
    ensures AllInOrder(RowsOfLine(codec, line, denyIds), line.offset, line.offset + 1)
  {
    hide MapTranscriptLine;
    var loaded := codec.loads(line.text);
    if loaded.Some? && loaded.value.Object? {
      LineRowsArePlaced(codec, loaded.value.fields, line.offset, denyIds);
    }
  }

  // ---- first occurrences ---------------------------------------------------

  /** An earlier row of the same record and position. */
  ghost predicate SeenBefore<R>(rows: seq<Candidate<R>>, i: nat)
    requires i < |rows|
  {
    rows[i].recordUuid != Null &&
    exists j :: 0 <= j < i && rows[j].recordUuid == rows[i].recordUuid && rows[j].blockIndex == rows[i].blockIndex
  }

  /** The table holds exactly the first occurrences, and every row without a uuid. */
  ghost predicate HoldsFirstOccurrences<R>(table: Table<R>, rows: seq<Candidate<R>>)
  {
    && (forall i | 0 <= i < |rows| ::
          (KeyOf(rows[i]) in table <==> !SeenBefore(rows, i)) &&
          (!SeenBefore(rows, i) ==> table[KeyOf(rows[i])] == StoredRow(rows[i].recordUuid, rows[i].content)))
    && (forall key | key in table :: exists i :: 0 <= i < |rows| && KeyOf(rows[i]) == key)
  }

  /** Behind every repeat there is a first occurrence, and that one is in the table. */
  lemma {:induction false} RepeatHasStoredFirst<R>(table: Table<R>, rows: seq<Candidate<R>>, c: Candidate<R>, j: nat)
    requires HoldsFirstOccurrences(table, rows) && j < |rows|
    requires rows[j].recordUuid == c.recordUuid != Null && rows[j].blockIndex == c.blockIndex
    ensures exists key :: key in table && Matches(table, key, c)
  {
    if SeenBefore(rows, j) {
      var k :| 0 <= k < j && rows[k].recordUuid == rows[j].recordUuid && rows[k].blockIndex == rows[j].blockIndex;
      RepeatHasStoredFirst(table, rows, c, k);
    } else {
      assert Matches(table, KeyOf(rows[j]), c);
    }
  }

  /** The row fails by itself: its uuid cannot be looked up, or it is no repeat and cannot be inserted. */
  ghost predicate Unstorable<R>(rows: seq<Candidate<R>>, i: nat)
    requires i < |rows|
  {
    !Bindable(rows[i].recordUuid) || (!SeenBefore(rows, i) && !rows[i].inSession)
  }

  ghost predicate AnyUnstorable<R>(rows: seq<Candidate<R>>)
  {
    exists i :: 0 <= i < |rows| && Unstorable(rows, i)
  }

  /**
   In file order the lookup answers exactly whether the record was seen: a row is refused if it
   fails by itself, and never for the alarm or a key.
   */
  lemma CheckIsSeenBefore<R>(table: Table<R>, rows: seq<Candidate<R>>, c: Candidate<R>)
    requires HoldsFirstOccurrences(table, rows)
    requires AllBefore(rows, c)
    ensures Check(table, c) ==
            if Unstorable(rows + [c], |rows|) then Refused
            else if SeenBefore(rows + [c], |rows|) then Replayed
            else Fresh
  {
    var all := rows + [c];
    var n := |rows|;
    assert all[n] == c && forall i | 0 <= i < n :: all[i] == rows[i];
    forall key | key in table && Matches(table, key, c) && c.recordUuid != Null
      ensures SeenBefore(all, n) && key.0 != c.byteOffset
    {
      var i :| 0 <= i < n && KeyOf(rows[i]) == key;
      assert all[i].recordUuid == c.recordUuid && all[i].blockIndex == c.blockIndex;
    }
    if SeenBefore(all, n) {
      var j :| 0 <= j < n && all[j].recordUuid == c.recordUuid && all[j].blockIndex == c.blockIndex;
      RepeatHasStoredFirst(table, rows, c, j);
    }
  }

  lemma SeenInMore<R>(rows: seq<Candidate<R>>, c: Candidate<R>, i: nat)
    requires i < |rows|
    ensures (rows + [c])[i] == rows[i] && (SeenBefore(rows + [c], i) <==> SeenBefore(rows, i))
  {
    assert forall j | 0 <= j < i :: (rows + [c])[j] == rows[j];
  }

  lemma OneMoreOccurrence<R>(table: Table<R>, rows: seq<Candidate<R>>, c: Candidate<R>)
    requires HoldsFirstOccurrences(table, rows)
    requires AllBefore(rows, c) && !Unstorable(rows + [c], |rows|)
    ensures HoldsFirstOccurrences(Admit(table, c), rows + [c])
  {
    hide Check, SeenBefore, Unstorable;
    CheckIsSeenBefore(table, rows, c);
    var all, after := rows + [c], Admit(table, c);
    assert all[|rows|] == c;
    forall i | 0 <= i < |rows|
      ensures all[i] == rows[i] && (SeenBefore(all, i) <==> SeenBefore(rows, i)) && KeyOf(rows[i]) != KeyOf(c)
    {
      SeenInMore(rows, c, i);
    }
    forall key | key in after ensures exists i :: 0 <= i < |all| && KeyOf(all[i]) == key {
      if key in table {
        var i :| 0 <= i < |rows| && KeyOf(rows[i]) == key;
        assert KeyOf(all[i]) == key;
      } else {
        assert KeyOf(all[|rows|]) == key;
      }
    }
  }

  lemma {:induction false} AdmitsFirstOccurrences<R>(rows: seq<Candidate<R>>, from: nat, mark: nat)
    requires InOrder(rows, from, mark)
    ensures Raises(map[], rows) <==> AnyUnstorable(rows)
    ensures !AnyUnstorable(rows) ==> HoldsFirstOccurrences(AdmitAll(map[], rows), rows)
  {
    hide Check, Admit, HoldsFirstOccurrences, SeenBefore, InOrder, AllBefore, AnyUnstorable, Unstorable;
    if rows == [] {
      NoOccurrences<R>();
    } else {
      var last := |rows| - 1;
      var init := rows[..last];
      LastComesAfter(rows, from, mark);
      AdmitsFirstOccurrences(init, from, mark);
      UnstorableOneMore(init, rows[last]);
      if !AnyUnstorable(init) {
        CheckIsSeenBefore(AdmitAll(map[], init), init, rows[last]);
        if !AnyUnstorable(rows) {
          OneMoreOccurrence(AdmitAll(map[], init), init, rows[last]);
        }
      }
    }
  }

  /** Some row of a transcript fails by itself, whatever is stored of those before it. */
  ghost predicate RowsUnstorable(rows: LineRows)
  {
    || AnyUnstorable(rows.texts) || AnyUnstorable(rows.calls) || AnyUnstorable(rows.blocks)
    || exists i :: 0 <= i < |rows.results| && !rows.results[i].binds
  }

  lemma NoOccurrences<R>()
    ensures HoldsFirstOccurrences<R>(map[], []) && !AnyUnstorable<R>([])
  {
  }

  lemma UnstorableOneMore<R>(rows: seq<Candidate<R>>, c: Candidate<R>)
    ensures AnyUnstorable(rows + [c]) <==> AnyUnstorable(rows) || Unstorable(rows + [c], |rows|)
  {
    hide SeenBefore;
    forall i | 0 <= i < |rows| ensures Unstorable(rows + [c], i) <==> Unstorable(rows, i) {
      SeenInMore(rows, c, i);
    }
  }

  /** What comes later does not mend a row. */
  lemma {:induction false} UnstorableStays<R>(a: seq<Candidate<R>>, b: seq<Candidate<R>>)
    requires AnyUnstorable(a)
    ensures AnyUnstorable(a + b)
  {
    hide AnyUnstorable, Unstorable;
    if b == [] {
      assert a + b == a;
    } else {
      var last := |b| - 1;
      UnstorableStays(a, b[..last]);
      UnstorableOneMore(a + b[..last], b[last]);
      assert a + b == a + b[..last] + [b[last]];
    }
  }

  // ---- appending -----------------------------------------------------------

  lemma {:induction false} AdmitAllAppend<R>(table: Table<R>, a: seq<Candidate<R>>, b: seq<Candidate<R>>)
    ensures AdmitAll(table, a + b) == AdmitAll(AdmitAll(table, a), b)
    ensures Raises(table, a + b) <==> Raises(table, a) || Raises(AdmitAll(table, a), b)
  {
    hide Check, Admit;
    if b == [] {
      assert a + b == a;
    } else {
      var last := |b| - 1;
      AdmitAllAppend(table, a, b[..last]);
      assert (a + b)[..|a + b| - 1] == a + b[..last];
      assert (a + b)[|a + b| - 1] == b[last];
    }
  }

  lemma {:induction false} KeepFirstAppend(results: map<Json, ResultRow>, a: seq<ResultRow>, b: seq<ResultRow>)
    ensures KeepFirst(results, a + b) == KeepFirst(KeepFirst(results, a), b)
  {
    if b == [] {
      assert a + b == a;
    } else {
      var last := |b| - 1;
      KeepFirstAppend(results, a, b[..last]);
      assert (a + b)[..|a + b| - 1] == a + b[..last];
      assert (a + b)[|a + b| - 1] == b[last];
    }
  }

  lemma ResultsRaiseAppend(a: seq<ResultRow>, b: seq<ResultRow>)
    ensures ResultsRaise(a + b) <==> ResultsRaise(a) || ResultsRaise(b)
  {
    assert forall i | 0 <= i < |a| :: (a + b)[i] == a[i];
    assert forall i | 0 <= i < |b| :: (a + b)[|a| + i] == b[i];
  }

  lemma StoreRowsAppend(t: FileTables, a: LineRows, b: LineRows)
    ensures StoreRows(t, Concat(a, b)) == StoreRows(StoreRows(t, a), b)
    ensures RowsRaise(t, Concat(a, b)) <==> RowsRaise(t, a) || RowsRaise(StoreRows(t, a), b)
  {
    hide Check, Admit;
    AdmitAllAppend(t.texts, a.texts, b.texts);
    AdmitAllAppend(t.calls, a.calls, b.calls);
    AdmitAllAppend(t.blocks, a.blocks, b.blocks);
    ResultsRaiseAppend(a.results, b.results);
    KeepFirstAppend(t.results, a.results, b.results);
  }

  lemma {:induction false} RowsOfLinesAppend(codec: Codec, a: seq<Line>, b: seq<Line>, denyIds: set<string>)
    ensures RowsOfLines(codec, a + b, denyIds) ==
            Concat(RowsOfLines(codec, a, denyIds), RowsOfLines(codec, b, denyIds))
  {
    hide RowsOfLine;
    if b == [] {
      assert a + b == a;
      ConcatNone(RowsOfLines(codec, a, denyIds));
    } else {
      var last := |b| - 1;
      RowsOfLinesAppend(codec, a, b[..last], denyIds);
      assert (a + b)[..|a + b| - 1] == a + b[..last];
      assert (a + b)[|a + b| - 1] == b[last];
      ConcatAssociates(RowsOfLines(codec, a, denyIds), RowsOfLines(codec, b[..last], denyIds),
                       RowsOfLine(codec, b[last], denyIds));
    }
  }

  lemma ConcatNone(a: LineRows)
    ensures Concat(a, NO_ROWS) == a
  {
  }

  lemma ConcatAssociates(a: LineRows, b: LineRows, c: LineRows)
    ensures Concat(Concat(a, b), c) == Concat(a, Concat(b, c))
  {
  }

  // ---- what lines give -----------------------------------------------------

  /** The line is something else than white space that decodes to a JSON object. */
  predicate IsRecord(codec: Codec, line: Line)
  {
    && (exists i | 0 <= i < |line.text| :: line.text[i] != 32 && !(9 <= line.text[i] <= 13))
    && !codec.breaks(line.text) && codec.loads(line.text).Some? && codec.loads(line.text).value.Object?
  }

  function MappedAs(codec: Codec, line: Line, denyIds: set<string>): Mapped
    requires IsRecord(codec, line)
  {
    MapTranscriptLine(codec, codec.loads(line.text).value.fields, line.offset, denyIds)
  }

  /** A line gives the rows its record maps to; a record of another shape only counts, and what cannot be decoded or encoded raises. */
  lemma ReadLineIs(codec: Codec, line: Line, denyIds: set<string>)
    ensures var reading := ReadLine(codec, line, denyIds);
      && (reading.Blank? <==> forall i | 0 <= i < |line.text| :: line.text[i] == 32 || 9 <= line.text[i] <= 13)
      && (reading.Good? <==> IsRecord(codec, line) && MappedAs(codec, line, denyIds).Rows?)
      && (reading.Good? ==> reading.rows == MappedAs(codec, line, denyIds).rows)
      && (reading.Uncaught? <==>
            || (!reading.Blank? && codec.breaks(line.text))
            || (IsRecord(codec, line) && MappedAs(codec, line, denyIds).EncodeError?))
  {
    hide MapTranscriptLine;
  }

  /** The rows of some line, which maps. */
  ghost predicate Gives(codec: Codec, line: Line, denyIds: set<string>, rows: LineRows)
  {
    IsRecord(codec, line) && MappedAs(codec, line, denyIds) == Rows(rows)
  }

  /** The rows are those of the lines that map, line after line, and nothing else. */
  lemma {:induction false} RowsOfLinesAre(codec: Codec, lines: seq<Line>, denyIds: set<string>, k: nat)
    requires k < |lines|
    ensures var before, after := RowsOfLines(codec, lines[..k], denyIds), RowsOfLines(codec, lines[k + 1..], denyIds);
      var all := RowsOfLines(codec, lines, denyIds);
      && (forall rows | Gives(codec, lines[k], denyIds, rows) ::
            && all.calls == before.calls + rows.calls + after.calls
            && all.texts == before.texts + rows.texts + after.texts
            && all.results == before.results + rows.results + after.results
            && all.blocks == before.blocks + rows.blocks + after.blocks)
      && ((forall rows :: !Gives(codec, lines[k], denyIds, rows)) ==> all == Concat(before, after))
  {
    hide ReadLine, MappedAs, IsRecord;
    RowsOfLinesAppend(codec, lines[..k], [lines[k]], denyIds);
    RowsOfLinesAppend(codec, lines[..k] + [lines[k]], lines[k + 1..], denyIds);
    assert lines == lines[..k] + [lines[k]] + lines[k + 1..];
    RowsOfOne(codec, lines[k], denyIds);
    ConcatNone(RowsOfLines(codec, lines[..k], denyIds));
  }

  lemma RowsOfOne(codec: Codec, line: Line, denyIds: set<string>)
    ensures forall rows | Gives(codec, line, denyIds, rows) :: RowsOfLines(codec, [line], denyIds) == rows
    ensures (forall rows :: !Gives(codec, line, denyIds, rows)) ==> RowsOfLines(codec, [line], denyIds) == NO_ROWS
  {
    hide ReadLine, IsRecord, MappedAs;
    ReadLineIs(codec, line, denyIds);
    assert [line][..0] == [];
    NoLines(codec, denyIds);
    ConcatNone(RowsOfLine(codec, line, denyIds));
    var reading := ReadLine(codec, line, denyIds);
    assert reading.Good? ==> Gives(codec, line, denyIds, reading.rows);
    assert Concat(NO_ROWS, RowsOfLine(codec, line, denyIds)) == RowsOfLine(codec, line, denyIds);
  }

  lemma NoLines(codec: Codec, denyIds: set<string>)
    ensures RowsOfLines(codec, [], denyIds) == NO_ROWS
  {
  }
}
