/**
 atlas/ingest/stream.py, `record_quarantine`: appending one JSON record a line to
 a log whose last append may have been cut short at any byte.
 */
module QuarantineLog {
  import opened Sequences

  /** The last byte of a non-empty file is not a newline. */
  predicate Torn(file: Bytes)
  {
    file != [] && file[|file| - 1] != NEWLINE
  }

  /** One write: a newline first if the probe found a torn tail, the record, a newline; `cut` bytes of it land. */
  function Chunk(sawTorn: bool, record: Bytes): Bytes
  {
    (if sawTorn then [NEWLINE] else []) + record + [NEWLINE]
  }

  function Cut(chunk: Bytes, cut: nat): Bytes
  {
    if cut < |chunk| then chunk[..cut] else chunk
  }

  /** The bytes of the record itself that landed. */
  function Landed(sawTorn: bool, record: Bytes, cut: nat): Bytes
  {
    var room := if sawTorn && cut > 0 then cut - 1 else cut;
    Cut(record, room)
  }

  /** `probe` says how many writes had landed when this one looked at the tail. */
  datatype Write = Write(record: Bytes, probe: nat, cut: nat)

  function SawTorn(initial: Bytes, writes: seq<Write>, k: nat): bool
    requires k < |writes|
    decreases |writes|, 0
  {
    Torn(FileAfter(initial, writes[..if writes[k].probe < k then writes[k].probe else k]))
  }

  function FileAfter(initial: Bytes, writes: seq<Write>): Bytes
    decreases |writes|, 1
  {
    if writes == [] then initial
    else
      var last := |writes| - 1;
      var probe := if writes[last].probe < last then writes[last].probe else last;
      FileAfter(initial, writes[..last]) +
      Cut(Chunk(Torn(FileAfter(initial, writes[..probe])), writes[last].record), writes[last].cut)
  }

  class Log {
    var file: Bytes

    /** Anything other processes append, whole or cut. */
    method OthersAppend()
      modifies this
      ensures old(file) <= file
    {
      var more: Bytes := *;
      file := file + more;
    }

    /** Probe the tail, then append in a single write; `cut` is how much of it the disk takes. */
    method RecordQuarantine(record: Bytes, cut: nat) returns (ghost before: Bytes)
      modifies this
      ensures old(file) <= before
      ensures file == before + Cut(Chunk(Torn(old(file)), record), cut)
    {
      var prefix: Bytes := [];
      if |file| > 0 {
        if file[|file| - 1] != NEWLINE {
          prefix := [NEWLINE];
        }
      }
      OthersAppend();
      before := file;
      file := file + Cut(prefix + record + [NEWLINE], cut);
    }
  }

  // ---- reading the log back ------------------------------------------------

  function NonEmpty(parts: seq<Bytes>): seq<Bytes>
  {
    if parts == [] then []
    else (if parts[0] == [] then [] else [parts[0]]) + NonEmpty(parts[1..])
  }

  /** What a reader that skips empty lines sees. */
  function Entries(file: Bytes): seq<Bytes>
  {
    NonEmpty(Split(file, NEWLINE))
  }

  function Portions(initial: Bytes, writes: seq<Write>): (portions: seq<Bytes>)
  {
    if writes == [] then []
    else
      var last := |writes| - 1;
      var landed := Landed(SawTorn(initial, writes, last), writes[last].record, writes[last].cut);
      Portions(initial, writes[..last]) + if landed == [] then [] else [landed]
  }

  function LandedOf(initial: Bytes, writes: seq<Write>, k: nat): Bytes
    requires k < |writes|
  {
    Landed(SawTorn(initial, writes, k), writes[k].record, writes[k].cut)
  }

  /** Bytes of a record land behind a torn tail that the write did not see. */
  predicate Merges(initial: Bytes, writes: seq<Write>, k: nat)
    requires k < |writes|
  {
    Torn(FileAfter(initial, writes[..k])) && !SawTorn(initial, writes, k) && LandedOf(initial, writes, k) != []
  }

  predicate Healed(initial: Bytes, writes: seq<Write>)
  {
    forall k | 0 <= k < |writes| :: !Merges(initial, writes, k)
  }

  function Merged(initial: Bytes, writes: seq<Write>): nat
  {
    if writes == [] then 0
    else Merged(initial, writes[..|writes| - 1]) + if Merges(initial, writes, |writes| - 1) then 1 else 0
  }

  predicate OneLineEach(writes: seq<Write>)
  {
    forall k | 0 <= k < |writes| :: NEWLINE !in writes[k].record
  }

  lemma {:induction false} NonEmptyConcat(a: seq<Bytes>, b: seq<Bytes>)
    ensures NonEmpty(a + b) == NonEmpty(a) + NonEmpty(b)
  {
    hide NonEmpty;
    NonEmptyUnfold(a);
    if a == [] {
      assert a + b == b;
    } else {
      var first: seq<Bytes> := if a[0] == [] then [] else [a[0]];
      NonEmptyConcat(a[1..], b);
      NonEmptyUnfold(a + b);
      assert (a + b)[1..] == a[1..] + b;
      assert first + (NonEmpty(a[1..]) + NonEmpty(b)) == first + NonEmpty(a[1..]) + NonEmpty(b);
    }
  }

  lemma NonEmptyUnfold(parts: seq<Bytes>)
    ensures parts == [] ==> NonEmpty(parts) == []
    ensures parts != [] ==> NonEmpty(parts) == (if parts[0] == [] then [] else [parts[0]]) + NonEmpty(parts[1..])
  {
  }

  lemma EntriesAcross(a: Bytes, b: Bytes)
    ensures Entries(a + [NEWLINE] + b) == Entries(a) + Entries(b)
  {
    hide Split, NonEmpty;
    SplitAcross(a, b, NEWLINE);
    NonEmptyConcat(Split(a, NEWLINE), Split(b, NEWLINE));
  }

  lemma EntriesOfPiece(piece: Bytes)
    requires NEWLINE !in piece
    ensures Entries(piece) == if piece == [] then [] else [piece]
    ensures Entries(piece + [NEWLINE]) == Entries(piece)
  {
    SplitWhole(piece, NEWLINE);
    SplitWhole([], NEWLINE);
    var nothing: Bytes := [];
    assert [nothing][1..] == [] && [piece][1..] == [] && NonEmpty([]) == [];
    assert NonEmpty([nothing]) == [];
    assert NonEmpty([piece]) == if piece == [] then [] else [piece];
    EntriesAcross(piece, []);
    assert piece + [NEWLINE] + [] == piece + [NEWLINE];
  }

  /** A trailing newline, or a second one, adds nothing to read. */
  lemma EntriesWithNewline(file: Bytes)
    ensures Entries(file + [NEWLINE]) == Entries(file)
  {
    hide Entries;
    EntriesAcross(file, []);
    EntriesOfPiece([]);
    assert file + [NEWLINE] + [] == file + [NEWLINE];
  }

  lemma EntriesAfterWholeLines(file: Bytes, more: Bytes)
    requires !Torn(file)
    ensures Entries(file + more) == Entries(file) + Entries(more)
  {
    hide Entries;
    if file == [] {
      EntriesOfPiece([]);
      assert file + more == more;
    } else {
      var body := file[..|file| - 1];
      assert file == body + [NEWLINE];
      EntriesAcross(body, more);
      EntriesWithNewline(body);
    }
  }

  lemma EntriesOfCutRecord(record: Bytes, cut: nat)
    requires NEWLINE !in record
    ensures var landed := Cut(record, cut);
      Entries(Cut(record + [NEWLINE], cut)) == if landed == [] then [] else [landed]
  {
    hide Entries;
    var landed := Cut(record, cut);
    EntriesOfPiece(landed);
    if cut <= |record| {
      assert Cut(record + [NEWLINE], cut) == landed;
    } else {
      assert Cut(record + [NEWLINE], cut) == landed + [NEWLINE];
    }
  }

  /** One append adds the landed bytes as one entry, unless they land behind a torn tail unseen. */
  lemma AppendAddsOneEntry(file: Bytes, sawTorn: bool, record: Bytes, cut: nat)
    requires NEWLINE !in record && (Torn(file) && !sawTorn ==> Landed(sawTorn, record, cut) == [])
    ensures var landed := Landed(sawTorn, record, cut);
      Entries(file + Cut(Chunk(sawTorn, record), cut)) == Entries(file) + if landed == [] then [] else [landed]
  {
    hide Entries, Torn;
    if !sawTorn && Torn(file) {
      assert Cut(Chunk(false, record), cut) == if cut == 0 then [] else [NEWLINE];
      EntriesWithNewline(file);
      assert file + [] == file;
    } else if !sawTorn {
      assert Chunk(false, record) == record + [NEWLINE];
      EntriesOfCutRecord(record, cut);
      EntriesAfterWholeLines(file, Cut(record + [NEWLINE], cut));
    } else if cut == 0 {
      assert file + Cut(Chunk(true, record), 0) == file;
    } else {
      var tail := Cut(record + [NEWLINE], cut - 1);
      assert Cut(Chunk(true, record), cut) == [NEWLINE] + tail;
      assert file + ([NEWLINE] + tail) == file + [NEWLINE] + tail;
      EntriesAcross(file, tail);
      EntriesOfCutRecord(record, cut - 1);
    }
  }

  lemma MergesInPrefix(initial: Bytes, writes: seq<Write>, n: nat, k: nat)
    requires k < n <= |writes|
    ensures Merges(initial, writes[..n], k) == Merges(initial, writes, k)
    ensures LandedOf(initial, writes[..n], k) == LandedOf(initial, writes, k)
  {
    hide FileAfter, Torn, Landed, SawTorn;
    SawTornOfPrefix(initial, writes, n, k);
    assert writes[..n][..k] == writes[..k];
  }

  lemma HealedOneMore(initial: Bytes, writes: seq<Write>)
    requires writes != []
    ensures Healed(initial, writes) <==>
            Healed(initial, writes[..|writes| - 1]) && !Merges(initial, writes, |writes| - 1)
  {
    hide Merges;
    var last := |writes| - 1;
    var before := writes[..last];
    if Healed(initial, before) && !Merges(initial, writes, last) {
      forall k | 0 <= k < |writes|
        ensures !Merges(initial, writes, k)
      {
        if k < last {
          MergesInPrefix(initial, writes, last, k);
        }
      }
    }
    if Healed(initial, writes) {
      forall k | 0 <= k < last
        ensures !Merges(initial, before, k)
      {
        MergesInPrefix(initial, writes, last, k);
      }
    }
  }

  /** Each merged record is one entry short; with none merged the entries are the portions themselves. */
  lemma {:induction false} EntriesAndMerges(initial: Bytes, writes: seq<Write>)
    requires OneLineEach(writes)
    ensures |Entries(FileAfter(initial, writes))| + Merged(initial, writes) ==
            |Entries(initial)| + |Portions(initial, writes)|
    ensures Healed(initial, writes) ==> Entries(FileAfter(initial, writes)) == Entries(initial) + Portions(initial, writes)
    ensures Merged(initial, writes) == 0 <==> Healed(initial, writes)
  {
    hide Entries, Torn, Cut, Chunk, Landed, FileAfter, SawTorn, Healed;
    if writes == [] {
      NothingWritten(initial);
    } else {
      var last := |writes| - 1;
      var before := writes[..last];
      EntriesAndMerges(initial, before);
      HealedOneMore(initial, writes);
      FileAfterOneMore(initial, writes, last);
      assert writes[..last + 1] == writes;
      var file, sawTorn := FileAfter(initial, before), SawTorn(initial, writes, last);
      if Merges(initial, writes, last) {
        UnseenTearMerges(file, writes[last].record, writes[last].cut);
      } else {
        AppendAddsOneEntry(file, sawTorn, writes[last].record, writes[last].cut);
      }
    }
  }

  lemma NothingWritten(initial: Bytes)
    ensures FileAfter(initial, []) == initial && Healed(initial, [])
  {
  }

  /**
   Over any history of appends, whole or cut anywhere, the log reads back as what it held
   first and then, in order, what landed of each record, if and only if no bytes of a record
   ever landed behind a torn tail unseen.
   */
  lemma LogReadsBack(initial: Bytes, writes: seq<Write>)
    requires OneLineEach(writes)
    ensures Entries(FileAfter(initial, writes)) == Entries(initial) + Portions(initial, writes) <==>
            Healed(initial, writes)
  {
    hide Entries, FileAfter, Portions, Healed, Merged;
    EntriesAndMerges(initial, writes);
  }

  lemma SawTornOfPrefix(initial: Bytes, writes: seq<Write>, n: nat, k: nat)
    requires k < n <= |writes|
    ensures SawTorn(initial, writes[..n], k) == SawTorn(initial, writes, k)
  {
    hide FileAfter, Torn;
    var probe := if writes[k].probe < k then writes[k].probe else k;
    assert writes[..n][..probe] == writes[..probe];
  }

  predicate LandedWhole(w: Write, sawTorn: bool)
  {
    w.cut >= |Chunk(sawTorn, w.record)|
  }

  /** A write that landed in full, and one that lost only its newline, are both read back whole. */
  lemma WholeRecordIsRead(record: Bytes, sawTorn: bool, cut: nat)
    ensures Landed(sawTorn, record, cut) == record <==>
            record == [] || cut >= |record| + if sawTorn then 1 else 0
  {
  }

  /** A record that reached the disk stays a line of the log, whatever is appended or cut later. */
  lemma {:induction false} WrittenRecordsStay(initial: Bytes, writes: seq<Write>, k: nat)
    requires Healed(initial, writes) && OneLineEach(writes)
    requires k < |writes| && writes[k].record != []
    requires writes[k].cut > |writes[k].record|
    ensures writes[k].record in Entries(FileAfter(initial, writes))
  {
    hide Entries, FileAfter, SawTorn, Portions, Healed;
    LogReadsBack(initial, writes);
    WholeRecordIsRead(writes[k].record, SawTorn(initial, writes, k), writes[k].cut);
    PortionOf(initial, writes, k);
  }

  lemma {:induction false} PortionOf(initial: Bytes, writes: seq<Write>, k: nat)
    requires k < |writes|
    ensures var landed := Landed(SawTorn(initial, writes, k), writes[k].record, writes[k].cut);
      landed != [] ==> landed in Portions(initial, writes)
  {
    hide SawTorn, Landed;
    var last := |writes| - 1;
    if k < last {
      PortionOf(initial, writes[..last], k);
      SawTornOfPrefix(initial, writes, last, k);
    }
  }

  /** A lone process always sees the tail it writes to. */
  lemma OneProcessIsHealed(initial: Bytes, writes: seq<Write>)
    requires forall k | 0 <= k < |writes| :: writes[k].probe >= k
    ensures Healed(initial, writes)
  {
  }

  /** So do any number of processes while no write is cut short. */
  lemma WholeWritesAreHealed(initial: Bytes, writes: seq<Write>)
    requires forall k | 0 <= k < |writes| :: LandedWhole(writes[k], SawTorn(initial, writes, k))
    ensures Healed(initial, writes)
  {
    hide FileAfter, Torn, SawTorn;
    forall k | 0 <= k < |writes|
      ensures !Merges(initial, writes, k)
    {
      if k > 0 {
        WholeWriteEndsItsLine(initial, writes, k);
      } else {
        FirstProbe(initial, writes);
      }
    }
  }

  lemma FirstProbe(initial: Bytes, writes: seq<Write>)
    requires writes != []
    ensures SawTorn(initial, writes, 0) == Torn(FileAfter(initial, writes[..0]))
  {
  }

  lemma WholeWriteEndsItsLine(initial: Bytes, writes: seq<Write>, k: nat)
    requires 0 < k <= |writes| && LandedWhole(writes[k - 1], SawTorn(initial, writes, k - 1))
    ensures !Torn(FileAfter(initial, writes[..k]))
  {
    hide FileAfter, SawTorn;
    FileAfterOneMore(initial, writes, k - 1);
    var chunk := Chunk(SawTorn(initial, writes, k - 1), writes[k - 1].record);
    assert chunk[|chunk| - 1] == NEWLINE;
  }

  lemma FileAfterOneMore(initial: Bytes, writes: seq<Write>, k: nat)
    requires k < |writes|
    ensures FileAfter(initial, writes[..k + 1]) ==
            FileAfter(initial, writes[..k]) + Cut(Chunk(SawTorn(initial, writes, k), writes[k].record), writes[k].cut)
  {
    hide Torn, Cut, Chunk;
    var probe := if writes[k].probe < k then writes[k].probe else k;
    assert writes[..k + 1][..k] == writes[..k] && writes[..k + 1][..probe] == writes[..probe];
  }

  /** Behind a torn tail unseen, what lands of a record becomes part of the torn line: the log gains no entry. */
  lemma UnseenTearMerges(file: Bytes, record: Bytes, cut: nat)
    requires Torn(file) && NEWLINE !in record && Landed(false, record, cut) != []
    ensures var before, landed := Entries(file), Landed(false, record, cut);
      && before != []
      && Entries(file + Cut(Chunk(false, record), cut)) ==
         before[..|before| - 1] + [before[|before| - 1] + landed]
  {
    hide Entries;
    var landed := Landed(false, record, cut);
    var i := LastLine(file);
    var tail := file[i..];
    assert Chunk(false, record) == record + [NEWLINE];
    EntriesWithNewline(file + landed);
    if cut <= |record| {
      assert Cut(Chunk(false, record), cut) == landed;
    } else {
      assert Cut(Chunk(false, record), cut) == landed + [NEWLINE];
      assert file + landed + [NEWLINE] == file + (landed + [NEWLINE]);
    }
    EntriesOfPiece(tail);
    EntriesOfPiece(tail + landed);
    EntriesAfterWholeLines(file[..i], tail);
    EntriesAfterWholeLines(file[..i], tail + landed);
    assert file == file[..i] + tail && file + landed == file[..i] + (tail + landed);
  }

  /** Where the last line starts. */
  function LastLine(file: Bytes): (i: nat)
    ensures i <= |file| && NEWLINE !in file[i..] && !Torn(file[..i])
  {
    if file == [] || file[|file| - 1] == NEWLINE then |file|
    else
      var i := LastLine(file[..|file| - 1]);
      assert file[i..] == file[..|file| - 1][i..] + [file[|file| - 1]];
      assert file[..i] == file[..|file| - 1][..i];
      i
  }
}
