/**
 Splitting a sequence on a separator, as `bytes.split` and `str.split` do in
 the ingest readers and the path matchers, and the complete-line discipline
 built on it.
 */
module Sequences {

  /** The least index at or after `from` holding `x`; the length when there is none. */
  function IndexFrom<T(==)>(s: seq<T>, x: T, from: nat): (i: nat)
    requires from <= |s|
    ensures from <= i <= |s|
    ensures forall k | from <= k < i :: s[k] != x
    ensures i < |s| ==> s[i] == x
    decreases |s| - from
  {
    if from == |s| || s[from] == x then from else IndexFrom(s, x, from + 1)
  }

  function IndexOf<T(==)>(s: seq<T>, x: T): (i: nat)
    ensures i <= |s|
    ensures forall k | 0 <= k < i :: s[k] != x
    ensures i < |s| ==> s[i] == x
  {
    IndexFrom(s, x, 0)
  }

  lemma IndexOfIs<T>(s: seq<T>, x: T, i: nat)
    requires i < |s| && s[i] == x && forall k | 0 <= k < i :: s[k] != x
    ensures IndexOf(s, x) == i
  {
  }

  /** The parts between separators; there is always at least one, possibly empty. */
  function Split<T(==)>(s: seq<T>, sep: T): (parts: seq<seq<T>>)
    ensures |parts| >= 1
  {
    var i := IndexOf(s, sep);
    if i == |s| then [s] else [s[..i]] + Split(s[i + 1..], sep)
  }

  function Join<T>(parts: seq<seq<T>>, sep: T): seq<T>
  {
    if |parts| == 0 then []
    else if |parts| == 1 then parts[0]
    else parts[0] + [sep] + Join(parts[1..], sep)
  }

  lemma {:induction false} JoinSplit<T>(s: seq<T>, sep: T)
    ensures Join(Split(s, sep), sep) == s
  {
    hide Split, Join, IndexOf;
    var i := IndexOf(s, sep);
    SplitUnfolds(s, sep);
    if i < |s| {
      var rest := Split(s[i + 1..], sep);
      JoinSplit(s[i + 1..], sep);
      JoinUnfolds(s[..i], rest, sep);
      assert s == s[..i] + [sep] + s[i + 1..];
    } else {
      JoinOfOne(s, sep);
    }
  }

  lemma JoinUnfolds<T>(part: seq<T>, parts: seq<seq<T>>, sep: T)
    requires parts != []
    ensures Join([part] + parts, sep) == part + [sep] + Join(parts, sep)
  {
    assert ([part] + parts)[1..] == parts;
  }

  lemma JoinOfOne<T>(part: seq<T>, sep: T)
    ensures Join([part], sep) == part
  {
  }

  lemma {:induction false} SplitHasNoSeparator<T>(s: seq<T>, sep: T)
    ensures forall part | part in Split(s, sep) :: sep !in part
  {
    var i := IndexOf(s, sep);
    if i < |s| {
      SplitHasNoSeparator(s[i + 1..], sep);
    } else {
      assert s[..i] == s;
    }
  }

  /** A text without the separator splits to itself. */
  lemma SplitWhole<T>(s: seq<T>, sep: T)
    requires sep !in s
    ensures Split(s, sep) == [s]
  {
  }

  /** The first part ends at the first separator. */
  lemma SplitFirst<T>(a: seq<T>, b: seq<T>, sep: T)
    requires sep !in a
    ensures Split(a + [sep] + b, sep) == [a] + Split(b, sep)
  {
    var whole := a + [sep] + b;
    assert forall k | 0 <= k < |a| :: whole[k] == a[k] && a[k] in a;
    IndexOfIs(whole, sep, |a|);
    assert whole[..|a|] == a;
    assert whole[|a| + 1..] == b;
  }

  /** Splitting distributes over a separator between two texts. */
  lemma {:induction false} SplitAcross<T>(a: seq<T>, b: seq<T>, sep: T)
    ensures Split(a + [sep] + b, sep) == Split(a, sep) + Split(b, sep)
  {
    var i := IndexOf(a, sep);
    if i == |a| {
      SplitFirst(a, b, sep);
    } else {
      var head, rest := a[..i], a[i + 1..];
      assert a == head + [sep] + rest;
      assert a + [sep] + b == head + [sep] + (rest + [sep] + b);
      SplitFirst(head, rest + [sep] + b, sep);
      SplitAcross(rest, b, sep);
    }
  }

  // ---- complete lines ------------------------------------------------------

  newtype Byte = b: int | 0 <= b < 256

  type Bytes = seq<Byte>

  const NEWLINE: Byte := 10

  /** The bytes that `bytes.strip` removes. */
  predicate IsSpace(b: Byte)
  {
    b == 32 || 9 <= b <= 13
  }

  predicate IsBlank(text: Bytes)
  {
    forall i | 0 <= i < |text| :: IsSpace(text[i])
  }

  /** One newline-terminated line, without its newline, and the byte offset it starts at. */
  datatype Line = Line(offset: nat, text: Bytes)

  /** Every complete line of the file from byte `from` on. */
  function LinesFrom(file: Bytes, from: nat): (lines: seq<Line>)
    requires from <= |file|
    decreases |file| - from
  {
    var end := IndexFrom(file, NEWLINE, from);
    if end == |file| then [] else [Line(from, file[from..end])] + LinesFrom(file, end + 1)
  }

  /** The offset just past the last newline at or after `from`; `from` when there is none. */
  function Watermark(file: Bytes, from: nat): (mark: nat)
    requires from <= |file|
    ensures from <= mark <= |file|
    decreases |file| - from
  {
    var end := IndexFrom(file, NEWLINE, from);
    if end == |file| then from else Watermark(file, end + 1)
  }

  /** `longer` is the file after other processes appended to it. */
  predicate GrewTo(file: Bytes, longer: Bytes)
  {
    |file| <= |longer| && forall i | 0 <= i < |file| :: longer[i] == file[i]
  }

  lemma IndexInGrown(file: Bytes, longer: Bytes, from: nat)
    requires GrewTo(file, longer) && from <= |file|
    ensures IndexFrom(file, NEWLINE, from) < |file| ==>
              IndexFrom(longer, NEWLINE, from) == IndexFrom(file, NEWLINE, from)
    ensures IndexFrom(file, NEWLINE, from) == |file| ==>
              IndexFrom(longer, NEWLINE, from) >= |file|
  {
  }

  /**
   A file that only grows keeps its lines: the lines of the longer file are the
   lines already complete, then those past the old watermark. A partial line at
   the old end is read once, when it is whole.
   */
  lemma {:induction false} LinesOfGrown(file: Bytes, longer: Bytes, from: nat)
    requires GrewTo(file, longer) && from <= |file|
    ensures LinesFrom(longer, from) ==
            LinesFrom(file, from) + LinesFrom(longer, Watermark(file, from))
    ensures Watermark(longer, from) == Watermark(longer, Watermark(file, from))
    decreases |file| - from
  {
    hide LinesFrom, Watermark, IndexFrom;
    var end := IndexFrom(file, NEWLINE, from);
    LinesUnfold(file, from);
    if end < |file| {
      IndexInGrown(file, longer, from);
      LinesUnfold(longer, from);
      LinesOfGrown(file, longer, end + 1);
      assert longer[from..end] == file[from..end];
    }
  }

  lemma LinesUnfold(file: Bytes, from: nat)
    requires from <= |file|
    ensures var end := IndexFrom(file, NEWLINE, from);
      && (LinesFrom(file, from) ==
          if end == |file| then [] else [Line(from, file[from..end])] + LinesFrom(file, end + 1))
      && (Watermark(file, from) == if end == |file| then from else Watermark(file, end + 1))
  {
  }

  /** Cutting a file at its watermark loses no complete line. */
  lemma {:induction false} CutAtWatermark(file: Bytes, from: nat)
    requires from <= |file|
    ensures var done := file[..Watermark(file, from)];
      LinesFrom(done, from) == LinesFrom(file, from) && Watermark(done, from) == |done|
    decreases |file| - from
  {
    hide LinesFrom, Watermark, IndexFrom;
    var end := IndexFrom(file, NEWLINE, from);
    var done := file[..Watermark(file, from)];
    LinesUnfold(file, from);
    if end < |file| {
      CutAtWatermark(file, end + 1);
      assert file[end] == NEWLINE && done[end] == NEWLINE;
      IndexFromIs(done, from, end);
      LinesUnfold(done, from);
      assert done[from..end] == file[from..end];
    } else {
      IndexFromIs(done, from, |done|);
      LinesUnfold(done, from);
    }
  }

  lemma IndexFromIs(file: Bytes, from: nat, i: nat)
    requires from <= i <= |file|
    requires i < |file| ==> file[i] == NEWLINE
    requires forall k | from <= k < i :: file[k] != NEWLINE
    ensures IndexFrom(file, NEWLINE, from) == i
  {
  }

  /** Offsets increase along the lines and lie in `from..mark`. */
  predicate Ordered(lines: seq<Line>, from: nat, mark: nat)
  {
    && (forall k | 0 <= k < |lines| :: from <= lines[k].offset < mark)
    && (forall j, k | 0 <= j < k < |lines| :: lines[j].offset < lines[k].offset)
  }

  lemma {:induction false} LinesAreOrdered(file: Bytes, from: nat)
    requires from <= |file|
    ensures Ordered(LinesFrom(file, from), from, Watermark(file, from))
    decreases |file| - from
  {
    var end := IndexFrom(file, NEWLINE, from);
    if end < |file| {
      LinesAreOrdered(file, end + 1);
    }
  }

  /** Each line starts where the one before it ended; together they fill `from..mark`. */
  predicate Contiguous(lines: seq<Line>, from: nat, mark: nat)
  {
    if lines == [] then from == mark
    else
      && lines[0].offset == from
      && Contiguous(lines[1..], from + |lines[0].text| + 1, mark)
  }

  lemma {:induction false} LinesAreContiguous(file: Bytes, from: nat)
    requires from <= |file|
    ensures Contiguous(LinesFrom(file, from), from, Watermark(file, from))
    decreases |file| - from
  {
    var end := IndexFrom(file, NEWLINE, from);
    if end < |file| {
      LinesAreContiguous(file, end + 1);
      assert LinesFrom(file, from)[1..] == LinesFrom(file, end + 1);
    }
  }

  /** A line's offset is where its bytes are: its text and then a newline. */
  predicate IsLineOf(line: Line, file: Bytes)
  {
    var end := line.offset + |line.text|;
    end < |file| && file[line.offset..end] == line.text && file[end] == NEWLINE && NEWLINE !in line.text
  }

  lemma {:induction false} LinesAreWhereTheySay(file: Bytes, from: nat)
    requires from <= |file|
    ensures forall line | line in LinesFrom(file, from) :: IsLineOf(line, file)
    decreases |file| - from
  {
    var end := IndexFrom(file, NEWLINE, from);
    if end < |file| {
      LinesAreWhereTheySay(file, end + 1);
    }
  }

  function Texts(lines: seq<Line>): (texts: seq<Bytes>)
  {
    if lines == [] then [] else [lines[0].text] + Texts(lines[1..])
  }

  /** Both readers' `split_complete_lines`: the parts before the last newline, and their size. */
  function SplitCompleteLines(data: Bytes): (r: (seq<Bytes>, int))
  {
    var parts := Split(data, NEWLINE);
    var trailing := parts[|parts| - 1];
    (parts[..|parts| - 1], if trailing == [] then |data| else |data| - |trailing|)
  }

  lemma IndexInSlice(file: Bytes, from: nat)
    requires from <= |file|
    ensures IndexFrom(file, NEWLINE, from) == from + IndexOf(file[from..], NEWLINE)
  {
  }

  lemma SplitSliceStep(file: Bytes, from: nat)
    requires from <= |file|
    ensures var end := IndexFrom(file, NEWLINE, from);
      Split(file[from..], NEWLINE) ==
        if end == |file| then [file[from..]] else [file[from..end]] + Split(file[end + 1..], NEWLINE)
  {
    hide Split, IndexFrom, IndexOf;
    var end := IndexFrom(file, NEWLINE, from);
    var data := file[from..];
    IndexInSlice(file, from);
    SplitUnfolds(data, NEWLINE);
    if end < |file| {
      assert data[..end - from] == file[from..end];
      assert data[end - from + 1..] == file[end + 1..];
    }
  }

  lemma SplitUnfolds<T>(s: seq<T>, sep: T)
    ensures var i := IndexOf(s, sep);
      Split(s, sep) == if i == |s| then [s] else [s[..i]] + Split(s[i + 1..], sep)
  {
  }

  /** All the parts but the last are the texts of `lines`; the last is `tail`. */
  ghost predicate PartsAre(parts: seq<Bytes>, lines: seq<Line>, tail: Bytes)
  {
    |parts| >= 1 && parts[..|parts| - 1] == Texts(lines) && parts[|parts| - 1] == tail
  }

  lemma PartsAreAlone(text: Bytes)
    ensures PartsAre([text], [], text)
  {
  }

  lemma PartsAreCons(parts: seq<Bytes>, line: Line, lines: seq<Line>, tail: Bytes)
    requires PartsAre(parts, lines, tail)
    ensures PartsAre([line.text] + parts, [line] + lines, tail)
  {
  }

  lemma {:induction false} SplitPartsAreLines(file: Bytes, from: nat)
    requires from <= |file|
    ensures PartsAre(Split(file[from..], NEWLINE), LinesFrom(file, from), file[Watermark(file, from)..])
    decreases |file| - from
  {
    hide Split, IndexFrom, IndexOf, Texts, PartsAre;
    var end := IndexFrom(file, NEWLINE, from);
    SplitSliceStep(file, from);
    if end < |file| {
      SplitPartsAreLines(file, end + 1);
      PartsAreCons(Split(file[end + 1..], NEWLINE), Line(from, file[from..end]),
                   LinesFrom(file, end + 1), file[Watermark(file, from)..]);
    } else {
      PartsAreAlone(file[from..]);
    }
  }

  /** What the readers compute by splitting the bytes past the seek is those lines and that watermark. */
  lemma SplitReadsLines(file: Bytes, from: nat)
    requires from <= |file|
    ensures var (complete, consumed) := SplitCompleteLines(file[from..]);
      && complete == Texts(LinesFrom(file, from))
      && from + consumed == Watermark(file, from)
  {
    hide Split, Texts, LinesFrom, Watermark;
    SplitPartsAreLines(file, from);
  }

  // ---- one read past the watermark -----------------------------------------

  /** What a read after seeking to `start` sees; past the end it finds nothing. */
  function NewLines(file: Bytes, start: nat): seq<Line>
  {
    if start <= |file| then LinesFrom(file, start) else []
  }

  function NewOffset(file: Bytes, start: nat): nat
  {
    if start <= |file| then Watermark(file, start) else start
  }

  /** Seek, read and split: a partial line at the end is not consumed. */
  method ReadFrom(file: Bytes, start: nat) returns (complete: seq<Bytes>, consumed: nat)
    ensures complete == Texts(NewLines(file, start))
    ensures start + consumed == NewOffset(file, start)
  {
    if start > |file| {
      return [], 0;
    }
    SplitReadsLines(file, start);
    var (lines, bytes) := SplitCompleteLines(file[start..]);
    complete, consumed := lines, bytes;
  }

  lemma NewLinesAreContiguous(file: Bytes, start: nat)
    ensures Contiguous(NewLines(file, start), start, NewOffset(file, start))
    ensures |Texts(NewLines(file, start))| == |NewLines(file, start)|
  {
    if start <= |file| {
      LinesAreContiguous(file, start);
    }
    TextsLength(NewLines(file, start));
  }

  lemma {:induction false} TextsAt(lines: seq<Line>, i: nat)
    requires i < |lines|
    ensures |Texts(lines)| == |lines| && Texts(lines)[i] == lines[i].text
    ensures lines[i..][0] == lines[i] && lines[i..][1..] == lines[i + 1..]
  {
    assert |Texts(lines)| == |lines| by { TextsLength(lines); }
    if i > 0 {
      TextsAt(lines[1..], i - 1);
    }
  }

  lemma {:induction false} TextsLength(lines: seq<Line>)
    ensures |Texts(lines)| == |lines|
  {
    if lines != [] {
      TextsLength(lines[1..]);
    }
  }
}
