/**
 bollard/component_coupling.py: the quote spans of a command, and the `cd` state
 with which `extract_bash_write_targets` turns the targets it finds in a
 command's segments into paths.
 */
module BashTargets {
  import opened Wrappers
  import opened Sequences
  import opened ComponentResolvers

  // ---- quotes --------------------------------------------------------------

  predicate IsQuote(c: char)
  {
    c == '\'' || c == '"'
  }

  /** Half open, both quote characters included. */
  datatype Span = Span(start: nat, end: nat)

  predicate InsideQuotes(pos: nat, spans: seq<Span>)
  {
    exists i :: 0 <= i < |spans| && spans[i].start <= pos < spans[i].end
  }

  /** The quote a reader is in after `n` characters, taking one character at a time. */
  function QuoteAfter(text: string, n: nat): Option<char>
    requires n <= |text|
  {
    if n == 0 then None
    else
      var c := text[n - 1];
      match QuoteAfter(text, n - 1)
      case None => if c == '\'' || c == '"' then Some(c) else None
      case Some(open) => if c == open then None else Some(open)
  }

  /** The character opens a quote, stands inside one, or closes it. */
  predicate Quoted(text: string, pos: nat)
    requires pos < |text|
  {
    QuoteAfter(text, pos).Some? || text[pos] == '\'' || text[pos] == '"'
  }

  /** In order, apart and within the text. */
  predicate Laid(spans: seq<Span>, limit: nat)
  {
    && (forall i | 0 <= i < |spans| :: spans[i].start < spans[i].end <= limit)
    && (forall i, j | 0 <= i < j < |spans| :: spans[i].end <= spans[j].start)
  }

  ghost predicate SpansAre(text: string, spans: seq<Span>, limit: nat)
    requires limit <= |text|
  {
    forall pos: nat | pos < limit :: InsideQuotes(pos, spans) <==> Quoted(text, pos)
  }

  lemma {:induction false} OpenUntil(text: string, start: nat, n: nat)
    requires start < n <= |text|
    requires QuoteAfter(text, start) == None && IsQuote(text[start])
    requires forall k | start < k < n :: text[k] != text[start]
    ensures QuoteAfter(text, n) == Some(text[start])
  {
    if n > start + 1 {
      OpenUntil(text, start, n - 1);
    }
  }

  lemma AddSpan(text: string, spans: seq<Span>, start: nat, end: nat)
    requires start < end <= |text| && Laid(spans, start) && SpansAre(text, spans, start)
    requires forall pos: nat | start <= pos < end :: Quoted(text, pos)
    ensures Laid(spans + [Span(start, end)], end) && SpansAre(text, spans + [Span(start, end)], end)
  {
    hide Quoted;
    var more := spans + [Span(start, end)];
    forall pos: nat | pos < end
      ensures InsideQuotes(pos, more) <==> Quoted(text, pos)
    {
      if pos < start {
        if i :| 0 <= i < |spans| && spans[i].start <= pos < spans[i].end {
          assert more[i] == spans[i];
        }
        if i :| 0 <= i < |more| && more[i].start <= pos < more[i].end {
          assert more[i] == spans[i];
        }
      } else {
        assert more[|spans|] == Span(start, end);
      }
    }
  }

  lemma SkipPlain(text: string, spans: seq<Span>, i: nat)
    requires i < |text| && Laid(spans, i) && SpansAre(text, spans, i) && !Quoted(text, i)
    ensures Laid(spans, i + 1) && SpansAre(text, spans, i + 1)
  {
  }

  lemma QuotedFrom(text: string, start: nat, end: nat)
    requires start < end <= |text| && QuoteAfter(text, start) == None && IsQuote(text[start])
    requires forall k | start < k < end - 1 :: text[k] != text[start]
    ensures forall pos: nat | start <= pos < end :: Quoted(text, pos)
  {
    forall pos: nat | start <= pos < end
      ensures Quoted(text, pos)
    {
      if pos > start {
        OpenUntil(text, start, pos);
      }
    }
  }

  /** The index loop finds, in order and apart, exactly the characters the one-at-a-time reader calls quoted. */
  method QuotedSpans(text: string) returns (spans: seq<Span>)
    ensures Laid(spans, |text|) && SpansAre(text, spans, |text|)
  {
    hide Laid, SpansAre, Quoted, InsideQuotes;
    spans := [];
    var i := 0;
    NoSpans(text);
    while i < |text|
      invariant i <= |text| && QuoteAfter(text, i) == None
      invariant Laid(spans, i) && SpansAre(text, spans, i)
    {
      var c := text[i];
      if IsQuote(c) {
        var end := IndexFrom(text, c, i + 1);
        if end == |text| {
          QuotedFrom(text, i, |text|);
          AddSpan(text, spans, i, |text|);
          spans := spans + [Span(i, |text|)];
          return;
        }
        QuotedFrom(text, i, end + 1);
        AddSpan(text, spans, i, end + 1);
        OpenUntil(text, i, end);
        spans := spans + [Span(i, end + 1)];
        i := end + 1;
      } else {
        NotQuoted(text, i);
        SkipPlain(text, spans, i);
        i := i + 1;
      }
    }
  }

  lemma NoSpans(text: string)
    ensures Laid([], 0) && SpansAre(text, [], 0)
  {
  }

  lemma NotQuoted(text: string, i: nat)
    requires i < |text| && QuoteAfter(text, i) == None && !IsQuote(text[i])
    ensures !Quoted(text, i) && QuoteAfter(text, i + 1) == None
  {
  }

  // ---- segments and cd -----------------------------------------------------

  type Path = string

  /**
   What stands outside the text: character classes, the targets the write patterns find in one
   segment, Path.resolve, the leaf-keeping resolve of a target, and joining onto a directory.
   */
  datatype Host = Host(
    base: Path,
    isSpace: char -> bool,
    isWord: char -> bool,
    scan: string -> seq<string>,
    resolve: string -> Option<Path>,
    keepLeaf: Path -> Option<Path>,
    join: (Path, string) -> Path)

  /** The command with every separator a newline. */
  function Flat(command: string): string
  {
    Replace(Replace(Replace(command, ';', '\n'), '&', '\n'), '|', '\n')
  }

  function Segments(command: string): seq<string>
  {
    Split(Flat(command), '\n')
  }

  predicate IsAbsolute(path: string)
  {
    path != "" && path[0] == '/'
  }

  function Unquoted(text: string): string
  {
    RStrip(LStrip(RStrip(LStrip(text, '"'), '"'), '\''), '\'')
  }

  function SkipSpaces(h: Host, text: string): string
  {
    if text != "" && h.isSpace(text[0]) then SkipSpaces(h, text[1..]) else text
  }

  function TrimEnd(h: Host, text: string): string
  {
    if text != "" && h.isSpace(text[|text| - 1]) then TrimEnd(h, text[..|text| - 1]) else text
  }

  /** A target's text without surrounding white space and quotes. */
  function Clean(h: Host, raw: string): string
  {
    Unquoted(TrimEnd(h, SkipSpaces(h, raw)))
  }

  function Word(h: Host, text: string): string
  {
    if text == "" || h.isSpace(text[0]) then "" else [text[0]] + Word(h, text[1..])
  }

  predicate IsCd(h: Host, segment: string)
  {
    var rest := SkipSpaces(h, segment);
    "cd" <= rest && (|rest| == 2 || !h.isWord(rest[2]))
  }

  /** The directory named, or "" when none is. */
  function CdArgument(h: Host, segment: string): string
    requires IsCd(h, segment)
  {
    var rest := SkipSpaces(h, segment)[2..];
    if rest != "" && h.isSpace(rest[0]) then Unquoted(Word(h, SkipSpaces(h, rest))) else ""
  }

  /** The directory a cd segment goes to, when it is absolute and resolves. */
  function CdTarget(h: Host, segment: string): Option<Path>
    requires IsCd(h, segment)
  {
    var arg := CdArgument(h, segment);
    if IsAbsolute(arg) then h.resolve(arg) else None
  }

  // ---- the segments are the command ----------------------------------------

  predicate IsSeparator(c: char)
  {
    c == ';' || c == '&' || c == '|' || c == '\n'
  }

  predicate HoldsNoSeparator(text: string)
  {
    forall i | 0 <= i < |text| :: !IsSeparator(text[i])
  }

  /** Where the `k`th segment starts when each is followed by one character. */
  function StartOf(segments: seq<string>, k: nat): nat
    requires k <= |segments|
  {
    if k == 0 then 0 else StartOf(segments, k - 1) + |segments[k - 1]| + 1
  }

  /** The `k`th segment stands at its start in the command, and a separator or the end of the command follows it. */
  predicate StandsInPlace(command: string, segments: seq<string>, k: nat)
    requires k < |segments|
  {
    var start := StartOf(segments, k);
    var end := start + |segments[k]|;
    && end <= |command| && command[start..end] == segments[k] && HoldsNoSeparator(segments[k])
    && if k + 1 < |segments| then end < |command| && IsSeparator(command[end]) else end == |command|
  }

  /** The segments are the command cut at every separator, quoted or not: nothing is lost, added or moved. */
  ghost predicate IsCut(command: string, segments: seq<string>)
  {
    segments != [] && forall k | 0 <= k < |segments| :: StandsInPlace(command, segments, k)
  }

  lemma FlatAt(command: string)
    ensures |Flat(command)| == |command|
    ensures forall i | 0 <= i < |command| :: Flat(command)[i] == if IsSeparator(command[i]) then '\n' else command[i]
  {
    hide Replace;
    var a := Replace(command, ';', '\n');
    var b := Replace(a, '&', '\n');
    ReplaceIs(command, ';', '\n');
    ReplaceIs(a, '&', '\n');
    ReplaceIs(b, '|', '\n');
  }

  /** The segments of a command, from its first separator on. */
  lemma SegmentsUnfold(command: string, i: nat)
    requires i <= |command| && HoldsNoSeparator(command[..i])
    requires i < |command| ==> IsSeparator(command[i])
    ensures Segments(command) ==
            if i == |command| then [command] else [command[..i]] + Segments(command[i + 1..])
  {
    hide Split, Flat;
    var flat := Flat(command);
    FlatAt(command);
    assert forall k | 0 <= k < i :: command[..i][k] == command[k];
    assert flat[..i] == command[..i];
    if i == |command| {
      assert flat == command;
      SplitWhole(flat, '\n');
    } else {
      FlatAt(command[i + 1..]);
      assert flat[i + 1..] == Flat(command[i + 1..]);
      SplitFirst(flat[..i], flat[i + 1..], '\n');
      assert flat == flat[..i] + ['\n'] + flat[i + 1..];
    }
  }

  lemma {:induction false} FirstSeparator(command: string, from: nat) returns (i: nat)
    requires from <= |command| && HoldsNoSeparator(command[..from])
    ensures i <= |command| && HoldsNoSeparator(command[..i]) && (i < |command| ==> IsSeparator(command[i]))
    decreases |command| - from
  {
    if from == |command| || IsSeparator(command[from]) {
      i := from;
    } else {
      assert forall k | 0 <= k < from + 1 :: command[..from + 1][k] == if k < from then command[..from][k] else command[from];
      i := FirstSeparator(command, from + 1);
    }
  }

  lemma {:induction false} StartOfCons(first: string, rest: seq<string>, k: nat)
    requires k <= |rest|
    ensures StartOf([first] + rest, k + 1) == |first| + 1 + StartOf(rest, k)
  {
    if k == 0 {
      assert StartOf([first] + rest, 0) == 0;
    } else {
      StartOfCons(first, rest, k - 1);
      assert ([first] + rest)[k] == rest[k - 1];
    }
  }

  lemma FirstInPlace(command: string, i: nat, rest: seq<string>)
    requires i < |command| && HoldsNoSeparator(command[..i]) && IsSeparator(command[i]) && rest != []
    ensures StandsInPlace(command, [command[..i]] + rest, 0)
  {
    hide HoldsNoSeparator, IsSeparator;
  }

  lemma NextInPlace(command: string, i: nat, rest: seq<string>, k: nat)
    requires i < |command| && k < |rest| && StandsInPlace(command[i + 1..], rest, k)
    ensures StandsInPlace(command, [command[..i]] + rest, k + 1)
  {
    hide HoldsNoSeparator, IsSeparator, StartOf;
    StartOfCons(command[..i], rest, k);
    assert ([command[..i]] + rest)[k + 1] == rest[k];
    var start := StartOf(rest, k);
    var end := start + |rest[k]|;
    assert command[i + 1 + start..i + 1 + end] == command[i + 1..][start..end];
  }

  lemma CutCons(command: string, i: nat, rest: seq<string>)
    requires i < |command| && HoldsNoSeparator(command[..i]) && IsSeparator(command[i])
    requires IsCut(command[i + 1..], rest)
    ensures IsCut(command, [command[..i]] + rest)
  {
    hide StandsInPlace;
    var segments := [command[..i]] + rest;
    FirstInPlace(command, i, rest);
    forall k | 0 <= k < |segments| ensures StandsInPlace(command, segments, k) {
      if k > 0 {
        NextInPlace(command, i, rest, k - 1);
      }
    }
  }

  lemma {:induction false} SegmentsCutTheCommand(command: string)
    ensures IsCut(command, Segments(command))
    decreases |command|
  {
    hide Segments;
    var i := FirstSeparator(command, 0);
    SegmentsUnfold(command, i);
    if i < |command| {
      SegmentsCutTheCommand(command[i + 1..]);
      CutCons(command, i, Segments(command[i + 1..]));
    } else {
      assert command[..i] == command;
      WholeIsCut(command);
    }
  }

  lemma WholeIsCut(command: string)
    requires HoldsNoSeparator(command)
    ensures IsCut(command, [command])
  {
    assert StartOf([command], 0) == 0;
  }

  /** There is one way to cut a command. */
  lemma {:induction false} OneCut(command: string, a: seq<string>, b: seq<string>, k: nat)
    requires IsCut(command, a) && IsCut(command, b)
    requires k <= |a| && k <= |b| && a[..k] == b[..k] && StartOf(a, k) == StartOf(b, k)
    ensures a == b
    decreases |a| - k
  {
    if k == |a| || k == |b| {
      CutEndsTogether(command, a, b, k);
    } else {
      SameSegment(command, a, b, k);
      assert a[..k + 1] == a[..k] + [a[k]] && b[..k + 1] == b[..k] + [b[k]];
      OneCut(command, a, b, k + 1);
    }
  }

  /** A segment runs up to the first separator, or to the end of the command. */
  predicate RunsTo(command: string, start: nat, end: nat)
  {
    && start <= end <= |command|
    && (forall p | start <= p < end :: !IsSeparator(command[p]))
    && (end < |command| ==> IsSeparator(command[end]))
  }

  lemma SegmentRuns(command: string, a: seq<string>, k: nat)
    requires IsCut(command, a) && k < |a|
    ensures var start := StartOf(a, k);
      var end := start + |a[k]|;
      RunsTo(command, start, end) && a[k] == command[start..end]
  {
    hide StartOf, IsSeparator;
    assert StandsInPlace(command, a, k);
    var start := StartOf(a, k);
    forall p | start <= p < start + |a[k]| ensures !IsSeparator(command[p]) {
      assert command[p] == a[k][p - start];
    }
  }

  lemma SameSegment(command: string, a: seq<string>, b: seq<string>, k: nat)
    requires IsCut(command, a) && IsCut(command, b) && k < |a| && k < |b| && StartOf(a, k) == StartOf(b, k)
    ensures a[k] == b[k]
  {
    hide IsCut, IsSeparator;
    SegmentRuns(command, a, k);
    SegmentRuns(command, b, k);
    RunsOneWay(command, StartOf(a, k), StartOf(a, k) + |a[k]|, StartOf(a, k) + |b[k]|);
  }

  lemma RunsOneWay(command: string, start: nat, a: nat, b: nat)
    requires RunsTo(command, start, a) && RunsTo(command, start, b)
    ensures a == b
  {
  }

  lemma CutLength(command: string, a: seq<string>, k: nat)
    requires IsCut(command, a) && k <= |a|
    ensures k == |a| <==> StartOf(a, k) > |command|
  {
    if k < |a| {
      assert StandsInPlace(command, a, k);
    } else {
      assert StandsInPlace(command, a, k - 1);
    }
  }

  lemma CutEndsTogether(command: string, a: seq<string>, b: seq<string>, k: nat)
    requires IsCut(command, a) && IsCut(command, b)
    requires k <= |a| && k <= |b| && (k == |a| || k == |b|)
    requires a[..k] == b[..k] && StartOf(a, k) == StartOf(b, k)
    ensures a == b
  {
    hide IsCut;
    CutLength(command, a, k);
    CutLength(command, b, k);
    assert a[..k] == a && b[..k] == b;
  }

  /** No separator survives inside a segment, quoted or not. */
  lemma SegmentsHoldNoSeparator(command: string)
    ensures forall segment, c | segment in Segments(command) && c in {';', '&', '|', '\n'} :: c !in segment
  {
    hide Segments;
    SegmentsCutTheCommand(command);
    forall segment, c | segment in Segments(command) && c in {';', '&', '|', '\n'} ensures c !in segment {
      var k :| 0 <= k < |Segments(command)| && Segments(command)[k] == segment;
      assert StandsInPlace(command, Segments(command), k);
    }
  }

  // ---- what is trimmed, and what a cd is -----------------------------------

  /** `core` is the text without the characters dropped at either end. */
  ghost predicate TrimsTo(text: string, drop: char -> bool, core: string)
  {
    exists i, j :: 0 <= i <= j <= |text| && IsCore(text, drop, i, j) && core == text[i..j]
  }

  predicate IsCore(text: string, drop: char -> bool, i: int, j: int)
    requires 0 <= i <= j <= |text|
  {
    && (forall k | 0 <= k < i :: drop(text[k]))
    && (forall k | j <= k < |text| :: drop(text[k]))
    && (i < j ==> !drop(text[i]) && !drop(text[j - 1]))
  }

  function Only(c: char): char -> bool
  {
    d => d == c
  }

  /** Without double quotes at either end, and then without single ones. */
  ghost predicate BaresTo(text: string, core: string)
  {
    exists inner :: TrimsTo(text, Only('"'), inner) && TrimsTo(inner, Only('\''), core)
  }

  lemma TrimsOneWay(text: string, drop: char -> bool, a: string, b: string)
    requires TrimsTo(text, drop, a) && TrimsTo(text, drop, b)
    ensures a == b
  {
    var i, j :| 0 <= i <= j <= |text| && IsCore(text, drop, i, j) && a == text[i..j];
    var k, m :| 0 <= k <= m <= |text| && IsCore(text, drop, k, m) && b == text[k..m];
    if i < j {
      assert k <= i && j <= m;
    }
    if k < m {
      assert i <= k && m <= j;
    }
  }

  lemma StripTrims(text: string, c: char)
    ensures TrimsTo(text, Only(c), RStrip(LStrip(text, c), c))
  {
    hide LStrip, RStrip;
    var i := LStripAt(text, c);
    var j := RStripAt(text[i..], c);
    assert text[i..][..j] == text[i..i + j];
    assert forall k | i + j <= k < |text| :: text[k] == text[i..][k - i];
    assert IsCore(text, Only(c), i, i + j);
  }

  lemma UnquotedBares(text: string, core: string)
    ensures BaresTo(text, core) <==> core == Unquoted(text)
  {
    hide LStrip, RStrip, TrimsTo;
    var inner := RStrip(LStrip(text, '"'), '"');
    StripTrims(text, '"');
    StripTrims(inner, '\'');
    if BaresTo(text, core) {
      var other :| TrimsTo(text, Only('"'), other) && TrimsTo(other, Only('\''), core);
      TrimsOneWay(text, Only('"'), inner, other);
      TrimsOneWay(inner, Only('\''), core, Unquoted(text));
    }
  }

  lemma {:induction false} SkipAt(h: Host, text: string) returns (i: nat)
    ensures i <= |text| && SkipSpaces(h, text) == text[i..] && (forall k | 0 <= k < i :: h.isSpace(text[k]))
    ensures i < |text| ==> !h.isSpace(text[i])
  {
    if text == "" || !h.isSpace(text[0]) {
      i := 0;
    } else {
      var rest := SkipAt(h, text[1..]);
      i := rest + 1;
      assert forall k | 0 < k < i :: text[k] == text[1..][k - 1];
    }
  }

  lemma {:induction false} TrimEndAt(h: Host, text: string) returns (j: nat)
    ensures j <= |text| && TrimEnd(h, text) == text[..j] && (forall k | j <= k < |text| :: h.isSpace(text[k]))
    ensures j > 0 ==> !h.isSpace(text[j - 1])
  {
    if text == "" || !h.isSpace(text[|text| - 1]) {
      j := |text|;
    } else {
      j := TrimEndAt(h, text[..|text| - 1]);
      assert forall k | j <= k < |text| - 1 :: text[k] == text[..|text| - 1][k];
    }
  }

  /** A target's name is its text without white space and then without quotes around it. */
  lemma CleanIs(h: Host, raw: string, core: string)
    ensures core == Clean(h, raw) <==> exists inner :: TrimsTo(raw, h.isSpace, inner) && BaresTo(inner, core)
  {
    hide SkipSpaces, TrimEnd, TrimsTo, BaresTo;
    var i := SkipAt(h, raw);
    var j := TrimEndAt(h, raw[i..]);
    var trimmed := TrimEnd(h, SkipSpaces(h, raw));
    assert TrimsTo(raw, h.isSpace, trimmed) by { TrimmedAt(raw, h.isSpace, i, j, trimmed); }
    UnquotedBares(trimmed, core);
    if inner :| TrimsTo(raw, h.isSpace, inner) && BaresTo(inner, core) {
      TrimsOneWay(raw, h.isSpace, inner, trimmed);
    }
  }

  lemma TrimmedAt(raw: string, drop: char -> bool, i: nat, j: nat, core: string)
    requires i + j <= |raw| && core == raw[i..][..j]
    requires (forall k | 0 <= k < i :: drop(raw[k])) && (i < |raw| ==> !drop(raw[i]))
    requires (forall k | j <= k < |raw[i..]| :: drop(raw[i..][k])) && (j > 0 ==> !drop(raw[i..][j - 1]))
    ensures TrimsTo(raw, drop, core)
  {
    assert raw[i..][..j] == raw[i..i + j];
    assert forall k | i + j <= k < |raw| :: raw[k] == raw[i..][k - i];
    assert IsCore(raw, drop, i, i + j);
  }

  predicate AllSpace(h: Host, text: string)
  {
    forall i | 0 <= i < |text| :: h.isSpace(text[i])
  }

  predicate CdAt(h: Host, segment: string, n: int)
    requires 0 <= n <= |segment|
  {
    && AllSpace(h, segment[..n]) && n + 2 <= |segment| && segment[n..n + 2] == "cd"
    && (n + 2 == |segment| || !h.isWord(segment[n + 2]))
  }

  /** A segment is a cd when the word cd comes first, after any white space, and ends there. */
  lemma CdIs(h: Host, segment: string)
    requires !h.isSpace('c')
    ensures IsCd(h, segment) <==>
            exists n :: 0 <= n <= |segment| && CdAt(h, segment, n)
  {
    hide SkipSpaces;
    var i := SkipAt(h, segment);
    var rest := segment[i..];
    if IsCd(h, segment) {
      assert rest[..2] == "cd" && segment[i..i + 2] == rest[..2];
      assert CdAt(h, segment, i);
    }
    if n :| 0 <= n <= |segment| && CdAt(h, segment, n) {
      assert segment[n..n + 2][0] == segment[n] && "cd"[0] == 'c';
      assert forall k | 0 <= k < n :: segment[..n][k] == segment[k];
      assert n == i;
      assert rest[..2] == segment[n..n + 2];
    }
  }

  /**
   A cd goes to the directory its first word names, quotes stripped, if that is absolute and
   resolves; with no word after white space, or a relative one, it is not known where.
   */
  lemma CdTargetIs(h: Host, lead: string, gap: string, word: string, tail: string, dir: string)
    requires !h.isSpace('c') && AllSpace(h, lead)
    requires gap != "" && AllSpace(h, gap) && !h.isWord(gap[0])
    requires word != "" && forall i | 0 <= i < |word| :: !h.isSpace(word[i])
    requires tail != "" ==> h.isSpace(tail[0])
    requires BaresTo(word, dir)
    ensures var segment := lead + "cd" + gap + word + tail;
      IsCd(h, segment) &&
      CdTarget(h, segment) == if dir != "" && dir[0] == '/' then h.resolve(dir) else None
  {
    hide SkipSpaces, Word, Unquoted, BaresTo;
    var segment, rest := lead + "cd" + gap + word + tail, "cd" + gap + word + tail;
    SkipLead(h, lead, rest);
    assert segment == lead + rest;
    assert rest[..2] == "cd" && rest[2] == gap[0] && rest[2..] == gap + word + tail;
    SkipLead(h, gap, word + tail);
    assert gap + word + tail == gap + (word + tail);
    WordEnds(h, word, tail);
    UnquotedBares(word, dir);
  }

  lemma CdWithoutDirectory(h: Host, lead: string, rest: string)
    requires !h.isSpace('c') && AllSpace(h, lead)
    requires rest == "" || (!h.isWord(rest[0]) && (!h.isSpace(rest[0]) || AllSpace(h, rest)))
    ensures IsCd(h, lead + "cd" + rest) && CdTarget(h, lead + "cd" + rest) == None
  {
    hide SkipSpaces, Word;
    SkipLead(h, lead, "cd" + rest);
    assert lead + "cd" + rest == lead + ("cd" + rest);
    assert ("cd" + rest)[..2] == "cd" && ("cd" + rest)[2..] == rest;
    if rest != "" && AllSpace(h, rest) {
      SkipLead(h, rest, "");
      assert rest + "" == rest;
      NoWord(h);
    }
  }

  lemma NoWord(h: Host)
    ensures Word(h, "") == "" && Unquoted("") == ""
  {
  }

  lemma {:induction false} SkipLead(h: Host, lead: string, rest: string)
    requires AllSpace(h, lead) && (rest == "" || !h.isSpace(rest[0]))
    ensures SkipSpaces(h, lead + rest) == rest
  {
    if lead == "" {
      assert lead + rest == rest;
    } else {
      SkipLead(h, lead[1..], rest);
      assert (lead + rest)[1..] == lead[1..] + rest;
    }
  }

  lemma {:induction false} WordEnds(h: Host, word: string, tail: string)
    requires (forall i | 0 <= i < |word| :: !h.isSpace(word[i])) && (tail != "" ==> h.isSpace(tail[0]))
    ensures Word(h, word + tail) == word
  {
    if word == "" {
      assert word + tail == tail;
    } else {
      WordEnds(h, word[1..], tail);
      assert (word + tail)[1..] == word[1..] + tail;
    }
  }

  lemma {:induction false} WordOf(h: Host, word: string)
    requires forall i | 0 <= i < |word| :: !h.isSpace(word[i])
    ensures Word(h, word) == word
  {
    if word != "" {
      WordOf(h, word[1..]);
      assert word == [word[0]] + word[1..];
    }
  }

  /** A plain `cd` to an absolute directory goes where that directory resolves to. */
  lemma PlainCdIsRead(h: Host, dir: string)
    requires h.isSpace(' ') && !h.isSpace('c') && !h.isWord(' ')
    requires IsAbsolute(dir) && forall i | 0 <= i < |dir| :: !h.isSpace(dir[i]) && !IsQuote(dir[i])
    ensures IsCd(h, "cd " + dir) && CdTarget(h, "cd " + dir) == h.resolve(dir)
  {
    hide SkipSpaces, Word, Unquoted, Replace;
    var segment, rest := "cd " + dir, " " + dir;
    SkipNone(h, segment);
    SkipNone(h, dir);
    SkipOne(h, rest);
    assert segment[2..] == rest && rest[1..] == dir && segment[..2] == "cd" && segment[2] == ' ';
    WordOf(h, dir);
    NothingToUnquote(dir);
  }

  lemma SkipNone(h: Host, text: string)
    requires text == "" || !h.isSpace(text[0])
    ensures SkipSpaces(h, text) == text
  {
  }

  lemma SkipOne(h: Host, text: string)
    requires text != "" && h.isSpace(text[0])
    ensures SkipSpaces(h, text) == SkipSpaces(h, text[1..])
  {
  }

  lemma NothingToUnquote(text: string)
    requires forall i | 0 <= i < |text| :: !IsQuote(text[i])
    ensures Unquoted(text) == text
  {
    hide LStrip, RStrip;
    NothingToStrip(text, '"');
    NothingToStrip(text, '\'');
  }

  lemma NothingToStrip(text: string, c: char)
    requires text != "" ==> text[0] != c && text[|text| - 1] != c
    ensures LStrip(text, c) == text && RStrip(text, c) == text
  {
  }

  // ---- the extraction ------------------------------------------------------

  /** A target as found: its text, and the cd state at that point. */
  datatype Found = Found(raw: string, cdSeen: bool, cdBase: Option<Path>)

  /** A path emitted; `flagged` when it could not be resolved and is given as it stands. */
  datatype Landing = Landing(path: Path, flagged: bool)

  function Land(h: Host, raw: string, path: Path): Landing
  {
    if '\0' in raw || h.keepLeaf(path) == None then Landing(path, true)
    else Landing(h.keepLeaf(path).value, false)
  }

  function Tagged(raws: seq<string>, cdSeen: bool, cdBase: Option<Path>): seq<Found>
  {
    if raws == [] then []
    else Tagged(raws[..|raws| - 1], cdSeen, cdBase) + [Found(raws[|raws| - 1], cdSeen, cdBase)]
  }

  datatype Scan = Scan(found: seq<Found>, cdSeen: bool, cdBase: Option<Path>)

  function ScanSegments(h: Host, segments: seq<string>): Scan
  {
    if segments == [] then Scan([], false, None)
    else
      var s, last := ScanSegments(h, segments[..|segments| - 1]), segments[|segments| - 1];
      if IsCd(h, last) then Scan(s.found, true, CdTarget(h, last))
      else s.(found := s.found + Tagged(h.scan(last), s.cdSeen, s.cdBase))
  }

  function ResolveOne(h: Host, f: Found): seq<Landing>
  {
    var raw := Clean(h, f.raw);
    if raw == "" then []
    else if f.cdSeen && !IsAbsolute(raw) then
      match f.cdBase case Some(dir) => [Land(h, raw, h.join(dir, raw))] case None => []
    else [Land(h, raw, if IsAbsolute(raw) then raw else h.join(h.base, raw))]
  }

  function ResolveAll(h: Host, found: seq<Found>): seq<Landing>
  {
    if found == [] then []
    else ResolveAll(h, found[..|found| - 1]) + ResolveOne(h, found[|found| - 1])
  }

  /**
   Where one found target lands: nowhere without a name, at its absolute path, in the directory of
   the latest cd if that is known and nowhere if it is not, else in the session's own directory. A
   NUL in the name, or a path that cannot be resolved, leaves it flagged and as it stands.
   */
  lemma TargetLands(h: Host, f: Found, name: string)
    requires exists inner :: TrimsTo(f.raw, h.isSpace, inner) && BaresTo(inner, name)
    ensures name == "" ==> ResolveOne(h, f) == []
    ensures name != "" && name[0] != '/' && f.cdSeen && f.cdBase == None ==> ResolveOne(h, f) == []
    ensures name != "" && !(name[0] != '/' && f.cdSeen && f.cdBase == None) ==>
              var path := if name[0] == '/' then name else h.join(if f.cdSeen then f.cdBase.value else h.base, name);
              var leaf := h.keepLeaf(path);
              ResolveOne(h, f) == [if '\0' in name || leaf == None then Landing(path, true) else Landing(leaf.value, false)]
  {
    hide Clean, TrimsTo, BaresTo;
    CleanIs(h, f.raw, name);
  }

  function Extracted(h: Host, command: string): seq<Landing>
  {
    if command == "" then [] else ResolveAll(h, ScanSegments(h, Segments(command)).found)
  }

  method ExtractBashWriteTargets(h: Host, command: string) returns (targets: seq<Landing>)
    ensures targets == Extracted(h, command)
  {
    hide Segments, IsCd, CdTarget, ResolveOne, IsAbsolute, Clean;
    if command == "" {
      return [];
    }
    var segments := Segments(command);
    var found: seq<Found> := [];
    var cdSeen, cdBase := false, None;
    for i := 0 to |segments|
      invariant ScanSegments(h, segments[..i]) == Scan(found, cdSeen, cdBase)
    {
      assert segments[..i + 1][..i] == segments[..i];
      if IsCd(h, segments[i]) {
        cdSeen, cdBase := true, CdTarget(h, segments[i]);
      } else {
        var raws := h.scan(segments[i]);
        ghost var before := found;
        for j := 0 to |raws|
          invariant found == before + Tagged(raws[..j], cdSeen, cdBase)
        {
          assert raws[..j + 1][..j] == raws[..j];
          found := found + [Found(raws[j], cdSeen, cdBase)];
        }
        assert raws[..|raws|] == raws;
      }
    }
    assert segments[..|segments|] == segments;
    targets := [];
    for i := 0 to |found|
      invariant targets == ResolveAll(h, found[..i])
    {
      assert found[..i + 1][..i] == found[..i];
      var raw := Clean(h, found[i].raw);
      ghost var before := targets;
      if raw != "" {
        if found[i].cdSeen && !IsAbsolute(raw) {
          if found[i].cdBase.Some? {
            targets := targets + [Land(h, raw, h.join(found[i].cdBase.value, raw))];
          }
        } else {
          targets := targets + [Land(h, raw, if IsAbsolute(raw) then raw else h.join(h.base, raw))];
        }
      }
      ResolveOneIs(h, found[i]);
      assert targets == before + ResolveOne(h, found[i]);
    }
    assert found[..|found|] == found;
  }

  lemma ResolveOneIs(h: Host, f: Found)
    ensures var raw := Clean(h, f.raw);
      ResolveOne(h, f) ==
        if raw == "" || (f.cdSeen && !IsAbsolute(raw) && f.cdBase == None) then []
        else [Land(h, raw, if IsAbsolute(raw) then raw else h.join(if f.cdSeen then f.cdBase.value else h.base, raw))]
  {
  }

  // ---- the reference shell -------------------------------------------------

  /**
   A shell that runs the segments in order. `chdir` is whatever a relative or unresolvable cd
   does, failing included; a cd to an absolute directory goes there.
   */
  datatype Shell = Shell(chdir: (Path, string) -> Path)

  function CwdAt(h: Host, sh: Shell, segments: seq<string>, i: nat): Path
    requires i <= |segments|
  {
    if i == 0 then h.base
    else
      var cwd := CwdAt(h, sh, segments, i - 1);
      if !IsCd(h, segments[i - 1]) then cwd
      else match CdTarget(h, segments[i - 1]) case Some(dir) => dir case None => sh.chdir(cwd, segments[i - 1])
  }

  /** The last cd segment before `i`. */
  function LatestCd(h: Host, segments: seq<string>, i: nat): (k: Option<nat>)
    requires i <= |segments|
    ensures k.Some? ==> k.value < i && IsCd(h, segments[k.value])
    ensures k.Some? ==> forall j | k.value < j < i :: !IsCd(h, segments[j])
    ensures k == None ==> forall j | 0 <= j < i :: !IsCd(h, segments[j])
  {
    if i == 0 then None
    else if IsCd(h, segments[i - 1]) then Some(i - 1)
    else LatestCd(h, segments, i - 1)
  }

  /** The shell's directory is known: no cd yet, or the latest went to a known absolute one. */
  predicate CwdKnown(h: Host, segments: seq<string>, i: nat)
    requires i <= |segments|
  {
    var k := LatestCd(h, segments, i);
    k.Some? ==> CdTarget(h, segments[k.value]).Some?
  }

  /** One target the shell writes: the segment it is in, its cleaned name, and the path its directory gives. */
  datatype Write = Write(at: nat, name: string, landing: Landing)

  function WritesOf(h: Host, cwd: Path, at: nat, raws: seq<string>): seq<Write>
  {
    if raws == [] then []
    else
      var name := Clean(h, raws[|raws| - 1]);
      WritesOf(h, cwd, at, raws[..|raws| - 1]) +
      if name == "" then []
      else [Write(at, name, Land(h, name, if IsAbsolute(name) then name else h.join(cwd, name)))]
  }

  /** Everything the shell writes in the first `i` segments, each in the directory it has then. */
  function ShellRun(h: Host, sh: Shell, segments: seq<string>, i: nat): seq<Write>
    requires i <= |segments|
  {
    if i == 0 then []
    else
      var before := ShellRun(h, sh, segments, i - 1);
      if IsCd(h, segments[i - 1]) then before
      else before + WritesOf(h, CwdAt(h, sh, segments, i - 1), i - 1, h.scan(segments[i - 1]))
  }

  /** A relative write where the latest cd was not to a known absolute directory. */
  predicate IsLost(h: Host, segments: seq<string>, w: Write)
  {
    !IsAbsolute(w.name) && (w.at <= |segments| ==> !CwdKnown(h, segments, w.at))
  }

  /** The writes that are not lost, in order. */
  function NotLost(h: Host, segments: seq<string>, writes: seq<Write>): seq<Landing>
  {
    if writes == [] then []
    else
      var w := writes[|writes| - 1];
      NotLost(h, segments, writes[..|writes| - 1]) + if IsLost(h, segments, w) then [] else [w.landing]
  }

  /** The cd state stands for the shell's directory wherever that is known. */
  lemma {:induction false} CdStateIsTheShells(h: Host, sh: Shell, segments: seq<string>, i: nat)
    requires i <= |segments|
    ensures var s := ScanSegments(h, segments[..i]);
      && CwdKnown(h, segments, i) == (!s.cdSeen || s.cdBase.Some?)
      && (CwdKnown(h, segments, i) ==> CwdAt(h, sh, segments, i) == if s.cdSeen then s.cdBase.value else h.base)
      && (s.cdSeen <==> LatestCd(h, segments, i).Some?)
  {
    hide IsCd, CdTarget;
    if i > 0 {
      assert segments[..i][..i - 1] == segments[..i - 1];
      CdStateIsTheShells(h, sh, segments, i - 1);
    }
  }

  lemma {:induction false} ResolveConcat(h: Host, a: seq<Found>, b: seq<Found>)
    ensures ResolveAll(h, a + b) == ResolveAll(h, a) + ResolveAll(h, b)
  {
    hide ResolveOne;
    if b == [] {
      assert a + b == a;
    } else {
      ResolveConcat(h, a, b[..|b| - 1]);
      assert (a + b)[..|a + b| - 1] == a + b[..|b| - 1];
    }
  }

  lemma {:induction false} NotLostConcat(h: Host, segments: seq<string>, a: seq<Write>, b: seq<Write>)
    ensures NotLost(h, segments, a + b) == NotLost(h, segments, a) + NotLost(h, segments, b)
  {
    hide IsLost;
    if b == [] {
      assert a + b == a;
    } else {
      NotLostConcat(h, segments, a, b[..|b| - 1]);
      assert (a + b)[..|a + b| - 1] == a + b[..|b| - 1];
    }
  }

  lemma NotLostMore(h: Host, segments: seq<string>, writes: seq<Write>, w: Write)
    ensures NotLost(h, segments, writes + [w]) ==
            NotLost(h, segments, writes) + if IsLost(h, segments, w) then [] else [w.landing]
  {
    hide IsLost;
    assert (writes + [w])[..|writes|] == writes;
  }

  lemma {:induction false} TaggedResolve(h: Host, segments: seq<string>, at: nat, raws: seq<string>, s: Scan, cwd: Path)
    requires at <= |segments| && CwdKnown(h, segments, at) == (!s.cdSeen || s.cdBase.Some?)
    requires CwdKnown(h, segments, at) ==> cwd == if s.cdSeen then s.cdBase.value else h.base
    ensures ResolveAll(h, Tagged(raws, s.cdSeen, s.cdBase)) == NotLost(h, segments, WritesOf(h, cwd, at, raws))
  {
    hide IsAbsolute, Clean, Land, CwdKnown, NotLost, ResolveOne;
    if raws == [] {
      NothingLost(h, segments);
    } else {
      var last := |raws| - 1;
      TaggedResolve(h, segments, at, raws[..last], s, cwd);
      var tagged := Tagged(raws[..last], s.cdSeen, s.cdBase);
      assert (tagged + [Found(raws[last], s.cdSeen, s.cdBase)])[..|tagged|] == tagged;
      var name := Clean(h, raws[last]);
      var path := if IsAbsolute(name) then name else h.join(cwd, name);
      var before, write := WritesOf(h, cwd, at, raws[..last]), Write(at, name, Land(h, name, path));
      ResolveOneIs(h, Found(raws[last], s.cdSeen, s.cdBase));
      NotLostMore(h, segments, before, write);
      assert WritesOf(h, cwd, at, raws) == if name == "" then before else before + [write];
    }
  }

  lemma NothingLost(h: Host, segments: seq<string>)
    ensures NotLost(h, segments, []) == []
  {
  }

  /** The same, segment by segment. */
  lemma {:induction false} ScanRefinesTheShell(h: Host, sh: Shell, segments: seq<string>, i: nat)
    requires i <= |segments|
    ensures ResolveAll(h, ScanSegments(h, segments[..i]).found) == NotLost(h, segments, ShellRun(h, sh, segments, i))
  {
    hide IsCd, CdTarget, CwdAt, CwdKnown, LatestCd, ResolveOne, ResolveAll, Tagged, WritesOf, NotLost;
    if i == 0 {
      NothingFound(h);
      NothingLost(h, segments);
    } else {
      assert segments[..i][..i - 1] == segments[..i - 1];
      ScanRefinesTheShell(h, sh, segments, i - 1);
      if !IsCd(h, segments[i - 1]) {
        var s, raws := ScanSegments(h, segments[..i - 1]), h.scan(segments[i - 1]);
        var cwd := CwdAt(h, sh, segments, i - 1);
        CdStateIsTheShells(h, sh, segments, i - 1);
        TaggedResolve(h, segments, i - 1, raws, s, cwd);
        ResolveConcat(h, s.found, Tagged(raws, s.cdSeen, s.cdBase));
        NotLostConcat(h, segments, ShellRun(h, sh, segments, i - 1), WritesOf(h, cwd, i - 1, raws));
      }
    }
  }

  /**
   Whatever a relative cd does, the extractor emits what a shell that cuts the command at every
   separator writes, less exactly the lost writes: each target is the path the shell's directory
   gives at that moment, and one is dropped if and only if it is relative and the latest cd was
   not to a known absolute directory.
   */
  lemma ExtractRefinesTheShell(h: Host, sh: Shell, command: string, cut: seq<string>)
    requires command != "" && IsCut(command, cut)
    ensures Extracted(h, command) == NotLost(h, cut, ShellRun(h, sh, cut, |cut|))
  {
    hide Segments, ScanSegments, ResolveAll, NotLost, ShellRun;
    SegmentsCutTheCommand(command);
    assert StartOf(cut, 0) == StartOf(Segments(command), 0);
    OneCut(command, Segments(command), cut, 0);
    ScanRefinesTheShell(h, sh, cut, |cut|);
    assert cut[..|cut|] == cut;
  }

  lemma NothingFound(h: Host)
    ensures ResolveAll(h, []) == []
  {
  }
}
