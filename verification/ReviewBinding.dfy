/**
 bollard/foreman_evidence.py: the label a review claims outside its code regions,
 and its binding to an architecture through the stamp ledger.
 */
module ReviewBinding {
  import opened Wrappers
  import opened Sequences

  // ---- code regions --------------------------------------------------------

  function SkipBlanks(isSpace: char -> bool, text: string): string
  {
    if text != "" && isSpace(text[0]) then SkipBlanks(isSpace, text[1..]) else text
  }

  /** The marker a line starts with, white space aside, if it is one. */
  function FenceMark(isSpace: char -> bool, line: string): Option<string>
  {
    var stripped := SkipBlanks(isSpace, line);
    if "```" <= stripped then Some("```") else if "~~~" <= stripped then Some("~~~") else None
  }

  function Spaces(n: nat): (r: string)
    ensures |r| == n
  {
    seq(n, i => ' ')
  }

  /** Every inline code span of a line, blanked to its own length; an unpaired backtick stays. */
  function BlankInline(line: string): (r: string)
    ensures |r| == |line|
    decreases |line|
  {
    var open := IndexOf(line, '`');
    if open == |line| then line
    else
      var close := IndexFrom(line, '`', open + 1);
      if close == |line| then line
      else line[..open] + Spaces(close + 1 - open) + BlankInline(line[close + 1..])
  }

  /** The open fence's marker after these lines. */
  function FenceAfter(isSpace: char -> bool, lines: seq<string>): Option<string>
  {
    if lines == [] then None
    else
      var line := lines[|lines| - 1];
      match FenceAfter(isSpace, lines[..|lines| - 1])
      case None => FenceMark(isSpace, line)
      case Some(fence) => if FenceMark(isSpace, line) == Some(fence) then None else Some(fence)
  }

  function BlankLine(isSpace: char -> bool, fence: Option<string>, line: string): string
  {
    if fence.Some? || FenceMark(isSpace, line).Some? then "" else BlankInline(line)
  }

  function Blanked(isSpace: char -> bool, lines: seq<string>): (out: seq<string>)
    ensures |out| == |lines|
  {
    if lines == [] then []
    else
      var before := lines[..|lines| - 1];
      Blanked(isSpace, before) + [BlankLine(isSpace, FenceAfter(isSpace, before), lines[|lines| - 1])]
  }

  method BlankCodeRegions(isSpace: char -> bool, lines: seq<string>) returns (out: seq<string>)
    ensures out == Blanked(isSpace, lines)
  {
    hide BlankInline;
    out := [];
    var fence: Option<string> := None;
    for i := 0 to |lines|
      invariant out == Blanked(isSpace, lines[..i]) && fence == FenceAfter(isSpace, lines[..i])
    {
      assert lines[..i + 1][..i] == lines[..i];
      var stripped := SkipBlanks(isSpace, lines[i]);
      MarkIs(isSpace, lines[i]);
      FenceIsAMark(isSpace, lines[..i]);
      if fence == None && ("```" <= stripped || "~~~" <= stripped) {
        fence := Some(stripped[..3]);
        out := out + [""];
      } else if fence.Some? {
        if fence.value <= stripped {
          fence := None;
        }
        out := out + [""];
      } else {
        out := out + [BlankInline(lines[i])];
      }
    }
    assert lines[..|lines|] == lines;
  }

  lemma MarkIs(isSpace: char -> bool, line: string)
    ensures var stripped := SkipBlanks(isSpace, line);
      && (FenceMark(isSpace, line) == Some("```") <==> "```" <= stripped)
      && (FenceMark(isSpace, line) == Some("~~~") <==> "~~~" <= stripped)
      && (FenceMark(isSpace, line).Some? ==> FenceMark(isSpace, line).value == stripped[..3])
  {
  }

  lemma {:induction false} FenceIsAMark(isSpace: char -> bool, lines: seq<string>)
    ensures FenceAfter(isSpace, lines) in {None, Some("```"), Some("~~~")}
  {
    hide SkipBlanks;
    if lines != [] {
      FenceIsAMark(isSpace, lines[..|lines| - 1]);
    }
  }

  lemma {:induction false} SkipAt(isSpace: char -> bool, text: string) returns (n: nat)
    ensures n <= |text| && SkipBlanks(isSpace, text) == text[n..] && (forall k | 0 <= k < n :: isSpace(text[k]))
    ensures n < |text| ==> !isSpace(text[n])
  {
    if text == "" || !isSpace(text[0]) {
      n := 0;
    } else {
      var rest := SkipAt(isSpace, text[1..]);
      n := rest + 1;
      assert forall k | 0 < k < n :: text[k] == text[1..][k - 1];
    }
  }

  /** After white space only, the line has this marker at `n`. */
  predicate MarkedAt(isSpace: char -> bool, line: string, n: int, mark: string)
  {
    && 0 <= n <= |line| - 3 && line[n..n + 3] == mark && forall k | 0 <= k < n :: isSpace(line[k])
  }

  /** A fence line starts, white space aside, with three backticks or three tildes. */
  lemma FenceMarkIs(isSpace: char -> bool, line: string)
    requires !isSpace('`') && !isSpace('~')
    ensures FenceMark(isSpace, line) == Some("```") <==> exists n :: MarkedAt(isSpace, line, n, "```")
    ensures FenceMark(isSpace, line) == Some("~~~") <==> exists n :: MarkedAt(isSpace, line, n, "~~~")
    ensures FenceMark(isSpace, line) in {None, Some("```"), Some("~~~")}
  {
    MarkStands(isSpace, line, "```");
    MarkStands(isSpace, line, "~~~");
  }

  lemma MarkStands(isSpace: char -> bool, line: string, mark: string)
    requires |mark| == 3 && !isSpace(mark[0])
    ensures mark <= SkipBlanks(isSpace, line) <==> exists n :: MarkedAt(isSpace, line, n, mark)
  {
    hide SkipBlanks;
    var n := SkipAt(isSpace, line);
    var stripped := line[n..];
    if mark <= stripped {
      assert line[n..n + 3] == stripped[..3];
      assert MarkedAt(isSpace, line, n, mark);
    }
    if m :| MarkedAt(isSpace, line, m, mark) {
      assert line[m] == line[m..m + 3][0] == mark[0];
      assert m == n && stripped[..3] == line[n..n + 3];
    }
  }

  /** The backticks among the first `n` characters. */
  function Ticks(line: string, n: nat): nat
    requires n <= |line|
  {
    if n == 0 then 0 else Ticks(line, n - 1) + if line[n - 1] == '`' then 1 else 0
  }

  /** Read character by character: a backtick opens a span if another follows, and the next one closes it. */
  predicate InSpan(line: string, i: nat)
    requires i < |line|
  {
    var open, closes := Ticks(line, i) % 2 == 1, exists j | i < j < |line| :: line[j] == '`';
    if line[i] == '`' then open || closes else open && closes
  }

  lemma {:induction false} TicksOfRest(line: string, from: nat, n: nat)
    requires from <= n <= |line|
    ensures Ticks(line, n) == Ticks(line, from) + Ticks(line[from..], n - from)
  {
    if n > from {
      TicksOfRest(line, from, n - 1);
      assert line[from..][n - from - 1] == line[n - 1];
    }
  }

  lemma {:induction false} NoTicks(line: string, from: nat, n: nat)
    requires from <= n <= |line| && forall k | from <= k < n :: line[k] != '`'
    ensures Ticks(line, n) == Ticks(line, from)
  {
    if n > from {
      NoTicks(line, from, n - 1);
    }
  }

  lemma BlankUnfolds(line: string, open: nat, close: nat)
    requires open == IndexOf(line, '`') < |line| && close == IndexFrom(line, '`', open + 1)
    ensures close == |line| ==> BlankInline(line) == line
    ensures close < |line| ==> BlankInline(line) == line[..open] + Spaces(close + 1 - open) + BlankInline(line[close + 1..])
  {
    hide IndexOf, IndexFrom, Spaces;
  }

  lemma SpanOfFirst(line: string, open: nat, close: nat, i: nat)
    requires open < |line| && line[open] == '`' && forall k | 0 <= k < open :: line[k] != '`'
    requires open < close <= |line| && (forall k | open < k < close :: line[k] != '`') && (close < |line| ==> line[close] == '`')
    requires i < |line| && i <= close
    ensures InSpan(line, i) <==> open <= i && close < |line|
  {
    NoTicks(line, 0, if i <= open then i else open);
    if i > open {
      NoTicks(line, open + 1, i);
    }
  }

  /** Every inline code span becomes blanks, backticks included; every other character stays. */
  lemma {:induction false} InlineSpansAreBlank(line: string, i: nat)
    requires i < |line|
    ensures BlankInline(line)[i] == if InSpan(line, i) then ' ' else line[i]
    decreases |line|
  {
    hide IndexOf, IndexFrom, InSpan, BlankInline;
    var open := IndexOf(line, '`');
    if open == |line| {
      NoSpans(line, i);
    } else {
      var close := IndexFrom(line, '`', open + 1);
      BlankUnfolds(line, open, close);
      if i <= close {
        SpanOfFirst(line, open, close, i);
      } else {
        var rest := line[close + 1..];
        InlineSpansAreBlank(rest, i - close - 1);
        TicksAtClose(line, open, close);
        SpanOfRest(line, close, i);
      }
    }
  }

  lemma NoSpans(line: string, i: nat)
    requires i < |line| && IndexOf(line, '`') == |line|
    ensures BlankInline(line) == line && !InSpan(line, i)
  {
  }

  lemma TicksAtClose(line: string, open: nat, close: nat)
    requires open < close < |line| && line[open] == '`' == line[close] && forall k | 0 <= k < open :: line[k] != '`'
    requires forall k | open < k < close :: line[k] != '`'
    ensures Ticks(line, close + 1) == 2
  {
    NoTicks(line, 0, open);
    NoTicks(line, open + 1, close);
  }

  lemma SpanOfRest(line: string, close: nat, i: nat)
    requires close < i < |line| && Ticks(line, close + 1) % 2 == 0
    ensures InSpan(line, i) == InSpan(line[close + 1..], i - close - 1)
  {
    var rest := line[close + 1..];
    TicksOfRest(line, close + 1, i);
    assert forall j | i < j < |line| :: line[j] == rest[j - close - 1];
    assert forall j | i - close - 1 < j < |rest| :: rest[j] == line[j + close + 1];
  }

  /** Line `start` begins a fence of this marker, and no later line ends it. */
  predicate OpensAt(isSpace: char -> bool, lines: seq<string>, start: int, mark: string)
  {
    && 0 <= start < |lines| && FenceAfter(isSpace, lines[..start]) == None && FenceMark(isSpace, lines[start]) == Some(mark)
    && forall k | start < k < |lines| :: FenceMark(isSpace, lines[k]) != Some(mark)
  }

  /** A fence is open exactly when some line outside every fence opened it and its marker has not come again. */
  lemma {:induction false} FenceIs(isSpace: char -> bool, lines: seq<string>, mark: string)
    ensures FenceAfter(isSpace, lines) == Some(mark) <==> exists start :: OpensAt(isSpace, lines, start, mark)
  {
    hide FenceMark;
    if lines != [] {
      var n := |lines| - 1;
      var before := lines[..n];
      FenceIs(isSpace, before, mark);
      if start :| OpensAt(isSpace, lines, start, mark) && start < n {
        assert before[..start] == lines[..start];
        assert OpensAt(isSpace, before, start, mark);
      }
      if FenceAfter(isSpace, lines) == Some(mark) {
        if FenceAfter(isSpace, before) == None {
          assert OpensAt(isSpace, lines, n, mark);
        } else {
          var start :| OpensAt(isSpace, before, start, mark);
          assert before[..start] == lines[..start];
          assert OpensAt(isSpace, lines, start, mark);
        }
      }
    }
  }

  /** What blanking leaves of each line: nothing inside a fence and of its own two lines, else the line without its spans. */
  lemma {:induction false} BlankedAt(isSpace: char -> bool, lines: seq<string>, i: nat)
    requires i < |lines|
    ensures var fenced := FenceAfter(isSpace, lines[..i]) != None || FenceMark(isSpace, lines[i]) != None;
      && (fenced ==> Blanked(isSpace, lines)[i] == "")
      && (!fenced ==> |Blanked(isSpace, lines)[i]| == |lines[i]|)
      && (!fenced ==> forall j | 0 <= j < |lines[i]| ::
            Blanked(isSpace, lines)[i][j] == if InSpan(lines[i], j) then ' ' else lines[i][j])
  {
    hide FenceMark, FenceAfter, InSpan, BlankInline;
    var n := |lines| - 1;
    if i < n {
      BlankedAt(isSpace, lines[..n], i);
      assert lines[..n][..i] == lines[..i];
    } else {
      forall j | 0 <= j < |lines[i]| ensures BlankInline(lines[i])[j] == if InSpan(lines[i], j) then ' ' else lines[i][j] {
        InlineSpansAreBlank(lines[i], j);
      }
    }
  }

  // ---- the label -----------------------------------------------------------

  predicate IsHex(c: char)
  {
    '0' <= c <= '9' || 'a' <= c <= 'f'
  }

  /** The digest of a label line that starts right here. White space may run over line ends. */
  function MatchHere(isSpace: char -> bool, text: string, name: string): Option<string>
  {
    var head := "**" + name + ":**";
    if !(head <= text) then None
    else
      var rest := SkipBlanks(isSpace, text[|head|..]);
      if "sha256:" <= rest && |rest| >= 71 && (forall i | 7 <= i < 71 :: IsHex(rest[i])) then Some(rest[7..71])
      else None
  }

  function MatchAt(isSpace: char -> bool, text: string, name: string, p: nat): Option<string>
    requires p <= |text|
  {
    MatchHere(isSpace, text[p..], name)
  }

  /** The label in bold, white space, and sixty-four hexadecimal digits named sha256. */
  predicate IsLabel(isSpace: char -> bool, text: string, name: string, p: nat, gap: string, digest: string)
    requires p <= |text|
  {
    && "**" + name + ":**" + gap + "sha256:" + digest <= text[p..]
    && (forall i | 0 <= i < |gap| :: isSpace(gap[i]))
    && IsDigest(digest)
  }

  predicate IsDigest(digest: string)
  {
    |digest| == 64 && forall i | 0 <= i < 64 :: digest[i] in "0123456789abcdef"
  }

  lemma HexIs(c: char)
    ensures IsHex(c) <==> c in "0123456789abcdef"
  {
    if c in "0123456789abcdef" {
      var i :| 0 <= i < 16 && "0123456789abcdef"[i] == c;
    }
    if IsHex(c) {
      var digits := "0123456789abcdef";
      assert digits[if c <= '9' then (c - '0') as int else 10 + (c - 'a') as int] == c;
    }
  }

  lemma {:induction false} SkipGap(isSpace: char -> bool, gap: string, rest: string)
    requires (forall i | 0 <= i < |gap| :: isSpace(gap[i])) && (rest == "" || !isSpace(rest[0]))
    ensures SkipBlanks(isSpace, gap + rest) == rest
  {
    if gap == "" {
      assert gap + rest == rest;
    } else {
      SkipGap(isSpace, gap[1..], rest);
      assert (gap + rest)[1..] == gap[1..] + rest;
    }
  }

  lemma DigestIs(rest: string)
    requires |rest| >= 71
    ensures (forall i | 7 <= i < 71 :: IsHex(rest[i])) <==> IsDigest(rest[7..71])
  {
    hide IsHex;
    forall c ensures IsHex(c) <==> c in "0123456789abcdef" {
      HexIs(c);
    }
    var digest := rest[7..71];
    assert forall i | 7 <= i < 71 :: rest[i] == digest[i - 7];
    assert forall i | 0 <= i < 64 :: digest[i] == rest[i + 7];
  }

  /** What follows the label and its gap decides. */
  lemma MatchAfterGap(isSpace: char -> bool, name: string, gap: string, rest: string)
    requires (forall i | 0 <= i < |gap| :: isSpace(gap[i])) && (rest == "" || !isSpace(rest[0]))
    ensures MatchHere(isSpace, "**" + name + ":**" + (gap + rest), name) ==
            if "sha256:" <= rest && |rest| >= 71 && IsDigest(rest[7..71]) then Some(rest[7..71]) else None
  {
    hide SkipBlanks, IsHex;
    var head := "**" + name + ":**";
    SkipGap(isSpace, gap, rest);
    assert (head + (gap + rest))[|head|..] == gap + rest;
    if |rest| >= 71 {
      DigestIs(rest);
    }
  }

  /** What is extracted at a place, from the text there. */
  lemma MatchIs(isSpace: char -> bool, text: string, name: string, p: nat, digest: string)
    requires p <= |text| && !isSpace('s')
    ensures MatchAt(isSpace, text, name, p) == Some(digest) <==> exists gap :: IsLabel(isSpace, text, name, p, gap, digest)
  {
    if MatchAt(isSpace, text, name, p) == Some(digest) {
      var gap := MatchGivesLabel(isSpace, text, name, p, digest);
    }
    if gap :| IsLabel(isSpace, text, name, p, gap, digest) {
      LabelGivesMatch(isSpace, text, name, p, gap, digest);
    }
  }

  lemma MatchGivesLabel(isSpace: char -> bool, text: string, name: string, p: nat, digest: string) returns (gap: string)
    requires p <= |text| && MatchAt(isSpace, text, name, p) == Some(digest)
    ensures IsLabel(isSpace, text, name, p, gap, digest)
  {
    hide SkipBlanks, IsHex, IsDigest, MatchHere;
    var here, head := text[p..], "**" + name + ":**";
    StartsWithHead(isSpace, here, name);
    var after := here[|head|..];
    var n := SkipAt(isSpace, after);
    gap := after[..n];
    var rest := after[n..];
    assert after == gap + rest && here == head + after;
    MatchAfterGap(isSpace, name, gap, rest);
    RestIsDigest(rest, digest);
    assert here == (head + gap + "sha256:" + digest) + rest[71..];
  }

  lemma RestIsDigest(rest: string, digest: string)
    requires |rest| >= 71 && "sha256:" <= rest && rest[7..71] == digest
    ensures rest == "sha256:" + digest + rest[71..]
  {
    assert rest[..7] == "sha256:";
    assert rest == rest[..7] + rest[7..71] + rest[71..];
  }

  lemma StartsWithHead(isSpace: char -> bool, here: string, name: string)
    requires MatchHere(isSpace, here, name).Some?
    ensures "**" + name + ":**" <= here
  {
  }

  lemma LabelGivesMatch(isSpace: char -> bool, text: string, name: string, p: nat, gap: string, digest: string)
    requires p <= |text| && !isSpace('s') && IsLabel(isSpace, text, name, p, gap, digest)
    ensures MatchAt(isSpace, text, name, p) == Some(digest)
  {
    hide SkipBlanks, IsHex, IsDigest, MatchHere;
    var here, claim := text[p..], "**" + name + ":**" + gap + "sha256:" + digest;
    var rest := "sha256:" + digest + here[|claim|..];
    assert here == claim + here[|claim|..];
    assert here == "**" + name + ":**" + (gap + rest);
    assert |digest| == 64 by { DigestLength(digest); }
    assert rest[..7] == "sha256:" && rest[7..71] == digest;
    MatchAfterGap(isSpace, name, gap, rest);
  }

  lemma DigestLength(digest: string)
    requires IsDigest(digest)
    ensures |digest| == 64
  {
  }

  /** The last match at or after `from`; matches of a label without asterisks cannot overlap. */
  function LastMatch(isSpace: char -> bool, text: string, name: string, from: nat): Option<string>
    requires from <= |text|
    decreases |text| - from
  {
    if from == |text| then None
    else
      var later := LastMatch(isSpace, text, name, from + 1);
      if later.Some? then later else MatchAt(isSpace, text, name, from)
  }

  function ExtractLabeledHash(isSpace: char -> bool, lines: seq<string>, name: string): Option<string>
  {
    LastMatch(isSpace, BlankedText(isSpace, lines), name, 0)
  }

  function BlankedText(isSpace: char -> bool, lines: seq<string>): string
  {
    Join(Blanked(isSpace, lines), '\n')
  }

  /** A match at `p` and none further on. */
  ghost predicate IsLastMatch(isSpace: char -> bool, text: string, name: string, p: int, digest: string)
  {
    && 0 <= p < |text| && MatchAt(isSpace, text, name, p) == Some(digest)
    && forall q | p < q < |text| :: MatchAt(isSpace, text, name, q) == None
  }

  /** The digest is that of the match furthest on, and there is none only if nothing matches. */
  lemma {:induction false} LastMatchIsLast(isSpace: char -> bool, text: string, name: string, from: nat, digest: string)
    requires from <= |text|
    ensures LastMatch(isSpace, text, name, from) == Some(digest) <==>
            exists p :: from <= p && IsLastMatch(isSpace, text, name, p, digest)
    ensures LastMatch(isSpace, text, name, from) == None <==>
            forall p | from <= p < |text| :: MatchAt(isSpace, text, name, p) == None
    decreases |text| - from
  {
    hide MatchAt;
    if from < |text| {
      LastMatchIsLast(isSpace, text, name, from + 1, digest);
      var later := LastMatch(isSpace, text, name, from + 1);
      if later.Some? {
        LastMatchIsLast(isSpace, text, name, from + 1, later.value);
      } else if MatchAt(isSpace, text, name, from) == Some(digest) {
        assert IsLastMatch(isSpace, text, name, from, digest);
      }
    }
  }

  /** A label of this digest stands at `p`. */
  ghost predicate LabelAt(isSpace: char -> bool, text: string, name: string, p: nat, digest: string)
    requires p <= |text|
  {
    exists gap :: IsLabel(isSpace, text, name, p, gap, digest)
  }

  /** A label stands at `p`, and none further on. */
  ghost predicate IsLastLabel(isSpace: char -> bool, text: string, name: string, p: int, digest: string)
  {
    && 0 <= p < |text| && LabelAt(isSpace, text, name, p, digest)
    && forall q, other | p < q < |text| :: !LabelAt(isSpace, text, name, q, other)
  }

  /** The label extracted from a document is the last one that stands in its blanked text. */
  lemma LabelIs(isSpace: char -> bool, lines: seq<string>, name: string, digest: string)
    requires !isSpace('s')
    ensures ExtractLabeledHash(isSpace, lines, name) == Some(digest) <==>
            exists p :: IsLastLabel(isSpace, BlankedText(isSpace, lines), name, p, digest)
  {
    hide IsLastLabel, LastMatch, BlankedText;
    LastLabelIs(isSpace, BlankedText(isSpace, lines), name, digest);
  }

  lemma LastLabelIs(isSpace: char -> bool, text: string, name: string, digest: string)
    requires !isSpace('s')
    ensures LastMatch(isSpace, text, name, 0) == Some(digest) <==> exists p :: IsLastLabel(isSpace, text, name, p, digest)
  {
    hide LabelAt, MatchAt, LastMatch;
    LastMatchIsLast(isSpace, text, name, 0, digest);
    forall p: nat, d | p <= |text| ensures MatchAt(isSpace, text, name, p) == Some(d) <==> LabelAt(isSpace, text, name, p, d) {
      MatchIsLabel(isSpace, text, name, p, d);
    }
    if p :| IsLastLabel(isSpace, text, name, p, digest) {
      forall q | p < q < |text| ensures MatchAt(isSpace, text, name, q) == None {
        NoMatchIs(isSpace, text, name, q);
      }
      assert IsLastMatch(isSpace, text, name, p, digest);
    }
    if p :| 0 <= p && IsLastMatch(isSpace, text, name, p, digest) {
      assert IsLastLabel(isSpace, text, name, p, digest);
    }
  }

  lemma NoMatchIs(isSpace: char -> bool, text: string, name: string, p: nat)
    requires p <= |text| && !isSpace('s')
    ensures MatchAt(isSpace, text, name, p) == None <==> forall digest :: !LabelAt(isSpace, text, name, p, digest)
  {
    hide LabelAt, MatchAt;
    forall digest ensures MatchAt(isSpace, text, name, p) == Some(digest) <==> LabelAt(isSpace, text, name, p, digest) {
      MatchIsLabel(isSpace, text, name, p, digest);
    }
    var found := MatchAt(isSpace, text, name, p);
    assert found.Some? ==> found == Some(found.value);
  }

  lemma MatchIsLabel(isSpace: char -> bool, text: string, name: string, p: nat, digest: string)
    requires p <= |text| && !isSpace('s')
    ensures MatchAt(isSpace, text, name, p) == Some(digest) <==> LabelAt(isSpace, text, name, p, digest)
  {
    MatchIs(isSpace, text, name, p, digest);
  }

  /** The label line a pass writes. */
  function LabelLine(name: string, digest: string): string
  {
    "**" + name + ":** sha256:" + digest
  }

  /** A label line is read back, and no match starts inside it. */
  lemma LabelLineMatches(isSpace: char -> bool, name: string, digest: string, q: nat)
    requires IsDigest(digest) && '*' !in name && isSpace(' ') && !isSpace('s')
    requires q < |LabelLine(name, digest)|
    ensures MatchHere(isSpace, LabelLine(name, digest)[q..], name) == if q == 0 then Some(digest) else None
  {
    var head, line := "**" + name + ":**", LabelLine(name, digest);
    var n := |name|;
    if q == 0 {
      assert line[0..] == line && line[..|head|] == head;
      var rest := line[|head|..];
      assert rest == " sha256:" + digest && rest[1..] == "sha256:" + digest;
      assert SkipBlanks(isSpace, rest) == "sha256:" + digest;
      assert ("sha256:" + digest)[7..71] == digest;
    } else {
      assert head <= line[q..] ==> q + n + 4 < |line| && line[q + n + 3] == head[n + 3] && line[q + 1] == head[1];
      assert head[n + 3] == '*' && head[1] == '*';
      if q + n + 4 < |line| {
        AsterisksOfLabelLine(name, digest, q + n + 3);
        AsterisksOfLabelLine(name, digest, q + 1);
      }
    }
  }

  lemma AsterisksOfLabelLine(name: string, digest: string, i: nat)
    requires IsDigest(digest) && '*' !in name && i < |LabelLine(name, digest)|
    ensures LabelLine(name, digest)[i] == '*' ==> i in {0, 1, |name| + 3, |name| + 4}
  {
  }

  lemma {:induction false} JoinLast(lines: seq<string>, last: string)
    ensures Join(lines + [last], '\n') == (if lines == [] then "" else Join(lines, '\n') + "\n") + last
  {
    if lines == [] {
      assert lines + [last] == [last];
    } else {
      assert (lines + [last])[1..] == lines[1..] + [last];
      JoinLast(lines[1..], last);
    }
  }

  /** A pass appended outside every fence is the one that counts, whatever earlier passes claim. */
  lemma AppendedPassWins(isSpace: char -> bool, lines: seq<string>, name: string, digest: string)
    requires IsDigest(digest) && '*' !in name && '`' !in name && isSpace(' ') && !isSpace('s') && !isSpace('*')
    requires FenceAfter(isSpace, lines) == None
    ensures ExtractLabeledHash(isSpace, lines + [LabelLine(name, digest)], name) == Some(digest)
  {
    hide MatchHere, FenceAfter, Blanked, LabelLine, Join;
    var line := LabelLine(name, digest);
    PlainLineStays(isSpace, name, digest);
    BlankedLast(isSpace, lines, line);
    var blanked := Blanked(isSpace, lines);
    var front := if lines == [] then "" else Join(blanked, '\n') + "\n";
    JoinLast(blanked, line);
    LineIsLastMatch(isSpace, front, name, digest);
    LastMatchIsLast(isSpace, front + line, name, 0, digest);
  }

  lemma BlankedLast(isSpace: char -> bool, lines: seq<string>, line: string)
    ensures Blanked(isSpace, lines + [line]) ==
            Blanked(isSpace, lines) + [BlankLine(isSpace, FenceAfter(isSpace, lines), line)]
  {
  }

  lemma LineIsLastMatch(isSpace: char -> bool, front: string, name: string, digest: string)
    requires IsDigest(digest) && '*' !in name && isSpace(' ') && !isSpace('s')
    ensures IsLastMatch(isSpace, front + LabelLine(name, digest), name, |front|, digest)
  {
    hide MatchHere;
    var line := LabelLine(name, digest);
    var text := front + line;
    forall q: nat | |front| <= q < |text|
      ensures MatchAt(isSpace, text, name, q) == if q == |front| then Some(digest) else None
    {
      assert text[q..] == line[q - |front|..];
      LabelLineMatches(isSpace, name, digest, q - |front|);
    }
  }

  lemma PlainLineStays(isSpace: char -> bool, name: string, digest: string)
    requires IsDigest(digest) && '`' !in name && !isSpace('*')
    ensures BlankLine(isSpace, None, LabelLine(name, digest)) == LabelLine(name, digest)
  {
    var line := LabelLine(name, digest);
    assert SkipBlanks(isSpace, line) == line && line[0] == '*';
    assert FenceMark(isSpace, line) == None;
    assert forall i | 0 <= i < 64 :: digest[i] != '`';
    assert '`' !in line;
  }

  /** Line `i` stands inside an open fence and does not close it. */
  predicate InFence(isSpace: char -> bool, lines: seq<string>, i: nat)
    requires i < |lines|
  {
    var fence := FenceAfter(isSpace, lines[..i]);
    fence.Some? && FenceMark(isSpace, lines[i]) != fence
  }

  /** `b` is `a` with some lines inside fences replaced by others that close nothing. */
  predicate RewritesFenced(isSpace: char -> bool, a: seq<string>, b: seq<string>)
  {
    && |a| == |b|
    && forall i | 0 <= i < |a| ::
         a[i] == b[i] || (InFence(isSpace, a, i) && FenceMark(isSpace, b[i]) != FenceAfter(isSpace, a[..i]))
  }

  lemma {:induction false} FencedTextIsBlank(isSpace: char -> bool, a: seq<string>, b: seq<string>, n: nat)
    requires RewritesFenced(isSpace, a, b) && n <= |a|
    ensures FenceAfter(isSpace, a[..n]) == FenceAfter(isSpace, b[..n])
    ensures Blanked(isSpace, a[..n]) == Blanked(isSpace, b[..n])
  {
    hide FenceMark, BlankInline;
    if n > 0 {
      FencedTextIsBlank(isSpace, a, b, n - 1);
      assert a[..n][..n - 1] == a[..n - 1] && b[..n][..n - 1] == b[..n - 1];
    }
  }

  /** Rewriting the inside of fences never changes the label, whatever label lines it adds or removes. */
  lemma LabelIgnoresFencedText(isSpace: char -> bool, a: seq<string>, b: seq<string>, name: string)
    requires RewritesFenced(isSpace, a, b)
    ensures ExtractLabeledHash(isSpace, a, name) == ExtractLabeledHash(isSpace, b, name)
  {
    hide InFence, LastMatch, Join;
    FencedTextIsBlank(isSpace, a, b, |a|);
    assert a[..|a|] == a && b[..|b|] == b;
  }

  /** The document with everything inside its fences emptied; an unterminated fence runs to the end. */
  function Emptied(isSpace: char -> bool, lines: seq<string>): (out: seq<string>)
    ensures |out| == |lines|
  {
    seq(|lines|, i requires 0 <= i < |lines| => if InFence(isSpace, lines, i) then "" else lines[i])
  }

  /** So the label is a function of the lines outside fences alone. */
  lemma LabelReadsOutsideFencesOnly(isSpace: char -> bool, lines: seq<string>, name: string)
    ensures ExtractLabeledHash(isSpace, lines, name) == ExtractLabeledHash(isSpace, Emptied(isSpace, lines), name)
  {
    hide ExtractLabeledHash, InFence;
    var emptied := Emptied(isSpace, lines);
    assert FenceMark(isSpace, "") == None;
    forall i | 0 <= i < |lines|
      ensures lines[i] == emptied[i]
              || (InFence(isSpace, lines, i) && FenceMark(isSpace, emptied[i]) != FenceAfter(isSpace, lines[..i]))
    {
      if InFence(isSpace, lines, i) {
        FencedHasMark(isSpace, lines, i);
      }
    }
    LabelIgnoresFencedText(isSpace, lines, emptied, name);
  }

  lemma FencedHasMark(isSpace: char -> bool, lines: seq<string>, i: nat)
    requires i < |lines| && InFence(isSpace, lines, i)
    ensures FenceAfter(isSpace, lines[..i]).Some?
  {
  }

  /** What stands between a line's first two backticks does not matter either, its length aside. */
  lemma InlineTextIsBlank(before: string, x: string, y: string, after: string)
    requires '`' !in before && '`' !in x && '`' !in y && |x| == |y|
    ensures BlankInline(before + "`" + x + "`" + after) == BlankInline(before + "`" + y + "`" + after)
  {
    hide BlankInline;
    BlankFirstSpan(before, x, after);
    BlankFirstSpan(before, y, after);
  }

  lemma BlankFirstSpan(before: string, x: string, after: string)
    requires '`' !in before && '`' !in x
    ensures BlankInline(before + "`" + x + "`" + after) == before + Spaces(|x| + 2) + BlankInline(after)
  {
    var line := before + "`" + x + "`" + after;
    var open, close := |before|, |before| + 1 + |x|;
    assert forall k | 0 <= k < open :: line[k] == before[k] && before[k] in before;
    assert forall k | open < k < close :: line[k] == x[k - open - 1] && x[k - open - 1] in x;
    IndexOfIs(line, '`', open);
    assert line[close] == '`';
    assert IndexFrom(line, '`', open + 1) == close;
    assert line[..open] == before && line[close + 1..] == after;
  }

  // ---- the ledger ----------------------------------------------------------

  type Bytes = string
  type Digest = string

  /** A ledger line as read: blank, not UTF-8, not JSON, about something else, or a stamp of this artifact. */
  datatype LedgerLine = Empty | NotUtf8 | NotJson | Other | Stamp(sha256: Option<Digest>)

  /** A file: absent or unhashable, or its bytes. */
  datatype Disk = Disk(review: Option<Bytes>, architecture: Option<Bytes>, ledger: Option<seq<LedgerLine>>)

  datatype Verdict = Bound | Unbound | Mismatch | Error | Raised

  /** SHA-256 of bytes, and the lines of a UTF-8 text (None when it is not one). */
  datatype Reader = Reader(isSpace: char -> bool, name: string, digest: Bytes -> Digest, lines: Bytes -> Option<seq<string>>)

  function LatestStamp(ledger: seq<LedgerLine>): (latest: Option<LedgerLine>)
    ensures latest.Some? ==> latest.value.Stamp?
  {
    if ledger == [] then None
    else if ledger[|ledger| - 1].Stamp? then Some(ledger[|ledger| - 1])
    else LatestStamp(ledger[..|ledger| - 1])
  }

  function LabelVerdict(r: Reader, review: Bytes, architecture: Bytes): Verdict
  {
    match r.lines(review)
    case None => Raised
    case Some(lines) =>
      match ExtractLabeledHash(r.isSpace, lines, r.name)
      case None => Unbound
      case Some(claimed) => if claimed == r.digest(architecture) then Bound else Mismatch
  }

  function Binding(r: Reader, disk: Disk): Verdict
  {
    if disk.review == None || disk.architecture == None then Error
    else if disk.ledger == None then Unbound
    else if NotUtf8 in disk.ledger.value then Raised
    else if NotJson in disk.ledger.value then Error
    else
      match LatestStamp(disk.ledger.value)
      case None => Unbound
      case Some(stamp) =>
        if stamp.sha256 != Some(r.digest(disk.review.value)) then Mismatch
        else LabelVerdict(r, disk.review.value, disk.architecture.value)
  }

  method ReviewBindsArchitectureViaLedger(r: Reader, disk: Disk) returns (verdict: Verdict)
    ensures verdict == Binding(r, disk)
  {
    hide LabelVerdict;
    if disk.review == None {
      return Error;
    }
    if disk.architecture == None {
      return Error;
    }
    if disk.ledger == None {
      return Unbound;
    }
    var ledger := disk.ledger.value;
    // The whole file is decoded before its first line is read.
    if NotUtf8 in ledger {
      return Raised;
    }
    var latest: Option<LedgerLine> := None;
    for i := 0 to |ledger|
      invariant latest == LatestStamp(ledger[..i]) && NotJson !in ledger[..i]
    {
      assert ledger[..i + 1][..i] == ledger[..i];
      match ledger[i] {
        case NotJson => return Error;
        case Stamp(_) => latest := Some(ledger[i]);
        case _ =>
      }
    }
    assert ledger[..|ledger|] == ledger;
    if latest == None {
      return Unbound;
    }
    if latest.value.sha256 != Some(r.digest(disk.review.value)) {
      return Mismatch;
    }
    verdict := LabelVerdict(r, disk.review.value, disk.architecture.value);
  }

  /** The last stamp of this artifact stands at `at`, with this digest. */
  predicate LastStampAt(ledger: seq<LedgerLine>, at: int, sha256: Option<Digest>)
  {
    0 <= at < |ledger| && ledger[at] == Stamp(sha256) && forall k | at < k < |ledger| :: !ledger[k].Stamp?
  }

  lemma {:induction false} LatestIs(ledger: seq<LedgerLine>, sha256: Option<Digest>)
    ensures LatestStamp(ledger) == Some(Stamp(sha256)) <==> exists at :: LastStampAt(ledger, at, sha256)
  {
    if ledger != [] {
      var n := |ledger| - 1;
      LatestIs(ledger[..n], sha256);
      if ledger[n].Stamp? {
        assert ledger[n] == Stamp(sha256) ==> LastStampAt(ledger, n, sha256);
      } else {
        if at :| LastStampAt(ledger[..n], at, sha256) {
          assert LastStampAt(ledger, at, sha256);
        }
        if at :| LastStampAt(ledger, at, sha256) {
          assert LastStampAt(ledger[..n], at, sha256);
        }
      }
    }
  }

  /** There are two files and a ledger of JSON lines, and the last stamp has this digest. */
  ghost predicate IsStampedAs(disk: Disk, sha256: Option<Digest>)
  {
    && disk.review.Some? && disk.architecture.Some? && disk.ledger.Some?
    && NotUtf8 !in disk.ledger.value && NotJson !in disk.ledger.value
    && exists at :: LastStampAt(disk.ledger.value, at, sha256)
  }

  ghost predicate IsStampedNow(r: Reader, disk: Disk)
  {
    disk.review.Some? && IsStampedAs(disk, Some(r.digest(disk.review.value)))
  }

  /** The review's text has this label. */
  predicate Claims(r: Reader, disk: Disk, claimed: Option<string>)
    requires disk.review.Some?
  {
    var lines := r.lines(disk.review.value);
    lines.Some? && ExtractLabeledHash(r.isSpace, lines.value, r.name) == claimed
  }

  ghost predicate ClaimsAnother(r: Reader, disk: Disk)
    requires disk.review.Some? && disk.architecture.Some?
  {
    exists claimed :: Claims(r, disk, Some(claimed)) && claimed != r.digest(disk.architecture.value)
  }

  ghost predicate StampedAsAnother(r: Reader, disk: Disk)
    requires disk.review.Some?
  {
    exists sha256 :: IsStampedAs(disk, sha256) && sha256 != Some(r.digest(disk.review.value))
  }

  /**
   Each verdict by what the files hold. A ledger that is not UTF-8 raises before a malformed line
   is an error, and a last stamp of other bytes, or with no digest, mismatches before the review is read.
   */
  lemma VerdictIs(r: Reader, disk: Disk)
    ensures Binding(r, disk) == Error <==>
            || disk.review == None || disk.architecture == None
            || (disk.ledger.Some? && NotUtf8 !in disk.ledger.value && NotJson in disk.ledger.value)
    ensures disk.review.Some? && disk.architecture.Some? ==>
              && (Binding(r, disk) == Raised <==>
                    || (disk.ledger.Some? && NotUtf8 in disk.ledger.value)
                    || (IsStampedNow(r, disk) && r.lines(disk.review.value) == None))
              && (Binding(r, disk) == Mismatch <==>
                    StampedAsAnother(r, disk) || (IsStampedNow(r, disk) && ClaimsAnother(r, disk)))
              && (Binding(r, disk) == Bound <==>
                    IsStampedNow(r, disk) && Claims(r, disk, Some(r.digest(disk.architecture.value))))
              && (Binding(r, disk) == Unbound <==>
                    || disk.ledger == None
                    || (&& NotUtf8 !in disk.ledger.value && NotJson !in disk.ledger.value
                        && forall k | 0 <= k < |disk.ledger.value| :: !disk.ledger.value[k].Stamp?)
                    || (IsStampedNow(r, disk) && Claims(r, disk, None)))
  {
    hide ExtractLabeledHash, LatestStamp, LastStampAt, IsStampedAs, Claims;
    if disk.review.Some? && disk.architecture.Some? && disk.ledger.Some? {
      var ledger, latest := disk.ledger.value, LatestStamp(disk.ledger.value);
      LatestIsNone(ledger);
      forall sha256 ensures IsStampedAs(disk, sha256) <==> StampIsRead(ledger) && latest == Some(Stamp(sha256)) {
        StampedAsIs(disk, sha256);
      }
      ClaimsIs(r, disk);
    } else {
      NotStamped(disk);
    }
  }

  predicate StampIsRead(ledger: seq<LedgerLine>)
  {
    NotUtf8 !in ledger && NotJson !in ledger
  }

  lemma StampedAsIs(disk: Disk, sha256: Option<Digest>)
    requires disk.review.Some? && disk.architecture.Some? && disk.ledger.Some?
    ensures IsStampedAs(disk, sha256) <==> StampIsRead(disk.ledger.value) && LatestStamp(disk.ledger.value) == Some(Stamp(sha256))
  {
    LatestIs(disk.ledger.value, sha256);
  }

  lemma NotStamped(disk: Disk)
    requires !(disk.review.Some? && disk.architecture.Some? && disk.ledger.Some?)
    ensures forall sha256 :: !IsStampedAs(disk, sha256)
  {
  }

  lemma ClaimsIs(r: Reader, disk: Disk)
    requires disk.review.Some? && disk.architecture.Some?
    ensures var lines := r.lines(disk.review.value);
      && (lines == None ==> forall claimed :: !Claims(r, disk, claimed))
      && (lines.Some? ==> forall claimed ::
            Claims(r, disk, claimed) <==> ExtractLabeledHash(r.isSpace, lines.value, r.name) == claimed)
  {
  }

  lemma {:induction false} LatestIsNone(ledger: seq<LedgerLine>)
    ensures LatestStamp(ledger) == None <==> forall k | 0 <= k < |ledger| :: !ledger[k].Stamp?
  {
    if ledger != [] {
      LatestIsNone(ledger[..|ledger| - 1]);
    }
  }

  // ---- histories -----------------------------------------------------------

  datatype Event =
    | EditReview(bytes: Option<Bytes>)
    | EditArchitecture(bytes: Option<Bytes>)
    | StampReview
    | Append(line: LedgerLine)

  /** Stamping hashes the review as it is and appends that. */
  function Apply(r: Reader, disk: Disk, e: Event): Disk
  {
    var ledger := if disk.ledger.Some? then disk.ledger.value else [];
    match e
    case EditReview(bytes) => disk.(review := bytes)
    case EditArchitecture(bytes) => disk.(architecture := bytes)
    case StampReview =>
      if disk.review == None then disk else disk.(ledger := Some(ledger + [Stamp(Some(r.digest(disk.review.value)))]))
    case Append(line) => disk.(ledger := Some(ledger + [line]))
  }

  const NO_FILES := Disk(None, None, None)

  function DiskAfter(r: Reader, history: seq<Event>): Disk
  {
    if history == [] then NO_FILES else Apply(r, DiskAfter(r, history[..|history| - 1]), history[|history| - 1])
  }

  /** The review's content when it was last stamped. */
  function StampedReview(r: Reader, history: seq<Event>): Option<Bytes>
  {
    if history == [] then None
    else
      var before := history[..|history| - 1];
      var review := DiskAfter(r, before).review;
      if history[|history| - 1].StampReview? && review.Some? then review else StampedReview(r, before)
  }

  /** Other lines may be appended to the ledger, malformed ones too; this artifact's entries come from stamping. */
  predicate OnlyStampsStamp(history: seq<Event>)
  {
    forall i | 0 <= i < |history| && history[i].Append? :: !history[i].line.Stamp?
  }

  predicate Appended(history: seq<Event>, line: LedgerLine)
  {
    exists i :: 0 <= i < |history| && history[i] == Append(line)
  }

  function LedgerOf(disk: Disk): seq<LedgerLine>
  {
    if disk.ledger.Some? then disk.ledger.value else []
  }

  function StampOf(r: Reader, review: Option<Bytes>): Option<LedgerLine>
  {
    match review case None => None case Some(bytes) => Some(Stamp(Some(r.digest(bytes))))
  }

  /** The ledger, against what the history says was appended to it and last stamped. */
  ghost predicate LedgerTells(r: Reader, history: seq<Event>)
  {
    var ledger := LedgerOf(DiskAfter(r, history));
    && (NotJson in ledger <==> Appended(history, NotJson))
    && (NotUtf8 in ledger <==> Appended(history, NotUtf8))
    && LatestStamp(ledger) == StampOf(r, StampedReview(r, history))
  }

  lemma {:induction false} LedgerTellsTheHistory(r: Reader, history: seq<Event>)
    requires OnlyStampsStamp(history)
    ensures LedgerTells(r, history)
  {
    hide LedgerTells, Apply, DiskAfter, StampedReview;
    if history == [] {
      EmptyLedgerTells(r);
    } else {
      var before, e := history[..|history| - 1], history[|history| - 1];
      assert forall i | 0 <= i < |before| :: before[i] == history[i];
      LedgerTellsTheHistory(r, before);
      LedgerTellsOneMore(r, before, e);
      assert history == before + [e];
    }
  }

  lemma EmptyLedgerTells(r: Reader)
    ensures LedgerTells(r, [])
  {
  }

  lemma OneMoreEvent(r: Reader, before: seq<Event>, e: Event)
    ensures DiskAfter(r, before + [e]) == Apply(r, DiskAfter(r, before), e)
    ensures var review := DiskAfter(r, before).review;
      StampedReview(r, before + [e]) == if e.StampReview? && review.Some? then review else StampedReview(r, before)
  {
    hide Apply;
    assert (before + [e])[..|before|] == before;
  }

  /** The line an event appends, if it appends one. */
  function LineOf(r: Reader, disk: Disk, e: Event): Option<LedgerLine>
  {
    match e
    case StampReview => StampOf(r, disk.review)
    case Append(line) => Some(line)
    case _ => None
  }

  lemma LedgerOneMore(r: Reader, disk: Disk, e: Event)
    ensures LedgerOf(Apply(r, disk, e)) ==
            match LineOf(r, disk, e) case None => LedgerOf(disk) case Some(line) => LedgerOf(disk) + [line]
  {
  }

  lemma LedgerTellsOneMore(r: Reader, before: seq<Event>, e: Event)
    requires LedgerTells(r, before) && (e.Append? ==> !e.line.Stamp?)
    ensures LedgerTells(r, before + [e])
  {
    hide Apply, DiskAfter, StampedReview, LedgerOf, LatestStamp, Appended;
    var disk := DiskAfter(r, before);
    OneMoreEvent(r, before, e);
    LedgerOneMore(r, disk, e);
    AppendedOneMore(before, e, NotJson);
    AppendedOneMore(before, e, NotUtf8);
    var line := LineOf(r, disk, e);
    if line.Some? {
      LatestOfMore(LedgerOf(disk), line.value);
    }
  }

  lemma LatestOfNone()
    ensures LatestStamp([]) == None
  {
  }

  lemma LatestOfMore(ledger: seq<LedgerLine>, line: LedgerLine)
    ensures LatestStamp(ledger + [line]) == if line.Stamp? then Some(line) else LatestStamp(ledger)
  {
  }

  lemma AppendedOneMore(before: seq<Event>, e: Event, line: LedgerLine)
    ensures Appended(before + [e], line) <==> Appended(before, line) || e == Append(line)
  {
    var more := before + [e];
    if i :| 0 <= i < |before| && before[i] == Append(line) {
      assert more[i] == before[i];
    }
    assert more[|before|] == e;
  }

  /**
   After any history of edits, stamps and other ledger lines, the review is bound exactly when
   no ledger line is malformed, it is what it was at its last stamp, and the last label outside
   its code names the architecture as it is now.
   */
  lemma BoundIffStampedAndCurrent(r: Reader, history: seq<Event>)
    requires OnlyStampsStamp(history)
    requires forall a, b :: r.digest(a) == r.digest(b) ==> a == b
    ensures var disk := DiskAfter(r, history);
      Binding(r, disk) == Bound <==>
        && !Appended(history, NotJson) && !Appended(history, NotUtf8)
        && disk.review.Some? && disk.architecture.Some?
        && StampedReview(r, history) == disk.review
        && r.lines(disk.review.value).Some?
        && ExtractLabeledHash(r.isSpace, r.lines(disk.review.value).value, r.name) == Some(r.digest(disk.architecture.value))
  {
    hide LatestStamp, ExtractLabeledHash, Appended, DiskAfter, StampedReview;
    LedgerTellsTheHistory(r, history);
    LatestOfNone();
  }

  /** An edit of either file after the stamp unbinds it, until both agree again. */
  lemma EditUnbinds(r: Reader, history: seq<Event>, bytes: Bytes)
    requires OnlyStampsStamp(history) && Binding(r, DiskAfter(r, history)) == Bound
    requires forall a, b :: r.digest(a) == r.digest(b) ==> a == b
    ensures bytes != DiskAfter(r, history).review.value ==>
              Binding(r, DiskAfter(r, history + [EditReview(Some(bytes))])) == Mismatch
    ensures bytes != DiskAfter(r, history).architecture.value ==>
              Binding(r, DiskAfter(r, history + [EditArchitecture(Some(bytes))])) == Mismatch
  {
  }
}
