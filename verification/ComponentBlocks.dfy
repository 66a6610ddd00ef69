/**
 The two parsers of ARCHITECTURE.md's component blocks: the strict one of
 atlas/registry/architecture_parse.py (`iter_block_lines`, `parse_block`) and
 the lenient one of bollard/component_coupling.py (`parse_component_map`).

 A document is its lines, each already stripped, as both parsers first make it.
 */
module ComponentBlocks {
  import opened Wrappers

  /** One declared component. A component map is a Python dict: names in insertion order. */
  datatype Component = Component(name: string, globs: seq<string>)

  type ComponentMap = seq<Component>

  /** json.loads of an entry's value, and the shape check on it. */
  datatype Loaded = NotJson | NotStrings | Globs(globs: seq<string>)

  datatype Python = Python(isWord: char -> bool, isSpace: char -> bool, loads: string -> Loaded)

  const OPENING := "```yaml components"
  const FENCE := "```"

  // ---- one entry -----------------------------------------------------------

  predicate IsLetter(c: char)
  {
    'a' <= c <= 'z' || 'A' <= c <= 'Z' || c == '_'
  }

  predicate IsEntryName(py: Python, name: string)
  {
    name != [] && IsLetter(name[0]) && forall i | 1 <= i < |name| :: py.isWord(name[i]) || name[i] == '-'
  }

  function ColonAt(line: string): (i: nat)
    ensures i <= |line| && ':' !in line[..i] && (i < |line| ==> line[i] == ':')
  {
    if line == [] || line[0] == ':' then 0
    else
      var i := ColonAt(line[1..]);
      assert line[..i + 1] == [line[0]] + line[1..][..i];
      i + 1
  }

  function TrimLeft(py: Python, text: string): string
  {
    if text != [] && py.isSpace(text[0]) then TrimLeft(py, text[1..]) else text
  }

  predicate IsArrayText(text: string)
  {
    |text| >= 2 && text[0] == '[' && text[|text| - 1] == ']'
  }

  /** Both modules' entry pattern: a name, a colon, white space, a bracketed rest. */
  function EntryMatch(py: Python, line: string): Option<(string, string)>
  {
    var i := ColonAt(line);
    if i == |line| then None
    else
      var name, value := line[..i], TrimLeft(py, line[i + 1..]);
      if IsEntryName(py, name) && IsArrayText(value) then Some((name, value)) else None
  }

  // ---- the lines inside the blocks -----------------------------------------

  datatype Numbered = Numbered(number: nat, text: string)

  datatype Scan = Scan(inside: bool, found: bool, body: seq<Numbered>)

  function ScanLines(lines: seq<string>): Scan
  {
    if lines == [] then Scan(false, false, [])
    else
      var last := |lines| - 1;
      var s := ScanLines(lines[..last]);
      if !s.inside && OPENING <= lines[last] then s.(inside := true, found := true)
      else if s.inside && FENCE <= lines[last] then s.(inside := false)
      else if s.inside then s.(body := s.body + [Numbered(|lines|, lines[last])])
      else s
  }

  /** `iter_block_lines`; None is BlockMissing. */
  method IterBlockLines(lines: seq<string>) returns (body: Option<seq<Numbered>>)
    ensures body == if ScanLines(lines).found then Some(ScanLines(lines).body) else None
  {
    var inside, foundAny := false, false;
    var yielded: seq<Numbered> := [];
    for i := 0 to |lines|
      invariant ScanLines(lines[..i]) == Scan(inside, foundAny, yielded)
    {
      assert lines[..i + 1][..i] == lines[..i];
      if !inside && OPENING <= lines[i] {
        inside, foundAny := true, true;
      } else if inside && FENCE <= lines[i] {
        inside := false;
      } else if inside {
        yielded := yielded + [Numbered(i + 1, lines[i])];
      }
    }
    assert lines[..|lines|] == lines;
    body := if foundAny then Some(yielded) else None;
  }

  // ---- the strict parser ---------------------------------------------------

  datatype Why = NotAnEntry | InvalidJson | WrongShape | DeclaredTwice

  datatype Strict = Parsed(components: ComponentMap) | BlockMissing | BlockMalformed(line: nat, why: Why)

  predicate Ignorable(text: string)
  {
    text == [] || text[0] == '#'
  }

  predicate Names(components: ComponentMap, name: string)
  {
    exists i :: 0 <= i < |components| && components[i].name == name
  }

  function StrictEntry(py: Python, components: ComponentMap, line: Numbered): Strict
  {
    if Ignorable(line.text) then Parsed(components)
    else
      match EntryMatch(py, line.text)
      case None => BlockMalformed(line.number, NotAnEntry)
      case Some((name, value)) =>
        match py.loads(value)
        case NotJson => BlockMalformed(line.number, InvalidJson)
        case NotStrings => BlockMalformed(line.number, WrongShape)
        case Globs(globs) =>
          if Names(components, name) then BlockMalformed(line.number, DeclaredTwice)
          else Parsed(components + [Component(name, globs)])
  }

  function StrictEntries(py: Python, body: seq<Numbered>): Strict
  {
    if body == [] then Parsed([])
    else
      var before := StrictEntries(py, body[..|body| - 1]);
      if before.Parsed? then StrictEntry(py, before.components, body[|body| - 1]) else before
  }

  function ParseStrict(py: Python, lines: seq<string>): Strict
  {
    if ScanLines(lines).found then StrictEntries(py, ScanLines(lines).body) else BlockMissing
  }

  method ParseComponents(py: Python, lines: seq<string>) returns (result: Strict)
    ensures result == ParseStrict(py, lines)
  {
    var body := IterBlockLines(lines);
    if body == None {
      return BlockMissing;
    }
    result := Parsed([]);
    for i := 0 to |body.value|
      invariant result == StrictEntries(py, body.value[..i]) && result.Parsed?
    {
      assert body.value[..i + 1][..i] == body.value[..i];
      result := StrictEntry(py, result.components, body.value[i]);
      if !result.Parsed? {
        StrictStops(py, body.value, i + 1);
        return;
      }
    }
    assert body.value[..|body.value|] == body.value;
  }

  lemma {:induction false} StrictStops(py: Python, body: seq<Numbered>, n: nat)
    requires n <= |body| && !StrictEntries(py, body[..n]).Parsed?
    ensures StrictEntries(py, body) == StrictEntries(py, body[..n])
    decreases |body| - n
  {
    hide StrictEntry;
    if n < |body| {
      assert body[..n + 1][..n] == body[..n];
      StrictStops(py, body, n + 1);
    } else {
      assert body[..n] == body;
    }
  }

  // ---- the lenient parser --------------------------------------------------

  datatype Complaint = Complaint(name: string, why: Why)

  datatype Lenient = Lenient(inBlock: bool, components: ComponentMap, malformed: seq<Complaint>)

  /** Assigning to a dict key: in place when it is there, at the end when it is not. */
  function Put(components: ComponentMap, name: string, globs: seq<string>): ComponentMap
  {
    if components == [] then [Component(name, globs)]
    else if components[0].name == name then [Component(name, globs)] + components[1..]
    else [components[0]] + Put(components[1..], name, globs)
  }

  function LenientEntry(py: Python, s: Lenient, text: string): Lenient
  {
    match EntryMatch(py, text)
    case None => s
    case Some((name, value)) =>
      match py.loads(value)
      case NotJson => s.(malformed := s.malformed + [Complaint(name, InvalidJson)])
      case NotStrings => s.(malformed := s.malformed + [Complaint(name, WrongShape)])
      case Globs(globs) => s.(components := Put(s.components, name, globs))
  }

  function LenientLine(py: Python, s: Lenient, text: string): Lenient
  {
    if OPENING <= text then s.(inBlock := true)
    else if s.inBlock && FENCE <= text then s.(inBlock := false)
    else if !s.inBlock then s
    else LenientEntry(py, s, text)
  }

  function ParseLenient(py: Python, lines: seq<string>): Lenient
  {
    if lines == [] then Lenient(false, [], [])
    else LenientLine(py, ParseLenient(py, lines[..|lines| - 1]), lines[|lines| - 1])
  }

  method ParseComponentMap(py: Python, lines: seq<string>) returns (components: ComponentMap, malformed: seq<Complaint>)
    ensures components == ParseLenient(py, lines).components && malformed == ParseLenient(py, lines).malformed
  {
    hide EntryMatch, Put;
    var inBlock := false;
    components, malformed := [], [];
    for i := 0 to |lines|
      invariant ParseLenient(py, lines[..i]) == Lenient(inBlock, components, malformed)
    {
      assert lines[..i + 1][..i] == lines[..i];
      if OPENING <= lines[i] {
        inBlock := true;
      } else if inBlock && FENCE <= lines[i] {
        inBlock := false;
      } else if inBlock {
        var entry := EntryMatch(py, lines[i]);
        if entry.Some? {
          var (name, value) := entry.value;
          match py.loads(value) {
            case NotJson => malformed := malformed + [Complaint(name, InvalidJson)];
            case NotStrings => malformed := malformed + [Complaint(name, WrongShape)];
            case Globs(globs) => components := Put(components, name, globs);
          }
        }
      }
    }
    assert lines[..|lines|] == lines;
  }

  // ---- what a document declares --------------------------------------------

  /** The component a line declares, if its value is sound. */
  function DeclaredBy(py: Python, text: string): Option<Component>
  {
    match EntryMatch(py, text)
    case None => None
    case Some((name, value)) =>
      match py.loads(value)
      case Globs(globs) => Some(Component(name, globs))
      case _ => None
  }

  function Declared(py: Python, body: seq<Numbered>): ComponentMap
  {
    if body == [] then []
    else
      var c := DeclaredBy(py, body[|body| - 1].text);
      Declared(py, body[..|body| - 1]) + if c.Some? then [c.value] else []
  }

  predicate DistinctNames(components: ComponentMap)
  {
    forall i, j | 0 <= i < j < |components| :: components[i].name != components[j].name
  }

  predicate AllSound(py: Python, body: seq<Numbered>)
  {
    forall line | line in body :: Ignorable(line.text) || DeclaredBy(py, line.text).Some?
  }

  /** No components fence opens inside a block that is still open. */
  predicate NoNestedOpening(lines: seq<string>)
  {
    forall i | 0 <= i < |lines| :: ScanLines(lines[..i]).inside ==> !(OPENING <= lines[i])
  }

  lemma IgnorableIsNoEntry(py: Python, text: string)
    requires Ignorable(text)
    ensures EntryMatch(py, text) == None
  {
  }

  /**
   The strict parser returns a map exactly when some block opens, every line in a block is
   blank, a comment or a sound entry, and no name comes twice; the map is what the lines declare.
   */
  lemma StrictIffSound(py: Python, lines: seq<string>)
    ensures var s := ScanLines(lines);
      && (ParseStrict(py, lines).Parsed? <==> s.found && AllSound(py, s.body) && DistinctNames(Declared(py, s.body)))
      && (ParseStrict(py, lines).Parsed? ==> ParseStrict(py, lines).components == Declared(py, s.body))
  {
    StrictEntriesIffSound(py, ScanLines(lines).body);
  }

  lemma {:induction false} StrictEntriesIffSound(py: Python, body: seq<Numbered>)
    ensures StrictEntries(py, body).Parsed? <==> AllSound(py, body) && DistinctNames(Declared(py, body))
    ensures StrictEntries(py, body).Parsed? ==> StrictEntries(py, body).components == Declared(py, body)
  {
    hide StrictEntry, DeclaredBy, Ignorable, Names, DistinctNames, AllSound;
    if body == [] {
      assert AllSound(py, body) && DistinctNames([]) by { NothingDeclared(py); }
    } else {
      var before, line := body[..|body| - 1], body[|body| - 1];
      assert body == before + [line];
      StrictEntriesIffSound(py, before);
      AllSoundOneMore(py, before, line);
      var declared := Declared(py, before);
      StrictEntryIs(py, declared, line);
      var c := DeclaredBy(py, line.text);
      if c.Some? {
        DistinctOneMore(declared, c.value);
      } else {
        assert declared + [] == declared;
      }
    }
  }

  lemma StrictEntryIs(py: Python, components: ComponentMap, line: Numbered)
    ensures var c, result := DeclaredBy(py, line.text), StrictEntry(py, components, line);
      && (Ignorable(line.text) ==> c == None && result == Parsed(components))
      && (!Ignorable(line.text) && c == None ==> !result.Parsed?)
      && (c.Some? ==> result.Parsed? == !Names(components, c.value.name))
      && (c.Some? && result.Parsed? ==> result.components == components + [c.value])
  {
  }

  lemma NothingDeclared(py: Python)
    ensures AllSound(py, []) && DistinctNames([])
  {
  }

  lemma AllSoundOneMore(py: Python, before: seq<Numbered>, line: Numbered)
    ensures AllSound(py, before + [line]) <==>
            AllSound(py, before) && (Ignorable(line.text) || DeclaredBy(py, line.text).Some?)
  {
  }

  lemma DistinctOneMore(components: ComponentMap, c: Component)
    ensures DistinctNames(components + [c]) <==> DistinctNames(components) && !Names(components, c.name)
  {
    var more := components + [c];
    if DistinctNames(more) {
      forall i, j | 0 <= i < j < |components|
        ensures components[i].name != components[j].name
      {
        assert more[i] == components[i] && more[j] == components[j];
      }
      forall i | 0 <= i < |components|
        ensures components[i].name != c.name
      {
        assert more[i] == components[i] && more[|components|] == c;
      }
    }
  }

  // ---- agreement -----------------------------------------------------------

  function PutAll(declared: ComponentMap): ComponentMap
  {
    if declared == [] then []
    else
      var last := declared[|declared| - 1];
      Put(PutAll(declared[..|declared| - 1]), last.name, last.globs)
  }

  function Complaints(py: Python, body: seq<Numbered>): seq<Complaint>
  {
    if body == [] then []
    else
      var text := body[|body| - 1].text;
      Complaints(py, body[..|body| - 1]) +
      match EntryMatch(py, text)
      case None => []
      case Some((name, value)) =>
        match py.loads(value)
        case NotJson => [Complaint(name, InvalidJson)]
        case NotStrings => [Complaint(name, WrongShape)]
        case Globs(_) => []
  }

  /** Without nested openings the lenient parser reads the same lines: later declarations win, bad values are reported. */
  lemma LenientReadsTheSameLines(py: Python, lines: seq<string>)
    requires NoNestedOpening(lines)
    ensures var s := ScanLines(lines);
      ParseLenient(py, lines) == Lenient(s.inside, PutAll(Declared(py, s.body)), Complaints(py, s.body))
  {
    LenientReadsItsLines(py, lines);
    SameLines(lines);
  }

  lemma {:induction false} SameLines(lines: seq<string>)
    requires NoNestedOpening(lines)
    ensures LenientInside(lines) == ScanLines(lines).inside && LenientBody(lines) == ScanLines(lines).body
  {
    if lines != [] {
      var last := |lines| - 1;
      var before := lines[..last];
      forall i | 0 <= i < last
        ensures ScanLines(before[..i]).inside ==> !(OPENING <= before[i])
      {
        assert before[..i] == lines[..i] && before[i] == lines[i];
      }
      SameLines(before);
      OpeningIsAFence(lines[last]);
    }
  }

  lemma OneMoreLine(py: Python, s: Scan, line: Numbered)
    ensures LenientEntry(py, Lenient(s.inside, PutAll(Declared(py, s.body)), Complaints(py, s.body)), line.text) ==
            Lenient(s.inside, PutAll(Declared(py, s.body + [line])), Complaints(py, s.body + [line]))
  {
    hide EntryMatch, Put, Declared, PutAll;
    var more := s.body + [line];
    assert more[..|more| - 1] == s.body;
    var declared, c := Declared(py, s.body), DeclaredBy(py, line.text);
    DeclaredConcat(py, s.body, line);
    if c.Some? {
      PutAllConcat(declared, c.value);
    } else {
      assert declared + [] == declared;
    }
    assert Complaints(py, s.body) + [] == Complaints(py, s.body);
  }

  lemma PutAllConcat(declared: ComponentMap, c: Component)
    ensures PutAll(declared + [c]) == Put(PutAll(declared), c.name, c.globs)
  {
  }

  lemma {:induction false} PutFresh(components: ComponentMap, c: Component)
    requires !Names(components, c.name)
    ensures Put(components, c.name, c.globs) == components + [c]
  {
    if components != [] {
      assert components[0].name != c.name;
      forall i | 0 <= i < |components| - 1
        ensures components[1..][i].name != c.name
      {
        assert components[1..][i] == components[i + 1];
      }
      PutFresh(components[1..], c);
      assert components == [components[0]] + components[1..];
    }
  }

  lemma {:induction false} PutAllDistinct(declared: ComponentMap)
    requires DistinctNames(declared)
    ensures PutAll(declared) == declared
  {
    hide Put;
    if declared != [] {
      var before, last := declared[..|declared| - 1], declared[|declared| - 1];
      assert declared == before + [last];
      DistinctOneMore(before, last);
      PutAllDistinct(before);
      PutFresh(before, last);
    }
  }

  lemma {:induction false} SoundIsNotComplainedOf(py: Python, body: seq<Numbered>)
    requires AllSound(py, body)
    ensures Complaints(py, body) == []
  {
    hide EntryMatch;
    if body != [] {
      assert body == body[..|body| - 1] + [body[|body| - 1]];
      SoundIsNotComplainedOf(py, body[..|body| - 1]);
      if Ignorable(body[|body| - 1].text) {
        IgnorableIsNoEntry(py, body[|body| - 1].text);
      }
    }
  }

  /** Whenever the strict parser returns a map, the lenient one returns the same map and complains of nothing. */
  lemma StrictAgreesWithLenient(py: Python, lines: seq<string>)
    requires NoNestedOpening(lines) && ParseStrict(py, lines).Parsed?
    ensures var lenient := ParseLenient(py, lines);
      lenient.components == ParseStrict(py, lines).components && lenient.malformed == []
  {
    hide ParseStrict, ParseLenient, AllSound, DistinctNames, ScanLines;
    StrictIffSound(py, lines);
    LenientReadsTheSameLines(py, lines);
    PutAllDistinct(Declared(py, ScanLines(lines).body));
    SoundIsNotComplainedOf(py, ScanLines(lines).body);
  }

  /** An opening fence inside an open block closes it for one parser and not for the other. */
  lemma NestedOpeningDisagrees(py: Python, line: string, c: Component)
    requires DeclaredBy(py, line) == Some(c)
    ensures var lines := [OPENING, OPENING, line];
      && ParseStrict(py, lines) == Parsed([])
      && ParseLenient(py, lines).components == [c]
  {
    hide DeclaredBy;
    EntryIsNoFence(py, line);
    var lines := [OPENING, OPENING, line];
    assert lines[..2] == [OPENING, OPENING] && lines[..2][..1] == [OPENING] && [OPENING][..0] == [];
    assert ScanLines([OPENING]) == Scan(true, true, []);
    assert ScanLines([OPENING, OPENING]) == Scan(false, true, []) by { assert FENCE <= OPENING; }
    assert ParseLenient(py, [OPENING]) == Lenient(true, [], []);
    assert ParseLenient(py, [OPENING, OPENING]) == Lenient(true, [], []);
    EntryIsPut(py, Lenient(true, [], []), line, c);
  }

  lemma EntryIsPut(py: Python, s: Lenient, line: string, c: Component)
    requires DeclaredBy(py, line) == Some(c)
    ensures LenientEntry(py, s, line) == s.(components := Put(s.components, c.name, c.globs))
  {
  }

  lemma EntryIsNoFence(py: Python, line: string)
    requires DeclaredBy(py, line).Some?
    ensures !(OPENING <= line) && !(FENCE <= line) && !Ignorable(line)
  {
  }

  // ---- what the two parsers read, line by line -----------------------------

  /** A block opens at `start`, outside every block, and no fence comes after it. */
  predicate OpensAt(lines: seq<string>, start: int)
  {
    && 0 <= start < |lines| && !ScanLines(lines[..start]).inside && "```yaml components" <= lines[start]
    && forall k | start < k < |lines| :: !("```" <= lines[k])
  }

  lemma {:induction false} InsideIs(lines: seq<string>)
    ensures ScanLines(lines).inside <==> exists start :: OpensAt(lines, start)
  {
    hide ScanLines, OpensAt;
    if lines == [] {
      NoneOpens();
    } else {
      var n := |lines| - 1;
      var before, line := lines[..n], lines[n];
      InsideIs(before);
      ScanOneMore(before, line);
      assert lines == before + [line];
      OpeningIsAFence(line);
      if start :| OpensAt(lines, start) {
        OpensOneMore(before, line, start);
      }
      if ScanLines(lines).inside {
        if start :| OpensAt(before, start) {
          OpensOneMore(before, line, start);
        } else {
          OpensOneMore(before, line, n);
        }
      }
    }
  }

  lemma NoneOpens()
    ensures !ScanLines([]).inside && forall start :: !OpensAt([], start)
  {
  }

  lemma OpensOneMore(before: seq<string>, line: string, start: int)
    ensures OpensAt(before + [line], start) <==>
            || (OpensAt(before, start) && !("```" <= line))
            || (start == |before| && !ScanLines(before).inside && "```yaml components" <= line)
  {
    hide ScanLines;
    var lines, n := before + [line], |before|;
    assert lines[n] == line;
    if 0 <= start < n {
      assert lines[..start] == before[..start] && lines[start] == before[start];
      assert (forall k | start < k < |lines| :: !("```" <= lines[k])) <==>
             (forall k | start < k < n :: !("```" <= before[k])) && !("```" <= line) by {
        assert forall k | start < k < n :: lines[k] == before[k];
      }
    } else if start == n {
      assert lines[..n] == before;
    }
  }

  lemma {:induction false} FoundIs(lines: seq<string>)
    ensures ScanLines(lines).found <==> exists i :: 0 <= i < |lines| && "```yaml components" <= lines[i]
    ensures ScanLines(lines).inside ==> ScanLines(lines).found
  {
    if lines != [] {
      var n := |lines| - 1;
      FoundIs(lines[..n]);
      assert forall i | 0 <= i < n :: lines[..n][i] == lines[i];
    }
  }

  /** The strict parser reads, under its number, every line inside a block but the closing fence. */
  lemma {:induction false} BodyIs(lines: seq<string>, n: nat, text: string)
    ensures Numbered(n, text) in ScanLines(lines).body <==>
            1 <= n <= |lines| && text == lines[n - 1] && ScanLines(lines[..n - 1]).inside && !("```" <= text)
  {
    if lines != [] {
      var last := |lines| - 1;
      BodyIs(lines[..last], n, text);
      if 1 <= n <= last {
        assert lines[..last][..n - 1] == lines[..n - 1];
      }
    }
  }

  /** Line numbers rise, up to `n`. */
  predicate InOrder(body: seq<Numbered>, n: nat)
  {
    && (forall i | 0 <= i < |body| :: body[i].number <= n)
    && forall i, j | 0 <= i < j < |body| :: body[i].number < body[j].number
  }

  lemma {:induction false} BodyIsInOrder(lines: seq<string>)
    ensures InOrder(ScanLines(lines).body, |lines|)
  {
    hide ScanLines;
    if lines == [] {
      NothingScanned();
    } else {
      var n := |lines| - 1;
      BodyIsInOrder(lines[..n]);
      ScanOneMore(lines[..n], lines[n]);
      assert lines == lines[..n] + [lines[n]];
    }
  }

  lemma NothingScanned()
    ensures ScanLines([]) == Scan(false, false, [])
  {
  }

  /** Why a line inside a block stops the strict parser, after what was declared before it. */
  ghost predicate StopsBy(py: Python, declared: ComponentMap, text: string, why: Why)
  {
    && text != "" && text[0] != '#'
    && match why
       case NotAnEntry => forall name, space, value :: !IsEntryText(py, text, name, space, value)
       case InvalidJson => exists name, space, value :: IsEntryText(py, text, name, space, value) && py.loads(value) == NotJson
       case WrongShape => exists name, space, value :: IsEntryText(py, text, name, space, value) && py.loads(value) == NotStrings
       case DeclaredTwice => exists c, space, value, i ::
         IsEntryLine(py, text, c, space, value) && 0 <= i < |declared| && declared[i].name == c.name
  }

  lemma StopsIff(py: Python, declared: ComponentMap, line: Numbered, n: nat, why: Why)
    requires !py.isWord(':') && !py.isSpace('[')
    ensures StrictEntry(py, declared, line) == BlockMalformed(n, why) <==> n == line.number && StopsBy(py, declared, line.text, why)
  {
    hide EntryMatch, IsEntryText;
    forall name, value
      ensures EntryMatch(py, line.text) == Some((name, value)) <==> exists space :: IsEntryText(py, line.text, name, space, value)
    {
      EntryIs(py, line.text, name, value);
    }
    match EntryMatch(py, line.text)
    case None =>
      NoEntry(py, line.text);
    case Some((name, value)) =>
      var space :| IsEntryText(py, line.text, name, space, value);
      OnlyEntry(py, line.text, name, space, value);
      if py.loads(value).Globs? {
        var c := Component(name, py.loads(value).globs);
        assert IsEntryLine(py, line.text, c, space, value);
        assert forall other, sp, v :: IsEntryLine(py, line.text, other, sp, v) ==> other == c;
      }
  }

  lemma NoEntry(py: Python, text: string)
    requires !py.isWord(':') && !py.isSpace('[')
    ensures EntryMatch(py, text) == None <==> forall name, space, value :: !IsEntryText(py, text, name, space, value)
  {
    hide EntryMatch, IsEntryText;
    forall name, space, value
      ensures IsEntryText(py, text, name, space, value) ==> EntryMatch(py, text) == Some((name, value))
    {
      if IsEntryText(py, text, name, space, value) {
        EntryTextMatches(py, text, name, space, value);
      }
    }
    match EntryMatch(py, text)
    case None =>
    case Some((name, value)) => EntryIs(py, text, name, value);
  }

  /** A line is taken apart in one way. */
  lemma OnlyEntry(py: Python, text: string, name: string, space: string, value: string)
    requires !py.isWord(':') && !py.isSpace('[') && IsEntryText(py, text, name, space, value)
    ensures forall other, sp, v :: IsEntryText(py, text, other, sp, v) ==> other == name && v == value
  {
    hide EntryMatch, IsEntryText;
    EntryTextMatches(py, text, name, space, value);
    forall other, sp, v | IsEntryText(py, text, other, sp, v)
      ensures other == name && v == value
    {
      EntryTextMatches(py, text, other, sp, v);
    }
  }

  ghost predicate StopsAt(py: Python, body: seq<Numbered>, k: int, n: nat, why: Why)
  {
    && 0 <= k < |body| && body[k].number == n
    && AllSound(py, body[..k]) && DistinctNames(Declared(py, body[..k])) && StopsBy(py, Declared(py, body[..k]), body[k].text, why)
  }

  /** The line the strict parser reports is the first that stops it, and the reason is that line's. */
  lemma {:induction false} MalformedIs(py: Python, body: seq<Numbered>, n: nat, why: Why)
    requires !py.isWord(':') && !py.isSpace('[')
    ensures StrictEntries(py, body) == BlockMalformed(n, why) <==> exists k :: StopsAt(py, body, k, n, why)
  {
    hide StrictEntry, AllSound, DistinctNames, Declared, StopsBy;
    if body != [] {
      var last := |body| - 1;
      var before := body[..last];
      MalformedIs(py, before, n, why);
      StrictEntriesIffSound(py, before);
      StopsIff(py, Declared(py, before), body[last], n, why);
      if k :| StopsAt(py, body, k, n, why) {
        if k < last {
          assert before[..k] == body[..k];
          assert StopsAt(py, before, k, n, why);
        }
      }
      if StrictEntries(py, body) == BlockMalformed(n, why) {
        if StrictEntries(py, before).Parsed? {
          assert StopsAt(py, body, last, n, why);
        } else {
          var k :| StopsAt(py, before, k, n, why);
          assert before[..k] == body[..k];
          assert StopsAt(py, body, k, n, why);
        }
      }
    }
  }

  // ---- what the lenient parser reads ---------------------------------------

  /** The numbered lines the lenient parser looks at for entries. */
  function LenientBody(lines: seq<string>): seq<Numbered>
  {
    if lines == [] then []
    else
      var before, text := lines[..|lines| - 1], lines[|lines| - 1];
      LenientBody(before) + if LenientInside(before) && !(FENCE <= text) then [Numbered(|lines|, text)] else []
  }

  /** The last fence before is an opening one. */
  predicate LenientInside(lines: seq<string>)
  {
    && lines != []
    && (OPENING <= lines[|lines| - 1] || (!(FENCE <= lines[|lines| - 1]) && LenientInside(lines[..|lines| - 1])))
  }

  /** Some line opens a block, and every fence after it opens one too. */
  predicate StaysOpen(lines: seq<string>, start: int)
  {
    && 0 <= start < |lines| && "```yaml components" <= lines[start]
    && forall k | start < k < |lines| && "```" <= lines[k] :: "```yaml components" <= lines[k]
  }

  lemma {:induction false} LenientInsideIs(lines: seq<string>)
    ensures LenientInside(lines) <==> exists start :: StaysOpen(lines, start)
  {
    if lines != [] {
      var n := |lines| - 1;
      var before := lines[..n];
      LenientInsideIs(before);
      assert OPENING <= lines[n] ==> StaysOpen(lines, n);
      if start :| StaysOpen(lines, start) && start < n {
        assert StaysOpen(before, start);
      }
      if start :| StaysOpen(before, start) && !(FENCE <= lines[n]) {
        assert StaysOpen(lines, start);
      }
    }
  }

  lemma {:induction false} LenientBodyIs(lines: seq<string>, n: nat, text: string)
    ensures Numbered(n, text) in LenientBody(lines) <==>
            1 <= n <= |lines| && text == lines[n - 1] && LenientInside(lines[..n - 1]) && !("```" <= text)
  {
    if lines != [] {
      var last := |lines| - 1;
      LenientBodyIs(lines[..last], n, text);
      if 1 <= n <= last {
        assert lines[..last][..n - 1] == lines[..n - 1];
      }
    }
  }

  lemma {:induction false} LenientBodyIsInOrder(lines: seq<string>)
    ensures InOrder(LenientBody(lines), |lines|)
  {
    hide LenientInside, LenientBody;
    if lines == [] {
      NothingToRead();
    } else {
      var n := |lines| - 1;
      LenientBodyIsInOrder(lines[..n]);
      LenientBodyOneMore(lines[..n], lines[n]);
      assert lines == lines[..n] + [lines[n]];
    }
  }

  lemma NothingToRead()
    ensures LenientBody([]) == [] && !LenientInside([])
  {
  }

  lemma LenientBodyOneMore(before: seq<string>, text: string)
    ensures var more := before + [text];
      && LenientInside(more) == (OPENING <= text || (!(FENCE <= text) && LenientInside(before)))
      && LenientBody(more) ==
         if LenientInside(before) && !(FENCE <= text) then LenientBody(before) + [Numbered(|more|, text)] else LenientBody(before)
  {
    hide LenientInside;
    var more := before + [text];
    assert more[..|before|] == before;
    assert LenientBody(before) + [] == LenientBody(before);
    InsideOneMore(before, text);
  }

  lemma InsideOneMore(before: seq<string>, text: string)
    ensures LenientInside(before + [text]) == (OPENING <= text || (!(FENCE <= text) && LenientInside(before)))
  {
    assert (before + [text])[..|before|] == before;
  }

  /** On any document the lenient map is what those lines declare, later declarations winning, and the rest is complained of. */
  lemma {:induction false} LenientReadsItsLines(py: Python, lines: seq<string>)
    ensures ParseLenient(py, lines) ==
            Lenient(LenientInside(lines), PutAll(Declared(py, LenientBody(lines))), Complaints(py, LenientBody(lines)))
  {
    hide LenientEntry, PutAll, Declared, Complaints, LenientBody, LenientInside;
    if lines == [] {
      NothingDeclaredOrPut(py);
      NothingToRead();
    } else {
      var before, text := lines[..|lines| - 1], lines[|lines| - 1];
      LenientReadsItsLines(py, before);
      OneMoreLine(py, Scan(LenientInside(before), true, LenientBody(before)), Numbered(|lines|, text));
      LenientBodyOneMore(before, text);
      assert lines == before + [text];
      OpeningIsAFence(text);
    }
  }

  lemma OpeningIsAFence(text: string)
    ensures OPENING <= text ==> FENCE <= text
  {
  }

  lemma NothingDeclaredOrPut(py: Python)
    ensures PutAll(Declared(py, [])) == [] && Complaints(py, []) == []
  {
  }

  /** `declared[i]` names this component, and nothing after it does. */
  predicate IsLastOf(declared: ComponentMap, i: int, c: Component)
  {
    0 <= i < |declared| && declared[i] == c && forall j | i < j < |declared| :: declared[j].name != c.name
  }

  /** A map holds each name once, with what was declared last. */
  lemma {:induction false} LastDeclarationWins(declared: ComponentMap)
    ensures DistinctNames(PutAll(declared))
    ensures forall c :: c in PutAll(declared) <==> exists i :: IsLastOf(declared, i, c)
  {
    hide Put, DistinctNames;
    if declared == [] {
      NothingDistinct();
    } else {
      var before, last := declared[..|declared| - 1], declared[|declared| - 1];
      LastDeclarationWins(before);
      PutIs(PutAll(before), last.name, last.globs);
      forall c ensures (exists i :: IsLastOf(declared, i, c)) <==> c == last || (c.name != last.name && exists i :: IsLastOf(before, i, c)) {
        LastOfMore(before, last, c);
        assert declared == before + [last];
      }
    }
  }

  lemma LastOfMore(before: ComponentMap, last: Component, c: Component)
    ensures (exists i :: IsLastOf(before + [last], i, c)) <==> c == last || (c.name != last.name && exists i :: IsLastOf(before, i, c))
  {
    var more, n := before + [last], |before|;
    if i :| IsLastOf(more, i, c) && i < n {
      assert more[n].name != c.name;
      assert forall j | i < j < n :: more[j] == before[j];
      assert IsLastOf(before, i, c);
    }
    if i :| IsLastOf(before, i, c) && c.name != last.name {
      assert IsLastOf(more, i, c);
    }
    assert c == last ==> IsLastOf(more, n, c);
  }

  lemma NothingDistinct()
    ensures DistinctNames([])
  {
  }

  /** A name that is there keeps its place, a new one comes last. */
  lemma {:induction false} PutAt(components: ComponentMap, name: string, globs: seq<string>) returns (k: nat)
    ensures k <= |components| && forall j | 0 <= j < k :: components[j].name != name
    ensures k < |components| ==> components[k].name == name
    ensures Put(components, name, globs) ==
            if k == |components| then components + [Component(name, globs)] else components[k := Component(name, globs)]
  {
    if components == [] || components[0].name == name {
      k := 0;
    } else {
      var rest := components[1..];
      assert components == [components[0]] + rest;
      var j := PutAt(rest, name, globs);
      k := j + 1;
    }
  }

  /** Putting a name changes its own entry only, and keeps names apart. */
  lemma PutIs(components: ComponentMap, name: string, globs: seq<string>)
    requires DistinctNames(components)
    ensures DistinctNames(Put(components, name, globs))
    ensures forall c :: c in Put(components, name, globs) <==> c == Component(name, globs) || (c in components && c.name != name)
  {
    hide Put;
    var put := Put(components, name, globs);
    var k := PutAt(components, name, globs);
    assert put[k] == Component(name, globs) && forall j | 0 <= j < |put| && j != k :: put[j] == components[j];
    forall c ensures c in put <==> c == Component(name, globs) || (c in components && c.name != name) {
      if c in components && c.name != name {
        var j :| 0 <= j < |components| && components[j] == c;
        assert put[j] == c;
      }
    }
  }

  /** What is complained of: an entry inside a block whose brackets hold no JSON, or something else than strings. */
  ghost predicate IsComplaintOf(py: Python, text: string, complaint: Complaint)
  {
    exists space, value ::
      && IsEntryText(py, text, complaint.name, space, value)
      && ((complaint.why == InvalidJson && py.loads(value) == NotJson) || (complaint.why == WrongShape && py.loads(value) == NotStrings))
  }

  lemma {:induction false} ComplaintsAre(py: Python, body: seq<Numbered>, complaint: Complaint)
    requires !py.isWord(':') && !py.isSpace('[')
    ensures complaint in Complaints(py, body) <==> exists i :: 0 <= i < |body| && IsComplaintOf(py, body[i].text, complaint)
  {
    hide EntryMatch, IsComplaintOf;
    if body != [] {
      var n := |body| - 1;
      ComplaintsAre(py, body[..n], complaint);
      ComplaintIff(py, body[n].text, complaint);
      assert forall i | 0 <= i < n :: body[..n][i] == body[i];
    }
  }

  lemma ComplaintIff(py: Python, text: string, complaint: Complaint)
    requires !py.isWord(':') && !py.isSpace('[')
    ensures IsComplaintOf(py, text, complaint) <==>
            match EntryMatch(py, text)
            case None => false
            case Some((name, value)) =>
              complaint.name == name &&
              match py.loads(value)
              case NotJson => complaint.why == InvalidJson
              case NotStrings => complaint.why == WrongShape
              case Globs(_) => false
  {
    hide EntryMatch, IsEntryText;
    match EntryMatch(py, text)
    case None =>
      NoEntry(py, text);
    case Some((name, value)) =>
      EntryIs(py, text, name, value);
      var space :| IsEntryText(py, text, name, space, value);
      OnlyEntry(py, text, name, space, value);
  }

  // ---- rendering -----------------------------------------------------------

  datatype Segment = Block(components: ComponentMap) | Prose(lines: seq<string>)

  function RenderEntry(dumps: seq<string> -> string, c: Component): string
  {
    c.name + ": " + dumps(c.globs)
  }

  function RenderEntries(dumps: seq<string> -> string, components: ComponentMap): (lines: seq<string>)
    ensures |lines| == |components|
  {
    seq(|components|, i requires 0 <= i < |components| => RenderEntry(dumps, components[i]))
  }

  function RenderSegment(dumps: seq<string> -> string, segment: Segment): seq<string>
  {
    match segment
    case Block(components) => [OPENING] + RenderEntries(dumps, components) + [FENCE]
    case Prose(lines) => lines
  }

  function Render(dumps: seq<string> -> string, document: seq<Segment>): seq<string>
  {
    if document == [] then []
    else Render(dumps, document[..|document| - 1]) + RenderSegment(dumps, document[|document| - 1])
  }

  function ComponentsOf(document: seq<Segment>): ComponentMap
  {
    if document == [] then []
    else
      ComponentsOf(document[..|document| - 1]) +
      match document[|document| - 1] case Block(components) => components case Prose(_) => []
  }

  /** json.dumps writes an array that json.loads reads back, and the character classes are Python's. */
  ghost predicate RoundTrips(py: Python, dumps: seq<string> -> string)
  {
    && !py.isWord(':') && py.isSpace(' ') && !py.isSpace('[')
    && (forall globs :: IsArrayText(dumps(globs)) && py.loads(dumps(globs)) == Globs(globs))
  }

  predicate Writable(py: Python, document: seq<Segment>)
  {
    forall segment | segment in document ::
      match segment
      case Block(components) => (forall i | 0 <= i < |components| :: IsEntryName(py, components[i].name))
      case Prose(lines) => (forall i | 0 <= i < |lines| :: !(OPENING <= lines[i]))
  }

  lemma {:induction false} ColonIsAt(line: string, i: nat)
    requires i < |line| && ':' !in line[..i] && line[i] == ':'
    ensures ColonAt(line) == i
  {
  }

  /** A letter or an underscore, then word characters and hyphens. */
  predicate IsName(py: Python, name: string)
  {
    && name != "" && ('a' <= name[0] <= 'z' || 'A' <= name[0] <= 'Z' || name[0] == '_')
    && forall i | 1 <= i < |name| :: py.isWord(name[i]) || name[i] == '-'
  }

  lemma NameIs(py: Python, name: string)
    ensures IsEntryName(py, name) <==> IsName(py, name)
  {
  }

  /** The line is a name, a colon, white space and something in brackets. */
  predicate IsEntryText(py: Python, line: string, name: string, space: string, value: string)
  {
    && line == name + ":" + space + value
    && IsName(py, name) && (forall i | 0 <= i < |space| :: py.isSpace(space[i]))
    && |value| >= 2 && value[0] == '[' && value[|value| - 1] == ']'
  }

  /** And what is in brackets is an array of strings. */
  predicate IsEntryLine(py: Python, line: string, c: Component, space: string, value: string)
  {
    IsEntryText(py, line, c.name, space, value) && py.loads(value) == Globs(c.globs)
  }

  lemma {:induction false} TrimLeftSplits(py: Python, text: string) returns (space: string)
    ensures text == space + TrimLeft(py, text) && forall i | 0 <= i < |space| :: py.isSpace(space[i])
  {
    space := "";
    if text != [] && py.isSpace(text[0]) {
      var more := TrimLeftSplits(py, text[1..]);
      space := [text[0]] + more;
      assert text == [text[0]] + text[1..];
    }
  }

  lemma {:induction false} TrimLeftOf(py: Python, space: string, text: string)
    requires (forall i | 0 <= i < |space| :: py.isSpace(space[i])) && (text != [] ==> !py.isSpace(text[0]))
    ensures TrimLeft(py, space + text) == text
  {
    if space == [] {
      assert space + text == text;
    } else {
      assert (space + text)[1..] == space[1..] + text;
      TrimLeftOf(py, space[1..], text);
    }
  }

  /** The pattern takes exactly the lines of that shape, and takes each apart in one way. */
  lemma EntryIs(py: Python, line: string, name: string, value: string)
    requires !py.isWord(':') && !py.isSpace('[')
    ensures EntryMatch(py, line) == Some((name, value)) <==> exists space :: IsEntryText(py, line, name, space, value)
  {
    hide IsEntryName, IsName;
    NameIs(py, name);
    if EntryMatch(py, line) == Some((name, value)) {
      var i := ColonAt(line);
      var space := TrimLeftSplits(py, line[i + 1..]);
      assert line == line[..i] + ":" + line[i + 1..];
      assert IsEntryText(py, line, name, space, value);
    }
    if space :| IsEntryText(py, line, name, space, value) {
      EntryTextMatches(py, line, name, space, value);
    }
  }

  lemma EntryTextMatches(py: Python, line: string, name: string, space: string, value: string)
    requires !py.isWord(':') && !py.isSpace('[') && IsEntryText(py, line, name, space, value)
    ensures EntryMatch(py, line) == Some((name, value))
  {
    var n := |name|;
    NameIs(py, name);
    assert line[..n] == name && line[n] == ':' && line[n + 1..] == space + value;
    assert forall i | 0 <= i < n :: name[i] != ':';
    ColonIsAt(line, n);
    TrimLeftOf(py, space, value);
  }

  /** A line declares a component exactly when it has that shape; the pattern accepts nothing else. */
  lemma DeclaredIffEntryLine(py: Python, line: string, c: Component)
    requires !py.isWord(':') && !py.isSpace('[')
    ensures DeclaredBy(py, line) == Some(c) <==> exists space, value :: IsEntryLine(py, line, c, space, value)
  {
    hide EntryMatch, IsEntryText;
    if DeclaredBy(py, line) == Some(c) {
      EntryIs(py, line, c.name, EntryMatch(py, line).value.1);
      var space :| IsEntryText(py, line, c.name, space, EntryMatch(py, line).value.1);
      assert IsEntryLine(py, line, c, space, EntryMatch(py, line).value.1);
    }
    if space, value :| IsEntryLine(py, line, c, space, value) {
      EntryLineIsDeclared(py, line, c, space, value);
    }
  }

  lemma EntryLineIsDeclared(py: Python, line: string, c: Component, space: string, value: string)
    requires !py.isWord(':') && !py.isSpace('[') && IsEntryLine(py, line, c, space, value)
    ensures DeclaredBy(py, line) == Some(c)
  {
    hide EntryMatch, IsEntryText;
    EntryTextMatches(py, line, c.name, space, value);
  }

  lemma RenderedEntryIsDeclared(py: Python, dumps: seq<string> -> string, c: Component)
    requires RoundTrips(py, dumps) && IsEntryName(py, c.name)
    ensures DeclaredBy(py, RenderEntry(dumps, c)) == Some(c)
  {
    hide DeclaredBy;
    assert IsArrayText(dumps(c.globs)) && py.loads(dumps(c.globs)) == Globs(c.globs);
    assert RenderEntry(dumps, c) == c.name + ":" + " " + dumps(c.globs);
    NameIs(py, c.name);
    assert IsEntryLine(py, RenderEntry(dumps, c), c, " ", dumps(c.globs));
    EntryLineIsDeclared(py, RenderEntry(dumps, c), c, " ", dumps(c.globs));
  }

  /** Scanning on from a point outside every block. */
  lemma {:induction false} ScanProse(before: seq<string>, prose: seq<string>)
    requires !ScanLines(before).inside
    requires forall i | 0 <= i < |prose| :: !(OPENING <= prose[i])
    ensures ScanLines(before + prose) == ScanLines(before)
  {
    if prose == [] {
      assert before + prose == before;
    } else {
      var last := |prose| - 1;
      ScanProse(before, prose[..last]);
      ScanOneMore(before + prose[..last], prose[last]);
      assert before + prose[..last] + [prose[last]] == before + prose;
    }
  }

  lemma ScanOneMore(before: seq<string>, line: string)
    ensures var s := ScanLines(before);
      ScanLines(before + [line]) ==
        if !s.inside && OPENING <= line then s.(inside := true, found := true)
        else if s.inside && FENCE <= line then s.(inside := false)
        else if s.inside then s.(body := s.body + [Numbered(|before| + 1, line)])
        else s
  {
  }

  lemma DeclaredConcat(py: Python, body: seq<Numbered>, line: Numbered)
    ensures Declared(py, body + [line]) ==
            Declared(py, body) + (if DeclaredBy(py, line.text).Some? then [DeclaredBy(py, line.text).value] else [])
  {
  }

  /** What a stretch of rendered document adds to the scan. */
  ghost predicate Adds(py: Python, s: Scan, t: Scan, components: ComponentMap)
  {
    && Declared(py, t.body) == Declared(py, s.body) + components
    && (AllSound(py, s.body) ==> AllSound(py, t.body))
  }

  lemma {:induction false} ScanEntries(py: Python, dumps: seq<string> -> string, before: seq<string>, components: ComponentMap)
    requires RoundTrips(py, dumps) && ScanLines(before).inside
    requires forall i | 0 <= i < |components| :: IsEntryName(py, components[i].name)
    ensures var s, t := ScanLines(before), ScanLines(before + RenderEntries(dumps, components));
      t.inside && t.found == s.found && Adds(py, s, t, components)
  {
    hide RoundTrips, DeclaredBy, RenderEntry, IsEntryName, ScanLines, Declared, AllSound;
    var lines := RenderEntries(dumps, components);
    if components == [] {
      assert before + lines == before;
    } else {
      var last := |components| - 1;
      ScanEntries(py, dumps, before, components[..last]);
      var shorter := before + RenderEntries(dumps, components[..last]);
      assert RenderEntries(dumps, components) == RenderEntries(dumps, components[..last]) + [RenderEntry(dumps, components[last])];
      assert before + lines == shorter + [lines[last]];
      RenderedEntryIsDeclared(py, dumps, components[last]);
      EntryIsNoFence(py, lines[last]);
      ScanOneMore(shorter, lines[last]);
      var line := Numbered(|shorter| + 1, lines[last]);
      DeclaredConcat(py, ScanLines(shorter).body, line);
      AllSoundOneMore(py, ScanLines(shorter).body, line);
      assert components == components[..last] + [components[last]];
    }
  }

  lemma ScanBlock(py: Python, dumps: seq<string> -> string, before: seq<string>, components: ComponentMap)
    requires RoundTrips(py, dumps) && !ScanLines(before).inside
    requires forall i | 0 <= i < |components| :: IsEntryName(py, components[i].name)
    ensures var s, t := ScanLines(before), ScanLines(before + RenderSegment(dumps, Block(components)));
      !t.inside && t.found && Adds(py, s, t, components)
  {
    hide RoundTrips, DeclaredBy, RenderEntry, IsEntryName, ScanLines, Declared, AllSound;
    var entries := RenderEntries(dumps, components);
    ScanOneMore(before, OPENING);
    ScanEntries(py, dumps, before + [OPENING], components);
    ScanOneMore(before + [OPENING] + entries, FENCE);
    assert before + [OPENING] + entries + [FENCE] == before + RenderSegment(dumps, Block(components));
  }

  lemma {:induction false} ScanDocument(py: Python, dumps: seq<string> -> string, document: seq<Segment>)
    requires RoundTrips(py, dumps) && Writable(py, document)
    ensures var s := ScanLines(Render(dumps, document));
      && !s.inside
      && (s.found <==> exists segment :: segment in document && segment.Block?)
      && Declared(py, s.body) == ComponentsOf(document) && AllSound(py, s.body)
  {
    hide RoundTrips, RenderSegment, ScanLines, Declared, AllSound, IsEntryName, Writable;
    if document == [] {
      NothingRendered(py);
    } else {
      var before, last := document[..|document| - 1], document[|document| - 1];
      assert document == before + [last];
      WritableParts(py, before, last);
      ScanDocument(py, dumps, before);
      match last {
        case Block(components) => ScanBlock(py, dumps, Render(dumps, before), components);
        case Prose(lines) => ProseRenders(dumps, lines); ScanProse(Render(dumps, before), lines);
      }
    }
  }

  lemma WritableParts(py: Python, before: seq<Segment>, last: Segment)
    requires Writable(py, before + [last])
    ensures Writable(py, before)
    ensures last.Block? ==> forall i | 0 <= i < |last.components| :: IsEntryName(py, last.components[i].name)
    ensures last.Prose? ==> forall i | 0 <= i < |last.lines| :: !(OPENING <= last.lines[i])
  {
    hide IsEntryName;
    assert last in before + [last];
    assert forall segment | segment in before :: segment in before + [last];
  }

  lemma NothingRendered(py: Python)
    ensures ScanLines([]) == Scan(false, false, []) && Declared(py, []) == [] && AllSound(py, [])
  {
  }

  lemma ProseRenders(dumps: seq<string> -> string, lines: seq<string>)
    ensures RenderSegment(dumps, Prose(lines)) == lines
  {
  }

  /** Any component map, spread over any number of blocks among other text, parses back strictly. */
  lemma RenderedMapParsesBack(py: Python, dumps: seq<string> -> string, document: seq<Segment>)
    requires RoundTrips(py, dumps) && Writable(py, document) && DistinctNames(ComponentsOf(document))
    requires exists segment :: segment in document && segment.Block?
    ensures ParseStrict(py, Render(dumps, document)) == Parsed(ComponentsOf(document))
  {
    hide RoundTrips, Writable, DistinctNames, ScanLines, Declared, AllSound, ParseStrict, Render;
    ScanDocument(py, dumps, document);
    StrictIffSound(py, Render(dumps, document));
  }
}
