/**
 atlas/ingest/transcript_parse.py: one transcript record in, its rows out, and
 the append-stable identity of a transcript file.

 SHA-256 is taken to be collision free, so a stream id is the bytes it digests.
 */
module Transcript {
  import opened Sequences
  import opened Wrappers

  const STREAM_ID_HEAD_BYTES: nat := 4096
  const DENY_TEXT_CAP: nat := 4096

  // ---- identity ------------------------------------------------------------

  function Head(file: Bytes): Bytes
  {
    if |file| <= STREAM_ID_HEAD_BYTES then file else file[..STREAM_ID_HEAD_BYTES]
  }

  /** The first line if it ends inside the head, else the full head, else no identity yet. */
  function StreamIdOfPath(file: Bytes): (id: Option<Bytes>)
  {
    var head := Head(file);
    var newline := IndexOf(head, NEWLINE);
    if newline < |head| then Some(head[..newline])
    else if |head| >= STREAM_ID_HEAD_BYTES then Some(head)
    else None
  }

  /**
   The identity of the first 4096 bytes: the first line if it ends within them, all of them if
   they hold no newline, nothing yet of a shorter file without one.
   */
  lemma IdentityIs(file: Bytes)
    ensures match StreamIdOfPath(file)
      case None => |file| < 4096 && NEWLINE !in file
      case Some(id) =>
        && id <= file && NEWLINE !in id
        && (|id| == 4096 || (|id| < 4096 && |id| < |file| && file[|id|] == NEWLINE))
  {
  }

  /** Once a transcript has an identity, no append changes it. */
  lemma IdentityIsStable(file: Bytes, longer: Bytes)
    requires GrewTo(file, longer) && StreamIdOfPath(file).Some?
    ensures StreamIdOfPath(longer) == StreamIdOfPath(file)
  {
    var a, b := Head(file), Head(longer);
    var i := IndexOf(a, NEWLINE);
    assert forall k | 0 <= k < |a| :: b[k] == a[k];
    if i < |a| {
      IndexOfIs(b, NEWLINE, i);
      assert b[..i] == a[..i];
    } else {
      assert b == a;
    }
  }

  /** Without an identity there is no complete line to read either. */
  lemma NoIdentityNoLine(file: Bytes)
    requires StreamIdOfPath(file) == None
    ensures LinesFrom(file, 0) == []
  {
  }

  // ---- records -------------------------------------------------------------

  /** A decoded JSON value. `encodable` is false for text holding a lone surrogate. */
  datatype Json =
    | Null
    | Bool(flag: bool)
    | Number(value: int)
    | Float(approximate: real)
    | Str(text: string, encodable: bool)
    | Array(items: seq<Json>)
    | Object(fields: map<string, Json>)

  function Truthy(j: Json): bool
  {
    match j
    case Null => false
    case Bool(flag) => flag
    case Number(value) => value != 0
    case Float(approximate) => approximate != 0.0
    case Str(text, _) => text != ""
    case Array(items) => items != []
    case Object(fields) => fields != map[]
  }

  /** dict.get */
  function Get(fields: map<string, Json>, name: string): (value: Json)
    ensures name in fields ==> value == fields[name]
    ensures name !in fields ==> value == Null
  {
    if name in fields then fields[name] else Null
  }

  predicate IsText(j: Json, text: string)
  {
    j.Str? && j.text == text
  }

  /** The tables a record's rows go to by a plain INSERT. */
  datatype Target = SubagentText | SubagentCall | SessionText | SessionCall | SessionBlock

  /**
   json.loads of a line's bytes, whether it raises anything else than a decoding error
   (nesting or digits past the interpreter's limits), json.dumps of a value, and what a
   table's NOT NULL and CHECK constraints refuse of a row's columns.
   */
  datatype Codec = Codec(
    loads: Bytes -> Option<Json>,
    breaks: Bytes -> bool,
    dumps: Json -> string,
    refuses: (Target, seq<Json>) -> bool)

  /** What sqlite3 can bind: no list or object, no integer past 64 bits, no lone surrogate. */
  predicate Bindable(j: Json)
  {
    match j
    case Array(_) => false
    case Object(_) => false
    case Number(value) => -0x8000_0000_0000_0000 <= value < 0x8000_0000_0000_0000
    case Str(_, encodable) => encodable
    case _ => true
  }

  /** The INSERT takes the row, its key aside. */
  predicate Takes(codec: Codec, target: Target, columns: seq<Json>)
  {
    (forall i | 0 <= i < |columns| :: Bindable(columns[i])) && !codec.refuses(target, columns)
  }

  datatype TextRow = TextRow(text: string)

  datatype CallRow = CallRow(toolUseId: Json, toolName: Json, toolInputJson: Option<string>)

  datatype BlockRow = BlockRow(blockType: Json)

  /**
   A row to store: its record's offset and uuid (Null when absent), its position, its content,
   and whether the main-session and the subagent INSERT take its columns.
   */
  datatype Candidate<+R> = Candidate(
    byteOffset: nat, blockIndex: nat, recordUuid: Json, content: R, inSession: bool, inSubagent: bool)

  /** `binds`: the columns taken over from the record can be bound. */
  datatype ResultRow = ResultRow(
    byteOffset: nat, toolUseId: Json, isHookDeny: bool, denyText: Option<string>, binds: bool)

  datatype LineRows = LineRows(
    calls: seq<Candidate<CallRow>>,
    results: seq<ResultRow>,
    texts: seq<Candidate<TextRow>>,
    blocks: seq<Candidate<BlockRow>>)

  const NO_ROWS := LineRows([], [], [], [])

  /** AttributeError and TypeError are `ShapeError`; UnicodeEncodeError is `EncodeError`. */
  datatype Mapped = Rows(rows: LineRows) | ShapeError | EncodeError

  // ---- denies --------------------------------------------------------------

  const DENY_BODY_PREFIXES: seq<string> := [
    "Foreman: ",
    "Foreman preflight:",
    "Blocked destructive command",
    "Blocked recursive-force delete",
    "This edit adds a dependency"
  ]

  const WRAPPING := "[]{}\"' \n\t"

  function StripLeft(body: string): string
  {
    if body != "" && body[0] in WRAPPING then StripLeft(body[1..]) else body
  }

  function Cap(text: string): string
  {
    if |text| <= DENY_TEXT_CAP then text else text[..DENY_TEXT_CAP]
  }

  /** The prefix route: the whole body when it opens the way a deny does. */
  function ExtractDenyText(body: string): Option<string>
  {
    var head := StripLeft(body);
    if body != "" && exists prefix :: prefix in DENY_BODY_PREFIXES && prefix <= head then Some(Cap(head)) else None
  }

  /** Either route: the prefix, or the ledger naming this call a deny. */
  function DenyText(body: string, toolUseId: Json, denyIds: set<string>): Option<string>
  {
    var prefixDeny := ExtractDenyText(body);
    if prefixDeny == None && toolUseId.Str? && toolUseId.text in denyIds && body != ""
    then Some(Cap(StripLeft(body)))
    else prefixDeny
  }

  /** More verdicts can only turn a missing remedy into a present one. */
  lemma DenyTextGrows(body: string, toolUseId: Json, fewer: set<string>, more: set<string>)
    requires fewer <= more
    ensures DenyText(body, toolUseId, fewer) != None ==>
            DenyText(body, toolUseId, more) == DenyText(body, toolUseId, fewer)
  {
  }

  // What is a deny, in the terms of the messages themselves.

  /** The noise a serialised content list leaves before the message. */
  predicate IsWrapping(c: char)
  {
    c in {'[', ']', '{', '}', '"', '\'', ' ', '\n', '\t'}
  }

  /** `rest` is the body from its first character that is no wrapping on. */
  ghost predicate Unwraps(body: string, rest: string)
  {
    exists n :: 0 <= n <= |body| && rest == body[n..] && Wrapped(body, n) && (rest != "" ==> !IsWrapping(rest[0]))
  }

  predicate Wrapped(body: string, n: int)
    requires 0 <= n <= |body|
  {
    forall i | 0 <= i < n :: IsWrapping(body[i])
  }

  predicate OpensAsADeny(rest: string)
  {
    || "Foreman: " <= rest || "Foreman preflight:" <= rest || "Blocked destructive command" <= rest
    || "Blocked recursive-force delete" <= rest || "This edit adds a dependency" <= rest
  }

  /** The first 4096 characters, or all of a shorter text. */
  predicate IsCutOf(text: string, rest: string)
  {
    text <= rest && (|text| == 4096 || (|text| < 4096 && |text| == |rest|))
  }

  lemma {:induction false} StripUnwraps(body: string)
    ensures Unwraps(body, StripLeft(body))
  {
    if body != "" && IsWrapping(body[0]) {
      StripUnwraps(body[1..]);
      var rest := StripLeft(body[1..]);
      var n :| 0 <= n <= |body[1..]| && rest == body[1..][n..] && Wrapped(body[1..], n) && (rest != "" ==> !IsWrapping(rest[0]));
      assert forall i | 0 <= i < n + 1 :: i > 0 ==> body[i] == body[1..][i - 1];
      assert body[n + 1..] == rest && Wrapped(body, n + 1);
    } else {
      assert body[0..] == body && Wrapped(body, 0);
    }
  }

  /** The message a body unwraps to decides both the flag and the remedy. */
  lemma DenyIsAnOpening(body: string, toolUseId: Json, denyIds: set<string>, rest: string)
    requires Unwraps(body, rest)
    ensures rest == StripLeft(body)
    ensures ExtractDenyText(body) != None <==> OpensAsADeny(rest)
    ensures var remedy := DenyText(body, toolUseId, denyIds);
      match remedy
      case None => !OpensAsADeny(rest) && !(toolUseId.Str? && toolUseId.text in denyIds && body != "")
      case Some(text) =>
        (OpensAsADeny(rest) || (toolUseId.Str? && toolUseId.text in denyIds && body != "")) && IsCutOf(text, rest)
  {
    UnwrapsOneWay(body, rest);
    OpeningsAreListed(rest);
  }

  lemma {:induction false} UnwrapsOneWay(body: string, rest: string)
    requires Unwraps(body, rest)
    ensures rest == StripLeft(body)
  {
    var n :| 0 <= n <= |body| && rest == body[n..] && Wrapped(body, n) && (rest != "" ==> !IsWrapping(rest[0]));
    if n > 0 {
      assert forall i | 0 <= i < n - 1 :: body[1..][i] == body[i + 1];
      assert body[1..][n - 1..] == rest && Wrapped(body[1..], n - 1);
      UnwrapsOneWay(body[1..], rest);
    }
  }

  lemma OpeningsAreListed(rest: string)
    ensures OpensAsADeny(rest) <==> exists prefix :: prefix in DENY_BODY_PREFIXES && prefix <= rest
  {
    var all := DENY_BODY_PREFIXES;
    assert all[0] == "Foreman: " && all[1] == "Foreman preflight:" && all[2] == "Blocked destructive command";
    assert all[3] == "Blocked recursive-force delete" && all[4] == "This edit adds a dependency";
    assert all[0] in all && all[1] in all && all[2] in all && all[3] in all && all[4] in all;
  }

  // ---- one line ------------------------------------------------------------

  function Body(codec: Codec, content: Json): string
  {
    match content
    case Str(text, _) => text
    case Null => ""
    case _ => codec.dumps(content)
  }

  predicate Hashable(j: Json)
  {
    !j.Array? && !j.Object?
  }

  function TextCandidate(codec: Codec, obj: map<string, Json>, byteOffset: nat, index: nat, text: TextRow): Candidate<TextRow>
  {
    var columns := [Get(obj, "timestamp"), Get(obj, "uuid")];
    Candidate(byteOffset, index, Get(obj, "uuid"), text,
              Takes(codec, SessionText, columns), Takes(codec, SubagentText, columns))
  }

  /** The main-session table has no column for the agent. */
  function CallCandidate(codec: Codec, obj: map<string, Json>, byteOffset: nat, index: nat, call: CallRow): Candidate<CallRow>
  {
    Candidate(byteOffset, index, Get(obj, "uuid"), call,
              Takes(codec, SessionCall, CallColumns(obj, [], call)),
              Takes(codec, SubagentCall, CallColumns(obj, [Get(obj, "agentId")], call)))
  }

  function CallColumns(obj: map<string, Json>, agent: seq<Json>, call: CallRow): seq<Json>
  {
    [Get(obj, "timestamp"), Get(obj, "uuid"), Get(obj, "sessionId")] + agent +
    [Get(obj, "cwd"), Get(obj, "gitBranch"), call.toolUseId, call.toolName,
     match call.toolInputJson case None => Null case Some(text) => Str(text, true)]
  }

  function CallOf(codec: Codec, block: map<string, Json>): CallRow
  {
    var input := Get(block, "input");
    CallRow(Get(block, "id"), Get(block, "name"), if input == Null then None else Some(codec.dumps(input)))
  }

  /** Only the main-session pull stores block rows. */
  function BlockCandidate(codec: Codec, obj: map<string, Json>, byteOffset: nat, index: nat, block: BlockRow): Candidate<BlockRow>
  {
    Candidate(byteOffset, index, Get(obj, "uuid"), block,
              Takes(codec, SessionBlock, [Get(obj, "timestamp"), Get(obj, "uuid"), block.blockType]), true)
  }

  /** The rows one block adds to those before it. */
  function MapBlock(codec: Codec, obj: map<string, Json>, byteOffset: nat, denyIds: set<string>,
                    block: Json, index: nat, before: LineRows): Mapped
  {
    if !block.Object? then
      Rows(before.(blocks := before.blocks + [BlockCandidate(codec, obj, byteOffset, index, BlockRow(Null))]))
    else
      var blockType := Get(block.fields, "type");
      var rows := before.(blocks := before.blocks + [BlockCandidate(codec, obj, byteOffset, index, BlockRow(blockType))]);
      if IsText(blockType, "text") then
        var raw := Get(block.fields, "text");
        if !IsText(Get(obj, "type"), "assistant") then Rows(rows)
        else if Truthy(raw) && !raw.Str? then ShapeError
        else if Truthy(raw) && !raw.encodable then EncodeError
        else
          var text := TextRow(if Truthy(raw) then raw.text else "");
          Rows(rows.(texts := rows.texts + [TextCandidate(codec, obj, byteOffset, index, text)]))
      else if IsText(blockType, "tool_use") then
        var call := CallCandidate(codec, obj, byteOffset, index, CallOf(codec, block.fields));
        Rows(rows.(calls := rows.calls + [call]))
      else if IsText(blockType, "tool_result") then
        var id := Get(block.fields, "tool_use_id");
        var content := Get(block.fields, "content");
        var body := Body(codec, content);
        if !Truthy(id) then Rows(rows)
        else if !Hashable(id) && ExtractDenyText(body) == None then ShapeError
        else if content.Str? && !content.encodable then EncodeError
        else
          Rows(rows.(results := rows.results +
            [ResultRow(byteOffset, id, ExtractDenyText(body) != None, DenyText(body, id, denyIds),
                       Bindable(id) && Bindable(Get(obj, "timestamp")))]))
      else Rows(rows)
  }

  /** The blocks of `content` in order; an exception in one leaves no rows of the line. */
  function MapBlocks(codec: Codec, obj: map<string, Json>, byteOffset: nat, denyIds: set<string>,
                     content: seq<Json>): Mapped
  {
    if content == [] then Rows(NO_ROWS)
    else
      var last := |content| - 1;
      match MapBlocks(codec, obj, byteOffset, denyIds, content[..last])
      case Rows(before) => MapBlock(codec, obj, byteOffset, denyIds, content[last], last, before)
      case error => error
  }

  function MapTranscriptLine(codec: Codec, obj: map<string, Json>, byteOffset: nat, denyIds: set<string>): Mapped
  {
    var message := Get(obj, "message");
    if Truthy(message) && !message.Object? then ShapeError
    else
      var content := if Truthy(message) then Get(message.fields, "content") else Null;
      if !content.Array? then Rows(NO_ROWS)
      else MapBlocks(codec, obj, byteOffset, denyIds, content.items)
  }

  // ---- what the mapping guarantees -----------------------------------------

  /** Positions strictly increase, and every row carries the line's own offset and uuid. */
  ghost predicate Positioned<R>(rows: seq<Candidate<R>>, byteOffset: nat, uuid: Json, below: nat)
  {
    && (forall i | 0 <= i < |rows| ::
          rows[i].byteOffset == byteOffset && rows[i].recordUuid == uuid && rows[i].blockIndex < below)
    && (forall i, j | 0 <= i < j < |rows| :: rows[i].blockIndex < rows[j].blockIndex)
  }

  /** One structural row per position below `below`, and every row in its place. */
  ghost predicate WellPlaced(rows: LineRows, byteOffset: nat, uuid: Json, below: nat)
  {
    && Positioned(rows.calls, byteOffset, uuid, below)
    && Positioned(rows.texts, byteOffset, uuid, below)
    && Positioned(rows.blocks, byteOffset, uuid, below)
    && |rows.blocks| == below
    && forall i | 0 <= i < |rows.results| :: rows.results[i].byteOffset == byteOffset
  }

  predicate IsKind(block: Json, kind: string)
  {
    block.Object? && "type" in block.fields && block.fields["type"].Str? && block.fields["type"].text == kind
  }

  predicate ByAssistant(obj: map<string, Json>)
  {
    "type" in obj && obj["type"].Str? && obj["type"].text == "assistant"
  }

  /** What Python counts as false. */
  lemma FalsyValues(j: Json)
    ensures !Truthy(j) <==>
            || j == Null || j == Bool(false) || j == Number(0) || j == Float(0.0) || (j.Str? && j.text == "")
            || j == Array([]) || j == Object(map[])
  {
  }

  /** What sqlite3 binds, by kind; the integers are those of 64 bits. */
  lemma BindableValues(j: Json)
    ensures j == Null || j.Bool? || j.Float? ==> Bindable(j)
    ensures j.Str? ==> (Bindable(j) <==> j.encodable)
    ensures j.Number? ==> (Bindable(j) <==> -9223372036854775808 <= j.value <= 9223372036854775807)
    ensures j.Array? || j.Object? ==> !Bindable(j)
  {
  }

  /** A result block that names its call. */
  predicate NamesCall(block: Json, id: Json)
  {
    IsKind(block, "tool_result") && Get(block.fields, "tool_use_id") == id && Truthy(id)
  }

  predicate PlacedAt<R>(row: Candidate<R>, byteOffset: nat, uuid: Json, index: nat)
  {
    row.byteOffset == byteOffset && row.recordUuid == uuid && row.blockIndex == index
  }

  /** Every column can be bound and the table's constraints let the row in. */
  predicate Fits(codec: Codec, target: Target, columns: seq<Json>)
  {
    (forall column | column in columns :: Bindable(column)) && !codec.refuses(target, columns)
  }

  /** The call of a tool_use block: what it says, where it stands, and which tables take it. */
  predicate CallIs(codec: Codec, obj: map<string, Json>, byteOffset: nat, index: nat, block: Json, c: Candidate<CallRow>)
  {
    && IsKind(block, "tool_use")
    && PlacedAt(c, byteOffset, Get(obj, "uuid"), index)
    && c.content.toolUseId == Get(block.fields, "id")
    && c.content.toolName == Get(block.fields, "name")
    && var input := Get(block.fields, "input");
    && c.content.toolInputJson == (if input == Null then None else Some(codec.dumps(input)))
    && var json := if input == Null then Null else Str(codec.dumps(input), true);
    && c.inSession == Fits(codec, SessionCall,
         [Get(obj, "timestamp"), Get(obj, "uuid"), Get(obj, "sessionId"), Get(obj, "cwd"), Get(obj, "gitBranch"),
          Get(block.fields, "id"), Get(block.fields, "name"), json])
    && c.inSubagent == Fits(codec, SubagentCall,
         [Get(obj, "timestamp"), Get(obj, "uuid"), Get(obj, "sessionId"), Get(obj, "agentId"), Get(obj, "cwd"),
          Get(obj, "gitBranch"), Get(block.fields, "id"), Get(block.fields, "name"), json])
  }

  /** The text of an assistant's text block; a text that is no string counts as none. */
  predicate TextIs(codec: Codec, obj: map<string, Json>, byteOffset: nat, index: nat, block: Json, c: Candidate<TextRow>)
  {
    && IsKind(block, "text") && ByAssistant(obj)
    && PlacedAt(c, byteOffset, Get(obj, "uuid"), index)
    && var raw := Get(block.fields, "text");
    && c.content.text == (if raw.Str? then raw.text else "")
    && c.inSession == Fits(codec, SessionText, [Get(obj, "timestamp"), Get(obj, "uuid")])
    && c.inSubagent == Fits(codec, SubagentText, [Get(obj, "timestamp"), Get(obj, "uuid")])
  }

  /** The structural row of any position, with the type found there. */
  predicate BlockIs(codec: Codec, obj: map<string, Json>, byteOffset: nat, index: nat, block: Json, c: Candidate<BlockRow>)
  {
    && PlacedAt(c, byteOffset, Get(obj, "uuid"), index)
    && c.content.blockType == (if block.Object? then Get(block.fields, "type") else Null)
    && c.inSession == Fits(codec, SessionBlock, [Get(obj, "timestamp"), Get(obj, "uuid"), c.content.blockType])
    && c.inSubagent
  }

  /** A string stands as it is, nothing for null, anything else as it is encoded. */
  predicate IsBodyOf(codec: Codec, block: Json, body: string)
  {
    block.Object? &&
    match Get(block.fields, "content")
    case Str(text, _) => body == text
    case Null => body == ""
    case content => body == codec.dumps(content)
  }

  predicate LedgerNames(id: Json, denyIds: set<string>)
  {
    id.Str? && id.text in denyIds
  }

  /** The result of a block that names its call: the flag if the message opens as a deny, and the remedy either route gives. */
  ghost predicate ResultIs(codec: Codec, obj: map<string, Json>, byteOffset: nat, denyIds: set<string>, block: Json, r: ResultRow)
  {
    && NamesCall(block, r.toolUseId)
    && r.byteOffset == byteOffset
    && r.binds == (Bindable(r.toolUseId) && Bindable(Get(obj, "timestamp")))
    && exists body, rest ::
         && IsBodyOf(codec, block, body) && Unwraps(body, rest)
         && r.isHookDeny == OpensAsADeny(rest)
         && RemedyIs(r, body, rest, denyIds)
  }

  predicate RemedyIs(r: ResultRow, body: string, rest: string, denyIds: set<string>)
  {
    match r.denyText
    case None => !OpensAsADeny(rest) && !(LedgerNames(r.toolUseId, denyIds) && body != "")
    case Some(text) => (OpensAsADeny(rest) || (LedgerNames(r.toolUseId, denyIds) && body != "")) && IsCutOf(text, rest)
  }

  predicate NamesSomeCall(block: Json)
  {
    block.Object? && NamesCall(block, Get(block.fields, "tool_use_id"))
  }

  ghost predicate OneMore<R>(before: seq<R>, after: seq<R>, more: bool)
  {
    before <= after && |after| == |before| + if more then 1 else 0
  }

  lemma CallAdded(codec: Codec, obj: map<string, Json>, byteOffset: nat, denyIds: set<string>,
                  block: Json, index: nat, before: LineRows)
    ensures var mapped := MapBlock(codec, obj, byteOffset, denyIds, block, index, before);
      mapped.Rows? ==>
        && OneMore(before.calls, mapped.rows.calls, IsKind(block, "tool_use"))
        && (IsKind(block, "tool_use") ==> CallIs(codec, obj, byteOffset, index, block, mapped.rows.calls[|before.calls|]))
  {
    hide Takes, Fits, Truthy, Hashable, ExtractDenyText, DenyText, Body, Bindable;
    if IsKind(block, "tool_use") {
      var call := CallOf(codec, block.fields);
      var input := Get(block.fields, "input");
      var json := if input == Null then Null else Str(codec.dumps(input), true);
      assert CallColumns(obj, [], call) ==
             [Get(obj, "timestamp"), Get(obj, "uuid"), Get(obj, "sessionId"), Get(obj, "cwd"), Get(obj, "gitBranch"),
              Get(block.fields, "id"), Get(block.fields, "name"), json];
      assert CallColumns(obj, [Get(obj, "agentId")], call) ==
             [Get(obj, "timestamp"), Get(obj, "uuid"), Get(obj, "sessionId"), Get(obj, "agentId"), Get(obj, "cwd"),
              Get(obj, "gitBranch"), Get(block.fields, "id"), Get(block.fields, "name"), json];
      TakesIsFits(codec, SessionCall, CallColumns(obj, [], call));
      TakesIsFits(codec, SubagentCall, CallColumns(obj, [Get(obj, "agentId")], call));
    }
  }

  lemma TakesIsFits(codec: Codec, target: Target, columns: seq<Json>)
    ensures Takes(codec, target, columns) == Fits(codec, target, columns)
  {
  }

  lemma TextAdded(codec: Codec, obj: map<string, Json>, byteOffset: nat, denyIds: set<string>,
                  block: Json, index: nat, before: LineRows)
    ensures var mapped := MapBlock(codec, obj, byteOffset, denyIds, block, index, before);
      mapped.Rows? ==>
        && OneMore(before.texts, mapped.rows.texts, IsKind(block, "text") && ByAssistant(obj))
        && (IsKind(block, "text") && ByAssistant(obj) ==>
              TextIs(codec, obj, byteOffset, index, block, mapped.rows.texts[|before.texts|]))
  {
    hide Takes, Fits, Hashable, ExtractDenyText, DenyText, Body, Bindable;
    TakesIsFits(codec, SessionText, [Get(obj, "timestamp"), Get(obj, "uuid")]);
    TakesIsFits(codec, SubagentText, [Get(obj, "timestamp"), Get(obj, "uuid")]);
  }

  lemma BlockAdded(codec: Codec, obj: map<string, Json>, byteOffset: nat, denyIds: set<string>,
                   block: Json, index: nat, before: LineRows)
    ensures var mapped := MapBlock(codec, obj, byteOffset, denyIds, block, index, before);
      mapped.Rows? ==>
        && OneMore(before.blocks, mapped.rows.blocks, true)
        && BlockIs(codec, obj, byteOffset, index, block, mapped.rows.blocks[|before.blocks|])
  {
    hide Takes, Fits, Truthy, Hashable, ExtractDenyText, DenyText, Body, Bindable;
    var type_ := if block.Object? then Get(block.fields, "type") else Null;
    TakesIsFits(codec, SessionBlock, [Get(obj, "timestamp"), Get(obj, "uuid"), type_]);
  }

  lemma BodyIsBody(codec: Codec, block: Json, body: string)
    requires block.Object?
    ensures IsBodyOf(codec, block, body) <==> body == Body(codec, Get(block.fields, "content"))
  {
  }

  lemma ResultAdded(codec: Codec, obj: map<string, Json>, byteOffset: nat, denyIds: set<string>,
                    block: Json, index: nat, before: LineRows)
    ensures var mapped := MapBlock(codec, obj, byteOffset, denyIds, block, index, before);
      mapped.Rows? ==>
        && OneMore(before.results, mapped.rows.results, NamesSomeCall(block))
        && (NamesSomeCall(block) ==> ResultIs(codec, obj, byteOffset, denyIds, block, mapped.rows.results[|before.results|]))
  {
    hide Takes, Hashable, ExtractDenyText, DenyText, Body, Bindable, StripLeft, OpensAsADeny, Unwraps, IsBodyOf, IsCutOf, Truthy;
    if NamesSomeCall(block) {
      var body := Body(codec, Get(block.fields, "content"));
      BodyIsBody(codec, block, body);
      StripUnwraps(body);
      DenyIsAnOpening(body, Get(block.fields, "tool_use_id"), denyIds, StripLeft(body));
    }
  }

  lemma PositionedMore<R>(rows: seq<Candidate<R>>, more: seq<Candidate<R>>, byteOffset: nat, uuid: Json, index: nat)
    requires Positioned(rows, byteOffset, uuid, index) && rows <= more && |more| <= |rows| + 1
    requires |more| > |rows| ==> PlacedAt(more[|rows|], byteOffset, uuid, index)
    ensures Positioned(more, byteOffset, uuid, index + 1)
  {
  }

  lemma BlockIsPlaced(codec: Codec, obj: map<string, Json>, byteOffset: nat, denyIds: set<string>,
                      block: Json, index: nat, before: LineRows)
    requires WellPlaced(before, byteOffset, Get(obj, "uuid"), index)
    ensures var mapped := MapBlock(codec, obj, byteOffset, denyIds, block, index, before);
      mapped.Rows? ==> WellPlaced(mapped.rows, byteOffset, Get(obj, "uuid"), index + 1)
  {
    hide MapBlock, Positioned, IsKind, NamesSomeCall, Get, Fits;
    var mapped := MapBlock(codec, obj, byteOffset, denyIds, block, index, before);
    if mapped.Rows? {
      var uuid := Get(obj, "uuid");
      CallAdded(codec, obj, byteOffset, denyIds, block, index, before);
      TextAdded(codec, obj, byteOffset, denyIds, block, index, before);
      ResultAdded(codec, obj, byteOffset, denyIds, block, index, before);
      BlockAdded(codec, obj, byteOffset, denyIds, block, index, before);
      PositionedMore(before.calls, mapped.rows.calls, byteOffset, uuid, index);
      PositionedMore(before.texts, mapped.rows.texts, byteOffset, uuid, index);
      PositionedMore(before.blocks, mapped.rows.blocks, byteOffset, uuid, index);
    }
  }

  lemma {:induction false} BlocksArePlaced(codec: Codec, obj: map<string, Json>, byteOffset: nat,
                                           denyIds: set<string>, content: seq<Json>)
    ensures var mapped := MapBlocks(codec, obj, byteOffset, denyIds, content);
      mapped.Rows? ==> WellPlaced(mapped.rows, byteOffset, Get(obj, "uuid"), |content|)
  {
    hide MapBlock;
    if content != [] {
      var last := |content| - 1;
      BlocksArePlaced(codec, obj, byteOffset, denyIds, content[..last]);
      var init := MapBlocks(codec, obj, byteOffset, denyIds, content[..last]);
      if init.Rows? {
        BlockIsPlaced(codec, obj, byteOffset, denyIds, content[last], last, init.rows);
      }
    }
  }

  /** Every position of the content gets exactly one structural row, whatever its type. */
  lemma LineRowsArePlaced(codec: Codec, obj: map<string, Json>, byteOffset: nat, denyIds: set<string>)
    ensures var mapped := MapTranscriptLine(codec, obj, byteOffset, denyIds);
      mapped.Rows? ==>
        && WellPlaced(mapped.rows, byteOffset, Get(obj, "uuid"), |mapped.rows.blocks|)
        && |mapped.rows.blocks| == if HasContent(obj) then |obj["message"].fields["content"].items| else 0
  {
    var message := Get(obj, "message");
    var content := if Truthy(message) && message.Object? then Get(message.fields, "content") else Null;
    if content.Array? {
      BlocksArePlaced(codec, obj, byteOffset, denyIds, content.items);
    }
  }

  // ---- rows and blocks, one for one ----------------------------------------

  /** The rows are, in order, those of the selected blocks: `at` gives each its block. */
  ghost predicate Mirrors<R>(content: seq<Json>, rows: seq<R>, at: seq<nat>, selects: Json -> bool, is_: (nat, Json, R) -> bool)
  {
    && |at| == |rows|
    && (forall k | 0 <= k < |at| :: at[k] < |content| && selects(content[at[k]]) && is_(at[k], content[at[k]], rows[k]))
    && (forall j, k | 0 <= j < k < |at| :: at[j] < at[k])
    && NoneMissed(content, at, selects)
  }

  ghost predicate NoneMissed(content: seq<Json>, at: seq<nat>, selects: Json -> bool)
  {
    forall i: nat | i < |content| && selects(content[i]) :: i in at
  }

  lemma NoneMissedMore(content: seq<Json>, at: seq<nat>, selects: Json -> bool, block: Json)
    requires NoneMissed(content, at, selects)
    ensures NoneMissed(content + [block], if selects(block) then at + [|content|] else at, selects)
  {
    var longer := content + [block];
    var all := if selects(block) then at + [|content|] else at;
    forall i: nat | i < |longer| && selects(longer[i]) ensures i in all {
      if i < |content| {
        assert longer[i] == content[i];
        assert i in at;
      } else {
        assert all[|at|] == i;
      }
    }
  }

  lemma MirrorsMore<R>(content: seq<Json>, rows: seq<R>, at: seq<nat>, selects: Json -> bool, is_: (nat, Json, R) -> bool,
                       block: Json, more: seq<R>) returns (all: seq<nat>)
    requires Mirrors(content, rows, at, selects, is_) && OneMore(rows, more, selects(block))
    requires selects(block) ==> is_(|content|, block, more[|rows|])
    ensures Mirrors(content + [block], more, all, selects, is_)
  {
    hide NoneMissed;
    all := if selects(block) then at + [|content|] else at;
    NoneMissedMore(content, at, selects, block);
    MirrorsEach(content, rows, at, selects, is_, block, more, all);
  }

  lemma MirrorsEach<R>(content: seq<Json>, rows: seq<R>, at: seq<nat>, selects: Json -> bool, is_: (nat, Json, R) -> bool,
                       block: Json, more: seq<R>, all: seq<nat>)
    requires |at| == |rows| && OneMore(rows, more, selects(block)) && all == if selects(block) then at + [|content|] else at
    requires forall k | 0 <= k < |at| :: at[k] < |content| && selects(content[at[k]]) && is_(at[k], content[at[k]], rows[k])
    requires selects(block) ==> is_(|content|, block, more[|rows|])
    ensures |all| == |more|
    ensures forall k | 0 <= k < |all| ::
              all[k] < |content| + 1 && selects((content + [block])[all[k]]) && is_(all[k], (content + [block])[all[k]], more[k])
  {
    var longer := content + [block];
    forall k | 0 <= k < |all|
      ensures all[k] < |longer| && selects(longer[all[k]]) && is_(all[k], longer[all[k]], more[k])
    {
      if k < |at| {
        assert longer[all[k]] == content[at[k]] && more[k] == rows[k];
      }
    }
  }

  function Calls(): Json -> bool
  {
    block => IsKind(block, "tool_use")
  }

  function TextsOf(obj: map<string, Json>): Json -> bool
  {
    block => IsKind(block, "text") && ByAssistant(obj)
  }

  function Results(): Json -> bool
  {
    block => NamesSomeCall(block)
  }

  function Everything(): Json -> bool
  {
    block => true
  }

  ghost function CallOfBlock(codec: Codec, obj: map<string, Json>, byteOffset: nat): (nat, Json, Candidate<CallRow>) -> bool
  {
    (index: nat, block: Json, c: Candidate<CallRow>) => CallIs(codec, obj, byteOffset, index, block, c)
  }

  ghost function TextOfBlock(codec: Codec, obj: map<string, Json>, byteOffset: nat): (nat, Json, Candidate<TextRow>) -> bool
  {
    (index: nat, block: Json, c: Candidate<TextRow>) => TextIs(codec, obj, byteOffset, index, block, c)
  }

  ghost function ResultOfBlock(codec: Codec, obj: map<string, Json>, byteOffset: nat, denyIds: set<string>): (nat, Json, ResultRow) -> bool
  {
    (index: nat, block: Json, r: ResultRow) => ResultIs(codec, obj, byteOffset, denyIds, block, r)
  }

  ghost function RowOfBlock(codec: Codec, obj: map<string, Json>, byteOffset: nat): (nat, Json, Candidate<BlockRow>) -> bool
  {
    (index: nat, block: Json, c: Candidate<BlockRow>) => BlockIs(codec, obj, byteOffset, index, block, c)
  }

  /**
   The rows mirror the content, one for one and in order: a call for every tool_use block, a text
   for every text block of an assistant's record, a result for every tool_result block that names
   its call, and a structural row for every position.
   */
  ghost predicate RowsMirror(codec: Codec, obj: map<string, Json>, byteOffset: nat, denyIds: set<string>,
                             content: seq<Json>, rows: LineRows)
  {
    && (exists at :: Mirrors(content, rows.calls, at, Calls(), CallOfBlock(codec, obj, byteOffset)))
    && (exists at :: Mirrors(content, rows.texts, at, TextsOf(obj), TextOfBlock(codec, obj, byteOffset)))
    && (exists at :: Mirrors(content, rows.results, at, Results(), ResultOfBlock(codec, obj, byteOffset, denyIds)))
    && (exists at :: Mirrors(content, rows.blocks, at, Everything(), RowOfBlock(codec, obj, byteOffset)))
    && |rows.blocks| == |content|
  }

  lemma {:induction false} BlocksMirror(codec: Codec, obj: map<string, Json>, byteOffset: nat,
                                        denyIds: set<string>, content: seq<Json>)
    ensures var mapped := MapBlocks(codec, obj, byteOffset, denyIds, content);
      mapped.Rows? ==> RowsMirror(codec, obj, byteOffset, denyIds, content, mapped.rows)
  {
    hide MapBlock, Mirrors;
    if content == [] {
      NothingMirrors(codec, obj, byteOffset, denyIds);
    } else {
      var last := |content| - 1;
      BlocksMirror(codec, obj, byteOffset, denyIds, content[..last]);
      var before := MapBlocks(codec, obj, byteOffset, denyIds, content[..last]);
      var mapped := MapBlocks(codec, obj, byteOffset, denyIds, content);
      if mapped.Rows? {
        assert content == content[..last] + [content[last]];
        OneMoreMirrors(codec, obj, byteOffset, denyIds, content[..last], content[last], before.rows, mapped.rows);
      }
    }
  }

  lemma NothingMirrors(codec: Codec, obj: map<string, Json>, byteOffset: nat, denyIds: set<string>)
    ensures RowsMirror(codec, obj, byteOffset, denyIds, [], NO_ROWS)
  {
    var none: seq<nat> := [];
    assert Mirrors([], NO_ROWS.calls, none, Calls(), CallOfBlock(codec, obj, byteOffset));
    assert Mirrors([], NO_ROWS.texts, none, TextsOf(obj), TextOfBlock(codec, obj, byteOffset));
    assert Mirrors([], NO_ROWS.results, none, Results(), ResultOfBlock(codec, obj, byteOffset, denyIds));
    assert Mirrors([], NO_ROWS.blocks, none, Everything(), RowOfBlock(codec, obj, byteOffset));
  }

  lemma OneMoreMirrors(codec: Codec, obj: map<string, Json>, byteOffset: nat, denyIds: set<string>,
                       content: seq<Json>, block: Json, rows: LineRows, more: LineRows)
    requires RowsMirror(codec, obj, byteOffset, denyIds, content, rows)
    requires MapBlock(codec, obj, byteOffset, denyIds, block, |content|, rows) == Rows(more)
    ensures RowsMirror(codec, obj, byteOffset, denyIds, content + [block], more)
  {
    hide MapBlock, Mirrors, CallIs, TextIs, ResultIs, BlockIs, OneMore, IsKind, ByAssistant, NamesSomeCall;
    CallAdded(codec, obj, byteOffset, denyIds, block, |content|, rows);
    TextAdded(codec, obj, byteOffset, denyIds, block, |content|, rows);
    ResultAdded(codec, obj, byteOffset, denyIds, block, |content|, rows);
    BlockAdded(codec, obj, byteOffset, denyIds, block, |content|, rows);
    var a :| Mirrors(content, rows.calls, a, Calls(), CallOfBlock(codec, obj, byteOffset));
    var b :| Mirrors(content, rows.texts, b, TextsOf(obj), TextOfBlock(codec, obj, byteOffset));
    var c :| Mirrors(content, rows.results, c, Results(), ResultOfBlock(codec, obj, byteOffset, denyIds));
    var d :| Mirrors(content, rows.blocks, d, Everything(), RowOfBlock(codec, obj, byteOffset));
    var a' := MirrorsMore(content, rows.calls, a, Calls(), CallOfBlock(codec, obj, byteOffset), block, more.calls);
    var b' := MirrorsMore(content, rows.texts, b, TextsOf(obj), TextOfBlock(codec, obj, byteOffset), block, more.texts);
    var c' := MirrorsMore(content, rows.results, c, Results(), ResultOfBlock(codec, obj, byteOffset, denyIds), block, more.results);
    var d' := MirrorsMore(content, rows.blocks, d, Everything(), RowOfBlock(codec, obj, byteOffset), block, more.blocks);
    OneMoreCounts(rows.blocks, more.blocks);
  }

  lemma OneMoreCounts<R>(before: seq<R>, after: seq<R>)
    requires OneMore(before, after, true)
    ensures |after| == |before| + 1
  {
  }

  /** The record's message is an object whose content is a list. */
  predicate HasContent(obj: map<string, Json>)
  {
    && "message" in obj && obj["message"].Object?
    && "content" in obj["message"].fields && obj["message"].fields["content"].Array?
  }

  /**
   The rows of a record mirror its own content list; a record without one gives no rows, or raises
   when its message is something, and no object.
   */
  lemma RowsMirrorTheContent(codec: Codec, obj: map<string, Json>, byteOffset: nat, denyIds: set<string>)
    ensures var mapped := MapTranscriptLine(codec, obj, byteOffset, denyIds);
      && (HasContent(obj) && mapped.Rows? ==>
            RowsMirror(codec, obj, byteOffset, denyIds, obj["message"].fields["content"].items, mapped.rows))
      && (!HasContent(obj) ==>
            mapped == if "message" in obj && !obj["message"].Object? && Truthy(obj["message"]) then ShapeError
                      else Rows(LineRows([], [], [], [])))
  {
    hide RowsMirror, MapBlocks;
    if HasContent(obj) {
      assert obj["message"].fields != map[];
      BlocksMirror(codec, obj, byteOffset, denyIds, obj["message"].fields["content"].items);
    }
  }

  // ---- which records raise -------------------------------------------------

  /** AttributeError or TypeError: a text that is something and no string, or an id that cannot be looked up. */
  ghost predicate ShapeFails(codec: Codec, obj: map<string, Json>, block: Json)
  {
    || (IsKind(block, "text") && ByAssistant(obj) && Truthy(Get(block.fields, "text")) && !Get(block.fields, "text").Str?)
    || (NamesSomeCall(block) && (Get(block.fields, "tool_use_id").Array? || Get(block.fields, "tool_use_id").Object?)
        && !IsADenyIn(codec, block))
  }

  /** UnicodeEncodeError: a lone surrogate in a text or in a result's own string. */
  ghost predicate EncodeFails(codec: Codec, obj: map<string, Json>, block: Json)
  {
    && !ShapeFails(codec, obj, block)
    && (|| (IsKind(block, "text") && ByAssistant(obj) && Get(block.fields, "text").Str?
            && Get(block.fields, "text").text != "" && !Get(block.fields, "text").encodable)
        || (NamesSomeCall(block) && Get(block.fields, "content").Str? && !Get(block.fields, "content").encodable))
  }

  lemma BlockRaises(codec: Codec, obj: map<string, Json>, byteOffset: nat, denyIds: set<string>,
                    block: Json, index: nat, before: LineRows)
    ensures var mapped := MapBlock(codec, obj, byteOffset, denyIds, block, index, before);
      && (mapped.ShapeError? <==> ShapeFails(codec, obj, block))
      && (mapped.EncodeError? <==> EncodeFails(codec, obj, block))
  {
    hide Takes, ExtractDenyText, DenyText, Body, Bindable, IsADenyIn;
    if NamesSomeCall(block) {
      DeniesByBody(codec, block);
    }
  }

  /** The block's body unwraps to one of the openings. */
  ghost predicate IsADenyIn(codec: Codec, block: Json)
    requires NamesSomeCall(block)
  {
    exists body, rest :: IsBodyOf(codec, block, body) && Unwraps(body, rest) && OpensAsADeny(rest)
  }

  lemma DeniesByBody(codec: Codec, block: Json)
    requires NamesSomeCall(block)
    ensures IsADenyIn(codec, block) <==> ExtractDenyText(Body(codec, Get(block.fields, "content"))) != None
  {
    hide ExtractDenyText, Body, StripLeft, OpensAsADeny, Unwraps, IsBodyOf;
    var body := Body(codec, Get(block.fields, "content"));
    BodyIsBody(codec, block, body);
    StripUnwraps(body);
    DenyIsAnOpening(body, Null, {}, StripLeft(body));
    if other, rest :| IsBodyOf(codec, block, other) && Unwraps(other, rest) && OpensAsADeny(rest) {
      BodyIsBody(codec, block, other);
      DenyIsAnOpening(other, Null, {}, rest);
    }
  }

  /** No block before `i` fails. */
  ghost predicate NoneFailsBefore(codec: Codec, obj: map<string, Json>, content: seq<Json>, i: nat)
    requires i <= |content|
  {
    forall j | 0 <= j < i :: !ShapeFails(codec, obj, content[j]) && !EncodeFails(codec, obj, content[j])
  }

  lemma {:induction false} BlocksMapIff(codec: Codec, obj: map<string, Json>, byteOffset: nat, denyIds: set<string>, content: seq<Json>)
    ensures MapBlocks(codec, obj, byteOffset, denyIds, content).Rows? <==> NoneFailsBefore(codec, obj, content, |content|)
  {
    hide MapBlock, ShapeFails, EncodeFails;
    if content != [] {
      var last := |content| - 1;
      var front := content[..last];
      BlocksMapIff(codec, obj, byteOffset, denyIds, front);
      assert forall i | 0 <= i < last :: front[i] == content[i];
      var before := MapBlocks(codec, obj, byteOffset, denyIds, front);
      if before.Rows? {
        BlockRaises(codec, obj, byteOffset, denyIds, content[last], last, before.rows);
      }
    }
  }

  lemma {:induction false} RaisesAs(codec: Codec, obj: map<string, Json>, byteOffset: nat, denyIds: set<string>, content: seq<Json>, i: nat)
    requires i < |content| && NoneFailsBefore(codec, obj, content, i)
    requires ShapeFails(codec, obj, content[i]) || EncodeFails(codec, obj, content[i])
    ensures MapBlocks(codec, obj, byteOffset, denyIds, content) == if ShapeFails(codec, obj, content[i]) then ShapeError else EncodeError
  {
    hide MapBlock, ShapeFails, EncodeFails;
    var last := |content| - 1;
    var front := content[..last];
    assert forall j | 0 <= j < last :: front[j] == content[j];
    if i < last {
      RaisesAs(codec, obj, byteOffset, denyIds, front, i);
    } else {
      BlocksMapIff(codec, obj, byteOffset, denyIds, front);
      BlockRaises(codec, obj, byteOffset, denyIds, content[last], last, MapBlocks(codec, obj, byteOffset, denyIds, front).rows);
    }
  }

  lemma {:induction false} FirstBadBlock(codec: Codec, obj: map<string, Json>, content: seq<Json>, n: nat) returns (i: nat)
    requires n <= |content| && !NoneFailsBefore(codec, obj, content, n)
    ensures i < n && NoneFailsBefore(codec, obj, content, i) && (ShapeFails(codec, obj, content[i]) || EncodeFails(codec, obj, content[i]))
  {
    hide ShapeFails, EncodeFails;
    if NoneFailsBefore(codec, obj, content, n - 1) {
      i := n - 1;
    } else {
      i := FirstBadBlock(codec, obj, content, n - 1);
    }
  }

  ghost predicate FirstBadIs(codec: Codec, obj: map<string, Json>, content: seq<Json>, i: int, shape: bool)
  {
    && 0 <= i < |content| && NoneFailsBefore(codec, obj, content, i)
    && if shape then ShapeFails(codec, obj, content[i]) else EncodeFails(codec, obj, content[i])
  }

  /** The first block that fails decides what the record raises. */
  lemma RaisesOnItsFirstBadBlock(codec: Codec, obj: map<string, Json>, byteOffset: nat, denyIds: set<string>, content: seq<Json>)
    ensures var mapped := MapBlocks(codec, obj, byteOffset, denyIds, content);
      && (mapped.Rows? <==> NoneFailsBefore(codec, obj, content, |content|))
      && (mapped.ShapeError? <==> exists i :: FirstBadIs(codec, obj, content, i, true))
      && (mapped.EncodeError? <==> exists i :: FirstBadIs(codec, obj, content, i, false))
  {
    hide MapBlocks, ShapeFails, EncodeFails, NoneFailsBefore;
    BlocksMapIff(codec, obj, byteOffset, denyIds, content);
    if !NoneFailsBefore(codec, obj, content, |content|) {
      var i := FirstBadBlock(codec, obj, content, |content|);
      assert FirstBadIs(codec, obj, content, i, true) || FirstBadIs(codec, obj, content, i, false);
    }
    forall i, shape | FirstBadIs(codec, obj, content, i, shape)
      ensures MapBlocks(codec, obj, byteOffset, denyIds, content) == if shape then ShapeError else EncodeError
    {
      OneFailure(codec, obj, content[i]);
      RaisesAs(codec, obj, byteOffset, denyIds, content, i);
    }
  }

  lemma OneFailure(codec: Codec, obj: map<string, Json>, block: Json)
    ensures !(ShapeFails(codec, obj, block) && EncodeFails(codec, obj, block))
  {
    hide ShapeFails;
  }

  /** So, for the record itself. */
  lemma RecordRaisesIff(codec: Codec, obj: map<string, Json>, byteOffset: nat, denyIds: set<string>)
    requires HasContent(obj)
    ensures var items := obj["message"].fields["content"].items;
      MapTranscriptLine(codec, obj, byteOffset, denyIds).Rows? <==>
      forall i | 0 <= i < |items| :: !ShapeFails(codec, obj, items[i]) && !EncodeFails(codec, obj, items[i])
  {
    hide MapBlocks, ShapeFails, EncodeFails;
    assert obj["message"].fields != map[];
    RaisesOnItsFirstBadBlock(codec, obj, byteOffset, denyIds, obj["message"].fields["content"].items);
  }

  // ---- what a table does not take ------------------------------------------

  ghost predicate RowsRefused(rows: LineRows)
  {
    || (exists i :: 0 <= i < |rows.texts| && !rows.texts[i].inSubagent)
    || (exists i :: 0 <= i < |rows.calls| && !rows.calls[i].inSubagent)
    || (exists i :: 0 <= i < |rows.results| && !rows.results[i].binds)
  }

  /** The subagent pull's INSERT fails on this block's row whatever is stored. */
  predicate BlockRefused(codec: Codec, obj: map<string, Json>, block: Json)
  {
    var ts, uuid := Get(obj, "timestamp"), Get(obj, "uuid");
    || (IsKind(block, "text") && IsText(Get(obj, "type"), "assistant") && !Takes(codec, SubagentText, [ts, uuid]))
    || (IsKind(block, "tool_use") &&
        !Takes(codec, SubagentCall, CallColumns(obj, [Get(obj, "agentId")], CallOf(codec, block.fields))))
    || (IsKind(block, "tool_result") &&
        var id := Get(block.fields, "tool_use_id");
        Truthy(id) && !(Bindable(id) && Bindable(ts)))
  }

  /** The content's rows are refused exactly for a block whose columns the table does not take. */
  lemma {:induction false} BlocksRefused(codec: Codec, obj: map<string, Json>, byteOffset: nat, denyIds: set<string>, content: seq<Json>)
    ensures var mapped := MapBlocks(codec, obj, byteOffset, denyIds, content);
      mapped.Rows? ==>
        (RowsRefused(mapped.rows) <==> exists i :: 0 <= i < |content| && BlockRefused(codec, obj, content[i]))
  {
    hide MapBlock, BlockRefused, RowsRefused;
    if content == [] {
      NothingRefused();
    } else {
      var last := |content| - 1;
      BlocksRefused(codec, obj, byteOffset, denyIds, content[..last]);
      var before := MapBlocks(codec, obj, byteOffset, denyIds, content[..last]);
      if before.Rows? {
        RefusedOneMore(codec, obj, byteOffset, denyIds, content[last], last, before.rows);
      }
    }
  }

  /** A mapped record is refused exactly for a block of its content whose columns the table does not take. */
  lemma RefusedIs(codec: Codec, obj: map<string, Json>, byteOffset: nat, denyIds: set<string>)
    ensures var mapped := MapTranscriptLine(codec, obj, byteOffset, denyIds);
      mapped.Rows? ==>
        (RowsRefused(mapped.rows) <==>
           HasContent(obj) &&
           exists i :: 0 <= i < |obj["message"].fields["content"].items|
             && BlockRefused(codec, obj, obj["message"].fields["content"].items[i]))
  {
    hide MapBlocks, BlockRefused;
    if HasContent(obj) {
      assert obj["message"].fields != map[];
      BlocksRefused(codec, obj, byteOffset, denyIds, obj["message"].fields["content"].items);
    }
  }

  lemma NothingRefused()
    ensures !RowsRefused(NO_ROWS)
  {
  }

  lemma RefusedOneMore(codec: Codec, obj: map<string, Json>, byteOffset: nat, denyIds: set<string>,
                       block: Json, index: nat, before: LineRows)
    ensures var mapped := MapBlock(codec, obj, byteOffset, denyIds, block, index, before);
      mapped.Rows? ==> (RowsRefused(mapped.rows) <==> RowsRefused(before) || BlockRefused(codec, obj, block))
  {
    hide Takes, Bindable, Truthy, Hashable, CallColumns, ExtractDenyText, DenyText, Body, CallOf, RowsRefused;
    var mapped := MapBlock(codec, obj, byteOffset, denyIds, block, index, before);
    if mapped.Rows? {
      var after := mapped.rows;
      RefusedOfMore(before, after);
    }
  }

  /** At most one row more, in one of the three tables. */
  lemma RefusedOfMore(before: LineRows, after: LineRows)
    requires before.texts <= after.texts && |after.texts| <= |before.texts| + 1
    requires before.calls <= after.calls && |after.calls| <= |before.calls| + 1
    requires before.results <= after.results && |after.results| <= |before.results| + 1
    ensures RowsRefused(after) <==>
            || RowsRefused(before)
            || (|after.texts| > |before.texts| && !after.texts[|before.texts|].inSubagent)
            || (|after.calls| > |before.calls| && !after.calls[|before.calls|].inSubagent)
            || (|after.results| > |before.results| && !after.results[|before.results|].binds)
  {
  }

  /** Two results that differ at most in a remedy the larger verdict set adds. */
  predicate SameButLater(early: ResultRow, late: ResultRow)
  {
    && early.byteOffset == late.byteOffset
    && early.toolUseId == late.toolUseId
    && early.isHookDeny == late.isHookDeny
    && early.binds == late.binds
    && (early.denyText == late.denyText || (early.denyText == None && !early.isHookDeny))
  }

  ghost predicate SameButLaterAll(early: seq<ResultRow>, late: seq<ResultRow>)
  {
    |early| == |late| && forall i | 0 <= i < |early| :: SameButLater(early[i], late[i])
  }

  lemma SameButLaterMore(early: seq<ResultRow>, late: seq<ResultRow>, a: ResultRow, b: ResultRow)
    requires SameButLaterAll(early, late) && SameButLater(a, b)
    ensures SameButLaterAll(early + [a], late + [b])
  {
  }

  /** What either verdict set makes of one more block. */
  lemma VerdictsOfBlock(codec: Codec, obj: map<string, Json>, byteOffset: nat, early: set<string>, late: set<string>,
                        block: Json, index: nat, a: LineRows, b: LineRows)
    requires early <= late && b == a.(results := b.results) && SameButLaterAll(a.results, b.results)
    ensures var x := MapBlock(codec, obj, byteOffset, early, block, index, a);
      var y := MapBlock(codec, obj, byteOffset, late, block, index, b);
      && x.Rows? == y.Rows? && x.ShapeError? == y.ShapeError?
      && (x.Rows? ==> y.rows == x.rows.(results := y.rows.results) && SameButLaterAll(x.rows.results, y.rows.results))
  {
    hide SameButLaterAll, ExtractDenyText, Body;
    var x := MapBlock(codec, obj, byteOffset, early, block, index, a);
    if x.Rows? && |x.rows.results| > |a.results| {
      var y := MapBlock(codec, obj, byteOffset, late, block, index, b);
      SameButLaterMore(a.results, b.results, x.rows.results[|a.results|], y.rows.results[|b.results|]);
    }
  }

  /** The verdicts known when a line is mapped decide its remedies and nothing else. */
  lemma {:induction false} VerdictsOnlyAddRemedies(codec: Codec, obj: map<string, Json>, byteOffset: nat,
                                                   content: seq<Json>, early: set<string>, late: set<string>)
    requires early <= late
    ensures var a := MapBlocks(codec, obj, byteOffset, early, content);
      var b := MapBlocks(codec, obj, byteOffset, late, content);
      && a.Rows? == b.Rows? && a.ShapeError? == b.ShapeError?
      && (a.Rows? ==>
            && b.rows == a.rows.(results := b.rows.results)
            && SameButLaterAll(a.rows.results, b.rows.results))
  {
    hide MapBlock;
    if content != [] {
      var last := |content| - 1;
      VerdictsOnlyAddRemedies(codec, obj, byteOffset, content[..last], early, late);
      var a := MapBlocks(codec, obj, byteOffset, early, content[..last]);
      var b := MapBlocks(codec, obj, byteOffset, late, content[..last]);
      if a.Rows? {
        VerdictsOfBlock(codec, obj, byteOffset, early, late, content[last], last, a.rows, b.rows);
      }
    }
  }
}
