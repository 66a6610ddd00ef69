/**
 atlas/gaming_family/classifier.py: four families of denied events drawn from
 one snapshot of the warehouse, and the arithmetic that reconciles them.
 */
module GamingFamilies {
  import opened Wrappers
  import opened Sequences

  type Name = string
  type Key = (string, nat)

  const LOOKBACK_WINDOW := 5
  const RETRY_WINDOW := 3
  const WRITE_LIKE_TOOLS := {"Write", "Edit", "MultiEdit"}
  const SEMANTIC_HANDLER := "guard_destructive.py"
  const RESTAMP_HANDLER := "architecture_gate.py"

  /** A row of hook_verdict; `key` is (stream_id, byte_offset). */
  datatype Verdict = Verdict(
    key: Key,
    decision: Name,
    handler: Name,
    session: Option<Name>,
    toolName: Option<Name>,
    toolUseId: Option<Name>)

  /** A tool call, with what its stored input says of a path and a command. */
  datatype Call = Call(toolUseId: Option<Name>, toolName: Option<Name>, filePath: Option<string>, command: Option<string>)

  /** One snapshot: the verdicts, and each session's calls in time order. */
  datatype Warehouse = Warehouse(verdicts: seq<Verdict>, calls: Name -> seq<Call>)

  function Filter(keep: Verdict -> bool, s: seq<Verdict>): (r: seq<Verdict>)
    ensures forall x :: x in r <==> x in s && keep(x)
  {
    if s == [] then []
    else Filter(keep, s[..|s| - 1]) + if keep(s[|s| - 1]) then [s[|s| - 1]] else []
  }

  predicate Contested(v: Verdict)
  {
    v.decision in {"deny", "ask"}
  }

  predicate InPopulation(v: Verdict)
  {
    Contested(v) && v.session.Some?
  }

  function Population(w: Warehouse): seq<Verdict>
  {
    Filter(InPopulation, w.verdicts)
  }

  function PopulationOf(w: Warehouse, handler: Name): seq<Verdict>
  {
    Filter((v: Verdict) => InPopulation(v) && v.handler == handler, w.verdicts)
  }

  // ---- the timeline --------------------------------------------------------

  /** The first call with this id; the length when there is none. */
  function CallIndex(calls: seq<Call>, id: Name, from: nat): (i: nat)
    requires from <= |calls|
    ensures from <= i <= |calls|
    ensures forall k | from <= k < i :: calls[k].toolUseId != Some(id)
    ensures i < |calls| ==> calls[i].toolUseId == Some(id)
    decreases |calls| - from
  {
    if from == |calls| || calls[from].toolUseId == Some(id) then from else CallIndex(calls, id, from + 1)
  }

  function Basename(path: string): string
  {
    var parts := Split(path, '/');
    parts[|parts| - 1]
  }

  predicate Contains(text: string, part: string)
  {
    part <= text || (text != "" && Contains(text[1..], part))
  }

  function WrittenPath(call: Call): Option<string>
  {
    if call.toolName.Some? && call.toolName.value in WRITE_LIKE_TOOLS && call.filePath != Some("") then call.filePath else None
  }

  function BashCommand(call: Call): Option<string>
  {
    if call.toolName == Some("Bash") then call.command else None
  }

  predicate Names(command: string, call: Call)
  {
    && WrittenPath(call).Some?
    && Basename(WrittenPath(call).value) != ""
    && Contains(command, Basename(WrittenPath(call).value))
  }

  /** The denied command names a file written at most five calls before it. */
  predicate WriteThenExecute(calls: seq<Call>, id: Name)
  {
    var at := CallIndex(calls, id, 0);
    && at < |calls| && BashCommand(calls[at]).Some? && BashCommand(calls[at]).value != ""
    && exists k | at - LOOKBACK_WINDOW <= k < at :: 0 <= k && Names(BashCommand(calls[at]).value, calls[k])
  }

  /** The last component of a path: what follows its last slash. */
  lemma {:induction false} BasenameIs(path: string)
    ensures '/' !in Basename(path)
    ensures exists n :: 0 <= n <= |path| && Basename(path) == path[n..] && (n == 0 || path[n - 1] == '/')
    decreases |path|
  {
    var i := IndexOf(path, '/');
    if i == |path| {
      assert path[0..] == path;
      assert '/' !in path;
    } else {
      BasenameIs(path[i + 1..]);
      var rest := path[i + 1..];
      var n :| 0 <= n <= |rest| && Basename(rest) == rest[n..] && (n == 0 || rest[n - 1] == '/');
      assert Basename(path) == Basename(rest) by { LastOfMore(path, i); }
      assert rest[n..] == path[i + 1 + n..];
    }
  }

  lemma LastOfMore(path: string, i: nat)
    requires i == IndexOf(path, '/') && i < |path|
    ensures Basename(path) == Basename(path[i + 1..])
  {
  }

  lemma {:induction false} ContainsIs(text: string, part: string)
    ensures Contains(text, part) <==> exists n :: 0 <= n <= |text| && part <= text[n..]
  {
    if text == "" {
      assert text[0..] == text;
    } else {
      ContainsIs(text[1..], part);
      assert text[0..] == text;
      if n :| 0 <= n <= |text| && part <= text[n..] {
        if n > 0 {
          assert text[1..][n - 1..] == text[n..];
        }
      }
      if n :| 0 <= n <= |text[1..]| && part <= text[1..][n..] {
        assert text[1..][n..] == text[n + 1..];
      }
    }
  }

  /** A Write, Edit or MultiEdit call of a file whose name, its last path component, the command holds. */
  ghost predicate WritesWhatItNames(call: Call, command: string)
  {
    && call.toolName in {Some("Write"), Some("Edit"), Some("MultiEdit")}
    && call.filePath.Some? && call.filePath.value != ""
    && exists n, m :: EndsWithName(call.filePath.value, n) && 0 <= m <= |command| && call.filePath.value[n..] <= command[m..]
  }

  /** What follows the last slash is the whole path or comes after it, is something and holds no slash. */
  predicate EndsWithName(path: string, n: int)
  {
    && 0 <= n < |path| && (n == 0 || path[n - 1] == '/') && forall p | n <= p < |path| :: path[p] != '/'
  }

  /** Where the last component starts. */
  lemma BasenameAt(path: string) returns (k: nat)
    ensures k <= |path| && Basename(path) == path[k..] && (k == 0 || path[k - 1] == '/')
    ensures forall p | k <= p < |path| :: path[p] != '/'
  {
    hide Basename;
    BasenameIs(path);
    k :| 0 <= k <= |path| && Basename(path) == path[k..] && (k == 0 || path[k - 1] == '/');
    forall p | k <= p < |path| ensures path[p] != '/' {
      assert path[p] == path[k..][p - k] && path[p] in path[k..];
    }
  }

  lemma NameIsBasename(path: string, n: int)
    requires EndsWithName(path, n)
    ensures Basename(path) == path[n..]
  {
    hide Basename;
    var k := BasenameAt(path);
  }

  lemma NamesIs(command: string, call: Call)
    ensures Names(command, call) <==> WritesWhatItNames(call, command)
  {
    hide Basename, Contains;
    if WrittenPath(call).Some? {
      var path := call.filePath.value;
      var k := BasenameAt(path);
      ContainsIs(command, Basename(path));
      if Names(command, call) {
        assert EndsWithName(path, k);
      }
      if WritesWhatItNames(call, command) {
        var n, m :| EndsWithName(path, n) && 0 <= m <= |command| && path[n..] <= command[m..];
        NameIsBasename(path, n);
      }
    }
  }

  /** The denied call is the first with its id. */
  predicate IsFirstCall(calls: seq<Call>, id: Name, at: int)
  {
    0 <= at < |calls| && calls[at].toolUseId == Some(id) && forall k | 0 <= k < at :: calls[k].toolUseId != Some(id)
  }

  /** A Bash command, and one of the five calls before it that wrote what it names. */
  ghost predicate IsEvidence(calls: seq<Call>, id: Name, at: int, k: int)
  {
    && IsFirstCall(calls, id, at)
    && calls[at].toolName == Some("Bash") && calls[at].command.Some? && calls[at].command.value != ""
    && 0 <= k < at <= k + 5
    && WritesWhatItNames(calls[k], calls[at].command.value)
  }

  /** The evidence, written out. */
  lemma EvidenceIs(calls: seq<Call>, id: Name)
    ensures WriteThenExecute(calls, id) <==>
            exists at, k :: IsEvidence(calls, id, at, k)
  {
    hide Names, WritesWhatItNames;
    var at := CallIndex(calls, id, 0);
    if at < |calls| && BashCommand(calls[at]).Some? {
      forall k | 0 <= k < at {
        NamesIs(BashCommand(calls[at]).value, calls[k]);
      }
      if WriteThenExecute(calls, id) {
        var k :| at - LOOKBACK_WINDOW <= k < at && 0 <= k && Names(BashCommand(calls[at]).value, calls[k]);
        NamesIs(BashCommand(calls[at]).value, calls[k]);
        assert IsEvidence(calls, id, at, k);
      }
    }
    if b, k :| IsEvidence(calls, id, b, k) {
      assert b == at;
      NamesIs(calls[b].command.value, calls[k]);
    }
  }

  method WriteThenExecuteEvidence(calls: seq<Call>, id: Name) returns (hit: bool)
    ensures hit == WriteThenExecute(calls, id)
  {
    var at := CallIndex(calls, id, 0);
    if at == |calls| {
      return false;
    }
    var command := BashCommand(calls[at]);
    if command == None || command.value == "" {
      return false;
    }
    var start := if at < LOOKBACK_WINDOW then 0 else at - LOOKBACK_WINDOW;
    for k := start to at
      invariant forall j | start <= j < k :: !Names(command.value, calls[j])
    {
      var path := WrittenPath(calls[k]);
      if path.Some? {
        var basename := Basename(path.value);
        if basename != "" && Contains(command.value, basename) {
          assert Names(command.value, calls[k]);
          return true;
        }
      }
    }
    hit := false;
  }

  // ---- stopped or escaped --------------------------------------------------

  predicate IsContested(w: Warehouse, id: Option<Name>)
  {
    id.Some? && exists v | v in w.verdicts :: v.toolUseId == id && Contested(v)
  }

  /** Another call of the same tool, not denied in its turn, among the next three. */
  predicate Escaped(w: Warehouse, v: Verdict)
    requires v.session.Some?
  {
    && v.toolUseId.Some? && v.toolUseId.value != ""
    && var calls := w.calls(v.session.value);
       var at := CallIndex(calls, v.toolUseId.value, 0);
       exists k | at < k <= at + RETRY_WINDOW ::
         k < |calls| && calls[k].toolName == v.toolName && !IsContested(w, calls[k].toolUseId)
  }

  /** A deny or an ask on this call. */
  predicate WasContested(w: Warehouse, id: Name)
  {
    exists v :: v in w.verdicts && v.toolUseId == Some(id) && (v.decision == "deny" || v.decision == "ask")
  }

  /** Escape, written out: of the three calls after the denied one, one is of its tool and was not contested itself. */
  lemma EscapedIs(w: Warehouse, v: Verdict)
    requires v.session.Some?
    ensures var calls := w.calls(v.session.value);
      Escaped(w, v) <==>
        v.toolUseId.Some? && v.toolUseId.value != "" &&
        exists at, k ::
          && IsFirstCall(calls, v.toolUseId.value, at)
          && at < k <= at + 3 && k < |calls| && calls[k].toolName == v.toolName
          && (calls[k].toolUseId.Some? ==> !WasContested(w, calls[k].toolUseId.value))
  {
    if v.toolUseId.Some? && v.toolUseId.value != "" {
      var calls := w.calls(v.session.value);
      var at := CallIndex(calls, v.toolUseId.value, 0);
      if at < |calls| {
        assert IsFirstCall(calls, v.toolUseId.value, at);
      }
    }
  }

  method IsStopped(w: Warehouse, v: Verdict) returns (stopped: bool)
    requires v.session.Some?
    ensures stopped == !Escaped(w, v)
  {
    hide IsContested;
    if v.toolUseId == None || v.toolUseId.value == "" {
      return true;
    }
    var calls := w.calls(v.session.value);
    var at := CallIndex(calls, v.toolUseId.value, 0);
    if at == |calls| {
      return true;
    }
    var end := if at + 1 + RETRY_WINDOW < |calls| then at + 1 + RETRY_WINDOW else |calls|;
    for k := at + 1 to end
      invariant forall j | at < j < k :: !(calls[j].toolName == v.toolName && !IsContested(w, calls[j].toolUseId))
    {
      if calls[k].toolName == v.toolName {
        if !IsContested(w, calls[k].toolUseId) {
          return false;
        }
      }
    }
    stopped := true;
  }

  // ---- the families --------------------------------------------------------

  function Keys(events: seq<Verdict>): set<Key>
  {
    set v | v in events :: v.key
  }

  predicate IsWriteThenExecute(w: Warehouse, v: Verdict)
  {
    && v.toolName == Some("Bash") && v.toolUseId.Some? && v.toolUseId.value != "" && v.session.Some?
    && WriteThenExecute(w.calls(v.session.value), v.toolUseId.value)
  }

  function WriteThenExecuteEvents(w: Warehouse): seq<Verdict>
  {
    Filter((v: Verdict) => IsWriteThenExecute(w, v), Population(w))
  }

  function ClaimedKeys(w: Warehouse): set<Key>
  {
    Keys(PopulationOf(w, SEMANTIC_HANDLER)) + Keys(PopulationOf(w, RESTAMP_HANDLER)) + Keys(WriteThenExecuteEvents(w))
  }

  function LandedRetry(w: Warehouse): seq<Verdict>
  {
    var claimed := ClaimedKeys(w);
    Filter((v: Verdict) => v.key !in claimed, Population(w))
  }

  predicate IsDenyOrAsk(v: Verdict)
  {
    (v.decision == "deny" || v.decision == "ask") && v.session.Some?
  }

  /** The event belongs to one of the three claiming families. */
  predicate ClaimsKey(w: Warehouse, u: Verdict, key: Key)
  {
    && u in w.verdicts && IsDenyOrAsk(u) && u.key == key
    && (|| u.handler == "guard_destructive.py"
        || u.handler == "architecture_gate.py"
        || (u.toolName == Some("Bash") && u.toolUseId.Some? && u.toolUseId.value != ""
            && WriteThenExecute(w.calls(u.session.value), u.toolUseId.value)))
  }

  /**
   The families, written out: denies and asks of a known session; by the two handlers; by a Bash
   call with evidence; and those whose key none of these three claims.
   */
  lemma FamiliesAre(w: Warehouse, v: Verdict)
    ensures v in Population(w) <==> v in w.verdicts && IsDenyOrAsk(v)
    ensures v in PopulationOf(w, SEMANTIC_HANDLER) <==> v in w.verdicts && IsDenyOrAsk(v) && v.handler == "guard_destructive.py"
    ensures v in PopulationOf(w, RESTAMP_HANDLER) <==> v in w.verdicts && IsDenyOrAsk(v) && v.handler == "architecture_gate.py"
    ensures v in WriteThenExecuteEvents(w) <==>
            && v in w.verdicts && IsDenyOrAsk(v)
            && v.toolName == Some("Bash") && v.toolUseId.Some? && v.toolUseId.value != ""
            && WriteThenExecute(w.calls(v.session.value), v.toolUseId.value)
    ensures v in LandedRetry(w) <==>
            v in w.verdicts && IsDenyOrAsk(v) && !exists u :: ClaimsKey(w, u, v.key)
  {
    hide WriteThenExecute;
    ClaimedIs(w, v.key);
  }

  lemma ClaimedIs(w: Warehouse, key: Key)
    ensures key in ClaimedKeys(w) <==> exists u :: ClaimsKey(w, u, key)
  {
    hide WriteThenExecute;
    if u :| ClaimsKey(w, u, key) {
      assert u in PopulationOf(w, SEMANTIC_HANDLER) || u in PopulationOf(w, RESTAMP_HANDLER) || u in WriteThenExecuteEvents(w);
    }
    if key in ClaimedKeys(w) {
      var u :| (u in PopulationOf(w, SEMANTIC_HANDLER) || u in PopulationOf(w, RESTAMP_HANDLER) || u in WriteThenExecuteEvents(w))
        && u.key == key;
      assert ClaimsKey(w, u, key);
    }
  }

  datatype Score = Score(caught: nat, stopped: nat, escaped: int)

  datatype Report = Report(
    semantic: Score, restamp: Score, writeThenExecute: Score, landedRetry: Score,
    population: nat, overlap: int, reconciled: nat)

  /** Every caught event is stopped or escaped, and the stopped ones are those that did not escape. */
  predicate IsScoreOf(w: Warehouse, events: seq<Verdict>, score: Score)
  {
    && score.caught == |events| && score.stopped + score.escaped == score.caught
    && score.stopped == |Filter((v: Verdict) => v.session.Some? && !Escaped(w, v), events)|
  }

  method ScoreFamily(w: Warehouse, events: seq<Verdict>) returns (score: Score)
    requires forall v | v in events :: v.session.Some?
    ensures score.caught == |events| && IsScoreOf(w, events, score)
  {
    hide Escaped;
    var stopped := 0;
    var outcome := (v: Verdict) => v.session.Some? && !Escaped(w, v);
    for i := 0 to |events|
      invariant stopped == |Filter(outcome, events[..i])|
    {
      assert events[..i + 1][..i] == events[..i];
      assert events[i] in events;
      var isStop := IsStopped(w, events[i]);
      if isStop {
        stopped := stopped + 1;
      }
    }
    assert events[..|events|] == events;
    score := Score(|events|, stopped, |events| - stopped);
  }

  method ClassifyWriteThenExecute(w: Warehouse) returns (wte: seq<Verdict>)
    ensures wte == WriteThenExecuteEvents(w)
  {
    hide WriteThenExecute;
    var all := Population(w);
    wte := [];
    var belongs := (v: Verdict) => IsWriteThenExecute(w, v);
    for i := 0 to |all|
      invariant wte == Filter(belongs, all[..i])
    {
      assert all[..i + 1][..i] == all[..i];
      var v := all[i];
      assert v in all;
      if v.toolName == Some("Bash") && v.toolUseId.Some? && v.toolUseId.value != "" {
        var hit := WriteThenExecuteEvidence(w.calls(v.session.value), v.toolUseId.value);
        if hit {
          wte := wte + [v];
        }
      }
    }
    assert all[..|all|] == all;
  }

  method ClassifyWarehouse(w: Warehouse) returns (report: Report)
    ensures IsScoreOf(w, PopulationOf(w, SEMANTIC_HANDLER), report.semantic)
    ensures IsScoreOf(w, PopulationOf(w, RESTAMP_HANDLER), report.restamp)
    ensures IsScoreOf(w, WriteThenExecuteEvents(w), report.writeThenExecute)
    ensures IsScoreOf(w, LandedRetry(w), report.landedRetry)
    ensures report.population == |Population(w)|
    ensures report.reconciled == |ClaimedKeys(w)| + |LandedRetry(w)|
    ensures report.overlap == Overlap(w)
  {
    hide IsScoreOf, IsWriteThenExecute;
    var semantic, restamp := PopulationOf(w, SEMANTIC_HANDLER), PopulationOf(w, RESTAMP_HANDLER);
    var all := Population(w);
    var wte := ClassifyWriteThenExecute(w);
    var claimed := Keys(semantic) + Keys(restamp) + Keys(wte);
    var landed := Filter((v: Verdict) => v.key !in claimed, all);
    var a := ScoreFamily(w, semantic);
    var b := ScoreFamily(w, restamp);
    var c := ScoreFamily(w, wte);
    var d := ScoreFamily(w, landed);
    var naive := a.caught + b.caught + c.caught + d.caught;
    report := Report(a, b, c, d, |all|, naive - |landed| - |claimed|, |claimed| + |landed|);
  }

  /** The reported number of events in more than one family. */
  function Overlap(w: Warehouse): int
  {
    |PopulationOf(w, SEMANTIC_HANDLER)| + |PopulationOf(w, RESTAMP_HANDLER)| + |WriteThenExecuteEvents(w)| - |ClaimedKeys(w)|
  }

  // ---- reconciliation ------------------------------------------------------

  predicate UniqueKeys(events: seq<Verdict>)
  {
    forall i, j | 0 <= i < j < |events| :: events[i].key != events[j].key
  }

  lemma UniqueOneMore(events: seq<Verdict>, v: Verdict)
    ensures UniqueKeys(events + [v]) <==> UniqueKeys(events) && v.key !in Keys(events)
    ensures Keys(events + [v]) == Keys(events) + {v.key}
  {
    var more := events + [v];
    assert forall i | 0 <= i < |events| :: more[i] == events[i];
    if UniqueKeys(more) {
      forall u | u in events
        ensures u.key != v.key
      {
        var i :| 0 <= i < |events| && events[i] == u;
        assert more[i].key != more[|events|].key;
      }
    }
    if v.key !in Keys(events) {
      assert forall u | u in events :: u.key in Keys(events);
    }
  }

  /** Events with distinct keys, counted one way or the other. */
  lemma {:induction false} KeysCountEvents(events: seq<Verdict>)
    ensures |Keys(events)| <= |events|
    ensures |Keys(events)| == |events| <==> UniqueKeys(events)
  {
    hide UniqueKeys, Keys;
    if events == [] {
      NoKeys();
    } else {
      var before, last := events[..|events| - 1], events[|events| - 1];
      assert events == before + [last];
      KeysCountEvents(before);
      UniqueOneMore(before, last);
    }
  }

  lemma NoKeys()
    ensures Keys([]) == {} && UniqueKeys([])
  {
  }

  lemma {:induction false} FilterSplits(keep: Verdict -> bool, s: seq<Verdict>)
    ensures |Filter(keep, s)| + |Filter(x => !keep(x), s)| == |s|
  {
    if s != [] {
      FilterSplits(keep, s[..|s| - 1]);
    }
  }

  lemma {:induction false} FilterKeepsUnique(keep: Verdict -> bool, events: seq<Verdict>)
    requires UniqueKeys(events)
    ensures UniqueKeys(Filter(keep, events))
  {
    hide UniqueKeys;
    if events == [] {
      NoKeys();
    } else {
      var before, last := events[..|events| - 1], events[|events| - 1];
      assert events == before + [last];
      UniqueOneMore(before, last);
      FilterKeepsUnique(keep, before);
      UniqueOneMore(Filter(keep, before), last);
      assert Filter(keep, before) + [] == Filter(keep, before);
    }
  }

  function ClaimedEvents(w: Warehouse): seq<Verdict>
  {
    var claimed := ClaimedKeys(w);
    Filter((v: Verdict) => !(v.key !in claimed), Population(w))
  }

  lemma ClaimedEventsHaveTheClaimedKeys(w: Warehouse)
    ensures Keys(ClaimedEvents(w)) == ClaimedKeys(w)
  {
    hide Population, PopulationOf, WriteThenExecuteEvents, ClaimedKeys, Filter;
    var claimed := ClaimedKeys(w);
    forall key | key in claimed
      ensures key in Keys(ClaimedEvents(w))
    {
      var v := ClaimedEvent(w, key);
      assert v in ClaimedEvents(w);
    }
  }

  lemma ClaimedEvent(w: Warehouse, key: Key) returns (v: Verdict)
    requires key in ClaimedKeys(w)
    ensures v in Population(w) && v.key == key
  {
    hide Filter, IsWriteThenExecute;
    if key in Keys(WriteThenExecuteEvents(w)) {
      v :| v in WriteThenExecuteEvents(w) && v.key == key;
    } else if key in Keys(PopulationOf(w, SEMANTIC_HANDLER)) {
      v :| v in PopulationOf(w, SEMANTIC_HANDLER) && v.key == key;
    } else {
      v :| v in PopulationOf(w, RESTAMP_HANDLER) && v.key == key;
    }
  }

  /** The check of the report holds exactly when no two claimed events share a key. */
  lemma ReconcilesIffClaimedKeysUnique(w: Warehouse)
    ensures |ClaimedKeys(w)| + |LandedRetry(w)| == |Population(w)| <==> UniqueKeys(ClaimedEvents(w))
    ensures |ClaimedKeys(w)| + |LandedRetry(w)| <= |Population(w)|
  {
    hide UniqueKeys, Population, ClaimedKeys;
    var claimed := ClaimedKeys(w);
    var keep := (v: Verdict) => v.key !in claimed;
    FilterSplits(keep, Population(w));
    SameFilter((v: Verdict) => !(v.key !in claimed), x => !keep(x), Population(w));
    ClaimedEventsHaveTheClaimedKeys(w);
    KeysCountEvents(ClaimedEvents(w));
  }

  lemma {:induction false} SameFilter(p: Verdict -> bool, q: Verdict -> bool, s: seq<Verdict>)
    requires forall x | x in s :: p(x) == q(x)
    ensures Filter(p, s) == Filter(q, s)
  {
    if s != [] {
      SameFilter(p, q, s[..|s| - 1]);
    }
  }

  /** With unique event keys, the reported overlap counts the write-then-execute events of the two handlers' families. */
  lemma OverlapIsTheIntersection(w: Warehouse)
    requires UniqueKeys(w.verdicts)
    ensures Overlap(w) ==
            |Keys(WriteThenExecuteEvents(w)) * (Keys(PopulationOf(w, SEMANTIC_HANDLER)) + Keys(PopulationOf(w, RESTAMP_HANDLER)))|
    ensures |ClaimedKeys(w)| + |LandedRetry(w)| == |Population(w)|
  {
    hide UniqueKeys, IsWriteThenExecute, Filter;
    var a, b, c := PopulationOf(w, SEMANTIC_HANDLER), PopulationOf(w, RESTAMP_HANDLER), WriteThenExecuteEvents(w);
    FilterKeepsUnique((v: Verdict) => InPopulation(v) && v.handler == SEMANTIC_HANDLER, w.verdicts);
    FilterKeepsUnique((v: Verdict) => InPopulation(v) && v.handler == RESTAMP_HANDLER, w.verdicts);
    FilterKeepsUnique(InPopulation, w.verdicts);
    FilterKeepsUnique((v: Verdict) => IsWriteThenExecute(w, v), Population(w));
    var claimed := ClaimedKeys(w);
    FilterKeepsUnique((v: Verdict) => !(v.key !in claimed), Population(w));
    KeysCountEvents(a);
    KeysCountEvents(b);
    KeysCountEvents(c);
    ReconcilesIffClaimedKeysUnique(w);
    forall v, u | v in a && u in b
      ensures v.key != u.key
    {
      DistinctEventsDistinctKeys(w.verdicts, v, u);
    }
    assert Keys(a) * Keys(b) == {};
    InclusionExclusion(Keys(a), Keys(b), Keys(c));
  }

  lemma DistinctEventsDistinctKeys(events: seq<Verdict>, v: Verdict, u: Verdict)
    requires UniqueKeys(events) && v in events && u in events && v != u
    ensures v.key != u.key
  {
  }

  lemma InclusionExclusion(a: set<Key>, b: set<Key>, c: set<Key>)
    requires a * b == {}
    ensures |a| + |b| + |c| - |a + b + c| == |c * (a + b)|
  {
    assert |a + b| == |a| + |b|;
    assert |(a + b) + c| == |a + b| + |c| - |(a + b) * c|;
    assert (a + b) * c == c * (a + b);
  }
}
