/**
 atlas/ingest/subagent_pull.py: the credential scan, and acknowledgements
 carried across `rebuild` by the hash of the payload they were recorded for
 (the main-session plane's copies in atlas/ingest/session_pull.py are the same).
 */
module CredentialAcks {
  import opened Wrappers
  import Transcript

  type Text = string
  type Digest = string
  type CallId = nat
  /** (transcript_id, tool_use_id): what a result and its call have in common. */
  type JoinKey = (nat, Transcript.Json)

  /** `matches`: some credential pattern is found in the text; `digest`: SHA-256 of its UTF-8 form. */
  datatype Scanner = Scanner(matches: Text -> bool, digest: Text -> Digest)

  datatype CallRow = CallRow(id: CallId, key: JoinKey, toolInput: Option<Text>)
  datatype ResultRow = ResultRow(key: JoinKey, denyText: Option<Text>)
  datatype Ack = Ack(payloadSha256: Digest, details: string)

  datatype Tables = Tables(calls: seq<CallRow>, results: seq<ResultRow>)

  /** One stored payload and the call it belongs to, if a call can be found. */
  datatype Candidate = Candidate(call: Option<CallId>, payload: Text)

  // ---- the queries ---------------------------------------------------------

  function InputRows(calls: seq<CallRow>): seq<Candidate>
  {
    if calls == [] then []
    else
      var last := calls[|calls| - 1];
      InputRows(calls[..|calls| - 1]) +
      if last.toolInput.Some? then [Candidate(Some(last.id), last.toolInput.value)] else []
  }

  function JoinedWith(calls: seq<CallRow>, key: JoinKey, text: Text): seq<Candidate>
  {
    if calls == [] then []
    else
      var last := calls[|calls| - 1];
      JoinedWith(calls[..|calls| - 1], key, text) + if last.key == key then [Candidate(Some(last.id), text)] else []
  }

  /** The LEFT JOIN keeps a text that no call matches. */
  function ResultRows(result: ResultRow, calls: seq<CallRow>): seq<Candidate>
  {
    match result.denyText
    case None => []
    case Some(text) =>
      var joined := JoinedWith(calls, result.key, text);
      if joined == [] then [Candidate(None, text)] else joined
  }

  function DenyRows(results: seq<ResultRow>, calls: seq<CallRow>): seq<Candidate>
  {
    if results == [] then []
    else DenyRows(results[..|results| - 1], calls) + ResultRows(results[|results| - 1], calls)
  }

  function Candidates(t: Tables): seq<Candidate>
  {
    InputRows(t.calls) + DenyRows(t.results, t.calls)
  }

  lemma {:induction false} InputRowsAre(calls: seq<CallRow>, c: Candidate)
    ensures c in InputRows(calls) <==>
            exists call :: call in calls && c.call == Some(call.id) && call.toolInput == Some(c.payload)
  {
    if calls != [] {
      InputRowsAre(calls[..|calls| - 1], c);
      assert calls == calls[..|calls| - 1] + [calls[|calls| - 1]];
    }
  }

  lemma {:induction false} JoinedAre(calls: seq<CallRow>, key: JoinKey, text: Text, c: Candidate)
    ensures c in JoinedWith(calls, key, text) <==>
            c.payload == text && exists call :: call in calls && call.key == key && c.call == Some(call.id)
  {
    if calls != [] {
      JoinedAre(calls[..|calls| - 1], key, text, c);
      assert calls == calls[..|calls| - 1] + [calls[|calls| - 1]];
    }
  }

  /** A remedy's candidates: one for each call it joins, or one without a call when it joins none. */
  ghost predicate JoinsTo(calls: seq<CallRow>, result: ResultRow, c: Candidate)
  {
    && result.denyText == Some(c.payload)
    && match c.call
       case Some(id) => exists call :: call in calls && call.key == result.key && call.id == id
       case None => forall call | call in calls :: call.key != result.key
  }

  lemma NothingJoined(calls: seq<CallRow>, key: JoinKey, text: Text)
    ensures JoinedWith(calls, key, text) == [] <==> forall call | call in calls :: call.key != key
  {
  }

  lemma {:induction false} DenyRowsAre(results: seq<ResultRow>, calls: seq<CallRow>, c: Candidate)
    ensures c in DenyRows(results, calls) <==> exists result :: result in results && JoinsTo(calls, result, c)
  {
    hide ResultRows, JoinsTo;
    if results != [] {
      var last := results[|results| - 1];
      DenyRowsAre(results[..|results| - 1], calls, c);
      ResultRowsAre(last, calls, c);
      assert results == results[..|results| - 1] + [last];
    }
  }

  lemma ResultRowsAre(result: ResultRow, calls: seq<CallRow>, c: Candidate)
    ensures c in ResultRows(result, calls) <==> JoinsTo(calls, result, c)
  {
    hide JoinedWith;
    if result.denyText.Some? {
      NothingJoined(calls, result.key, result.denyText.value);
      JoinedAre(calls, result.key, result.denyText.value, c);
    }
  }

  /** What is scanned: every stored tool input under its call, and every remedy under each call it joins, or under none. */
  lemma CandidatesAreTheStoredPayloads(t: Tables, c: Candidate)
    ensures c in Candidates(t) <==>
            || (exists call :: call in t.calls && c.call == Some(call.id) && call.toolInput == Some(c.payload))
            || (exists result :: result in t.results && JoinsTo(t.calls, result, c))
  {
    hide JoinsTo;
    InputRowsAre(t.calls, c);
    DenyRowsAre(t.results, t.calls, c);
  }

  // ---- the scan ------------------------------------------------------------

  predicate Matches(s: Scanner, c: Candidate)
  {
    c.payload != "" && s.matches(c.payload)
  }

  predicate Acked(s: Scanner, acks: map<CallId, Ack>, c: Candidate)
  {
    c.call.Some? && c.call.value in acks && acks[c.call.value].payloadSha256 == s.digest(c.payload)
  }

  function Hits(s: Scanner, acks: map<CallId, Ack>, candidates: seq<Candidate>): nat
  {
    if candidates == [] then 0
    else
      var last := candidates[|candidates| - 1];
      Hits(s, acks, candidates[..|candidates| - 1]) + if Matches(s, last) && !Acked(s, acks, last) then 1 else 0
  }

  // ---- carrying acknowledgements over --------------------------------------

  /** The call holds a payload of this hash, in its input or in a joined deny text. */
  predicate Carries(s: Scanner, t: Tables, id: CallId, digest: Digest)
  {
    exists c :: c in Candidates(t) && c.call == Some(id) && s.digest(c.payload) == digest
  }

  function CallsIn(s: Scanner, candidates: seq<Candidate>, digest: Digest): set<CallId>
  {
    set c | c in candidates && c.call.Some? && s.digest(c.payload) == digest :: c.call.value
  }

  function CallsCarrying(s: Scanner, t: Tables, digest: Digest): set<CallId>
  {
    CallsIn(s, Candidates(t), digest)
  }

  /** INSERT OR REPLACE for every call that carries the saved hash. */
  function Attach(s: Scanner, t: Tables, acks: map<CallId, Ack>, ack: Ack): map<CallId, Ack>
  {
    acks + map id | id in CallsCarrying(s, t, ack.payloadSha256) :: ack
  }

  function AttachAll(s: Scanner, t: Tables, acks: map<CallId, Ack>, saved: seq<Ack>): map<CallId, Ack>
  {
    if saved == [] then acks
    else Attach(s, t, AttachAll(s, t, acks, saved[..|saved| - 1]), saved[|saved| - 1])
  }

  function Orphans(s: Scanner, t: Tables, saved: seq<Ack>): nat
  {
    if saved == [] then 0
    else
      Orphans(s, t, saved[..|saved| - 1]) +
      if CallsCarrying(s, t, saved[|saved| - 1].payloadSha256) == {} then 1 else 0
  }

  /** Rows the restore writes, one per call and saved acknowledgement. */
  function Attachments(s: Scanner, t: Tables, saved: seq<Ack>): nat
  {
    if saved == [] then 0
    else Attachments(s, t, saved[..|saved| - 1]) + |CallsCarrying(s, t, saved[|saved| - 1].payloadSha256)|
  }

  class Plane {
    var tables: Tables
    var acks: map<CallId, Ack>
    /** Each transcript row's watermark. */
    var marks: map<nat, nat>

    method UnacknowledgedHits(s: Scanner) returns (hits: nat)
      ensures hits == Hits(s, acks, Candidates(tables))
    {
      var candidates := Candidates(tables);
      hits := 0;
      for i := 0 to |candidates|
        invariant hits == Hits(s, acks, candidates[..i])
      {
        assert candidates[..i + 1][..i] == candidates[..i];
        var c := candidates[i];
        if c.payload != "" && s.matches(c.payload) {
          if c.call == None || c.call.value !in acks || acks[c.call.value].payloadSha256 != s.digest(c.payload) {
            hits := hits + 1;
          }
        }
      }
      assert candidates[..|candidates|] == candidates;
    }

    /** Save every acknowledgement without its call, and clear the plane, watermarks included. */
    method Rebuild() returns (saved: seq<Ack>)
      modifies this
      ensures tables == Tables([], []) && acks == map[] && marks == map[]
      ensures |saved| == |old(acks)|
      ensures forall ack :: ack in saved <==> ack in old(acks).Values
    {
      saved := [];
      var todo := acks.Keys;
      while todo != {}
        invariant todo <= acks.Keys && |saved| + |todo| == |acks| && acks == old(acks)
        invariant forall ack :: ack in saved <==> exists id :: id in acks.Keys - todo && acks[id] == ack
      {
        var id :| id in todo;
        saved := saved + [acks[id]];
        todo := todo - {id};
      }
      tables, acks, marks := Tables([], []), map[], map[];
    }

    method RestoreCredentialAcks(s: Scanner, saved: seq<Ack>) returns (restored: nat, orphaned: nat)
      modifies this`acks
      ensures acks == AttachAll(s, tables, old(acks), saved)
      ensures restored == Attachments(s, tables, saved) && orphaned == Orphans(s, tables, saved)
    {
      hide CallsCarrying;
      restored, orphaned := 0, 0;
      var byHash := GroupByHash(s);
      for i := 0 to |saved|
        invariant acks == AttachAll(s, tables, old(acks), saved[..i])
        invariant restored == Attachments(s, tables, saved[..i]) && orphaned == Orphans(s, tables, saved[..i])
      {
        assert saved[..i + 1][..i] == saved[..i];
        var digest := saved[i].payloadSha256;
        if digest !in byHash {
          orphaned := orphaned + 1;
        } else {
          AttachTo(byHash[digest], saved[i]);
          restored := restored + |byHash[digest]|;
        }
      }
      assert saved[..|saved|] == saved;
    }

    method AttachTo(ids: set<CallId>, ack: Ack)
      modifies this`acks
      ensures acks == old(acks) + map id | id in ids :: ack
    {
      var todo := ids;
      while todo != {}
        invariant todo <= ids
        invariant acks == old(acks) + map id | id in ids - todo :: ack
      {
        var id :| id in todo;
        acks := acks[id := ack];
        todo := todo - {id};
      }
      assert ids - todo == ids;
    }

    /** The two queries of the restore, grouped by payload hash. */
    method GroupByHash(s: Scanner) returns (byHash: map<Digest, set<CallId>>)
      ensures forall digest ::
                CallsCarrying(s, tables, digest) == if digest in byHash then byHash[digest] else {}
      ensures forall digest :: digest in byHash ==> byHash[digest] != {}
    {
      hide Candidates, CallsIn;
      byHash := map[];
      var candidates := Candidates(tables);
      forall digest {
        NoCalls(s, candidates, digest);
      }
      for i := 0 to |candidates|
        invariant forall digest :: CallsIn(s, candidates[..i], digest) == if digest in byHash then byHash[digest] else {}
        invariant forall digest :: digest in byHash ==> byHash[digest] != {}
      {
        forall digest {
          CallsOneMore(s, candidates, i, digest);
        }
        var c := candidates[i];
        // The restore's own JOIN drops a text without a call.
        if c.call.Some? {
          var digest := s.digest(c.payload);
          byHash := byHash[digest := (if digest in byHash then byHash[digest] else {}) + {c.call.value}];
        }
      }
      assert candidates[..|candidates|] == candidates;
    }
  }

  lemma NoCalls(s: Scanner, candidates: seq<Candidate>, digest: Digest)
    ensures CallsIn(s, candidates[..0], digest) == {}
  {
  }

  lemma CallsOneMore(s: Scanner, candidates: seq<Candidate>, i: nat, digest: Digest)
    requires i < |candidates|
    ensures var c := candidates[i];
      CallsIn(s, candidates[..i + 1], digest) ==
        CallsIn(s, candidates[..i], digest) +
        if c.call.Some? && s.digest(c.payload) == digest then {c.call.value} else {}
  {
  }

  // ---- what survives a rebuild ---------------------------------------------

  predicate Saved(saved: seq<Ack>, digest: Digest)
  {
    exists ack :: ack in saved && ack.payloadSha256 == digest
  }

  /** After a restore onto an empty table, a call holds an acknowledgement of one saved payload it carries, if any. */
  lemma {:induction false} RestoredAreSaved(s: Scanner, t: Tables, saved: seq<Ack>, id: CallId)
    ensures var acks := AttachAll(s, t, map[], saved);
      && (id in acks ==> acks[id] in saved && Carries(s, t, id, acks[id].payloadSha256))
      && (id !in acks ==> forall digest | Saved(saved, digest) :: !Carries(s, t, id, digest))
  {
    hide Candidates;
    if saved != [] {
      var last := |saved| - 1;
      RestoredAreSaved(s, t, saved[..last], id);
      assert saved == saved[..last] + [saved[last]];
      assert id in CallsCarrying(s, t, saved[last].payloadSha256) <==> Carries(s, t, id, saved[last].payloadSha256);
    }
  }

  /** No two differently hashed payloads of the call were both saved. */
  ghost predicate OneSavedPayload(s: Scanner, t: Tables, saved: seq<Ack>, id: CallId)
  {
    forall d, e | Carries(s, t, id, d) && Carries(s, t, id, e) && Saved(saved, d) && Saved(saved, e) :: d == e
  }

  ghost predicate AckedIffSaved(s: Scanner, t: Tables, saved: seq<Ack>, id: CallId)
  {
    forall c | c in Candidates(t) && c.call == Some(id) ::
      Acked(s, AttachAll(s, t, map[], saved), c) <==> Saved(saved, s.digest(c.payload))
  }

  /**
   The restore silences exactly the payloads whose hash was saved, and it does so for a call
   exactly when that call does not carry two of them: there is one acknowledgement per call.
   */
  lemma RestoreIsExactIffOneSavedPayload(s: Scanner, t: Tables, saved: seq<Ack>, id: CallId)
    ensures AckedIffSaved(s, t, saved, id) <==> OneSavedPayload(s, t, saved, id)
  {
    hide AttachAll, Candidates;
    RestoredAreSaved(s, t, saved, id);
    var acks := AttachAll(s, t, map[], saved);
    if AckedIffSaved(s, t, saved, id) {
      forall d, e | Carries(s, t, id, d) && Carries(s, t, id, e) && Saved(saved, d) && Saved(saved, e)
        ensures d == e
      {
        var c :| c in Candidates(t) && c.call == Some(id) && s.digest(c.payload) == d;
        var f :| f in Candidates(t) && f.call == Some(id) && s.digest(f.payload) == e;
        assert Acked(s, acks, c) && Acked(s, acks, f);
      }
    }
    if OneSavedPayload(s, t, saved, id) {
      forall c | c in Candidates(t) && c.call == Some(id)
        ensures Acked(s, acks, c) <==> Saved(saved, s.digest(c.payload))
      {
        var digest := s.digest(c.payload);
        assert Carries(s, t, id, digest);
        if id in acks {
          assert Saved(saved, acks[id].payloadSha256);
        }
      }
    }
  }

  // ---- what the counts count -----------------------------------------------

  /** The payload is something, matches, and its call is not acknowledged for its hash. */
  predicate IsHit(s: Scanner, acks: map<CallId, Ack>, c: Candidate)
  {
    && c.payload != "" && s.matches(c.payload)
    && (c.call == None || c.call.value !in acks || acks[c.call.value].payloadSha256 != s.digest(c.payload))
  }

  /** The payload matches and has no call, or a hash that no saved acknowledgement has. */
  predicate IsUnsaved(s: Scanner, saved: seq<Ack>, c: Candidate)
  {
    && c.payload != "" && s.matches(c.payload)
    && (c.call == None || forall i | 0 <= i < |saved| :: saved[i].payloadSha256 != s.digest(c.payload))
  }

  /** The places at which a property holds. */
  ghost function Places<T>(items: seq<T>, holds: T -> bool): set<nat>
  {
    set i: nat | i < |items| && holds(items[i])
  }

  lemma PlacesOneMore<T>(items: seq<T>, item: T, holds: T -> bool)
    ensures |Places(items + [item], holds)| == |Places(items, holds)| + if holds(item) then 1 else 0
  {
    var more := items + [item];
    assert Places(more, holds) == Places(items, holds) + if holds(item) then {|items|} else {};
  }

  /** The count of a scan is that of the candidates that match and are not acknowledged. */
  lemma {:induction false} HitsAre(s: Scanner, acks: map<CallId, Ack>, candidates: seq<Candidate>)
    ensures Hits(s, acks, candidates) == |Places(candidates, c => IsHit(s, acks, c))|
  {
    if candidates == [] {
      assert Places(candidates, c => IsHit(s, acks, c)) == {};
    } else {
      var n := |candidates| - 1;
      HitsAre(s, acks, candidates[..n]);
      PlacesOneMore(candidates[..n], candidates[n], c => IsHit(s, acks, c));
      assert candidates == candidates[..n] + [candidates[n]];
    }
  }

  lemma {:induction false} UnsavedAre(s: Scanner, saved: seq<Ack>, candidates: seq<Candidate>)
    ensures Unsaved(s, saved, candidates) == |Places(candidates, c => IsUnsaved(s, saved, c))|
  {
    hide IsUnsaved, Saved, Matches;
    if candidates == [] {
      assert Places(candidates, c => IsUnsaved(s, saved, c)) == {};
    } else {
      var n := |candidates| - 1;
      UnsavedAre(s, saved, candidates[..n]);
      UnsavedIff(s, saved, candidates[n]);
      PlacesOneMore(candidates[..n], candidates[n], c => IsUnsaved(s, saved, c));
      assert candidates == candidates[..n] + [candidates[n]];
    }
  }

  lemma UnsavedIff(s: Scanner, saved: seq<Ack>, c: Candidate)
    ensures IsUnsaved(s, saved, c) <==> Matches(s, c) && (c.call == None || !Saved(saved, s.digest(c.payload)))
  {
    assert forall i | 0 <= i < |saved| :: saved[i] in saved;
  }

  /** A call carries a hash if it has a scanned payload of it. */
  lemma CarryingAre(s: Scanner, t: Tables, digest: Digest, id: CallId)
    ensures id in CallsCarrying(s, t, digest) <==> Carries(s, t, id, digest)
  {
    hide Candidates;
  }

  /** The orphans counted are the saved acknowledgements whose hash no call carries. */
  lemma {:induction false} OrphansAre(s: Scanner, t: Tables, saved: seq<Ack>)
    ensures Orphans(s, t, saved) == |Places(saved, (ack: Ack) => CallsCarrying(s, t, ack.payloadSha256) == {})|
  {
    hide CallsCarrying;
    if saved == [] {
      assert Places(saved, (ack: Ack) => CallsCarrying(s, t, ack.payloadSha256) == {}) == {};
    } else {
      var n := |saved| - 1;
      OrphansAre(s, t, saved[..n]);
      PlacesOneMore(saved[..n], saved[n], (ack: Ack) => CallsCarrying(s, t, ack.payloadSha256) == {});
      assert saved == saved[..n] + [saved[n]];
    }
  }

  /** A saved acknowledgement's place and a call that carries its hash. */
  ghost function Pairs(s: Scanner, t: Tables, saved: seq<Ack>): set<(nat, CallId)>
  {
    set i: nat, id | i < |saved| && id in CallsCarrying(s, t, saved[i].payloadSha256) :: (i, id)
  }

  ghost function PairsAt(n: nat, calls: set<CallId>): set<(nat, CallId)>
  {
    set id | id in calls :: (n, id)
  }

  /** The restored ones are these pairs. */
  lemma {:induction false} AttachmentsAre(s: Scanner, t: Tables, saved: seq<Ack>)
    ensures Attachments(s, t, saved) == |Pairs(s, t, saved)|
  {
    hide CallsCarrying;
    if saved == [] {
      assert Pairs(s, t, saved) == {};
    } else {
      var n := |saved| - 1;
      var before := saved[..n];
      AttachmentsAre(s, t, before);
      var calls := CallsCarrying(s, t, saved[n].payloadSha256);
      SizeOfPairsAt(n, calls);
      assert Pairs(s, t, saved) == Pairs(s, t, before) + PairsAt(n, calls);
    }
  }

  lemma {:induction false} SizeOfPairsAt(n: nat, calls: set<CallId>)
    ensures |PairsAt(n, calls)| == |calls|
  {
    if calls == {} {
      assert PairsAt(n, calls) == {};
    } else {
      var id :| id in calls;
      SizeOfPairsAt(n, calls - {id});
      assert PairsAt(n, calls) == PairsAt(n, calls - {id}) + {(n, id)};
    }
  }

  /** `saved[k]` is the last one whose hash the call carries. */
  ghost predicate IsLastFor(s: Scanner, t: Tables, saved: seq<Ack>, id: CallId, k: int)
  {
    && 0 <= k < |saved| && Carries(s, t, id, saved[k].payloadSha256)
    && forall j | k < j < |saved| :: !Carries(s, t, id, saved[j].payloadSha256)
  }

  /** A call gets the last saved acknowledgement of a hash it carries; one that carries none keeps what it had. */
  lemma {:induction false} LastSavedWins(s: Scanner, t: Tables, acks: map<CallId, Ack>, saved: seq<Ack>, id: CallId)
    ensures var after := AttachAll(s, t, acks, saved);
      && (forall k | IsLastFor(s, t, saved, id, k) :: id in after && after[id] == saved[k])
      && ((forall k | 0 <= k < |saved| :: !Carries(s, t, id, saved[k].payloadSha256)) ==>
            (id in after <==> id in acks) && (id in acks ==> after[id] == acks[id]))
  {
    hide Carries, CallsCarrying;
    if saved != [] {
      var n := |saved| - 1;
      var before := saved[..n];
      LastSavedWins(s, t, acks, before, id);
      CarryingAre(s, t, saved[n].payloadSha256, id);
      forall k | IsLastFor(s, t, saved, id, k) && k < n ensures IsLastFor(s, t, before, id, k) {
      }
    }
  }

  // ---- the unacknowledged count --------------------------------------------

  /** What a scan finds if every saved payload is silenced, wherever it is, and nothing else is. */
  function Unsaved(s: Scanner, saved: seq<Ack>, candidates: seq<Candidate>): nat
  {
    if candidates == [] then 0
    else
      var last := candidates[|candidates| - 1];
      Unsaved(s, saved, candidates[..|candidates| - 1]) +
      if Matches(s, last) && (last.call == None || !Saved(saved, s.digest(last.payload))) then 1 else 0
  }

  /** Matching payloads of a saved hash, under a call, that the acknowledgements do not silence all the same. */
  function Missed(s: Scanner, acks: map<CallId, Ack>, saved: seq<Ack>, candidates: seq<Candidate>): nat
  {
    if candidates == [] then 0
    else
      var last := candidates[|candidates| - 1];
      Missed(s, acks, saved, candidates[..|candidates| - 1]) +
      if Matches(s, last) && last.call.Some? && Saved(saved, s.digest(last.payload)) && !Acked(s, acks, last) then 1 else 0
  }

  lemma {:induction false} HitsAreUnsavedAndMissed(s: Scanner, acks: map<CallId, Ack>, saved: seq<Ack>, candidates: seq<Candidate>)
    requires forall id | id in acks :: acks[id] in saved
    ensures Hits(s, acks, candidates) == Unsaved(s, saved, candidates) + Missed(s, acks, saved, candidates)
  {
    hide Saved, Matches;
    if candidates != [] {
      var last := candidates[|candidates| - 1];
      HitsAreUnsavedAndMissed(s, acks, saved, candidates[..|candidates| - 1]);
      AckedIsSaved(s, acks, saved, last);
    }
  }

  lemma AckedIsSaved(s: Scanner, acks: map<CallId, Ack>, saved: seq<Ack>, c: Candidate)
    requires forall id | id in acks :: acks[id] in saved
    ensures Acked(s, acks, c) ==> c.call.Some? && Saved(saved, s.digest(c.payload))
  {
  }

  /** A restore misses nothing when no call carries two differently hashed saved payloads. */
  lemma NothingMissed(s: Scanner, t: Tables, saved: seq<Ack>)
    requires forall id :: OneSavedPayload(s, t, saved, id)
    ensures Missed(s, AttachAll(s, t, map[], saved), saved, Candidates(t)) == 0
  {
    hide Candidates, AttachAll, OneSavedPayload;
    var restored := AttachAll(s, t, map[], saved);
    forall c | c in Candidates(t) && c.call.Some?
      ensures Acked(s, restored, c) <==> Saved(saved, s.digest(c.payload))
    {
      RestoreIsExactIffOneSavedPayload(s, t, saved, c.call.value);
    }
    NoneMissed(s, restored, saved, Candidates(t));
  }

  lemma {:induction false} NoneMissed(s: Scanner, acks: map<CallId, Ack>, saved: seq<Ack>, candidates: seq<Candidate>)
    requires forall c | c in candidates && c.call.Some? :: Acked(s, acks, c) <==> Saved(saved, s.digest(c.payload))
    ensures Missed(s, acks, saved, candidates) == 0
  {
    hide Acked, Saved, Matches;
    if candidates != [] {
      NoneMissed(s, acks, saved, candidates[..|candidates| - 1]);
    }
  }

  lemma {:induction false} UnsavedAppend(s: Scanner, saved: seq<Ack>, a: seq<Candidate>, b: seq<Candidate>)
    ensures Unsaved(s, saved, a + b) == Unsaved(s, saved, a) + Unsaved(s, saved, b)
  {
    hide Saved, Matches;
    if b == [] {
      assert a + b == a;
    } else {
      var last := |b| - 1;
      UnsavedAppend(s, saved, a, b[..last]);
      assert (a + b)[..|a + b| - 1] == a + b[..last];
    }
  }

  lemma {:induction false} HitsCountIt(s: Scanner, acks: map<CallId, Ack>, candidates: seq<Candidate>, c: Candidate)
    requires c in candidates && Matches(s, c) && !Acked(s, acks, c)
    ensures Hits(s, acks, candidates) > 0
  {
    hide Matches, Acked;
    var last := |candidates| - 1;
    if candidates[last] != c {
      assert candidates == candidates[..last] + [candidates[last]];
      HitsCountIt(s, acks, candidates[..last], c);
    }
  }

  /**
   A call with two matching payloads whose different hashes were both saved has one of them
   counted again, although both had been acknowledged.
   */
  lemma TwoSavedPayloadsRearmOne(s: Scanner, t: Tables, saved: seq<Ack>, c: Candidate, d: Candidate)
    requires c in Candidates(t) && d in Candidates(t) && c.call.Some? && c.call == d.call
    requires Matches(s, c) && Matches(s, d) && s.digest(c.payload) != s.digest(d.payload)
    requires Saved(saved, s.digest(c.payload)) && Saved(saved, s.digest(d.payload))
    ensures var acks := AttachAll(s, t, map[], saved);
      (!Acked(s, acks, c) || !Acked(s, acks, d)) && Hits(s, acks, Candidates(t)) > 0
  {
    hide AttachAll, Candidates, Matches;
    var acks := AttachAll(s, t, map[], saved);
    HitsCountIt(s, acks, Candidates(t), if Acked(s, acks, c) then d else c);
  }
}
