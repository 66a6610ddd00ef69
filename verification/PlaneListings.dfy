/**
 The stored rows as a query lists them, under whatever row ids the inserts were
 given, and what of a credential scan depends on the rows alone.
 */
module PlaneListings {
  import opened Wrappers
  import opened Transcript
  import opened TranscriptStore
  import opened SubagentPull
  import LateVerdicts
  import Acks = CredentialAcks

  type Path = string
  type CallKey = (Path, RowKey)
  type ResultKey = (Path, Json)

  // ---- sums that do not depend on the order --------------------------------

  function Tally<K>(weight: K -> nat, keys: seq<K>): nat
  {
    if keys == [] then 0 else Tally(weight, keys[..|keys| - 1]) + weight(keys[|keys| - 1])
  }

  lemma {:induction false} TallySame<K>(f: K -> nat, g: K -> nat, keys: seq<K>)
    requires forall k | k in keys :: f(k) == g(k)
    ensures Tally(f, keys) == Tally(g, keys)
  {
    if keys != [] {
      TallySame(f, g, keys[..|keys| - 1]);
    }
  }

  lemma {:induction false} TakeOut<K>(weight: K -> nat, keys: seq<K>, i: nat)
    requires i < |keys|
    ensures Tally(weight, keys) == Tally(weight, keys[..i] + keys[i + 1..]) + weight(keys[i])
  {
    var last := |keys| - 1;
    var rest := keys[..i] + keys[i + 1..];
    if i == last {
      assert rest == keys[..last];
    } else {
      TakeOut(weight, keys[..last], i);
      assert rest[..|rest| - 1] == keys[..last][..i] + keys[..last][i + 1..];
    }
  }

  /** Each key of the set once, in any order. */
  ghost predicate Enumerates<K(!new)>(keys: seq<K>, all: set<K>)
  {
    && (forall i, j | 0 <= i < j < |keys| :: keys[i] != keys[j])
    && (forall k :: k in keys <==> k in all)
  }

  lemma EnumeratesRest<K(!new)>(keys: seq<K>, all: set<K>, i: nat)
    requires Enumerates(keys, all) && i < |keys|
    ensures Enumerates(keys[..i] + keys[i + 1..], all - {keys[i]})
  {
    var rest := keys[..i] + keys[i + 1..];
    forall k ensures k in rest <==> k in all - {keys[i]} {
      if k in all && k != keys[i] {
        var j :| 0 <= j < |keys| && keys[j] == k;
        assert rest[if j < i then j else j - 1] == k;
      }
    }
  }

  lemma OrderDoesNotMatter<K(!new)>(weight: K -> nat, a: seq<K>, b: seq<K>, all: set<K>)
    requires Enumerates(a, all) && Enumerates(b, all)
    ensures Tally(weight, a) == Tally(weight, b)
  {
    PartIsEnough(weight, a, all, b, all);
  }

  /** Keys of no weight may be left out, too. */
  lemma {:induction false} PartIsEnough<K(!new)>(weight: K -> nat, a: seq<K>, part: set<K>, b: seq<K>, all: set<K>)
    requires Enumerates(a, part) && Enumerates(b, all) && part <= all
    requires forall k | k in all && k !in part :: weight(k) == 0
    ensures Tally(weight, a) == Tally(weight, b)
    decreases |b|
  {
    hide Enumerates;
    if b == [] {
      NothingToEnumerate(a, part, all);
    } else {
      var last := |b| - 1;
      LastIsOne(b, all);
      EnumeratesRest(b, all, last);
      assert b[..last] + b[last + 1..] == b[..last];
      if b[last] in part {
        var i := FoundIn(a, part, b[last]);
        EnumeratesRest(a, part, i);
        PartIsEnough(weight, a[..i] + a[i + 1..], part - {b[last]}, b[..last], all - {b[last]});
        TakeOut(weight, a, i);
      } else {
        PartIsEnough(weight, a, part, b[..last], all - {b[last]});
      }
    }
  }

  lemma LastIsOne<K(!new)>(b: seq<K>, all: set<K>)
    requires Enumerates(b, all) && b != []
    ensures b[|b| - 1] in all
  {
    assert b[|b| - 1] in b;
  }

  lemma NothingToEnumerate<K(!new)>(a: seq<K>, part: set<K>, all: set<K>)
    requires Enumerates(a, part) && Enumerates([], all) && part <= all
    ensures a == []
  {
    assert all == {};
    forall k ensures k !in multiset(a) {
      assert k in multiset(a) <==> k in a;
    }
    assert multiset(a) == multiset{};
    assert |a| == |multiset(a)|;
  }

  lemma FoundIn<K(!new)>(a: seq<K>, part: set<K>, k: K) returns (i: nat)
    requires Enumerates(a, part) && k in part
    ensures i < |a| && a[i] == k
  {
    assert k in a;
    i :| 0 <= i < |a| && a[i] == k;
  }

  // ---- listings ------------------------------------------------------------

  function CallKeys(store: SubStore): set<CallKey>
  {
    set path, key | path in store && key in store[path].calls :: (path, key)
  }

  function ResultKeys(store: SubStore): set<ResultKey>
  {
    set path, id | path in store && id in store[path].results :: (path, id)
  }

  /** The row ids the inserts happened to get, and the orders the queries give the rows in. */
  datatype Listing = Listing(transcripts: map<Path, nat>, calls: seq<CallKey>, callIds: seq<nat>, results: seq<ResultKey>)

  ghost predicate Lists(store: SubStore, l: Listing)
  {
    && Enumerates(l.calls, CallKeys(store))
    && Enumerates(l.results, ResultKeys(store))
    && l.transcripts.Keys == store.Keys
    && (forall p, q | p in l.transcripts && q in l.transcripts && l.transcripts[p] == l.transcripts[q] :: p == q)
    && |l.callIds| == |l.calls|
    && (forall i, j | 0 <= i < j < |l.callIds| :: l.callIds[i] != l.callIds[j])
  }

  predicate IsCall(store: SubStore, key: CallKey)
  {
    key.0 in store && key.1 in store[key.0].calls
  }

  predicate IsResult(store: SubStore, key: ResultKey)
  {
    key.0 in store && key.1 in store[key.0].results
  }

  lemma ListedAreStored(store: SubStore, l: Listing)
    requires Lists(store, l)
    ensures forall i | 0 <= i < |l.calls| :: IsCall(store, l.calls[i]) && l.calls[i].0 in l.transcripts
    ensures forall i | 0 <= i < |l.results| :: IsResult(store, l.results[i]) && l.results[i].0 in l.transcripts
  {
    forall i | 0 <= i < |l.calls| ensures IsCall(store, l.calls[i]) && l.calls[i].0 in l.transcripts {
      assert l.calls[i] in CallKeys(store);
    }
    forall i | 0 <= i < |l.results| ensures IsResult(store, l.results[i]) && l.results[i].0 in l.transcripts {
      assert l.results[i] in ResultKeys(store);
    }
  }

  function TranscriptId(l: Listing, path: Path): nat
  {
    if path in l.transcripts then l.transcripts[path] else 0
  }

  function ToolUseId(store: SubStore, key: CallKey): Json
  {
    if IsCall(store, key) then store[key.0].calls[key.1].toolUseId else Null
  }

  function ToolInput(store: SubStore, key: CallKey): Option<string>
  {
    if IsCall(store, key) then store[key.0].calls[key.1].toolInputJson else None
  }

  function DenyTextOf(store: SubStore, key: ResultKey): Option<string>
  {
    if IsResult(store, key) then store[key.0].results[key.1].denyText else None
  }

  function PlaneCalls(store: SubStore, l: Listing, n: nat): (calls: seq<Acks.CallRow>)
    requires n <= |l.calls| == |l.callIds|
    ensures |calls| == n
  {
    if n == 0 then []
    else
      var key := l.calls[n - 1];
      PlaneCalls(store, l, n - 1) +
        [Acks.CallRow(l.callIds[n - 1], (TranscriptId(l, key.0), ToolUseId(store, key)), ToolInput(store, key))]
  }

  /** The result rows with the remedies that `text` gives them. */
  function PlaneResults(text: ResultKey -> Option<string>, l: Listing, n: nat): (results: seq<Acks.ResultRow>)
    requires n <= |l.results|
    ensures |results| == n
  {
    if n == 0 then []
    else
      var key := l.results[n - 1];
      PlaneResults(text, l, n - 1) + [Acks.ResultRow((TranscriptId(l, key.0), key.1), text(key))]
  }

  function Stored(store: SubStore): ResultKey -> Option<string>
  {
    (key: ResultKey) => DenyTextOf(store, key)
  }

  /** The plane's tables as the scan reads them. */
  function PlaneOf(store: SubStore, l: Listing): Acks.Tables
    requires |l.calls| == |l.callIds|
  {
    Acks.Tables(PlaneCalls(store, l, |l.calls|), PlaneResults(Stored(store), l, |l.results|))
  }

  /** The `i`th call row holds what is stored under the `i`th listed key. */
  predicate HoldsCall(store: SubStore, l: Listing, i: nat, row: Acks.CallRow)
    requires i < |l.calls| && i < |l.callIds|
  {
    var (path, key) := l.calls[i];
    && path in store && key in store[path].calls && path in l.transcripts
    && row.id == l.callIds[i]
    && row.key == (l.transcripts[path], store[path].calls[key].toolUseId)
    && row.toolInput == store[path].calls[key].toolInputJson
  }

  predicate HoldsResult(store: SubStore, l: Listing, i: nat, row: Acks.ResultRow)
    requires i < |l.results|
  {
    var (path, id) := l.results[i];
    && path in store && id in store[path].results && path in l.transcripts
    && row.key == (l.transcripts[path], id)
    && row.denyText == store[path].results[id].denyText
  }

  /** The plane has one row for every listed call and result, and each holds what is stored under its key. */
  lemma PlaneRowsAre(store: SubStore, l: Listing)
    requires Lists(store, l)
    ensures var plane := PlaneOf(store, l);
      && |plane.calls| == |l.calls| && |plane.results| == |l.results|
      && (forall i | 0 <= i < |l.calls| :: HoldsCall(store, l, i, plane.calls[i]))
      && (forall i | 0 <= i < |l.results| :: HoldsResult(store, l, i, plane.results[i]))
  {
    CallRowsAre(store, l, |l.calls|);
    ResultRowsAre(store, l, |l.results|);
  }

  lemma {:induction false} CallRowsAre(store: SubStore, l: Listing, n: nat)
    requires Lists(store, l) && n <= |l.calls|
    ensures forall i | 0 <= i < n :: HoldsCall(store, l, i, PlaneCalls(store, l, n)[i])
  {
    if n > 0 {
      CallRowsAre(store, l, n - 1);
      ListedAreStored(store, l);
    }
  }

  lemma {:induction false} ResultRowsAre(store: SubStore, l: Listing, n: nat)
    requires Lists(store, l) && n <= |l.results|
    ensures forall i | 0 <= i < n :: HoldsResult(store, l, i, PlaneResults(Stored(store), l, n)[i])
  {
    if n > 0 {
      ResultRowsAre(store, l, n - 1);
      ListedAreStored(store, l);
    }
  }

  // ---- what the scan counts, row by row ------------------------------------

  predicate CountsFor(s: Acks.Scanner, saved: seq<Acks.Ack>, hasCall: bool, text: string)
  {
    text != "" && s.matches(text) && (!hasCall || !Acks.Saved(saved, s.digest(text)))
  }

  function CallWeights(s: Acks.Scanner, saved: seq<Acks.Ack>, store: SubStore): CallKey -> nat
  {
    (key: CallKey) =>
      match ToolInput(store, key)
      case None => 0
      case Some(text) => if CountsFor(s, saved, true, text) then 1 else 0
  }

  function JoinWeights(store: SubStore, key: ResultKey): CallKey -> nat
  {
    (call: CallKey) => if call.0 == key.0 && ToolUseId(store, call) == key.1 then 1 else 0
  }

  /** A remedy counts once for each call it joins, or once without a call. */
  function RemedyWeight(s: Acks.Scanner, saved: seq<Acks.Ack>, text: Option<string>, joins: nat): nat
  {
    match text
    case None => 0
    case Some(t) =>
      if joins == 0 then (if CountsFor(s, saved, false, t) then 1 else 0)
      else if CountsFor(s, saved, true, t) then joins else 0
  }

  function ResultWeights(s: Acks.Scanner, saved: seq<Acks.Ack>, store: SubStore, text: ResultKey -> Option<string>,
                         calls: seq<CallKey>): ResultKey -> nat
  {
    (key: ResultKey) => RemedyWeight(s, saved, text(key), Tally(JoinWeights(store, key), calls))
  }

  lemma UnsavedOfOne(s: Acks.Scanner, saved: seq<Acks.Ack>, c: Acks.Candidate)
    ensures Acks.Unsaved(s, saved, [c]) == if CountsFor(s, saved, c.call.Some?, c.payload) then 1 else 0
    ensures Acks.Unsaved(s, saved, []) == 0
  {
    assert [c][..0] == [];
  }

  lemma InputOneMore(s: Acks.Scanner, saved: seq<Acks.Ack>, calls: seq<Acks.CallRow>, call: Acks.CallRow)
    ensures Acks.Unsaved(s, saved, Acks.InputRows(calls + [call])) ==
            Acks.Unsaved(s, saved, Acks.InputRows(calls)) +
            match call.toolInput
            case None => 0
            case Some(text) => if CountsFor(s, saved, true, text) then 1 else 0
  {
    hide Acks.Unsaved, CountsFor;
    assert (calls + [call])[..|calls|] == calls;
    if call.toolInput.Some? {
      var own := Acks.Candidate(Some(call.id), call.toolInput.value);
      Acks.UnsavedAppend(s, saved, Acks.InputRows(calls), [own]);
      UnsavedOfOne(s, saved, own);
    } else {
      assert Acks.InputRows(calls) + [] == Acks.InputRows(calls);
    }
  }

  lemma NoInputs(s: Acks.Scanner, saved: seq<Acks.Ack>, weight: CallKey -> nat)
    ensures Acks.Unsaved(s, saved, Acks.InputRows([])) == 0 && Tally(weight, []) == 0
  {
  }

  lemma {:induction false} InputsCount(s: Acks.Scanner, saved: seq<Acks.Ack>, store: SubStore, l: Listing, n: nat)
    requires n <= |l.calls| == |l.callIds|
    ensures Acks.Unsaved(s, saved, Acks.InputRows(PlaneCalls(store, l, n))) == Tally(CallWeights(s, saved, store), l.calls[..n])
  {
    hide Acks.Unsaved, Acks.InputRows, CountsFor, ToolInput, ToolUseId, Tally;
    if n == 0 {
      NoInputs(s, saved, CallWeights(s, saved, store));
    } else {
      InputsCount(s, saved, store, l, n - 1);
      InputOneMore(s, saved, PlaneCalls(store, l, n - 1), PlaneCalls(store, l, n)[n - 1]);
      TallyOneMore(CallWeights(s, saved, store), l.calls, n);
    }
  }

  lemma JoinOneMore(s: Acks.Scanner, saved: seq<Acks.Ack>, calls: seq<Acks.CallRow>, call: Acks.CallRow,
                    key: Acks.JoinKey, text: string)
    ensures var before, after := Acks.JoinedWith(calls, key, text), Acks.JoinedWith(calls + [call], key, text);
      var more := if call.key == key then 1 else 0;
      && |after| == |before| + more
      && Acks.Unsaved(s, saved, after) == Acks.Unsaved(s, saved, before) + if CountsFor(s, saved, true, text) then more else 0
  {
    hide Acks.Unsaved, CountsFor;
    assert (calls + [call])[..|calls|] == calls;
    var before, own := Acks.JoinedWith(calls, key, text), Acks.Candidate(Some(call.id), text);
    Acks.UnsavedAppend(s, saved, before, [own]);
    UnsavedOfOne(s, saved, own);
    assert before + [] == before;
  }

  lemma TallyOneMore<K>(weight: K -> nat, keys: seq<K>, n: nat)
    requires 0 < n <= |keys|
    ensures Tally(weight, keys[..n]) == Tally(weight, keys[..n - 1]) + weight(keys[n - 1])
  {
    assert keys[..n][..n - 1] == keys[..n - 1];
  }

  /** A listed call joins a listed result when both are of one transcript and name one tool use. */
  lemma JoinsWhenSame(store: SubStore, l: Listing, call: CallKey, key: ResultKey)
    requires Lists(store, l) && call in l.calls && key.0 in l.transcripts
    ensures (TranscriptId(l, call.0), ToolUseId(store, call)) == (TranscriptId(l, key.0), key.1) <==>
            JoinWeights(store, key)(call) == 1
  {
    hide Enumerates, ToolUseId;
    ListedAreStored(store, l);
    assert call.0 in l.transcripts;
  }

  lemma {:induction false} JoinsCount(s: Acks.Scanner, saved: seq<Acks.Ack>, store: SubStore, l: Listing, n: nat,
                                      key: ResultKey, text: string)
    requires Lists(store, l) && n <= |l.calls| == |l.callIds| && key.0 in l.transcripts
    ensures var joined := Acks.JoinedWith(PlaneCalls(store, l, n), (TranscriptId(l, key.0), key.1), text);
      var joins := Tally(JoinWeights(store, key), l.calls[..n]);
      && |joined| == joins
      && Acks.Unsaved(s, saved, joined) == if CountsFor(s, saved, true, text) then joins else 0
  {
    hide Acks.Unsaved, Acks.JoinedWith, CountsFor, ToolInput, ToolUseId, TranscriptId, Tally, Lists, JoinWeights;
    var rowKey := (TranscriptId(l, key.0), key.1);
    if n == 0 {
      NothingJoins(s, saved, rowKey, text, JoinWeights(store, key));
    } else {
      var call := l.calls[n - 1];
      JoinsCount(s, saved, store, l, n - 1, key, text);
      JoinOneMore(s, saved, PlaneCalls(store, l, n - 1), PlaneCalls(store, l, n)[n - 1], rowKey, text);
      TallyOneMore(JoinWeights(store, key), l.calls, n);
      JoinsWhenSame(store, l, call, key);
      AtMostOne(store, key, call);
    }
  }

  lemma NothingJoins(s: Acks.Scanner, saved: seq<Acks.Ack>, key: Acks.JoinKey, text: string, weight: CallKey -> nat)
    ensures Acks.JoinedWith([], key, text) == [] && Acks.Unsaved(s, saved, []) == 0 && Tally(weight, []) == 0
  {
  }

  lemma AtMostOne(store: SubStore, key: ResultKey, call: CallKey)
    ensures JoinWeights(store, key)(call) in {0, 1}
  {
  }

  lemma RemedyCounts(s: Acks.Scanner, saved: seq<Acks.Ack>, store: SubStore, l: Listing, key: ResultKey, text: Option<string>)
    requires Lists(store, l) && key.0 in l.transcripts
    ensures var row := Acks.ResultRow((TranscriptId(l, key.0), key.1), text);
      Acks.Unsaved(s, saved, Acks.ResultRows(row, PlaneCalls(store, l, |l.calls|))) ==
      RemedyWeight(s, saved, text, Tally(JoinWeights(store, key), l.calls))
  {
    hide Acks.Unsaved, Acks.JoinedWith, CountsFor, Lists;
    UnsavedOfOne(s, saved, Acks.Candidate(None, if text.Some? then text.value else ""));
    if text.Some? {
      assert |l.calls| == |l.callIds| by { ListedAsMany(store, l); }
      JoinsCount(s, saved, store, l, |l.calls|, key, text.value);
      assert l.calls[..|l.calls|] == l.calls;
    }
  }

  lemma ListedAsMany(store: SubStore, l: Listing)
    requires Lists(store, l)
    ensures |l.calls| == |l.callIds|
  {
  }

  lemma {:induction false} RemediesCount(s: Acks.Scanner, saved: seq<Acks.Ack>, store: SubStore, l: Listing,
                                         text: ResultKey -> Option<string>, n: nat)
    requires Lists(store, l) && n <= |l.results|
    ensures |l.calls| == |l.callIds|
    ensures Acks.Unsaved(s, saved, Acks.DenyRows(PlaneResults(text, l, n), PlaneCalls(store, l, |l.calls|))) ==
            Tally(ResultWeights(s, saved, store, text, l.calls), l.results[..n])
  {
    hide Acks.Unsaved, Acks.ResultRows, PlaneCalls, RemedyWeight, Lists;
    ListedAsMany(store, l);
    if n == 0 {
      UnsavedOfOne(s, saved, Acks.Candidate(None, ""));
    } else {
      RemediesCount(s, saved, store, l, text, n - 1);
      ListedAreStored(store, l);
      var results, calls := PlaneResults(text, l, n), PlaneCalls(store, l, |l.calls|);
      assert results[..n - 1] == PlaneResults(text, l, n - 1);
      assert l.results[..n][..n - 1] == l.results[..n - 1];
      Acks.UnsavedAppend(s, saved, Acks.DenyRows(results[..n - 1], calls), Acks.ResultRows(results[n - 1], calls));
      RemedyCounts(s, saved, store, l, l.results[n - 1], text(l.results[n - 1]));
    }
  }

  lemma UnsavedOfPlane(s: Acks.Scanner, saved: seq<Acks.Ack>, store: SubStore, l: Listing)
    requires Lists(store, l)
    ensures |l.calls| == |l.callIds|
    ensures Acks.Unsaved(s, saved, Acks.Candidates(PlaneOf(store, l))) ==
            Tally(CallWeights(s, saved, store), l.calls) +
            Tally(ResultWeights(s, saved, store, Stored(store), l.calls), l.results)
  {
    hide Acks.Unsaved, Acks.InputRows, Acks.DenyRows, Tally, Lists, PlaneCalls, PlaneResults, CallWeights, ResultWeights;
    ListedAsMany(store, l);
    InputsCount(s, saved, store, l, |l.calls|);
    RemediesCount(s, saved, store, l, Stored(store), |l.results|);
    assert l.calls[..|l.calls|] == l.calls && l.results[..|l.results|] == l.results;
    var t := PlaneOf(store, l);
    Acks.UnsavedAppend(s, saved, Acks.InputRows(t.calls), Acks.DenyRows(t.results, t.calls));
  }

  /** What the scan counts of the payloads no saved acknowledgement names depends on the stored rows, not on their ids or order. */
  lemma ListingDoesNotMatter(s: Acks.Scanner, saved: seq<Acks.Ack>, store: SubStore, a: Listing, b: Listing)
    requires Lists(store, a) && Lists(store, b)
    ensures |a.calls| == |a.callIds| && |b.calls| == |b.callIds|
    ensures Acks.Unsaved(s, saved, Acks.Candidates(PlaneOf(store, a))) ==
            Acks.Unsaved(s, saved, Acks.Candidates(PlaneOf(store, b)))
  {
    hide Acks.Unsaved, Acks.Candidates, PlaneOf, Tally, CallWeights, JoinWeights, RemedyWeight, Enumerates;
    UnsavedOfPlane(s, saved, store, a);
    UnsavedOfPlane(s, saved, store, b);
    OrderDoesNotMatter(CallWeights(s, saved, store), a.calls, b.calls, CallKeys(store));
    var f := ResultWeights(s, saved, store, Stored(store), a.calls);
    var g := ResultWeights(s, saved, store, Stored(store), b.calls);
    forall key ensures f(key) == g(key) {
      OrderDoesNotMatter(JoinWeights(store, key), a.calls, b.calls, CallKeys(store));
    }
    TallySame(f, g, a.results);
    OrderDoesNotMatter(g, a.results, b.results, ResultKeys(store));
  }

  // ---- remedies that come late ---------------------------------------------

  /** The same calls, and the same results up to remedies that only `after` has. */
  ghost predicate LagsBehind(before: SubStore, after: SubStore)
  {
    && before.Keys == after.Keys
    && forall path | path in before ::
         before[path].calls == after[path].calls && LateVerdicts.Lags(before[path].results, after[path].results)
  }

  /** The remedies that `after` holds and `before` lacks. */
  function LateTexts(before: SubStore, after: SubStore): ResultKey -> Option<string>
  {
    (key: ResultKey) => if DenyTextOf(before, key) == None then DenyTextOf(after, key) else None
  }

  function LateRemedies(before: SubStore, after: SubStore, l: Listing): seq<Acks.Candidate>
    requires |l.calls| == |l.callIds|
  {
    Acks.DenyRows(PlaneResults(LateTexts(before, after), l, |l.results|), PlaneCalls(after, l, |l.calls|))
  }

  lemma ListsBoth(before: SubStore, after: SubStore, l: Listing)
    requires LagsBehind(before, after) && Lists(after, l)
    ensures Lists(before, l)
  {
    hide Enumerates;
    assert CallKeys(before) == CallKeys(after);
    assert ResultKeys(before) == ResultKeys(after);
  }

  lemma {:induction false} TalliesAdd<K>(f: K -> nat, g: K -> nat, h: K -> nat, keys: seq<K>)
    requires forall k | k in keys :: f(k) == g(k) + h(k)
    ensures Tally(f, keys) == Tally(g, keys) + Tally(h, keys)
  {
    if keys != [] {
      TalliesAdd(f, g, h, keys[..|keys| - 1]);
    }
  }

  lemma SameRowsBut(before: SubStore, after: SubStore, key: ResultKey)
    requires LagsBehind(before, after)
    ensures DenyTextOf(before, key) == DenyTextOf(after, key) || DenyTextOf(before, key) == None
    ensures forall call :: ToolInput(before, call) == ToolInput(after, call) && ToolUseId(before, call) == ToolUseId(after, call)
  {
  }

  /** The later plane counts what the earlier one does and, besides, the late remedies. */
  lemma LateRemediesAddUp(s: Acks.Scanner, saved: seq<Acks.Ack>, before: SubStore, after: SubStore, l: Listing)
    requires LagsBehind(before, after) && Lists(after, l)
    ensures Lists(before, l) && |l.calls| == |l.callIds|
    ensures Acks.Unsaved(s, saved, Acks.Candidates(PlaneOf(after, l))) ==
            Acks.Unsaved(s, saved, Acks.Candidates(PlaneOf(before, l))) +
            Acks.Unsaved(s, saved, LateRemedies(before, after, l))
  {
    hide Acks.Unsaved, Acks.Candidates, Acks.DenyRows, PlaneOf, PlaneResults, PlaneCalls, Tally, Lists, LagsBehind,
      DenyTextOf, ToolInput, ToolUseId, CountsFor;
    ListsBoth(before, after, l);
    UnsavedOfPlane(s, saved, before, l);
    UnsavedOfPlane(s, saved, after, l);
    RemediesCount(s, saved, after, l, LateTexts(before, after), |l.results|);
    assert l.results[..|l.results|] == l.results;
    SameRowsBut(before, after, ("", Null));
    TallySame(CallWeights(s, saved, before), CallWeights(s, saved, after), l.calls);
    var late := ResultWeights(s, saved, after, LateTexts(before, after), l.calls);
    var was, is_ := ResultWeights(s, saved, before, Stored(before), l.calls), ResultWeights(s, saved, after, Stored(after), l.calls);
    forall key | key in l.results ensures is_(key) == was(key) + late(key) {
      SameRowsBut(before, after, key);
      TallySame(JoinWeights(before, key), JoinWeights(after, key), l.calls);
    }
    TalliesAdd(is_, was, late, l.results);
  }

  // ---- some of the transcripts ---------------------------------------------

  function Only(store: SubStore, paths: set<Path>): SubStore
  {
    map path | path in store && path in paths :: store[path]
  }

  lemma OnlyIsPart(store: SubStore, paths: set<Path>)
    ensures CallKeys(Only(store, paths)) <= CallKeys(store) && ResultKeys(Only(store, paths)) <= ResultKeys(store)
    ensures forall key | key !in CallKeys(Only(store, paths)) :: ToolInput(Only(store, paths), key) == None
    ensures forall key | key !in ResultKeys(Only(store, paths)) :: DenyTextOf(Only(store, paths), key) == None
  {
  }

  lemma OnlyWhere(store: SubStore, paths: set<Path>)
    ensures forall key: CallKey ::
              && ToolInput(Only(store, paths), key) == (if key.0 in paths then ToolInput(store, key) else None)
              && (key.0 in paths ==> ToolUseId(Only(store, paths), key) == ToolUseId(store, key))
              && (key.0 in paths ==> IsCall(Only(store, paths), key) == IsCall(store, key))
    ensures forall key: ResultKey ::
              && DenyTextOf(Only(store, paths), key) == (if key.0 in paths then DenyTextOf(store, key) else None)
              && (key.0 in paths ==> IsResult(Only(store, paths), key) == IsResult(store, key))
  {
  }

  /** A result's joins are calls of its own transcript. */
  lemma JoinsStayInside(store: SubStore, l: Listing, paths: set<Path>, part: Listing, key: ResultKey)
    requires Lists(store, l) && Lists(Only(store, paths), part) && key.0 in paths && IsResult(store, key)
    ensures Tally(JoinWeights(store, key), l.calls) == Tally(JoinWeights(Only(store, paths), key), part.calls)
  {
    hide Enumerates, Tally, ToolUseId, IsCall;
    OnlyWhere(store, paths);
    OnlyIsPart(store, paths);
    TallySame(JoinWeights(store, key), JoinWeights(Only(store, paths), key), l.calls);
    OthersDoNotJoin(store, paths, key);
    PartIsEnough(JoinWeights(Only(store, paths), key), part.calls, CallKeys(Only(store, paths)), l.calls, CallKeys(store));
  }

  lemma OthersDoNotJoin(store: SubStore, paths: set<Path>, key: ResultKey)
    requires key.0 in paths
    ensures forall call | call in CallKeys(store) && call !in CallKeys(Only(store, paths)) ::
              JoinWeights(Only(store, paths), key)(call) == 0
  {
  }

  /** The scan of a plane is the scan of some of its transcripts and that of the others. */
  lemma ScanSplits(s: Acks.Scanner, saved: seq<Acks.Ack>, store: SubStore, l: Listing,
                   paths: set<Path>, part: Listing, others: set<Path>, rest: Listing)
    requires Lists(store, l) && Lists(Only(store, paths), part) && Lists(Only(store, others), rest)
    requires store.Keys <= paths + others && paths !! others
    ensures |l.calls| == |l.callIds| && |part.calls| == |part.callIds| && |rest.calls| == |rest.callIds|
    ensures Acks.Unsaved(s, saved, Acks.Candidates(PlaneOf(store, l))) ==
            Acks.Unsaved(s, saved, Acks.Candidates(PlaneOf(Only(store, paths), part))) +
            Acks.Unsaved(s, saved, Acks.Candidates(PlaneOf(Only(store, others), rest)))
  {
    hide Acks.Unsaved, Acks.Candidates, PlaneOf, Tally, CallWeights, ResultWeights, Lists, Enumerates;
    UnsavedOfPlane(s, saved, store, l);
    UnsavedOfPlane(s, saved, Only(store, paths), part);
    UnsavedOfPlane(s, saved, Only(store, others), rest);
    InputsSplit(s, saved, store, l, paths, part, others, rest);
    RemediesSplit(s, saved, store, l, paths, part, others, rest);
  }

  lemma InputsSplit(s: Acks.Scanner, saved: seq<Acks.Ack>, store: SubStore, l: Listing,
                    paths: set<Path>, part: Listing, others: set<Path>, rest: Listing)
    requires Lists(store, l) && Lists(Only(store, paths), part) && Lists(Only(store, others), rest)
    requires store.Keys <= paths + others && paths !! others
    ensures Tally(CallWeights(s, saved, store), l.calls) ==
            Tally(CallWeights(s, saved, Only(store, paths)), part.calls) +
            Tally(CallWeights(s, saved, Only(store, others)), rest.calls)
  {
    hide Enumerates, Tally, ToolInput, CountsFor, CallKeys, Only;
    var whole, f, g := CallWeights(s, saved, store), CallWeights(s, saved, Only(store, paths)), CallWeights(s, saved, Only(store, others));
    OnlyWhere(store, paths);
    OnlyWhere(store, others);
    OnlyIsPart(store, paths);
    OnlyIsPart(store, others);
    NoInputElsewhere(store, paths + others);
    TalliesAdd(whole, f, g, l.calls);
    PartIsEnough(f, part.calls, CallKeys(Only(store, paths)), l.calls, CallKeys(store));
    PartIsEnough(g, rest.calls, CallKeys(Only(store, others)), l.calls, CallKeys(store));
  }

  lemma NoInputElsewhere(store: SubStore, paths: set<Path>)
    requires store.Keys <= paths
    ensures forall key: CallKey | key.0 !in paths :: ToolInput(store, key) == None
    ensures forall key: ResultKey | key.0 !in paths :: DenyTextOf(store, key) == None
  {
  }

  lemma RemediesSplit(s: Acks.Scanner, saved: seq<Acks.Ack>, store: SubStore, l: Listing,
                      paths: set<Path>, part: Listing, others: set<Path>, rest: Listing)
    requires Lists(store, l) && Lists(Only(store, paths), part) && Lists(Only(store, others), rest)
    requires store.Keys <= paths + others && paths !! others
    ensures Tally(ResultWeights(s, saved, store, Stored(store), l.calls), l.results) ==
            Tally(ResultWeights(s, saved, Only(store, paths), Stored(Only(store, paths)), part.calls), part.results) +
            Tally(ResultWeights(s, saved, Only(store, others), Stored(Only(store, others)), rest.calls), rest.results)
  {
    hide Enumerates, Tally, CountsFor, ResultKeys, CallKeys, Only, JoinWeights;
    var whole := ResultWeights(s, saved, store, Stored(store), l.calls);
    var f := ResultWeights(s, saved, Only(store, paths), Stored(Only(store, paths)), part.calls);
    var g := ResultWeights(s, saved, Only(store, others), Stored(Only(store, others)), rest.calls);
    OnlyIsPart(store, paths);
    OnlyIsPart(store, others);
    forall key | key in l.results ensures whole(key) == f(key) + g(key) {
      RemedySplits(s, saved, store, l, paths, part, others, rest, key);
    }
    TalliesAdd(whole, f, g, l.results);
    PartIsEnough(f, part.results, ResultKeys(Only(store, paths)), l.results, ResultKeys(store));
    PartIsEnough(g, rest.results, ResultKeys(Only(store, others)), l.results, ResultKeys(store));
  }

  lemma RemedySplits(s: Acks.Scanner, saved: seq<Acks.Ack>, store: SubStore, l: Listing,
                     paths: set<Path>, part: Listing, others: set<Path>, rest: Listing, key: ResultKey)
    requires Lists(store, l) && Lists(Only(store, paths), part) && Lists(Only(store, others), rest)
    requires store.Keys <= paths + others && paths !! others
    ensures ResultWeights(s, saved, store, Stored(store), l.calls)(key) ==
            ResultWeights(s, saved, Only(store, paths), Stored(Only(store, paths)), part.calls)(key) +
            ResultWeights(s, saved, Only(store, others), Stored(Only(store, others)), rest.calls)(key)
  {
    hide Enumerates, Tally, CountsFor, Only, JoinWeights, Lists;
    OnlyWhere(store, paths);
    OnlyWhere(store, others);
    NoInputElsewhere(store, paths + others);
    if DenyTextOf(store, key).Some? {
      if key.0 in paths {
        JoinsStayInside(store, l, paths, part, key);
      } else {
        JoinsStayInside(store, l, others, rest, key);
      }
    }
  }
}
