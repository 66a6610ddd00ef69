/**
 atlas/query/facade.py, class `QueryFacade`: three reads of a warehouse that an
 ingest process may commit to between any two of them, and the one read
 transaction that makes them a single answer.

 SQLite is taken at its word on two points: a deferred transaction pins its
 snapshot at its first read, and a read outside a transaction sees the latest
 commit.
 */
module QueryFacade {
  import opened Wrappers

  type Name = string
  type Row = string

  datatype Run = Run(id: int, status: string, checksEvaluated: Option<nat>, contractFailures: Option<nat>)

  /** A source's row of v_source_trust. */
  datatype Trust = Trust(contractFailures: nat, checksRun: nat)

  datatype ViewRows = ViewRows(columns: seq<string>, rows: seq<Row>)

  /** One committed state of the warehouse, as far as the facade can see it. */
  datatype Version = Version(
    run: Option<Run>,
    queryable: set<Name>,
    trust: map<Name, Trust>,
    views: map<Name, ViewRows>,
    liveState: Option<string>)

  datatype State = NeverRun | FailedRun | ChecksNotEvaluated | Clean

  datatype Limit = NoLimit | BoolLimit(flag: bool) | IntLimit(value: int) | OtherLimit

  datatype Reason =
    | NotAllowed
    | NotClean(state: State)
    | Undeclared
    | Unqueryable(blocked: map<Name, Option<Trust>>)
    | BadLimit
    | NotLive

  /** `SqlError` is what SQLite itself raises: no such view, or a limit past 64 bits. */
  datatype Outcome = Served(view: ViewRows) | Refused(reason: Reason) | SqlError

  /** The declared constants: the gated views, the live views, and each view's sources. */
  datatype Gate = Gate(allowed: set<Name>, allowedLive: set<Name>, sources: map<Name, set<Name>>)

  const ATLAS_STATUS := "v_atlas_status"
  const MAX_LIMIT := 0x7fff_ffff_ffff_ffff

  // ---- one version at a time -----------------------------------------------

  function StateOf(run: Option<Run>): State
  {
    match run
    case None => NeverRun
    case Some(r) =>
      if r.status == "NO-INGEST-RUN-YET" then NeverRun
      else if r.status != "ok" then FailedRun
      else if r.checksEvaluated == None || r.checksEvaluated == Some(0) then ChecksNotEvaluated
      else Clean
  }

  function Lookup<V>(m: map<Name, V>, name: Name): Option<V>
  {
    if name in m then Some(m[name]) else None
  }

  function Details(version: Version, blocked: set<Name>): map<Name, Option<Trust>>
  {
    map source | source in blocked :: Lookup(version.trust, source)
  }

  predicate AcceptsLimit(limit: Limit)
  {
    limit.NoLimit? || (limit.IntLimit? && limit.value >= 1)
  }

  function Select(version: Version, view: Name, limit: Limit): Outcome
  {
    if !AcceptsLimit(limit) then Refused(BadLimit)
    else if view !in version.views || (limit.IntLimit? && limit.value > MAX_LIMIT) then SqlError
    else
      var all := version.views[view];
      Served(if limit.IntLimit? && limit.value < |all.rows| then all.(rows := all.rows[..limit.value]) else all)
  }

  /** What a fetch answers when nothing changes under it. */
  function Answer(gate: Gate, version: Version, view: Name, limit: Limit): Outcome
  {
    var state := StateOf(version.run);
    if view !in gate.allowed then Refused(NotAllowed)
    else if view != ATLAS_STATUS && state != Clean then Refused(NotClean(state))
    else if view !in gate.sources then Refused(Undeclared)
    else
      var blocked := gate.sources[view] - version.queryable;
      if blocked != {} then Refused(Unqueryable(Details(version, blocked)))
      else Select(version, view, limit)
  }

  /** The latest run ended well and evaluated its checks. */
  predicate IsClean(run: Option<Run>)
  {
    run.Some? && run.value.status == "ok" && run.value.checksEvaluated.Some? && run.value.checksEvaluated.value > 0
  }

  /** A version in which the view may be served: a clean run, unless the view is the status itself, and every source queryable. */
  predicate Trusted(gate: Gate, version: Version, view: Name)
  {
    && (view != "v_atlas_status" ==> IsClean(version.run))
    && view in gate.sources && gate.sources[view] <= version.queryable
  }

  /** No limit, or a whole number from 1 to the largest of 64 bits. */
  predicate IsLimit(limit: Limit)
  {
    limit == NoLimit || (limit.IntLimit? && 1 <= limit.value <= 9223372036854775807)
  }

  /** The first rows of the view: all of them, or as many as the limit. */
  predicate FirstRowsOf(answer: ViewRows, whole: ViewRows, limit: Limit)
  {
    && answer.columns == whole.columns
    && answer.rows <= whole.rows
    && (limit.IntLimit? ==> |answer.rows| <= limit.value)
    && (|answer.rows| < |whole.rows| ==> limit == IntLimit(|answer.rows|))
  }

  /** Rows come out exactly for a declared view of a trusted version, and they are that view's rows. */
  lemma ServedIffTrusted(gate: Gate, version: Version, view: Name, limit: Limit)
    ensures Answer(gate, version, view, limit).Served? <==>
            view in gate.allowed && Trusted(gate, version, view) && view in version.views && IsLimit(limit)
    ensures var answer := Answer(gate, version, view, limit);
      answer.Served? ==> FirstRowsOf(answer.view, version.views[view], limit)
  {
    if view in gate.sources {
      NothingBlocked(gate.sources[view], version.queryable);
    }
  }

  /** What is wrong with a run that is not clean. */
  predicate StateIs(run: Option<Run>, state: State)
  {
    match state
    case NeverRun => run == None || run.value.status == "NO-INGEST-RUN-YET"
    case FailedRun => run.Some? && run.value.status != "NO-INGEST-RUN-YET" && run.value.status != "ok"
    case ChecksNotEvaluated => run.Some? && run.value.status == "ok" && run.value.checksEvaluated in {None, Some(0)}
    case Clean => IsClean(run)
  }

  /**
   And the refusals in the order they are made: an unknown view; a run that is not clean, with what
   is wrong with it; a view without declared sources; sources that are not queryable, each with its
   trust figures; a limit that is none; and last what SQLite itself does not accept.
   */
  lemma RefusalIs(gate: Gate, version: Version, view: Name, limit: Limit)
    ensures var answer := Answer(gate, version, view, limit);
      var judged := view in gate.allowed && (view == "v_atlas_status" || IsClean(version.run));
      var sourced := judged && view in gate.sources && gate.sources[view] <= version.queryable;
      && (answer == Refused(NotAllowed) <==> view !in gate.allowed)
      && (answer.Refused? && answer.reason.NotClean? <==> view in gate.allowed && !judged)
      && (answer.Refused? && answer.reason.NotClean? ==> StateIs(version.run, answer.reason.state))
      && (answer == Refused(Undeclared) <==> judged && view !in gate.sources)
      && (answer.Refused? && answer.reason.Unqueryable? <==>
            judged && view in gate.sources && !(gate.sources[view] <= version.queryable))
      && (answer.Refused? && answer.reason.Unqueryable? ==>
            && (forall source :: source in answer.reason.blocked <==> source in gate.sources[view] && source !in version.queryable)
            && forall source | source in answer.reason.blocked ::
                 answer.reason.blocked[source] == if source in version.trust then Some(version.trust[source]) else None)
      && (answer == Refused(BadLimit) <==> sourced && limit != NoLimit && !(limit.IntLimit? && limit.value >= 1))
      && (answer == SqlError <==>
            && sourced && (limit == NoLimit || (limit.IntLimit? && limit.value >= 1))
            && (view !in version.views || (limit.IntLimit? && limit.value > 9223372036854775807)))
  {
    if view in gate.sources {
      NothingBlocked(gate.sources[view], version.queryable);
    }
  }

  lemma NothingBlocked(sources: set<Name>, queryable: set<Name>)
    ensures sources - queryable == {} <==> sources <= queryable
  {
    if sources - queryable == {} {
      forall source | source in sources
        ensures source in queryable
      {
        assert source !in sources - queryable;
      }
    }
  }

  // ---- the facade ----------------------------------------------------------

  class Facade {
    const gate: Gate
    /** The warehouse file: every version ever committed, oldest first. Only the writer extends it. */
    var history: seq<Version>
    var inTransaction: bool
    /** The version this connection's transaction reads, once it has read anything. */
    var snapshot: Option<nat>

    /** Between calls no transaction is open. */
    ghost predicate Valid()
      reads this
    {
      history != [] && !inTransaction && snapshot == None
    }

    constructor (gate: Gate, first: Version)
      ensures Valid() && history == [first] && this.gate == gate
    {
      this.gate := gate;
      history, inTransaction, snapshot := [first], false, None;
    }

    /** The ingest process commits any number of times. */
    method WriterCommits()
      modifies this`history
      ensures old(history) <= history
    {
      var more: seq<Version> := *;
      history := history + more;
    }

    /** One SELECT, with the writer free to commit just before it. */
    method Read() returns (version: Version)
      requires history != [] && (snapshot.Some? ==> inTransaction && snapshot.value < |history|)
      modifies this`history, this`snapshot
      ensures old(history) <= history
      ensures !inTransaction ==> snapshot == None && version == history[|history| - 1]
      ensures inTransaction ==>
                && snapshot.Some? && snapshot.value < |history| && version == history[snapshot.value]
                && snapshot == (if old(snapshot).Some? then old(snapshot) else Some(|history| - 1))
    {
      WriterCommits();
      if inTransaction && snapshot == None {
        snapshot := Some(|history| - 1);
      }
      version := history[if snapshot.Some? then snapshot.value else |history| - 1];
    }

    /**
     Whatever the writer does meanwhile, the outcome is the answer of one single version,
     committed no earlier than the last one before the call; no transaction is left open.
     */
    method Fetch(view: Name, limit: Limit) returns (outcome: Outcome, ghost at: nat)
      requires Valid()
      modifies this
      ensures Valid() && old(history) <= history
      ensures |old(history)| - 1 <= at < |history|
      ensures outcome == Answer(gate, history[at], view, limit)
    {
      if view !in gate.allowed {
        return Refused(NotAllowed), |history| - 1;
      }
      inTransaction := true;
      outcome, at := FetchInTransaction(view, limit);
      inTransaction, snapshot := false, None;
    }

    /** Everything between BEGIN and the closing COMMIT. */
    method FetchInTransaction(view: Name, limit: Limit) returns (outcome: Outcome, ghost at: nat)
      requires history != [] && inTransaction && snapshot == None && view in gate.allowed
      modifies this`history, this`snapshot
      ensures old(history) <= history
      ensures |old(history)| - 1 <= at < |history|
      ensures outcome == Answer(gate, history[at], view, limit)
    {
      at := |history| - 1;
      if view != ATLAS_STATUS {
        var version := Read();
        at := snapshot.value;
        var state := StateOf(version.run);
        if state != Clean {
          return Refused(NotClean(state)), at;
        }
      }
      if view !in gate.sources {
        return Refused(Undeclared), at;
      }
      var sources := gate.sources[view];
      if sources != {} {
        var version := Read();
        at := snapshot.value;
        var blocked := sources - version.queryable;
        if blocked != {} {
          var details := BlockedDetails(blocked);
          return Refused(Unqueryable(details)), at;
        }
      }
      if !AcceptsLimit(limit) {
        return Refused(BadLimit), at;
      }
      var version := Read();
      at := snapshot.value;
      outcome := Select(version, view, limit);
    }

    /** One more read for each blocked source, for the refusal's text. */
    method BlockedDetails(blocked: set<Name>) returns (details: map<Name, Option<Trust>>)
      requires inTransaction && snapshot.Some? && snapshot.value < |history|
      modifies this`history, this`snapshot
      ensures old(history) <= history && snapshot == old(snapshot)
      ensures details == Details(history[snapshot.value], blocked)
    {
      details := map[];
      var todo := blocked;
      while todo != {}
        invariant todo <= blocked && old(history) <= history && snapshot == old(snapshot)
        invariant details == Details(history[snapshot.value], blocked - todo)
      {
        var source :| source in todo;
        var version := Read();
        details := details[source := Lookup(version.trust, source)];
        todo := todo - {source};
      }
      assert blocked - todo == blocked;
    }

    /**
     The live plane's own gate takes no transaction: the rows may come from a later version
     than the one that was found live.
     */
    method FetchLive(view: Name, limit: Limit) returns (outcome: Outcome, ghost gateAt: nat, ghost at: nat)
      requires Valid()
      modifies this
      ensures Valid() && old(history) <= history
      ensures |old(history)| - 1 <= gateAt <= at < |history|
      ensures outcome == LiveAnswer(gate, history[gateAt], history[at], view, limit)
    {
      gateAt, at := |history| - 1, |history| - 1;
      if view !in gate.allowedLive {
        return Refused(NotAllowed), gateAt, at;
      }
      var version := Read();
      gateAt, at := |history| - 1, |history| - 1;
      if version.liveState != Some("live") {
        return Refused(NotLive), gateAt, at;
      }
      if !AcceptsLimit(limit) {
        return Refused(BadLimit), gateAt, at;
      }
      version := Read();
      at := |history| - 1;
      outcome := Select(version, view, limit);
    }
  }

  function LiveAnswer(gate: Gate, gateVersion: Version, version: Version, view: Name, limit: Limit): Outcome
  {
    if view !in gate.allowedLive then Refused(NotAllowed)
    else if gateVersion.liveState != Some("live") then Refused(NotLive)
    else Select(version, view, limit)
  }

  /** Live rows come out exactly for a live view, when the first read said live, of the version of the second. */
  lemma LiveServedIff(gate: Gate, gateVersion: Version, version: Version, view: Name, limit: Limit)
    ensures var answer := LiveAnswer(gate, gateVersion, version, view, limit);
      && (answer.Served? <==>
            view in gate.allowedLive && gateVersion.liveState == Some("live") && view in version.views && IsLimit(limit))
      && (answer.Served? ==> FirstRowsOf(answer.view, version.views[view], limit))
      && (answer == Refused(NotAllowed) <==> view !in gate.allowedLive)
      && (answer == Refused(NotLive) <==> view in gate.allowedLive && gateVersion.liveState != Some("live"))
      && (answer == Refused(BadLimit) <==>
            && view in gate.allowedLive && gateVersion.liveState == Some("live")
            && limit != NoLimit && !(limit.IntLimit? && limit.value >= 1))
  {
  }

  // ---- without the transaction ---------------------------------------------

  /** The same three reads with no BEGIN and COMMIT: each sees the latest commit of its own moment. */
  function Unguarded(gate: Gate, atStatus: Version, atSources: Version, atSelect: Version, view: Name, limit: Limit): Outcome
  {
    var state := StateOf(atStatus.run);
    if view !in gate.allowed then Refused(NotAllowed)
    else if view != ATLAS_STATUS && state != Clean then Refused(NotClean(state))
    else if view !in gate.sources then Refused(Undeclared)
    else
      var blocked := gate.sources[view] - atSources.queryable;
      if blocked != {} then Refused(Unqueryable(Details(atSources, blocked)))
      else Select(atSelect, view, limit)
  }

  /** What an unguarded fetch asks of the three versions it reads. */
  lemma UnguardedServedIff(gate: Gate, atStatus: Version, atSources: Version, atSelect: Version, view: Name, limit: Limit)
    ensures var outcome := Unguarded(gate, atStatus, atSources, atSelect, view, limit);
      && (outcome.Served? <==>
            && view in gate.allowed && (view == "v_atlas_status" || IsClean(atStatus.run))
            && view in gate.sources && gate.sources[view] <= atSources.queryable
            && view in atSelect.views && IsLimit(limit))
      && (outcome.Served? ==> FirstRowsOf(outcome.view, atSelect.views[view], limit))
  {
    if view in gate.sources {
      NothingBlocked(gate.sources[view], atSources.queryable);
    }
  }

  /** With a commit between the reads, an unguarded fetch serves rows that no version would have given. */
  lemma UnguardedTears(gate: Gate, view: Name, before: Version, after: Version)
    requires view in gate.allowed && Trusted(gate, before, view) && !Trusted(gate, after, view)
    requires view in after.views && (view in before.views ==> before.views[view] != after.views[view])
    ensures var outcome := Unguarded(gate, before, before, after, view, NoLimit);
      && outcome == Served(after.views[view])
      && outcome != Answer(gate, before, view, NoLimit)
      && outcome != Answer(gate, after, view, NoLimit)
  {
  }

  /** When the three reads straddle commits, what was served is the last version's answer exactly if it is trusted. */
  lemma UnguardedIsLastAnswerIffTrusted(gate: Gate, atStatus: Version, atSources: Version, atSelect: Version, view: Name, limit: Limit)
    requires Unguarded(gate, atStatus, atSources, atSelect, view, limit).Served?
    ensures Unguarded(gate, atStatus, atSources, atSelect, view, limit) == Answer(gate, atSelect, view, limit)
            <==> Trusted(gate, atSelect, view)
  {
    ServedIffTrusted(gate, atSelect, view, limit);
  }
}
