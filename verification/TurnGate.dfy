/**
 bollard/pdp_turn_gate.py: the Stop hook's two branches over whole runs. The
 continuation-authority branch (`main`) counts consecutive blocks and fails open;
 the orchestrator branch asks for evidence newer than the last stop and fails
 closed. Both keep their state in one file shared by all sessions.
 */
module TurnGate {
  import opened Wrappers

  type Session = string
  /** Seconds since the epoch. */
  type Time = real

  const MAX_CONSECUTIVE_BLOCKS := 2
  const STOP_CONDITIONS := {"discard-completed-work", "land-shared-infra", "gate-kill", "declare-done"}
  const ESCALATION_CONDITIONS := {"E1", "E2", "E3", "E4"}

  // ---- the state file ------------------------------------------------------

  datatype Entry = Entry(lastStop: Time, blocks: nat)

  /** `Broken` is JSON of another shape: loading it raises. An unreadable file counts as empty. */
  datatype StateFile = Unreadable | Broken | Entries(entries: map<Session, Entry>)

  const NO_ENTRY := Entry(0.0, 0)

  function EntryOf(file: StateFile, session: Session): Entry
  {
    if file.Entries? && session in file.entries then file.entries[session] else NO_ENTRY
  }

  /** A write that fails is swallowed and the file stays as it was. */
  function Saved(file: StateFile, session: Session, entry: Entry, lands: bool): StateFile
  {
    if !lands then file
    else Entries((if file.Entries? then file.entries else map[])[session := entry])
  }

  // ---- what a stop finds ---------------------------------------------------

  /** A marker file; `session` is None when it is not an object naming one. */
  datatype Marker = Marker(mtime: Time, session: Option<Session>)

  datatype Artifact = Unnamed | Relative | Outside | NotFound | InProject(mtime: Time)

  /** The file's parsed content; `whyLength` counts the stripped reason's characters. */
  datatype Declared = Nothing | NotAnObject | Fields(condition: string, artifact: Artifact, whyLength: nat)

  datatype Declaration = Declaration(mtime: Time, declared: Declared)

  datatype Disk = Disk(activity: Option<Marker>, wakeup: Option<Marker>, declaration: Option<Declaration>)

  /** The claim's `claimed_at`: unusable, NaN, infinite, or a time. */
  datatype ClaimedAt = Malformed | NotANumber | Infinite | At(time: Time)

  datatype Work = Unjudgeable | Standing(remaining: nat, batch: nat)

  /** An exception inside the gate: before it writes its state, or after. */
  datatype Raise = NoRaise | BeforeSave | AfterSave

  /** One Stop event of one session; `lands` is whether the state write does. */
  datatype Stop = Stop(
    session: Session,
    now: Time,
    claim: Option<ClaimedAt>,
    holdsAuthority: bool,
    disk: Disk,
    tooLong: bool,
    work: Work,
    raises: Raise,
    lands: bool)

  datatype Decision = Allow | Block

  // ---- freshness -----------------------------------------------------------

  /** Strictly after the bound; no time is after an infinite one. */
  predicate After(mtime: Time, since: Option<Time>)
  {
    since.Some? && mtime > since.value
  }

  predicate FreshFor(m: Option<Marker>, session: Session, since: Option<Time>)
  {
    m.Some? && After(m.value.mtime, since) && m.value.session == Some(session)
  }

  function FreshDeclaration(d: Option<Declaration>, since: Option<Time>): Declared
  {
    if d.Some? && After(d.value.mtime, since) then d.value.declared else Nothing
  }

  predicate ArtifactHolds(d: Declared, since: Option<Time>)
  {
    && d.Fields? && d.condition in ESCALATION_CONDITIONS
    && d.artifact.InProject? && After(d.artifact.mtime, since) && d.whyLength >= 12
  }

  // ---- the orchestrator branch ---------------------------------------------

  /** Python's max(last, claimed): a NaN never wins. None stands for infinity. */
  function Floor(last: Time, claimed: ClaimedAt): Option<Time>
  {
    match claimed
    case At(time) => Some(if time > last then time else last)
    case Infinite => None
    case _ => Some(last)
  }

  /** Which piece of evidence allows the stop: the time it was written. */
  function Evidence(disk: Disk, session: Session, since: Option<Time>): Option<Time>
  {
    if FreshFor(disk.activity, session, since) then Some(disk.activity.value.mtime)
    else if FreshFor(disk.wakeup, session, since) then Some(disk.wakeup.value.mtime)
    else if ArtifactHolds(FreshDeclaration(disk.declaration, since), since) then Some(disk.declaration.value.mtime)
    else None
  }

  function OrchestratorStep(file: StateFile, stop: Stop): (StateFile, Decision)
    requires stop.claim.Some?
  {
    if file.Broken? || stop.raises.BeforeSave? || stop.claim.value.Malformed? then (file, Block)
    else
      var since := Floor(EntryOf(file, stop.session).lastStop, stop.claim.value);
      (Saved(file, stop.session, Entry(stop.now, 0), stop.lands),
       if !stop.tooLong && Evidence(stop.disk, stop.session, since).Some? && stop.raises.NoRaise? then Allow else Block)
  }

  // ---- the authority branch ------------------------------------------------

  predicate HasAWayOut(stop: Stop, since: Option<Time>)
  {
    var declared := FreshDeclaration(stop.disk.declaration, since);
    || (declared.Fields? && declared.condition in STOP_CONDITIONS)
    || stop.work.Unjudgeable?
    || (stop.work.remaining == 0 && stop.work.batch == 0)
    || FreshFor(stop.disk.wakeup, stop.session, since)
  }

  function AuthorityStep(file: StateFile, stop: Stop): (StateFile, Decision)
  {
    if !stop.holdsAuthority || file.Broken? || stop.raises.BeforeSave? then (file, Allow)
    else
      var entry := EntryOf(file, stop.session);
      if entry.blocks >= MAX_CONSECUTIVE_BLOCKS || (!stop.tooLong && HasAWayOut(stop, Some(entry.lastStop))) then
        (Saved(file, stop.session, Entry(stop.now, 0), stop.lands), Allow)
      else
        (Saved(file, stop.session, Entry(stop.now, entry.blocks + 1), stop.lands), if stop.raises.NoRaise? then Block else Allow)
  }

  function Step(file: StateFile, stop: Stop): (StateFile, Decision)
  {
    if stop.claim.Some? then OrchestratorStep(file, stop) else AuthorityStep(file, stop)
  }

  class Gate {
    var file: StateFile

    method OnStop(stop: Stop) returns (decision: Decision)
      modifies this
      ensures (file, decision) == Step(old(file), stop)
    {
      if stop.claim.Some? {
        decision := RunOrchestratorBranch(stop);
      } else {
        decision := RunAuthorityBranch(stop);
      }
    }

    method Save(session: Session, lastStop: Time, blocks: nat, lands: bool)
      modifies this
      ensures file == Saved(old(file), session, Entry(lastStop, blocks), lands)
    {
      var blob := if file.Entries? then file.entries else map[];
      blob := blob[session := Entry(lastStop, blocks)];
      if lands {
        file := Entries(blob);
      }
    }

    method RunOrchestratorBranch(stop: Stop) returns (decision: Decision)
      requires stop.claim.Some?
      modifies this
      ensures (file, decision) == OrchestratorStep(old(file), stop)
    {
      if file.Broken? || stop.raises.BeforeSave? {
        return Block;
      }
      var st := EntryOf(file, stop.session);
      if stop.claim.value.Malformed? {
        return Block;
      }
      var since := Floor(st.lastStop, stop.claim.value);
      if stop.tooLong {
        Save(stop.session, stop.now, 0, stop.lands);
        return Block;
      }
      decision := OrchestratorTurnCheck(stop.disk, stop.session, since);
      Save(stop.session, stop.now, 0, stop.lands);
      if stop.raises.AfterSave? {
        decision := Block;
      }
    }

    method OrchestratorTurnCheck(disk: Disk, session: Session, since: Option<Time>) returns (decision: Decision)
      ensures decision == if Evidence(disk, session, since).Some? then Allow else Block
    {
      if FreshFor(disk.activity, session, since) {
        return Allow;
      }
      if FreshFor(disk.wakeup, session, since) {
        return Allow;
      }
      var declared := FreshDeclaration(disk.declaration, since);
      if declared != Nothing {
        return if ArtifactHolds(declared, since) then Allow else Block;
      }
      decision := Block;
    }

    method RunAuthorityBranch(stop: Stop) returns (decision: Decision)
      modifies this
      ensures (file, decision) == AuthorityStep(old(file), stop)
    {
      if !stop.holdsAuthority || file.Broken? || stop.raises.BeforeSave? {
        return Allow;
      }
      var st := EntryOf(file, stop.session);
      var since := Some(st.lastStop);
      if st.blocks >= MAX_CONSECUTIVE_BLOCKS {
        Save(stop.session, stop.now, 0, stop.lands);
        return Allow;
      }
      if stop.tooLong {
        Save(stop.session, stop.now, st.blocks + 1, stop.lands);
        return if stop.raises.AfterSave? then Allow else Block;
      }
      var declared := FreshDeclaration(stop.disk.declaration, since);
      if declared.Fields? && declared.condition in STOP_CONDITIONS {
        Save(stop.session, stop.now, 0, stop.lands);
        return Allow;
      }
      if stop.work.Unjudgeable? || (stop.work.remaining == 0 && stop.work.batch == 0) {
        Save(stop.session, stop.now, 0, stop.lands);
        return Allow;
      }
      if FreshFor(stop.disk.wakeup, stop.session, since) {
        Save(stop.session, stop.now, 0, stop.lands);
        return Allow;
      }
      Save(stop.session, stop.now, st.blocks + 1, stop.lands);
      decision := if stop.raises.AfterSave? then Allow else Block;
    }
  }

  // ---- what a stop decides, written out ------------------------------------

  /** When this session last stopped, and how often in a row it has been blocked; none on record count as never. */
  predicate OnRecord(file: StateFile, session: Session, lastStop: Time, blocks: nat)
  {
    if file.Entries? && session in file.entries
    then lastStop == file.entries[session].lastStop && blocks == file.entries[session].blocks
    else lastStop == 0.0 && blocks == 0
  }

  /** Later than the last stop and than the claim; nothing is later than an infinite claim, and a NaN asks nothing. */
  predicate IsNew(t: Time, lastStop: Time, claimed: ClaimedAt)
  {
    t > lastStop && !claimed.Infinite? && (claimed.At? ==> t > claimed.time)
  }

  /** The session's own marker, or a declared escalation backed by an artifact that is new as well. */
  predicate Shows(stop: Stop, t: Time, lastStop: Time, claimed: ClaimedAt)
  {
    || stop.disk.activity == Some(Marker(t, Some(stop.session)))
    || stop.disk.wakeup == Some(Marker(t, Some(stop.session)))
    || (&& stop.disk.declaration.Some? && stop.disk.declaration.value.mtime == t
        && stop.disk.declaration.value.declared.Fields?
        && var declared := stop.disk.declaration.value.declared;
        && declared.condition in {"E1", "E2", "E3", "E4"}
        && declared.artifact.InProject? && IsNew(declared.artifact.mtime, lastStop, claimed)
        && declared.whyLength >= 12)
  }

  /**
   The orchestrator branch allows a stop exactly when nothing raises, the message is short enough
   and there is evidence newer than the last stop and the claim; and unless it cannot read the state
   or the claim, the stop is recorded with no blocks.
   */
  lemma OrchestratorDecides(file: StateFile, stop: Stop, lastStop: Time, blocks: nat)
    requires stop.claim.Some? && OnRecord(file, stop.session, lastStop, blocks)
    ensures var (after, decision) := Step(file, stop);
      var claimed := stop.claim.value;
      && (decision == Allow <==>
            && !file.Broken? && stop.raises == NoRaise && !stop.tooLong && !claimed.Malformed?
            && exists t :: IsNew(t, lastStop, claimed) && Shows(stop, t, lastStop, claimed))
      && after == (if file.Broken? || stop.raises == BeforeSave || claimed.Malformed? || !stop.lands then file
                   else Entries((if file.Entries? then file.entries else map[])[stop.session := Entry(stop.now, 0)]))
  {
    var claimed := stop.claim.value;
    if !claimed.Malformed? {
      EvidenceIs(stop, lastStop, claimed);
    }
  }

  lemma AfterFloor(t: Time, lastStop: Time, claimed: ClaimedAt)
    requires !claimed.Malformed?
    ensures After(t, Floor(lastStop, claimed)) <==> IsNew(t, lastStop, claimed)
  {
  }

  lemma EvidenceIs(stop: Stop, lastStop: Time, claimed: ClaimedAt)
    requires !claimed.Malformed?
    ensures Evidence(stop.disk, stop.session, Floor(lastStop, claimed)).Some? <==>
            exists t :: IsNew(t, lastStop, claimed) && Shows(stop, t, lastStop, claimed)
  {
    hide After, Floor, IsNew;
    var since := Floor(lastStop, claimed);
    var disk := stop.disk;
    if disk.activity.Some? {
      AfterFloor(disk.activity.value.mtime, lastStop, claimed);
    }
    if disk.wakeup.Some? {
      AfterFloor(disk.wakeup.value.mtime, lastStop, claimed);
    }
    if disk.declaration.Some? {
      AfterFloor(disk.declaration.value.mtime, lastStop, claimed);
      if disk.declaration.value.declared.Fields? && disk.declaration.value.declared.artifact.InProject? {
        AfterFloor(disk.declaration.value.declared.artifact.mtime, lastStop, claimed);
      }
    }
    var found := Evidence(disk, stop.session, since);
    if found.Some? {
      assert Shows(stop, found.value, lastStop, claimed);
    }
  }

  /** A declared stop condition or the session's own wakeup, newer than its last stop; no work left, or work that cannot be judged. */
  predicate MayStop(stop: Stop, lastStop: Time)
  {
    || (stop.disk.declaration.Some? && stop.disk.declaration.value.mtime > lastStop
        && stop.disk.declaration.value.declared.Fields?
        && stop.disk.declaration.value.declared.condition in
             {"discard-completed-work", "land-shared-infra", "gate-kill", "declare-done"})
    || (stop.disk.wakeup.Some? && stop.disk.wakeup.value.mtime > lastStop && stop.disk.wakeup.value.session == Some(stop.session))
    || stop.work == Unjudgeable
    || stop.work == Standing(0, 0)
  }

  /**
   The authority branch blocks exactly when nothing raises, the session holds the authority, it has
   been blocked at most once in a row and its message is too long or it has no reason to stop. A
   recorded stop counts one block more, or none again.
   */
  lemma AuthorityDecides(file: StateFile, stop: Stop, lastStop: Time, blocks: nat)
    requires stop.claim == None && OnRecord(file, stop.session, lastStop, blocks)
    ensures var (after, decision) := Step(file, stop);
      var stands := blocks < 2 && (stop.tooLong || !MayStop(stop, lastStop));
      && (decision == Block <==> stop.holdsAuthority && !file.Broken? && stop.raises == NoRaise && stands)
      && after == (if !stop.holdsAuthority || file.Broken? || stop.raises == BeforeSave || !stop.lands then file
                   else Entries((if file.Entries? then file.entries else map[])
                                [stop.session := Entry(stop.now, if stands then blocks + 1 else 0)]))
  {
  }

  // ---- runs ----------------------------------------------------------------

  function FileAfter(file: StateFile, stops: seq<Stop>): StateFile
  {
    if stops == [] then file else Step(FileAfter(file, stops[..|stops| - 1]), stops[|stops| - 1]).0
  }

  function DecisionAt(file: StateFile, stops: seq<Stop>, i: nat): Decision
    requires i < |stops|
  {
    Step(FileAfter(file, stops[..i]), stops[i]).1
  }

  predicate ClockMovesOn(stops: seq<Stop>)
  {
    forall i, j | 0 <= i < j < |stops| :: stops[i].now <= stops[j].now
  }

  /** No evidence file carries a time past the stop that sees it. */
  predicate NoneFromTheFuture(stop: Stop)
  {
    && (stop.disk.activity.Some? ==> stop.disk.activity.value.mtime <= stop.now)
    && (stop.disk.wakeup.Some? ==> stop.disk.wakeup.value.mtime <= stop.now)
    && (stop.disk.declaration.Some? ==> stop.disk.declaration.value.mtime <= stop.now)
  }

  /** A stop the orchestrator branch allowed this session. */
  predicate AllowedAsOrchestrator(file: StateFile, stops: seq<Stop>, i: nat, session: Session)
    requires i < |stops|
  {
    stops[i].session == session && stops[i].claim.Some? && DecisionAt(file, stops, i) == Allow
  }

  /** When the evidence that allowed it was written. */
  function WitnessAt(file: StateFile, stops: seq<Stop>, i: nat, session: Session): Time
    requires i < |stops| && AllowedAsOrchestrator(file, stops, i, session)
  {
    var last := EntryOf(FileAfter(file, stops[..i]), session).lastStop;
    Evidence(stops[i].disk, session, Floor(last, stops[i].claim.value)).value
  }

  /** The evidence is newer than the last recorded stop and than the claim, and no newer than now. */
  lemma AllowedStopHasNewEvidence(file: StateFile, stops: seq<Stop>, i: nat, session: Session)
    requires i < |stops| && AllowedAsOrchestrator(file, stops, i, session) && NoneFromTheFuture(stops[i])
    ensures var written := WitnessAt(file, stops, i, session);
      && EntryOf(FileAfter(file, stops[..i]), session).lastStop < written <= stops[i].now
      && (stops[i].claim.value.At? ==> stops[i].claim.value.time < written)
  {
  }

  /** An entry only ever moves with its own session's stops. */
  lemma StepKeepsOthers(file: StateFile, stop: Stop, session: Session)
    requires stop.session != session
    ensures EntryOf(Step(file, stop).0, session) == EntryOf(file, session)
  {
  }

  lemma StepMovesLastStop(file: StateFile, stop: Stop, session: Session)
    ensures EntryOf(Step(file, stop).0, session).lastStop in {EntryOf(file, session).lastStop, stop.now}
    ensures stop.session == session && stop.lands && stop.claim.Some? && Step(file, stop).1 == Allow ==>
              EntryOf(Step(file, stop).0, session).lastStop == stop.now
  {
  }

  lemma {:induction false} LastStopNeverGoesBack(file: StateFile, stops: seq<Stop>, i: nat, j: nat, session: Session)
    requires i <= j <= |stops| && ClockMovesOn(stops)
    requires i < |stops| ==> EntryOf(FileAfter(file, stops[..i]), session).lastStop <= stops[i].now
    ensures EntryOf(FileAfter(file, stops[..i]), session).lastStop <= EntryOf(FileAfter(file, stops[..j]), session).lastStop
    ensures j < |stops| ==> EntryOf(FileAfter(file, stops[..j]), session).lastStop <= stops[j].now
    decreases j - i
  {
    hide Step, EntryOf;
    if i < j {
      LastStopNeverGoesBack(file, stops, i, j - 1, session);
      assert stops[..j][..j - 1] == stops[..j - 1];
      StepMovesLastStop(FileAfter(file, stops[..j - 1]), stops[j - 1], session);
    }
  }

  /** Two allowed stops never share their evidence: the later one's was written after the earlier stop. */
  lemma WitnessesAreApart(file: StateFile, stops: seq<Stop>, i: nat, j: nat, session: Session)
    requires i < j < |stops| && ClockMovesOn(stops) && stops[i].lands
    requires NoneFromTheFuture(stops[i]) && NoneFromTheFuture(stops[j])
    requires AllowedAsOrchestrator(file, stops, i, session) && AllowedAsOrchestrator(file, stops, j, session)
    ensures WitnessAt(file, stops, i, session) <= stops[i].now < WitnessAt(file, stops, j, session)
  {
    hide Step, EntryOf, Evidence, Floor, NoneFromTheFuture;
    AllowedStopHasNewEvidence(file, stops, i, session);
    AllowedStopHasNewEvidence(file, stops, j, session);
    StepMovesLastStop(FileAfter(file, stops[..i]), stops[i], session);
    assert stops[..i + 1][..i] == stops[..i];
    LastStopNeverGoesBack(file, stops, i + 1, j, session);
  }

  /** The writes of evidence that the run could see. */
  predicate SeesOnly(stop: Stop, writes: set<Time>)
  {
    && (stop.disk.activity.Some? ==> stop.disk.activity.value.mtime in writes)
    && (stop.disk.wakeup.Some? ==> stop.disk.wakeup.value.mtime in writes)
    && (stop.disk.declaration.Some? ==> stop.disk.declaration.value.mtime in writes)
  }

  function AllowedStops(file: StateFile, stops: seq<Stop>, n: nat, session: Session): set<nat>
    requires n <= |stops|
  {
    set i: nat | i < n && AllowedAsOrchestrator(file, stops, i, session)
  }

  ghost predicate IsWitness(file: StateFile, stops: seq<Stop>, n: nat, session: Session, t: Time)
    requires n <= |stops|
  {
    exists i: nat :: i < n && AllowedAsOrchestrator(file, stops, i, session) && t == WitnessAt(file, stops, i, session)
  }

  lemma AllowedOneMore(file: StateFile, stops: seq<Stop>, n: nat, session: Session)
    requires n < |stops|
    ensures AllowedStops(file, stops, n + 1, session) ==
            AllowedStops(file, stops, n, session) + if AllowedAsOrchestrator(file, stops, n, session) then {n} else {}
    ensures n !in AllowedStops(file, stops, n, session)
  {
    hide AllowedAsOrchestrator;
  }

  lemma WitnessOneMore(file: StateFile, stops: seq<Stop>, n: nat, session: Session, t: Time)
    requires n < |stops|
    ensures IsWitness(file, stops, n, session, t) ==> IsWitness(file, stops, n + 1, session, t)
    ensures AllowedAsOrchestrator(file, stops, n, session) ==>
              IsWitness(file, stops, n + 1, session, WitnessAt(file, stops, n, session))
  {
    hide AllowedAsOrchestrator, WitnessAt;
  }

  /** No earlier stop's evidence is this one's. */
  lemma LatestIsNew(file: StateFile, stops: seq<Stop>, n: nat, session: Session, t: Time)
    requires n < |stops| && ClockMovesOn(stops)
    requires forall stop | stop in stops :: stop.lands && NoneFromTheFuture(stop)
    requires AllowedAsOrchestrator(file, stops, n, session) && IsWitness(file, stops, n, session, t)
    ensures t != WitnessAt(file, stops, n, session)
  {
    hide AllowedAsOrchestrator, WitnessAt, NoneFromTheFuture, ClockMovesOn;
    var i: nat :| i < n && AllowedAsOrchestrator(file, stops, i, session) && t == WitnessAt(file, stops, i, session);
    assert stops[i] in stops && stops[n] in stops;
    WitnessesAreApart(file, stops, i, n, session);
  }

  lemma {:induction false} WitnessesAreAsMany(file: StateFile, stops: seq<Stop>, n: nat, session: Session, writes: set<Time>)
    returns (used: set<Time>)
    requires n <= |stops| && ClockMovesOn(stops)
    requires forall stop | stop in stops :: stop.lands && NoneFromTheFuture(stop) && SeesOnly(stop, writes)
    ensures used <= writes && |used| == |AllowedStops(file, stops, n, session)|
    ensures forall t | t in used :: IsWitness(file, stops, n, session, t)
  {
    hide AllowedAsOrchestrator, WitnessAt, NoneFromTheFuture, SeesOnly, ClockMovesOn, IsWitness, DecisionAt;
    used := {};
    if n > 0 {
      var last := n - 1;
      used := WitnessesAreAsMany(file, stops, last, session, writes);
      AllowedOneMore(file, stops, last, session);
      forall t | t in used ensures IsWitness(file, stops, n, session, t) {
        WitnessOneMore(file, stops, last, session, t);
      }
      if AllowedAsOrchestrator(file, stops, last, session) {
        var latest := WitnessAt(file, stops, last, session);
        assert stops[last] in stops;
        WitnessIsAWrite(file, stops, last, session, writes);
        WitnessOneMore(file, stops, last, session, latest);
        if latest in used {
          LatestIsNew(file, stops, last, session, latest);
        }
        used := used + {latest};
      }
    }
  }

  lemma WitnessIsAWrite(file: StateFile, stops: seq<Stop>, i: nat, session: Session, writes: set<Time>)
    requires i < |stops| && AllowedAsOrchestrator(file, stops, i, session) && SeesOnly(stops[i], writes)
    ensures WitnessAt(file, stops, i, session) in writes
  {
  }

  /**
   Whatever the sessions do in between, a session's allowed orchestrator stops never
   outnumber the writes of evidence there were to see.
   */
  lemma AllowedStopsNeverOutnumberEvidence(file: StateFile, stops: seq<Stop>, session: Session, writes: set<Time>)
    requires ClockMovesOn(stops)
    requires forall stop | stop in stops :: stop.lands && NoneFromTheFuture(stop) && SeesOnly(stop, writes)
    ensures |AllowedStops(file, stops, |stops|, session)| <= |writes|
  {
    hide AllowedStops, WitnessAt, AllowedAsOrchestrator;
    var used := WitnessesAreAsMany(file, stops, |stops|, session, writes);
    assert writes == used + (writes - used);
  }

  /** A state write that fails lets one piece of evidence allow the next stop too. */
  lemma FailedWriteReusesEvidence(file: StateFile, stop: Stop)
    requires stop.claim.Some? && !stop.lands && Step(file, stop).1 == Allow
    ensures DecisionAt(file, [stop, stop], 0) == Allow && DecisionAt(file, [stop, stop], 1) == Allow
  {
  }

  /** A NaN claim time gives no floor: evidence from before the claim allows the first stop, as a real time would not. */
  lemma NaNClaimHasNoFloor(stop: Stop, time: Time)
    requires stop.claim == Some(NotANumber) && stop.raises.NoRaise? && !stop.tooLong
    requires stop.disk.activity == Some(Marker(time, Some(stop.session))) && time > 0.0
    requires stop.disk.wakeup == None && stop.disk.declaration == None
    ensures Step(Entries(map[]), stop).1 == Allow
    ensures forall claimed: Time ::
              Step(Entries(map[]), stop.(claim := Some(At(claimed)))).1 == (if time > claimed then Allow else Block)
  {
  }

  // ---- the ceiling ---------------------------------------------------------

  /** Every stop of the session in the run is blocked on the authority branch. */
  predicate AllBlocked(file: StateFile, stops: seq<Stop>, session: Session)
  {
    forall i: nat | i < |stops| && stops[i].session == session ::
      stops[i].claim == None && DecisionAt(file, stops, i) == Block
  }

  function StopsOf(stops: seq<Stop>, session: Session): nat
  {
    if stops == [] then 0
    else StopsOf(stops[..|stops| - 1], session) + if stops[|stops| - 1].session == session then 1 else 0
  }

  function FailedWrites(stops: seq<Stop>, session: Session): nat
  {
    if stops == [] then 0
    else
      var last := stops[|stops| - 1];
      FailedWrites(stops[..|stops| - 1], session) + if last.session == session && !last.lands then 1 else 0
  }

  lemma BlockedStepCounts(file: StateFile, stop: Stop)
    requires stop.claim == None && Step(file, stop).1 == Block
    ensures var entry := EntryOf(file, stop.session);
      && entry.blocks < MAX_CONSECUTIVE_BLOCKS
      && EntryOf(Step(file, stop).0, stop.session).blocks == entry.blocks + if stop.lands then 1 else 0
  {
  }

  lemma {:induction false} CounterCountsBlocks(file: StateFile, stops: seq<Stop>, session: Session)
    requires AllBlocked(file, stops, session)
    ensures EntryOf(FileAfter(file, stops), session).blocks + FailedWrites(stops, session) ==
            EntryOf(file, session).blocks + StopsOf(stops, session)
    ensures StopsOf(stops, session) > 0 ==>
              EntryOf(FileAfter(file, stops), session).blocks <= MAX_CONSECUTIVE_BLOCKS
  {
    hide Step, EntryOf;
    if stops != [] {
      var last := |stops| - 1;
      forall i: nat | i < last && stops[..last][i].session == session
        ensures stops[..last][i].claim == None && DecisionAt(file, stops[..last], i) == Block
      {
        assert stops[..last][..i] == stops[..i];
        assert stops[i].claim == None && DecisionAt(file, stops, i) == Block;
      }
      CounterCountsBlocks(file, stops[..last], session);
      if stops[last].session == session {
        assert DecisionAt(file, stops, last) == Block;
        BlockedStepCounts(FileAfter(file, stops[..last]), stops[last]);
      } else {
        StepKeepsOthers(FileAfter(file, stops[..last]), stops[last], session);
      }
    }
  }

  /**
   However other sessions interleave, a session is blocked in a row at most as often as the
   ceiling leaves, plus once for every state write that failed.
   */
  lemma BlocksInARowAreBounded(file: StateFile, stops: seq<Stop>, session: Session)
    requires AllBlocked(file, stops, session) && StopsOf(stops, session) > 0
    ensures StopsOf(stops, session) + EntryOf(file, session).blocks <=
            MAX_CONSECUTIVE_BLOCKS + FailedWrites(stops, session)
  {
    CounterCountsBlocks(file, stops, session);
  }

  /** With a state file that cannot be written the ceiling is never reached: every such stop is blocked. */
  lemma {:induction false} UnwritableStateBlocksForever(file: StateFile, stops: seq<Stop>, i: nat)
    requires !file.Broken? && i < |stops|
    requires forall stop | stop in stops ::
               && stop.claim == None && stop.holdsAuthority && stop.raises.NoRaise? && !stop.lands
               && (stop.tooLong || !HasAWayOut(stop, Some(EntryOf(file, stop.session).lastStop)))
               && EntryOf(file, stop.session).blocks < MAX_CONSECUTIVE_BLOCKS
    ensures DecisionAt(file, stops, i) == Block
  {
    hide EntryOf;
    NothingIsSaved(file, stops[..i]);
    assert stops[i] in stops;
  }

  lemma {:induction false} NothingIsSaved(file: StateFile, stops: seq<Stop>)
    requires forall stop | stop in stops :: !stop.lands
    ensures FileAfter(file, stops) == file
  {
    if stops != [] {
      assert stops[|stops| - 1] in stops;
      NothingIsSaved(file, stops[..|stops| - 1]);
    }
  }
}
