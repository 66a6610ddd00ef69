/**
 bollard/goals_freeze_gate.py: the verdict of one payload's write targets, over
 the several projects they may belong to, in three passes; and what
 bollard/hook_common.py makes of an exception (`run_body` fails open).
 */
module FreezeGate {
  import opened Wrappers
  import opened Transcript

  type Target = string
  type Root = string
  type Name = string

  // ---- one component's criteria --------------------------------------------

  /** What is found at a component's criteria path. `NotText` is a file that is not UTF-8. */
  datatype GoalsFile = Missing | Unreadable | NotText | Loaded(value: Json)

  datatype Verdict = Open | Denied | Raised

  /** `_check`: anything but a JSON object, or an integrity block of another type, raises. */
  function Check(hash: Json -> string, file: GoalsFile): Verdict
  {
    match file
    case Missing => Denied
    case Unreadable => Denied
    case NotText => Raised
    case Loaded(Object(goals)) =>
      var integrity := Get(goals, "integrity");
      if Truthy(integrity) && !integrity.Object? then Raised
      else
        var stored := if Truthy(integrity) then Get(integrity.fields, "criteria_hash_at_freeze") else Null;
        var criteria := if Truthy(Get(goals, "criteria")) then Get(goals, "criteria") else Array([]);
        if !Truthy(Get(goals, "criteria_frozen_at")) || !Truthy(stored) then Denied
        else if IsText(stored, hash(criteria)) then Open
        else Denied
    case Loaded(_) => Raised
  }

  /** The criteria a file holds, an absent or empty value counting as none. */
  function CriteriaOf(goals: map<string, Json>): Json
  {
    if Truthy(Get(goals, "criteria")) then Get(goals, "criteria") else Array([])
  }

  /** What a freeze of the criteria leaves in the file. */
  function Frozen(hash: Json -> string, goals: map<string, Json>, at: Json): map<string, Json>
  {
    var digest := Str(hash(CriteriaOf(goals)), true);
    goals["criteria_frozen_at" := at]["integrity" := Object(map["criteria_hash_at_freeze" := digest])]
  }

  /** After a freeze, any edit that leaves the record alone keeps the gate open exactly while the criteria stay as they were. */
  lemma FreezeBindsTheCriteria(hash: Json -> string, goals: map<string, Json>, at: Json, edited: map<string, Json>)
    requires Truthy(at) && forall a, b :: hash(a) == hash(b) ==> a == b
    requires hash(CriteriaOf(goals)) != ""
    requires var frozen := Frozen(hash, goals, at);
      forall name | name in {"criteria_frozen_at", "integrity"} :: Get(edited, name) == Get(frozen, name)
    ensures Check(hash, Loaded(Object(Frozen(hash, goals, at)))) == Open
    ensures Check(hash, Loaded(Object(edited))) == (if CriteriaOf(edited) == CriteriaOf(goals) then Open else Denied)
  {
    var frozen := Frozen(hash, goals, at);
    assert Get(edited, "integrity") == Get(frozen, "integrity");
    assert Get(edited, "criteria_frozen_at") == at;
    var record := map["criteria_hash_at_freeze" := Str(hash(CriteriaOf(goals)), true)];
    assert "criteria_hash_at_freeze" in record;
    assert Get(frozen, "criteria") == Get(goals, "criteria");
  }

  /** The file is an object, was frozen, and its record is the hash of the criteria it holds; no criteria count as []. */
  predicate FrozenAsRecorded(hash: Json -> string, file: GoalsFile)
  {
    && file.Loaded? && file.value.Object?
    && var goals := file.value.fields;
    && "criteria_frozen_at" in goals && Truthy(goals["criteria_frozen_at"])
    && "integrity" in goals && goals["integrity"].Object?
    && "criteria_hash_at_freeze" in goals["integrity"].fields
    && var record := goals["integrity"].fields["criteria_hash_at_freeze"];
    && record.Str? && record.text != ""
    && record.text == hash(if "criteria" in goals && Truthy(goals["criteria"]) then goals["criteria"] else Array([]))
  }

  /** The file is not UTF-8, no object, or its integrity is something and no object. */
  predicate CannotBeJudged(file: GoalsFile)
  {
    || file.NotText?
    || (file.Loaded? && !file.value.Object?)
    || (file.Loaded? && file.value.Object? && "integrity" in file.value.fields
        && Truthy(file.value.fields["integrity"]) && !file.value.fields["integrity"].Object?)
  }

  /** The three answers, from the file: a missing, an unreadable and a never frozen file are denied. */
  lemma CheckIs(hash: Json -> string, file: GoalsFile)
    ensures Check(hash, file) == Open <==> FrozenAsRecorded(hash, file)
    ensures Check(hash, file) == Raised <==> CannotBeJudged(file)
    ensures file.Missing? || file.Unreadable? ==> Check(hash, file) == Denied
    ensures file.Loaded? && file.value.Object? && "criteria_frozen_at" !in file.value.fields && !CannotBeJudged(file) ==>
              Check(hash, file) == Denied
    ensures Check(hash, file) == Denied <==> !FrozenAsRecorded(hash, file) && !CannotBeJudged(file)
  {
  }

  // ---- the payload ---------------------------------------------------------

  /** How one target stands in its own project. `Unclassifiable` is an exception on the way there. */
  datatype Standing = Gated(component: Name) | Loose(undeclared: bool) | Unclassifiable

  /** Per-project state, loaded once a payload. */
  datatype RootState = RootState(malformed: seq<Name>, strict: bool)

  /** Everything the gate reads from the disk. */
  datatype World = World(
    rootOf: Target -> Option<Root>,
    stateOf: Root -> RootState,
    standing: (Root, Target) -> Standing,
    goals: (Root, Name) -> GoalsFile,
    hash: Json -> string)

  predicate In(w: World, root: Root, t: Target)
  {
    w.rootOf(t) == Some(root)
  }

  predicate IsGated(w: World, root: Root, t: Target)
  {
    w.standing(root, t).Gated?
  }

  predicate IsUndeclared(w: World, root: Root, t: Target)
  {
    w.standing(root, t) == Loose(true)
  }

  function CheckTarget(w: World, root: Root, t: Target): Verdict
    requires IsGated(w, root, t)
  {
    Check(w.hash, w.goals(root, w.standing(root, t).component))
  }

  // ---- grouping ------------------------------------------------------------

  datatype Group = Group(root: Root, gated: seq<Target>, loose: seq<Target>)

  function AddTo(w: World, groups: seq<Group>, root: Root, t: Target): seq<Group>
  {
    if groups == [] then [Filed(w, Group(root, [], []), t)]
    else if groups[0].root == root then [Filed(w, groups[0], t)] + groups[1..]
    else [groups[0]] + AddTo(w, groups[1..], root, t)
  }

  function Filed(w: World, g: Group, t: Target): Group
  {
    if IsGated(w, g.root, t) then g.(gated := g.gated + [t]) else g.(loose := g.loose + [t])
  }

  /** Projects in order of first mention, each with its targets in order. */
  function Groups(w: World, targets: seq<Target>): seq<Group>
  {
    if targets == [] then []
    else
      var last := targets[|targets| - 1];
      var groups := Groups(w, targets[..|targets| - 1]);
      match w.rootOf(last) case None => groups case Some(root) => AddTo(w, groups, root, last)
  }

  predicate Breaks(w: World, t: Target)
  {
    w.rootOf(t).Some? && w.standing(w.rootOf(t).value, t).Unclassifiable?
  }

  predicate AnyBreaks(w: World, targets: seq<Target>)
  {
    exists t :: t in targets && Breaks(w, t)
  }

  // ---- the three passes ----------------------------------------------------

  datatype Reason = MalformedMap | UndeclaredPath | CriteriaNotFrozen

  datatype Deny = Deny(root: Root, target: Target, reason: Reason)

  /** `Crashed` is an exception; the hook then emits no decision and the tool proceeds. */
  datatype Outcome = Silent | Denies(deny: Deny) | Crashed

  predicate HidesMalformed(w: World, g: Group)
  {
    g.gated == [] && w.stateOf(g.root).malformed != [] && g.loose != []
  }

  function FirstUndeclared(w: World, root: Root, loose: seq<Target>): Option<Target>
  {
    if loose == [] then None
    else if IsUndeclared(w, root, loose[0]) then Some(loose[0])
    else FirstUndeclared(w, root, loose[1..])
  }

  function MalformedPass(w: World, groups: seq<Group>): Outcome
  {
    if groups == [] then Silent
    else if HidesMalformed(w, groups[0]) then Denies(Deny(groups[0].root, groups[0].loose[0], MalformedMap))
    else MalformedPass(w, groups[1..])
  }

  function StrictPass(w: World, groups: seq<Group>): Outcome
  {
    if groups == [] then Silent
    else
      var undeclared := FirstUndeclared(w, groups[0].root, groups[0].loose);
      if w.stateOf(groups[0].root).strict && undeclared.Some? then
        Denies(Deny(groups[0].root, undeclared.value, UndeclaredPath))
      else StrictPass(w, groups[1..])
  }

  function CheckAll(w: World, root: Root, gated: seq<Target>): Outcome
    requires forall t | t in gated :: IsGated(w, root, t)
  {
    if gated == [] then Silent
    else
      match CheckTarget(w, root, gated[0])
      case Denied => Denies(Deny(root, gated[0], CriteriaNotFrozen))
      case Raised => Crashed
      case Open => CheckAll(w, root, gated[1..])
  }

  predicate Sorted(w: World, groups: seq<Group>)
  {
    forall g | g in groups :: forall t | t in g.gated :: IsGated(w, g.root, t)
  }

  function CriteriaPass(w: World, groups: seq<Group>): Outcome
    requires Sorted(w, groups)
  {
    if groups == [] then Silent
    else
      var first := CheckAll(w, groups[0].root, groups[0].gated);
      if first.Silent? then CriteriaPass(w, groups[1..]) else first
  }

  function Decide(w: World, targets: seq<Target>): Outcome
  {
    GroupsAreSorted(w, targets);
    var groups := Groups(w, targets);
    if AnyBreaks(w, targets) then Crashed
    else
      var malformed := MalformedPass(w, groups);
      if !malformed.Silent? then malformed
      else
        var strict := StrictPass(w, groups);
        if !strict.Silent? then strict else CriteriaPass(w, groups)
  }

  lemma {:induction false} GroupsAreSorted(w: World, targets: seq<Target>)
    ensures Sorted(w, Groups(w, targets))
  {
    if targets != [] {
      var last := targets[|targets| - 1];
      GroupsAreSorted(w, targets[..|targets| - 1]);
      if w.rootOf(last).Some? {
        AddKeepsSorted(w, Groups(w, targets[..|targets| - 1]), w.rootOf(last).value, last);
      }
    }
  }

  lemma {:induction false} AddKeepsSorted(w: World, groups: seq<Group>, root: Root, t: Target)
    requires Sorted(w, groups)
    ensures Sorted(w, AddTo(w, groups, root, t))
  {
    if groups != [] && groups[0].root != root {
      AddKeepsSorted(w, groups[1..], root, t);
    }
  }

  // ---- the program ---------------------------------------------------------

  class Hook {
    var emitted: seq<Deny>

    method Emit(deny: Deny)
      modifies this
      ensures emitted == old(emitted) + [deny]
    {
      emitted := emitted + [deny];
    }

    /** `main`, under `run_body`: what it emits is the payload's whole decision, at most one deny. */
    method Run(w: World, targets: seq<Target>)
      modifies this
      ensures emitted == old(emitted) + if Decide(w, targets).Denies? then [Decide(w, targets).deny] else []
    {
      hide MalformedPass, StrictPass, CriteriaPass, Groups;
      GroupsAreSorted(w, targets);
      var ok, groups := ClassifyTargets(w, targets);
      if !ok {
        return;
      }
      var malformed := RunMalformedPass(w, groups);
      if malformed.Some? {
        Emit(malformed.value);
        return;
      }
      var strict := RunStrictPass(w, groups);
      if strict.Some? {
        Emit(strict.value);
        return;
      }
      var outcome := RunCriteriaPass(w, groups);
      if outcome.Denies? {
        Emit(outcome.deny);
      }
    }
  }

  method ClassifyTargets(w: World, targets: seq<Target>) returns (ok: bool, groups: seq<Group>)
    ensures ok == !AnyBreaks(w, targets)
    ensures ok ==> groups == Groups(w, targets)
  {
    groups := [];
    for i := 0 to |targets|
      invariant groups == Groups(w, targets[..i]) && !AnyBreaks(w, targets[..i])
    {
      assert targets[..i + 1][..i] == targets[..i];
      var root := w.rootOf(targets[i]);
      if root.Some? {
        if w.standing(root.value, targets[i]).Unclassifiable? {
          assert targets[i] in targets && Breaks(w, targets[i]);
          return false, groups;
        }
        groups := AddTo(w, groups, root.value, targets[i]);
      }
      assert targets[..i + 1] == targets[..i] + [targets[i]];
    }
    assert targets[..|targets|] == targets;
    ok := true;
  }

  method RunMalformedPass(w: World, groups: seq<Group>) returns (deny: Option<Deny>)
    ensures MalformedPass(w, groups) == if deny.Some? then Denies(deny.value) else Silent
  {
    for i := 0 to |groups|
      invariant MalformedPass(w, groups) == MalformedPass(w, groups[i..])
    {
      assert groups[i..][0] == groups[i] && groups[i..][1..] == groups[i + 1..];
      var g := groups[i];
      if g.gated == [] && w.stateOf(g.root).malformed != [] && g.loose != [] {
        return Some(Deny(g.root, g.loose[0], MalformedMap));
      }
    }
    deny := None;
  }

  method RunStrictPass(w: World, groups: seq<Group>) returns (deny: Option<Deny>)
    ensures StrictPass(w, groups) == if deny.Some? then Denies(deny.value) else Silent
  {
    for i := 0 to |groups|
      invariant StrictPass(w, groups) == StrictPass(w, groups[i..])
    {
      assert groups[i..][0] == groups[i] && groups[i..][1..] == groups[i + 1..];
      var g := groups[i];
      var undeclared := FirstUndeclared(w, g.root, g.loose);
      if undeclared.Some? {
        if w.stateOf(g.root).strict {
          return Some(Deny(g.root, undeclared.value, UndeclaredPath));
        }
      }
    }
    deny := None;
  }

  method RunCriteriaPass(w: World, groups: seq<Group>) returns (outcome: Outcome)
    requires Sorted(w, groups)
    ensures outcome == CriteriaPass(w, groups)
  {
    for i := 0 to |groups|
      invariant CriteriaPass(w, groups) == CriteriaPass(w, groups[i..])
    {
      var g := groups[i];
      assert g in groups && groups[i..][0] == g && groups[i..][1..] == groups[i + 1..];
      for j := 0 to |g.gated|
        invariant CheckAll(w, g.root, g.gated) == CheckAll(w, g.root, g.gated[j..])
      {
        assert g.gated[j..][0] == g.gated[j] && g.gated[j..][1..] == g.gated[j + 1..];
        match CheckTarget(w, g.root, g.gated[j]) {
          case Denied => return Denies(Deny(g.root, g.gated[j], CriteriaNotFrozen));
          case Raised => return Crashed;
          case Open =>
        }
      }
    }
    outcome := Silent;
  }

  // ---- what the groups hold ------------------------------------------------

  ghost predicate Holds(w: World, g: Group, targets: seq<Target>)
  {
    && (forall t :: t in g.gated <==> t in targets && In(w, g.root, t) && IsGated(w, g.root, t))
    && (forall t :: t in g.loose <==> t in targets && In(w, g.root, t) && !IsGated(w, g.root, t))
  }

  predicate HasRoot(groups: seq<Group>, root: Root)
  {
    exists g :: g in groups && g.root == root
  }

  /** Every target is in its project's group, and nothing else is. */
  ghost predicate Partition(w: World, groups: seq<Group>, targets: seq<Target>)
  {
    && (forall g | g in groups :: Holds(w, g, targets))
    && (forall root :: HasRoot(groups, root) <==> exists t :: t in targets && In(w, root, t))
    && (forall i, j | 0 <= i < j < |groups| :: groups[i].root != groups[j].root)
  }

  lemma {:induction false} GroupsPartition(w: World, targets: seq<Target>)
    ensures Partition(w, Groups(w, targets), targets)
  {
    hide Holds, HasRoot, AddTo;
    if targets == [] {
      NothingToHold(w);
    } else {
      var before, last := targets[..|targets| - 1], targets[|targets| - 1];
      var groups := Groups(w, before);
      GroupsPartition(w, before);
      assert targets == before + [last];
      match w.rootOf(last) {
        case None => OutsideChangesNothing(w, groups, before, last);
        case Some(root) => AddPartitions(w, groups, before, root, last);
      }
    }
  }

  lemma NothingToHold(w: World)
    ensures Partition(w, [], [])
  {
  }

  lemma OutsideChangesNothing(w: World, groups: seq<Group>, before: seq<Target>, t: Target)
    requires Partition(w, groups, before) && w.rootOf(t) == None
    ensures Partition(w, groups, before + [t])
  {
  }

  /** Where `AddTo` puts a target: in its project's group, or in a new last one. */
  lemma {:induction false} AddToAt(w: World, groups: seq<Group>, root: Root, t: Target) returns (k: nat)
    requires forall i, j | 0 <= i < j < |groups| :: groups[i].root != groups[j].root
    ensures k <= |groups|
    ensures forall i | 0 <= i < |groups| && i != k :: groups[i].root != root
    ensures k < |groups| ==> groups[k].root == root && AddTo(w, groups, root, t) == groups[k := Filed(w, groups[k], t)]
    ensures k == |groups| ==> AddTo(w, groups, root, t) == groups + [Filed(w, Group(root, [], []), t)]
  {
    hide AddTo, Filed;
    AddToStep(w, groups, root, t);
    if groups == [] || groups[0].root == root {
      k := 0;
    } else {
      var tail := groups[1..];
      var rest := AddToAt(w, tail, root, t);
      k := rest + 1;
      assert forall i | 1 <= i < |groups| :: groups[i] == tail[i - 1];
      assert rest < |tail| ==>
        [groups[0]] + tail[rest := Filed(w, tail[rest], t)] == groups[k := Filed(w, groups[k], t)];
    }
  }

  lemma AddToStep(w: World, groups: seq<Group>, root: Root, t: Target)
    ensures groups == [] ==> AddTo(w, groups, root, t) == [] + [Filed(w, Group(root, [], []), t)]
    ensures groups != [] && groups[0].root == root ==> AddTo(w, groups, root, t) == groups[0 := Filed(w, groups[0], t)]
    ensures groups != [] && groups[0].root != root ==>
              AddTo(w, groups, root, t) == [groups[0]] + AddTo(w, groups[1..], root, t)
  {
  }

  lemma FiledHolds(w: World, g: Group, before: seq<Target>, t: Target)
    requires Holds(w, g, before) && In(w, g.root, t)
    ensures Holds(w, Filed(w, g, t), before + [t])
  {
  }

  lemma OtherHolds(w: World, g: Group, before: seq<Target>, t: Target)
    requires Holds(w, g, before) && !In(w, g.root, t)
    ensures Holds(w, g, before + [t])
  {
  }

  lemma AddPartitions(w: World, groups: seq<Group>, before: seq<Target>, root: Root, t: Target)
    requires Partition(w, groups, before) && In(w, root, t)
    ensures Partition(w, AddTo(w, groups, root, t), before + [t])
  {
    hide Holds, AddTo, Filed;
    var k := AddToAt(w, groups, root, t);
    var more := AddTo(w, groups, root, t);
    FiledKeepsRoot(w, Group(root, [], []), t);
    if k < |groups| {
      FiledKeepsRoot(w, groups[k], t);
      FiledHolds(w, groups[k], before, t);
    } else {
      assert !HasRoot(groups, root);
      EmptyHolds(w, root, before);
      FiledHolds(w, Group(root, [], []), before, t);
    }
    forall g | g in more
      ensures Holds(w, g, before + [t])
    {
      var i :| 0 <= i < |more| && more[i] == g;
      if i != k {
        OtherHolds(w, groups[i], before, t);
      }
    }
    forall other
      ensures HasRoot(more, other) <==> exists u :: u in before + [t] && In(w, other, u)
    {
      RootsAfterAdd(w, groups, more, k, root, other);
      if u :| u in before && In(w, other, u) {
        assert u in before + [t];
      }
      assert t in before + [t];
    }
  }

  lemma FiledKeepsRoot(w: World, g: Group, t: Target)
    ensures Filed(w, g, t).root == g.root
  {
  }

  lemma EmptyHolds(w: World, root: Root, targets: seq<Target>)
    requires forall t | t in targets :: !In(w, root, t)
    ensures Holds(w, Group(root, [], []), targets)
  {
  }

  lemma RootsAfterAdd(w: World, groups: seq<Group>, more: seq<Group>, k: nat, root: Root, other: Root)
    requires |groups| <= |more| && k < |more| && more[k].root == root
    requires forall i | 0 <= i < |more| && i != k :: i < |groups| && more[i] == groups[i]
    requires k < |groups| ==> groups[k].root == root
    ensures HasRoot(more, other) <==> HasRoot(groups, other) || other == root
  {
  }

  /** The projects that own targets, in the order they are first mentioned. */
  function Mentioned(w: World, targets: seq<Target>): seq<Root>
  {
    if targets == [] then []
    else
      var before, root := Mentioned(w, targets[..|targets| - 1]), w.rootOf(targets[|targets| - 1]);
      if root.Some? && root.value !in before then before + [root.value] else before
  }

  /** The project's gated targets, or its others, in the payload's order. */
  function Picked(w: World, targets: seq<Target>, root: Root, gated: bool): seq<Target>
  {
    if targets == [] then []
    else
      var before, t := Picked(w, targets[..|targets| - 1], root, gated), targets[|targets| - 1];
      if w.rootOf(t) == Some(root) && w.standing(root, t).Gated? == gated then before + [t] else before
  }

  ghost predicate InOrder(w: World, groups: seq<Group>, targets: seq<Target>)
  {
    var roots := Mentioned(w, targets);
    && |groups| == |roots|
    && forall i | 0 <= i < |groups| ::
         && groups[i].root == roots[i]
         && groups[i].gated == Picked(w, targets, roots[i], true)
         && groups[i].loose == Picked(w, targets, roots[i], false)
  }

  lemma {:induction false} NotMentionedNotPicked(w: World, targets: seq<Target>, root: Root, gated: bool)
    requires root !in Mentioned(w, targets)
    ensures Picked(w, targets, root, gated) == []
  {
    if targets != [] {
      NotMentionedNotPicked(w, targets[..|targets| - 1], root, gated);
    }
  }

  lemma OneMorePicked(w: World, before: seq<Target>, t: Target, root: Root, gated: bool)
    ensures Picked(w, before + [t], root, gated) ==
            Picked(w, before, root, gated) + if w.rootOf(t) == Some(root) && w.standing(root, t).Gated? == gated then [t] else []
    ensures Mentioned(w, before + [t]) ==
            Mentioned(w, before) +
            if w.rootOf(t).Some? && w.rootOf(t).value !in Mentioned(w, before) then [w.rootOf(t).value] else []
  {
    assert (before + [t])[..|before|] == before;
    assert Picked(w, before, root, gated) + [] == Picked(w, before, root, gated);
    assert Mentioned(w, before) + [] == Mentioned(w, before);
  }

  /** The groups stand in order of first mention, and each holds its targets in the payload's order. */
  lemma {:induction false} GroupsKeepOrder(w: World, targets: seq<Target>)
    ensures InOrder(w, Groups(w, targets), targets)
  {
    hide AddTo, Picked, Mentioned;
    if targets == [] {
      NothingInOrder(w);
    } else {
      var before, last := targets[..|targets| - 1], targets[|targets| - 1];
      GroupsKeepOrder(w, before);
      assert targets == before + [last];
      AddKeepsOrder(w, Groups(w, before), before, last);
    }
  }

  lemma NothingInOrder(w: World)
    ensures InOrder(w, [], [])
  {
  }

  lemma AddKeepsOrder(w: World, groups: seq<Group>, before: seq<Target>, t: Target)
    requires InOrder(w, groups, before) && groups == Groups(w, before)
    ensures InOrder(w, match w.rootOf(t) case None => groups case Some(root) => AddTo(w, groups, root, t), before + [t])
  {
    hide AddTo, Picked, Mentioned, Groups;
    GroupsPartition(w, before);
    forall root, gated {
      OneMorePicked(w, before, t, root, gated);
    }
    OneMorePicked(w, before, t, "", true);
    var roots := Mentioned(w, before);
    if w.rootOf(t).Some? {
      var root := w.rootOf(t).value;
      var k := AddToAt(w, groups, root, t);
      if k < |groups| {
        assert roots[k] in roots;
      } else {
        assert forall i | 0 <= i < |roots| :: roots[i] != root;
        NotMentionedNotPicked(w, before, root, true);
        NotMentionedNotPicked(w, before, root, false);
      }
    }
  }

  // ---- the closed form -----------------------------------------------------

  /** Some write may belong to a component whose declaration did not parse. */
  ghost predicate MalformedIn(w: World, targets: seq<Target>, root: Root)
  {
    && w.stateOf(root).malformed != []
    && (forall t | t in targets && w.rootOf(t) == Some(root) :: !w.standing(root, t).Gated?)
    && (exists t :: t in targets && w.rootOf(t) == Some(root))
  }

  ghost predicate UndeclaredIn(w: World, targets: seq<Target>, root: Root)
  {
    w.stateOf(root).strict && exists t :: t in targets && w.rootOf(t) == Some(root) && w.standing(root, t) == Loose(true)
  }

  predicate ChecksTo(w: World, t: Target, verdict: Verdict)
  {
    w.rootOf(t).Some? && IsGated(w, w.rootOf(t).value, t) && CheckTarget(w, w.rootOf(t).value, t) == verdict
  }

  ghost predicate SomeCheck(w: World, targets: seq<Target>, verdict: Verdict)
  {
    exists t :: t in targets && ChecksTo(w, t, verdict)
  }

  /** A deny that no check has to decide. */
  ghost predicate DeniedOutright(w: World, targets: seq<Target>)
  {
    exists root :: MalformedIn(w, targets, root) || UndeclaredIn(w, targets, root)
  }

  /** The criteria file of a gated target. */
  predicate JudgedBy(w: World, t: Target, file: GoalsFile)
  {
    w.rootOf(t).Some? &&
    match w.standing(w.rootOf(t).value, t)
    case Gated(component) => file == w.goals(w.rootOf(t).value, component)
    case _ => false
  }

  ghost predicate SomeNotFrozen(w: World, targets: seq<Target>)
  {
    exists t, file :: t in targets && JudgedBy(w, t, file) && !FrozenAsRecorded(w.hash, file) && !CannotBeJudged(file)
  }

  ghost predicate SomeUnjudgeable(w: World, targets: seq<Target>)
  {
    exists t, file :: t in targets && JudgedBy(w, t, file) && CannotBeJudged(file)
  }

  lemma ChecksAre(w: World, t: Target)
    ensures ChecksTo(w, t, Denied) <==>
            exists file :: JudgedBy(w, t, file) && !FrozenAsRecorded(w.hash, file) && !CannotBeJudged(file)
    ensures ChecksTo(w, t, Raised) <==> exists file :: JudgedBy(w, t, file) && CannotBeJudged(file)
  {
    hide Check, FrozenAsRecorded, CannotBeJudged;
    if w.rootOf(t).Some? && IsGated(w, w.rootOf(t).value, t) {
      var file := w.goals(w.rootOf(t).value, w.standing(w.rootOf(t).value, t).component);
      assert JudgedBy(w, t, file);
      CheckIs(w.hash, file);
    }
  }

  lemma SomeChecksAre(w: World, targets: seq<Target>)
    ensures SomeCheck(w, targets, Denied) <==> SomeNotFrozen(w, targets)
    ensures SomeCheck(w, targets, Raised) <==> SomeUnjudgeable(w, targets)
  {
    hide ChecksTo, JudgedBy, FrozenAsRecorded, CannotBeJudged;
    forall t | t in targets {
      ChecksAre(w, t);
    }
    if t :| t in targets && ChecksTo(w, t, Denied) {
      ChecksAre(w, t);
    }
    if t :| t in targets && ChecksTo(w, t, Raised) {
      ChecksAre(w, t);
    }
    if t, file :| t in targets && JudgedBy(w, t, file) && !FrozenAsRecorded(w.hash, file) && !CannotBeJudged(file) {
      ChecksAre(w, t);
    }
    if t, file :| t in targets && JudgedBy(w, t, file) && CannotBeJudged(file) {
      ChecksAre(w, t);
    }
  }

  lemma {:induction false} MalformedPassDenies(w: World, groups: seq<Group>)
    ensures MalformedPass(w, groups).Silent? || MalformedPass(w, groups).Denies?
    ensures MalformedPass(w, groups).Denies? <==> exists g :: g in groups && HidesMalformed(w, g)
  {
    if groups != [] {
      MalformedPassDenies(w, groups[1..]);
    }
  }

  lemma {:induction false} FirstUndeclaredFinds(w: World, root: Root, loose: seq<Target>)
    ensures FirstUndeclared(w, root, loose).Some? <==> exists t :: t in loose && IsUndeclared(w, root, t)
  {
    if loose != [] {
      FirstUndeclaredFinds(w, root, loose[1..]);
    }
  }

  predicate StrictHit(w: World, g: Group)
  {
    w.stateOf(g.root).strict && exists t :: t in g.loose && IsUndeclared(w, g.root, t)
  }

  lemma StrictHitIsFound(w: World, g: Group)
    ensures StrictHit(w, g) <==> w.stateOf(g.root).strict && FirstUndeclared(w, g.root, g.loose).Some?
  {
    FirstUndeclaredFinds(w, g.root, g.loose);
  }

  lemma {:induction false} StrictPassDenies(w: World, groups: seq<Group>)
    ensures StrictPass(w, groups).Silent? || StrictPass(w, groups).Denies?
    ensures StrictPass(w, groups).Denies? <==> exists g :: g in groups && StrictHit(w, g)
  {
    hide StrictHit, FirstUndeclared;
    if groups != [] {
      StrictPassDenies(w, groups[1..]);
      StrictHitIsFound(w, groups[0]);
      assert groups == [groups[0]] + groups[1..];
    }
  }

  lemma {:induction false} CheckAllDecides(w: World, root: Root, gated: seq<Target>)
    requires forall t | t in gated :: IsGated(w, root, t)
    ensures var o := CheckAll(w, root, gated);
      && (o.Silent? <==> forall t | t in gated :: CheckTarget(w, root, t) == Open)
      && (o.Denies? ==> exists t :: t in gated && CheckTarget(w, root, t) == Denied)
      && (o.Crashed? ==> exists t :: t in gated && CheckTarget(w, root, t) == Raised)
  {
    hide CheckTarget;
    if gated != [] {
      CheckAllDecides(w, root, gated[1..]);
    }
  }

  ghost predicate GroupCheck(w: World, g: Group, verdict: Verdict)
  {
    exists t :: t in g.gated && IsGated(w, g.root, t) && CheckTarget(w, g.root, t) == verdict
  }

  lemma {:induction false} CriteriaPassDecides(w: World, groups: seq<Group>)
    requires Sorted(w, groups)
    ensures var o := CriteriaPass(w, groups);
      && (o.Silent? <==> forall g | g in groups :: !GroupCheck(w, g, Denied) && !GroupCheck(w, g, Raised))
      && (o.Denies? ==> exists g :: g in groups && GroupCheck(w, g, Denied))
      && (o.Crashed? ==> exists g :: g in groups && GroupCheck(w, g, Raised))
  {
    hide CheckTarget;
    if groups != [] {
      var g := groups[0];
      CheckAllDecides(w, g.root, g.gated);
      assert g in groups;
      CriteriaPassDecides(w, groups[1..]);
      assert groups == [g] + groups[1..];
      assert (forall t | t in g.gated :: CheckTarget(w, g.root, t) == Open)
             <==> !GroupCheck(w, g, Denied) && !GroupCheck(w, g, Raised);
    }
  }

  lemma GroupChecksAreChecks(w: World, targets: seq<Target>, verdict: Verdict)
    ensures (exists g :: g in Groups(w, targets) && GroupCheck(w, g, verdict)) <==> SomeCheck(w, targets, verdict)
  {
    hide Groups, CheckTarget;
    var groups := Groups(w, targets);
    GroupsPartition(w, targets);
    if g :| g in groups && GroupCheck(w, g, verdict) {
      var t :| t in g.gated && IsGated(w, g.root, t) && CheckTarget(w, g.root, t) == verdict;
      assert Holds(w, g, targets) && ChecksTo(w, t, verdict);
    }
    if t :| t in targets && ChecksTo(w, t, verdict) {
      var root := w.rootOf(t).value;
      assert In(w, root, t) && HasRoot(groups, root);
      var g :| g in groups && g.root == root;
      assert Holds(w, g, targets);
      assert GroupCheck(w, g, verdict);
    }
  }

  lemma OutrightIsTheFirstTwoPasses(w: World, targets: seq<Target>)
    ensures DeniedOutright(w, targets) <==>
            !MalformedPass(w, Groups(w, targets)).Silent? || !StrictPass(w, Groups(w, targets)).Silent?
  {
    hide Groups, MalformedPass, StrictPass;
    var groups := Groups(w, targets);
    GroupsPartition(w, targets);
    MalformedPassDenies(w, groups);
    StrictPassDenies(w, groups);
    forall g | g in groups
      ensures HidesMalformed(w, g) == MalformedIn(w, targets, g.root)
      ensures StrictHit(w, g) == UndeclaredIn(w, targets, g.root)
    {
      HeldGroup(w, g, targets);
    }
    if root :| MalformedIn(w, targets, root) || UndeclaredIn(w, targets, root) {
      assert exists t :: t in targets && In(w, root, t);
      assert HasRoot(groups, root);
    }
  }

  lemma HeldGroup(w: World, g: Group, targets: seq<Target>)
    requires Holds(w, g, targets)
    ensures HidesMalformed(w, g) == MalformedIn(w, targets, g.root)
    ensures StrictHit(w, g) == UndeclaredIn(w, targets, g.root)
  {
    if g.gated != [] {
      assert g.gated[0] in g.gated;
    }
    if g.loose != [] {
      assert g.loose[0] in g.loose;
    }
  }

  /**
   The three passes, as one condition on the set of targets. Unless something raises, the gate
   denies exactly when some project hides a target behind a malformed declaration, is strict
   about an undeclared one, or has a gated one whose criteria are not frozen as recorded.
   */
  lemma DenyClosedForm(w: World, targets: seq<Target>)
    ensures SomeUnclassifiable(w, targets) ==> Decide(w, targets) == Crashed
    ensures !SomeUnclassifiable(w, targets) && DeniedOutright(w, targets) ==> Decide(w, targets).Denies?
    ensures !SomeUnclassifiable(w, targets) && !DeniedOutright(w, targets) ==>
              && (!SomeUnjudgeable(w, targets) ==> (Decide(w, targets).Denies? <==> SomeNotFrozen(w, targets)))
              && (!SomeNotFrozen(w, targets) ==> !Decide(w, targets).Denies?)
  {
    hide Decide, SomeCheck, DeniedOutright, SomeNotFrozen, SomeUnjudgeable;
    DecideByChecks(w, targets);
    SomeChecksAre(w, targets);
    BreaksAre(w, targets);
  }

  ghost predicate SomeUnclassifiable(w: World, targets: seq<Target>)
  {
    exists t, root :: t in targets && w.rootOf(t) == Some(root) && w.standing(root, t) == Unclassifiable
  }

  lemma BreaksAre(w: World, targets: seq<Target>)
    ensures AnyBreaks(w, targets) <==> SomeUnclassifiable(w, targets)
  {
    if t :| t in targets && Breaks(w, t) {
      assert w.rootOf(t) == Some(w.rootOf(t).value) && w.standing(w.rootOf(t).value, t) == Unclassifiable;
    }
    if t, root :| t in targets && w.rootOf(t) == Some(root) && w.standing(root, t) == Unclassifiable {
      assert Breaks(w, t);
    }
  }

  lemma DecideByChecks(w: World, targets: seq<Target>)
    ensures AnyBreaks(w, targets) ==> Decide(w, targets) == Crashed
    ensures !AnyBreaks(w, targets) && DeniedOutright(w, targets) ==> Decide(w, targets).Denies?
    ensures !AnyBreaks(w, targets) && !DeniedOutright(w, targets) ==>
              && (!SomeCheck(w, targets, Raised) ==> (Decide(w, targets).Denies? <==> SomeCheck(w, targets, Denied)))
              && (!SomeCheck(w, targets, Denied) ==> !Decide(w, targets).Denies?)
  {
    hide Groups, MalformedPass, StrictPass, CriteriaPass, SomeCheck, DeniedOutright, AnyBreaks;
    var groups := Groups(w, targets);
    GroupsAreSorted(w, targets);
    MalformedPassDenies(w, groups);
    StrictPassDenies(w, groups);
    OutrightIsTheFirstTwoPasses(w, targets);
    CriteriaPassDecides(w, groups);
    GroupChecksAreChecks(w, targets, Denied);
    GroupChecksAreChecks(w, targets, Raised);
  }

  // ---- what a deny names ---------------------------------------------------

  /** The deny is about a target of the payload, in its own project, and gives the reason that holds there. */
  ghost predicate IsSound(w: World, targets: seq<Target>, d: Deny)
  {
    && d.target in targets && w.rootOf(d.target) == Some(d.root)
    && match d.reason
       case MalformedMap => MalformedIn(w, targets, d.root)
       case UndeclaredPath => w.stateOf(d.root).strict && w.standing(d.root, d.target) == Loose(true)
       case CriteriaNotFrozen =>
         !DeniedOutright(w, targets) &&
         exists file :: JudgedBy(w, d.target, file) && !FrozenAsRecorded(w.hash, file) && !CannotBeJudged(file)
  }

  lemma {:induction false} MalformedPassNames(w: World, groups: seq<Group>)
    ensures var o := MalformedPass(w, groups);
      o.Denies? ==>
        && o.deny.reason == MalformedMap
        && exists g :: g in groups && HidesMalformed(w, g) && o.deny.root == g.root && o.deny.target in g.loose
  {
    if groups != [] && !HidesMalformed(w, groups[0]) {
      MalformedPassNames(w, groups[1..]);
    } else if groups != [] {
      assert groups[0] in groups && groups[0].loose[0] in groups[0].loose;
    }
  }

  lemma {:induction false} FirstUndeclaredIsOne(w: World, root: Root, loose: seq<Target>)
    ensures var t := FirstUndeclared(w, root, loose);
      t.Some? ==> t.value in loose && IsUndeclared(w, root, t.value)
  {
    if loose != [] {
      FirstUndeclaredIsOne(w, root, loose[1..]);
    }
  }

  lemma {:induction false} StrictPassNames(w: World, groups: seq<Group>)
    ensures var o := StrictPass(w, groups);
      o.Denies? ==>
        && o.deny.reason == UndeclaredPath
        && exists g :: g in groups && w.stateOf(g.root).strict && o.deny.root == g.root
                       && o.deny.target in g.loose && IsUndeclared(w, g.root, o.deny.target)
  {
    hide FirstUndeclared;
    if groups != [] {
      StrictPassNames(w, groups[1..]);
      FirstUndeclaredIsOne(w, groups[0].root, groups[0].loose);
      assert groups[0] in groups;
    }
  }

  lemma {:induction false} CheckAllNames(w: World, root: Root, gated: seq<Target>)
    requires forall t | t in gated :: IsGated(w, root, t)
    ensures var o := CheckAll(w, root, gated);
      o.Denies? ==>
        && o.deny.reason == CriteriaNotFrozen && o.deny.root == root
        && o.deny.target in gated && CheckTarget(w, root, o.deny.target) == Denied
  {
    hide CheckTarget;
    if gated != [] {
      CheckAllNames(w, root, gated[1..]);
    }
  }

  lemma {:induction false} CriteriaPassNames(w: World, groups: seq<Group>)
    requires Sorted(w, groups)
    ensures var o := CriteriaPass(w, groups);
      o.Denies? ==>
        && o.deny.reason == CriteriaNotFrozen
        && exists g :: g in groups && o.deny.root == g.root && o.deny.target in g.gated
                       && IsGated(w, g.root, o.deny.target) && CheckTarget(w, g.root, o.deny.target) == Denied
  {
    hide CheckTarget, CheckAll;
    if groups != [] {
      assert groups[0] in groups;
      CheckAllNames(w, groups[0].root, groups[0].gated);
      CriteriaPassNames(w, groups[1..]);
    }
  }

  lemma DenyIsSound(w: World, targets: seq<Target>)
    ensures Decide(w, targets).Denies? ==> IsSound(w, targets, Decide(w, targets).deny)
  {
    hide Groups, MalformedPass, StrictPass, CriteriaPass, DeniedOutright, MalformedIn, FrozenAsRecorded, CannotBeJudged,
      JudgedBy, CheckTarget, ChecksTo;
    var groups := Groups(w, targets);
    GroupsAreSorted(w, targets);
    GroupsPartition(w, targets);
    MalformedPassNames(w, groups);
    StrictPassNames(w, groups);
    CriteriaPassNames(w, groups);
    OutrightIsTheFirstTwoPasses(w, targets);
    var o := Decide(w, targets);
    if o.Denies? {
      var d := o.deny;
      var g :| g in groups && d.root == g.root && (d.target in g.loose || d.target in g.gated)
        && (d.reason == MalformedMap ==> HidesMalformed(w, g))
        && (d.reason == CriteriaNotFrozen ==> IsGated(w, g.root, d.target) && CheckTarget(w, g.root, d.target) == Denied);
      assert Holds(w, g, targets);
      HeldGroup(w, g, targets);
      if d.reason == CriteriaNotFrozen {
        assert ChecksTo(w, d.target, Denied) by { CheckedTarget(w, d.target, g.root); }
        ChecksAre(w, d.target);
      }
    }
  }

  lemma CheckedTarget(w: World, t: Target, root: Root)
    requires w.rootOf(t) == Some(root) && IsGated(w, root, t) && CheckTarget(w, root, t) == Denied
    ensures ChecksTo(w, t, Denied)
  {
  }

  // ---- order and repetition ------------------------------------------------

  ghost predicate SameTargets(a: seq<Target>, b: seq<Target>)
  {
    forall t :: t in a <==> t in b
  }

  /** One check would deny and another would raise, and nothing else decides. */
  ghost predicate Contested(w: World, targets: seq<Target>)
  {
    && !AnyBreaks(w, targets) && !DeniedOutright(w, targets)
    && SomeCheck(w, targets, Denied) && SomeCheck(w, targets, Raised)
  }

  lemma SameTargetsSameFacts(w: World, a: seq<Target>, b: seq<Target>)
    requires SameTargets(a, b)
    ensures AnyBreaks(w, a) == AnyBreaks(w, b) && DeniedOutright(w, a) == DeniedOutright(w, b)
    ensures forall verdict :: SomeCheck(w, a, verdict) == SomeCheck(w, b, verdict)
  {
    forall root
      ensures MalformedIn(w, a, root) == MalformedIn(w, b, root) && UndeclaredIn(w, a, root) == UndeclaredIn(w, b, root)
    {
    }
  }

  /** Otherwise neither the order of the targets nor repeating one changes the decision. */
  lemma OrderDoesNotMatter(w: World, a: seq<Target>, b: seq<Target>)
    requires SameTargets(a, b) && !Contested(w, a)
    ensures Decide(w, a).Denies? <==> Decide(w, b).Denies?
  {
    hide Decide, SomeCheck, DeniedOutright, AnyBreaks;
    SameTargetsSameFacts(w, a, b);
    DecideByChecks(w, a);
    DecideByChecks(w, b);
  }

  /** And when it is contested, the order decides: the same targets are denied one way and let through another. */
  lemma ContestedOrderMatters(w: World, targets: seq<Target>)
    requires Contested(w, targets)
    ensures exists a, b ::
      SameTargets(a, targets) && SameTargets(b, targets) && Decide(w, a).Denies? && !Decide(w, b).Denies?
  {
    hide Decide, DeniedOutright, AnyBreaks;
    var t :| t in targets && ChecksTo(w, t, Denied);
    var u :| u in targets && ChecksTo(w, u, Raised);
    SameTargetsSameFacts(w, targets, [t] + targets);
    SameTargetsSameFacts(w, targets, [u] + targets);
    FirstTargetDecides(w, t, targets, Denied);
    FirstTargetDecides(w, u, targets, Raised);
    assert SameTargets([t] + targets, targets) && SameTargets([u] + targets, targets);
  }

  lemma FirstTargetDecides(w: World, t: Target, rest: seq<Target>, verdict: Verdict)
    requires !AnyBreaks(w, [t] + rest) && !DeniedOutright(w, [t] + rest)
    requires ChecksTo(w, t, verdict) && verdict != Open
    ensures Decide(w, [t] + rest).Denies? <==> verdict == Denied
  {
    hide MalformedPass, StrictPass, Groups, AnyBreaks, DeniedOutright, CheckTarget;
    OutrightIsTheFirstTwoPasses(w, [t] + rest);
    GroupsAreSorted(w, [t] + rest);
    FirstGroupFirst(w, t, rest);
    var groups := Groups(w, [t] + rest);
    assert groups[0] in groups;
  }

  lemma {:induction false} FirstGroupFirst(w: World, t: Target, rest: seq<Target>)
    requires w.rootOf(t).Some? && IsGated(w, w.rootOf(t).value, t)
    ensures var groups := Groups(w, [t] + rest);
      && groups != [] && groups[0].root == w.rootOf(t).value
      && groups[0].gated != [] && groups[0].gated[0] == t
  {
    if rest == [] {
      assert [t] + rest == [t] && [t][..0] == [];
    } else {
      FirstGroupFirst(w, t, rest[..|rest| - 1]);
      assert ([t] + rest)[..|rest|] == [t] + rest[..|rest| - 1];
    }
  }

  // ---- one target at a time ------------------------------------------------

  predicate QuietTargets(w: World, targets: seq<Target>)
  {
    forall t | t in targets :: !Breaks(w, t) && !ChecksTo(w, t, Raised)
  }

  /** Denied alone only for its project's malformed map, while another target of that project is gated. */
  ghost predicate Masked(w: World, targets: seq<Target>, t: Target)
  {
    && w.rootOf(t).Some?
    && !UndeclaredIn(w, [t], w.rootOf(t).value)
    && !w.standing(w.rootOf(t).value, t).Gated?
    && exists u :: u in targets && w.rootOf(u) == w.rootOf(t) && w.standing(w.rootOf(t).value, u).Gated?
  }

  lemma SingleTarget(w: World, t: Target)
    requires QuietTargets(w, [t])
    ensures Decide(w, [t]).Denies? <==>
            && w.rootOf(t).Some?
            && (ChecksTo(w, t, Denied) || UndeclaredIn(w, [t], w.rootOf(t).value)
                || (!IsGated(w, w.rootOf(t).value, t) && w.stateOf(w.rootOf(t).value).malformed != []))
  {
    hide Decide, ChecksTo;
    DecideByChecks(w, [t]);
    assert t in [t];
    assert SomeCheck(w, [t], Denied) <==> ChecksTo(w, t, Denied);
    assert !SomeCheck(w, [t], Raised) && !AnyBreaks(w, [t]);
    if w.rootOf(t).Some? {
      SingleOutright(w, t, w.rootOf(t).value);
    } else {
      assert !DeniedOutright(w, [t]);
      assert !ChecksTo(w, t, Denied) by { ChecksHaveRoots(w, t); }
    }
  }

  lemma ChecksHaveRoots(w: World, t: Target)
    ensures ChecksTo(w, t, Denied) ==> w.rootOf(t).Some?
  {
  }

  lemma SingleOutright(w: World, t: Target, root: Root)
    requires In(w, root, t)
    ensures DeniedOutright(w, [t]) <==>
            UndeclaredIn(w, [t], root) || (!IsGated(w, root, t) && w.stateOf(root).malformed != [])
  {
    assert t in [t];
    if !IsGated(w, root, t) && w.stateOf(root).malformed != [] {
      assert MalformedIn(w, [t], root);
    }
  }

  /** The payload is denied exactly when some target would be denied alone and is not masked. */
  lemma DenyIsOneUnmaskedTarget(w: World, targets: seq<Target>)
    requires QuietTargets(w, targets)
    ensures Decide(w, targets).Denies? <==>
            exists t :: t in targets && Decide(w, [t]).Denies? && !Masked(w, targets, t)
  {
    hide Decide, ChecksTo, Breaks;
    DecideByChecks(w, targets);
    assert !AnyBreaks(w, targets) && !SomeCheck(w, targets, Raised);
    forall t | t in targets
      ensures QuietTargets(w, [t])
    {
    }
    if Decide(w, targets).Denies? {
      var t := DenyingTarget(w, targets);
      SingleTarget(w, t);
    }
    if t :| t in targets && Decide(w, [t]).Denies? && !Masked(w, targets, t) {
      SingleTarget(w, t);
      UnmaskedDenies(w, targets, t);
    }
  }

  lemma DenyingTarget(w: World, targets: seq<Target>) returns (t: Target)
    requires DeniedOutright(w, targets) || SomeCheck(w, targets, Denied)
    ensures t in targets && w.rootOf(t).Some? && !Masked(w, targets, t)
    ensures ChecksTo(w, t, Denied) || UndeclaredIn(w, [t], w.rootOf(t).value)
            || (!IsGated(w, w.rootOf(t).value, t) && w.stateOf(w.rootOf(t).value).malformed != [])
  {
    hide CheckTarget;
    if SomeCheck(w, targets, Denied) {
      t :| t in targets && ChecksTo(w, t, Denied);
    } else {
      var root :| MalformedIn(w, targets, root) || UndeclaredIn(w, targets, root);
      if UndeclaredIn(w, targets, root) {
        t :| t in targets && w.rootOf(t) == Some(root) && w.standing(root, t) == Loose(true);
        assert t in [t];
      } else {
        t :| t in targets && w.rootOf(t) == Some(root);
      }
    }
  }

  lemma UnmaskedDenies(w: World, targets: seq<Target>, t: Target)
    requires t in targets && w.rootOf(t).Some? && !Masked(w, targets, t)
    requires ChecksTo(w, t, Denied) || UndeclaredIn(w, [t], w.rootOf(t).value)
             || (!IsGated(w, w.rootOf(t).value, t) && w.stateOf(w.rootOf(t).value).malformed != [])
    ensures DeniedOutright(w, targets) || SomeCheck(w, targets, Denied)
  {
    hide CheckTarget;
    var root := w.rootOf(t).value;
    if ChecksTo(w, t, Denied) {
    } else if UndeclaredIn(w, [t], root) {
      assert IsUndeclared(w, root, t);
      assert UndeclaredIn(w, targets, root);
    } else {
      assert MalformedIn(w, targets, root);
    }
  }

  /** With no malformed declarations the decision is the OR of the targets' own. */
  lemma SoundMapsDenyByOr(w: World, targets: seq<Target>)
    requires QuietTargets(w, targets)
    requires forall t | t in targets && w.rootOf(t).Some? :: w.stateOf(w.rootOf(t).value).malformed == []
    ensures Decide(w, targets).Denies? <==> exists t :: t in targets && Decide(w, [t]).Denies?
  {
    hide Decide, ChecksTo, Breaks;
    DenyIsOneUnmaskedTarget(w, targets);
    forall t | t in targets && Decide(w, [t]).Denies?
      ensures !Masked(w, targets, t)
    {
      SingleTarget(w, t);
      if w.rootOf(t).Some? && !IsGated(w, w.rootOf(t).value, t) {
        LooseIsNotChecked(w, t);
      }
    }
  }

  lemma LooseIsNotChecked(w: World, t: Target)
    requires w.rootOf(t).Some? && !IsGated(w, w.rootOf(t).value, t)
    ensures !ChecksTo(w, t, Denied)
  {
  }
}
