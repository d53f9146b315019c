/**
 The runbook engine over a resource port that stores specifications verbatim. A port call or a
 state-store write may fail; `Trouble` says which do. The spec hash is taken as injective, so it is
 its own input, the canonical text.
 */
module Runbook {
  import opened Prelude
  import opened CanonicalJson
  import opened JsonText

  datatype Selector = Selector(kind: string, id: Option<string>, lookup: map<string, string>)

  datatype Action =
    | Ensure(id: string, selector: Selector, properties: Value, dependsOn: seq<string>)
    | Remove(id: string, selector: Selector, dependsOn: seq<string>)

  datatype Runbook = Runbook(name: string, actions: seq<Action>)

  datatype Change = Create | Update | Delete | NoChange

  datatype Status = Applied | AlreadyThere | Failed | Skipped

  datatype Call = CreateCall(s: Selector) | UpdateCall(s: Selector) | DeleteCall(s: Selector)

  // The resources, the state store, and the changing calls made to the port.
  datatype World = World(resources: map<Selector, Value>, states: map<(string, string), Text>, calls: seq<Call>)

  datatype Trouble = Trouble(callOk: bool, storeOk: bool)

  function SpecHash(v: Value): Text {
    StableStringify(v)
  }

  // ------------------------------------------------------------------- validation

  ghost predicate ValidRunbook(rb: Runbook) {
    && (forall i, j :: 0 <= i < j < |rb.actions| ==> rb.actions[i].id != rb.actions[j].id)
    && (forall i, d :: 0 <= i < |rb.actions| && d in rb.actions[i].dependsOn ==> KnownId(rb.actions, d))
  }

  ghost predicate KnownId(actions: seq<Action>, id: string) {
    exists i :: 0 <= i < |actions| && actions[i].id == id
  }

  // `validateRunbook`
  method ValidateRunbook(rb: Runbook) returns (ok: bool)
    ensures ok <==> ValidRunbook(rb)
  {
    var identifiers: set<string> := {};
    for i := 0 to |rb.actions|
      invariant forall id :: id in identifiers <==> KnownId(rb.actions[..i], id)
      invariant forall j, k :: 0 <= j < k < i ==> rb.actions[j].id != rb.actions[k].id
    {
      if rb.actions[i].id in identifiers {
        return false;
      }
      assert forall j :: 0 <= j < i ==> rb.actions[..i][j].id != rb.actions[i].id;
      identifiers := identifiers + {rb.actions[i].id};
      KnownNext(rb.actions, i);
    }
    assert rb.actions[..|rb.actions|] == rb.actions;
    for i := 0 to |rb.actions|
      invariant forall j, d :: 0 <= j < i && d in rb.actions[j].dependsOn ==> KnownId(rb.actions, d)
    {
      if exists d | d in rb.actions[i].dependsOn :: d !in identifiers {
        return false;
      }
    }
    return true;
  }

  lemma KnownNext(actions: seq<Action>, i: nat)
    requires i < |actions|
    ensures forall id :: KnownId(actions[..i + 1], id) <==> KnownId(actions[..i], id) || id == actions[i].id
  {
    forall id | KnownId(actions[..i], id) ensures KnownId(actions[..i + 1], id) {
      var j :| 0 <= j < i && actions[..i][j].id == id;
      assert actions[..i + 1][j].id == id;
    }
    assert actions[..i + 1][i] == actions[i];
  }

  // --------------------------------------------------------------------- planning

  function PlanChange(resources: map<Selector, Value>, a: Action): Change {
    match a
    case Ensure(_, s, properties, _) =>
      if s !in resources then Create
      else if SpecHash(resources[s]) == SpecHash(properties) then NoChange
      else Update
    case Remove(_, s, _) => if s in resources then Delete else NoChange
  }

  function Plan(resources: map<Selector, Value>, actions: seq<Action>): seq<Change> {
    seq(|actions|, i requires 0 <= i < |actions| => PlanChange(resources, actions[i]))
  }

  // -------------------------------------------------------------------- execution

  // The change of one action, made by the port.
  function Called(w: World, a: Action, c: Change): World {
    match (a, c)
    case (Ensure(_, s, p, _), Create) => w.(resources := w.resources[s := p], calls := w.calls + [CreateCall(s)])
    case (Ensure(_, s, p, _), Update) => w.(resources := w.resources[s := p], calls := w.calls + [UpdateCall(s)])
    case (Remove(_, s, _), Delete) => w.(resources := w.resources - {s}, calls := w.calls + [DeleteCall(s)])
    case _ => w
  }

  // The state store's record of the action.
  function Recorded(w: World, name: string, a: Action): World {
    match a
    case Ensure(id, _, p, _) => w.(states := w.states[(name, id) := SpecHash(p)])
    case Remove(id, _, _) => w.(states := w.states - {(name, id)})
  }

  // An action that is neither blocked nor held back by a dry run.
  function Execute(w: World, name: string, a: Action, c: Change, t: Trouble): (World, Status) {
    if c != NoChange && !t.callOk then (w, Failed)
    else if !t.storeOk then (Called(w, a, c), Failed)
    else (Recorded(Called(w, a, c), name, a), if c == NoChange then AlreadyThere else Applied)
  }

  predicate Blocks(statuses: map<string, Status>, dependency: string) {
    dependency in statuses && (statuses[dependency] == Failed || statuses[dependency] == Skipped)
  }

  // The first dependency that failed or was skipped.
  function FirstBlocking(statuses: map<string, Status>, dependencies: seq<string>): (r: Option<string>)
    ensures r.Some? ==> r.value in dependencies && Blocks(statuses, r.value)
    ensures r.None? ==> forall d :: d in dependencies ==> !Blocks(statuses, d)
  {
    if dependencies == [] then None
    else if Blocks(statuses, dependencies[0]) then Some(dependencies[0])
    else FirstBlocking(statuses, dependencies[1..])
  }

  // The first one found is then read as a truth value, which the empty string does not have.
  predicate Blocked(statuses: map<string, Status>, a: Action) {
    var found := FirstBlocking(statuses, a.dependsOn);
    found.Some? && found.value != ""
  }

  datatype RunState = RunState(world: World, statuses: map<string, Status>, results: seq<Status>)

  function Proceed(s: RunState, name: string, a: Action, c: Change, t: Trouble, dryRun: bool): RunState {
    var (w, status) :=
      if Blocked(s.statuses, a) || (dryRun && c != NoChange) then (s.world, Skipped)
      else Execute(s.world, name, a, c, t);
    RunState(w, s.statuses[a.id := status], s.results + [status])
  }

  // After the first n actions of an apply, planned on the world it started from.
  function Progress(rb: Runbook, start: World, trouble: string -> Trouble, dryRun: bool, n: nat): RunState
    requires n <= |rb.actions|
  {
    if n == 0 then RunState(start, map[], [])
    else
      var a := rb.actions[n - 1];
      Proceed(Progress(rb, start, trouble, dryRun, n - 1), rb.name, a, PlanChange(start.resources, a),
              trouble(a.id), dryRun)
  }

  function Outcome(rb: Runbook, start: World, trouble: string -> Trouble, dryRun: bool): RunState {
    Progress(rb, start, trouble, dryRun, |rb.actions|)
  }

  datatype ApplyError = InvalidRunbook | PlanFailed

  class Runner {
    var world: World

    constructor (world: World)
      ensures this.world == world
    {
      this.world := world;
    }

    // `describeFails`: reading a resource or the state store fails while planning.
    method PlanAll(rb: Runbook, describeFails: bool) returns (r: Result<seq<Change>, ApplyError>)
      ensures describeFails && rb.actions != [] ==> r == Err(PlanFailed)
      ensures !(describeFails && rb.actions != []) ==> r == Ok(Plan(world.resources, rb.actions))
    {
      var changes: seq<Change> := [];
      for i := 0 to |rb.actions|
        invariant describeFails ==> i == 0
        invariant changes == Plan(world.resources, rb.actions)[..i]
      {
        if describeFails {
          return Err(PlanFailed);
        }
        changes := changes + [PlanChange(world.resources, rb.actions[i])];
      }
      var all := Plan(world.resources, rb.actions);
      assert all[..|rb.actions|] == all;
      return Ok(changes);
    }

    // Whether a plan has changes.
    method HasChanges(rb: Runbook, describeFails: bool) returns (r: Result<bool, ApplyError>)
      ensures r.Ok? ==> ValidRunbook(rb)
      ensures r.Ok? ==>
                (r.value <==>
                 exists i :: 0 <= i < |rb.actions| && PlanChange(world.resources, rb.actions[i]) != NoChange)
      ensures r.Err? <==> !ValidRunbook(rb) || (describeFails && rb.actions != [])
    {
      var ok := ValidateRunbook(rb);
      if !ok {
        return Err(InvalidRunbook);
      }
      var planned := PlanAll(rb, describeFails);
      if planned.Err? {
        return Err(planned.error);
      }
      var changed := exists i | 0 <= i < |planned.value| :: planned.value[i] != NoChange;
      assert forall i :: 0 <= i < |rb.actions| ==> planned.value[i] == PlanChange(world.resources, rb.actions[i]);
      return Ok(changed);
    }

    method Apply(rb: Runbook, dryRun: bool, describeFails: bool, trouble: string -> Trouble)
      returns (r: Result<seq<Status>, ApplyError>)
      modifies this
      ensures r.Err? <==> !ValidRunbook(rb) || (describeFails && rb.actions != [])
      ensures r.Err? ==> world == old(world)
      ensures r.Ok? ==>
                && r.value == Outcome(rb, old(world), trouble, dryRun).results
                && world == Outcome(rb, old(world), trouble, dryRun).world
    {
      var ok := ValidateRunbook(rb);
      if !ok {
        return Err(InvalidRunbook);
      }
      var planned := PlanAll(rb, describeFails);
      if planned.Err? {
        return Err(planned.error);
      }
      var changes := planned.value;
      var statusById: map<string, Status> := map[];
      var results: seq<Status> := [];
      for i := 0 to |rb.actions|
        invariant RunState(world, statusById, results) == Progress(rb, old(world), trouble, dryRun, i)
      {
        var a, c := rb.actions[i], changes[i];
        var status;
        if Blocked(statusById, a) {
          status := Skipped;
        } else if dryRun && c != NoChange {
          status := Skipped;
        } else {
          status := Perform(rb.name, a, c, trouble(a.id));
        }
        results := results + [status];
        statusById := statusById[a.id := status];
      }
      return Ok(results);
    }

    method Perform(name: string, a: Action, c: Change, t: Trouble) returns (status: Status)
      modifies this
      ensures (world, status) == Execute(old(world), name, a, c, t)
    {
      if c != NoChange {
        if !t.callOk {
          return Failed;
        }
        world := Called(world, a, c);
      }
      if !t.storeOk {
        return Failed;
      }
      world := Recorded(world, name, a);
      return if c == NoChange then AlreadyThere else Applied;
    }
  }

  // ------------------------------------------------------------------ convergence

  // The resource of the action is as the action wants it.
  ghost predicate AtDesired(resources: map<Selector, Value>, a: Action) {
    match a
    case Ensure(_, s, properties, _) => s in resources && SpecHash(resources[s]) == SpecHash(properties)
    case Remove(_, s, _) => s !in resources
  }

  // What that means: the stored properties are the wanted ones, up to form.
  lemma DesiredMeans(resources: map<Selector, Value>, a: Action)
    requires a.Ensure? && a.selector in resources && WellFormed(resources[a.selector]) && WellFormed(a.properties)
    ensures AtDesired(resources, a) <==> SameForm(resources[a.selector], a.properties)
  {
    CanonicalTextDecides(resources[a.selector], a.properties);
  }

  ghost predicate DistinctResources(actions: seq<Action>) {
    forall i, j :: 0 <= i < j < |actions| ==> actions[i].selector != actions[j].selector
  }

  lemma PlanDecides(resources: map<Selector, Value>, a: Action)
    ensures PlanChange(resources, a) == NoChange <==> AtDesired(resources, a)
  {
  }

  lemma SameResource(before: map<Selector, Value>, after: map<Selector, Value>, a: Action)
    requires Get(before, a.selector) == Get(after, a.selector)
    ensures AtDesired(before, a) <==> AtDesired(after, a)
  {
  }

  // One step changes at most the resource of its action.
  lemma StepFrame(s: RunState, name: string, a: Action, c: Change, t: Trouble, dryRun: bool, k: Selector)
    requires k != a.selector
    ensures Get(Proceed(s, name, a, c, t, dryRun).world.resources, k) == Get(s.world.resources, k)
  {
  }

  // It leaves that one alone in a dry run, and when the action is skipped or has nothing to change.
  lemma StepIdle(s: RunState, name: string, a: Action, c: Change, t: Trouble, dryRun: bool)
    requires dryRun || c == NoChange || Last(Proceed(s, name, a, c, t, dryRun).results) == Skipped
    ensures Proceed(s, name, a, c, t, dryRun).world.resources == s.world.resources
  {
  }

  // And brings it where it should be, if the action succeeds.
  lemma StepReaches(s: RunState, name: string, a: Action, t: Trouble, dryRun: bool, start: map<Selector, Value>)
    requires Get(s.world.resources, a.selector) == Get(start, a.selector)
    requires Good(Last(Proceed(s, name, a, PlanChange(start, a), t, dryRun).results))
    ensures AtDesired(Proceed(s, name, a, PlanChange(start, a), t, dryRun).world.resources, a)
  {
    PlanDecides(start, a);
    SameResource(s.world.resources, start, a);
  }

  // A resource that none of the first n actions targets is as before.
  lemma {:induction false} Untargeted(rb: Runbook, start: World, trouble: string -> Trouble, dryRun: bool, n: nat,
                                      k: Selector)
    requires n <= |rb.actions| && forall i :: 0 <= i < n ==> rb.actions[i].selector != k
    ensures Get(Progress(rb, start, trouble, dryRun, n).world.resources, k) == Get(start.resources, k)
  {
    if n > 0 {
      Untargeted(rb, start, trouble, dryRun, n - 1, k);
      var a := rb.actions[n - 1];
      StepFrame(Progress(rb, start, trouble, dryRun, n - 1), rb.name, a, PlanChange(start.resources, a),
                trouble(a.id), dryRun, k);
    }
  }

  // What action i leaves of its resource, the later ones leave too.
  lemma {:induction false} LeftByLater(rb: Runbook, start: World, trouble: string -> Trouble, dryRun: bool, n: nat,
                                       i: nat)
    requires i < n <= |rb.actions| && DistinctResources(rb.actions)
    ensures Get(Progress(rb, start, trouble, dryRun, n).world.resources, rb.actions[i].selector) ==
            Get(Progress(rb, start, trouble, dryRun, i + 1).world.resources, rb.actions[i].selector)
  {
    if i < n - 1 {
      LeftByLater(rb, start, trouble, dryRun, n - 1, i);
      var a := rb.actions[n - 1];
      StepFrame(Progress(rb, start, trouble, dryRun, n - 1), rb.name, a, PlanChange(start.resources, a),
                trouble(a.id), dryRun, rb.actions[i].selector);
    }
  }

  // The step of action i itself: its resource stays as it was if the action is at its desired state,
  // or skipped, or part of a dry run; and it is as desired if the action succeeds.
  lemma OwnStep(rb: Runbook, start: World, trouble: string -> Trouble, dryRun: bool, i: nat)
    requires i < |rb.actions| && DistinctResources(rb.actions)
    ensures var s, a := Progress(rb, start, trouble, dryRun, i + 1), rb.actions[i];
            && s.results != []
            && (dryRun || AtDesired(start.resources, a) || Last(s.results) == Skipped ==>
                  Get(s.world.resources, a.selector) == Get(start.resources, a.selector))
            && (Good(Last(s.results)) ==> AtDesired(s.world.resources, a))
  {
    var a, before := rb.actions[i], Progress(rb, start, trouble, dryRun, i);
    var c, t := PlanChange(start.resources, a), trouble(a.id);
    Untargeted(rb, start, trouble, dryRun, i, a.selector);
    StepShape(before, rb.name, a, c, t, dryRun);
    PlanDecides(start.resources, a);
    var after := Proceed(before, rb.name, a, c, t, dryRun);
    if dryRun || c == NoChange || Last(after.results) == Skipped {
      StepIdle(before, rb.name, a, c, t, dryRun);
    }
    if Good(Last(after.results)) {
      StepReaches(before, rb.name, a, t, dryRun, start.resources);
    }
  }

  // And after all n actions.
  lemma OwnResource(rb: Runbook, start: World, trouble: string -> Trouble, dryRun: bool, n: nat, i: nat)
    requires i < n <= |rb.actions| && DistinctResources(rb.actions)
    ensures var s, a := Progress(rb, start, trouble, dryRun, n), rb.actions[i];
            && |s.results| == n
            && (dryRun || AtDesired(start.resources, a) || s.results[i] == Skipped ==>
                  Get(s.world.resources, a.selector) == Get(start.resources, a.selector))
            && (Good(s.results[i]) ==> AtDesired(s.world.resources, a))
  {
    OwnStep(rb, start, trouble, dryRun, i);
    LeftByLater(rb, start, trouble, dryRun, n, i);
    ResultsGrow(rb, start, trouble, dryRun, i + 1, n);
    ResultsGrow(rb, start, trouble, dryRun, n, n);
    OwnLater(Progress(rb, start, trouble, dryRun, i + 1), Progress(rb, start, trouble, dryRun, n), start.resources,
             rb.actions[i], i, dryRun);
  }

  lemma OwnLater(own: RunState, last: RunState, start: map<Selector, Value>, a: Action, i: nat, dryRun: bool)
    requires |own.results| == i + 1 && own.results <= last.results
    requires Get(last.world.resources, a.selector) == Get(own.world.resources, a.selector)
    requires dryRun || AtDesired(start, a) || Last(own.results) == Skipped ==>
               Get(own.world.resources, a.selector) == Get(start, a.selector)
    requires Good(Last(own.results)) ==> AtDesired(own.world.resources, a)
    ensures last.results[i] == Last(own.results)
    ensures dryRun || AtDesired(start, a) || last.results[i] == Skipped ==>
              Get(last.world.resources, a.selector) == Get(start, a.selector)
    ensures Good(last.results[i]) ==> AtDesired(last.world.resources, a)
  {
    SameResource(own.world.resources, last.world.resources, a);
  }

  // What carrying out one action comes to: the one call that its resource asks for, the state store's
  // record, and the status that says which. A failing call changes nothing; a failing record leaves
  // the call made.
  lemma ExecuteMeaning(w: World, name: string, a: Action, t: Trouble)
    ensures var c := PlanChange(w.resources, a);
            var (after, status) := Execute(w, name, a, c, t);
            var there := a.selector in w.resources;
            var same := if a.Remove? then !there
                        else there && SpecHash(w.resources[a.selector]) == SpecHash(a.properties);
            var call := if a.Remove? then DeleteCall(a.selector)
                        else if there then UpdateCall(a.selector) else CreateCall(a.selector);
            && (status == AlreadyThere <==> same && t.storeOk)
            && (status == Applied <==> !same && t.callOk && t.storeOk)
            && status != Skipped
            && after.calls == (if same || !t.callOk then w.calls else w.calls + [call])
            && (forall s :: Get(after.resources, s) ==
                  if s != a.selector || same || !t.callOk then Get(w.resources, s)
                  else if a.Remove? then None else Some(a.properties))
            && (forall k :: Get(after.states, k) ==
                  if k != (name, a.id) || !Good(status) then Get(w.states, k)
                  else if a.Remove? then None else Some(SpecHash(a.properties)))
  {
  }

  // After a real apply, every action reported applied or already there is at its desired state,
  // and resources that no action targets are as before.
  lemma ApplyConverges(rb: Runbook, start: World, trouble: string -> Trouble)
    requires DistinctResources(rb.actions)
    ensures var s := Outcome(rb, start, trouble, false);
            && |s.results| == |rb.actions|
            && (forall i :: 0 <= i < |rb.actions| && Good(s.results[i]) ==> AtDesired(s.world.resources, rb.actions[i]))
            && (forall k :: (forall i :: 0 <= i < |rb.actions| ==> rb.actions[i].selector != k) ==>
                  Get(s.world.resources, k) == Get(start.resources, k))
  {
    var n := |rb.actions|;
    ResultsGrow(rb, start, trouble, false, n, n);
    forall i: nat | i < n && Good(Outcome(rb, start, trouble, false).results[i])
      ensures AtDesired(Outcome(rb, start, trouble, false).world.resources, rb.actions[i])
    {
      OwnResource(rb, start, trouble, false, n, i);
    }
    forall k | forall i :: 0 <= i < n ==> rb.actions[i].selector != k
      ensures Get(Outcome(rb, start, trouble, false).world.resources, k) == Get(start.resources, k)
    {
      Untargeted(rb, start, trouble, false, n, k);
    }
  }

  // An action at its desired state stays there over any number of applies, whatever fails.
  lemma {:induction false} ConvergedStays(rb: Runbook, start: World, troubles: seq<string -> Trouble>, i: nat)
    requires DistinctResources(rb.actions) && i < |rb.actions| && AtDesired(start.resources, rb.actions[i])
    ensures AtDesired(AfterApplies(rb, start, troubles).resources, rb.actions[i])
    decreases |troubles|
  {
    if troubles != [] {
      var next := Outcome(rb, start, troubles[0], false).world;
      OwnResource(rb, start, troubles[0], false, |rb.actions|, i);
      SameResource(start.resources, next.resources, rb.actions[i]);
      ConvergedStays(rb, next, troubles[1..], i);
    }
  }

  function AfterApplies(rb: Runbook, start: World, troubles: seq<string -> Trouble>): World
    decreases |troubles|
  {
    if troubles == [] then start
    else AfterApplies(rb, Outcome(rb, start, troubles[0], false).world, troubles[1..])
  }

  predicate Good(status: Status) {
    status == Applied || status == AlreadyThere
  }

  // One step: its status, and where it is kept.
  lemma StepShape(s: RunState, name: string, a: Action, c: Change, t: Trouble, dryRun: bool)
    ensures var after := Proceed(s, name, a, c, t, dryRun);
            && after.results != [] && Front(after.results) == s.results
            && after.statuses == s.statuses[a.id := Last(after.results)]
            && (Blocked(s.statuses, a) ==> Last(after.results) == Skipped)
            && (!Blocked(s.statuses, a) && !dryRun ==> Last(after.results) != Skipped)
  {
  }

  lemma UnblockedByGood(statuses: map<string, Status>, a: Action)
    requires forall id :: id in statuses ==> Good(statuses[id])
    ensures !Blocked(statuses, a)
  {
  }

  lemma {:induction false} NoFailureNoSkip(rb: Runbook, start: World, trouble: string -> Trouble, n: nat)
    requires n <= |rb.actions| && Failed !in Progress(rb, start, trouble, false, n).results
    ensures forall status :: status in Progress(rb, start, trouble, false, n).results ==> Good(status)
    ensures var s := Progress(rb, start, trouble, false, n); forall id :: id in s.statuses ==> Good(s.statuses[id])
  {
    if n > 0 {
      var before, after := Progress(rb, start, trouble, false, n - 1), Progress(rb, start, trouble, false, n);
      var a := rb.actions[n - 1];
      StepShape(before, rb.name, a, PlanChange(start.resources, a), trouble(a.id), false);
      assert after.results == before.results + [Last(after.results)];
      NoFailureNoSkip(rb, start, trouble, n - 1);
      UnblockedByGood(before.statuses, a);
    }
  }

  // A world at rest: nothing to change, whatever else is asked of it.
  lemma {:induction false} AtRest(rb: Runbook, start: World, trouble: string -> Trouble, dryRun: bool, n: nat)
    requires n <= |rb.actions| && forall i :: 0 <= i < |rb.actions| ==> AtDesired(start.resources, rb.actions[i])
    ensures Progress(rb, start, trouble, dryRun, n).world.resources == start.resources
    ensures Progress(rb, start, trouble, dryRun, n).world.calls == start.calls
  {
    if n > 0 {
      AtRest(rb, start, trouble, dryRun, n - 1);
      PlanDecides(start.resources, rb.actions[n - 1]);
    }
  }

  // If nothing failed, the next plan has no changes and the next apply makes no changing call.
  lemma SuccessIsFinal(rb: Runbook, start: World, trouble: string -> Trouble, again: string -> Trouble, dryRun: bool)
    requires DistinctResources(rb.actions)
    requires Failed !in Outcome(rb, start, trouble, false).results
    ensures var w := Outcome(rb, start, trouble, false).world;
            && (forall i :: 0 <= i < |rb.actions| ==> PlanChange(w.resources, rb.actions[i]) == NoChange)
            && Outcome(rb, w, again, dryRun).world.calls == w.calls
            && Outcome(rb, w, again, dryRun).world.resources == w.resources
  {
    var s := Outcome(rb, start, trouble, false);
    ApplyConverges(rb, start, trouble);
    NoFailureNoSkip(rb, start, trouble, |rb.actions|);
    forall i | 0 <= i < |rb.actions| ensures PlanChange(s.world.resources, rb.actions[i]) == NoChange {
      assert Good(s.results[i]);
      PlanDecides(s.world.resources, rb.actions[i]);
    }
    AtRest(rb, s.world, again, dryRun, |rb.actions|);
  }

  // A dry run changes no resource.
  lemma {:induction false} DryRunTouchesNothing(rb: Runbook, start: World, trouble: string -> Trouble, n: nat)
    requires n <= |rb.actions|
    ensures var s := Progress(rb, start, trouble, true, n);
            s.world.resources == start.resources && s.world.calls == start.calls
  {
    if n > 0 {
      DryRunTouchesNothing(rb, start, trouble, n - 1);
    }
  }

  // It may still write the state store: an action already at its desired state is recorded.
  lemma DryRunRecords(name: string, a: Action, start: World)
    requires a.Ensure? && AtDesired(start.resources, a) && (name, a.id) !in start.states
    ensures Outcome(Runbook(name, [a]), start, _ => Trouble(true, true), true).world.states ==
            start.states[(name, a.id) := SpecHash(a.properties)]
  {
    var rb := Runbook(name, [a]);
    PlanDecides(start.resources, a);
    assert Progress(rb, start, _ => Trouble(true, true), true, 0) == RunState(start, map[], []);
  }

  // ------------------------------------------------------------ dependency skipping

  // Each listed action depends directly on the next one, which the runbook lists earlier.
  ghost predicate Chain(actions: seq<Action>, path: seq<nat>) {
    && path != []
    && (forall p :: 0 <= p < |path| ==> path[p] < |actions|)
    && (forall p :: 0 <= p < |path| - 1 ==>
          path[p + 1] < path[p] && actions[path[p + 1]].id in actions[path[p]].dependsOn)
  }

  ghost predicate FailingChain(actions: seq<Action>, results: seq<Status>, i: nat, path: seq<nat>)
    requires |results| == |actions|
  {
    Chain(actions, path) && path[0] == i && |path| > 1 && results[Last(path)] == Failed
  }

  // A chain of dependencies leads from action i to a failed one.
  ghost predicate LeadsToFailure(actions: seq<Action>, results: seq<Status>, i: nat)
    requires |results| == |actions|
  {
    exists path: seq<nat> :: FailingChain(actions, results, i, path)
  }

  ghost predicate DistinctIds(actions: seq<Action>) {
    forall i, j :: 0 <= i < j < |actions| ==> actions[i].id != actions[j].id
  }

  // The statuses kept by id are those of the first actions.
  ghost predicate Kept(actions: seq<Action>, n: nat, statuses: map<string, Status>, results: seq<Status>)
    requires n <= |actions|
  {
    && |results| == n
    && (forall i :: 0 <= i < n ==> actions[i].id in statuses && statuses[actions[i].id] == results[i])
    && (forall id :: id in statuses ==> KnownId(actions[..n], id))
  }

  lemma KeptNext(actions: seq<Action>, n: nat, statuses: map<string, Status>, results: seq<Status>, status: Status)
    requires n < |actions| && DistinctIds(actions) && Kept(actions, n, statuses, results)
    ensures Kept(actions, n + 1, statuses[actions[n].id := status], results + [status])
  {
    KnownNext(actions, n);
  }

  // The statuses by id, from the results in order.
  function StatusesOf(actions: seq<Action>, results: seq<Status>): map<string, Status>
    requires |results| <= |actions|
  {
    if results == [] then map[] else StatusesOf(actions, Front(results))[actions[|results| - 1].id := Last(results)]
  }

  lemma {:induction false} StatusesKept(actions: seq<Action>, results: seq<Status>)
    requires |results| <= |actions| && DistinctIds(actions)
    ensures Kept(actions, |results|, StatusesOf(actions, results), results)
  {
    if results != [] {
      StatusesKept(actions, Front(results));
      KeptNext(actions, |results| - 1, StatusesOf(actions, Front(results)), Front(results), Last(results));
      assert Front(results) + [Last(results)] == results;
    }
  }

  lemma {:induction false} StatusesAreResults(rb: Runbook, start: World, trouble: string -> Trouble, dryRun: bool,
                                              n: nat)
    requires n <= |rb.actions|
    ensures var s := Progress(rb, start, trouble, dryRun, n);
            |s.results| == n && s.statuses == StatusesOf(rb.actions, s.results)
  {
    if n > 0 {
      StatusesAreResults(rb, start, trouble, dryRun, n - 1);
      var a := rb.actions[n - 1];
      StepShape(Progress(rb, start, trouble, dryRun, n - 1), rb.name, a, PlanChange(start.resources, a),
                trouble(a.id), dryRun);
    }
  }

  lemma {:induction false} ResultsGrow(rb: Runbook, start: World, trouble: string -> Trouble, dryRun: bool, n: nat,
                                       m: nat)
    requires n <= m <= |rb.actions|
    ensures |Progress(rb, start, trouble, dryRun, n).results| == n
    ensures Progress(rb, start, trouble, dryRun, n).results <= Progress(rb, start, trouble, dryRun, m).results
    decreases m
  {
    if n < m {
      ResultsGrow(rb, start, trouble, dryRun, n, m - 1);
    } else if n > 0 {
      ResultsGrow(rb, start, trouble, dryRun, n - 1, m - 1);
    }
  }

  // The result of action i of a real run, and the statuses it was decided on.
  lemma {:induction false} DecidedOn(rb: Runbook, start: World, trouble: string -> Trouble, i: nat)
    requires DistinctIds(rb.actions) && i < |rb.actions|
    ensures var results := Outcome(rb, start, trouble, false).results;
            && |results| == |rb.actions|
            && Kept(rb.actions, i, Progress(rb, start, trouble, false, i).statuses, results[..i])
            && (results[i] == Skipped <==> Blocked(Progress(rb, start, trouble, false, i).statuses, rb.actions[i]))
  {
    var before, a := Progress(rb, start, trouble, false, i), rb.actions[i];
    ResultsGrow(rb, start, trouble, false, |rb.actions|, |rb.actions|);
    ResultsGrow(rb, start, trouble, false, i + 1, |rb.actions|);
    ResultsGrow(rb, start, trouble, false, i, |rb.actions|);
    StatusesAreResults(rb, start, trouble, false, i);
    StatusesKept(rb.actions, before.results);
    StepShape(before, rb.name, a, PlanChange(start.resources, a), trouble(a.id), false);
  }

  ghost predicate Bad(status: Status) {
    status == Failed || status == Skipped
  }

  // A dependency of action i listed before it that failed or was skipped.
  ghost predicate BadDependency(actions: seq<Action>, results: seq<Status>, i: nat, j: nat)
    requires i < |actions| && i <= |results|
  {
    j < i && actions[j].id in actions[i].dependsOn && Bad(results[j])
  }

  // No action depends on an earlier one whose id is the empty string.
  ghost predicate NamedDependencies(actions: seq<Action>) {
    forall i, j :: 0 <= j < i < |actions| && actions[j].id == "" ==> "" !in actions[i].dependsOn
  }

  lemma BlockedMeans(actions: seq<Action>, i: nat, statuses: map<string, Status>, results: seq<Status>)
    requires i < |actions| && Kept(actions, i, statuses, results) && NamedDependencies(actions)
    ensures Blocked(statuses, actions[i]) <==> exists j: nat :: BadDependency(actions, results, i, j)
  {
    var found := FirstBlocking(statuses, actions[i].dependsOn);
    if found.Some? {
      var j :| 0 <= j < |actions[..i]| && actions[..i][j].id == found.value;
      assert BadDependency(actions, results, i, j);
    } else {
      forall j: nat | j < i && actions[j].id in actions[i].dependsOn ensures !Bad(results[j]) {
        assert !Blocks(statuses, actions[j].id);
      }
    }
  }

  // An action is skipped exactly when one of its dependencies listed before it failed or was skipped.
  lemma SkippedMeans(rb: Runbook, start: World, trouble: string -> Trouble, i: nat)
    requires DistinctIds(rb.actions) && NamedDependencies(rb.actions) && i < |rb.actions|
    ensures var results := Outcome(rb, start, trouble, false).results;
            && |results| == |rb.actions|
            && (results[i] == Skipped <==> exists j: nat :: BadDependency(rb.actions, results, i, j))
  {
    var results := Outcome(rb, start, trouble, false).results;
    var before := Progress(rb, start, trouble, false, i);
    DecidedOn(rb, start, trouble, i);
    BlockedMeans(rb.actions, i, before.statuses, results[..i]);
    assert forall j: nat :: BadDependency(rb.actions, results[..i], i, j) <==> BadDependency(rb.actions, results, i, j);
  }

  lemma ChainTail(actions: seq<Action>, path: seq<nat>)
    requires Chain(actions, path) && |path| > 1
    ensures Chain(actions, path[1..]) && Last(path[1..]) == Last(path)
  {
    assert forall p :: 0 <= p < |path| - 1 ==> path[1..][p] == path[p + 1];
  }

  lemma ChainLonger(actions: seq<Action>, results: seq<Status>, i: nat, j: nat)
    requires |results| == |actions| && i < |actions| && BadDependency(actions, results, i, j)
    requires results[j] == Skipped ==> LeadsToFailure(actions, results, j)
    ensures LeadsToFailure(actions, results, i)
  {
    var tail: seq<nat> := [j];
    if results[j] == Skipped {
      tail :| FailingChain(actions, results, j, tail);
    }
    var path: seq<nat> := [i] + tail;
    assert Last(path) == Last(tail);
    assert forall p :: 1 <= p < |path| ==> path[p] == tail[p - 1];
    assert FailingChain(actions, results, i, path);
  }

  lemma ChainShorter(actions: seq<Action>, results: seq<Status>, i: nat) returns (j: nat)
    requires |results| == |actions| && i < |actions| && LeadsToFailure(actions, results, i)
    ensures j < i && actions[j].id in actions[i].dependsOn
    ensures results[j] == Failed || LeadsToFailure(actions, results, j)
  {
    var path: seq<nat> :| FailingChain(actions, results, i, path);
    ChainTail(actions, path);
    j := path[1];
    if |path| > 2 {
      assert FailingChain(actions, results, j, path[1..]);
    }
  }

  // In a real run, an action is skipped exactly when a chain of dependencies, each listed before
  // the one that needs it, leads to a failed action.
  lemma {:induction false} SkippedIsReachable(rb: Runbook, start: World, trouble: string -> Trouble, i: nat)
    requires DistinctIds(rb.actions) && NamedDependencies(rb.actions) && i < |rb.actions|
    ensures |Outcome(rb, start, trouble, false).results| == |rb.actions|
    ensures Outcome(rb, start, trouble, false).results[i] == Skipped <==>
            LeadsToFailure(rb.actions, Outcome(rb, start, trouble, false).results, i)
    decreases i
  {
    var results, actions := Outcome(rb, start, trouble, false).results, rb.actions;
    SkippedMeans(rb, start, trouble, i);
    if results[i] == Skipped {
      var j: nat :| BadDependency(actions, results, i, j);
      SkippedIsReachable(rb, start, trouble, j);
      ChainLonger(actions, results, i, j);
    }
    if LeadsToFailure(actions, results, i) {
      var j := ChainShorter(actions, results, i);
      SkippedIsReachable(rb, start, trouble, j);
      assert BadDependency(actions, results, i, j);
    }
  }

  // Only the action whose id is the empty string has trouble.
  function UnnamedFails(): string -> Trouble {
    id => Trouble(id != "", id != "")
  }

  ghost predicate SkippingIsReachability(rb: Runbook, start: World, trouble: string -> Trouble) {
    var results := Outcome(rb, start, trouble, false).results;
    && |results| == |rb.actions|
    && forall i :: 0 <= i < |rb.actions| ==> (results[i] == Skipped <==> LeadsToFailure(rb.actions, results, i))
  }

  // Before the first action that depends on the unnamed one, only that one comes to anything bad.
  lemma {:induction false} OnlyUnnamedFails(rb: Runbook, start: World, n: nat)
    requires DistinctIds(rb.actions) && n <= |rb.actions|
    requires forall i, j :: 0 <= j < i < n && rb.actions[j].id == "" ==> "" !in rb.actions[i].dependsOn
    ensures var s := Progress(rb, start, UnnamedFails(), false, n);
            && (forall id :: id in s.statuses && id != "" ==> !Bad(s.statuses[id]))
            && ("" in s.statuses ==> s.statuses[""] == Failed)
  {
    if n > 0 {
      OnlyUnnamedFails(rb, start, n - 1);
      StatusesAreResults(rb, start, UnnamedFails(), false, n - 1);
      var before, a := Progress(rb, start, UnnamedFails(), false, n - 1), rb.actions[n - 1];
      StepShape(before, rb.name, a, PlanChange(start.resources, a), UnnamedFails()(a.id), false);
    }
  }

  // Skipping is reachability, in every world and whatever fails, exactly when no action depends on
  // an earlier one whose id is the empty string.
  lemma SkippingExact(rb: Runbook, start: World)
    requires DistinctIds(rb.actions)
    ensures NamedDependencies(rb.actions) <==> forall trouble :: SkippingIsReachability(rb, start, trouble)
  {
    if NamedDependencies(rb.actions) {
      forall trouble ensures SkippingIsReachability(rb, start, trouble) {
        ResultsGrow(rb, start, trouble, false, |rb.actions|, |rb.actions|);
        forall i: nat | i < |rb.actions| {
          SkippedIsReachable(rb, start, trouble, i);
        }
      }
    } else {
      UnnamedDependencyShows(rb, start);
    }
  }

  ghost predicate DependsOnUnnamed(actions: seq<Action>, i: nat) {
    i < |actions| && "" in actions[i].dependsOn && exists j :: 0 <= j < i && actions[j].id == ""
  }

  lemma {:induction false} FirstToDepend(actions: seq<Action>, i: nat) returns (k: nat)
    requires DependsOnUnnamed(actions, i)
    ensures DependsOnUnnamed(actions, k) && forall m: nat :: m < k ==> !DependsOnUnnamed(actions, m)
  {
    if m: nat :| m < i && DependsOnUnnamed(actions, m) {
      k := FirstToDepend(actions, m);
    } else {
      k := i;
    }
  }

  // The first action to depend on the unnamed one runs, though that one failed.
  lemma NotHeldBack(actions: seq<Action>, k: nat, j: nat, statuses: map<string, Status>, results: seq<Status>)
    requires j < k < |actions| && Kept(actions, k, statuses, results)
    requires actions[j].id == "" && "" in actions[k].dependsOn
    requires forall id :: id in statuses && id != "" ==> !Bad(statuses[id])
    requires statuses[""] == Failed
    ensures results[j] == Failed && !Blocked(statuses, actions[k])
  {
  }

  lemma NotSkippedShows(actions: seq<Action>, results: seq<Status>, k: nat, j: nat)
    requires |results| == |actions| && j < k < |actions|
    requires actions[j].id in actions[k].dependsOn && results[j] == Failed
    ensures LeadsToFailure(actions, results, k)
  {
    var path: seq<nat> := [k, j];
    assert FailingChain(actions, results, k, path);
  }

  lemma UnnamedDependencyShows(rb: Runbook, start: World)
    requires DistinctIds(rb.actions) && !NamedDependencies(rb.actions)
    ensures !SkippingIsReachability(rb, start, UnnamedFails())
  {
    var i, j :| 0 <= j < i < |rb.actions| && rb.actions[j].id == "" && "" in rb.actions[i].dependsOn;
    assert DependsOnUnnamed(rb.actions, i);
    var k := FirstToDepend(rb.actions, i);
    var l :| 0 <= l < k && rb.actions[l].id == "";
    forall m, p | 0 <= p < m < k && rb.actions[p].id == "" ensures "" !in rb.actions[m].dependsOn {
      assert !DependsOnUnnamed(rb.actions, m);
    }
    var results := Outcome(rb, start, UnnamedFails(), false).results;
    OnlyUnnamedFails(rb, start, k);
    DecidedOn(rb, start, UnnamedFails(), k);
    NotHeldBack(rb.actions, k, l, Progress(rb, start, UnnamedFails(), false, k).statuses, results[..k]);
    NotSkippedShows(rb.actions, results, k, l);
  }

  // A skipped action leaves resources, state store and port alone.
  lemma SkippedTouchesNothing(rb: Runbook, start: World, trouble: string -> Trouble, dryRun: bool, i: nat)
    requires i < |rb.actions|
    requires var s := Progress(rb, start, trouble, dryRun, i + 1); s.results != [] && Last(s.results) == Skipped
    ensures Progress(rb, start, trouble, dryRun, i + 1).world == Progress(rb, start, trouble, dryRun, i).world
  {
  }
}
