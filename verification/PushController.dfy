/**
 The deployment controller as it runs: one thread holding the deployment mutex, writing target and deployment rows.
 Every statement of the thread is a step of the transition system: the ghost field `states` is any set of protocol
 states closed under steps (all reachable states, in particular), and the code never leaves it.  So everything
 proved of all runs holds of this code.  Its other contracts say what one uninterrupted execution leaves in the
 tables and which Deploy calls it makes.
 */
module PushController {
  import opened Options
  import opened PushPlan
  import opened PushProtocol
  import opened PushInvariant
  import opened PushSteps

  /** Deploy's answer as recorded in the target row. */
  function Recorded(o: Outcome): TargetStatus {
    match o
    case Ok => TSuccess
    case Error => TFailed
    case UnknownOutcome => TUnknown
  }

  /** Index of the first answer that is not Ok, or the number of answers. */
  function FirstFailure(answers: seq<Outcome>): (k: nat)
    ensures k <= |answers|
    ensures forall i :: 0 <= i < k ==> answers[i] == Ok
    ensures k < |answers| ==> answers[k] != Ok
  {
    if answers == [] || answers[0] != Ok then 0 else 1 + FirstFailure(answers[1..])
  }

  /** The status that target i of a fully validated fleet ends with, given Deploy's answers in order: skipped after an
      answer other than Ok; otherwise as its own answer says. */
  predicate AnsweredStatus(answers: seq<Outcome>, i: nat, status: TargetStatus)
    requires i < |answers|
  {
    if exists j :: 0 <= j < i && answers[j] != Ok then status == TSkipped
    else
      && (answers[i] == Ok <==> status == TSuccess)
      && (answers[i] == Error <==> status == TFailed)
      && (answers[i] == UnknownOutcome <==> status == TUnknown)
  }

  /** Targets lo, ..., hi-1 of the row get the given status, one after the other. */
  function Paint(d: Deployment, lo: nat, hi: nat, status: TargetStatus): (r: Deployment)
    requires lo <= hi <= |d.targets|
    ensures |r.targets| == |d.targets| && r.project == d.project && r.version == d.version
    decreases hi - lo
  {
    if lo == hi then d else MarkTarget(Paint(d, lo, hi - 1, status), hi - 1, status)
  }

  lemma {:induction false} PaintStatuses(d: Deployment, lo: nat, hi: nat, status: TargetStatus)
    requires lo <= hi <= |d.targets|
    ensures var r := Paint(d, lo, hi, status);
      && r.(targets := d.targets) == d
      && forall i :: 0 <= i < |d.targets| ==> r.targets[i] == if lo <= i < hi then d.targets[i].(status := status)
           else d.targets[i]
    decreases hi - lo
  {
    if lo < hi {
      PaintStatuses(d, lo, hi - 1, status);
    }
  }

  /** The row after the serial loop: successes up to the first failure, its recorded answer, then skipped targets. */
  function FleetResult(d: Deployment, answers: seq<Outcome>): (r: Deployment)
    requires |answers| == |d.targets|
    ensures |r.targets| == |answers|
  {
    var k, n := FirstFailure(answers), |answers|;
    if k == n then Paint(d, 0, n, TSuccess)
    else Paint(MarkTarget(Paint(d, 0, k, TSuccess), k, Recorded(answers[k])), k + 1, n, TSkipped)
  }

  /** Target by target, and nothing else of the row changes. */
  lemma FleetResultStatuses(d: Deployment, answers: seq<Outcome>)
    requires |answers| == |d.targets|
    ensures var r := FleetResult(d, answers);
      && r.(targets := d.targets) == d
      && (forall i :: 0 <= i < |answers| ==> AnsweredStatus(answers, i, r.targets[i].status))
      && (AllTargets(r, TSuccess) <==> forall i :: 0 <= i < |answers| ==> answers[i] == Ok)
  {
    var k, n, r := FirstFailure(answers), |answers|, FleetResult(d, answers);
    if k < n {
      HaltedStatuses(d, k, Recorded(answers[k]));
      assert r.targets[k].status != TSuccess;
    } else {
      PaintStatuses(d, 0, n, TSuccess);
    }
    forall i | 0 <= i < n ensures AnsweredStatus(answers, i, r.targets[i].status) {
      AnsweredByFirstFailure(answers, i, r.targets[i].status);
    }
  }

  lemma AnsweredByFirstFailure(answers: seq<Outcome>, i: nat, status: TargetStatus)
    requires i < |answers|
    requires var k := FirstFailure(answers);
      status == if i < k then TSuccess else if i == k then Recorded(answers[k]) else TSkipped
    ensures AnsweredStatus(answers, i, status)
  {
  }

  /** Successes before target k, its own status, then skipped targets. */
  lemma HaltedStatuses(d: Deployment, k: nat, status: TargetStatus)
    requires k < |d.targets|
    ensures var r := Paint(MarkTarget(Paint(d, 0, k, TSuccess), k, status), k + 1, |d.targets|, TSkipped);
      && r.(targets := d.targets) == d && |r.targets| == |d.targets|
      && forall i :: 0 <= i < |d.targets| ==> r.targets[i].status == if i < k then TSuccess
           else if i == k then status else TSkipped
  {
    PaintStatuses(d, 0, k, TSuccess);
    PaintStatuses(MarkTarget(Paint(d, 0, k, TSuccess), k, status), k + 1, |d.targets|, TSkipped);
  }

  /** The row an uninterrupted run of a claimed deployment leaves behind. */
  function Ended(d: Deployment, accepted: bool, answers: seq<Outcome>): Deployment
    requires |answers| == |d.targets|
  {
    if !accepted then Paint(d, 0, |answers|, TFailed).(status := Failed)
    else FleetResult(d, answers).(status := if FirstFailure(answers) == |answers| then Success else Failed)
  }

  function RunResult(d: Deployment, accepted: bool, answers: seq<Outcome>): Deployment
    requires |answers| == |d.targets|
  {
    Ended(d.(status := Running), accepted, answers)
  }

  /** The row of a run from queued to finished, status by status: successful exactly if the fleet was accepted and every
      answer was Ok, failed otherwise; a refused fleet has failed targets only. */
  lemma RunResultStatuses(d: Deployment, accepted: bool, answers: seq<Outcome>)
    requires |answers| == |d.targets|
    ensures var r := RunResult(d, accepted, answers);
      && r.(status := d.status, targets := d.targets) == d && |r.targets| == |d.targets|
      && r.status == (if accepted && (forall i :: 0 <= i < |answers| ==> answers[i] == Ok) then Success else Failed)
      && forall i :: 0 <= i < |answers| ==>
           if accepted then AnsweredStatus(answers, i, r.targets[i].status) else r.targets[i].status == TFailed
  {
    var claimed := d.(status := Running);
    if accepted {
      FleetResultStatuses(claimed, answers);
    } else {
      PaintStatuses(claimed, 0, |answers|, TFailed);
    }
  }

  /** The first deployment of a hook event, or the number of rows if it has none. */
  function FirstFor(deps: seq<Deployment>, event: nat): (id: nat)
    ensures id <= |deps| && (id < |deps| ==> deps[id].hookEvent == event + 1)
    ensures forall i :: 0 <= i < id ==> deps[i].hookEvent != event + 1
  {
    if deps == [] || deps[0].hookEvent == event + 1 then 0 else 1 + FirstFor(deps[1..], event)
  }

  predicate HasDeployment(deps: seq<Deployment>, event: nat) {
    exists i :: 0 <= i < |deps| && deps[i].hookEvent == event + 1
  }

  /** The rows with a deployment for the event: as they are, or with a queued row for its frozen targets appended. */
  function WithDeployment(deps: seq<Deployment>, e: HookEvent, event: nat, frozen: seq<Target>): seq<Deployment> {
    if HasDeployment(deps, event) then deps
    else deps + [Deployment(e.project, e.version, "", event + 1, false, Queued, frozen)]
  }

  /** The worker gets as far as a deployment. */
  predicate Dispatches(deps: seq<Deployment>, e: HookEvent, event: nat, taskFound: bool,
                       versions: map<(string, string), VersionRow>, frozen: Option<seq<Target>>) {
    taskFound && VersionPublished(versions, e.project, e.version) && (HasDeployment(deps, event) || frozen.Some?)
  }

  function DispatchRows(deps: seq<Deployment>, e: HookEvent, event: nat, frozen: Option<seq<Target>>): seq<Deployment> {
    if frozen.Some? then WithDeployment(deps, e, event, frozen.value) else deps
  }

  /** What a run of deployment id leaves, if nothing interrupts it: nothing changes unless it is queued and the
      process is not draining; then the row is as RunResult says, and the log grows by the calls of an accepted
      fleet. */
  ghost predicate RunLeaves(deps: seq<Deployment>, log: seq<Call>, versions: map<(string, string), VersionRow>,
                            draining: bool, id: nat, fleet: Fleet, deps': seq<Deployment>, log': seq<Call>)
    requires id < |deps|
  {
    var was := deps[id];
    var seen, answers := fleet.Seen(|was.targets|), fleet.Answers(|was.targets|);
    if draining || was.status != Queued then deps' == deps && log' == log
    else
      var accepted := fleet.publicUrl && FleetUnchanged(Row(versions, was), was, seen) && fleet.requester;
      && deps' == deps[id := RunResult(was, accepted, answers)]
      && log' == if !accepted then log
                 else log + Calls(id, was.version, Row(versions, was), Seen(seen), answers, CallsMade(answers))
  }

  /** What a run finds: the public URL, what is read for each target, the requester, and the answer of each call. */
  datatype Fleet = Fleet(publicUrl: bool, seenAt: nat -> Option<Snapshot>, requester: bool, answerAt: nat -> Outcome) {
    function Seen(n: nat): (s: seq<Option<Snapshot>>)
      ensures |s| == n
    {
      seq(n, i requires 0 <= i => seenAt(i))
    }

    function Answers(n: nat): (s: seq<Outcome>)
      ensures |s| == n
    {
      seq(n, i requires 0 <= i => answerAt(i))
    }
  }

  /** Validation reads the plan of a row, not its status. */
  lemma StatusDoesNotMatter(row: Option<VersionRow>, d: Deployment, seen: seq<Option<Snapshot>>)
    requires |seen| == |d.targets|
    ensures FleetUnchanged(row, d.(status := Running), seen) == FleetUnchanged(row, d, seen)
  {
  }

  /** Every target is found unchanged by the reads made for it. */
  predicate FleetUnchanged(row: Option<VersionRow>, d: Deployment, seen: seq<Option<Snapshot>>)
    requires |seen| == |d.targets|
  {
    forall i :: 0 <= i < |seen| ==> seen[i].Some? && TargetUnchanged(row, d, d.targets[i], seen[i].value)
  }

  /** The Deploy call for target k, with its answer. */
  function MadeCall(id: nat, version: string, row: Option<VersionRow>, snapshot: Snapshot, k: nat,
                    answer: Outcome): Call {
    Call(id, k, version, if row.Some? then row.value.artifact else "", snapshot, Returned(answer))
  }

  /** The first n calls of a fleet, in the frozen order. */
  function Calls(id: nat, version: string, row: Option<VersionRow>, prepared: seq<Snapshot>, answers: seq<Outcome>,
                 n: nat): seq<Call>
    requires n <= |prepared| && n <= |answers|
  {
    if n == 0 then []
    else
      Calls(id, version, row, prepared, answers, n - 1) +
      [MadeCall(id, version, row, prepared[n - 1], n - 1, answers[n - 1])]
  }

  /** How many calls a fleet with these answers receives: up to and including the first failure. */
  function CallsMade(answers: seq<Outcome>): (n: nat)
    ensures n <= |answers|
  {
    if FirstFailure(answers) < |answers| then FirstFailure(answers) + 1 else |answers|
  }

  /** A target is called exactly if every target before it answered Ok. */
  lemma CalledExactlyWhen(answers: seq<Outcome>, i: nat)
    requires i < |answers|
    ensures i < CallsMade(answers) <==> forall j :: 0 <= j < i ==> answers[j] == Ok
  {
  }

  /** The calls of a fleet, each once, in order, with the snapshot read for its target and the artifact of the
      version. */
  lemma {:induction false} CallsOfFleet(id: nat, version: string, row: VersionRow, prepared: seq<Snapshot>,
                                        answers: seq<Outcome>, n: nat)
    requires n <= |prepared| && n <= |answers|
    ensures var calls := Calls(id, version, Some(row), prepared, answers, n);
      |calls| == n && forall i :: 0 <= i < n ==>
        calls[i] == Call(id, i, version, row.artifact, prepared[i], Returned(answers[i]))
  {
    if n > 0 {
      CallsOfFleet(id, version, row, prepared, answers, n - 1);
    }
  }

  lemma QueuedRowIsFresh(s: State, id: nat)
    requires Inv(s) && id < |s.deps|
    ensures |s.deps[id].targets| >= 1
    ensures s.deps[id].status == Queued ==> AllTargets(s.deps[id], TQueued)
  {
    assert GoodAt(s, id);
  }

  ghost predicate Closed(states: iset<State>) {
    forall s, a {:trigger Step(s, a)} :: s in states ==> Step(s, a) in states
  }

  /** The reachable states are such a set, and so are the states that satisfy the invariant. */
  lemma ReachableStatesAreClosed()
    ensures Closed(iset actions: seq<Action> | true :: Run(Init, actions))
    ensures Closed(iset s | Inv(s))
  {
    var all := iset actions: seq<Action> | true :: Run(Init, actions);
    forall s, a {:trigger Step(s, a)} | s in all ensures Step(s, a) in all {
      var actions: seq<Action> :| s == Run(Init, actions);
      RunSteps(Init, actions, a);
      assert Step(s, a) == Run(Init, actions + [a]);
    }
    forall s, a {:trigger Step(s, a)} | Inv(s) ensures Inv(Step(s, a)) {
      StepKeepsInv(s, a);
    }
  }

  class Controller {
    var deps: seq<Deployment>
    var versions: map<(string, string), VersionRow>
    var draining: bool
    var events: seq<HookEvent>
    ghost var waiting: set<nat>
    ghost var dryRuns: map<nat, DryStage>
    ghost var worker: Option<Worker>
    ghost var inFlight: multiset<VersionRequest>
    ghost var pc: Option<Executor>
    ghost var log: seq<Call>
    ghost const states: iset<State>

    ghost function Abs(): State
      reads this
    {
      State(deps, events, versions, true, draining, waiting, pc, dryRuns, worker, inFlight, log)
    }

    ghost predicate Valid()
      reads this
    {
      Closed(states) && Abs() in states
    }

    ghost predicate At(id: nat, stage: Stage)
      reads this
    {
      Valid() && id < |deps| && pc == Some(Executor(id, stage))
    }

    /** The next protocol state, before the fields are written. */
    lemma Follow(a: Action)
      requires Valid()
      ensures Step(Abs(), a) in states
    {
    }

    ghost function NextMove(a: ExecutorAction, id: nat, stage: Stage): Move
      requires id < |deps|
      reads this
    {
      ExecutorMove(a, id, deps[id], stage, Row(versions, deps[id]), draining)
    }

    /** One UPDATE of the deployment's rows (or a read, when the row stays as it is). */
    method Write(id: nat, d: Deployment, ghost stage: Stage, ghost a: ExecutorAction)
      requires At(id, stage) && NextMove(a, id, stage).dep == d && NextMove(a, id, stage).change == NoCall
      modifies `deps, `pc
      ensures Valid() && deps == old(deps)[id := d]
      ensures pc == SetMutex(id, old(NextMove(a, id, stage)).stage)
    {
      Follow(Execute(a));
      pc := SetMutex(id, NextMove(a, id, stage).stage);
      deps := deps[id := d];
    }

    /** MarkPushDeploymentRunning: the compare-and-set from queued to running. */
    method MarkPushDeploymentRunning(id: nat) returns (claimed: bool)
      requires At(id, Admitted)
      modifies `deps, `pc
      ensures Valid() && claimed == (old(deps)[id].status == Queued)
      ensures deps == old(deps)[id := if claimed then old(deps)[id].(status := Running) else old(deps)[id]]
      ensures claimed ==> At(id, Validating([]))
      ensures !claimed ==> pc == None
    {
      claimed := deps[id].status == Queued;
      Write(id, if claimed then deps[id].(status := Running) else deps[id], Admitted, Claim);
    }

    /** Reads every target of the frozen fleet; stops at the first one that has changed. */
    method ValidateFleet(id: nat, seen: seq<Option<Snapshot>>) returns (ok: bool, prepared: seq<Snapshot>)
      requires At(id, Validating([])) && |seen| == |deps[id].targets|
      modifies `deps, `pc
      ensures deps == old(deps) && ok == FleetUnchanged(Row(versions, deps[id]), deps[id], seen)
      ensures ok ==> At(id, Validating(prepared)) && |prepared| == |seen|
      ensures ok ==> prepared == Seen(seen)
      ensures !ok ==> At(id, Failing(0))
    {
      prepared := [];
      for i := 0 to |seen|
        invariant deps == old(deps) && At(id, Validating(prepared)) && |prepared| == i
        invariant forall j :: 0 <= j < i ==> seen[j].Some? && prepared[j] == seen[j].value
                                             && TargetUnchanged(Row(versions, deps[id]), deps[id], deps[id].targets[j],
                                                                seen[j].value)
      {
        Write(id, deps[id], Validating(prepared), ValidateTarget(seen[i]));
        if seen[i].None? || !TargetUnchanged(Row(versions, deps[id]), deps[id], deps[id].targets[i], seen[i].value) {
          return false, prepared;
        }
        prepared := prepared + [seen[i].value];
      }
      ok := true;
    }

    /** failPushBeforeExecution: every target is failed, no Deploy is called. */
    method FailPushBeforeExecution(id: nat)
      requires At(id, Failing(0)) && |deps[id].targets| >= 1
      modifies `deps, `pc
      ensures Valid() && pc == None
      ensures deps == old(deps)[id := Paint(old(deps)[id], 0, |old(deps)[id].targets|, TFailed).(status := Failed)]
    {
      var n := |deps[id].targets|;
      for i := 0 to n
        invariant deps == old(deps)[id := Paint(old(deps)[id], 0, i, TFailed)]
        invariant if i < n then At(id, Failing(i)) else At(id, Counting)
      {
        Write(id, MarkTarget(deps[id], i, TFailed), Failing(i), MarkFailed);
      }
      PaintStatuses(old(deps)[id], 0, n, TFailed);
      assert deps[id].targets[0].status == TFailed;
      CompletePushDeployment(id);
    }

    /** CompletePushDeployment: counts the targets that did not succeed, then writes the final status. */
    method CompletePushDeployment(id: nat)
      requires At(id, Counting)
      modifies `deps, `pc
      ensures Valid() && pc == None
      ensures deps == old(deps)[id := old(deps)[id].(status := if AllTargets(old(deps)[id], TSuccess) then Success
                                                     else Failed)]
    {
      var failures := 0;
      for i := 0 to |deps[id].targets|
        invariant failures == 0 <==> forall j :: 0 <= j < i ==> deps[id].targets[j].status == TSuccess
        invariant failures >= 0
      {
        if deps[id].targets[i].status != TSuccess {
          failures := failures + 1;
        }
      }
      Write(id, deps[id], Counting, CountFailures);
      Write(id, deps[id].(status := if failures > 0 then Failed else Success), Finishing(failures == 0), Complete);
    }

    /** The remote call is in the log from the moment it is made. */
    method CallRemote(id: nat, prepared: seq<Snapshot>, k: nat)
      requires At(id, Marked(prepared, k)) && k < |prepared|
      modifies `pc, `log
      ensures At(id, InFlight(prepared, k))
      ensures log == old(log) + [MadeCall(id, deps[id].version, Row(versions, deps[id]), prepared[k], k,
                                          Ok).(state := Pending)]
    {
      Follow(Execute(CallDeploy));
      ghost var m := NextMove(CallDeploy, id, Marked(prepared, k));
      assert deps[id := deps[id]] == deps;
      pc := Some(Executor(id, InFlight(prepared, k)));
      log := log + [m.change.call];
    }

    method ReceiveAnswer(id: nat, prepared: seq<Snapshot>, k: nat, answer: Outcome)
      requires At(id, InFlight(prepared, k)) && log != []
      modifies `pc, `log
      ensures At(id, Answered(prepared, k, answer))
      ensures log == old(log)[|old(log)| - 1 := old(log)[|old(log)| - 1].(state := Returned(answer))]
    {
      Follow(Execute(DeployReturns(answer)));
      assert deps[id := deps[id]] == deps;
      pc := Some(Executor(id, Answered(prepared, k, answer)));
      log := log[|log| - 1 := log[|log| - 1].(state := Returned(answer))];
    }

    /** One turn of the serial loop: mark running, call Deploy, record its answer. */
    method ExecuteTarget(id: nat, prepared: seq<Snapshot>, k: nat, answer: Outcome)
      requires At(id, Executing(prepared, k)) && k < |prepared| && k < |deps[id].targets|
      modifies `deps, `pc, `log
      ensures deps == old(deps)[id := MarkTarget(old(deps)[id], k, Recorded(answer))]
      ensures At(id, After(deps[id], k, if answer == Ok then Executing(prepared, k + 1) else Skipping(k + 1)))
      ensures log == old(log) + [MadeCall(id, old(deps)[id].version, Row(versions, old(deps)[id]), prepared[k], k,
                                          answer)]
    {
      Write(id, MarkTarget(deps[id], k, TRunning), Executing(prepared, k), MarkRunning);
      CallRemote(id, prepared, k);
      ReceiveAnswer(id, prepared, k, answer);
      Write(id, MarkTarget(deps[id], k, Recorded(answer)), Answered(prepared, k, answer), RecordResult);
      assert deps[id].targets == old(deps)[id].targets[k := old(deps)[id].targets[k].(status := Recorded(answer))];
    }

    method SkipRemaining(id: nat, k: nat)
      requires id < |deps| && k <= |deps[id].targets|
      requires if k < |deps[id].targets| then At(id, Skipping(k)) else At(id, Counting)
      modifies `deps, `pc
      ensures At(id, Counting)
      ensures deps == old(deps)[id := Paint(old(deps)[id], k, |old(deps)[id].targets|, TSkipped)]
    {
      var n := |deps[id].targets|;
      for i := k to n
        invariant deps == old(deps)[id := Paint(old(deps)[id], k, i, TSkipped)]
        invariant if i < n then At(id, Skipping(i)) else At(id, Counting)
      {
        Write(id, MarkTarget(deps[id], i, TSkipped), Skipping(i), MarkSkipped);
      }
    }

    /** The serial loop over the fleet: stops at the first Deploy that does not return Ok. */
    method ExecuteFleet(id: nat, prepared: seq<Snapshot>, answers: seq<Outcome>)
      requires At(id, Executing(prepared, 0)) && |prepared| == |answers| == |deps[id].targets| >= 1
      modifies `deps, `pc, `log
      ensures At(id, Counting) && deps == old(deps)[id := FleetResult(old(deps)[id], answers)]
      ensures log == old(log) + Calls(id, old(deps)[id].version, Row(versions, old(deps)[id]), prepared, answers,
                                      CallsMade(answers))
    {
      var n := |answers|;
      ghost var was, row, before := deps[id], Row(versions, deps[id]), log;
      for k := 0 to n
        invariant k <= FirstFailure(answers) && deps == old(deps)[id := Paint(was, 0, k, TSuccess)]
        invariant if k < n then At(id, Executing(prepared, k)) else At(id, Counting)
        invariant log == before + Calls(id, was.version, row, prepared, answers, k)
      {
        ExecuteTarget(id, prepared, k, answers[k]);
        assert log == before + Calls(id, was.version, row, prepared, answers, k + 1);
        if answers[k] != Ok {
          SkipRemaining(id, k + 1);
          return;
        }
      }
    }

    /** Everything that happens before the first node is touched; a refused fleet is failed as a whole. */
    method Prepare(id: nat, publicUrl: bool, seen: seq<Option<Snapshot>>, requester: bool)
      returns (accepted: bool, prepared: seq<Snapshot>)
      requires At(id, Validating([])) && |seen| == |deps[id].targets| >= 1
      modifies `deps, `pc
      ensures accepted == (publicUrl && FleetUnchanged(Row(versions, old(deps)[id]), old(deps)[id], seen) && requester)
      ensures accepted ==> At(id, Executing(prepared, 0)) && deps == old(deps) && |prepared| == |seen|
      ensures accepted ==> prepared == Seen(seen)
      ensures !accepted ==> Valid() && pc == None
      ensures !accepted ==> deps == old(deps)[id := Paint(old(deps)[id], 0, |seen|, TFailed).(status := Failed)]
    {
      prepared := [];
      Write(id, deps[id], Validating([]), CheckPublicUrl(publicUrl));
      accepted := publicUrl;
      if accepted {
        accepted, prepared := ValidateFleet(id, seen);
      }
      if accepted {
        Write(id, deps[id], Validating(prepared), CheckRequester(requester));
        accepted := requester;
      }
      if !accepted {
        FailPushBeforeExecution(id);
      }
    }

    /** The accepted fleet, from its first node to the final status. */
    method ExecuteAndComplete(id: nat, prepared: seq<Snapshot>, answers: seq<Outcome>)
      requires At(id, Executing(prepared, 0)) && |prepared| == |answers| == |deps[id].targets| >= 1
      modifies `deps, `pc, `log
      ensures Valid() && pc == None
      ensures deps == old(deps)[id := FleetResult(old(deps)[id],
                                                  answers).(status := if FirstFailure(answers) == |answers| then
                                                            Success else Failed)]
      ensures log == old(log) + Calls(id, old(deps)[id].version, Row(versions, old(deps)[id]), prepared, answers,
                                      CallsMade(answers))
    {
      FleetResultStatuses(deps[id], answers);
      ExecuteFleet(id, prepared, answers);
      CompletePushDeployment(id);
    }

    /** Taking the mutex. */
    method Acquire(id: nat)
      requires Valid() && id in waiting && pc == None && id < |deps|
      modifies `waiting, `pc
      ensures At(id, Locked)
    {
      Follow(Lock(id));
      waiting := waiting - {id};
      pc := Some(Executor(id, Locked));
    }

    /** runPushDeployment, from taking the mutex to releasing it. */
    method RunPushDeployment(id: nat, publicUrl: bool, seen: seq<Option<Snapshot>>, requester: bool,
                             answers: seq<Outcome>)
      requires Valid() && Inv(Abs()) && id in waiting && pc == None
      requires id < |deps| && |seen| == |answers| == |deps[id].targets|
      modifies `deps, `waiting, `pc, `log
      ensures Valid() && pc == None
      ensures draining || old(deps)[id].status != Queued ==> deps == old(deps) && log == old(log)
      ensures !draining && old(deps)[id].status == Queued ==>
        var was := old(deps)[id];
        var accepted := publicUrl && FleetUnchanged(Row(versions, was), was, seen) && requester;
        && deps == old(deps)[id := RunResult(was, accepted, answers)]
        && (!accepted ==> log == old(log))
        && (accepted ==> log == old(log) + Calls(id, was.version, Row(versions, was), Seen(seen), answers,
                                                 CallsMade(answers)))
    {
      QueuedRowIsFresh(Abs(), id);
      Acquire(id);
      RunLocked(id, publicUrl, seen, requester, answers);
    }

    /** The part under the mutex. */
    method RunLocked(id: nat, publicUrl: bool, seen: seq<Option<Snapshot>>, requester: bool, answers: seq<Outcome>)
      requires At(id, Locked) && |seen| == |answers| == |deps[id].targets| >= 1
      modifies `deps, `pc, `log
      ensures Valid() && pc == None
      ensures draining || old(deps)[id].status != Queued ==> deps == old(deps) && log == old(log)
      ensures !draining && old(deps)[id].status == Queued ==>
        var was := old(deps)[id];
        var accepted := publicUrl && FleetUnchanged(Row(versions, was), was, seen) && requester;
        && deps == old(deps)[id := RunResult(was, accepted, answers)]
        && (!accepted ==> log == old(log))
        && (accepted ==> log == old(log) + Calls(id, was.version, Row(versions, was), Seen(seen), answers,
                                                 CallsMade(answers)))
    {
      StatusDoesNotMatter(Row(versions, deps[id]), deps[id], seen);
      Write(id, deps[id], Locked, CheckDrain);
      if draining {
        return;
      }
      var claimed := MarkPushDeploymentRunning(id);
      if claimed {
        RunClaimed(id, publicUrl, seen, requester, answers);
      }
    }

    /** The part after the claim. */
    method RunClaimed(id: nat, publicUrl: bool, seen: seq<Option<Snapshot>>, requester: bool, answers: seq<Outcome>)
      requires At(id, Validating([])) && |seen| == |answers| == |deps[id].targets| >= 1
      modifies `deps, `pc, `log
      ensures Valid() && pc == None
      ensures var was := old(deps)[id];
        var accepted := publicUrl && FleetUnchanged(Row(versions, was), was, seen) && requester;
        && deps == old(deps)[id := Ended(was, accepted, answers)]
        && (!accepted ==> log == old(log))
        && (accepted ==> log == old(log) + Calls(id, was.version, Row(versions, was), Seen(seen), answers,
                                                 CallsMade(answers)))
    {
      var accepted, prepared := Prepare(id, publicUrl, seen, requester);
      if accepted {
        ExecuteAndComplete(id, prepared, answers);
      }
    }

    /******* Dry runs *******/

    ghost predicate DryAt(id: nat, stage: DryStage)
      reads this
    {
      Valid() && id < |deps| && id in dryRuns && dryRuns[id] == stage
    }

    /** One store access of a dry run. */
    method WriteDry(id: nat, d: Deployment, ghost stage: DryStage)
      requires DryAt(id, stage) && DryMove(deps[id], stage).0 == d
      modifies `deps, `dryRuns
      ensures Valid() && deps == old(deps)[id := d]
      ensures var next := DryMove(old(deps)[id], stage).1;
        dryRuns == if next.None? then old(dryRuns) - {id} else old(dryRuns)[id := next.value]
    {
      Follow(DryRunStep(id));
      ghost var next := DryMove(deps[id], stage).1;
      dryRuns := if next.None? then dryRuns - {id} else dryRuns[id := next.value];
      deps := deps[id := d];
    }

    /** completePushDryRun: a queued row ends successful with all targets, and no Deploy is called. */
    method CompletePushDryRun(id: nat)
      requires DryAt(id, DryStart) && |deps[id].targets| >= 1
      modifies `deps, `dryRuns
      ensures Valid() && id !in dryRuns
      ensures deps == old(deps)[id := if old(deps)[id].status != Queued then old(deps)[id]
                                      else Paint(old(deps)[id].(status := Running), 0, |old(deps)[id].targets|,
                                                 TSuccess).(status := Success)]
    {
      var claimed := deps[id].status == Queued;
      WriteDry(id, if claimed then deps[id].(status := Running) else deps[id], DryStart);
      if !claimed {
        return;
      }
      ghost var was := deps[id];
      var n := |deps[id].targets|;
      for i := 0 to n
        invariant id < |deps| && |deps| == |old(deps)| && deps == old(deps)[id := Paint(was, 0, i, TSuccess)]
        invariant DryAt(id, if i < n then DryMarking(i) else DryCounting)
      {
        WriteDry(id, MarkTarget(deps[id], i, TSuccess), DryMarking(i));
      }
      PaintStatuses(was, 0, n, TSuccess);
      assert AllTargets(deps[id], TSuccess);
      WriteDry(id, deps[id], DryCounting);
      WriteDry(id, deps[id].(status := Success), DryFinishing(true));
    }

    /******* The hook worker *******/

    ghost predicate WorkerAt(event: nat, stage: WorkerStage)
      reads this
    {
      Valid() && event < |events| && worker == Some(Worker(event, stage))
    }

    /** CompleteReleaseHookRun on the event row. */
    method CompleteReleaseHookRun(event: nat, status: EventStatus, deployment: Option<nat>, ghost a: WorkerAction,
                                  ghost next: Option<Worker>)
      requires Valid() && event < |events|
      requires StepWorker(Abs(), a) == Resolve(Abs(), event, status, deployment).(worker := next)
      modifies `events, `worker
      ensures Valid() && worker == next
      ensures events == old(events)[event := old(events)[event].(status := status, deployment := deployment)]
    {
      Follow(Work(a));
      events := events[event := events[event].(status := status, deployment := deployment)];
      worker := next;
    }

    method GetPushDeploymentByHookEvent(event: nat) returns (found: Option<nat>)
      ensures found == if HasDeployment(deps, event) then Some(FirstFor(deps, event)) else None
    {
      for i := 0 to |deps|
        invariant forall j :: 0 <= j < i ==> deps[j].hookEvent != event + 1
      {
        if deps[i].hookEvent == event + 1 {
          return Some(i);
        }
      }
      found := None;
    }

    /** The deployment of an event, as stored now: the one it already has, or a new one for its frozen targets; none
        exactly if there is neither. */
    method FindOrCreate(event: nat, frozen: Option<seq<Target>>) returns (id: Option<nat>)
      requires WorkerAt(event, Checked)
      requires frozen.Some? ==> FrozenTargets(events[event].project, events[event].version, frozen.value)
      modifies `deps, `worker
      ensures id == if HasDeployment(old(deps), event) || frozen.Some? then Some(FirstFor(old(deps), event)) else None
      ensures id.Some? ==> id.value < |deps| && WorkerAt(event, Found(id.value, !Finished(deps[id.value])))
      ensures id.Some? ==> deps[id.value].hookEvent == event + 1
      ensures id.None? ==> WorkerAt(event, Checked) && deps == old(deps)
      ensures HasDeployment(old(deps), event) ==> deps == old(deps)
      ensures frozen.Some? ==> deps == WithDeployment(old(deps), events[event], event, frozen.value)
    {
      id := GetPushDeploymentByHookEvent(event);
      if id.Some? {
        Follow(Work(Find(id.value)));
        worker := Some(Worker(event, Found(id.value, !Finished(deps[id.value]))));
      } else if frozen.Some? {
        id := Some(|deps|);
        CreateHookDeployment(event, frozen.value);
      }
    }

    /** The insert of a queued row for the event. */
    method CreateHookDeployment(event: nat, frozen: seq<Target>)
      requires WorkerAt(event, Checked) && !HasDeployment(deps, event)
      requires FrozenTargets(events[event].project, events[event].version, frozen)
      modifies `deps, `worker
      ensures deps == WithDeployment(old(deps), events[event], event, frozen)
      ensures WorkerAt(event, Found(|old(deps)|, true))
    {
      Follow(Work(CreateFor(frozen)));
      worker := Some(Worker(event, Found(|deps|, true)));
      deps := deps + [Deployment(events[event].project, events[event].version, "", event + 1, false, Queued, frozen)];
    }

    /** The deployment of an event is run unless it was finished when it was looked up. */
    method RunForHook(event: nat, id: nat, fleet: Fleet)
      requires id < |deps| && WorkerAt(event, Noted(id, !Finished(deps[id]))) && pc == None
      requires forall s :: s in states ==> Inv(s)
      modifies `deps, `waiting, `pc, `log, `worker
      ensures WorkerAt(event, Ran(id)) && pc == None && |deps| == |old(deps)|
      ensures RunLeaves(old(deps), old(log), versions, draining, id, fleet, deps, log)
    {
      Follow(Work(CallRun));
      var run := !Finished(deps[id]);
      waiting := if run then waiting + {id} else waiting;
      worker := Some(Worker(event, Ran(id)));
      if run {
        RunOne(id, fleet);
      }
    }

    /** One whole run. */
    method RunOne(id: nat, fleet: Fleet)
      requires Valid() && Inv(Abs()) && id in waiting && pc == None && id < |deps|
      modifies `deps, `waiting, `pc, `log
      ensures Valid() && pc == None && |deps| == |old(deps)|
      ensures RunLeaves(old(deps), old(log), versions, draining, id, fleet, deps, log)
    {
      var n := |deps[id].targets|;
      RunPushDeployment(id, fleet.publicUrl, fleet.Seen(n), fleet.requester, fleet.Answers(n));
    }

    /** dispatchReleaseHook.  It gives up, changing nothing else, exactly if the release task is missing, the version is
        not published, or the event has neither a deployment nor targets to freeze; otherwise the deployment it has,
        or a new one, is run, and the event is successful exactly if that deployment is read back as successful. */
    method DispatchReleaseHook(event: nat, taskFound: bool, frozen: Option<seq<Target>>, fleet: Fleet, readBack: bool)
      requires WorkerAt(event, Looking) && pc == None && forall s :: s in states ==> Inv(s)
      requires frozen.Some? ==> FrozenTargets(events[event].project, events[event].version, frozen.value)
      modifies `deps, `events, `waiting, `pc, `log, `worker
      ensures Valid() && worker == None && pc == None
      ensures |events| == |old(events)| && events == old(events)[event := events[event]]
      ensures Dispatches(old(deps), old(events)[event], event, taskFound, versions, frozen) ==>
        var id := FirstFor(old(deps), event);
        && events[event] == old(events)[event].(status := events[event].status, deployment := Some(id))
        && id < |deps|
        && events[event].status == (if readBack && deps[id].status == Success then EventSuccess else EventFailed)
        && RunLeaves(DispatchRows(old(deps), old(events)[event], event, frozen), old(log), versions, draining, id,
                     fleet, deps, log)
      ensures !Dispatches(old(deps), old(events)[event], event, taskFound, versions, frozen) ==>
        && events[event] == old(events)[event].(status := EventFailed, deployment := None)
        && deps == old(deps) && log == old(log)
    {
      if !taskFound || !VersionPublished(versions, events[event].project, events[event].version) {
        RefuseEvent(event);
        return;
      }
      SeeVersion(event);
      DispatchPublished(event, frozen, fleet, readBack);
    }

    /** The event is failed without a deployment. */
    method RefuseEvent(event: nat)
      requires WorkerAt(event, Looking) || WorkerAt(event, Checked)
      modifies `events, `worker
      ensures Valid() && worker == None
      ensures events == old(events)[event := old(events)[event].(status := EventFailed, deployment := None)]
    {
      CompleteReleaseHookRun(event, EventFailed, None, GiveUp, None);
    }

    /** The part after the version check. */
    method DispatchPublished(event: nat, frozen: Option<seq<Target>>, fleet: Fleet, readBack: bool)
      requires WorkerAt(event, Checked) && pc == None && forall s :: s in states ==> Inv(s)
      requires frozen.Some? ==> FrozenTargets(events[event].project, events[event].version, frozen.value)
      modifies `deps, `events, `waiting, `pc, `log, `worker
      ensures Valid() && worker == None && pc == None
      ensures |events| == |old(events)| && events == old(events)[event := events[event]]
      ensures HasDeployment(old(deps), event) || frozen.Some? ==>
        var id := FirstFor(old(deps), event);
        && events[event] == old(events)[event].(status := events[event].status, deployment := Some(id))
        && id < |deps|
        && events[event].status == (if readBack && deps[id].status == Success then EventSuccess else EventFailed)
        && RunLeaves(DispatchRows(old(deps), old(events)[event], event, frozen), old(log), versions, draining, id,
                     fleet, deps, log)
      ensures !HasDeployment(old(deps), event) && frozen.None? ==>
        && events[event] == old(events)[event].(status := EventFailed, deployment := None)
        && deps == old(deps) && log == old(log)
    {
      var found := FindOrCreate(event, frozen);
      if found.None? {
        RefuseEvent(event);
        return;
      }
      RunAndRecord(event, found.value, fleet, readBack);
    }

    /** The read that finds the version published. */
    method SeeVersion(event: nat)
      requires WorkerAt(event, Looking) && VersionPublished(versions, events[event].project, events[event].version)
      modifies `worker
      ensures WorkerAt(event, Checked)
    {
      Follow(Work(CheckVersion));
      worker := Some(Worker(event, Checked));
    }

    method RunAndRecord(event: nat, id: nat, fleet: Fleet, readBack: bool)
      requires id < |deps|
      requires WorkerAt(event, Found(id, !Finished(deps[id]))) && pc == None && forall s :: s in states ==> Inv(s)
      modifies `deps, `events, `waiting, `pc, `log, `worker
      ensures Valid() && worker == None && pc == None && |events| == |old(events)| && |deps| == |old(deps)|
      ensures var status := if readBack && deps[id].status == Success then EventSuccess else EventFailed;
        events == old(events)[event := old(events)[event].(status := status, deployment := Some(id))]
      ensures RunLeaves(old(deps), old(log), versions, draining, id, fleet, deps, log)
    {
      NoteDeployment(event, id, !Finished(deps[id]));
      RunForHook(event, id, fleet);
      RecordEvent(event, id, readBack);
    }

    method NoteDeployment(event: nat, id: nat, ghost run: bool)
      requires WorkerAt(event, Found(id, run))
      modifies `events, `worker
      ensures WorkerAt(event, Noted(id, run))
      ensures events == old(events)[event := old(events)[event].(status := EventRunning, deployment := Some(id))]
    {
      CompleteReleaseHookRun(event, EventRunning, Some(id), Note, Some(Worker(event, Noted(id, run))));
    }

    method RecordEvent(event: nat, id: nat, readBack: bool)
      requires WorkerAt(event, Ran(id)) && id < |deps|
      modifies `events, `worker
      ensures Valid() && worker == None && |events| == |old(events)|
      ensures var status := if readBack && deps[id].status == Success then EventSuccess else EventFailed;
        events == old(events)[event := old(events)[event].(status := status, deployment := Some(id))]
    {
      if !readBack {
        CompleteReleaseHookRun(event, EventFailed, Some(id), GiveUp, None);
      } else {
        CompleteReleaseHookRun(event, ResultOf(deps[id]), Some(id), Record, None);
      }
    }

    /******* Recovery *******/

    /** InterruptPushDeployments, in one transaction while the process starts: every unfinished row becomes final. */
    method InterruptPushDeployments()
      requires Closed(states) && Abs().(up := false) in states
      modifies `deps
      ensures Valid() && |deps| == |old(deps)| && forall i :: 0 <= i < |deps| ==> Interrupted(old(deps)[i], deps[i])
    {
      ghost var restarted := Step(Abs().(up := false), Restart);
      assert restarted in states;
      var before, out := deps, deps;
      for i := 0 to |before|
        invariant |out| == |before| && forall j :: 0 <= j < |before| ==>
          out[j] == if j < i then Interrupt(before[j]) else before[j]
      {
        var d := InterruptRow(out[i]);
        out := out[i := d];
      }
      assert out == restarted.deps;
      deps := out;
      forall i | 0 <= i < |before| ensures Interrupted(before[i], deps[i]) {
        InterruptMeans(before[i]);
      }
    }
  }

  /** What the restart makes of a row, status by status: a finished one stays; an unfinished one is failed, its running
      targets are unknown, its queued ones skipped, and the others stay. */
  predicate Interrupted(d: Deployment, r: Deployment) {
    if d.status == Success || d.status == Failed then r == d
    else
      && r.status == Failed && r.(status := d.status, targets := d.targets) == d && |r.targets| == |d.targets|
      && forall i :: 0 <= i < |d.targets| ==>
           match d.targets[i].status
           case TRunning => r.targets[i] == d.targets[i].(status := TUnknown)
           case TQueued => r.targets[i] == d.targets[i].(status := TSkipped)
           case _ => r.targets[i] == d.targets[i]
  }

  lemma InterruptMeans(d: Deployment)
    ensures Interrupted(d, Interrupt(d))
  {
  }

  /** The two updates on the rows of one deployment: first its targets, then itself. */
  method InterruptRow(d: Deployment) returns (r: Deployment)
    ensures r == Interrupt(d)
  {
    r := d;
    if d.status == Running || d.status == Queued {
      var targets := d.targets;
      for i := 0 to |d.targets|
        invariant |targets| == |d.targets|
        invariant forall j :: 0 <= j < |targets| ==> targets[j] == if j < i then InterruptTarget(d.targets[j])
          else d.targets[j]
      {
        if targets[i].status == TRunning {
          targets := targets[i := targets[i].(status := TUnknown)];
        } else if targets[i].status == TQueued {
          targets := targets[i := targets[i].(status := TSkipped)];
        }
      }
      assert targets == Interrupt(d).targets;
      r := d.(status := Failed, targets := targets);
    }
  }

  /** The snapshots of a fleet whose reads all succeeded. */
  function Seen(seen: seq<Option<Snapshot>>): seq<Snapshot>
    requires forall i :: 0 <= i < |seen| ==> seen[i].Some?
  {
    seq(|seen|, i requires 0 <= i < |seen| => seen[i].value)
  }
}
