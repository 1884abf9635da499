/**
 Exactly when the remaining calls of a validated deployment use the artifact that was frozen for their targets.
 */
module PushArtifact {
  import opened Options
  import opened PushPlan
  import opened PushProtocol
  import opened PushInvariant
  import opened PushSteps
  import opened PushTheorems
  import opened PushPin

  /** The thread that holds the mutex is about to deal with target k of this deployment. */
  predicate AtTarget(s: State, id: nat, prepared: seq<Snapshot>, k: nat) {
    id < |s.deps| && s.mutex == Some(Executor(id, Executing(prepared, k)))
  }

  /** The call for target j, if there is one, used the artifact frozen for it. */
  predicate CallFrozen(s: State, id: nat, j: nat) {
    forall i :: 0 <= i < |s.log| && CallFor(s.log[i], id, j) ==>
      id < |s.deps| && j < |s.deps[id].targets| && ArtifactOf(s.deps[id].targets[j], s.log[i].artifact)
  }

  /******* If nothing can change the row *******/

  /** The calls from number k on used this artifact. */
  predicate LaterCalls(h: seq<Call>, k: nat, artifact: string) {
    forall i :: k <= i < |h| ==> h[i].artifact == artifact
  }

  predicate LaterCallsOf(s: State, id: nat, k: nat, artifact: string) {
    LaterCalls(Hist(s.log, id), k, artifact)
  }

  /** A new call takes the artifact of the row as it is then. */
  lemma MoveKeepsLater(a: ExecutorAction, id: nat, h: seq<Call>, d: Deployment, st: Stage, row: Option<VersionRow>,
                       draining: bool, k: nat, artifact: string)
    requires Good(h, d, Executes(st)) && LaterCalls(h, k, artifact)
    requires d.status == Running ==> row == Some(VersionRow(Published, artifact))
    ensures LaterCalls(Apply(h, ExecutorMove(a, id, d, st, row, draining).change), k, artifact)
  {
  }

  lemma ExecutorKeepsLater(s: State, a: ExecutorAction, id: nat, k: nat, artifact: string)
    requires Core(s) && id < |s.deps| && LaterCallsOf(s, id, k, artifact)
    requires s.deps[id].status == Running ==> Row(s.versions, s.deps[id]) == Some(VersionRow(Published, artifact))
    ensures LaterCallsOf(StepExecutor(s, a), id, k, artifact)
  {
    if s.mutex.Some? {
      var actor, st := s.mutex.value.id, s.mutex.value.stage;
      var d, row := s.deps[actor], Row(s.versions, s.deps[actor]);
      ExecutorLogFollows(a, actor, d, st, row, s.draining);
      HistApply(s.log, ExecutorMove(a, actor, d, st, row, s.draining).change, id, actor);
      if actor == id {
        OwnMoveKeepsLater(s, a, id, k, artifact);
      }
    }
  }

  lemma OwnMoveKeepsLater(s: State, a: ExecutorAction, id: nat, k: nat, artifact: string)
    requires Core(s) && id < |s.deps| && LaterCallsOf(s, id, k, artifact) && s.mutex.Some? && s.mutex.value.id == id
    requires s.deps[id].status == Running ==> Row(s.versions, s.deps[id]) == Some(VersionRow(Published, artifact))
    ensures var m := ExecutorMove(a, id, s.deps[id], s.mutex.value.stage, Row(s.versions, s.deps[id]), s.draining);
      LaterCalls(Apply(Hist(s.log, id), m.change), k, artifact)
  {
    assert GoodAt(s, id);
    MoveKeepsLater(a, id, Hist(s.log, id), s.deps[id], s.mutex.value.stage, Row(s.versions, s.deps[id]), s.draining, k,
                   artifact);
  }

  lemma OtherKeepsLater(s: State, a: Action, id: nat, k: nat, artifact: string)
    requires Core(s) && id < |s.deps| && LaterCallsOf(s, id, k, artifact) && !a.Execute?
    ensures LaterCallsOf(Step(s, a), id, k, artifact)
  {
    if a.Crash? {
      CrashKeepsArtifacts(s, id);
    } else {
      OnlyExecutorCalls(s, a);
    }
  }

  lemma {:induction false} LaterRun(s: State, actions: seq<Action>, id: nat, k: nat, artifact: string)
    requires Inv(s) && id < |s.deps| && ArtifactPinned(s, s.deps[id]) && LaterCallsOf(s, id, k, artifact)
    requires Row(s.versions, s.deps[id]) == Some(VersionRow(Published, artifact))
    ensures LaterCallsOf(Run(s, actions), id, k, artifact)
  {
    if actions != [] {
      var n := |actions| - 1;
      var mid := Run(s, actions[..n]);
      LaterRun(s, actions[..n], id, k, artifact);
      StillRun(s, actions[..n], id);
      RunEvolves(s, actions[..n]);
      RunKeepsInv(s, actions[..n]);
      SameVersion(s, mid, id);
      HeldByName(mid, mid.deps[id], s.deps[id]);
      if actions[n].Execute? {
        ExecutorKeepsLater(mid, actions[n].executor, id, k, artifact);
      } else {
        OtherKeepsLater(mid, actions[n], id, k, artifact);
      }
    }
  }

  lemma LaterCallIsFrozen(s: State, id: nat, k: nat, j: nat, artifact: string)
    requires Core(s) && id < |s.deps| && LaterCallsOf(s, id, k, artifact) && k <= j < |s.deps[id].targets|
    requires ArtifactOf(s.deps[id].targets[j], artifact)
    ensures CallFrozen(s, id, j)
  {
    forall i | 0 <= i < |s.log| && CallFor(s.log[i], id, j) ensures s.log[i].artifact == artifact {
      RankIsTarget(s, i);
      RankFindsCall(s.log, i);
    }
  }

  lemma {:induction false} PinnedCallsAreFrozen(s: State, after: seq<Action>, id: nat, prepared: seq<Snapshot>, k: nat,
                                                j: nat)
    requires Inv(s) && AtTarget(s, id, prepared, k) && k <= j < |s.deps[id].targets| && ArtifactPinned(s, s.deps[id])
    requires ArtifactOf(s.deps[id].targets[j], Row(s.versions, s.deps[id]).value.artifact)
    ensures CallFrozen(Run(s, after), id, j)
  {
    var artifact := Row(s.versions, s.deps[id]).value.artifact;
    var s' := Run(s, after);
    assert GoodAt(s, id);
    LaterRun(s, after, id, k, artifact);
    RunKeepsInv(s, after);
    RunEvolves(s, after);
    assert Evolves(s.deps[id], s'.deps[id]);
    LaterCallIsFrozen(s', id, k, j, artifact);
  }

  /******* If something can *******/

  /** One version statement: only version rows and requests change, and the row of an unfinished deployment as said. */
  lemma VersionStep(s: State, a: VersionAction, id: nat)
    requires Inv(s) && id < |s.deps| && !Finished(s.deps[id])
    ensures VersionsOnly(s, Step(s, Version(a))) && Inv(Step(s, Version(a)))
    ensures Run(s, [Version(a)]) == Step(s, Version(a))
  {
    OnlyVersionsChange(s, a);
    OneStep(s, Version(a));
    StepKeepsInv(s, Version(a));
  }

  /** From a draft or a version under review, a publication with any artifact. */
  lemma {:induction false} PublishAs(s: State, id: nat, artifact: string) returns (after: seq<Action>)
    requires Inv(s) && s.up && id < |s.deps| && !Finished(s.deps[id]) && Row(s.versions, s.deps[id]).Some?
    requires var st := Row(s.versions, s.deps[id]).value.status; st == Draft || st == PendingReview
    ensures VersionsOnly(s, Run(s, after))
    ensures Row(Run(s, after).versions, s.deps[id]) == Some(VersionRow(Published, artifact))
  {
    var d := s.deps[id];
    var a := CheckRequest(Publish(d.project, d.version));
    VersionStep(s, a, id);
    VersionStepPins(s, a, id);
    var mid := Step(s, Version(a));
    assert Publish(d.project, d.version) in mid.inFlight;
    var more := Reread(mid, id, artifact);
    RunAppend(s, [Version(a)], more);
    after := [Version(a)] + more;
  }

  /** From any status but published. */
  lemma {:induction false} PublishAnyhow(s: State, id: nat, artifact: string) returns (after: seq<Action>)
    requires Inv(s) && s.up && id < |s.deps| && !Finished(s.deps[id]) && !IsPublished(Row(s.versions, s.deps[id]))
    ensures VersionsOnly(s, Run(s, after))
    ensures Row(Run(s, after).versions, s.deps[id]) == Some(VersionRow(Published, artifact))
  {
    var d := s.deps[id];
    var row := Row(s.versions, d);
    if row.None? {
      var a := CreateVersion(d.project, d.version);
      VersionStep(s, a, id);
      var more := PublishAs(Step(s, Version(a)), id, artifact);
      RunAppend(s, [Version(a)], more);
      after := [Version(a)] + more;
    } else if row.value.status == Rejected {
      var r := Submit(d.project, d.version);
      var mid := Resubmit(s, id);
      var more := PublishAs(mid, id, artifact);
      RunAppend(s, [Version(CheckRequest(r))] + [Version(WriteRequest(r))], more);
      after := [Version(CheckRequest(r))] + [Version(WriteRequest(r))] + more;
    } else {
      after := PublishAs(s, id, artifact);
    }
  }

  lemma {:induction false} Resubmit(s: State, id: nat) returns (s': State)
    requires Inv(s) && s.up && id < |s.deps| && !Finished(s.deps[id])
    requires Row(s.versions, s.deps[id]).Some? && Row(s.versions, s.deps[id]).value.status == Rejected
    ensures var r := Submit(s.deps[id].project, s.deps[id].version);
      s' == Run(s, [Version(CheckRequest(r))] + [Version(WriteRequest(r))])
    ensures Inv(s') && VersionsOnly(s, s')
    ensures Row(s'.versions, s.deps[id]).Some? && Row(s'.versions, s.deps[id]).value.status == PendingReview
  {
    var r := Submit(s.deps[id].project, s.deps[id].version);
    var a, b := CheckRequest(r), WriteRequest(r);
    VersionStep(s, a, id);
    VersionStepPins(s, a, id);
    var mid := Step(s, Version(a));
    assert r in mid.inFlight;
    VersionStep(mid, b, id);
    VersionStepPins(mid, b, id);
    s' := Step(mid, Version(b));
    RunSteps(s, [Version(a)], Version(b));
  }

  /** Unless the row is pinned with the frozen artifact, it can be made to show another one. */
  lemma {:induction false} ChangeArtifact(s: State, id: nat, frozen: string) returns (after: seq<Action>)
    requires Inv(s) && s.up && id < |s.deps| && !Finished(s.deps[id])
    requires !(ArtifactPinned(s, s.deps[id]) && Row(s.versions, s.deps[id]).value.artifact == frozen)
    ensures VersionsOnly(s, Run(s, after)) && Row(Run(s, after).versions, s.deps[id]).Some?
    ensures Row(Run(s, after).versions, s.deps[id]).value.artifact != frozen
  {
    var d := s.deps[id];
    var p, v, other := d.project, d.version, frozen + "'";
    assert |other| != |frozen|;
    if !IsPublished(Row(s.versions, d)) {
      after := PublishAnyhow(s, id, other);
    } else if Row(s.versions, d).value.artifact != frozen {
      after := [];
      assert Run(s, []) == s;
    } else if Submit(p, v) in s.inFlight || Reject(p, v) in s.inFlight {
      after := PublishAfterReview(s, id, other);
    } else if Publish(p, v) in s.inFlight {
      after := Reread(s, id, other);
    } else {
      var r :| r in s.inFlight && r.Release? && r.project == p && r.version == v && r.artifact != frozen;
      VersionStep(s, WriteRequest(r), id);
      VersionStepPins(s, WriteRequest(r), id);
      after := [Version(WriteRequest(r))];
    }
  }

  lemma {:induction false} PublishAfterReview(s: State, id: nat, artifact: string) returns (after: seq<Action>)
    requires Inv(s) && s.up && id < |s.deps| && !Finished(s.deps[id]) && Row(s.versions, s.deps[id]).Some?
    requires var d := s.deps[id];
      Submit(d.project, d.version) in s.inFlight || Reject(d.project, d.version) in s.inFlight
    ensures VersionsOnly(s, Run(s, after))
    ensures Row(Run(s, after).versions, s.deps[id]) == Some(VersionRow(Published, artifact))
  {
    var p, v := s.deps[id].project, s.deps[id].version;
    var a := WriteRequest(if Submit(p, v) in s.inFlight then Submit(p, v) else Reject(p, v));
    VersionStep(s, a, id);
    VersionStepPins(s, a, id);
    var more := PublishAnyhow(Step(s, Version(a)), id, artifact);
    RunAppend(s, [Version(a)], more);
    after := [Version(a)] + more;
  }

  /******* The run to the call of a target *******/

  /** One statement of the executor on its own deployment. */
  lemma ExecutorStep(s: State, id: nat, st: Stage, a: ExecutorAction)
    requires Inv(s) && id < |s.deps| && s.mutex == Some(Executor(id, st))
    ensures var m := ExecutorMove(a, id, s.deps[id], st, Row(s.versions, s.deps[id]), s.draining);
      && Step(s, Execute(a)) == Moved(s, id, m) && Inv(Moved(s, id, m)) && SamePlan(s.deps[id], m.dep)
  {
    StepKeepsInv(s, Execute(a));
    ExecutorKeepsPlan(a, id, s.deps[id], st, Row(s.versions, s.deps[id]), s.draining);
  }

  function CallOn(): seq<Action> {
    [Execute(MarkRunning)] + [Execute(CallDeploy)]
  }

  predicate CallInFlight(s: State, s': State, id: nat, prepared: seq<Snapshot>, k: nat)
    requires id < |s.deps|
  {
    && Inv(s') && s'.versions == s.versions && |s'.deps| == |s.deps| && SamePlan(s.deps[id], s'.deps[id])
    && s'.mutex == Some(Executor(id, InFlight(prepared, k)))
    && |s'.log| > 0 && CallFor(s'.log[|s'.log| - 1], id, k)
    && (Row(s.versions, s.deps[id]).Some? ==>
          s'.log[|s'.log| - 1].artifact == Row(s.versions, s.deps[id]).value.artifact)
  }

  lemma {:induction false} CallNow(s: State, id: nat, prepared: seq<Snapshot>, k: nat)
    requires Inv(s) && AtTarget(s, id, prepared, k)
    ensures CallInFlight(s, Run(s, CallOn()), id, prepared, k)
  {
    assert GoodAt(s, id);
    ExecutorStep(s, id, Executing(prepared, k), MarkRunning);
    OneStep(s, Execute(MarkRunning));
    var s1 := Step(s, Execute(MarkRunning));
    ExecutorStep(s1, id, Marked(prepared, k), CallDeploy);
    RunSteps(s, [Execute(MarkRunning)], Execute(CallDeploy));
  }

  function FinishOn(): seq<Action> {
    [Execute(DeployReturns(Ok))] + [Execute(RecordResult)]
  }

  predicate AtNext(s: State, s': State, id: nat, prepared: seq<Snapshot>, k: nat)
    requires id < |s.deps|
  {
    && Inv(s') && s'.versions == s.versions && |s'.deps| == |s.deps| && SamePlan(s.deps[id], s'.deps[id])
    && AtTarget(s', id, prepared, k + 1)
  }

  lemma {:induction false} FinishNow(s: State, id: nat, prepared: seq<Snapshot>, k: nat)
    requires Inv(s) && id < |s.deps| && s.mutex == Some(Executor(id, InFlight(prepared, k)))
    requires k + 1 < |s.deps[id].targets|
    ensures AtNext(s, Run(s, FinishOn()), id, prepared, k)
  {
    ExecutorStep(s, id, InFlight(prepared, k), DeployReturns(Ok));
    OneStep(s, Execute(DeployReturns(Ok)));
    var s1 := Step(s, Execute(DeployReturns(Ok)));
    ExecutorStep(s1, id, Answered(prepared, k, Ok), RecordResult);
    RunSteps(s, [Execute(DeployReturns(Ok))], Execute(RecordResult));
  }

  lemma SamePlanTwice(d: Deployment, e: Deployment, f: Deployment)
    requires SamePlan(d, e) && SamePlan(e, f)
    ensures SamePlan(d, f)
  {
  }

  /** The call for target j has the artifact of the row as it is now, if nobody changes it on the way. */
  predicate Reached(s: State, s': State, id: nat, j: nat)
    requires id < |s.deps|
  {
    && id < |s'.deps| && SamePlan(s.deps[id], s'.deps[id]) && |s'.log| > 0 && CallFor(s'.log[|s'.log| - 1], id, j)
    && (Row(s.versions, s.deps[id]).Some? ==>
          s'.log[|s'.log| - 1].artifact == Row(s.versions, s.deps[id]).value.artifact)
  }

  lemma {:induction false} Advance(s: State, id: nat, prepared: seq<Snapshot>, k: nat)
    requires Inv(s) && AtTarget(s, id, prepared, k) && k + 1 < |s.deps[id].targets|
    ensures AtNext(s, Run(s, CallOn() + FinishOn()), id, prepared, k)
  {
    CallNow(s, id, prepared, k);
    var mid := Run(s, CallOn());
    FinishNow(mid, id, prepared, k);
    SamePlanTwice(s.deps[id], mid.deps[id], Run(mid, FinishOn()).deps[id]);
    RunAppend(s, CallOn(), FinishOn());
  }

  lemma ReachedVia(s: State, next: State, s': State, id: nat, prepared: seq<Snapshot>, k: nat, j: nat)
    requires id < |s.deps| && AtNext(s, next, id, prepared, k) && Reached(next, s', id, j)
    ensures Reached(s, s', id, j)
  {
    SamePlanTwice(s.deps[id], next.deps[id], s'.deps[id]);
  }

  lemma {:induction false} ReachCall(s: State, id: nat, prepared: seq<Snapshot>, k: nat, j: nat)
    returns (after: seq<Action>)
    requires Inv(s) && AtTarget(s, id, prepared, k) && k <= j < |s.deps[id].targets|
    ensures Reached(s, Run(s, after), id, j)
    decreases j - k
  {
    if k == j {
      CallNow(s, id, prepared, k);
      after := CallOn();
    } else {
      Advance(s, id, prepared, k);
      var one := CallOn() + FinishOn();
      var next := Run(s, one);
      var more := ReachCall(next, id, prepared, k + 1, j);
      ReachedVia(s, next, Run(next, more), id, prepared, k, j);
      RunAppend(s, one, more);
      after := one + more;
    }
  }

  lemma {:induction false} UnpinnedCallCanDiffer(s: State, id: nat, prepared: seq<Snapshot>, k: nat, j: nat)
    returns (after: seq<Action>)
    requires Inv(s) && AtTarget(s, id, prepared, k) && k <= j < |s.deps[id].targets|
    requires !(ArtifactPinned(s, s.deps[id]) && ArtifactOf(s.deps[id].targets[j],
                                                           Row(s.versions, s.deps[id]).value.artifact))
    ensures !CallFrozen(Run(s, after), id, j)
  {
    assert GoodAt(s, id);
    var t := s.deps[id].targets[j];
    assert FrozenFor(t, s.deps[id], prepared[j]);
    var first := ChangeArtifact(s, id, t.digest.plan.artifact);
    var mid := Run(s, first);
    RunKeepsInv(s, first);
    var more := ReachCall(mid, id, prepared, k, j);
    RunAppend(s, first, more);
    after := first + more;
    var s' := Run(s, after);
    assert CallFor(s'.log[|s'.log| - 1], id, j);
    assert s'.deps[id].targets[j].digest == t.digest;
  }

  /** A validated deployment is about to deal with target k. For each remaining target j: whatever happens, its call
      uses the frozen artifact if and only if that is the artifact of the published version now and no request of the
      version under way can change its row. */
  lemma {:induction false} CallUsesFrozenArtifactExactlyWhen(before: seq<Action>, id: nat, prepared: seq<Snapshot>,
                                                             k: nat, j: nat)
    requires AtTarget(Run(Init, before), id, prepared, k) && k <= j < |Run(Init, before).deps[id].targets|
    ensures var s := Run(Init, before);
      var d := s.deps[id];
      (ArtifactPinned(s, d) && ArtifactOf(d.targets[j], Row(s.versions, d).value.artifact)) <==>
      (forall after: seq<Action> :: CallFrozen(Run(s, after), id, j))
  {
    var s := Run(Init, before);
    ReachableInv(before);
    if ArtifactPinned(s, s.deps[id]) && ArtifactOf(s.deps[id].targets[j], Row(s.versions, s.deps[id]).value.artifact) {
      forall after: seq<Action> ensures CallFrozen(Run(s, after), id, j) {
        PinnedCallsAreFrozen(s, after, id, prepared, k, j);
      }
    } else {
      var after := UnpinnedCallCanDiffer(s, id, prepared, k, j);
      assert !CallFrozen(Run(s, after), id, j);
    }
  }
}
