/** What every run of the push protocol guarantees, stated on the log of Deploy calls and the stored rows. */
module PushTheorems {
  import opened Options
  import opened PushPlan
  import opened PushProtocol
  import opened PushInvariant
  import opened PushSteps

  /******* Positions in the log *******/

  lemma {:induction false} HistPrefix(log: seq<Call>, i: nat, id: nat)
    requires i <= |log|
    ensures Hist(log[..i], id) <= Hist(log, id)
    decreases |log| - i
  {
    if i < |log| {
      HistPrefix(log, i + 1, id);
      HistAppend(log[..i], log[i], id);
      assert log[..i + 1] == log[..i] + [log[i]];
    } else {
      assert log[..i] == log;
    }
  }

  /** The rank of a call among the calls of its deployment. */
  function Rank(log: seq<Call>, i: nat): nat
    requires i < |log|
  {
    |Hist(log[..i], log[i].dep)|
  }

  lemma RankFindsCall(log: seq<Call>, i: nat)
    requires i < |log|
    ensures Rank(log, i) < |Hist(log, log[i].dep)|
    ensures Hist(log, log[i].dep)[Rank(log, i)] == log[i]
  {
    var id := log[i].dep;
    assert log[..i + 1] == log[..i] + [log[i]];
    HistAppend(log[..i], log[i], id);
    HistPrefix(log, i + 1, id);
  }

  lemma RankIncreases(log: seq<Call>, i: nat, j: nat)
    requires i < j < |log| && log[i].dep == log[j].dep
    ensures Rank(log, i) < Rank(log, j)
  {
    var id := log[i].dep;
    assert log[..i + 1] == log[..i] + [log[i]];
    HistAppend(log[..i], log[i], id);
    HistPrefix(log[..j], i + 1, id);
    assert log[..j][..i + 1] == log[..i + 1];
  }

  /** In a good state the rank of a call is the index of its target. */
  lemma RankIsTarget(s: State, i: nat)
    requires Core(s) && i < |s.log|
    ensures s.log[i].dep < |s.deps| && s.log[i].target == Rank(s.log, i)
    ensures s.log[i].target < |s.deps[s.log[i].dep].targets|
    ensures UsesPlan(s.log[i], s.deps[s.log[i].dep], s.deps[s.log[i].dep].targets[s.log[i].target])
    ensures !s.deps[s.log[i].dep].dryRun
  {
    var id := s.log[i].dep;
    assert GoodAt(s, id);
    RankFindsCall(s.log, i);
  }

  /******* At most once *******/

  /** Deploy is called at most once per target row, never for a dry run, and at most one call is in flight. */
  lemma {:induction false} AtMostOnce(actions: seq<Action>)
    ensures var s := Run(Init, actions);
      && CallsUnique(s.log)
      && (forall i :: 0 <= i < |s.log| ==> s.log[i].dep < |s.deps| && !s.deps[s.log[i].dep].dryRun)
      && (forall i, j :: 0 <= i < j < |s.log| ==> s.log[i].state != Pending || s.log[j].state != Pending)
  {
    ReachableInv(actions);
    var s := Run(Init, actions);
    forall i, j | 0 <= i < j < |s.log| && s.log[i].dep == s.log[j].dep ensures s.log[i].target < s.log[j].target {
      RankIsTarget(s, i);
      RankIsTarget(s, j);
      RankIncreases(s.log, i, j);
    }
    forall i | 0 <= i < |s.log| ensures s.log[i].dep < |s.deps| && !s.deps[s.log[i].dep].dryRun {
      RankIsTarget(s, i);
    }
  }

  /******* Fail-stop prefix *******/

  predicate SucceededBefore(log: seq<Call>, i: nat, target: nat)
    requires i < |log|
  {
    exists j :: 0 <= j < i && log[j].dep == log[i].dep && log[j].target == target && Succeeded(log[j])
  }

  lemma EarlierCall(s: State, i: nat, t: nat)
    requires Core(s) && i < |s.log| && t < s.log[i].target
    ensures SucceededBefore(s.log, i, t)
  {
    var id := s.log[i].dep;
    var before := Hist(s.log[..i], id);
    assert GoodAt(s, id);
    RankIsTarget(s, i);
    RankFindsCall(s.log, i);
    HistPrefix(s.log, i, id);
    HistElements(s.log[..i], id);
    assert before[t] in before && before[t] == Hist(s.log, id)[t];
    var j :| 0 <= j < i && s.log[..i][j] == before[t];
    assert s.log[j] == before[t];
  }

  /** The targets on which Deploy was called form a prefix of the frozen order, and every one of them but the
      last succeeded: nothing runs after a failed, unknown or lost call. */
  lemma {:induction false} FailStopPrefix(actions: seq<Action>)
    ensures var s := Run(Init, actions);
      forall i :: 0 <= i < |s.log| ==>
        && s.log[i].dep < |s.deps| && s.log[i].target < |s.deps[s.log[i].dep].targets|
        && (forall t :: 0 <= t < s.log[i].target ==> SucceededBefore(s.log, i, t))
        && (!Succeeded(s.log[i]) ==> forall j :: i < j < |s.log| ==> s.log[j].dep != s.log[i].dep)
  {
    ReachableInv(actions);
    var s := Run(Init, actions);
    forall i | 0 <= i < |s.log|
      ensures s.log[i].dep < |s.deps| && s.log[i].target < |s.deps[s.log[i].dep].targets|
      ensures forall t :: 0 <= t < s.log[i].target ==> SucceededBefore(s.log, i, t)
      ensures !Succeeded(s.log[i]) ==> forall j :: i < j < |s.log| ==> s.log[j].dep != s.log[i].dep
    {
      RankIsTarget(s, i);
      forall t | 0 <= t < s.log[i].target ensures SucceededBefore(s.log, i, t) {
        EarlierCall(s, i, t);
      }
      forall j | i < j < |s.log| && s.log[j].dep == s.log[i].dep ensures Succeeded(s.log[i]) {
        RankIncreases(s.log, i, j);
        RankFindsCall(s.log, i);
        RankFindsCall(s.log, j);
        assert GoodAt(s, s.log[i].dep);
      }
    }
  }

  predicate DeployedOk(s: State, id: nat, t: nat) {
    exists i :: 0 <= i < |s.log| && s.log[i].dep == id && s.log[i].target == t && Succeeded(s.log[i])
  }

  lemma TargetSuccessIsCall(s: State, id: nat, t: nat)
    requires Core(s) && id < |s.deps| && t < |s.deps[id].targets|
    requires !s.deps[id].dryRun && s.deps[id].targets[t].status == TSuccess
    ensures DeployedOk(s, id, t)
  {
    assert GoodAt(s, id);
    var h := Hist(s.log, id);
    HistElements(s.log, id);
    assert h[t] in h;
    var i :| 0 <= i < |s.log| && s.log[i] == h[t];
  }

  /** What the stored statuses mean: a real target is successful only if its Deploy returned without error, a
      deployment only if all its targets are, and a finished deployment has no unfinished target. */
  lemma {:induction false} StatusesTellTheTruth(actions: seq<Action>)
    ensures var s := Run(Init, actions);
      forall id :: 0 <= id < |s.deps| ==>
        && (forall t :: 0 <= t < |s.deps[id].targets| && !s.deps[id].dryRun && s.deps[id].targets[t].status == TSuccess
              ==> DeployedOk(s, id, t))
        && (s.deps[id].status == Success ==> AllTargets(s.deps[id], TSuccess))
        && (Finished(s.deps[id]) ==> TargetsFinished(s.deps[id]))
  {
    ReachableInv(actions);
    var s := Run(Init, actions);
    forall id | 0 <= id < |s.deps|
      ensures !s.deps[id].dryRun ==>
        forall t :: 0 <= t < |s.deps[id].targets| && s.deps[id].targets[t].status == TSuccess ==> DeployedOk(s, id, t)
      ensures s.deps[id].status == Success ==> AllTargets(s.deps[id], TSuccess)
      ensures Finished(s.deps[id]) ==> TargetsFinished(s.deps[id])
    {
      assert GoodAt(s, id);
      forall t | 0 <= t < |s.deps[id].targets| && !s.deps[id].dryRun && s.deps[id].targets[t].status == TSuccess
        ensures DeployedOk(s, id, t)
      {
        TargetSuccessIsCall(s, id, t);
      }
    }
  }

  /** Over every run, what a call in the log says about the status of its target: it is neither queued nor skipped,
      it is successful or failed only if the call returned so, and once the deployment is finished a call whose
      answer was lost has left the target unknown. */
  lemma {:induction false} CallsTellStatuses(actions: seq<Action>)
    ensures var s := Run(Init, actions);
      forall i :: 0 <= i < |s.log| ==>
        && s.log[i].dep < |s.deps| && s.log[i].target < |s.deps[s.log[i].dep].targets|
        && var status := s.deps[s.log[i].dep].targets[s.log[i].target].status;
           && status != TQueued && status != TSkipped
           && (status == TSuccess ==> s.log[i].state == Returned(Ok))
           && (status == TFailed ==> s.log[i].state == Returned(Error))
           && (s.log[i].state == Lost && Finished(s.deps[s.log[i].dep]) ==> status == TUnknown)
  {
    ReachableInv(actions);
    var s := Run(Init, actions);
    forall i | 0 <= i < |s.log|
      ensures s.log[i].dep < |s.deps| && s.log[i].target < |s.deps[s.log[i].dep].targets|
      ensures var status := s.deps[s.log[i].dep].targets[s.log[i].target].status;
        && CallMatches(status, s.log[i].state) && (Finished(s.deps[s.log[i].dep]) ==> TargetFinished(status))
    {
      RankIsTarget(s, i);
      RankFindsCall(s.log, i);
      assert GoodAt(s, s.log[i].dep);
    }
  }

  /******* Frozen plan *******/

  /** Every call used the host, binding, environment and version whose digest was stored at creation, and within one
      deployment no two calls went to one place, in whatever spelling of address and root.  (For the artifact see
      PushPin.FrozenArtifact.) */
  lemma {:induction false} FrozenPlanOnly(actions: seq<Action>)
    ensures var s := Run(Init, actions);
      && (forall i :: 0 <= i < |s.log| ==>
            && s.log[i].dep < |s.deps| && s.log[i].target < |s.deps[s.log[i].dep].targets|
            && UsesPlan(s.log[i], s.deps[s.log[i].dep], s.deps[s.log[i].dep].targets[s.log[i].target]))
      && (forall i, j :: 0 <= i < j < |s.log| && s.log[i].dep == s.log[j].dep ==>
            !SamePlace(s.log[i].snapshot, s.log[j].snapshot))
  {
    ReachableInv(actions);
    var s := Run(Init, actions);
    forall i | 0 <= i < |s.log|
      ensures s.log[i].dep < |s.deps| && s.log[i].target < |s.deps[s.log[i].dep].targets|
      ensures UsesPlan(s.log[i], s.deps[s.log[i].dep], s.deps[s.log[i].dep].targets[s.log[i].target])
    {
      RankIsTarget(s, i);
    }
    forall i, j | 0 <= i < j < |s.log| && s.log[i].dep == s.log[j].dep
      ensures !SamePlace(s.log[i].snapshot, s.log[j].snapshot)
    {
      RankIsTarget(s, i);
      RankIsTarget(s, j);
      RankIncreases(s.log, i, j);
      var ts := s.deps[s.log[i].dep].targets;
      KeyedRun(actions);
      assert DistinctInstances(ts);
      assert Keyed(ts[s.log[i].target]) && Keyed(ts[s.log[j].target]);
      PhysicalMeansPlace(s.log[i].snapshot, s.log[j].snapshot);
    }
  }

  predicate RowsKeyed(s: State) {
    forall id, i :: 0 <= id < |s.deps| && 0 <= i < |s.deps[id].targets| ==> Keyed(s.deps[id].targets[i])
  }

  /** The recorded instance of a target row is that of its frozen plan, and every plan is for a usable binding. */
  lemma {:induction false} KeyedRun(actions: seq<Action>)
    ensures RowsKeyed(Run(Init, actions))
  {
    if actions != [] {
      var n := |actions| - 1;
      var s := Run(Init, actions[..n]);
      KeyedRun(actions[..n]);
      ReachableInv(actions[..n]);
      StepEvolves(s, actions[n]);
      KeyedStep(s, Step(s, actions[n]));
    }
  }

  lemma KeyedStep(s: State, s': State)
    requires RowsKeyed(s) && RowsEvolve(s, s') && (|s'.deps| == |s.deps| || Appends(s, s'))
    ensures RowsKeyed(s')
  {
    forall id, i | 0 <= id < |s'.deps| && 0 <= i < |s'.deps[id].targets| ensures Keyed(s'.deps[id].targets[i]) {
      if id < |s.deps| {
        assert Evolves(s.deps[id], s'.deps[id]) && Keyed(s.deps[id].targets[i]);
      } else {
        var d := s'.deps[|s.deps|];
        assert FrozenTarget(d.project, d.version, d.targets[i]);
      }
    }
  }

  /** A deployment that can no longer make its first call. */
  predicate Doomed(s: State, id: nat) {
    && id < |s.deps|
    && Hist(s.log, id) == []
    && s.deps[id].status != Queued
    && (RoleOf(s, id).Executes? ==> NoMoreCalls(RoleOf(s, id).stage))
  }

  /** From these stages on a claimed deployment makes no call. */
  predicate NoMoreCalls(st: Stage) {
    st.Failing? || st.Locked? || st.Admitted? || st.Counting? || st.Finishing?
  }

  lemma DoomedMove(a: ExecutorAction, id: nat, d: Deployment, st: Stage, row: Option<VersionRow>, draining: bool)
    requires d.status != Queued && NoMoreCalls(st)
    ensures var m := ExecutorMove(a, id, d, st, row, draining);
      && m.change == NoCall && m.dep.status != Queued
      && (m.stage.Some? ==> NoMoreCalls(m.stage.value))
  {
  }

  lemma {:induction false} DoomedExecutorStep(s: State, a: ExecutorAction, id: nat)
    requires Core(s) && Doomed(s, id)
    ensures Doomed(StepExecutor(s, a), id)
  {
    if s.mutex.Some? {
      var actor, st := s.mutex.value.id, s.mutex.value.stage;
      var d, row := s.deps[actor], Row(s.versions, s.deps[actor]);
      var m := ExecutorMove(a, actor, d, st, row, s.draining);
      ExecutorLogFollows(a, actor, d, st, row, s.draining);
      HistApply(s.log, m.change, id, actor);
      if actor == id {
        DoomedMove(a, id, d, st, row, s.draining);
      }
    }
  }

  lemma DoomedCrash(s: State, id: nat)
    requires Core(s) && Doomed(s, id)
    ensures Doomed(StepCrash(s), id)
  {
    CrashLog(s, id);
  }

  lemma DoomedQuiet(s: State, s': State, id: nat)
    requires Doomed(s, id) && RowsEvolve(s, s') && s'.log == s.log
    requires s'.mutex == s.mutex || s'.mutex.None? || s'.mutex.value.stage.Locked?
    ensures Doomed(s', id)
  {
  }

  lemma CreateDoesNotCall(s: State, project: string, version: string, key: string, dryRun: bool, targets: seq<Target>)
    ensures var s' := StepCreate(s, project, version, key, dryRun, targets); s'.log == s.log && s'.mutex == s.mutex
  {
  }

  lemma {:induction false} OnlyExecutorCalls(s: State, a: Action)
    requires !a.Execute? && !a.Crash?
    ensures var s' := Step(s, a);
      s'.log == s.log && (s'.mutex == s.mutex || s'.mutex.None? || s'.mutex.value.stage.Locked?)
  {
    match a
    case Work(w) => WorkerLeaves(s, w);
    case Create(p, v, k, d, ts) => CreateDoesNotCall(s, p, v, k, d, ts);
    case Version(v) => OnlyVersionsChange(s, v);
    case _ =>
  }

  lemma {:induction false} DoomedStep(s: State, a: Action, id: nat)
    requires Inv(s) && Doomed(s, id)
    ensures Doomed(Step(s, a), id)
  {
    if a.Execute? {
      DoomedExecutorStep(s, a.executor, id);
    } else if a.Crash? {
      DoomedCrash(s, id);
    } else {
      StepEvolves(s, a);
      OnlyExecutorCalls(s, a);
      DoomedQuiet(s, Step(s, a), id);
    }
  }

  lemma {:induction false} DoomedRun(s: State, actions: seq<Action>, id: nat)
    requires Inv(s) && Doomed(s, id)
    ensures Doomed(Run(s, actions), id)
  {
    if actions != [] {
      var n := |actions| - 1;
      DoomedRun(s, actions[..n], id);
      RunKeepsInv(s, actions[..n]);
      DoomedStep(Run(s, actions[..n]), actions[n], id);
    }
  }

  /** The reads of the validation phase that make it refuse the fleet. */
  predicate Refuses(s: State, a: ExecutorAction)
    requires s.mutex.Some? && s.mutex.value.id < |s.deps| && s.mutex.value.stage.Validating?
  {
    var d, n := s.deps[s.mutex.value.id], |s.mutex.value.stage.prepared|;
    match a
    case CheckPublicUrl(ok) => !ok
    case ValidateTarget(seen) =>
      n < |d.targets| && !(seen.Some? && TargetUnchanged(Row(s.versions, d), d, d.targets[n], seen.value))
    case CheckRequester(found) => n >= |d.targets| && !found
    case _ => false
  }

  /** One changed, missing or unpublished target, and the whole deployment makes no Deploy call, ever. */
  lemma {:induction false} RefusedFleetIsUntouched(before: seq<Action>, a: ExecutorAction, after: seq<Action>)
    requires var s := Run(Init, before);
      s.mutex.Some? && s.mutex.value.id < |s.deps| && s.mutex.value.stage.Validating? && Refuses(s, a)
    ensures var s := Run(Init, before);
      var s' := Run(StepExecutor(s, a), after);
      forall i :: 0 <= i < |s'.log| ==> s'.log[i].dep != s.mutex.value.id
  {
    ReachableInv(before);
    var s := Run(Init, before);
    var id := s.mutex.value.id;
    var s1 := StepExecutor(s, a);
    StepKeepsInv(s, Execute(a));
    assert GoodAt(s, id);
    DoomedRun(s1, after, id);
    HistEmpty(Run(s1, after).log, id);
  }

  lemma {:induction false} HistEmpty(log: seq<Call>, id: nat)
    requires Hist(log, id) == []
    ensures forall i :: 0 <= i < |log| ==> log[i].dep != id
  {
    if log != [] {
      HistEmpty(log[..|log| - 1], id);
    }
  }

  /******* Whole runs *******/

  lemma {:induction false} RunEvolves(s: State, actions: seq<Action>)
    requires Inv(s)
    ensures RowsEvolve(s, Run(s, actions))
  {
    if actions != [] {
      var n := |actions| - 1;
      RunEvolves(s, actions[..n]);
      RunKeepsInv(s, actions[..n]);
      StepEvolves(Run(s, actions[..n]), actions[n]);
    }
  }

  lemma {:induction false} RunAppend(s: State, a: seq<Action>, b: seq<Action>)
    ensures Run(s, a + b) == Run(Run(s, a), b)
    decreases |b|
  {
    if b == [] {
      RunNothing(s, a, b);
    } else {
      RunAppend(s, a, b[..|b| - 1]);
      RunLast(s, a, b);
    }
  }

  lemma RunNothing(s: State, a: seq<Action>, b: seq<Action>)
    requires b == []
    ensures Run(s, a + b) == Run(Run(s, a), b)
  {
    assert a + b == a;
  }

  lemma RunLast(s: State, a: seq<Action>, b: seq<Action>)
    requires b != [] && Run(s, a + b[..|b| - 1]) == Run(Run(s, a), b[..|b| - 1])
    ensures Run(s, a + b) == Run(Run(s, a), b)
  {
    assert (a + b)[..|a + b| - 1] == a + b[..|b| - 1] && (a + b)[|a + b| - 1] == b[|b| - 1];
  }

  /******* Hooks *******/

  lemma SuccessfulEvent(s: State, e: nat)
    requires Inv(s) && e < |s.events| && s.events[e].status == EventSuccess
    ensures s.events[e].deployment.Some?
    ensures var id := s.events[e].deployment.value;
      && id < |s.deps| && s.deps[id].hookEvent == e + 1
      && s.deps[id].version == s.events[e].version && s.deps[id].status == Success
      && forall t :: 0 <= t < |s.deps[id].targets| ==> DeployedOk(s, id, t)
  {
    var id := s.events[e].deployment.value;
    assert Dispatched(s, e, id);
    assert HookOf(s, id, s.deps[id].hookEvent - 1);
    assert GoodAt(s, id);
    forall t | 0 <= t < |s.deps[id].targets| ensures DeployedOk(s, id, t) {
      TargetSuccessIsCall(s, id, t);
    }
  }

  lemma EventsUnique(s: State)
    requires RowsUnique(s)
    ensures forall i, j :: 0 <= i < j < |s.deps| && s.deps[i].hookEvent > 0 ==>
      s.deps[i].hookEvent != s.deps[j].hookEvent
  {
    forall i, j | 0 <= i < j < |s.deps| && s.deps[i].hookEvent > 0 ensures s.deps[i].hookEvent != s.deps[j].hookEvent {
      assert UniquePair(s.deps[i], s.deps[j]);
    }
  }

  /** The target got one Deploy call in all, and that call returned without error. */
  predicate DeployedOnce(s: State, id: nat, t: nat) {
    exists i :: 0 <= i < |s.log| && CallFor(s.log[i], id, t) && Succeeded(s.log[i])
                && forall j :: 0 <= j < |s.log| && CallFor(s.log[j], id, t) ==> j == i
  }

  predicate CallFor(c: Call, id: nat, t: nat) {
    c.dep == id && c.target == t
  }

  lemma DeployedOkIsOnce(s: State, id: nat, t: nat)
    requires CallsUnique(s.log) && DeployedOk(s, id, t)
    ensures DeployedOnce(s, id, t)
  {
    var i :| 0 <= i < |s.log| && s.log[i].dep == id && s.log[i].target == t && Succeeded(s.log[i]);
    assert CallFor(s.log[i], id, t);
    forall j | 0 <= j < |s.log| && CallFor(s.log[j], id, t) ensures j == i {
      assert !(i < j) && !(j < i);
    }
  }

  predicate CallsUnique(log: seq<Call>) {
    forall i, j :: 0 <= i < j < |log| && log[i].dep == log[j].dep ==> log[i].target != log[j].target
  }

  /** Each dispatch event has at most one deployment, however often it is taken up again, and an event recorded as
      successful has a successful deployment of its version in which every Deploy ran once and returned no error. */
  lemma {:induction false} HookEndToEnd(actions: seq<Action>)
    ensures var s := Run(Init, actions);
      && (forall i, j :: 0 <= i < j < |s.deps| && s.deps[i].hookEvent > 0 ==>
          s.deps[i].hookEvent != s.deps[j].hookEvent)
      && (forall e :: 0 <= e < |s.events| && s.events[e].status == EventSuccess ==>
            s.events[e].deployment.Some? && SucceededFor(s, e, s.events[e].deployment.value))
  {
    ReachableInv(actions);
    var s := Run(Init, actions);
    EventsUnique(s);
    AtMostOnce(actions);
    assert CallsUnique(s.log);
    forall e | 0 <= e < |s.events| && s.events[e].status == EventSuccess
      ensures s.events[e].deployment.Some? && SucceededFor(s, e, s.events[e].deployment.value)
    {
      SuccessfulEvent(s, e);
      var id := s.events[e].deployment.value;
      forall t | 0 <= t < |s.deps[id].targets| ensures DeployedOnce(s, id, t) {
        DeployedOkIsOnce(s, id, t);
      }
    }
  }

  predicate SucceededFor(s: State, event: nat, id: nat)
    requires event < |s.events|
  {
    && id < |s.deps| && s.deps[id].hookEvent == event + 1
    && s.deps[id].version == s.events[event].version && s.deps[id].status == Success
    && forall t :: 0 <= t < |s.deps[id].targets| ==> DeployedOnce(s, id, t)
  }

  /** Two requests with the same idempotency key never make two deployments of a project. */
  lemma {:induction false} IdempotencyKeysUnique(actions: seq<Action>)
    ensures var s := Run(Init, actions);
      forall i, j :: 0 <= i < j < |s.deps| && s.deps[i].key != "" && s.deps[i].project == s.deps[j].project ==>
        s.deps[i].key != s.deps[j].key
  {
    ReachableInv(actions);
    var s := Run(Init, actions);
    forall i, j | 0 <= i < j < |s.deps| && s.deps[i].key != "" && s.deps[i].project == s.deps[j].project
      ensures s.deps[i].key != s.deps[j].key
    {
      assert UniquePair(s.deps[i], s.deps[j]);
    }
  }

  /******* Restart *******/

  /** After a restart every deployment and every target is in a final state, and later runs leave them as they are. */
  lemma {:induction false} RestartFinishesEverything(before: seq<Action>, after: seq<Action>)
    requires !Run(Init, before).up
    ensures var s := Step(Run(Init, before), Restart);
      var s' := Run(s, after);
      forall id :: 0 <= id < |s.deps| ==>
        Finished(s.deps[id]) && TargetsFinished(s.deps[id]) && id < |s'.deps| && s'.deps[id] == s.deps[id]
  {
    ReachableInv(before);
    var s0 := Run(Init, before);
    var s := Step(s0, Restart);
    StepKeepsInv(s0, Restart);
    RunEvolves(s, after);
    forall id | 0 <= id < |s.deps| ensures Finished(s.deps[id]) && TargetsFinished(s.deps[id]) {
      assert GoodAt(s, id);
      assert s.deps[id] == Interrupt(s0.deps[id]);
    }
  }

  /******* When all targets are successful *******/

  lemma ExecutorFinishes(a: ExecutorAction, id: nat, h: seq<Call>, d: Deployment, st: Stage, row: Option<VersionRow>,
                         draining: bool)
    requires Good(h, d, Executes(st)) && !Finished(d)
    requires var d' := ExecutorMove(a, id, d, st, row, draining).dep; Finished(d') && AllTargets(d', TSuccess)
    ensures ExecutorMove(a, id, d, st, row, draining).dep.status == Success
  {
  }

  /** Only the executor, a dry run and the restart change rows that exist. */
  lemma QuietRows(s: State, a: Action, id: nat)
    requires !a.Execute? && !a.DryRunStep? && a != Restart && id < |s.deps|
    ensures id < |Step(s, a).deps| && Step(s, a).deps[id] == s.deps[id]
  {
    match a
    case Work(w) => WorkerInserts(s, w);
    case Version(v) => OnlyVersionsChange(s, v);
    case _ =>
  }

  /** The step that finishes a row with all targets successful records success, unless it is the restart. */
  lemma {:induction false} FinishingStep(s: State, a: Action, id: nat)
    requires Inv(s) && id < |s.deps| && !Finished(s.deps[id])
    requires var s' := Step(s, a); id < |s'.deps| && Finished(s'.deps[id]) && AllTargets(s'.deps[id], TSuccess)
    ensures Step(s, a).deps[id].status == Success <==> a != Restart
  {
    assert GoodAt(s, id);
    if a.Execute? {
      ExecutorFinishes(a.executor, id, Hist(s.log, id), s.deps[id], s.mutex.value.stage, Row(s.versions, s.deps[id]),
                       s.draining);
    } else if !a.DryRunStep? && a != Restart {
      QuietRows(s, a, id);
    }
  }

  predicate Complete(s: State, id: nat) {
    id < |s.deps| && Finished(s.deps[id]) && AllTargets(s.deps[id], TSuccess)
  }

  /** A complete row was complete before the step, or the step finished it. */
  lemma {:induction false} CompletedBy(s: State, a: Action, id: nat)
    requires Inv(s) && Complete(Step(s, a), id)
    ensures id < |s.deps|
    ensures Finished(s.deps[id]) ==> Complete(s, id) && Step(s, a).deps[id] == s.deps[id]
    ensures !Finished(s.deps[id]) ==> (Step(s, a).deps[id].status == Success <==> a != Restart)
  {
    StepEvolves(s, a);
    FinishedWasThere(s, Step(s, a), id);
    if !Finished(s.deps[id]) {
      FinishingStep(s, a, id);
    }
  }

  /** A finished row is not new, and a row that was finished before is the same. */
  lemma FinishedWasThere(s: State, s': State, id: nat)
    requires RowsEvolve(s, s') && (|s'.deps| == |s.deps| || Appends(s, s')) && id < |s'.deps| && Finished(s'.deps[id])
    ensures id < |s.deps| && (Finished(s.deps[id]) ==> s'.deps[id] == s.deps[id])
  {
  }

  /** Action k of a run finished the row. */
  predicate FinishedAt(actions: seq<Action>, k: nat, id: nat)
    requires k < |actions|
  {
    var s, s' := Run(Init, actions[..k]), Run(Init, actions[..k + 1]);
    id < |s.deps| && !Finished(s.deps[id]) && id < |s'.deps| && Finished(s'.deps[id])
  }

  /** A finished deployment with all targets successful is successful if and only if the step that finished it was not a
      restart. */
  lemma {:induction false} SuccessUnlessRestarted(actions: seq<Action>, id: nat) returns (k: nat)
    requires Complete(Run(Init, actions), id)
    ensures k < |actions| && FinishedAt(actions, k, id)
    ensures Run(Init, actions).deps[id].status == Success <==> actions[k] != Restart
    decreases |actions|
  {
    var n := |actions| - 1;
    var mid := Run(Init, actions[..n]);
    ReachableInv(actions[..n]);
    CompletedBy(mid, actions[n], id);
    if Finished(mid.deps[id]) {
      k := SuccessUnlessRestarted(actions[..n], id);
      assert actions[..n][..k] == actions[..k] && actions[..n][..k + 1] == actions[..k + 1];
    } else {
      k := n;
      assert actions[..n + 1] == actions;
    }
  }

  /** A claimed dispatch becomes a running event without a deployment, and an idle worker takes it up. */
  lemma {:induction false} ClaimedEventIsTaken(actions: seq<Action>, project: string, version: string)
    requires Run(Init, actions).up && Run(Init, actions).worker.None?
    ensures var s := Run(Init, actions);
      var e := |s.events|;
      var s' := Run(Init, actions + [ClaimHook(project, version)] + [TakeEvent(e)]);
      && s'.events == s.events + [HookEvent(project, version, EventRunning, None)]
      && s'.worker == Some(Worker(e, Looking)) && s'.deps == s.deps && s'.log == s.log
  {
    var s := Run(Init, actions);
    var claimed := Step(s, ClaimHook(project, version));
    ClaimAddsEvent(s, project, version);
    IdleWorkerTakes(claimed, |s.events|);
    RunSteps(Init, actions, ClaimHook(project, version));
    RunSteps(Init, actions + [ClaimHook(project, version)], TakeEvent(|s.events|));
  }

  lemma ClaimAddsEvent(s: State, project: string, version: string)
    requires s.up
    ensures Step(s, ClaimHook(project, version)) ==
      s.(events := s.events + [HookEvent(project, version, EventRunning, None)])
  {
  }

  lemma IdleWorkerTakes(s: State, e: nat)
    requires s.up && s.worker.None? && e < |s.events| && s.events[e].status == EventRunning
    ensures Step(s, TakeEvent(e)) == s.(worker := Some(Worker(e, Looking)))
  {
  }
}
