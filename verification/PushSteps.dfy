/** Every step of the push protocol keeps the invariant, and so does every run. */
module PushSteps {
  import opened Options
  import opened PushPlan
  import opened PushProtocol
  import opened PushInvariant

  /******* Steps that touch one deployment *******/

  lemma DryRunStepKeepsCore(s: State, id: nat)
    requires Core(s)
    ensures Core(StepDryRun(s, id))
  {
    if id in s.dryRuns {
      var s' := StepDryRun(s, id);
      var d := s.deps[id];
      assert GoodAt(s, id);
      assert RoleOf(s, id) == DryRuns(s.dryRuns[id]);
      DryRunKeepsPlan(d, s.dryRuns[id]);
      DryRunKeepsGood(Hist(s.log, id), d, s.dryRuns[id]);
      OneMoves(s, s', id, NoCall);
    }
  }

  lemma LockKeepsCore(s: State, id: nat)
    requires Core(s) && id in s.waiting && s.mutex.None?
    ensures Core(s.(waiting := s.waiting - {id}, mutex := Some(Executor(id, Locked))))
  {
    var s' := s.(waiting := s.waiting - {id}, mutex := Some(Executor(id, Locked)));
    assert GoodAt(s, id);
    OneMoves(s, s', id, NoCall);
  }

  /** A new row is queued, so no call can have been made for it. */
  lemma InsertKeepsCore(s: State, d: Deployment, s': State)
    requires Core(s) && d.status == Queued && FrozenTargets(d.project, d.version, d.targets)
    requires s'.deps == s.deps + [d] && s'.log == s.log && s'.mutex == s.mutex
    requires ThreadsKnown(s')
    requires forall id :: 0 <= id < |s.deps| ==> RoleOf(s', id) == RoleOf(s, id)
    requires RoleOf(s', |s.deps|) == if d.dryRun then DryRuns(DryStart) else Idle
    ensures Core(s')
  {
    var n := |s.deps|;
    HistOnlyKnown(s.log, n);
    NewRowIsGood(d);
    forall id | 0 <= id < |s'.deps| ensures GoodAt(s', id) {
      if id < n {
        assert GoodAt(s, id);
        Untouched(s, s', id);
      }
    }
  }

  lemma NewRowIsGood(d: Deployment)
    requires d.status == Queued && FrozenTargets(d.project, d.version, d.targets)
    ensures Good([], d, if d.dryRun then DryRuns(DryStart) else Idle)
  {
    assert forall i :: 0 <= i < |d.targets| ==> FrozenTarget(d.project, d.version, d.targets[i]);
  }

  lemma CreateKeepsCore(s: State, project: string, version: string, key: string, dryRun: bool, targets: seq<Target>)
    requires Core(s)
    ensures Core(StepCreate(s, project, version, key, dryRun, targets))
  {
    var s' := StepCreate(s, project, version, key, dryRun, targets);
    if |s'.deps| > |s.deps| {
      InsertKeepsCore(s, Deployment(project, version, key, 0, dryRun, Queued, targets), s');
    }
  }

  /******* Version rows *******/

  /** Which statements touch the row of an unfinished deployment's version: a late write of a review or publish request
      does, nothing else.  In particular it is not deleted. */
  lemma VersionStepPins(s: State, a: VersionAction, id: nat)
    requires id < |s.deps| && !Finished(s.deps[id]) && Row(s.versions, s.deps[id]).Some?
    ensures Row(StepVersion(s, a).versions, s.deps[id]) ==
      if s.up && a.WriteRequest? && a.request in s.inFlight && RequestFor(a.request, s.deps[id])
      then Some(Written(a.request, Row(s.versions, s.deps[id]).value))
      else Row(s.versions, s.deps[id])
  {
  }

  predicate RequestFor(r: VersionRequest, d: Deployment) {
    r.project == d.project && r.version == d.version
  }

  lemma OnlyVersionsChange(s: State, a: VersionAction)
    ensures StepVersion(s, a) == s.(versions := StepVersion(s, a).versions, inFlight := StepVersion(s, a).inFlight)
    ensures !s.up ==> StepVersion(s, a) == s
  {
  }

  lemma VersionStepKeepsCore(s: State, a: VersionAction)
    requires Core(s)
    ensures Core(StepVersion(s, a))
  {
    OnlyVersionsChange(s, a);
    SameThreads(s, StepVersion(s, a));
  }

  /******* Crash and restart *******/

  lemma CrashLog(s: State, id: nat)
    requires Core(s) && id < |s.deps|
    ensures Hist(LoseAnswer(s.log), id) == Hist(s.log, id) || Hist(LoseAnswer(s.log), id) == LoseAnswer(Hist(s.log, id))
  {
    if InFlightNow(s) {
      HistApply(s.log, SetLast(Lost), id, s.mutex.value.id);
      if id == s.mutex.value.id {
        assert GoodAt(s, id);
      }
    }
  }

  lemma CrashKeepsCore(s: State)
    requires Core(s)
    ensures Core(StepCrash(s))
  {
    var s' := StepCrash(s);
    forall id | 0 <= id < |s.deps| ensures GoodAt(s', id) {
      assert GoodAt(s, id);
      CrashLog(s, id);
      CrashKeepsGood(Hist(s.log, id), s.deps[id], RoleOf(s, id));
    }
  }

  lemma InterruptKeepsInstances(d: Deployment)
    requires DistinctInstances(d.targets)
    ensures DistinctInstances(Interrupt(d).targets)
  {
    SameInstances(d.targets, Interrupt(d).targets);
  }

  lemma RestartKeepsCore(s: State)
    requires Core(s)
    ensures Core(StepRestart(s))
  {
    if !s.up {
      var s' := StepRestart(s);
      forall id | 0 <= id < |s.deps| ensures GoodAt(s', id) && DistinctInstances(s'.deps[id].targets) {
        assert GoodAt(s, id);
        InterruptKeepsGood(Hist(s.log, id), s.deps[id]);
        InterruptKeepsInstances(s.deps[id]);
      }
    }
  }

  /******* The hook worker *******/

  /** What the worker does not touch. */
  lemma WorkerLeaves(s: State, a: WorkerAction)
    ensures var s' := StepWorker(s, a);
      s'.log == s.log && s'.mutex == s.mutex && s'.dryRuns == s.dryRuns && s'.up == s.up && s'.versions == s.versions
      && s'.inFlight == s.inFlight
  {
    if s.worker.Some? && s.worker.value.event < |s.events| {
      if a.CreateFor? {
        CreateLeaves(s, s.worker.value.event, a.targets);
      } else {
        AccessLeaves(s, a);
      }
    }
  }

  lemma AccessLeaves(s: State, a: WorkerAction)
    requires s.worker.Some? && s.worker.value.event < |s.events|
    ensures var s' := WorkerAccess(s, a);
      && s'.log == s.log && s'.mutex == s.mutex && s'.dryRuns == s.dryRuns && s'.up == s.up && s'.versions == s.versions
      && s'.inFlight == s.inFlight
  {
    match s.worker.value.stage
    case Looking =>
    case Checked =>
    case Found(_, _) =>
    case Noted(_, _) =>
    case Ran(_) =>
  }

  lemma CreateLeaves(s: State, e: nat, targets: seq<Target>)
    requires e < |s.events|
    ensures var s' := WorkerCreate(s, e, targets);
      s'.log == s.log && s'.mutex == s.mutex && s'.dryRuns == s.dryRuns && s'.up == s.up && s'.versions == s.versions
      && s'.inFlight == s.inFlight
  {
  }

  /** Only the worker's own deployment starts to wait for the mutex, and only a process that is up has a worker. */
  lemma WorkerWaits(s: State, a: WorkerAction)
    requires ThreadsKnown(s) && HooksKnown(s)
    ensures ThreadsKnown(StepWorker(s, a))
  {
    WorkerLeaves(s, a);
    WorkerInserts(s, a);
  }

  lemma WorkerKeepsCore(s: State, a: WorkerAction)
    requires Core(s) && HooksKnown(s)
    ensures Core(StepWorker(s, a))
  {
    var s' := StepWorker(s, a);
    WorkerLeaves(s, a);
    WorkerWaits(s, a);
    WorkerInserts(s, a);
    if s'.deps != s.deps {
      var e := s.events[s.worker.value.event];
      var d := Deployment(e.project, e.version, "", s.worker.value.event + 1, false, Queued, a.targets);
      assert s'.deps == s.deps + [d];
      InsertKeepsCore(s, d, s');
    } else {
      SameThreads(s, s');
    }
  }

  /** Steps that leave deployments, log, mutex and dry runs alone. */
  lemma SameThreads(s: State, s': State)
    requires Core(s) && s'.deps == s.deps && s'.log == s.log && s'.mutex == s.mutex && s'.dryRuns == s.dryRuns
    requires ThreadsKnown(s')
    ensures Core(s')
  {
    forall id | 0 <= id < |s.deps| ensures GoodAt(s', id) {
      assert GoodAt(s, id);
      Untouched(s, s', id);
    }
  }

  predicate HookOf(s: State, id: nat, event: nat)
    requires id < |s.deps|
  {
    && event < |s.events|
    && !s.deps[id].dryRun
    && s.deps[id].project == s.events[event].project
    && s.deps[id].version == s.events[event].version
  }

  predicate HasRow(stage: WorkerStage) {
    stage.Found? || stage.Noted? || stage.Ran?
  }

  predicate WorkerOn(s: State, event: nat, id: nat) {
    id < |s.deps| && s.deps[id].hookEvent == event + 1
  }

  predicate HooksKnown(s: State) {
    && (forall id :: 0 <= id < |s.deps| && s.deps[id].hookEvent > 0 ==> HookOf(s, id, s.deps[id].hookEvent - 1))
    && (forall e :: 0 <= e < |s.events| && s.events[e].status == EventSuccess ==>
          s.events[e].deployment.Some? && Dispatched(s, e, s.events[e].deployment.value))
    && (s.worker.Some? ==> s.worker.value.event < |s.events| && (HasRow(s.worker.value.stage) ==>
          WorkerOn(s, s.worker.value.event, s.worker.value.stage.id)))
  }

  predicate Dispatched(s: State, event: nat, id: nat) {
    id < |s.deps| && s.deps[id].hookEvent == event + 1 && s.deps[id].status == Success
  }

  /** The unique indexes on idempotency key and hook event. */
  predicate RowsUnique(s: State) {
    forall i, j :: 0 <= i < j < |s.deps| ==> UniquePair(s.deps[i], s.deps[j])
  }

  predicate UniquePair(a: Deployment, b: Deployment) {
    && (a.key != "" && a.project == b.project ==> a.key != b.key)
    && (a.hookEvent > 0 ==> a.hookEvent != b.hookEvent)
  }

  predicate Inv(s: State) {
    Core(s) && HooksKnown(s) && RowsUnique(s)
  }

  /******* Rows only ever move forward *******/

  /** Identity and plan are fixed at creation, a row never returns to the queue, and a finished row never changes. */
  predicate Evolves(d: Deployment, d': Deployment) {
    SamePlan(d, d') && (d.status != Queued ==> d'.status != Queued) && (Finished(d) ==> d' == d)
  }

  predicate RowsEvolve(s: State, s': State) {
    |s.deps| <= |s'.deps| && forall id :: 0 <= id < |s.deps| ==> Evolves(s.deps[id], s'.deps[id])
  }

  lemma ExecutorEvolves(s: State, a: ExecutorAction)
    requires Core(s)
    ensures RowsEvolve(s, StepExecutor(s, a)) && |StepExecutor(s, a).deps| == |s.deps|
  {
    if s.mutex.Some? {
      var id, st := s.mutex.value.id, s.mutex.value.stage;
      assert GoodAt(s, id);
      ExecutorKeepsPlan(a, id, s.deps[id], st, Row(s.versions, s.deps[id]), s.draining);
    }
  }

  lemma DryRunEvolves(s: State, id: nat)
    requires Core(s)
    ensures RowsEvolve(s, StepDryRun(s, id)) && |StepDryRun(s, id).deps| == |s.deps|
  {
    if id in s.dryRuns {
      assert GoodAt(s, id);
      assert RoleOf(s, id) == DryRuns(s.dryRuns[id]);
      DryRunKeepsPlan(s.deps[id], s.dryRuns[id]);
    }
  }

  /** What a step may do to the rows: move them forward, or append one fresh unique row. */
  predicate Appends(s: State, s': State) {
    && |s'.deps| == |s.deps| + 1
    && var d := s'.deps[|s.deps|];
       d.status == Queued && FrozenTargets(d.project, d.version, d.targets)
       && (d.key != "" ==> !KeyTaken(s, d.project, d.key))
       && (d.hookEvent > 0 ==> !EventTaken(s, d.hookEvent))
  }

  lemma InsertEvolves(s: State, d: Deployment)
    requires d.status == Queued && FrozenTargets(d.project, d.version, d.targets)
    ensures RowsEvolve(s, Insert(s, d))
    ensures |Insert(s, d).deps| == |s.deps| || Appends(s, Insert(s, d))
  {
  }

  lemma CreateEvolves(s: State, a: Action)
    requires a.Create?
    ensures RowsEvolve(s, Step(s, a))
    ensures |Step(s, a).deps| == |s.deps| || Appends(s, Step(s, a))
  {
    if FrozenTargets(a.project, a.versionName, a.targets) {
      InsertEvolves(s, Deployment(a.project, a.versionName, a.key, 0, a.dryRun, Queued, a.targets));
    }
  }

  /** The worker inserts a row for its event, or leaves the rows alone. */
  lemma WorkerInserts(s: State, a: WorkerAction)
    ensures StepWorker(s, a).deps == s.deps
      || (a.CreateFor? && s.worker.Some? && s.worker.value.event < |s.events| &&
          var e := s.events[s.worker.value.event];
          && FrozenTargets(e.project, e.version, a.targets)
          && StepWorker(s, a).deps ==
             Insert(s, Deployment(e.project, e.version, "", s.worker.value.event + 1, false, Queued, a.targets)).deps)
  {
  }

  lemma WorkerEvolves(s: State, a: WorkerAction)
    ensures RowsEvolve(s, StepWorker(s, a))
    ensures |StepWorker(s, a).deps| == |s.deps| || Appends(s, StepWorker(s, a))
  {
    WorkerInserts(s, a);
    if StepWorker(s, a).deps != s.deps {
      var e := s.events[s.worker.value.event];
      InsertEvolves(s, Deployment(e.project, e.version, "", s.worker.value.event + 1, false, Queued, a.targets));
    }
  }

  lemma RestartEvolves(s: State)
    ensures RowsEvolve(s, StepRestart(s)) && |StepRestart(s).deps| == |s.deps|
  {
  }

  lemma {:induction false} StepEvolves(s: State, a: Action)
    requires Core(s)
    ensures RowsEvolve(s, Step(s, a))
    ensures |Step(s, a).deps| == |s.deps| || Appends(s, Step(s, a))
  {
    match a
    case Execute(e) => ExecutorEvolves(s, e);
    case DryRunStep(id) => DryRunEvolves(s, id);
    case Create(_, _, _, _, _) => CreateEvolves(s, a);
    case Work(w) => WorkerEvolves(s, w);
    case Restart => RestartEvolves(s);
    case Version(v) => OnlyVersionsChange(s, v);
    case _ =>
  }

  lemma EvolvingKeepsUnique(s: State, s': State)
    requires RowsUnique(s) && RowsEvolve(s, s') && (|s'.deps| == |s.deps| || Appends(s, s'))
    ensures RowsUnique(s')
  {
    forall i, j | 0 <= i < j < |s'.deps| ensures UniquePair(s'.deps[i], s'.deps[j]) {
      if j < |s.deps| {
        assert UniquePair(s.deps[i], s.deps[j]);
      }
    }
  }

  /******* Hook events *******/

  /** A step on other state keeps what is known about hooks. */
  lemma HooksFollow(s: State, s': State)
    requires HooksKnown(s) && RowsEvolve(s, s') && s'.events == s.events && |s'.deps| == |s.deps|
    requires s'.worker == s.worker || s'.worker.None?
    ensures HooksKnown(s')
  {
  }

  lemma CreateKeepsHooks(s: State, project: string, version: string, key: string, dryRun: bool, targets: seq<Target>)
    requires HooksKnown(s)
    ensures HooksKnown(StepCreate(s, project, version, key, dryRun, targets))
  {
  }

  lemma WorkerCreateKeepsHooks(s: State, a: WorkerAction)
    requires HooksKnown(s) && a.CreateFor?
    ensures HooksKnown(StepWorker(s, a))
  {
  }

  /** Recording a result: success is written only for a deployment of this event that succeeded. */
  lemma ResolveKeepsHooks(s: State, event: nat, status: EventStatus, id: Option<nat>, w: Option<Worker>)
    requires HooksKnown(s) && event < |s.events|
    requires status == EventSuccess ==> id.Some? && Dispatched(s, event, id.value)
    requires w.Some? ==>
      w.value.event < |s.events| && (HasRow(w.value.stage) ==> WorkerOn(s, w.value.event, w.value.stage.id))
    ensures HooksKnown(Resolve(s, event, status, id).(worker := w))
  {
  }

  lemma {:induction false} WorkerKeepsHooks(s: State, a: WorkerAction)
    requires HooksKnown(s)
    ensures HooksKnown(StepWorker(s, a))
  {
    if a.CreateFor? {
      if s.worker.Some? {
        WorkerCreateKeepsHooks(s, a);
      }
    } else if a.GiveUp? || a.Note? || a.Record? {
      WorkerResolveKeepsHooks(s, a);
    }
  }

  /** The actions that write the event row. */
  lemma {:induction false} WorkerResolveKeepsHooks(s: State, a: WorkerAction)
    requires HooksKnown(s) && (a.GiveUp? || a.Note? || a.Record?)
    ensures HooksKnown(StepWorker(s, a))
  {
    if s.worker.Some? {
      var w := s.worker.value;
      if a.GiveUp? {
        ResolveKeepsHooks(s, w.event, EventFailed, if w.stage.Ran? then Some(w.stage.id) else None, None);
      } else if a.Note? && w.stage.Found? {
        ResolveKeepsHooks(s, w.event, EventRunning, Some(w.stage.id),
                          Some(Worker(w.event, Noted(w.stage.id, w.stage.run))));
      } else if a.Record? && w.stage.Ran? {
        ResolveKeepsHooks(s, w.event, ResultOf(s.deps[w.stage.id]), Some(w.stage.id), None);
      }
    }
  }

  /** Steps outside the hook machinery neither add rows nor touch events or the worker, except to stop it. */
  lemma QuietForHooks(s: State, a: Action)
    requires !a.Create? && !a.Work? && !a.ClaimHook? && !a.TakeEvent?
    ensures var s' := Step(s, a);
      s'.events == s.events && |s'.deps| == |s.deps| && (s'.worker == s.worker || s'.worker.None?)
  {
  }

  lemma NewEventKeepsHooks(s: State, a: Action)
    requires HooksKnown(s) && (a.ClaimHook? || a.TakeEvent?)
    ensures HooksKnown(Step(s, a))
  {
  }

  lemma {:induction false} StepKeepsHooks(s: State, a: Action)
    requires Core(s) && HooksKnown(s)
    ensures HooksKnown(Step(s, a))
  {
    match a
    case Create(p, v, k, d, ts) => CreateKeepsHooks(s, p, v, k, d, ts);
    case Work(w) => WorkerKeepsHooks(s, w);
    case ClaimHook(_, _) => NewEventKeepsHooks(s, a);
    case TakeEvent(_) => NewEventKeepsHooks(s, a);
    case _ =>
      StepEvolves(s, a);
      QuietForHooks(s, a);
      HooksFollow(s, Step(s, a));
  }

  lemma {:induction false} StepKeepsCore(s: State, a: Action)
    requires Core(s) && HooksKnown(s)
    ensures Core(Step(s, a))
  {
    match a
    case Version(v) => VersionStepKeepsCore(s, v);
    case Create(p, v, k, d, ts) => CreateKeepsCore(s, p, v, k, d, ts);
    case Lock(id) => if id in s.waiting && s.mutex.None? { LockKeepsCore(s, id); }
    case Execute(e) => ExecutorStepKeepsCore(s, e);
    case DryRunStep(id) => DryRunStepKeepsCore(s, id);
    case Crash => CrashKeepsCore(s);
    case Restart => RestartKeepsCore(s);
    case Drain => SameThreads(s, Step(s, a));
    case ClaimHook(_, _) => SameThreads(s, Step(s, a));
    case TakeEvent(_) => SameThreads(s, Step(s, a));
    case Work(w) => WorkerKeepsCore(s, w);
  }

  lemma {:induction false} StepKeepsInv(s: State, a: Action)
    requires Inv(s)
    ensures Inv(Step(s, a))
  {
    StepKeepsCore(s, a);
    StepKeepsHooks(s, a);
    StepEvolves(s, a);
    EvolvingKeepsUnique(s, Step(s, a));
  }

  lemma RunSteps(s: State, actions: seq<Action>, a: Action)
    ensures Run(s, actions + [a]) == Step(Run(s, actions), a)
  {
    assert (actions + [a])[..|actions|] == actions;
  }

  lemma {:induction false} RunKeepsInv(s: State, actions: seq<Action>)
    requires Inv(s)
    ensures Inv(Run(s, actions))
  {
    if actions != [] {
      var n := |actions| - 1;
      RunKeepsInv(s, actions[..n]);
      StepKeepsInv(Run(s, actions[..n]), actions[n]);
    }
  }

  lemma {:induction false} ReachableInv(actions: seq<Action>)
    ensures Inv(Run(Init, actions))
  {
    RunKeepsInv(Init, actions);
  }
}
