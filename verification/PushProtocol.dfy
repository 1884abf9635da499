/**
 The SSH push-deployment protocol as a transition system.

 Durable state: the deployment rows with their ordered target rows, the hook dispatch
 events and the version rows.  Volatile state: the deployment mutex with the program counter
 of its holder, the calls waiting for it, the dry-run threads, the hook worker, and the review and publish requests
 that have passed their check but not yet written.
 The log of Deploy calls is kept by the model only; it records what reached the remote side.

 Every SQL statement or transaction is one step, and every interleaving of steps is allowed.
 What the executor reads from the host, binding and server configuration is an arbitrary
 observation: nothing is assumed about how these tables change meanwhile.
 */
module PushProtocol {
  import opened Options
  import opened PushPlan

  /******* Rows *******/

  datatype TargetStatus = TQueued | TRunning | TSuccess | TFailed | TUnknown | TSkipped
  datatype Status = Queued | Running | Success | Failed

  /** A target row; `instance` is where its frozen plan physically lives (not a column: it follows from the plan). */
  datatype Target = Target(hostId: nat, bindingId: nat, serverId: string, digest: Digest, instance: PhysicalKey,
                           status: TargetStatus)

  datatype Deployment = Deployment(
    project: string, version: string, key: string, hookEvent: nat, dryRun: bool,
    status: Status, targets: seq<Target>)

  predicate TargetFinished(t: TargetStatus) {
    t != TQueued && t != TRunning
  }

  predicate Finished(d: Deployment) {
    d.status == Success || d.status == Failed
  }

  predicate AllTargets(d: Deployment, status: TargetStatus) {
    forall i :: 0 <= i < |d.targets| ==> d.targets[i].status == status
  }

  function MarkTarget(d: Deployment, i: nat, status: TargetStatus): Deployment
    requires i < |d.targets|
  {
    d.(targets := d.targets[i := d.targets[i].(status := status)])
  }

  datatype EventStatus = EventRunning | EventSuccess | EventFailed
  datatype HookEvent = HookEvent(project: string, version: string, status: EventStatus, deployment: Option<nat>)

  /******* Deploy calls *******/

  datatype Outcome = Ok | Error | UnknownOutcome
  datatype CallState = Pending | Returned(outcome: Outcome) | Lost

  datatype Call = Call(dep: nat, target: nat, version: string, artifact: string, snapshot: Snapshot, state: CallState)

  /******* Program counters *******/

  datatype Stage =
    | Locked
    | Admitted
    | Validating(prepared: seq<Snapshot>)
    | Failing(next: nat)
    | Executing(prepared: seq<Snapshot>, next: nat)
    | Marked(prepared: seq<Snapshot>, next: nat)
    | InFlight(prepared: seq<Snapshot>, next: nat)
    | Answered(prepared: seq<Snapshot>, next: nat, outcome: Outcome)
    | Skipping(next: nat)
    | Counting
    | Finishing(success: bool)

  datatype DryStage = DryStart | DryMarking(next: nat) | DryCounting | DryFinishing(success: bool)

  datatype Executor = Executor(id: nat, stage: Stage)

  /** `run` remembers whether the deployment was unfinished when it was looked up. */
  datatype WorkerStage = Looking | Checked | Found(id: nat, run: bool) | Noted(id: nat, run: bool) | Ran(id: nat)
  datatype Worker = Worker(event: nat, stage: WorkerStage)

  /** Review and publish requests read the status in one statement and update the row, unguarded, in another. In between
      a publish also reads the files, which gives the artifact that it will write. */
  datatype VersionRequest =
    | Submit(project: string, version: string)
    | Reject(project: string, version: string)
    | Publish(project: string, version: string)
    | Release(project: string, version: string, artifact: string)

  predicate PassesCheck(r: VersionRequest, status: VersionStatus) {
    match r
    case Submit(_, _) => status == Draft || status == Rejected
    case Reject(_, _) => status == PendingReview
    case Publish(_, _) => status == Draft || status == PendingReview
    case Release(_, _, _) => false
  }

  function Written(r: VersionRequest, row: VersionRow): VersionRow {
    match r
    case Submit(_, _) => row.(status := PendingReview)
    case Reject(_, _) => row.(status := Rejected)
    case Publish(_, _) => row
    case Release(_, _, artifact) => VersionRow(Published, artifact)
  }

  datatype State = State(
    deps: seq<Deployment>, events: seq<HookEvent>, versions: map<(string, string), VersionRow>,
    up: bool, draining: bool, waiting: set<nat>, mutex: Option<Executor>, dryRuns: map<nat, DryStage>,
    worker: Option<Worker>, inFlight: multiset<VersionRequest>, log: seq<Call>)

  const Init := State([], [], map[], false, false, {}, None, map[], None, multiset{}, [])

  function Row(versions: map<(string, string), VersionRow>, d: Deployment): Option<VersionRow> {
    if (d.project, d.version) in versions then Some(versions[(d.project, d.version)]) else None
  }

  /******* Actions *******/

  datatype VersionAction =
    | CreateVersion(project: string, version: string)
    | CheckRequest(request: VersionRequest)
    | ReadArtifact(project: string, version: string, artifact: string)
    | WriteRequest(request: VersionRequest)
    | DeleteVersion(project: string, version: string)

  /** The statements of runPushDeployment, with what each of them reads or is answered. */
  datatype ExecutorAction =
    | CheckDrain
    | Claim
    | CheckPublicUrl(ok: bool)
    | ValidateTarget(observed: Option<Snapshot>)
    | CheckRequester(found: bool)
    | MarkFailed
    | MarkRunning
    | CallDeploy
    | DeployReturns(outcome: Outcome)
    | RecordResult
    | MarkSkipped
    | CountFailures
    | Complete

  /** The store accesses of dispatchReleaseHook. */
  datatype WorkerAction =
    | GiveUp
    | CheckVersion
    | Find(id: nat)
    | CreateFor(targets: seq<Target>)
    | Note
    | CallRun
    | Record

  datatype Action =
    | Version(version: VersionAction)
    | Create(project: string, versionName: string, key: string, dryRun: bool, targets: seq<Target>)
    | Lock(id: nat)
    | Execute(executor: ExecutorAction)
    | DryRunStep(id: nat)
    | Drain
    | Crash
    | Restart
    | ClaimHook(project: string, versionName: string)
    | TakeEvent(event: nat)
    | Work(worker: WorkerAction)

  /** What freezePushPlan hands to CreatePushDeployment: at least one target, each with the digest of a
      plan for this project and version, and no physical instance twice. */
  predicate FrozenTargets(project: string, version: string, targets: seq<Target>) {
    && |targets| >= 1
    && (forall i :: 0 <= i < |targets| ==> FrozenTarget(project, version, targets[i]))
    && DistinctInstances(targets)
  }

  predicate FrozenTarget(project: string, version: string, t: Target) {
    && t.status == TQueued
    && Keyed(t)
    && t.digest.plan.project == project
    && t.digest.plan.version == version
  }

  /** Where a digest comes from: a usable binding, whose place is that of the row. */
  predicate Keyed(t: Target) {
    && t.digest.Sha256?
    && t.instance == Physical(t.digest.plan.snapshot.host, t.digest.plan.snapshot.binding)
    && DeployableBinding(t.digest.plan.snapshot.binding, t.digest.plan.project)
  }

  predicate DistinctInstances(targets: seq<Target>) {
    forall i, j :: 0 <= i < j < |targets| ==> targets[i].instance != targets[j].instance
  }

  predicate ActiveVersion(s: State, project: string, version: string) {
    exists i :: 0 <= i < |s.deps| && s.deps[i].project == project && s.deps[i].version == version
      && !Finished(s.deps[i])
  }

  predicate KeyTaken(s: State, project: string, key: string) {
    exists i :: 0 <= i < |s.deps| && s.deps[i].project == project && s.deps[i].key == key
  }

  predicate EventTaken(s: State, event: nat) {
    exists i :: 0 <= i < |s.deps| && s.deps[i].hookEvent == event
  }

  /******* The executor, seen from its own deployment *******/

  datatype CallChange = NoCall | NewCall(call: Call) | SetLast(state: CallState)
  datatype Move = Move(dep: Deployment, stage: Option<Stage>, change: CallChange)

  predicate TargetUnchanged(row: Option<VersionRow>, d: Deployment, t: Target, seen: Snapshot) {
    && seen.binding.hostId == t.hostId
    && seen.binding.serverId == t.serverId
    && var digest := PlanDigest(row, d.project, d.version, seen);
       digest.Sha256? && t.digest == digest
  }

  /** The step after target `next` is dealt with: on to the following one, or to the final count. */
  function After(d: Deployment, next: nat, stage: Stage): Stage {
    if next + 1 < |d.targets| then stage else Counting
  }

  predicate AllSucceeded(d: Deployment) {
    AllTargets(d, TSuccess)
  }

  function Stay(d: Deployment, stage: Stage): Move {
    Move(d, Some(stage), NoCall)
  }

  /** One statement of runPushDeployment; an action that does not belong to the stage changes nothing. */
  function ExecutorMove(a: ExecutorAction, id: nat, d: Deployment, stage: Stage, row: Option<VersionRow>,
                        draining: bool): Move {
    match stage
    case Locked =>
      if !a.CheckDrain? then Stay(d, stage)
      else if draining then Move(d, None, NoCall)
      else Move(d, Some(Admitted), NoCall)
    case Admitted =>
      if !a.Claim? then Stay(d, stage)
      else if d.status != Queued then Move(d, None, NoCall)
      else Move(d.(status := Running), Some(Validating([])), NoCall)
    case Validating(prepared) => ValidatingMove(a, d, prepared, row)
    case Failing(next) =>
      if !a.MarkFailed? || next >= |d.targets| then Stay(d, stage)
      else Move(MarkTarget(d, next, TFailed), Some(After(d, next, Failing(next + 1))), NoCall)
    case Executing(prepared, next) =>
      if !a.MarkRunning? || next >= |d.targets| then Stay(d, stage)
      else Move(MarkTarget(d, next, TRunning), Some(Marked(prepared, next)), NoCall)
    case Marked(prepared, next) =>
      if !a.CallDeploy? || next >= |prepared| then Stay(d, stage)
      else
        var artifact := if row.Some? then row.value.artifact else "";
        Move(d, Some(InFlight(prepared, next)), NewCall(Call(id, next, d.version, artifact, prepared[next], Pending)))
    case InFlight(prepared, next) =>
      if !a.DeployReturns? then Stay(d, stage)
      else Move(d, Some(Answered(prepared, next, a.outcome)), SetLast(Returned(a.outcome)))
    case Answered(prepared, next, o) =>
      if !a.RecordResult? || next >= |d.targets| then Stay(d, stage)
      else if o == Ok then
        Move(MarkTarget(d, next, TSuccess), Some(After(d, next, Executing(prepared, next + 1))), NoCall)
      else
        var status := if o == Error then TFailed else TUnknown;
        Move(MarkTarget(d, next, status), Some(After(d, next, Skipping(next + 1))), NoCall)
    case Skipping(next) =>
      if !a.MarkSkipped? || next >= |d.targets| then Stay(d, stage)
      else Move(MarkTarget(d, next, TSkipped), Some(After(d, next, Skipping(next + 1))), NoCall)
    case Counting =>
      if !a.CountFailures? then Stay(d, stage) else Move(d, Some(Finishing(AllSucceeded(d))), NoCall)
    case Finishing(success) =>
      if !a.Complete? then Stay(d, stage)
      else Move(d.(status := if success then Success else Failed), None, NoCall)
  }

  /** Validation of the whole fleet, before its first node is touched. */
  function ValidatingMove(a: ExecutorAction, d: Deployment, prepared: seq<Snapshot>, row: Option<VersionRow>): Move {
    if a.CheckPublicUrl? && !a.ok then Move(d, Some(Failing(0)), NoCall)
    else if a.ValidateTarget? && |prepared| < |d.targets| then
      if a.observed.Some? && TargetUnchanged(row, d, d.targets[|prepared|], a.observed.value)
      then Move(d, Some(Validating(prepared + [a.observed.value])), NoCall)
      else Move(d, Some(Failing(0)), NoCall)
    else if a.CheckRequester? && |prepared| >= |d.targets| then
      Move(d, Some(if a.found then Executing(prepared, 0) else Failing(0)), NoCall)
    else Stay(d, Validating(prepared))
  }

  /** One step of completePushDryRun. */
  function DryMove(d: Deployment, stage: DryStage): (Deployment, Option<DryStage>) {
    match stage
    case DryStart =>
      if d.status != Queued then (d, None) else (d.(status := Running), Some(DryMarking(0)))
    case DryMarking(next) =>
      if next >= |d.targets| then (d, Some(stage))
      else (MarkTarget(d, next, TSuccess), Some(if next + 1 < |d.targets| then DryMarking(next + 1) else DryCounting))
    case DryCounting => (d, Some(DryFinishing(AllSucceeded(d))))
    case DryFinishing(success) => (d.(status := if success then Success else Failed), None)
  }

  /** InterruptPushDeployments on one row: a running target has an unknown outcome, a queued one is skipped. */
  function InterruptTarget(t: Target): Target {
    if t.status == TRunning then t.(status := TUnknown)
    else if t.status == TQueued then t.(status := TSkipped)
    else t
  }

  function Interrupt(d: Deployment): Deployment {
    if Finished(d) then d
    else d.(status := Failed, targets := seq(|d.targets|,
                                             i requires 0 <= i < |d.targets| => InterruptTarget(d.targets[i])))
  }

  /******* Log *******/

  function Apply(log: seq<Call>, change: CallChange): seq<Call> {
    match change
    case NoCall => log
    case NewCall(c) => log + [c]
    case SetLast(state) => if log == [] then log else log[|log| - 1 := log[|log| - 1].(state := state)]
  }

  /** A crash loses the answer of the call in flight. */
  function LoseAnswer(log: seq<Call>): seq<Call> {
    if log != [] && log[|log| - 1].state == Pending then Apply(log, SetLast(Lost)) else log
  }

  /** The Deploy calls made for one deployment, in order. */
  function Hist(log: seq<Call>, id: nat): seq<Call> {
    if log == [] then []
    else
      var before, last := Hist(log[..|log| - 1], id), log[|log| - 1];
      if last.dep == id then before + [last] else before
  }

  /******* Global steps *******/

  function SetMutex(id: nat, stage: Option<Stage>): Option<Executor> {
    if stage.None? then None else Some(Executor(id, stage.value))
  }

  function StepExecutor(s: State, a: ExecutorAction): State {
    if s.mutex.None? || s.mutex.value.id >= |s.deps| then s
    else
      var id := s.mutex.value.id;
      Moved(s, id, ExecutorMove(a, id, s.deps[id], s.mutex.value.stage, Row(s.versions, s.deps[id]), s.draining))
  }

  function Moved(s: State, id: nat, m: Move): State
    requires id < |s.deps|
  {
    s.(deps := s.deps[id := m.dep], mutex := SetMutex(id, m.stage), log := Apply(s.log, m.change))
  }

  function StepDryRun(s: State, id: nat): State {
    if id !in s.dryRuns || id >= |s.deps| then s
    else
      var (d, stage) := DryMove(s.deps[id], s.dryRuns[id]);
      s.(deps := s.deps[id := d], dryRuns := if stage.None? then s.dryRuns - {id} else s.dryRuns[id := stage.value])
  }

  /** The insert of CreatePushDeployment; the unique indexes refuse a used key or a used hook event. */
  function Insert(s: State, d: Deployment): State {
    if (d.key != "" && KeyTaken(s, d.project, d.key)) || (d.hookEvent > 0 && EventTaken(s, d.hookEvent)) then s
    else s.(deps := s.deps + [d])
  }

  function StepCreate(s: State, project: string, version: string, key: string, dryRun: bool,
                      targets: seq<Target>): State {
    if !s.up || !FrozenTargets(project, version, targets) then s
    else
      var s' := Insert(s, Deployment(project, version, key, 0, dryRun, Queued, targets));
      if |s'.deps| == |s.deps| then s
      else if dryRun then s'.(dryRuns := s.dryRuns[|s.deps| := DryStart])
      else s'.(waiting := s.waiting + {|s.deps|})
  }

  function StepVersion(s: State, a: VersionAction): State {
    if !s.up then s
    else
      match a
      case CreateVersion(p, v) =>
        if (p, v) in s.versions then s else s.(versions := s.versions[(p, v) := VersionRow(Draft, "")])
      case CheckRequest(r) =>
        if (r.project, r.version) in s.versions && PassesCheck(r, s.versions[(r.project, r.version)].status)
        then s.(inFlight := s.inFlight + multiset{r}) else s
      case ReadArtifact(p, v, artifact) =>
        if Publish(p, v) !in s.inFlight then s
        else s.(inFlight := s.inFlight - multiset{Publish(p, v)} + multiset{Release(p, v, artifact)})
      case WriteRequest(r) =>
        if r !in s.inFlight || r.Publish? then s
        else s.(versions := AfterWrite(s.versions, r), inFlight := s.inFlight - multiset{r})
      case DeleteVersion(p, v) =>
        if ActiveVersion(s, p, v) then s else s.(versions := s.versions - {(p, v)})
  }

  function AfterWrite(versions: map<(string, string), VersionRow>,
                      r: VersionRequest): map<(string, string), VersionRow> {
    var key := (r.project, r.version);
    if key in versions then versions[key := Written(r, versions[key])] else versions
  }

  function Resolve(s: State, event: nat, status: EventStatus, deployment: Option<nat>): State
    requires event < |s.events|
  {
    s.(events := s.events[event := s.events[event].(status := status, deployment := deployment)])
  }

  predicate VersionPublished(versions: map<(string, string), VersionRow>, project: string, version: string) {
    (project, version) in versions && versions[(project, version)].status == Published
  }

  /** The insert for an event; the unique index refuses a second one. */
  function WorkerCreate(s: State, e: nat, targets: seq<Target>): State
    requires e < |s.events|
  {
    var event := s.events[e];
    if !FrozenTargets(event.project, event.version, targets) then s
    else
      var s' := Insert(s, Deployment(event.project, event.version, "", e + 1, false, Queued, targets));
      if |s'.deps| == |s.deps| then s
      else s'.(worker := Some(Worker(e, Found(|s.deps|, true))))
  }

  /** dispatchReleaseHook, one store access at a time. */
  function StepWorker(s: State, a: WorkerAction): State {
    if s.worker.None? || s.worker.value.event >= |s.events| then s
    else if a.CreateFor? then
      if s.worker.value.stage.Checked? then WorkerCreate(s, s.worker.value.event, a.targets) else s
    else WorkerAccess(s, a)
  }

  function ResultOf(d: Deployment): EventStatus {
    if d.status == Success then EventSuccess else EventFailed
  }

  /** The accesses other than the insert. */
  function WorkerAccess(s: State, a: WorkerAction): State
    requires s.worker.Some? && s.worker.value.event < |s.events|
  {
    var w := s.worker.value;
    match w.stage
    case Looking =>
      if a.GiveUp? then Resolve(s, w.event, EventFailed, None).(worker := None)
      else if a.CheckVersion? && VersionPublished(s.versions, s.events[w.event].project, s.events[w.event].version)
      then s.(worker := Some(Worker(w.event, Checked)))
      else s
    case Checked =>
      if a.GiveUp? then Resolve(s, w.event, EventFailed, None).(worker := None)
      else if a.Find? && a.id < |s.deps| && s.deps[a.id].hookEvent == w.event + 1
      then s.(worker := Some(Worker(w.event, Found(a.id, !Finished(s.deps[a.id])))))
      else s
    case Found(id, run) =>
      if a.Note? then Resolve(s, w.event, EventRunning, Some(id)).(worker := Some(Worker(w.event, Noted(id, run))))
        else s
    case Noted(id, run) =>
      if a.CallRun? && id < |s.deps|
      then s.(waiting := if run then s.waiting + {id} else s.waiting, worker := Some(Worker(w.event, Ran(id))))
      else s
    case Ran(id) =>
      if a.GiveUp? then Resolve(s, w.event, EventFailed, Some(id)).(worker := None)
      else if a.Record? && id < |s.deps|
      then Resolve(s, w.event, ResultOf(s.deps[id]), Some(id)).(worker := None)
      else s
  }

  function StepCrash(s: State): State {
    s.(up := false, draining := false, waiting := {}, mutex := None, dryRuns := map[], worker := None,
       inFlight := multiset{},
       log := LoseAnswer(s.log))
  }

  function StepRestart(s: State): State {
    if s.up then s
    else s.(up := true, deps := seq(|s.deps|, i requires 0 <= i < |s.deps| => Interrupt(s.deps[i])))
  }

  function Step(s: State, a: Action): State {
    match a
    case Version(v) => StepVersion(s, v)
    case Create(project, version, key, dryRun, targets) => StepCreate(s, project, version, key, dryRun, targets)
    case Lock(id) =>
      if id !in s.waiting || s.mutex.Some? then s
      else s.(waiting := s.waiting - {id}, mutex := Some(Executor(id, Locked)))
    case Execute(e) => StepExecutor(s, e)
    case DryRunStep(id) => StepDryRun(s, id)
    case Drain => if s.up then s.(draining := true) else s
    case Crash => StepCrash(s)
    case Restart => StepRestart(s)
    case ClaimHook(p, v) => if s.up then s.(events := s.events + [HookEvent(p, v, EventRunning, None)]) else s
    case TakeEvent(e) =>
      if !s.up || s.worker.Some? || e >= |s.events| || s.events[e].status != EventRunning then s
      else s.(worker := Some(Worker(e, Looking)))
    case Work(w) => StepWorker(s, w)
  }

  /** A run: any sequence of actions; an action that is not enabled changes nothing. */
  function Run(s: State, actions: seq<Action>): State {
    if actions == [] then s
    else Step(Run(s, actions[..|actions| - 1]), actions[|actions| - 1])
  }
}
