/**
 The invariant of the push protocol.  It is stated one deployment at a time, over the calls made
 for that deployment, its row and the role of the thread working on it.
 */
module PushInvariant {
  import opened Options
  import opened PushPlan
  import opened PushProtocol

  datatype Role = Idle | Executes(stage: Stage) | DryRuns(dryStage: DryStage)

  function RoleOf(s: State, id: nat): Role {
    if s.mutex.Some? && s.mutex.value.id == id then Executes(s.mutex.value.stage)
    else if id in s.dryRuns then DryRuns(s.dryRuns[id])
    else Idle
  }

  /******* One deployment *******/

  predicate Succeeded(c: Call) {
    c.state == Returned(Ok)
  }

  predicate AllOk(h: seq<Call>) {
    forall i :: 0 <= i < |h| ==> Succeeded(h[i])
  }

  /** The plan behind the stored digest is for this deployment and these reads. */
  predicate FrozenFor(t: Target, d: Deployment, seen: Snapshot) {
    t.digest.Sha256? && t.digest.plan.project == d.project && t.digest.plan.version == d.version
      && t.digest.plan.snapshot == seen
  }

  /** The call used the version, host, binding and environment whose digest is stored in the target row. */
  predicate UsesPlan(c: Call, d: Deployment, t: Target) {
    c.version == d.version && FrozenFor(t, d, c.snapshot)
  }

  /** The calls go through the targets in order, and only the last one may lack a success. */
  predicate CallsInOrder(h: seq<Call>, d: Deployment) {
    && |h| <= |d.targets|
    && (forall i :: 0 <= i < |h| ==> h[i].target == i && UsesPlan(h[i], d, d.targets[i]))
    && (forall i :: 0 <= i < |h| - 1 ==> Succeeded(h[i]))
  }

  /** Which statuses a target that was called may have: never queued or skipped, successful or failed only with that
      answer; running and unknown leave it open. */
  predicate CallMatches(status: TargetStatus, state: CallState) {
    match status
    case TQueued => false
    case TSkipped => false
    case TSuccess => state == Returned(Ok)
    case TFailed => state == Returned(Error)
    case TRunning => true
    case TUnknown => true
  }

  predicate RowsAgree(h: seq<Call>, d: Deployment) {
    && (!d.dryRun ==> forall i :: 0 <= i < |d.targets| && d.targets[i].status == TSuccess ==> i < |h|)
    && (forall i :: 0 <= i < |h| && i < |d.targets| ==> CallMatches(d.targets[i].status, h[i].state))
    && (d.status == Success ==> AllTargets(d, TSuccess))
    && (Finished(d) ==> TargetsFinished(d))
  }

  predicate TargetsFinished(d: Deployment) {
    forall i :: 0 <= i < |d.targets| ==> TargetFinished(d.targets[i].status)
  }

  predicate Consistent(h: seq<Call>, d: Deployment) {
    && |d.targets| >= 1
    && CallsInOrder(h, d)
    && RowsAgree(h, d)
    && (d.dryRun ==> h == [])
    && (d.status == Queued ==> h == [] && AllTargets(d, TQueued))
  }

  /** Targets before `k` have status `before`, those from `k` on are still queued. */
  predicate Split(d: Deployment, k: nat, before: TargetStatus) {
    forall i :: 0 <= i < |d.targets| ==> d.targets[i].status == if i < k then before else TQueued
  }

  /** Every target validated so far was found as frozen. */
  predicate PreparedFor(prepared: seq<Snapshot>, d: Deployment) {
    |prepared| <= |d.targets| && forall i :: 0 <= i < |prepared| ==> FrozenFor(d.targets[i], d, prepared[i])
  }

  predicate OneRunning(d: Deployment, k: nat) {
    && k < |d.targets|
    && forall i :: 0 <= i < |d.targets| ==>
         d.targets[i].status == if i < k then TSuccess else if i == k then TRunning else TQueued
  }

  predicate Ready(prepared: seq<Snapshot>, d: Deployment) {
    |prepared| == |d.targets| && PreparedFor(prepared, d)
  }

  predicate Stopped(h: seq<Call>, d: Deployment, k: nat) {
    && 1 <= |h| <= k < |d.targets|
    && forall i :: 0 <= i < |d.targets| ==>
         if i < |h| then TargetFinished(d.targets[i].status)
         else d.targets[i].status == if i < k then TSkipped else TQueued
  }

  predicate AtStage(st: Stage, h: seq<Call>, d: Deployment) {
    && !d.dryRun
    && (st != Locked && st != Admitted ==> d.status == Running)
    && match st
       case Locked => true
       case Admitted => true
       case Validating(prepared) => h == [] && AllTargets(d, TQueued) && PreparedFor(prepared, d)
       case Failing(k) => h == [] && k < |d.targets| && Split(d, k, TFailed)
       case Executing(prepared, k) =>
         |h| == k < |d.targets| && AllOk(h) && Split(d, k, TSuccess) && Ready(prepared, d)
       case Marked(prepared, k) => |h| == k && AllOk(h) && OneRunning(d, k) && Ready(prepared, d)
       case InFlight(prepared, k) =>
         |h| == k + 1 && AllOk(h[..k]) && h[k].state == Pending && OneRunning(d, k) && Ready(prepared, d)
       case Answered(prepared, k, o) =>
         |h| == k + 1 && AllOk(h[..k]) && h[k].state == Returned(o) && OneRunning(d, k) && Ready(prepared, d)
       case Skipping(k) => Stopped(h, d, k)
       case Counting => TargetsFinished(d)
       case Finishing(success) => TargetsFinished(d) && success == AllSucceeded(d)
  }

  predicate AtDryStage(st: DryStage, d: Deployment) {
    && d.dryRun
    && (st != DryStart ==> d.status == Running)
    && match st
       case DryStart => true
       case DryMarking(k) => k < |d.targets| && Split(d, k, TSuccess)
       case DryCounting => AllTargets(d, TSuccess)
       case DryFinishing(success) => AllTargets(d, TSuccess) && success
  }

  predicate Good(h: seq<Call>, d: Deployment, role: Role) {
    && Consistent(h, d)
    && match role
       case Idle => true
       case Executes(st) => AtStage(st, h, d)
       case DryRuns(st) => AtDryStage(st, d)
  }

  function ExecutorRole(stage: Option<Stage>): Role {
    if stage.None? then Idle else Executes(stage.value)
  }

  /******* The executor keeps its own deployment good *******/

  ghost predicate Keeps(a: ExecutorAction, id: nat, h: seq<Call>, d: Deployment, st: Stage, row: Option<VersionRow>,
                        draining: bool) {
    var m := ExecutorMove(a, id, d, st, row, draining);
    Good(Apply(h, m.change), m.dep, ExecutorRole(m.stage))
  }

  lemma ClaimKeepsGood(a: ExecutorAction, id: nat, h: seq<Call>, d: Deployment, st: Stage, row: Option<VersionRow>,
                       draining: bool)
    requires Good(h, d, Executes(st))
    requires st.Locked? || st.Admitted?
    ensures Keeps(a, id, h, d, st, row, draining)
  {
  }

  lemma CompletingKeepsGood(a: ExecutorAction, id: nat, h: seq<Call>, d: Deployment, st: Stage, row: Option<VersionRow>,
                            draining: bool)
    requires Good(h, d, Executes(st))
    requires st.Counting? || st.Finishing?
    ensures Keeps(a, id, h, d, st, row, draining)
  {
  }

  lemma ValidatingKeepsGood(a: ExecutorAction, id: nat, h: seq<Call>, d: Deployment, st: Stage, row: Option<VersionRow>,
                            draining: bool)
    requires Good(h, d, Executes(st))
    requires st.Validating?
    ensures Keeps(a, id, h, d, st, row, draining)
  {
    var m := ValidatingMove(a, d, st.prepared, row);
    if m.stage == Some(Failing(0)) {
      assert Split(d, 0, TFailed);
    } else if m.stage.value.Executing? {
      assert Split(d, 0, TSuccess);
    } else if a.ValidateTarget? && |st.prepared| < |d.targets| {
      OneMorePrepared(st.prepared, d, row, a.observed.value);
    }
  }

  lemma OneMorePrepared(prepared: seq<Snapshot>, d: Deployment, row: Option<VersionRow>, seen: Snapshot)
    requires PreparedFor(prepared, d) && |prepared| < |d.targets|
    requires TargetUnchanged(row, d, d.targets[|prepared|], seen)
    ensures PreparedFor(prepared + [seen], d)
  {
  }

  lemma FailingKeepsGood(a: ExecutorAction, id: nat, h: seq<Call>, d: Deployment, st: Stage, row: Option<VersionRow>,
                         draining: bool)
    requires Good(h, d, Executes(st))
    requires st.Failing?
    ensures Keeps(a, id, h, d, st, row, draining)
  {
  }

  lemma MarkingKeepsGood(a: ExecutorAction, id: nat, h: seq<Call>, d: Deployment, st: Stage, row: Option<VersionRow>,
                         draining: bool)
    requires Good(h, d, Executes(st))
    requires st.Executing?
    ensures Keeps(a, id, h, d, st, row, draining)
  {
  }

  lemma CallingKeepsGood(a: ExecutorAction, id: nat, h: seq<Call>, d: Deployment, st: Stage, row: Option<VersionRow>,
                         draining: bool)
    requires Good(h, d, Executes(st))
    requires st.Marked?
    ensures Keeps(a, id, h, d, st, row, draining)
  {
    var m := ExecutorMove(a, id, d, st, row, draining);
    if m.change.NewCall? {
      NextCall(h, d, m.change.call);
    }
  }

  /** A further call after successes only. */
  lemma NextCall(h: seq<Call>, d: Deployment, c: Call)
    requires Consistent(h, d) && AllOk(h) && |h| < |d.targets| && d.status == Running && !d.dryRun
    requires c.target == |h| && UsesPlan(c, d, d.targets[|h|]) && d.targets[|h|].status == TRunning
    ensures Consistent(h + [c], d) && (h + [c])[..|h|] == h
  {
  }

  lemma AnswerKeepsGood(a: ExecutorAction, id: nat, h: seq<Call>, d: Deployment, st: Stage, row: Option<VersionRow>,
                        draining: bool)
    requires Good(h, d, Executes(st))
    requires st.InFlight?
    ensures Keeps(a, id, h, d, st, row, draining)
  {
  }

  /** A successful answer is recorded. */
  lemma RecordSuccess(h: seq<Call>, d: Deployment, k: nat)
    requires Consistent(h, d) && d.status == Running && !d.dryRun && |h| == k + 1 && AllOk(h) && OneRunning(d, k)
    ensures var d' := MarkTarget(d, k, TSuccess);
      Consistent(h, d') && Split(d', k + 1, TSuccess) && (|h| == |d'.targets| ==> TargetsFinished(d'))
  {
  }

  /** Any other answer is recorded, and the fleet stops. */
  lemma RecordFailure(h: seq<Call>, d: Deployment, k: nat, status: TargetStatus)
    requires Consistent(h, d) && d.status == Running && !d.dryRun && |h| == k + 1 && OneRunning(d, k)
    requires status == TUnknown || (status == TFailed && h[k].state == Returned(Error))
    ensures var d' := MarkTarget(d, k, status);
      && Consistent(h, d')
      && (k + 1 < |d'.targets| ==> Stopped(h, d', k + 1))
      && (k + 1 == |d'.targets| ==> TargetsFinished(d'))
  {
  }

  lemma RecordingKeepsGood(a: ExecutorAction, id: nat, h: seq<Call>, d: Deployment, st: Stage, row: Option<VersionRow>,
                           draining: bool)
    requires Good(h, d, Executes(st))
    requires st.Answered?
    ensures Keeps(a, id, h, d, st, row, draining)
  {
    if a.RecordResult? {
      if st.outcome == Ok {
        SuccessKeepsGood(id, h, d, st, row, draining);
      } else {
        RecordFailure(h, d, st.next, if st.outcome == Error then TFailed else TUnknown);
      }
    }
  }

  lemma SuccessKeepsGood(id: nat, h: seq<Call>, d: Deployment, st: Stage, row: Option<VersionRow>, draining: bool)
    requires Good(h, d, Executes(st)) && st.Answered? && st.outcome == Ok
    ensures Keeps(RecordResult, id, h, d, st, row, draining)
  {
    assert AllOk(h);
    RecordSuccess(h, d, st.next);
    PlanStaysReady(st.prepared, d, MarkTarget(d, st.next, TSuccess));
  }

  lemma PlanStaysReady(prepared: seq<Snapshot>, d: Deployment, d': Deployment)
    requires Ready(prepared, d) && SamePlan(d, d')
    ensures Ready(prepared, d')
  {
  }

  lemma SkippingKeepsGood(a: ExecutorAction, id: nat, h: seq<Call>, d: Deployment, st: Stage, row: Option<VersionRow>,
                          draining: bool)
    requires Good(h, d, Executes(st))
    requires st.Skipping?
    ensures Keeps(a, id, h, d, st, row, draining)
  {
    var m := ExecutorMove(a, id, d, st, row, draining);
    assert |m.dep.targets| == |d.targets| && Consistent(h, m.dep);
  }

  lemma ExecutorKeepsGood(a: ExecutorAction, id: nat, h: seq<Call>, d: Deployment, st: Stage, row: Option<VersionRow>,
                          draining: bool)
    requires Good(h, d, Executes(st))
    ensures Keeps(a, id, h, d, st, row, draining)
  {
    match st
    case Validating(_) => ValidatingKeepsGood(a, id, h, d, st, row, draining);
    case Failing(_) => FailingKeepsGood(a, id, h, d, st, row, draining);
    case Executing(_, _) => MarkingKeepsGood(a, id, h, d, st, row, draining);
    case Marked(_, _) => CallingKeepsGood(a, id, h, d, st, row, draining);
    case InFlight(_, _) => AnswerKeepsGood(a, id, h, d, st, row, draining);
    case Answered(_, _, _) => RecordingKeepsGood(a, id, h, d, st, row, draining);
    case Skipping(_) => SkippingKeepsGood(a, id, h, d, st, row, draining);
    case Locked => ClaimKeepsGood(a, id, h, d, st, row, draining);
    case Admitted => ClaimKeepsGood(a, id, h, d, st, row, draining);
    case _ => CompletingKeepsGood(a, id, h, d, st, row, draining);
  }

  lemma DryRunKeepsGood(h: seq<Call>, d: Deployment, st: DryStage)
    requires Good(h, d, DryRuns(st))
    ensures var (d', st') := DryMove(d, st);
            Good(h, d', if st'.None? then Idle else DryRuns(st'.value))
  {
  }

  lemma CrashKeepsGood(h: seq<Call>, d: Deployment, role: Role)
    requires Good(h, d, role)
    ensures Good(LoseAnswer(h), d, Idle)
  {
  }

  lemma InterruptKeepsGood(h: seq<Call>, d: Deployment)
    requires Good(h, d, Idle)
    ensures Good(h, Interrupt(d), Idle)
    ensures Finished(Interrupt(d))
  {
  }

  /******* The log, one deployment at a time *******/

  lemma HistAppend(log: seq<Call>, c: Call, id: nat)
    ensures Hist(log + [c], id) == if c.dep == id then Hist(log, id) + [c] else Hist(log, id)
  {
    assert (log + [c])[..|log|] == log;
  }

  lemma HistApply(log: seq<Call>, change: CallChange, id: nat, actor: nat)
    requires change.NewCall? ==> change.call.dep == actor
    requires change.SetLast? ==> log != [] && log[|log| - 1].dep == actor
    ensures Hist(Apply(log, change), id) == if id == actor then Apply(Hist(log, id), change) else Hist(log, id)
  {
    match change
    case NoCall =>
    case NewCall(c) => HistAppend(log, c, id);
    case SetLast(state) =>
      var n := |log| - 1;
      var last := log[n].(state := state);
      assert log[n := last] == log[..n] + [last];
      assert log == log[..n] + [log[n]];
      HistAppend(log[..n], last, id);
      HistAppend(log[..n], log[n], id);
  }

  lemma {:induction false} HistOnlyKnown(log: seq<Call>, id: nat)
    requires forall i :: 0 <= i < |log| ==> log[i].dep != id
    ensures Hist(log, id) == []
  {
    if log != [] {
      HistOnlyKnown(log[..|log| - 1], id);
    }
  }

  lemma {:induction false} HistElements(log: seq<Call>, id: nat)
    ensures forall c :: c in Hist(log, id) ==> c in log && c.dep == id
  {
    if log != [] {
      HistElements(log[..|log| - 1], id);
    }
  }

  /******* The global invariant *******/

  predicate GoodAt(s: State, id: nat)
    requires id < |s.deps|
  {
    Good(Hist(s.log, id), s.deps[id], RoleOf(s, id))
  }

  predicate DeploymentsGood(s: State) {
    forall id :: 0 <= id < |s.deps| ==> GoodAt(s, id)
  }

  predicate InstancesDistinct(s: State) {
    forall id :: 0 <= id < |s.deps| ==> DistinctInstances(s.deps[id].targets)
  }

  predicate ThreadsKnown(s: State) {
    && (s.mutex.Some? ==> s.mutex.value.id < |s.deps|)
    && (forall id :: id in s.waiting ==> id < |s.deps| && !s.deps[id].dryRun)
    && (forall id :: id in s.dryRuns ==> id < |s.deps| && s.deps[id].dryRun)
    && (!s.up ==> s.mutex.None? && s.waiting == {} && s.dryRuns == map[] && s.worker.None? && s.inFlight == multiset{})
  }

  predicate InFlightNow(s: State) {
    s.mutex.Some? && s.mutex.value.stage.InFlight?
  }

  /** A call is pending exactly while the mutex holder waits for it, and it is the latest call of all. */
  predicate LogKnown(s: State) {
    && (forall i :: 0 <= i < |s.log| ==> s.log[i].dep < |s.deps|)
    && (forall i :: 0 <= i < |s.log| && s.log[i].state == Pending ==> i == |s.log| - 1 && InFlightNow(s))
    && (InFlightNow(s) ==>
          s.log != [] && s.log[|s.log| - 1].dep == s.mutex.value.id && s.log[|s.log| - 1].state == Pending)
  }

  predicate Core(s: State) {
    DeploymentsGood(s) && InstancesDistinct(s) && ThreadsKnown(s) && LogKnown(s)
  }

  /** Frame: a deployment that is not touched stays good. */
  lemma Untouched(s: State, s': State, id: nat)
    requires id < |s.deps| && id < |s'.deps| && GoodAt(s, id)
    requires s'.deps[id] == s.deps[id] && Hist(s'.log, id) == Hist(s.log, id) && RoleOf(s', id) == RoleOf(s, id)
    ensures GoodAt(s', id)
  {
  }

  lemma SameInstances(ts: seq<Target>, us: seq<Target>)
    requires |ts| == |us| && forall i :: 0 <= i < |ts| ==> ts[i].instance == us[i].instance
    requires DistinctInstances(ts)
    ensures DistinctInstances(us)
  {
    forall i, j | 0 <= i < j < |us| ensures us[i].instance != us[j].instance {
      assert ts[i].instance != ts[j].instance;
    }
  }

  /** A move changes neither the plan nor the identity of a deployment. */
  predicate SamePlan(d: Deployment, d': Deployment) {
    && |d'.targets| == |d.targets|
    && (forall i :: 0 <= i < |d.targets| ==>
          d'.targets[i].digest == d.targets[i].digest && d'.targets[i].instance == d.targets[i].instance)
    && d'.(status := d.status, targets := d.targets) == d
  }

  lemma ExecutorKeepsPlan(a: ExecutorAction, id: nat, d: Deployment, st: Stage, row: Option<VersionRow>, draining: bool)
    ensures SamePlan(d, ExecutorMove(a, id, d, st, row, draining).dep)
  {
  }

  lemma DryRunKeepsPlan(d: Deployment, st: DryStage)
    ensures SamePlan(d, DryMove(d, st).0)
  {
  }

  /** One deployment moves, with its own calls; everything else about the others stays. */
  ghost predicate OnlyMoves(s: State, s': State, id: nat, change: CallChange) {
    && id < |s.deps| && |s'.deps| == |s.deps| && s'.deps == s.deps[id := s'.deps[id]]
         && SamePlan(s.deps[id], s'.deps[id])
    && (change.NewCall? ==> change.call.dep == id)
    && (change.SetLast? ==> s.log != [] && s.log[|s.log| - 1].dep == id)
    && s'.log == Apply(s.log, change)
    && (forall k :: 0 <= k < |s.deps| && k != id ==> RoleOf(s', k) == RoleOf(s, k))
  }

  lemma OthersStay(s: State, s': State, id: nat, change: CallChange, k: nat)
    requires OnlyMoves(s, s', id, change) && k < |s.deps| && k != id && GoodAt(s, k)
    ensures GoodAt(s', k)
  {
    HistApply(s.log, change, k, id);
    Untouched(s, s', k);
  }

  lemma MovedIsGood(s: State, s': State, id: nat, change: CallChange)
    requires OnlyMoves(s, s', id, change)
    requires Good(Apply(Hist(s.log, id), change), s'.deps[id], RoleOf(s', id))
    ensures GoodAt(s', id)
  {
    HistApply(s.log, change, id, id);
  }

  lemma MovedInstances(s: State, s': State, id: nat, change: CallChange)
    requires OnlyMoves(s, s', id, change) && InstancesDistinct(s)
    ensures InstancesDistinct(s')
  {
    forall k | 0 <= k < |s'.deps| ensures DistinctInstances(s'.deps[k].targets) {
      assert DistinctInstances(s.deps[k].targets);
      if k == id {
        SameInstances(s.deps[id].targets, s'.deps[id].targets);
      }
    }
  }

  lemma OneMoves(s: State, s': State, id: nat, change: CallChange)
    requires DeploymentsGood(s) && InstancesDistinct(s) && OnlyMoves(s, s', id, change)
    requires Good(Apply(Hist(s.log, id), change), s'.deps[id], RoleOf(s', id))
    ensures DeploymentsGood(s') && InstancesDistinct(s')
  {
    MovedInstances(s, s', id, change);
    forall k | 0 <= k < |s.deps| ensures GoodAt(s', k) {
      assert GoodAt(s, k);
      if k != id {
        OthersStay(s, s', id, change, k);
      } else {
        MovedIsGood(s, s', id, change);
      }
    }
  }

  /** How the call log and the program counter of the mutex holder move together. */
  predicate LogFollows(id: nat, st: Stage, m: Move) {
    var inFlight := m.stage.Some? && m.stage.value.InFlight?;
    match m.change
    case NoCall => inFlight == st.InFlight?
    case NewCall(c) => inFlight && !st.InFlight? && c.dep == id && c.state == Pending
    case SetLast(state) => !inFlight && st.InFlight? && state != Pending
  }

  lemma ExecutorLogFollows(a: ExecutorAction, id: nat, d: Deployment, st: Stage, row: Option<VersionRow>,
                           draining: bool)
    ensures LogFollows(id, st, ExecutorMove(a, id, d, st, row, draining))
  {
  }

  lemma MovedKeepsLog(s: State, id: nat, m: Move)
    requires id < |s.deps| && s.mutex.Some? && s.mutex.value.id == id && LogKnown(s)
    requires LogFollows(id, s.mutex.value.stage, m)
    ensures LogKnown(Moved(s, id, m))
  {
  }

  lemma MovedKeepsCore(s: State, id: nat, m: Move)
    requires Core(s) && s.mutex.Some? && s.mutex.value.id == id
    requires LogFollows(id, s.mutex.value.stage, m) && SamePlan(s.deps[id], m.dep)
    requires Good(Apply(Hist(s.log, id), m.change), m.dep, ExecutorRole(m.stage))
    ensures Core(Moved(s, id, m))
  {
    MovedKeepsLog(s, id, m);
    MovedThreads(s, id, m);
    MovedOnly(s, id, m);
    assert GoodAt(s, id) && RoleOf(Moved(s, id, m), id) == ExecutorRole(m.stage);
    OneMoves(s, Moved(s, id, m), id, m.change);
  }

  lemma MovedThreads(s: State, id: nat, m: Move)
    requires ThreadsKnown(s) && id < |s.deps| && s.mutex.Some? && SamePlan(s.deps[id], m.dep)
    ensures ThreadsKnown(Moved(s, id, m))
  {
  }

  lemma MovedOnly(s: State, id: nat, m: Move)
    requires LogKnown(s) && id < |s.deps| && s.mutex.Some? && s.mutex.value.id == id
    requires LogFollows(id, s.mutex.value.stage, m) && SamePlan(s.deps[id], m.dep)
    ensures OnlyMoves(s, Moved(s, id, m), id, m.change)
  {
  }

  lemma ExecutorStepKeepsCore(s: State, a: ExecutorAction)
    requires Core(s)
    ensures Core(StepExecutor(s, a))
  {
    if s.mutex.Some? {
      var id, st := s.mutex.value.id, s.mutex.value.stage;
      var d, row := s.deps[id], Row(s.versions, s.deps[id]);
      var m := ExecutorMove(a, id, d, st, row, s.draining);
      assert GoodAt(s, id);
      ExecutorKeepsPlan(a, id, d, st, row, s.draining);
      ExecutorKeepsGood(a, id, Hist(s.log, id), d, st, row, s.draining);
      ExecutorLogFollows(a, id, d, st, row, s.draining);
      MovedKeepsCore(s, id, m);
    }
  }
}
