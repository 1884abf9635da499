/**
 What keeps the version of a deployment in place.  Deletion is refused while the deployment is unfinished, but review
 and publish requests check the status in one statement and update the row, unguarded, in another: one that has passed
 its check can still rewrite the row of a version that was published meanwhile.
 */
module PushPin {
  import opened Options
  import opened PushPlan
  import opened PushProtocol
  import opened PushInvariant
  import opened PushSteps
  import opened PushTheorems
  import opened PushFreeze

  /******* The exact condition *******/

  /** Published, and no review request of this version has passed its check. */
  predicate Held(versions: map<(string, string), VersionRow>, inFlight: multiset<VersionRequest>, p: string,
                 v: string) {
    VersionPublished(versions, p, v) && Submit(p, v) !in inFlight && Reject(p, v) !in inFlight
  }

  predicate Pinned(s: State, d: Deployment) {
    Held(s.versions, s.inFlight, d.project, d.version)
  }

  /** No publish request can write another artifact: none is still to read it, and those that have read this one. */
  predicate OnlyReleases(inFlight: multiset<VersionRequest>, p: string, v: string, artifact: string) {
    && Publish(p, v) !in inFlight
    && forall r :: r in inFlight && r.Release? && r.project == p && r.version == v ==> r.artifact == artifact
  }

  predicate ArtifactPinned(s: State, d: Deployment) {
    Pinned(s, d) && OnlyReleases(s.inFlight, d.project, d.version, s.versions[(d.project, d.version)].artifact)
  }

  /******* Steps *******/

  /** Only version statements change version rows or admit requests. */
  lemma VersionsStay(s: State, a: Action)
    requires !a.Version?
    ensures Step(s, a).versions == s.versions
    ensures Step(s, a).inFlight == s.inFlight || Step(s, a).inFlight == multiset{}
  {
    match a
    case Work(w) => WorkerLeaves(s, w);
    case _ =>
  }

  lemma VersionStepHolds(s: State, a: VersionAction, d: Deployment)
    requires ActiveVersion(s, d.project, d.version) && Pinned(s, d)
    ensures Pinned(StepVersion(s, a), d)
    ensures ArtifactPinned(s, d) ==>
      ArtifactPinned(StepVersion(s, a), d) && Row(StepVersion(s, a).versions, d) == Row(s.versions, d)
  {
    if a.WriteRequest? {
      WriteHolds(s, a.request, d);
    } else if a.CheckRequest? {
      CheckHolds(s, a.request, d);
    } else if a.ReadArtifact? {
      ReadHolds(s, a, d);
    }
  }

  lemma WriteHolds(s: State, r: VersionRequest, d: Deployment)
    requires Pinned(s, d)
    ensures var s' := StepVersion(s, WriteRequest(r));
      Pinned(s', d) && (ArtifactPinned(s, d) ==> ArtifactPinned(s', d) && Row(s'.versions, d) == Row(s.versions, d))
  {
  }

  lemma CheckHolds(s: State, r: VersionRequest, d: Deployment)
    requires Pinned(s, d)
    ensures var s' := StepVersion(s, CheckRequest(r));
      Pinned(s', d) && (ArtifactPinned(s, d) ==> ArtifactPinned(s', d) && Row(s'.versions, d) == Row(s.versions, d))
  {
  }

  lemma ReadHolds(s: State, a: VersionAction, d: Deployment)
    requires Pinned(s, d) && a.ReadArtifact?
    ensures var s' := StepVersion(s, a);
      Pinned(s', d) && (ArtifactPinned(s, d) ==> ArtifactPinned(s', d) && Row(s'.versions, d) == Row(s.versions, d))
  {
  }

  lemma StepHolds(s: State, a: Action, id: nat)
    requires id < |s.deps| && !Finished(s.deps[id]) && Pinned(s, s.deps[id])
    ensures Pinned(Step(s, a), s.deps[id])
    ensures ArtifactPinned(s, s.deps[id]) ==>
      ArtifactPinned(Step(s, a), s.deps[id]) && Row(Step(s, a).versions, s.deps[id]) == Row(s.versions, s.deps[id])
  {
    if a.Version? {
      VersionStepHolds(s, a.version, s.deps[id]);
    } else {
      VersionsStay(s, a);
    }
  }

  /******* Runs *******/

  predicate StillPinned(s: State, s': State, id: nat)
    requires id < |s.deps|
  {
    id < |s'.deps| && (Finished(s'.deps[id]) || Pinned(s', s.deps[id]))
  }

  predicate StillSame(s: State, s': State, id: nat)
    requires id < |s.deps|
  {
    id < |s'.deps| && (Finished(s'.deps[id]) || (ArtifactPinned(s', s.deps[id])
                                                 && Row(s'.versions, s.deps[id]) == Row(s.versions, s.deps[id])))
  }

  lemma StillStep(s: State, mid: State, a: Action, id: nat)
    requires Inv(mid) && id < |s.deps| && RowsEvolve(s, mid)
    ensures StillPinned(s, mid, id) ==> StillPinned(s, Step(mid, a), id)
    ensures StillSame(s, mid, id) ==> StillSame(s, Step(mid, a), id)
  {
    StepEvolves(mid, a);
    SameVersion(s, mid, id);
    FinishedStays(mid, Step(mid, a), id);
    if !Finished(mid.deps[id]) && Pinned(mid, mid.deps[id]) {
      StepHolds(mid, a, id);
    }
    HeldByName(mid, mid.deps[id], s.deps[id]);
    HeldByName(Step(mid, a), mid.deps[id], s.deps[id]);
  }

  lemma HeldByName(s: State, d: Deployment, e: Deployment)
    requires d.project == e.project && d.version == e.version
    ensures Pinned(s, d) == Pinned(s, e) && ArtifactPinned(s, d) == ArtifactPinned(s, e)
    ensures Row(s.versions, d) == Row(s.versions, e)
  {
  }

  lemma SameVersion(s: State, s': State, id: nat)
    requires RowsEvolve(s, s') && id < |s.deps|
    ensures id < |s'.deps| && s'.deps[id].project == s.deps[id].project && s'.deps[id].version == s.deps[id].version
  {
    assert Evolves(s.deps[id], s'.deps[id]);
  }

  lemma FinishedStays(s: State, s': State, id: nat)
    requires RowsEvolve(s, s') && id < |s.deps|
    ensures id < |s'.deps| && (Finished(s.deps[id]) ==> Finished(s'.deps[id]))
  {
    assert Evolves(s.deps[id], s'.deps[id]);
  }

  lemma {:induction false} StillRun(s: State, actions: seq<Action>, id: nat)
    requires Inv(s) && id < |s.deps|
    ensures Pinned(s, s.deps[id]) ==> StillPinned(s, Run(s, actions), id)
    ensures ArtifactPinned(s, s.deps[id]) ==> StillSame(s, Run(s, actions), id)
  {
    if actions != [] {
      var n := |actions| - 1;
      StillRun(s, actions[..n], id);
      RunEvolves(s, actions[..n]);
      RunKeepsInv(s, actions[..n]);
      StillStep(s, Run(s, actions[..n]), actions[n], id);
    }
  }

  /******* Pinned until finished, exactly *******/

  predicate PublishedAfter(s: State, actions: seq<Action>, id: nat)
    requires id < |s.deps|
  {
    var s' := Run(s, actions);
    id < |s'.deps| && (Finished(s'.deps[id]) || VersionPublished(s'.versions, s.deps[id].project, s.deps[id].version))
  }

  /** From any point of a run on, the version of an unfinished deployment stays published until the deployment is
      finished, whatever deletions, prunings, reviews and publications are attempted, if and only if it is published now
      and no submit or reject request of it has passed its check. */
  lemma {:induction false} VersionPinnedUntilFinished(before: seq<Action>, id: nat)
    requires id < |Run(Init, before).deps| && !Finished(Run(Init, before).deps[id])
    ensures var s := Run(Init, before);
      Pinned(s, s.deps[id]) <==> (forall after: seq<Action> :: PublishedAfter(s, after, id))
  {
    var s := Run(Init, before);
    ReachableInv(before);
    if Pinned(s, s.deps[id]) {
      forall after: seq<Action> ensures PublishedAfter(s, after, id) {
        StillRun(s, after, id);
      }
    } else {
      var after := Unpin(s, id);
      assert !PublishedAfter(s, after, id);
    }
  }

  lemma {:induction false} Unpin(s: State, id: nat) returns (after: seq<Action>)
    requires Inv(s) && id < |s.deps| && !Finished(s.deps[id]) && !Pinned(s, s.deps[id])
    ensures !PublishedAfter(s, after, id)
  {
    var d := s.deps[id];
    if !VersionPublished(s.versions, d.project, d.version) {
      after := [];
      assert Run(s, []) == s;
    } else {
      var r := if Submit(d.project, d.version) in s.inFlight then Submit(d.project, d.version)
        else Reject(d.project, d.version);
      var a := Version(WriteRequest(r));
      after := [a];
      OneStep(s, a);
      OnlyVersionsChange(s, a.version);
      VersionStepPins(s, a.version, id);
    }
  }

  lemma OneStep(s: State, a: Action)
    ensures Run(s, [a]) == Step(s, a)
  {
    RunSteps(s, [], a);
    assert [] + [a] == [a];
  }

  predicate SameAfter(s: State, actions: seq<Action>, id: nat)
    requires id < |s.deps|
  {
    var s' := Run(s, actions);
    id < |s'.deps| && (Finished(s'.deps[id]) || (IsPublished(Row(s'.versions, s.deps[id]))
                                                 && Row(s'.versions, s.deps[id]) == Row(s.versions, s.deps[id])))
  }

  /** The published row of an unfinished deployment, with its artifact, stays as it is until the deployment is finished
      if and only if no review request of it has passed its check, no publish is still to read the files, and those that
      have read them found the same artifact. */
  lemma {:induction false} ArtifactPinnedUntilFinished(before: seq<Action>, id: nat)
    requires id < |Run(Init, before).deps| && !Finished(Run(Init, before).deps[id])
    ensures var s := Run(Init, before);
      ArtifactPinned(s, s.deps[id]) <==> (forall after: seq<Action> :: SameAfter(s, after, id))
  {
    var s := Run(Init, before);
    ReachableInv(before);
    if ArtifactPinned(s, s.deps[id]) {
      forall after: seq<Action> ensures SameAfter(s, after, id) {
        StillRun(s, after, id);
      }
    } else {
      var after := Rewrite(s, id);
      assert !SameAfter(s, after, id);
    }
  }

  lemma {:induction false} Rewrite(s: State, id: nat) returns (after: seq<Action>)
    requires Inv(s) && id < |s.deps| && !Finished(s.deps[id]) && !ArtifactPinned(s, s.deps[id])
    ensures !SameAfter(s, after, id)
  {
    var d := s.deps[id];
    if !Pinned(s, d) {
      after := Unpin(s, id);
    } else {
      var p, v, artifact := d.project, d.version, Row(s.versions, d).value.artifact;
      if Publish(p, v) in s.inFlight {
        after := Reread(s, id, artifact + "'");
        assert |artifact + "'"| != |artifact|;
      } else {
        var r :| r in s.inFlight && r.Release? && r.project == p && r.version == v && r.artifact != artifact;
        var a := Version(WriteRequest(r));
        after := [a];
        OneStep(s, a);
        OnlyVersionsChange(s, a.version);
        VersionStepPins(s, a.version, id);
      }
    }
  }

  /** Everything but version rows and requests is the same. */
  predicate VersionsOnly(s: State, s': State) {
    s' == s.(versions := s'.versions, inFlight := s'.inFlight)
  }

  /** A publish that is still to read the files may read another artifact. */
  lemma {:induction false} Reread(s: State, id: nat, artifact: string) returns (after: seq<Action>)
    requires Inv(s) && id < |s.deps| && !Finished(s.deps[id])
    requires Publish(s.deps[id].project, s.deps[id].version) in s.inFlight
    requires Row(s.versions, s.deps[id]).Some?
    ensures VersionsOnly(s, Run(s, after))
    ensures Row(Run(s, after).versions, s.deps[id]) == Some(VersionRow(Published, artifact))
  {
    var p, v := s.deps[id].project, s.deps[id].version;
    var a, b := Version(ReadArtifact(p, v, artifact)), Version(WriteRequest(Release(p, v, artifact)));
    var mid := Step(s, a);
    OneStep(s, a);
    OnlyVersionsChange(s, a.version);
    VersionStepPins(s, a.version, id);
    assert Release(p, v, artifact) in mid.inFlight;
    OnlyVersionsChange(mid, b.version);
    VersionStepPins(mid, b.version, id);
    RunSteps(s, [a], b);
    after := [a] + [b];
  }

  /******* The artifact of every call *******/

  predicate ArtifactOf(t: Target, artifact: string) {
    t.digest.Sha256? && t.digest.plan.artifact == artifact
  }

  function PreparedAt(st: Stage): seq<Snapshot> {
    if st.Validating? || st.Executing? || st.Marked? || st.InFlight? || st.Answered? then st.prepared else []
  }

  function PreparedBy(role: Role): nat {
    if role.Executes? then |PreparedAt(role.stage)| else 0
  }

  predicate CallOf(c: Call, d: Deployment, i: nat, artifact: string) {
    i < |d.targets| && c.artifact == artifact && ArtifactOf(d.targets[i], artifact)
  }

  predicate CallsOf(h: seq<Call>, d: Deployment, artifact: string) {
    forall i :: 0 <= i < |h| ==> CallOf(h[i], d, i, artifact)
  }

  predicate TargetsOf(d: Deployment, n: nat, artifact: string) {
    n <= |d.targets| && forall i :: 0 <= i < n ==> ArtifactOf(d.targets[i], artifact)
  }

  /** The calls made and the targets prepared so far are about one artifact. */
  predicate OneArtifact(h: seq<Call>, d: Deployment, role: Role, artifact: string) {
    CallsOf(h, d, artifact) && TargetsOf(d, PreparedBy(role), artifact)
  }

  lemma MoveKeepsArtifact(a: ExecutorAction, id: nat, h: seq<Call>, d: Deployment, st: Stage, row: Option<VersionRow>,
                          draining: bool, artifact: string)
    requires Good(h, d, Executes(st)) && OneArtifact(h, d, Executes(st), artifact)
    requires d.status == Running ==> row == Some(VersionRow(Published, artifact))
    ensures var m := ExecutorMove(a, id, d, st, row, draining);
      OneArtifact(Apply(h, m.change), m.dep, ExecutorRole(m.stage), artifact)
  {
    var m := ExecutorMove(a, id, d, st, row, draining);
    ExecutorKeepsPlan(a, id, d, st, row, draining);
    if st.Validating? {
      ValidatingKeepsArtifact(a, d, st.prepared, row, artifact);
    } else if m.change.NewCall? {
      CallKeepsArtifact(h, d, st.prepared, m.change.call, artifact);
    } else {
      QuietMove(a, id, h, d, st, row, draining);
      QuietKeepsArtifact(h, d, Executes(st), Apply(h, m.change), m.dep, ExecutorRole(m.stage), artifact);
    }
  }

  /** A move that makes no call and validates nothing. */
  lemma QuietMove(a: ExecutorAction, id: nat, h: seq<Call>, d: Deployment, st: Stage, row: Option<VersionRow>,
                  draining: bool)
    requires !st.Validating? && !ExecutorMove(a, id, d, st, row, draining).change.NewCall?
    ensures var m := ExecutorMove(a, id, d, st, row, draining);
      && SameArtifacts(h, Apply(h, m.change))
      && (PreparedBy(ExecutorRole(m.stage)) == 0 || PreparedBy(ExecutorRole(m.stage)) == PreparedBy(Executes(st)))
  {
  }

  lemma CallKeepsArtifact(h: seq<Call>, d: Deployment, prepared: seq<Snapshot>, c: Call, artifact: string)
    requires OneArtifact(h, d, Executes(Marked(prepared, |h|)), artifact) && |h| < |prepared| && c.artifact == artifact
    ensures OneArtifact(h + [c], d, Executes(InFlight(prepared, |h|)), artifact)
  {
  }

  lemma ValidatingKeepsArtifact(a: ExecutorAction, d: Deployment, prepared: seq<Snapshot>, row: Option<VersionRow>,
                                artifact: string)
    requires TargetsOf(d, |prepared|, artifact) && row == Some(VersionRow(Published, artifact))
    ensures TargetsOf(d, PreparedBy(ExecutorRole(ValidatingMove(a, d, prepared, row).stage)), artifact)
  {
    if a.ValidateTarget? && a.observed.Some? && |prepared| < |d.targets| {
      UnchangedArtifact(row, d, d.targets[|prepared|], a.observed.value, artifact);
    }
  }

  lemma UnchangedArtifact(row: Option<VersionRow>, d: Deployment, t: Target, seen: Snapshot, artifact: string)
    requires row == Some(VersionRow(Published, artifact))
    ensures TargetUnchanged(row, d, t, seen) ==> ArtifactOf(t, artifact)
  {
  }

  predicate ArtifactKept(s: State, id: nat, artifact: string) {
    id < |s.deps| && OneArtifact(Hist(s.log, id), s.deps[id], RoleOf(s, id), artifact)
  }

  predicate SameArtifacts(h: seq<Call>, h': seq<Call>) {
    |h'| == |h| && forall i :: 0 <= i < |h| ==> h'[i].artifact == h[i].artifact
  }

  /** Steps that make no call and prepare nothing. */
  lemma QuietKeepsArtifact(h: seq<Call>, d: Deployment, role: Role, h': seq<Call>, d': Deployment, role': Role,
                           artifact: string)
    requires OneArtifact(h, d, role, artifact) && SamePlan(d, d') && SameArtifacts(h, h')
    requires PreparedBy(role') == 0 || PreparedBy(role') == PreparedBy(role)
    ensures OneArtifact(h', d', role', artifact)
  {
    forall i | 0 <= i < |h'| ensures CallOf(h'[i], d', i, artifact) {
      assert CallOf(h[i], d, i, artifact);
    }
  }

  lemma CrashKeepsArtifacts(s: State, id: nat)
    requires Core(s) && id < |s.deps|
    ensures SameArtifacts(Hist(s.log, id), Hist(LoseAnswer(s.log), id))
  {
    CrashLog(s, id);
  }

  lemma ExecutorKeepsArtifact(s: State, a: ExecutorAction, id: nat, artifact: string)
    requires Core(s) && ArtifactKept(s, id, artifact)
    requires s.deps[id].status == Running ==> Row(s.versions, s.deps[id]) == Some(VersionRow(Published, artifact))
    ensures ArtifactKept(StepExecutor(s, a), id, artifact)
  {
    if s.mutex.Some? {
      var actor, st := s.mutex.value.id, s.mutex.value.stage;
      var d, row := s.deps[actor], Row(s.versions, s.deps[actor]);
      ExecutorLogFollows(a, actor, d, st, row, s.draining);
      HistApply(s.log, ExecutorMove(a, actor, d, st, row, s.draining).change, id, actor);
      if actor == id {
        OwnMoveKeepsArtifact(s, a, id, artifact);
      }
    }
  }

  lemma OwnMoveKeepsArtifact(s: State, a: ExecutorAction, id: nat, artifact: string)
    requires Core(s) && ArtifactKept(s, id, artifact) && s.mutex.Some? && s.mutex.value.id == id
    requires s.deps[id].status == Running ==> Row(s.versions, s.deps[id]) == Some(VersionRow(Published, artifact))
    ensures var m := ExecutorMove(a, id, s.deps[id], s.mutex.value.stage, Row(s.versions, s.deps[id]), s.draining);
      OneArtifact(Apply(Hist(s.log, id), m.change), m.dep, ExecutorRole(m.stage), artifact)
  {
    assert GoodAt(s, id);
    MoveKeepsArtifact(a, id, Hist(s.log, id), s.deps[id], s.mutex.value.stage, Row(s.versions, s.deps[id]), s.draining,
                      artifact);
  }

  lemma OtherKeepsArtifact(s: State, a: Action, id: nat, artifact: string)
    requires Inv(s) && ArtifactKept(s, id, artifact) && !a.Execute?
    ensures ArtifactKept(Step(s, a), id, artifact)
  {
    var s' := Step(s, a);
    StepEvolves(s, a);
    assert Evolves(s.deps[id], s'.deps[id]);
    if a.Crash? {
      CrashKeepsArtifacts(s, id);
    } else {
      OnlyExecutorCalls(s, a);
    }
    QuietKeepsArtifact(Hist(s.log, id), s.deps[id], RoleOf(s, id), Hist(s'.log, id), s'.deps[id], RoleOf(s', id),
                       artifact);
  }

  lemma {:induction false} ArtifactRun(s: State, actions: seq<Action>, id: nat, artifact: string)
    requires Inv(s) && id < |s.deps| && ArtifactPinned(s, s.deps[id]) && ArtifactKept(s, id, artifact)
    requires Row(s.versions, s.deps[id]) == Some(VersionRow(Published, artifact))
    ensures ArtifactKept(Run(s, actions), id, artifact)
  {
    if actions != [] {
      var n := |actions| - 1;
      var mid := Run(s, actions[..n]);
      ArtifactRun(s, actions[..n], id, artifact);
      StillRun(s, actions[..n], id);
      RunEvolves(s, actions[..n]);
      RunKeepsInv(s, actions[..n]);
      SameVersion(s, mid, id);
      HeldByName(mid, mid.deps[id], s.deps[id]);
      if actions[n].Execute? {
        ExecutorKeepsArtifact(mid, actions[n].executor, id, artifact);
      } else {
        OtherKeepsArtifact(mid, actions[n], id, artifact);
      }
    }
  }

  /** The call used the whole plan whose digest is stored, artifact included. */
  predicate UsesWholePlan(c: Call, d: Deployment, t: Target) {
    c.version == d.version && t.digest == Sha256(Plan(d.project, c.version, c.artifact, c.snapshot))
  }

  /** If at some time before the claim the version is published and no review or publish request of it has passed its
      check, every call of the deployment, ever, uses exactly the frozen plan, artifact included. */
  lemma {:induction false} FrozenArtifact(before: seq<Action>, after: seq<Action>, id: nat)
    requires var s := Run(Init, before);
      id < |s.deps| && s.deps[id].status == Queued && ArtifactPinned(s, s.deps[id])
    ensures var s := Run(Init, before);
      var s' := Run(s, after);
      && id < |s'.deps|
      && forall i :: 0 <= i < |s'.log| && s'.log[i].dep == id ==>
           && s'.log[i].target < |s'.deps[id].targets|
           && s'.log[i].artifact == Row(s.versions, s.deps[id]).value.artifact
           && UsesWholePlan(s'.log[i], s'.deps[id], s'.deps[id].targets[s'.log[i].target])
  {
    var s := Run(Init, before);
    var s' := Run(s, after);
    ReachableInv(before);
    assert GoodAt(s, id);
    var artifact := Row(s.versions, s.deps[id]).value.artifact;
    ArtifactRun(s, after, id, artifact);
    RunKeepsInv(s, after);
    forall i | 0 <= i < |s'.log| && s'.log[i].dep == id
      ensures s'.log[i].target < |s'.deps[id].targets| && s'.log[i].artifact == artifact
      ensures UsesWholePlan(s'.log[i], s'.deps[id], s'.deps[id].targets[s'.log[i].target])
    {
      CallUsesArtifact(s', i, id, artifact);
    }
  }

  lemma CallUsesArtifact(s: State, i: nat, id: nat, artifact: string)
    requires Core(s) && ArtifactKept(s, id, artifact) && i < |s.log| && s.log[i].dep == id
    ensures s.log[i].target < |s.deps[id].targets| && s.log[i].artifact == artifact
    ensures UsesWholePlan(s.log[i], s.deps[id], s.deps[id].targets[s.log[i].target])
  {
    RankIsTarget(s, i);
    RankFindsCall(s.log, i);
  }
}
