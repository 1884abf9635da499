/** Concrete runs that show what the push protocol does not guarantee, one deployment of one target each. */
module PushRuns {
  import opened Options
  import opened PushPlan
  import opened PushProtocol
  import opened PushInvariant
  import opened PushSteps
  import opened PushTheorems
  import opened PushPin
  import opened PushFreeze

  /******* Building runs *******/

  const SubmitIt := Submit("p", "1.0.0")
  const RejectIt := Reject("p", "1.0.0")
  const PublishIt := Publish("p", "1.0.0")

  /** The target was frozen while the version was published with artifact "a", from what is read now. */
  predicate FrozenFrom(t: Target, cfg: Config, id: nat) {
    Lookup(cfg, id).Some? && RowFor(cfg, Some(VersionRow(Published, "a")), "p", "1.0.0", id) == Some(t)
  }

  /** The process is up, with one version row and at most one deployment. */
  function System(row: VersionRow, inFlight: multiset<VersionRequest>, deps: seq<Deployment>, waiting: set<nat>,
                  stage: Option<Stage>, log: seq<Call>): State {
    State(deps, [], map[("p", "1.0.0") := row], true, false, waiting, SetMutex(0, stage), map[], None, inFlight, log)
  }

  function NewRow(t: Target): Deployment {
    Deployment("p", "1.0.0", "", 0, false, Queued, [t])
  }

  /** One more action. */
  lemma Then(s: State, actions: seq<Action>, a: Action, s1: State, s2: State)
    requires Run(s, actions) == s1 && Step(s1, a) == s2
    ensures Run(s, actions + [a]) == s2
  {
    RunSteps(s, actions, a);
  }

  predicate OfVersion(r: VersionRequest) {
    r.project == "p" && r.version == "1.0.0"
  }

  lemma Checked(row: VersionRow, inFlight: multiset<VersionRequest>, deps: seq<Deployment>, stage: Option<Stage>,
                r: VersionRequest)
    requires OfVersion(r) && PassesCheck(r, row.status)
    ensures Step(System(row, inFlight, deps, {}, stage, []), Version(CheckRequest(r))) ==
      System(row, inFlight + multiset{r}, deps, {}, stage, [])
  {
  }

  lemma ArtifactRead(row: VersionRow, inFlight: multiset<VersionRequest>, deps: seq<Deployment>, stage: Option<Stage>,
                     artifact: string)
    ensures Step(System(row, inFlight + multiset{PublishIt}, deps, {}, stage, []),
                 Version(ReadArtifact("p", "1.0.0", artifact))) ==
      System(row, inFlight + multiset{Release("p", "1.0.0", artifact)}, deps, {}, stage, [])
  {
    assert inFlight + multiset{PublishIt} - multiset{PublishIt} == inFlight;
  }

  lemma Wrote(row: VersionRow, inFlight: multiset<VersionRequest>, deps: seq<Deployment>, stage: Option<Stage>,
              r: VersionRequest)
    requires OfVersion(r) && !r.Publish?
    ensures Step(System(row, inFlight + multiset{r}, deps, {}, stage, []), Version(WriteRequest(r))) ==
      System(Written(r, row), inFlight, deps, {}, stage, [])
  {
    var s := System(row, inFlight + multiset{r}, deps, {}, stage, []);
    assert s.inFlight - multiset{r} == inFlight;
    assert AfterWrite(s.versions, r) == map[("p", "1.0.0") := Written(r, row)];
  }

  /** A whole review request: check, then write. */
  function Review(r: VersionRequest): seq<Action> {
    [Version(CheckRequest(r))] + [Version(WriteRequest(r))]
  }

  lemma Reviewed(row: VersionRow, inFlight: multiset<VersionRequest>, deps: seq<Deployment>, stage: Option<Stage>,
                 r: VersionRequest)
    requires OfVersion(r) && !r.Publish? && PassesCheck(r, row.status)
    ensures Run(System(row, inFlight, deps, {}, stage, []), Review(r)) ==
      System(Written(r, row), inFlight, deps, {}, stage, [])
  {
    var s := System(row, inFlight, deps, {}, stage, []);
    Checked(row, inFlight, deps, stage, r);
    OneStep(s, Version(CheckRequest(r)));
    Wrote(row, inFlight, deps, stage, r);
    Then(s, [Version(CheckRequest(r))], Version(WriteRequest(r)),
         System(row, inFlight + multiset{r}, deps, {}, stage, []),
         System(Written(r, row), inFlight, deps, {}, stage, []));
  }

  /** A whole publication: check, read, write. */
  function Publication(artifact: string): seq<Action> {
    [Version(CheckRequest(PublishIt))] + [Version(ReadArtifact("p", "1.0.0", artifact))]
    + [Version(WriteRequest(Release("p", "1.0.0", artifact)))]
  }

  lemma PublishedWith(row: VersionRow, inFlight: multiset<VersionRequest>, deps: seq<Deployment>, stage: Option<Stage>,
                      artifact: string)
    requires PassesCheck(PublishIt, row.status)
    ensures Run(System(row, inFlight, deps, {}, stage, []), Publication(artifact)) ==
      System(VersionRow(Published, artifact), inFlight, deps, {}, stage, [])
  {
    var s, r := System(row, inFlight, deps, {}, stage, []), Release("p", "1.0.0", artifact);
    var a, b := Version(CheckRequest(PublishIt)), Version(ReadArtifact("p", "1.0.0", artifact));
    Checked(row, inFlight, deps, stage, PublishIt);
    OneStep(s, a);
    ArtifactRead(row, inFlight, deps, stage, artifact);
    Then(s, [a], b, System(row, inFlight + multiset{PublishIt}, deps, {}, stage, []),
         System(row, inFlight + multiset{r}, deps, {}, stage, []));
    Wrote(row, inFlight, deps, stage, r);
    Then(s, [a] + [b], Version(WriteRequest(r)), System(row, inFlight + multiset{r}, deps, {}, stage, []),
         System(VersionRow(Published, artifact), inFlight, deps, {}, stage, []));
  }

  lemma Executed(row: VersionRow, inFlight: multiset<VersionRequest>, d: Deployment, st: Stage, log: seq<Call>,
                 a: ExecutorAction)
    ensures var m := ExecutorMove(a, 0, d, st, Some(row), false);
      (d.project == "p" && d.version == "1.0.0") ==>
      Step(System(row, inFlight, [d], {}, Some(st), log), Execute(a)) ==
        System(row, inFlight, [m.dep], {}, m.stage, Apply(log, m.change))
  {
    assert [d][0 := ExecutorMove(a, 0, d, st, Some(row), false).dep] ==
      [ExecutorMove(a, 0, d, st, Some(row), false).dep];
  }

  /******* From the start to a validated fleet *******/

  /** A version is created and published; with `late`, a submit request passes its check before. */
  function PublishPart(late: bool): seq<Action> {
    [Restart] + [Version(CreateVersion("p", "1.0.0"))]
    + (if late then [Version(CheckRequest(SubmitIt))] else []) + Publication("a")
  }

  function Late(late: bool): multiset<VersionRequest> {
    if late then multiset{SubmitIt} else multiset{}
  }

  lemma PublishReaches(late: bool)
    ensures Run(Init, PublishPart(late)) == System(VersionRow(Published, "a"), Late(late), [], {}, None, [])
  {
    var s1 := Init.(up := true);
    var draft := System(VersionRow(Draft, ""), multiset{}, [], {}, None, []);
    assert Step(Init, Restart) == s1;
    OneStep(Init, Restart);
    assert Step(s1, Version(CreateVersion("p", "1.0.0"))) == draft;
    var opening := [Restart] + [Version(CreateVersion("p", "1.0.0"))];
    Then(Init, [Restart], Version(CreateVersion("p", "1.0.0")), s1, draft);
    var more := if late then [Version(CheckRequest(SubmitIt))] else [];
    var checked := System(VersionRow(Draft, ""), Late(late), [], {}, None, []);
    if late {
      Checked(VersionRow(Draft, ""), multiset{}, [], None, SubmitIt);
      assert multiset{} + multiset{SubmitIt} == multiset{SubmitIt};
      OneStep(draft, Version(CheckRequest(SubmitIt)));
    }
    RunAppend(Init, opening, more);
    PublishedWith(VersionRow(Draft, ""), Late(late), [], None, "a");
    RunAppend(Init, opening + more, Publication("a"));
    assert PublishPart(late) == opening + more + Publication("a");
  }

  /** The deployment is created, claimed and validated, up to its first node. */
  function ValidatePart(t: Target, seen: Snapshot): seq<Action> {
    [Create("p", "1.0.0", "", false, [t])] + [Lock(0)] + [Execute(CheckDrain)] + [Execute(Claim)]
    + [Execute(ValidateTarget(Some(seen)))] + [Execute(CheckRequester(true))]
  }

  lemma Created(row: VersionRow, inFlight: multiset<VersionRequest>, t: Target)
    requires FrozenTarget("p", "1.0.0", t)
    ensures Step(System(row, inFlight, [], {}, None, []), Create("p", "1.0.0", "", false, [t])) ==
      System(row, inFlight, [NewRow(t)], {0}, None, [])
  {
    assert FrozenTargets("p", "1.0.0", [t]);
    assert {} + {0} == {0};
  }

  lemma LockTaken(row: VersionRow, inFlight: multiset<VersionRequest>, d: Deployment)
    ensures Step(System(row, inFlight, [d], {0}, None, []), Lock(0)) == System(row, inFlight, [d], {}, Some(Locked), [])
  {
    assert {0} - {0} == {};
  }

  function Claimed(t: Target): Deployment {
    NewRow(t).(status := Running)
  }

  lemma ValidateReaches(inFlight: multiset<VersionRequest>, t: Target, cfg: Config, id: nat)
    requires FrozenFrom(t, cfg, id)
    ensures var seen := Lookup(cfg, id).value;
      Run(System(VersionRow(Published, "a"), inFlight, [], {}, None, []), ValidatePart(t, seen)) ==
      System(VersionRow(Published, "a"), inFlight, [Claimed(t)], {}, Some(Executing([seen], 0)), [])
  {
    var row, seen := VersionRow(Published, "a"), Lookup(cfg, id).value;
    var s := System(row, inFlight, [], {}, None, []);
    RowIsFrozen(cfg, Some(row), "p", "1.0.0", id);
    Created(row, inFlight, t);
    OneStep(s, Create("p", "1.0.0", "", false, [t]));
    LockTaken(row, inFlight, NewRow(t));
    var p1 := [Create("p", "1.0.0", "", false, [t])];
    Then(s, p1, Lock(0), System(row, inFlight, [NewRow(t)], {0}, None, []),
         System(row, inFlight, [NewRow(t)], {}, Some(Locked), []));
    var p2 := p1 + [Lock(0)];
    Executed(row, inFlight, NewRow(t), Locked, [], CheckDrain);
    Then(s, p2, Execute(CheckDrain), System(row, inFlight, [NewRow(t)], {}, Some(Locked), []),
         System(row, inFlight, [NewRow(t)], {}, Some(Admitted), []));
    var p3 := p2 + [Execute(CheckDrain)];
    Executed(row, inFlight, NewRow(t), Admitted, [], Claim);
    Then(s, p3, Execute(Claim), System(row, inFlight, [NewRow(t)], {}, Some(Admitted), []),
         System(row, inFlight, [Claimed(t)], {}, Some(Validating([])), []));
    var p4 := p3 + [Execute(Claim)];
    FrozenValidates(cfg, Some(row), cfg, Some(row), Claimed(t), id);
    Executed(row, inFlight, Claimed(t), Validating([]), [], ValidateTarget(Some(seen)));
    assert [] + [seen] == [seen];
    Then(s, p4, Execute(ValidateTarget(Some(seen))), System(row, inFlight, [Claimed(t)], {}, Some(Validating([])), []),
         System(row, inFlight, [Claimed(t)], {}, Some(Validating([seen])), []));
    var p5 := p4 + [Execute(ValidateTarget(Some(seen)))];
    Executed(row, inFlight, Claimed(t), Validating([seen]), [], CheckRequester(true));
    Then(s, p5, Execute(CheckRequester(true)), System(row, inFlight, [Claimed(t)], {}, Some(Validating([seen])), []),
         System(row, inFlight, [Claimed(t)], {}, Some(Executing([seen], 0)), []));
  }

  function Opening(late: bool, t: Target, seen: Snapshot): seq<Action> {
    PublishPart(late) + ValidatePart(t, seen)
  }

  lemma OpeningReaches(late: bool, t: Target, cfg: Config, id: nat)
    requires FrozenFrom(t, cfg, id)
    ensures var seen := Lookup(cfg, id).value;
      Run(Init, Opening(late, t, seen)) == System(VersionRow(Published, "a"), Late(late), [Claimed(t)], {},
                                                  Some(Executing([seen], 0)), [])
  {
    PublishReaches(late);
    ValidateReaches(Late(late), t, cfg, id);
    RunAppend(Init, PublishPart(late), ValidatePart(t, Lookup(cfg, id).value));
  }

  /******* A late submit *******/

  /** A submit request that read the status before the publication unpublishes the version of a running deployment. */
  lemma {:induction false} LateSubmitUnpublishes(t: Target, cfg: Config, id: nat)
    requires FrozenFrom(t, cfg, id)
    ensures var actions := Opening(true, t, Lookup(cfg, id).value);
      var s, s' := Run(Init, actions), Run(Init, actions + [Version(WriteRequest(SubmitIt))]);
      && |s.deps| == 1 && VersionPublished(s.versions, "p", "1.0.0") && s.mutex.Some? && s.mutex.value.stage.Executing?
      && s'.deps == s.deps && s'.deps[0].status == Running && !VersionPublished(s'.versions, "p", "1.0.0")
  {
    var seen := Lookup(cfg, id).value;
    var row, st := VersionRow(Published, "a"), Some(Executing([seen], 0));
    OpeningReaches(true, t, cfg, id);
    assert multiset{} + multiset{SubmitIt} == Late(true);
    Wrote(row, multiset{}, [Claimed(t)], st, SubmitIt);
    Then(Init, Opening(true, t, seen), Version(WriteRequest(SubmitIt)),
         System(row, Late(true), [Claimed(t)], {}, st, []),
         System(VersionRow(PendingReview, "a"), multiset{}, [Claimed(t)], {}, st, []));
  }

  /** Review and a second publication after a late submit, then the first Deploy call. */
  function Republish(): seq<Action> {
    [Version(WriteRequest(SubmitIt))] + Review(RejectIt) + Review(SubmitIt) + Publication("b")
  }

  function CallPart(): seq<Action> {
    [Execute(MarkRunning)] + [Execute(CallDeploy)]
  }

  lemma RepublishReaches(t: Target, st: Option<Stage>)
    ensures Run(System(VersionRow(Published, "a"), Late(true), [Claimed(t)], {}, st, []), Republish()) ==
      System(VersionRow(Published, "b"), multiset{}, [Claimed(t)], {}, st, [])
  {
    var none: multiset<VersionRequest> := multiset{};
    var s := System(VersionRow(Published, "a"), Late(true), [Claimed(t)], {}, st, []);
    assert none + multiset{SubmitIt} == Late(true);
    Wrote(VersionRow(Published, "a"), none, [Claimed(t)], st, SubmitIt);
    var w := [Version(WriteRequest(SubmitIt))];
    OneStep(s, w[0]);
    Reviewed(VersionRow(PendingReview, "a"), none, [Claimed(t)], st, RejectIt);
    RunAppend(s, w, Review(RejectIt));
    Reviewed(VersionRow(Rejected, "a"), none, [Claimed(t)], st, SubmitIt);
    RunAppend(s, w + Review(RejectIt), Review(SubmitIt));
    PublishedWith(VersionRow(PendingReview, "a"), none, [Claimed(t)], st, "b");
    RunAppend(s, w + Review(RejectIt) + Review(SubmitIt), Publication("b"));
  }

  /** The state after the call on the only target. */
  function Called(row: VersionRow, t: Target, seen: Snapshot): State {
    System(row, multiset{}, [MarkTarget(Claimed(t), 0, TRunning)], {}, Some(InFlight([seen], 0)),
           [Call(0, 0, "1.0.0", row.artifact, seen, PushProtocol.Pending)])
  }

  lemma CallReaches(row: VersionRow, t: Target, seen: Snapshot)
    ensures Run(System(row, multiset{}, [Claimed(t)], {}, Some(Executing([seen], 0)), []), CallPart()) ==
      Called(row, t, seen)
  {
    var s := System(row, multiset{}, [Claimed(t)], {}, Some(Executing([seen], 0)), []);
    var d := MarkTarget(Claimed(t), 0, TRunning);
    var marked := System(row, multiset{}, [d], {}, Some(Marked([seen], 0)), []);
    Executed(row, multiset{}, Claimed(t), Executing([seen], 0), [], MarkRunning);
    OneStep(s, Execute(MarkRunning));
    Executed(row, multiset{}, d, Marked([seen], 0), [], CallDeploy);
    assert [] + [Call(0, 0, "1.0.0", row.artifact, seen, PushProtocol.Pending)] ==
      [Call(0, 0, "1.0.0", row.artifact, seen, PushProtocol.Pending)];
    Then(s, [Execute(MarkRunning)], Execute(CallDeploy), marked, Called(row, t, seen));
  }

  /** So a validated deployment can call Deploy with an artifact other than the frozen one. */
  lemma {:induction false} LateReviewChangesArtifact(t: Target, cfg: Config, id: nat)
    requires FrozenFrom(t, cfg, id)
    ensures var s := Run(Init, Opening(true, t, Lookup(cfg, id).value) + Republish() + CallPart());
      && |s.deps| == 1 && |s.deps[0].targets| == 1 && |s.log| == 1
      && s.deps[0].targets[0].digest.Sha256? && s.deps[0].targets[0].digest.plan.artifact == "a"
           && s.log[0].artifact == "b"
  {
    var seen := Lookup(cfg, id).value;
    OpeningReaches(true, t, cfg, id);
    RepublishReaches(t, Some(Executing([seen], 0)));
    RunAppend(Init, Opening(true, t, seen), Republish());
    CallReaches(VersionRow(Published, "b"), t, seen);
    RunAppend(Init, Opening(true, t, seen) + Republish(), CallPart());
  }

  /******* A crash before the final update *******/

  function FinishPart(): seq<Action> {
    [Execute(DeployReturns(Ok))] + [Execute(RecordResult)] + [Crash] + [Restart]
  }

  /** The only target succeeds, the process stops before the final update, and the restart fails the deployment. */
  lemma {:induction false} CrashBeforeComplete(t: Target, cfg: Config, id: nat)
    requires FrozenFrom(t, cfg, id)
    ensures var s := Run(Init, Opening(false, t, Lookup(cfg, id).value) + CallPart() + FinishPart());
      |s.deps| == 1 && |s.deps[0].targets| == 1 && AllTargets(s.deps[0], TSuccess) && s.deps[0].status == Failed
  {
    var seen := Lookup(cfg, id).value;
    OpeningReaches(false, t, cfg, id);
    CallReaches(VersionRow(Published, "a"), t, seen);
    RunAppend(Init, Opening(false, t, seen), CallPart());
    FinishReaches(VersionRow(Published, "a"), t, seen);
    RunAppend(Init, Opening(false, t, seen) + CallPart(), FinishPart());
  }

  lemma FinishReaches(row: VersionRow, t: Target, seen: Snapshot)
    ensures var s := Run(Called(row, t, seen), FinishPart());
      |s.deps| == 1 && |s.deps[0].targets| == 1 && AllTargets(s.deps[0], TSuccess) && s.deps[0].status == Failed
  {
    var s := Called(row, t, seen);
    var d, done := MarkTarget(Claimed(t), 0, TRunning), MarkTarget(MarkTarget(Claimed(t), 0, TRunning), 0, TSuccess);
    var log := [Call(0, 0, "1.0.0", row.artifact, seen, Returned(Ok))];
    Executed(row, multiset{}, d, InFlight([seen], 0), s.log, DeployReturns(Ok));
    OneStep(s, Execute(DeployReturns(Ok)));
    var s1 := System(row, multiset{}, [d], {}, Some(Answered([seen], 0, Ok)), log);
    var p1 := [Execute(DeployReturns(Ok))];
    Executed(row, multiset{}, d, Answered([seen], 0, Ok), log, RecordResult);
    var s2 := System(row, multiset{}, [done], {}, Some(Counting), log);
    Then(s, p1, Execute(RecordResult), s1, s2);
    var p2 := p1 + [Execute(RecordResult)];
    Then(s, p2, Crash, s2, StepCrash(s2));
    Then(s, p2 + [Crash], Restart, StepCrash(s2), StepRestart(StepCrash(s2)));
  }

  /******* A deletion before the insert *******/

  lemma CreatedWithout(t: Target)
    requires FrozenTarget("p", "1.0.0", t)
    ensures var gone := System(VersionRow(Published, "a"), multiset{}, [], {}, None, []).(versions := map[]);
      Step(gone, Create("p", "1.0.0", "", false, [t])) == gone.(deps := [NewRow(t)], waiting := {0})
  {
    assert FrozenTargets("p", "1.0.0", [t]);
    assert {} + {0} == {0};
  }

  lemma DeletedBefore()
    ensures var s := System(VersionRow(Published, "a"), multiset{}, [], {}, None, []);
      Step(s, Version(DeleteVersion("p", "1.0.0"))) == s.(versions := map[])
  {
    var s := System(VersionRow(Published, "a"), multiset{}, [], {}, None, []);
    assert s.versions - {("p", "1.0.0")} == map[];
  }

  /** The pin starts with the insert, not with the freeze: a version deleted between the two is already gone when the
      row is queued. Validation then refuses the fleet, see PushTheorems.RefusedFleetIsUntouched. */
  lemma {:induction false} DeletionBeforeInsertIsNotPinned(t: Target, cfg: Config, id: nat)
    requires FrozenFrom(t, cfg, id)
    ensures var s := Run(Init, PublishPart(false));
      Row(s.versions, NewRow(t)) == Some(VersionRow(Published, "a"))
    ensures var deletion, creation := [Version(DeleteVersion("p", "1.0.0"))], [Create("p", "1.0.0", "", false, [t])];
      var s := Run(Init, PublishPart(false) + deletion + creation);
      s.deps == [NewRow(t)] && s.deps[0].status == Queued && !VersionPublished(s.versions, "p", "1.0.0")
  {
    var s := System(VersionRow(Published, "a"), multiset{}, [], {}, None, []);
    PublishReaches(false);
    RowIsFrozen(cfg, Some(VersionRow(Published, "a")), "p", "1.0.0", id);
    var gone := s.(versions := map[]);
    DeletedBefore();
    Then(Init, PublishPart(false), Version(DeleteVersion("p", "1.0.0")), s, gone);
    CreatedWithout(t);
    var queued := gone.(deps := [NewRow(t)], waiting := {0});
    Then(Init, PublishPart(false) + [Version(DeleteVersion("p", "1.0.0"))], Create("p", "1.0.0", "", false, [t]), gone,
         queued);
  }
}
