# express233: a verified model of its release and deployment core

express233 publishes versions of server software and brings them to machines, by pushing over SSH or by agents that
pull. This project models the parts of it where a mistake would deploy the wrong thing, deploy it twice, or lose bytes,
and proves what those parts keep over every run and every input. `dafny verify dfyconfig.toml` checks all of it.

**Push deployments** (`Push*.dfy`). `PushProtocol` is a transition system: durable rows (deployments with their ordered
targets, hook events, versions), volatile process state (mutex holder with its program counter, waiting calls, dry runs,
hook worker, review and publish requests that have passed their check) and a log of `Deploy` calls. Each SQL statement or transaction is one step, any interleaving is a run, a
crash may come between any two steps, and what the executor reads from the configuration tables is arbitrary.
`PushInvariant` and `PushSteps` prove an inductive invariant, `PushTheorems` draws the conclusions, `PushPin` and
`PushArtifact` say what keeps a version and its artifact in place, `PushRuns` holds concrete runs that go wrong, and `PushController` writes the executor, the dry run, the hook dispatch and the restart as methods on rows, each statement
of which is shown to be a step of the transition system. `PushFreeze` and `PushPlan` are the frozen plan, its digest and
the key that tells places apart; `RemoteRoot.dfy` says which paths name one directory.

**Content-addressed store** (`BlobDisk.dfy`, `BlobStore.dfy`, `VersionStore.dfy`). Version files are names for inodes that
they share with blob files. A ghost trace records the disk after every system call and commit, so a statement about the
trace is a statement about a crash at any instant. `VersionStore` shows that the whole store refines a plain map from path
to bytes with a version table on top; uploads, reviews and publications are split into the check of the status and the
later steps that act on it.

**Pull delivery** (`Pull*.dfy`). One node row, one agent with a durable state file, one-shot pulls, lost requests, failed
runners and crashes. The heartbeat's write and its read-back are separate steps, as in the source.

**Release hooks** (`HookQueue.dfy`, `HookTimeline.dfy`, `HookStore.dfy`). The debounce queue, what it conserves, and a
reference told from the requests alone with which its rows and dispatches agree.

**Configuration overlays** (`Trees.dfy`, `DeepMerge.dfy`, `Overrides.dfy`, `Properties.dfy`). Deep merge, override
normalisation and `.properties` rewriting. The iteration order of a Go map is a parameter or an arbitrary choice.

**Diff** (`SideBySideDiff.dfy`) and **tags** (`FileTags.dfy`). `Text.dfy`, `Iteration.dfy` and `Options.dfy` hold shared
basics.

## Where the code does not do what one would expect

Each of these is a lemma with the failing input, next to the exact condition under which the property holds.

- Submit, reject and publish read the status in one statement and update the row, without a guard, in another. A submit
  that passed its check before a publication unpublishes the version of a running deployment
  (`PushRuns.LateSubmitUnpublishes`). The version stays published until the deployment is finished exactly if it is
  published and no submit or reject of it has passed its check (`VersionPinnedUntilFinished`); its row with the artifact
  stays exactly if, besides, no publish can write another artifact (`ArtifactPinnedUntilFinished`).
- After such a submit and a second publication a validated deployment calls `Deploy` with another artifact than the frozen
  one (`LateReviewChangesArtifact`). For every remaining target of a validated deployment, its call uses the frozen artifact,
  whatever happens, exactly if that is the artifact of the published version now and its row is pinned in that sense
  (`CallUsesFrozenArtifactExactlyWhen`).
- The same holds of the files: an upload that passed its check before a publication changes the bytes of the published
  version (`LateUploadChangesPublished`), and the file part of a deletion, which follows the deletion of the row, empties a
  version of the same name that was created and published again meanwhile (`LateRemovalEmptiesPublished`). Exactly when no
  request under way can: `ImmutableExactlyWhenSealed`. Requests that do not overlap keep published versions as they are
  (`PublishedForever`).
- The pin of a version starts with the insert of the deployment row, not with the freeze: a version deleted in between is
  gone when the row is queued (`DeletionBeforeInsertIsNotPinned`). Validation then refuses the fleet, so nothing is deployed.
- A crash after the last target succeeded and before the final update leaves all targets successful and the deployment
  failed (`CrashBeforeComplete`). A finished deployment with all targets successful is successful exactly if the step that
  finished it was not the restart (`SuccessUnlessRestarted`).
- Where the file system refuses hard links, the copy fallback passes through partial files that no reference counts. A write
  is safe against a crash at every instant exactly when links work or every partial content has a reference to spare; from
  exact counts, exactly when links work or the content is empty (`WriteVersionBlob`). `TruncatedCopyFreesContentInUse`
  shows content in use being freed afterwards.
- A directory that once held a file counts as content: a version without a single file can be published, exactly if such a
  directory was left behind (`EmptyDirectoryIsPublished`, `EmptyPublish`).
- A one-shot pull, or an earlier heartbeat that the server executes late, can fall between the write and the read-back of
  an agent's heartbeat. It can mask the drift, so that a successful cycle ends without the desired version
  (`PullBeforeReadHidesDrift`), and it can make an agent redeploy the version it has (`PullBeforeReadRedeploys`,
  `LateBeforeReadRedeploys`). Along a run, all successful cycles converge exactly if none of them masks the drift
  (`ConvergesExactlyWhenNeverMasked`), and nothing is redeployed exactly if none with another version falls into that gap
  (`QuietExactlyWhenNeverUnsettled`).
- The `.properties` writer treats lines starting with `!` as comments, the reader does not. Values are written
  as they are, so a value with a newline adds lines. Overriding works for every file exactly when all keys are well-formed,
  which rules out such keys, all values show in full, and no further line of a value assigns another overridden key a wrong
  value (`ReadsBackExactlyWhenSound`); the reader sees exactly the intended change exactly when, besides, no further line
  assigns a key outside the override (`IntendedChangeExactlyWhen`).
- Override normalisation succeeds with the same tree in every iteration order exactly when the entries agree wherever two
  of them say something (`OrderFreeExactlyWhenCoherent`). Disjoint flattened paths are enough only if empty mappings count
  as paths (`DisjointIsCoherent`): `{a: {b: {}}, "a.b": 1}` succeeds or fails depending on the order
  (`EmptyMappingDependsOnOrder`).

## Model

| member | source | states |
|---|---|---|
| `PushTheorems.AtMostOnce` | internal/api/handlers_push.go:395-469 | over every run: at most one Deploy call per target row, none for a dry run, at most one in flight |
| `PushTheorems.FailStopPrefix` | internal/api/handlers_push.go:442-468 | over every run: each call is preceded by successful calls on all earlier targets, and nothing follows a call that did not succeed |
| `PushTheorems.StatusesTellTheTruth` | internal/store/push_deployments.go:761-782 | a real target is successful only if its Deploy returned without error, a deployment only if all targets are, a finished one has no unfinished target |
| `PushTheorems.CallsTellStatuses` | internal/store/push_recovery.go:13-18 | over every run: a target that is queued or skipped was never called, a called one is successful or failed only if its call returned so, and once the deployment is finished a target whose answer was lost is unknown |
| `PushTheorems.FrozenPlanOnly` | internal/api/push_plan.go:23-90 | every call used exactly the host, binding, environment and version whose digest was stored at creation, and no two calls of one deployment went to one place: same server id and port, addresses equal but for case, roots naming one directory |
| `PushArtifact.CallUsesFrozenArtifactExactlyWhen` | internal/api/handlers_push.go:442-450 | for each remaining target of a validated deployment: in every continuation its call uses the frozen artifact if and only if that is the artifact of the published version now and no request under way can change the row |
| `PushPin.FrozenArtifact` | internal/api/push_plan.go:57-90 | from before the claim on: if the version is published and no review or publish of it under way can change its row, every call uses the whole frozen plan, artifact included |
| `PushTheorems.KeyedRun` | internal/api/push_plan.go:39-43 | in every reachable state, the physical key recorded for a target row is that of its frozen plan, and every frozen plan is for a usable binding |
| `PushTheorems.RefusedFleetIsUntouched` | internal/api/handlers_push.go:406-441 | one changed, missing or unpublished target, a bad public URL or a missing requester: no Deploy call for that deployment, ever |
| `PushPin.VersionPinnedUntilFinished` | internal/store/review.go:6-42 | the version of an unfinished deployment stays published until it finishes, whatever is attempted, if and only if it is published now and no submit or reject of it has passed its check |
| `PushPin.ArtifactPinnedUntilFinished` | internal/store/projects.go:285-362 | its row, artifact included, stays as it is if and only if, besides, no publish is still to read the files and those that have read them found the same artifact |
| `PushRuns.LateSubmitUnpublishes` | internal/store/review.go:6-26 | a run in which a submit checked before the publication unpublishes the version of a running deployment |
| `PushRuns.LateReviewChangesArtifact` | internal/store/projects.go:285-327 | a run in which a validated deployment calls Deploy with another artifact than the frozen one |
| `PushRuns.DeletionBeforeInsertIsNotPinned` | internal/api/handlers_push.go:306-332 | a version deleted between the freeze of a target, made while it was published, and the insert is not pinned by the queued row |
| `PushTheorems.HookEndToEnd` | internal/api/release_hook_worker.go:36-127 | an event has at most one deployment, and an event recorded successful has a successful one in which every target got exactly one Deploy call, which returned without error |
| `PushTheorems.IdempotencyKeysUnique` | internal/store/push_deployments.go:629-676 | two requests with one idempotency key never make two deployments of a project |
| `PushTheorems.RestartFinishesEverything` | internal/store/push_recovery.go:6-22 | after a restart all rows are final, and no later step changes them |
| `PushRuns.CrashBeforeComplete` | internal/store/push_recovery.go:13-18 | a run from the start whose only target succeeds and whose deployment the restart marks failed |
| `PushTheorems.SuccessUnlessRestarted` | internal/store/push_deployments.go:770-782 | in every run, a finished deployment with all targets successful is successful if and only if the step that finished it was not the restart |
| `PushTheorems.ClaimedEventIsTaken` | internal/api/release_hook_worker.go:36-55 | in any run, a claimed dispatch is a running event without a deployment, and an idle worker takes it up |
| `PushSteps.StepKeepsInv` | internal/api/handlers_push.go:395-469 | every step of every thread keeps the protocol invariant |
| `PushSteps.ReachableInv` | internal/store/push_recovery.go:6-22 | the invariant holds in every state of every run with crashes and restarts |
| `PushSteps.StepEvolves` | internal/store/push_deployments.go:751-782 | rows keep identity and plan, never return to the queue, and never change once finished; new rows are queued, frozen and unique |
| `PushSteps.VersionStepPins` | internal/store/projects.go:348-362 | exactly which statement changes the version row of an unfinished deployment: the late write of a review or publish request of it, never a deletion |
| `PushSteps.WorkerKeepsHooks` | internal/api/release_hook_worker.go:57-127 | success is recorded only for a successful deployment of the same event |
| `PushInvariant.ExecutorKeepsGood` | internal/api/handlers_push.go:403-468 | each statement of the executor keeps calls, rows and program counter of its deployment consistent |
| `PushInvariant.CrashKeepsGood` | internal/api/handlers_push.go:449-460 | losing the answer of a call in flight keeps a deployment consistent |
| `PushInvariant.InterruptKeepsGood` | internal/store/push_recovery.go:13-18 | the restart update makes a consistent row final and keeps it consistent |
| `PushController.Controller.RunPushDeployment` | internal/api/handlers_push.go:395-469 | every statement is a protocol step; a drained or claimed deployment is left alone, an accepted fleet gets successes up to the first failure, its answer, then skips, and exactly those Deploy calls in order |
| `PushController.Controller.MarkPushDeploymentRunning` | internal/store/push_deployments.go:751-760 | claims exactly a queued row |
| `PushController.Controller.ValidateFleet` | internal/api/handlers_push.go:421-436 | accepts exactly when every target is found unchanged, and then hands on what it read |
| `PushController.Controller.Prepare` | internal/api/handlers_push.go:410-441 | accepts exactly with a public URL, an unchanged fleet and a requester; otherwise the whole fleet is failed |
| `PushController.Controller.FailPushBeforeExecution` | internal/api/handlers_push.go:481-486 | every target and the deployment become failed, without a call |
| `PushController.Controller.ExecuteTarget` | internal/api/handlers_push.go:442-460 | one call with the prepared plan, and the answer recorded in the row |
| `PushController.Controller.ExecuteFleet` | internal/api/handlers_push.go:442-467 | the rows and calls of the serial loop, as a function of the answers |
| `PushController.Controller.CompletePushDeployment` | internal/store/push_deployments.go:770-782 | success exactly if all targets are successful |
| `PushController.FleetResultStatuses` | internal/api/handlers_push.go:442-468 | target by target: skipped after an answer other than Ok, otherwise successful, failed or unknown exactly as Deploy answered ok, error or unknown; all successful exactly if every answer is |
| `PushController.RunResultStatuses` | internal/api/handlers_push.go:395-469 | the row of a whole run: successful exactly if the fleet was accepted and every answer was Ok, failed otherwise; a refused fleet has failed targets only; nothing else of the row changes |
| `PushController.CallsOfFleet` | internal/api/handlers_push.go:442-460 | the calls of a fleet go to its targets in order, each once, with the snapshot read for the target and the artifact of the version |
| `PushController.CalledExactlyWhen` | internal/api/handlers_push.go:442-468 | a target is called exactly if every target before it answered Ok |
| `PushController.Controller.CompletePushDryRun` | internal/api/handlers_push.go:348-360 | a queued dry run ends with all targets and itself successful, a claimed one is left alone, no call is made |
| `PushController.Controller.InterruptPushDeployments` | internal/store/push_recovery.go:6-22 | status by status: an unfinished deployment becomes failed, its running targets unknown, its queued ones skipped, its other targets stay; a finished one stays; the result is a protocol state |
| `PushController.Controller.FindOrCreate` | internal/api/release_hook_worker.go:79-99 | the deployment that the event has, or else a queued row with the event's project, version and frozen targets appended; none exactly if there is neither; no other row changes |
| `PushController.Controller.DispatchReleaseHook` | internal/api/release_hook_worker.go:57-127 | exactly when the release task is missing, the version unpublished, or there is neither a deployment nor frozen targets: failed, without deployment, row or call; otherwise the event's deployment is found or inserted, run with exactly the rows and calls of a run, and the event is successful exactly if that deployment is read back as successful |
| `PushController.ReachableStatesAreClosed` | internal/api/handlers_push.go:395-469 | the reachable states are a step-closed set, so the methods never leave them |
| `PushFreeze.FreezePushPlan` | internal/api/push_plan.go:23-51 | with binding, host and version read anew for every target: succeeds exactly if every binding is deployable when it is read and no two are of one place, on plain addresses, ports, directories and server ids; rows carry the plans read, in order |
| `PushFreeze.RowExactlyWhenDeployable` | internal/api/push_plan.go:53-60 | a binding gets a row exactly if it is found, of the project, on Linux, with a safe server id and an absolute root other than "/" under any spelling, and the version is published |
| `PushFreeze.RespelledRootIsRefused` | internal/api/push_plan.go:39-43 | a second binding whose root only adds "/", "/." or "/x/.." and whose address differs in case only makes the freeze fail |
| `PushPlan.KeyTextMeansPlace` | internal/api/push_plan.go:39-39 | the formatted key texts of usable bindings are equal exactly if they are of one place: the text never runs two places together |
| `PushPlan.PhysicalMeansPlace` | internal/api/push_plan.go:39-39 | the physical keys of absolute roots are equal exactly if they are of one place |
| `RemoteRoot.CleanMeansDirectory` | internal/api/push_plan.go:39-39 | two absolute paths have the same clean form exactly if walking their segments from the root ends in the same directory; it is "/" exactly for the root |
| `RemoteRoot.SpellingsOfOneDirectory` | internal/api/push_plan.go:39-39 | a trailing slash, a doubled slash, ".", a name followed by ".." and ".." at the root do not change the clean form |
| `RemoteRoot.NamesDirectory` | internal/api/push_plan.go:39-39 | ordinary names joined by slashes name just that directory |
| `Text.LowerFoldsCase` | internal/api/push_plan.go:39-39 | lower-cased texts are equal exactly if the texts differ in the case of letters only |
| `PushFreeze.FrozenValidates` | internal/api/handlers_push.go:423-434 | a frozen target validates again exactly if host, binding, environment, configuration and published artifact are the same |
| `RemoteRoot.CleanIsIdempotent` | internal/api/push_plan.go:39-39 | cleaning a path twice is cleaning it once |
| `BlobStore.Store.WriteVersionBlob` | internal/store/blobs.go:328-349 | the path reads the new bytes, no other path changes, counts stay balanced; with links a crash shows old, none or new; safe at every instant exactly if links work or every partial content of the copy has a spare reference |
| `BlobStore.Store.ReleaseBlobLink` | internal/store/blobs.go:167-179 | the path is gone, nothing else changes, safe at every instant |
| `BlobStore.Store.DecrementBlobRef` | internal/store/blobs.go:200-230 | one reference less; row before file, so every instant is safe; an unknown hash changes nothing |
| `BlobStore.Store.WriteBlobFile` | internal/store/blobs.go:119-154 | afterwards the blob file exists with its content, also where a row had lost it, and no other lost file changes; readers see no change at any instant |
| `BlobStore.Store.IngestBlob` | internal/store/blobs.go:27-117 | one reference more than before, file before row; its own content is no longer lost, whatever other blob files are; a safe disk stays safe at every instant |
| `BlobStore.Store.LinkBlobToVersion` | internal/store/blobs.go:156-165 | the name reads the blob's bytes through a fresh link or copy; when a crash on the way is safe, exactly |
| `BlobStore.Store.CopyBlobFile` | internal/store/blobs.go:281-299 | the copy reads the blob's bytes; its partial writes are safe exactly if every partial content has a spare reference |
| `BlobStore.Store.ReleaseVersionDir` | internal/store/blobs.go:181-194 | exactly the files of the version are gone, in any walk order, other versions untouched at every instant |
| `BlobStore.Store.ExtractArchive` | internal/store/files.go:78-208 | the entries before the first refused one are written, later ones win, other versions untouched at every instant |
| `BlobStore.AcceptedPrefix` | internal/store/files.go:78-208 | the accepted files are the entries up to the first refused one, or all of them |
| `BlobStore.LastFileStays` | internal/store/files.go:78-208 | of several entries with one name the last one is what the version holds |
| `BlobStore.OtherFilesStay` | internal/store/files.go:78-208 | a path that no entry names stays as it was |
| `BlobStore.TruncatedCopyFreesContentInUse` | internal/store/blobs.go:281-299 | a copy cut short, once released, deletes row and blob of content another file still has |
| `BlobDisk.UnlinkStep` | internal/store/blobs.go:175-177 | removing a name leaves every other path's bytes and frees one reference |
| `BlobDisk.LinkStep` | internal/store/blobs.go:161-163 | linking shares the inode, changes one path and uses one reference |
| `VersionStore.Versions.Perform` | internal/store/files.go:19-49 | every step of a store request changes rows, requests under way and readable bytes exactly as the plain map model does, and exact counts stay exact |
| `VersionStore.Versions.PerformAll` | internal/store/files.go:19-208 | so does every sequence of steps, however requests interleave |
| `VersionStore.PublishedForever` | internal/store/version_provenance.go:117-162 | over every sequence of whole requests without its deletion a published version keeps row and bytes, and its manifest describes exactly its files |
| `VersionStore.WholeIsAtomic` | internal/store/files.go:19-49 | a request whose steps nothing interrupts takes effect as one operation and leaves nothing under way |
| `VersionStore.LifeOfVersion` | internal/store/review.go:6-66 | whole requests move a version between draft, pending review, rejected and published exactly as tabulated; its files change only while it is a draft or rejected, or with its deletion |
| `VersionStore.FrozenUnderReview` | internal/store/review.go:52-66 | over every sequence of whole requests, a version under review keeps its row and every byte until it is rejected, published or deleted |
| `VersionStore.ReleaseVersionForm` | internal/store/projects.go:208-210 | three decimal numbers with dots between them are a release version |
| `VersionStore.ReleaseVersionParts` | internal/store/projects.go:208-210 | and every release version is of that form |
| `VersionStore.ImmutableExactlyWhenSealed` | internal/store/review.go:52-69 | however the steps of requests interleave, a published version keeps row and bytes until its row is dropped if and only if no request under way can change it: no edit, no review, no publication with another manifest, and no file removal of an earlier deletion while it has files |
| `VersionStore.LateUploadChangesPublished` | internal/store/files.go:19-31 | a run in which an upload checked before the publication changes the published bytes behind the manifest |
| `VersionStore.LateSubmitUnpublishes` | internal/store/review.go:6-26 | a run in which a submit checked before the publication unpublishes the version |
| `VersionStore.LateRemovalEmptiesPublished` | internal/store/projects.go:344-372 | a run in which the file part of a deletion empties the version of that name that was created and published after its row was dropped |
| `VersionStore.EmptyDirectoryIsPublished` | internal/store/projects.go:310-338 | requests after which a version without a single file is published |
| `VersionStore.EmptyPublish` | internal/store/projects.go:329-338 | a publishable version without files is published exactly if a directory was left behind |
| `VersionStore.ApplyEntersPublished` | internal/store/projects.go:285-327 | published is entered only by the final update of a publication of that release, with the manifest it read, which is true exactly if the files are still those |
| `VersionStore.ApplyKeepsPublished` | internal/store/review.go:6-69 | no step other than its deletion changes row or files of a published version that no request under way can change, and it stays so |
| `PullTheorems.GenerationHistory` | internal/store/delivery_nodes.go:148-227 | over every run generations never decrease, applied never passes desired, adjacent generations differ, stored and in-flight states are pairs the server desired |
| `PullTheorems.DesiredIsLastWanted` | internal/store/delivery_nodes.go:188-227 | over every run: the row desires the version of the last request with one, or of the last publication while the node followed; history and generation count the changes, and nothing else has a say |
| `PullTheorems.SetDesiredTakesEffect` | internal/store/delivery_nodes.go:188-216 | after a request with a version, that version is desired and ends the history |
| `PullTheorems.PublishReachesFollowers` | internal/store/delivery_nodes.go:218-227 | the same after a publication exactly on a node that follows; any other node is unchanged |
| `PullTheorems.PullConvergence` | internal/cli/agent.go:148-181 | once a non-empty desired pair stops changing and no foreign heartbeat masks the drift, a successful cycle ends with that version stored and no drift; then, without unsettling ones, no event starts a deployment |
| `PullTheorems.SuccessfulCycleConverges` | internal/cli/agent.go:148-181 | the same from any state of the invariant, with anything interleaved that keeps the pair and does not mask the drift |
| `PullTheorems.ConvergesExactlyWhenNeverMasked` | internal/store/delivery_nodes.go:158-162 | along a run that keeps the pair, every successful end of a cycle converges if and only if no one-shot pull or late heartbeat masks the drift in the read-back gap of an agent without the desired version |
| `PullTheorems.NoFurtherDeployment` | internal/api/handlers_delivery_nodes.go:126-132 | after convergence no deployment starts, whatever fails, while the pair stays and no foreign heartbeat of another version falls into the read-back gap |
| `PullTheorems.QuietExactlyWhenNeverUnsettled` | internal/api/handlers_delivery_nodes.go:126-132 | along a run from a converged state that keeps the pair, no answer starts a deployment if and only if no one-shot pull or late heartbeat of another version falls into the read-back gap |
| `PullTheorems.AnswerStartsExactlyWhen` | internal/api/handlers_delivery_nodes.go:126-132 | the answer to a converged agent starts a deployment exactly if the row no longer shows what it reported |
| `PullTheorems.PullBeforeReadRedeploys` | internal/api/handlers_pull.go:76-82 | from any converged state, a pull of another version in the read-back gap makes the agent redeploy the version it has |
| `PullTheorems.LateBeforeReadRedeploys` | internal/cli/agent.go:183-223 | so does an earlier heartbeat of the agent that the server executes in that gap |
| `PullTheorems.QuietCycleConvergesExactlyWhen` | internal/store/delivery_nodes.go:158-162 | a cycle that ends without deploying has converged exactly if the row read back still shows the reported version |
| `PullTheorems.PullBeforeReadHidesDrift` | internal/api/handlers_pull.go:76-82 | a one-shot pull of the desired version between write and read-back ends a successful cycle with nothing stored |
| `PullTheorems.TwoHeartbeats` | internal/api/handlers_delivery_nodes.go:126-132 | after two identical heartbeats a deployment is needed exactly if the reported version is not the desired one |
| `PullTheorems.OneHeartbeat` | internal/store/delivery_nodes.go:154-158 | after one, also exactly if the reported generation lies strictly between the applied and the desired one |
| `PullNode.DeliveryNode.HeartbeatDeliveryNode` | internal/store/delivery_nodes.go:148-163 | the reported version, status and error are stored; the applied generation becomes the reported one if that is larger, else the desired one if the version is the desired one and it is larger, else it stays |
| `PullNode.DeliveryNode.SetDeliveryNodeDesired` | internal/store/delivery_nodes.go:188-216 | a version becomes the desired one; if it is another one the generation grows by one and the status is pending; the error is cleared; no version changes only whether the node follows; all other fields stay |
| `PullNode.DeliveryNode.AdvanceAutoFollow` | internal/store/delivery_nodes.go:218-227 | a following row with another version gets it with a new generation, pending and without error; any other row stays |
| `PullNode.DeliveryNode.RunAgentCycle` | internal/cli/agent.go:148-181 | a cycle, with any failures and requests in between, is a protocol run; it returns without an error if every call succeeds, and then, with the pair unchanged and the drift not masked, it has converged |
| `HookQueue.DebounceConservation` | internal/store/release_hooks.go:202-383 | over every run: triggers = dispatched + dropped + pending, triggers - merges = claims + cancellations + open window, a disabled hook has nothing pending |
| `HookQueue.DispatchesMergeOpenTriggers` | internal/store/release_hooks.go:334-383 | in the log, every dispatch merges exactly the open triggers, carries the last one's request, and comes no earlier than that trigger plus the debounce then in force |
| `HookTimeline.DispatchesAreTrailing` | internal/store/release_hooks.go:233-383 | over every sequence of requests: each dispatch stems from a claim naming its hook, carries the request of the last trigger the hook had accepted, comes no earlier than that request's time plus the debounce then in force, counts the triggers since the last close, and the hook was quiet in between |
| `HookTimeline.DueHooksAreDispatched` | internal/store/release_hooks.go:334-383 | a claim dispatches every hook it names whose waiting request is due |
| `HookTimeline.RowsAreAsAsked` | internal/store/release_hooks.go:163-383 | over every sequence of requests, each row holds exactly the last configuration, the waiting request with its due time and count, and the counters, as the requests alone determine them |
| `HookTimeline.WaitingIsLastAccepted` | internal/store/release_hooks.go:293-332 | what waits is the last accepted request, due at its time plus the debounce then in force, with no trigger, disabling or claim since |
| `HookQueue.WindowHoldsOpen` | internal/store/release_hooks.go:271-275 | the window is exactly the triggers that no later dispatch or cancellation closed |
| `HookQueue.ApplyKeepsInv` | internal/store/release_hooks.go:202-383 | every operation on hooks keeps the counters, the pending fields and the history in agreement |
| `HookStore.Store.CreateReleaseHook` | internal/store/release_hooks.go:163-177 | rejects a debounce outside 1 to 3600 seconds, replaces zero by 30, and appends a row with the given project and state, nothing pending and all counters zero; other rows stay |
| `HookStore.Store.UpdateReleaseHook` | internal/store/release_hooks.go:202-219 | rejects a bad debounce or unknown hook; sets state and debounce; disabling clears request, due time and count, otherwise they stay; counters, project and other rows stay |
| `HookStore.Store.QueueReleaseHook` | internal/store/release_hooks.go:293-332 | rejects exactly bad requests and hooks that are missing or disabled; otherwise the trimmed request is pending, due at now plus the debounce, one more event and trigger, one more merge exactly if something was pending, and nothing else changes |
| `HookStore.Store.QueueProjectReleaseHooks` | internal/store/release_hooks.go:233-291 | the same for every enabled hook of the project, and no other hook changes |
| `HookStore.Store.ClaimDueReleaseHooks` | internal/store/release_hooks.go:334-383 | the earliest due hooks by due time and id, up to the limit, become runs with what was pending; their rows are cleared and count one more run, the others stay |
| `HookStore.SelectDue` | internal/store/release_hooks.go:343-345 | due hooks only, in order, each once, none left out before the limit |
| `DeepMerge.DeepMergeInPlace` | internal/template/merge.go:110-147 | success and result are the same for every iteration order |
| `DeepMerge.LookupLaw` | internal/template/merge.go:110-147 | after a merge each path shows the override where it says something, nothing below one of its values, and the base elsewhere |
| `DeepMerge.FailsExactlyOnMismatch` | internal/template/merge.go:125-165 | it fails exactly if some path is a mapping on one side and a value on the other, except a value over a placeholder |
| `DeepMerge.ValueReplacesMapping` | internal/template/merge.go:149-165 | a value takes the place of a mapping exactly if that is one name with a null value, of letters, digits, "_" and "-", not starting with a digit |
| `DeepMerge.MergeTwice` | internal/template/transform.go:73-85 | merging an override twice is merging it once |
| `DeepMerge.MergeAssociative` | internal/template/transform.go:73-85 | whenever both groupings of three trees succeed they agree |
| `Trees.GetNested` | internal/template/keys.go:77-95 | the cursor walk finds the subtree at the dotted path |
| `Trees.SameShapesSameTree` | internal/template/keys.go:77-95 | trees that look up alike at every path are equal |
| `Overrides.NormalizeStructured` | internal/config/overrides.go:37-67 | on coherent overrides, in any order, succeeds with a tree that shows each declared value and nothing more |
| `Overrides.OrderFreeExactlyWhenCoherent` | internal/config/overrides.go:37-80 | every order succeeds with the same tree if and only if the override is coherent |
| `Overrides.DisjointIsCoherent` | internal/config/overrides.go:37-80 | well-formed entries whose flattened paths are not equal to or prefixes of each other are coherent |
| `Overrides.EmptyMappingDependsOnOrder` | internal/config/overrides.go:37-80 | an empty mapping against a dotted value: one order succeeds, the other fails |
| `Overrides.AddEntryOverlays` | internal/template/merge.go:43-73 | one entry, dotted or nested, is laid over the tree: its shapes win, nothing stays below its values, the rest is kept |
| `Overrides.DotsNest` | internal/config/overrides.go:37-80 | an undotted key stands for itself, a dotted one nests the rest under what precedes its first dot |
| `Overrides.AgreeingEntryIsAdded` | internal/config/overrides.go:69-80 | a well-formed entry that agrees with the tree is accepted |
| `Properties.ReplaceProperties` | internal/template/replace.go:42-67 | for well-formed overrides the reader then sees the new value at overridden keys and the old one at all others |
| `Properties.ReadPropertiesKey` | internal/template/keys.go:35-51 | the first line that assigns the key |
| `Properties.SpacedAssignmentReads` | internal/template/keys.go:35-51 | white space around the key, "=" or ":", and white space around the value: the line assigns exactly that key the trimmed value |
| `Properties.OtherLinesAreSilent` | internal/template/keys.go:37-44 | lines starting with "#" after white space, and lines without a separator, assign nothing |
| `Text.TrimStrips` | internal/template/keys.go:37-47 | exactly the white space around a text is trimmed |
| `Properties.ReadAfterRewrite` | internal/template/replace.go:42-67 | for every text and every order of leftover keys the reader sees exactly the intended change |
| `Properties.OtherLinesStay` | internal/template/replace.go:48-62 | exactly the first line of each overridden key is replaced; every other line stays as it is in its place |
| `Properties.LeftOverKeys` | internal/template/replace.go:58-65 | appended are exactly the keys that no line assigns |
| `Properties.RewriteTwice` | internal/template/replace.go:42-67 | rewriting twice, in any two orders, gives the text of rewriting once |
| `Properties.ReadsBackExactlyWhenSound` | internal/template/keys.go:35-51 | every overridden key reads back after every rewrite of every text if and only if all keys are well-formed, all values show in full, and no further line of a value assigns another overridden key a wrong value |
| `Properties.IntendedChangeExactlyWhen` | internal/template/replace.go:42-67 | in every text and order the reader sees exactly the intended change if and only if, besides, no further line of a value assigns a key outside the override |
| `Properties.OneLineValuesAreSound` | internal/template/replace.go:42-67 | values without newlines always meet the conditions on values |
| `SideBySideDiff.BuildSideBySideDiff` | internal/api/web/app.js:2783-2814 | lossless always, optimal below the table limit |
| `SideBySideDiff.FillTable` | internal/api/web/app.js:2787-2792 | every entry is the recurrence's value for the two suffixes |
| `SideBySideDiff.Trace` | internal/api/web/app.js:2793-2813 | terminates with equal columns that show both texts with their numbers, equal text in unmarked rows, and no common subsequence has more lines |
| `SideBySideDiff.LcsIsUpperBound` | internal/api/web/app.js:2787-2792 | no common subsequence is longer than the table says |
| `SideBySideDiff.BuildSimpleDiff` | internal/api/web/app.js:2816-2826 | lossless line by line; a row is unmarked exactly where both texts have the same line |
| `SideBySideDiff.SplitLinesIsLossless` | internal/api/web/app.js:2828-2832 | the lines joined give the text with Unix newlines, up to one final newline |
| `SideBySideDiff.UnixTextKeepsOthers` | internal/api/web/app.js:2829-2829 | text without a carriage return before a newline stays as it is |
| `SideBySideDiff.UnixTextJoins` | internal/api/web/app.js:2829-2829 | each carriage return with newline becomes one newline, wherever it stands |
| `FileTags.Normalize` | internal/filetags/tags.go:13-41 | the canonical form, whatever order the set is ranged over |
| `FileTags.NormalizedIsCanonical` | internal/filetags/tags.go:13-41 | the single wildcard, or a strictly sorted wildcard-free list of clean tags |
| `FileTags.NormalizeTwice` | internal/filetags/tags.go:13-41 | normalising is idempotent |
| `FileTags.SeparatorsSplitTags` | internal/filetags/tags.go:16-18 | comma, semicolon, newline, tab and space separate tags |
| `FileTags.WordIsOneTag` | internal/filetags/tags.go:19-26 | a word is one trimmed, lower-case tag, "all" is the wildcard, a blank one is none |
| `FileTags.SplitOfJoinTags` | internal/filetags/tags.go:43-49 | the stored text reads back as the canonical form |
| `FileTags.Matches` | internal/filetags/tags.go:67-80 | true exactly for files without restriction or with one of the target's tags |
| `FileTags.MatchingIsCanonical` | internal/filetags/tags.go:67-80 | files with the same canonical form match the same targets |
| `FileTags.Target` | internal/filetags/tags.go:51-65 | unless it is the wildcard, exactly the extra tags, the system, the architecture and "system-architecture", in canonical form |
| `FileTags.TargetTakesItsPlatform` | internal/filetags/tags.go:51-65 | unless it collapses to the wildcard, a target takes every file tagged with its system, architecture, pair or an extra tag |
| `FileTags.TargetTakesNothingElse` | internal/filetags/tags.go:51-80 | and of the restricted files only those with one of these tags |
| `FileTags.WildcardTarget` | internal/filetags/tags.go:67-80 | a target that collapses to the wildcard takes only files without restriction |

## Left out

- SSH, HTTP, sessions, encryption, SQL text, archive decoding, YAML and JSON parsing and printing; `Deploy` answers ok, error or unknown, archives are lists of entries, configuration files are trees.
- SHA-256 is an injective digest: the digest of a plan, a content or a manifest is modelled as what it covers; file modes are not part of the manifest.
- One tenant; a project is its name; ids are positions in sequences; version and project names are single path segments.
- A failed store statement is modelled as the process stopping there; the calls that discard such errors are not followed further.
- Blob operations are serial: `decrementBlobRef` commits before it unlinks, and an ingest interleaved with that is not covered.
- The outcome of the configuration file name checks on upload and publish is an input of the store steps. The file steps of one request, as opposed to its database statements, are one step of the plain model.
- Selector resolution (`ListPushBindingsForSelector`, `labelsMatch`) and the stale-run query: easy; the protocol takes any frozen target list, and any running event may be taken up again at any time.
- `PrunePublishedVersions` is a sequence of `DeleteVersion` steps; its retention count is not modelled.
- `DeleteProject`, `DeleteDeliveryNode`, `DeleteReleaseHook` and log retention discard history on purpose and are not steps.
- In-place update of nested maps (`DeepMergeInPlace`, `SetNestedMap`) is modelled on values: aliasing between trees and the partly updated destination of a failed merge are not captured. `SetNestedMap` is a recursive function instead of a cursor loop.
- Mappings with non-string keys are taken as already converted to string keys.
- Lower-casing is ASCII only; characters compare by code point.
- `normalizeProperties` and `FlattenScalars`; the second is order dependent only when two flattened keys collide.
- Hook cancellation records written by the update handler: dropped triggers are counted where the row is cleared.
- FrozenArtifact: one direction only, from before the claim on; once the fleet is validated, CallUsesFrozenArtifactExactlyWhen is the exact condition.
- ArtifactPinnedUntilFinished: the files of versions are in VersionStore, so a publish that is still to read them is taken to be able to read any artifact.
- RunPushDeployment: one uninterrupted execution; interleavings and crashes are covered by the transition system whose steps it takes.
- RunAgentCycle: the requests of others arrive between the heartbeat's write and read and while the runner works; arbitrary positions are covered by the event sequences of `PullTheorems`.
- Dashboard, storage index, login bans, self-update, CLI plumbing and the rest of the console: only easy members.
