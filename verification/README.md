# kube-snapshot, verified

A Dafny model of the three parts of the operator that work on one API store, and proofs
about all the ways they can interleave:

- the **task pipeline** takes a SnapshotPodTask through Accept, Commit and Push, writing its
  status up to four times per reconcile, with a retry budget and two terminal phases;
- the **round controller** turns a new trigger round of a SnapshotPod into one task and one
  history entry per container, trims the history, and folds task phases back into it;
- the **admission webhook** reads that history, picks a recovery image per container, and
  answers with a JSON Patch; on a pod's deletion it bumps the round.

A fourth part is the **template renderer** for image names, which replaces placeholders in the
random order of a Go map.

## How it is built

Each controller appears twice. `TaskPipeline` and `Rounds` describe one reconcile as a worker
with a private copy of the object and a program point wherever the Go code waits for an answer
(`Next`). `TaskReconciler` and `RoundReconciler` are the reconcilers in the source's own form,
loops that change an object in place; each is proved to produce a trace that the worker accepts
and to end in the worker's state. `TaskStore` and `Operator` put any number of workers over a
versioned store: a reconcile may read any committed version, an update lands only on the
version it was read from, and even then it may get lost or land while its reply gets lost; an
update that changes nothing may or may not make a new version; a reconcile may stop for good
anywhere. `Exec` is the state after a list of actions, so a theorem over all lists of actions is
a theorem over all interleavings. `Provenance` shows that every copy and every version in such
a run has a trace of its worker. The theorems are in `TaskTheorems`, `OperatorTheorems`,
`Convergence`, `Coverage`, `Closing`, `Recovery`, `PatchMeaning`, `EndToEnd`, `Template`, `Walks`,
`FlatFormats`, `Renderer`, `Cycles` and `Naming`; `LeftoverTask`, `PartialRounds` and `GrowingTag` hold
runs in which something one may expect does not hold.

Two things in the data are not in the source: `SpStatus.past` holds the entries that trimming
dropped, so that the full history is `past + runs`; `Entry.made` says that the Create call made
for the entry created the task.

## Findings

- *An injected image may never have been pushed.* When Create reports that the task exists
  already, the entry gets a newly rendered image name, not the existing task's. `RecoverySafety`
  gives the exact condition (the two names are equal, as they are whenever the same reconcile
  made both), and `LeftoverTask.InjectedButNeverPushed` a full interleaving in which they differ.
- *A round may skip containers for good.* An error in the loop leaves the entries before it, and
  these close the round once the update lands. `Closing.SkippedForGood`: in every version after
  that, whatever happens, exactly the containers before the first error are covered, unless the
  first container was in error, in which case the round stays open (`Closing.LoopCloses`).
  `PartialRounds.RestCanBeSkipped` has a run for every pod and every number of covered containers.
- *A round may be lost without any error.* If the trigger round is raised before a loop's update
  reaches the server, the update is refused, and a round without an entry then never gets one
  (`Closing.Superseded`, with a run in `PartialRounds.RoundCanBeSuperseded`). All in all a container
  is covered exactly if the update of a loop of its round landed, which it can only while the
  trigger round is that round, and the container came before that loop's first error
  (`Closing.CoveredExactly`).
- *A round may be cut by its own trimming.* With r entries listed and k containers it stays whole
  exactly if k <= 5, or k <= 20 and either r + k <= 20 or r >= 16 and r + k <= 36
  (`History.RoundFits`); a round of six after one of fifteen is cut (`PartialRounds.RoundCutsItself`).
- *Task names of two SnapshotPods in a namespace can collide*, exactly if one of the two names
  goes on, where the other ends, with a dash and a round number, up to its end or to another dash
  and text that can begin a container's name, and is not too long for a task's name to follow it
  (`Naming.TaskNamesCollideExactly`).
- *With nested braces the walk over the map can decide whether an image name comes out*, never
  which one (`Renderer.RenderedNameIsUnique`). A walk yields the name exactly if it comes to each
  key after the keys that help to spell it (`Renderer.RenderExactly`), and walks differ exactly if
  there are such pairs of keys and they do not go in a circle (`Renderer.WalksDifferExactly`); for
  an image tagged "domain" and the format "{{tag}}" they do (`Renderer.WalksCanDiffer`).
- *The tag need not come to rest over snapshots of snapshots.* The "snapped-" suffix is appended
  once, but with {tag} in the tag's place anything else there, before it or after it, is put
  around the tag once more in every cycle: the tag of the first suffixed image (of any, if
  no suffix is asked for) stays exactly if {tag} stands alone (`Cycles.TagIsFixedExactly`), else it grows until it is longer than a tag may
  be and no further image name comes out (`Cycles.GrowthEnds`). The example at
  api/v1alpha1/snapshotpod_types.go:51 has a date after its {tag}; `GrowingTag.TagGrows` has two
  such cycles, under a limit of 128 characters. A format that always reads as the same tag, such
  as config/samples/snapshot-pod_v1alpha1_snapshotpod.yaml:17 with no tag at all, gives every image
  a suffix of its own (`Cycles.TagIsRenewed`, `GrowingTag.TagChanges`); that agrees with the first
  one exactly if the text itself has the mark or time and random part are the same
  (`Cycles.RenewedAgree`). Of every other format without a digest, one with nested braces, say,
  `Cycles.OneCycle` gives the tag of the next image.
- *The patch fails if a container to be patched has no image member* in its JSON, because
  "replace" needs a target (`PatchMeaning.PatchHasOneMeaning`, `PatchMeaning.PatchCanFail`).

Where code and documentation differ the code is followed: the comment at
internal/controller/snapshotpod_controller.go:199 speaks of the last 20 snapshots, the code cuts
to five; api/v1alpha1/snapshotpod_types.go:97 speaks of the last succeeded round, the code takes
each container's own; README.md of the repository says that a failed step counts as a failed
task, the code counts only exhausted retries.

## Assumptions

One SnapshotPod in one namespace. Its trigger round is never lowered (`EditSpec` refuses;
`PodDeleted` refuses at the int32 maximum, where the increment would wrap). The containers of a
pod to snapshot have different names (`Unaided`). Task specs never change and tasks are never
deleted; anybody may create tasks (`Foreign`). References parse only if they have no braces, and
neither have their parts (`ParsesCleanly`).

For the cycles of snapshot and recovery (`Lawful`): what WithTag makes of a tagged reference reads
back as the same reference with the new tag; in a text without a digest the tag is what follows
the last colon, if no slash does, and else a default ("latest" in the library); no part of a
reference is empty or contains an at sign, and only its domain a colon.

## Model

| member | source | states |
|---|---|---|
| TaskReconciler.Reconcile | internal/controller/snapshotpodtask_controller.go:177-343 | a run of the worker with the same status, reply, runtime calls and metrics; nothing is done for another node's task or one that has ended; else it ends in an error exactly if an update was reported to fail, is done exactly if the task has ended, which it then records with its outcome, and otherwise asks to come back; every logged call is what its step makes on the answers met |
| TaskReconciler.RunSteps | internal/controller/snapshotpodtask_controller.go:222-265 | skips done steps, persists after each step, stops at the first failing step or failed update |
| TaskReconciler.RunStep | internal/controller/snapshotpodtask_controller.go:224-256 | finds or appends the step's condition, runs the step, and sets the condition: True if the step succeeds, else False with its message |
| TaskReconciler.ReconcileCommit | internal/controller/snapshotpodtask_controller.go:140-159 | Commit is called, for the task's image, exactly if the runtime is known and the timeout parses; the step succeeds exactly if it is called and the command does; else its error is that of the first failing guard or of the command |
| TaskReconciler.ReconcilePushImage | internal/controller/snapshotpodtask_controller.go:99-138 | Push is called, for the task's image, exactly if the runtime is known, the image exists and the secret is found; success and error likewise |
| TaskReconciler.ErroredExactly | internal/controller/snapshotpodtask_controller.go:247-265 | over any trace: an error reply exactly if an update was reported to fail |
| TaskReconciler.DecidePhase | internal/controller/snapshotpodtask_controller.go:270-303 | all conditions True completes the task; a failing condition of this reconcile, or one over ten minutes old, counts a retry, and the limit (three if unset) fails the task; otherwise it is CREATED |
| TaskReconciler.ReconcileIsDetermined | internal/controller/snapshotpodtask_controller.go:177-343 | the answers leave the reconcile no freedom: two complete traces for them are equal |
| TaskStore.WorkerMoves | internal/controller/snapshotpodtask_controller.go:223-308 | whatever a worker writes is a legal successor of the version it read, at every program point |
| TaskStore.ExecInv | internal/controller/snapshotpodtask_controller.go:177-343 | the joint invariant of versions, in-flight copies, call log and counters holds after every list of actions |
| TaskTheorems.PipelineShape | internal/controller/snapshotpodtask_controller.go:223-308 | every version is a prefix of Accept, Commit, Push with only the last possibly False; the phase is empty, COMPLETED with all done, or FAILED; CREATED and Unknown are never written |
| TaskTheorems.TerminalIsFinal | internal/controller/snapshotpodtask_controller.go:195-198 | after a terminal version no further version is ever committed |
| TaskTheorems.ProgressIsKept | internal/controller/snapshotpodtask_controller.go:237-241 | later versions never undo a step or take back a counted retry |
| TaskTheorems.RetryTermination | internal/controller/snapshotpodtask_controller.go:284-300 | fewer counted failures than the budget until terminal, exactly the budget when FAILED, terminal after at most as many landed final updates as the budget; the int32 increment never wraps |
| TaskTheorems.FinalUpdateProgress | internal/controller/snapshotpodtask_controller.go:271-308 | each landed final update counts one failure or completes the task; nothing else changes count or phase |
| TaskTheorems.CommitBeforePush | internal/controller/snapshotpodtask_controller.go:99-159 | every push attempt, failing or not, follows a successful commit of the same image; a COMPLETED task was committed, then pushed |
| TaskTheorems.CallsAreAnswered | internal/controller/snapshotpodtask_controller.go:99-159 | in every run each logged call is one of the task's image that a step body made with its guards passed, logged as a success exactly if the runtime answered without an error |
| TaskTheorems.OtherNodesAreIdle | internal/controller/snapshotpodtask_controller.go:191-194 | reconciles on other nodes never call the runtime nor write a version |
| TaskTheorems.RetriesAreEarned | internal/controller/snapshotpodtask_controller.go:284-288 | the persisted retry count never exceeds the failed step runs nor the retry metric |
| TaskTheorems.RecordedAtMostOnce | internal/controller/snapshotpodtask_controller.go:306-329 | the terminal metric fires at most once per task and with the phase the task ended in |
| TaskTheorems.CrashRecovery | internal/controller/snapshotpodtask_controller.go:208-275 | once Push is persisted, any reconcile of that or a later version makes no runtime call and can only write COMPLETED |
| TaskTheorems.SharedFailureBudget | internal/controller/snapshotpodtask_controller.go:238-300 | with fresh reads and landing writes the count equals failed commits plus failed pushes, and at most one commit succeeds |
| RoundReconciler.Reconcile | internal/controller/snapshotpod_controller.go:325-406 | the loop over the three steps is a run of the round worker; the reply is an error exactly if the update fails, and else asks to come back exactly if a listed entry is neither SUCCEED nor FAILED or a condition is not True; every Create call is for one of the target's containers, or of the pod's if the target names none, with the ID that container's own status has |
| RoundReconciler.ReconcileStep | internal/controller/snapshotpod_controller.go:359-386 | finds or appends the step's condition, runs the step, and sets the condition by its outcome |
| RoundReconciler.RunStep | internal/controller/snapshotpod_controller.go:340-356 | each of the three functions takes the worker to its next program point or to the update |
| RoundReconciler.ReconcileIsDetermined | internal/controller/snapshotpod_controller.go:325-406 | the answers leave the reconcile no freedom: two complete traces for them are equal |
| RoundReconciler.ReconcileTasks | internal/controller/snapshotpod_controller.go:118-205 | round guards and creation loop do what the worker does, and end it at the first error |
| RoundReconciler.CreateTasks | internal/controller/snapshotpod_controller.go:139-204 | the loop takes the worker from the first container to the end or the first error, with one Create call per ready container on the way |
| RoundReconciler.CreateTask | internal/controller/snapshotpod_controller.go:140-198 | one container: without a status of its name there is an error and no call; a call carries the ID of the first status of its name, which is not empty, and the rendered image; made or there already, an entry with the call's name and image is appended, CREATED |
| RoundReconciler.MakeTask | internal/controller/snapshotpod_controller.go:140-188 | the first of the errors in the source's order ends it; the call is made exactly if status, container ID and image name are there |
| RoundReconciler.FindStatus | internal/controller/snapshotpod_controller.go:140-146 | the first status of that name, or none exactly if no status has it |
| RoundReconciler.CallsBelong | internal/controller/snapshotpod_controller.go:132-175 | the Create calls of a whole loop each carry the ID of a status named like their container |
| RoundReconciler.Validate | internal/controller/snapshotpod_controller.go:95-111 | succeeds exactly if the round is done, or the pod is found and has every target container |
| RoundReconciler.Append | internal/controller/snapshotpod_controller.go:189-202 | append and trim in place keep the dropped entries accounted for |
| RoundReconciler.ReconcileTasksStatus | internal/controller/snapshotpod_controller.go:207-250 | settled entries stay; an entry without its task in the list is CREATED, one with a COMPLETED task SUCCEED, one with a FAILED task FAILED with the messages of the conditions that do not hold; nothing else is touched |
| Rounds.ComplaintsOfBoth | internal/controller/snapshotpod_controller.go:239-245 | the messages are exactly those of the conditions not True, in their order |
| Rounds.JoinMore | internal/controller/snapshotpod_controller.go:246 | they are joined by a comma and a space |
| History.WindowClosedForm | internal/controller/snapshotpod_controller.go:199-202 | after n appends the list is exactly the last L(n) entries, L(n) = n up to 20, then 5 to 20 cyclically |
| History.RoundFits | internal/controller/snapshotpod_controller.go:189-202 | k new entries after r listed ones are all listed when the loop ends exactly if k <= 5, or k <= 20 with no trim or just an early one on the way |
| History.GuardSeesAll | internal/controller/snapshotpod_controller.go:122-128 | looking for the round in the trimmed list is as good as looking in the full history |
| History.NextKeepsWorker | internal/controller/snapshotpod_controller.go:118-250 | every event keeps the history sorted, unique per round and container, and only matured or extended by one new round |
| Coverage.LoopAppends | internal/controller/snapshotpod_controller.go:139-204 | the loop appends one entry per container up to the first error, in order, and nothing else |
| Coverage.RoundStaysListed | internal/controller/snapshotpod_controller.go:139-204 | the same for the worker's loop: what can be counted before it decides whether its round stays listed in full |
| Coverage.EveryContainerUnlessError | internal/controller/snapshotpod_controller.go:139-204 | a new round covers all its containers exactly if none met an error, else exactly those before it |
| Coverage.TraceTold | internal/controller/snapshotpod_controller.go:118-250 | of a whole reconcile, its containers and the answers to its loop decide which entries it adds, and that it adds none unless its round is new |
| Closing.LoopCloses | internal/controller/snapshotpod_controller.go:118-205 | a loop closes its round exactly if its update lands and its first container met no error; it then covers the containers before the first error; if it lands with the first in error, the next reconcile of that version that finds the pod enters the loop again |
| Closing.CoverageIsFinal | internal/controller/snapshotpod_controller.go:122-128 | from the first persisted entry of a round on every version covers the same containers |
| Closing.SkippedForGood | internal/controller/snapshotpod_controller.go:139-204 | after a landed loop every later version, in every continuation, covers exactly the containers before its first error |
| Closing.CoveredExactly | internal/controller/snapshotpod_controller.go:118-205 | in every reachable version a container is covered for a round exactly if an earlier update of a loop of that round landed, under that trigger round, in which it came before the first error |
| Closing.Superseded | internal/controller/snapshotpod_controller.go:118-128 | a round without an entry when the trigger round is raised above it never gets one, whatever is in flight |
| PartialRounds.RestCanBeSkipped | internal/controller/snapshotpod_controller.go:144-149 | for every pod and every k there is a run that covers its first k containers, and no continuation of it ever covers another |
| PartialRounds.RoundCanBeSuperseded | internal/controller/snapshotpod_controller.go:387-390 | a run in which every container has its task, the trigger round is raised before the update, and no continuation has an entry of the round |
| PartialRounds.RoundCutsItself | internal/controller/snapshotpod_controller.go:199-202 | a run in which the first of six containers has its entry but is not listed any more when its own round is persisted |
| Convergence.NextKeepsConds | internal/controller/snapshotpod_controller.go:359-386 | no event duplicates a condition or makes one of a fourth type |
| Convergence.RoundSettles | internal/controller/snapshotpod_controller.go:359-405 | with the round listed and all tasks terminal one reconcile settles every entry, catches up LastTriggerRound, and asks for no requeue |
| Convergence.SettledStays | internal/controller/snapshotpod_controller.go:95-128 | after that no reconcile changes entries or round, or even asks for the pod |
| Convergence.ReplyExactly | internal/controller/snapshotpod_controller.go:387-405 | over any trace of a triggered round: a saved reconcile asks to come back exactly while a listed entry has no outcome or a condition does not hold |
| Convergence.RoundConverges | internal/controller/snapshotpod_controller.go:95-402 | an appending reconcile and one more bring the round to rest, and no reconcile that starts from there changes entries or round |
| Provenance.ExecAccounted | internal/controller/snapshotpod_controller.go:325-390 | in every reachable state each copy and each version is explained by a trace of the worker from the version it is based on |
| Provenance.RestIsForGood | internal/controller/snapshotpod_controller.go:95-128 | in every run all versions after one at rest have its entries, listed and trimmed, and its last round, as long as the trigger round is not raised, stale reconciles included |
| Operator.ExecInv | internal/controller/snapshotpod_controller.go:325-406 | the joint invariant of tasks, versions and in-flight reconciles holds after every interleaving |
| Operator.RefreshBacked | internal/controller/snapshotpod_controller.go:223-247 | folding in any stale version of a task only reports what the task really ended with |
| OperatorTheorems.HistoryDiscipline | internal/controller/snapshotpod_controller.go:119-203 | every persisted history is sorted by round with one entry per round and container, and shows its last L(n) of n entries |
| OperatorTheorems.OneBlockPerRound | internal/controller/snapshotpod_controller.go:122-128 | each round is one block written by one persisted reconcile, and rounds only rise |
| OperatorTheorems.RoundIsClosed | internal/controller/snapshotpod_controller.go:122-128 | once an entry of a round is persisted no version ever adds another |
| OperatorTheorems.EntryTaskAgreement | internal/controller/snapshotpod_controller.go:220-248 | identities never change, results only until settled, RUNNING is never written, SUCCEED means COMPLETED and FAILED means FAILED, whatever lists were read |
| OperatorTheorems.EntriesHaveTheirOwnTasks | internal/controller/snapshotpod_controller.go:164 | different entries of a history never share a task |
| OperatorTheorems.RecoverySafety | internal/webhooks/pod.go:187-202 | the injected image is that of the newest success in the full history; its task is COMPLETED and committed, then pushed, its own image, which is the injected one exactly if the names agree, as for every entry whose task was made with it |
| OperatorTheorems.RequestedRound | internal/webhooks/pod.go:178-186 | a requested round is served from its listed entries, one per container, whatever came of them |
| OperatorTheorems.ConditionsInOrder | internal/controller/snapshotpod_controller.go:359-386 | in every reachable state a SnapshotPod has at most one condition of each of its three types |
| LeftoverTask.InjectedButNeverPushed | internal/controller/snapshotpod_controller.go:185-198 | an interleaving in which the webhook hands out an image that no task ever committed |
| Naming.TaskNameInjective | internal/controller/snapshotpod_controller.go:164 | for one SnapshotPod the task name determines round and container |
| Naming.CollisionExactly | internal/controller/snapshotpod_controller.go:164 | for two SnapshotPods two task names are equal exactly if the longer pod name goes on with the shorter one's round, up to its end or into its container |
| Naming.TaskNamesCollideExactly | internal/controller/snapshotpod_controller.go:164 | with rounds and container names that Kubernetes admits, two SnapshotPods can come to share a task name exactly if one name goes on, where the other ends, with a dash and a round number, up to its end or to a dash and the beginning of a container name |
| Naming.TaskNamesCanCollide | internal/controller/snapshotpod_controller.go:164 | an example of two tasks of one name |
| Recovery.UnstableSortIsHarmless | internal/webhooks/pod.go:187-202 | every descending arrangement gives a container an image exactly if it has a success, and then that of the newest |
| Recovery.SortExists | internal/webhooks/pod.go:188-190 | every list has a descending arrangement |
| Recovery.WindowNewest | internal/controller/snapshotpod_controller.go:199-202 | the newest success in the trimmed list is the newest in the full history |
| Recovery.WindowAgreement | internal/webhooks/pod.go:187-202 | trimming never makes an answer older, and loses one exactly if the newest success was trimmed away |
| Recovery.OfRoundIs | internal/webhooks/pod.go:178-186 | filtering by round maps a container exactly if the round has an entry for it, to that entry's image |
| Webhook.HandlePodCreate | internal/webhooks/pod.go:156-207 | served is the first SnapshotPod whose target is the pod's name or, without a name, whose selector's values are all among its labels, an absent label counting as empty; by round, by last success, or nothing for a negative round; nothing if there is none |
| Webhook.TakeRound | internal/webhooks/pod.go:178-186 | the loop for a requested round, where the last entry of a container wins |
| Webhook.TakeNewest | internal/webhooks/pod.go:187-202 | the loop for the latest success, where the first successful entry of a container wins |
| Webhook.HandlePodUpdate | internal/webhooks/pod.go:124-152 | the same SnapshotPod, if it saves on termination, gets the next round, with int32 wrap-around, as the interleaved system's PodDeleted writes it; nothing is written otherwise |
| Webhook.FindItem | internal/webhooks/pod.go:131-139 | the lookup returns the first item that is for the pod, or none exactly if none is |
| Webhook.OtherLabelNeverServes | internal/webhooks/pod.go:135-138 | a SnapshotPod whose selector asks for another value of one of the pod's labels never serves it |
| Webhook.BuildPatch | internal/webhooks/pod.go:80-111 | the nested loops emit the operations of each name in the order of the walk |
| PatchMeaning.PatchHasOneMeaning | internal/webhooks/pod.go:80-111 | in every order the patch applies exactly if each named container has an image member, and yields the one intended pod (RFC 6902, sections 4.1 and 4.3) |
| PatchMeaning.PatchCanFail | internal/webhooks/pod.go:84-88 | a pod without an image member, on which the patch fails |
| PatchMeaning.PatchIsIdempotent | internal/webhooks/pod.go:80-111 | the webhook at work on its own result changes nothing |
| PatchMeaning.SecretsAreKept | internal/webhooks/pod.go:89-108 | original pull secrets stay in place; a missing one becomes the only one of a pod without any and is else appended once per patched container; one that is there is not added |
| PatchMeaning.AdmissionMeaning | internal/webhooks/pod.go:76-118 | choice and patch together: every named container gets its chosen image |
| EndToEnd.PatchedPodIsVouchedFor | internal/webhooks/pod.go:76-202 | in the patched pod each container starts on the image of its newest success, with a COMPLETED task that committed and pushed as RecoverySafety says; containers without a listed success are untouched |
| EndToEnd.TasksAreRuns | internal/controller/snapshotpodtask_controller.go:177-343 | every task in a run of the whole operator is in the state of a run of its own, of actions that happened to it |
| EndToEnd.InjectedWasPushed | internal/webhooks/pod.go:187-202 | the task behind an injected image had its own image committed and pushed by commands that the runtime answered without an error; that is the injected image exactly if the names agree |
| Template.Confluence | internal/controller/snapshotpod_controller.go:292-294 | an order of replacements yields the meaning of the format exactly if it leaves no placeholder behind |
| Template.OrdersAgree | internal/controller/snapshotpod_controller.go:292-294 | two orders that end without braces end in the same text |
| Walks.ReplaceEffect | internal/controller/snapshotpod_controller.go:292-294 | one replacement removes its key exactly if nothing spells that key any more, and leaves every other key and every pair that waits for another key |
| Walks.WalkFinishes | internal/controller/snapshotpod_controller.go:292-294 | for every format a walk yields the meaning exactly if it comes to each key after the keys that help to spell it, read off one scan of the format |
| FlatFormats.FlatOrderIsSimultaneous | internal/controller/snapshotpod_controller.go:292-294 | without nested braces every order is the simultaneous substitution |
| Renderer.RenderNewImageName | internal/controller/snapshotpod_controller.go:270-311 | the loop that reassigns the format computes the rendering for the order it walks |
| Renderer.LastSegmentIs | internal/controller/snapshotpod_controller.go:285 | the last part of a path has no slash and is the whole path or stands behind a slash |
| Renderer.SuffixExactly | internal/controller/snapshotpod_controller.go:252-268 | the tag is left alone if no suffix is asked for or it has one; "latest" counts as none; else the suffix follows a dash |
| Renderer.RenderedNameIsUnique | internal/controller/snapshotpod_controller.go:270-311 | two walks that both yield an image name yield the same one |
| Renderer.RenderExactly | internal/controller/snapshotpod_controller.go:270-311 | for every format and walk the result is the name of the format's meaning if the walk respects the scan's pairs, and no name otherwise |
| Renderer.WalksDifferExactly | internal/controller/snapshotpod_controller.go:286-311 | two walks can differ exactly if the meaning gives a name and the pairs are there but not in a circle |
| Renderer.NestedOrderMatters | internal/controller/snapshotpod_controller.go:279-294 | for any image tagged "domain" and the format "{{tag}}" the walks that take the tag before the domain yield a name and the others none |
| Renderer.WalksCanDiffer | internal/controller/snapshotpod_controller.go:286-300 | an example with the renderer's four keys and a parser that rejects braces |
| Renderer.FlatRenderIsDetermined | internal/controller/snapshotpod_controller.go:286-311 | for a flat format the walk decides nothing, not even whether there is a name |
| Renderer.SuffixIsNeverStacked | internal/controller/snapshotpod_controller.go:252-268 | over any series of applications the tag function changes nothing after its first suffix |
| Cycles.OneCycle | internal/controller/snapshotpod_controller.go:270-311 | for every format without a digest, every walk, time and random part: the new image's tag is the one the filled-in format reads as, with its suffix |
| Cycles.RenderPieces | internal/controller/snapshotpod_controller.go:270-311 | of a format in pieces, under every walk, the image name is what the filled-in pieces parse as, with the tag's suffix |
| Cycles.RenderLastRepository | internal/controller/snapshotpod_controller.go:285-304 | of an image with path q/s the format f/{last_repository} renders from the text f/s, under every walk |
| Cycles.TailIsRead | internal/controller/snapshotpod_controller.go:292-308 | of a format in pieces, what is filled in after the colon is read as the tag |
| Cycles.TagIsFixedExactly | internal/controller/snapshotpod_controller.go:252-311 | with {tag} in the tag's place, the tag of all images after the first suffixed one, or of all images if no suffix is asked for, is that one's exactly if {tag} stands there alone; else every cycle makes it longer |
| Cycles.TagThroughCycles | internal/controller/snapshotpod_controller.go:252-311 | with text around {tag}, after n cycles the tag is the first suffixed one with that text around it n times |
| Cycles.GrowthExactly | api/v1alpha1/snapshotpod_types.go:49-58 | of such a format, like the documented one, each cycle adds exactly the length of the text around {tag} |
| Cycles.GrowthEnds | internal/controller/snapshotpod_controller.go:305-308 | where tags have a greatest length, a series with anything besides {tag} in the tag's place yields images for no more cycles than the room left |
| Cycles.TagIsRenewed | internal/controller/snapshotpod_controller.go:252-311 | a format that always reads as the same tag gives every image that tag with a suffix of its own, whatever tag came before |
| Cycles.RenewedAgree | internal/controller/snapshotpod_controller.go:252-268 | two such tags agree exactly if the text carries the mark, or both get a suffix of the same time and random part |
| Cycles.FixedTagText | internal/controller/snapshotpod_controller.go:292-304 | a plain text in the tag's place always reads as that text |
| Cycles.UntaggedFormat | config/samples/snapshot-pod_v1alpha1_snapshotpod.yaml:17 | a format that ends in a slash and {last_repository} always reads as the default tag |
| GrowingTag.TagGrows | api/v1alpha1/snapshotpod_types.go:49-58 | with a parser that meets every assumption and a limit of 128 characters, two cycles of a format with text before or after {tag}, and a longer tag after the second |
| GrowingTag.TagChanges | config/samples/snapshot-pod_v1alpha1_snapshotpod.yaml:17 | the same for a format without a tag: two cycles, and a different tag after the second |

## Left out

- os/exec calls, registry login, temporary directories and the best-effort pull: a step body is reduced to the answers it meets (runtime known, timeout parses, image exists, secret found, result of the runtime command).
- Clocks: LastTransitionTime, LastRetryTime, TriggerTime and CompletedAt; only the ten-minute test of the phase switch is kept, as a free set of conditions that are old.
- Requeue delays and the reconcile, duration and push metrics; retry, exhausted and terminal task metrics are kept.
- Deleting tasks or the SnapshotPod, and namespaces: the task list of the source has no namespace, so task names are taken to be unique in the cluster.
- Reference parsing, reference.WithTag, time and random bytes are parameters of the renderer; container IDs are taken as well formed.
- The pod selector's lookup of the running pod is an answer (a pod or an error), not modelled itself.
- Paths of patch operations are structured values, not JSON pointers as text; the admission envelope and the dispatch on the operation are not modelled.
- Which of the descending arrangements sort.Slice picks, and in which order Go walks a map: the theorems hold for every possibility.
- Cron auto-save: declared in the types, implemented nowhere.
- Formats that spell a digest (with an at sign): the library refuses a tag beside a digest, so their images cannot be read again.
