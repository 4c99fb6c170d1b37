# slurm-bridge: a Dafny model

slurm-bridge lets Kubernetes workloads run on nodes that Slurm allocates. A registration
controller submits one held Slurm job (or heterogeneous job) for each workload, a scheduler plugin
tells Slurm which nodes Kubernetes can use and lifts the hold, and once Slurm has chosen nodes, CPU
cores and generic resources, the plugin turns them into Pod placements and device claims. This
project models the parts of that design in which a mistake would be hard to see by reading one
function, and proves what they promise.

`dafny verify dfyconfig.toml` checks the project (Dafny 4.11).

## How the model is laid out

| modules | part of the system |
|---|---|
| `SlurmJob`, `Registration` | registered jobs; submission behind a timed memo of recent submissions |
| `Lifecycle`, `LifecycleLog`, `LifecycleGoals`, `LifecyclePass` | who still needs an allocation; cancelling it and finalizing Pods, told through the log of a pass |
| `Duplicates` | recovery from two live allocations for one workload |
| `EligibilityUpdate`, `HoldRelease`, `ReleaseQueue`, `ReleaseFreshness` | updating and releasing a held allocation; the queue that does it; whether what it sends is still current |
| `UpdateElision` | leaving out updates that repeat the last acknowledged one |
| `Composite` | trees of PodGroups: resolving a root upward, collecting members downward |
| `SmtLayout`, `CpuTopology`, `CpuGeometry`, `CpuInventory`, `NumaCores`, `NumaBinding`, `CpuAllocation` | from CPU devices to abstract cores, and from a core bitmap back to CPUs |
| `Bitmap` | hexadecimal core bitmaps |
| `Constraint`, `SlurmGrammar` | adding a required feature to a constraint expression |
| `NativeAssignments` | which gang member goes on which node |
| `PoolSnapshot`, `NodeInventory`, `CanonicalInventory` | the device inventory of a node |
| `DevicePath`, `GresIndex`, `GresAllocation`, `GresInventory` | Slurm's resource indexes and the devices they stand for |
| `Ordering` | sorting, sets listed in order, string order |

Objects that the program updates in place are classes (`Reconciler`, `Pass`, `Cleaner`, `Attempt`,
`SlurmBridge`, `SlurmControl`), loops are loops, and each is proved against a function or predicate on
values. Runs are sequences of values: `Registration.Run` and `HoldRelease.Run` interleave
every step of the controller or of the scheduler and release threads with what Slurm, the informers
and the clock do; `UpdateElision` runs over every sequence of requests and answers. Whatever the
program learns from outside (replies of Slurm, reads of Kubernetes, map iteration order, time) is a
parameter or an arbitrary choice, so a theorem holds for all of it.

## What the proofs found

- **The cooldown is safe exactly when informer lag plus one reconcile is shorter than it.**
  `Registration.SafeExactly` proves both directions. With the shipped constants (a cooldown of two
  sync periods) and an informer that lags one sync period, a reconcile has to take less than one
  sync period. Equality is not enough: the memo expires at the cooldown, not after it.
- **Elision is sound only because a held allocation's updates leave the priority out.**
  Slurm keeps the hold in the priority, and `ReleaseJob` writes it without telling the cache.
  `UpdateElision.ElisionIsInvisible` needs every release to follow an update without priority, and `WithholdingNeeded` shows
  what breaks otherwise. Every run made of attempts of `updateExternalJob` meets that, so `AttemptsElide` needs no such condition.
- **A release may be based on exclusions that are no longer the last recorded ones.** A work carries the results that were the last
  when it was prepared (`HoldRelease.HeldReleaseSafe`). A cycle that looks at a component again while the progress is being updated
  records its result and returns success; the work is not changed, its attempt sends the earlier exclusions and releases, and
  its success deletes the progress with the newer result (`ReleaseFreshness.SupersededRun`, `SuccessForgets`). The sent exclusions are the
  last recorded ones if and only if the progress still has what the work carries (`CurrentExactly` before the attempt,
  `ReleaseCurrentExactly` at the release, `ReleasedCurrent` over the history), and only such a cycle can make them differ (`SupersededOnly`,
  `SkippedConcurrent`).
- **A lifecycle pass is complete up to what it says it waits for.** It fails exactly if something it needed was refused. Otherwise, unless a recent
  submission blocks it, it asks to be repeated exactly if a job that no cached member needs is not released, a Pod was changed, or a labelled job is not released
  (`LifecyclePass.Pass.ReconcileLifecycle`). What counts for a Pod are the live reads of the release loop: a job that is first seen
  released later in the pass, through a label, releases its other members only in the next pass (`DuePodFinalized`).
- **Exclusions recorded in an earlier cycle replace only empty ones.** `HoldRelease.Filled` states the
  exact condition under which a component is prepared with the recorded exclusions; since a cycle computes
  exclusions for its own component only, that condition holds whenever a work is prepared.
- **A trailing operator is the one way in which composing spoils a constraint that Slurm accepts.** Slurm reads
  `a|`, but not `f&(a|)`. `SlurmGrammar.ComposedValid` is the exact condition, `TrailingOperator` the example.
- **Device paths decode to what was encoded exactly when the driver and the device name have no slash.** Pools may
  have slashes (`DevicePath.DecodeEncode`, `GresIndex.InventoryRoundTrip`); `SlashMoves` is an example.
- **A Slurm index that is listed twice gives one device to two requests.** An index repeated within one request is
  refused, one repeated across two is not. No device goes to two requests if and only if the indexes Slurm lists, as far as requests use
  them, do not repeat (`GresAllocation.DevicesApart`); `RepeatedIndex` is the example.
- **Some errors cannot happen.** "Multiple siblings" in an SMT layout, a device inventory that does not match its core map,
  a device's capacity being exceeded, and CPUs left without a device are all ruled out by earlier checks. The models
  keep those branches and prove that they are dead.

## Assumptions

- *Registration.* Reconciles of one key are serialized; a job reported finished stays finished; a submission that takes
  effect has done so when its call returns; after a restart nothing is submitted before the cache has synced. Only the
  clock relates the informer to Slurm: a list is at most `lag` old, a reconcile takes at most `duration`.
- *Lifecycle.* The cached reads of one pass come from one snapshot, a Pod of unchanged UID and resource version is unchanged, and
  the indexed jobs of a pass have different job IDs (`Registration.IndexedAllocation` provides that). `CancelCoverage`
  compares with Slurm's and Kubernetes' state while the checks ran: what it concludes is about that state. As the comment at
  internal/controller/registration/slurmcontrol/slurmcontrol.go:26-30 says, cancelling a pending heterogeneous job, or component 0 of a running one, ends all of it.
- *Duplicates.* During a pass Slurm's table changes by the pass's own cancels only, and it is keyed by job ID. An acknowledged cancel ends the allocation and a failed one may or may not; a job keeps the allocation it was listed with;
  the components of one allocation record the same owner. The claims about passes are for group keys.
- *Hold and release.* One scheduler thread runs `PostFilter`; whether the allocation of a key is heterogeneous does not change.
  Attempts of one allocation are serialized, so that between an attempt's requests those for its jobs are its own, and Slurm gives new jobs new IDs.
- *Placement.* A snapshot lists a Pod once, the members of a gang have different names, and an allocated node has a name.
- *Generic resources.* Requests for one profile agree on its resource, as the registry maps a profile to one.

## Model

| member | source | states |
|---|---|---|
| `SlurmJob.FromJobInfo` | internal/utils/slurmjob/job.go:26-111 | an accepted job has positive job and allocation IDs, a homogeneous job has offset 0, offset 0 belongs to the leader alone; it is pending exactly if PENDING is among its states, held exactly if its priority is then the number 0, and finished exactly if none of PENDING, RUNNING and SUSPENDED is and some state other than COMPLETING is |
| `SlurmJob.DecodesIdentity` | internal/utils/slurmjob/job.go:50-92 | a record without a heterogeneous ID is homogeneous; one with it is accepted exactly when its numbers carry values that fit together, and decodes to them |
| `Registration.IndexedAllocation` | internal/utils/slurmjob/allocation.go:48-99 | fails exactly when a candidate is malformed or the first record of a job has unreadable ownership; otherwise each job is listed once whatever index it came from, and a conflict is reported exactly when two unfinished jobs belong to different allocations |
| `Registration.IndexedRecords` | internal/utils/slurmjob/allocation.go:48-99 | the same for the records of the informer, which decode to positive allocation IDs |
| `Registration.Reconciler.Register` | internal/controller/registration/registration.go:36-96 | a job is submitted if and only if every known job is finished, the workload is ready, every member is ours, unbound, not deleting and not terminal, and no unexpired memo stands but one that names a known allocation; an unfinished job and a refused submission clear the memo, any other submission sets it to the returned ID, and otherwise nothing changes |
| `Registration.RegisterIsSteps` | internal/controller/registration/registration.go:50-96 | each outcome of a registration is made of steps of the protocol that the theorems below are about |
| `Registration.SubmissionsEligible` | internal/controller/registration/registration.go:40-50 | in every run, each allocation that Slurm commits comes from a call whose members could all still be scheduled and whose known jobs were all finished |
| `Registration.EveryReply` | internal/controller/registration/registration.go:73-78 | runs in which a submission is refused, accepted with its ID, and accepted with the ID lost |
| `Registration.StepKeepsInv` | internal/controller/registration/controller.go:128-157 | every step of reconciler, informer, Slurm, clock and restart keeps the protocol's invariant if lag plus one reconcile is shorter than the cooldown |
| `Registration.CallIsInformed` | internal/controller/registration/registration.go:25-27 | when a submission is allowed, the list it is based on already contains the newest allocation, even one whose response was lost |
| `Registration.RunKeepsInv` | internal/controller/registration/registration.go:50-96 | the invariant holds at every state of every run |
| `Registration.AtMostOneAllocation` | internal/controller/registration/registration.go:25-96 | in every reachable state at most one allocation of a key is unfinished in Slurm, and no list the reconciler acts on shows two |
| `Registration.FirstSubmission` | internal/controller/registration/registration.go:50-96 | a run exists that submits an allocation whose response is lost, so the invariant is not empty |
| `Registration.ShortCooldownIsUnsafe` | internal/controller/registration/registration.go:25-27 | if lag plus one reconcile reaches the cooldown, a run ends with two unfinished allocations of one key |
| `Registration.SafeExactly` | internal/controller/registration/registration.go:25-96 | the protocol keeps a single allocation in all runs if and only if lag plus one reconcile is shorter than the cooldown |
| `Registration.ShippedConstants` | internal/controller/registration/registration.go:27 | with a cooldown of two sync periods and a lag of one, that is: a reconcile shorter than one sync period |
| `Lifecycle.PodsOfRecord` | internal/controller/registration/lifecycle.go:66-98 | a recorded Pod stands for itself if its UID still matches, and in records without a group also for its current group; it fails exactly when reading the Pod, its root or that group does |
| `Lifecycle.ComponentMembers` | internal/controller/registration/lifecycle.go:49-115 | the members of a component are exactly our Pods of its recorded group, of its recorded Pods, and those labelled with the job that still need it, once for each identity; it fails exactly when one of the reads this takes does |
| `LifecyclePass.Pass.LiveJob` | internal/controller/registration/lifecycle.go:141-154 | a live read returns the job asked for or nothing: a record under another ID is an error |
| `LifecyclePass.Pass.LiveReleased` | internal/controller/registration/lifecycle.go:156-161 | released means absent, or finished and not COMPLETING; an unreadable job and a malformed record are errors |
| `LifecyclePass.Pass.LiveMembersReleasable` | internal/controller/registration/lifecycle.go:182-185 | the answer is exactly whether all live members have ended, or were deleted before they were bound, or a LeaderWorkerSet member has; it fails exactly when reading them does |
| `LifecyclePass.Pass.SiblingsReleasable` | internal/controller/registration/lifecycle.go:186-208 | releasable only if the members of every live record of the heterogeneous job were read as releasable, not releasable only if those of one were read as not, and an error exactly if a read failed or a record is malformed |
| `LifecyclePass.Pass.CheckRelease` | internal/controller/registration/lifecycle.go:163-213 | before a cancel there are only reads; released exactly if the live read says so, an error exactly if something read is one, a cancel only with its justification in the log, and otherwise the reads show who holds the job |
| `LifecyclePass.Pass.CheckMembers` | internal/controller/registration/lifecycle.go:182-213 | the same for the members and siblings of a component that is still live and still ours |
| `LifecyclePass.Pass.EndJob` | internal/controller/registration/lifecycle.go:209-223 | one cancel and, if it is acknowledged, one live read that decides |
| `LifecyclePass.Pass.ReleaseComponent` | internal/controller/registration/lifecycle.go:163-223 | released if and only if a live read in this call said so; fails exactly if a read or the cancel did; without a failure the job had ended, is held by members that were read, or was canceled, and each cancel is justified by the reads before it |
| `LifecyclePass.Pass.DeleteClaims` | internal/controller/registration/pod_sync.go:118-136 | success means each listed claim was deleted, failure that a deletion failed |
| `LifecyclePass.Pass.DeletePodClaims` | internal/controller/registration/pod_sync.go:118-156 | success means both the labelled claims the Pod owns and the one its status names were looked up and each one found was deleted; failure that a lookup or deletion failed |
| `LifecyclePass.Pass.CleanUp` | internal/controller/registration/pod_sync.go:116-176 | the finalizer is removed last, and only after every claim found is deleted; success leaves neither |
| `LifecyclePass.Pass.PrepareTerminalPod` | internal/controller/registration/pod_sync.go:93-178 | only the Pod of the expected UID and resource version is touched, and only if it has ended; success leaves it gone, or without claims and finalizer; failure means that a read, a deletion or the patch failed |
| `LifecyclePass.Pass.ReleaseJob` | internal/controller/registration/lifecycle.go:254-277 | a job is counted as released if and only if it was read live as released, or is finished in the cache and no cached member has the finalizer; a release is tried exactly if the cache does not settle it and the job is finished or no cached member needs it; the pass waits exactly for a job no cached member needs that is not released |
| `LifecyclePass.Pass.ReleaseJobs` | internal/controller/registration/lifecycle.go:247-277 | after the first loop exactly the given and the cached Pods are gathered, each associated with exactly its jobs; exactly the jobs with a ground count as released, every job had its turn, and the pass waits exactly for those still awaited |
| `LifecyclePass.Pass.FinalizeMember` | internal/controller/registration/lifecycle.go:278-328 | a Pod that has ended is cleaned up exactly when its jobs are released and the job on its label is; another is synced unless gated; the pass waits exactly if a sync changed the Pod or the labelled job is not released, and fails exactly if a read, deletion, sync or patch did |
| `LifecyclePass.Pass.SyncPod` | internal/controller/registration/lifecycle.go:283-297 | a sync is recorded with whether it changed the Pod, or as a failure |
| `LifecyclePass.Pass.FinalizeMembers` | internal/controller/registration/lifecycle.go:278-330 | the same for all members, in any order: each event has its ground and no member is forgotten |
| `LifecyclePass.Pass.MemoAllowsCleanup` | internal/controller/registration/lifecycle.go:226-246 | cleanup may go on if and only if there is no recent submission, or its known allocation was read live as released |
| `LifecyclePass.Pass.ReconcileLifecycle` | internal/controller/registration/lifecycle.go:225-330 | over a whole pass: it fails exactly if a named read, cancel, claim deletion, sync or patch failed; a memo that is not cleared blocks it; otherwise every job had its release and every Pod its cleanup or sync, it asks to be repeated exactly if a job no cached member needs is not released, a Pod was changed or a labelled job is not released, and if it does not, every ended Pod with the finalizer whose jobs are released has lost it or is gone; every cancel, claim deletion, finalizer removal and sync is justified by what the pass read before |
| `LifecycleGoals.FinalizedJobs` | internal/controller/registration/lifecycle.go:254-330 | for a Pod that has the finalizer, the cached "finished" shortcut never replaces the live read |
| `LifecycleGoals.FinalizedPass` | internal/controller/registration/lifecycle.go:225-330 | each event of the second loop is one the pass may make: claims are deleted only for an ended Pod of ours all of whose jobs count as released, and its finalizer only goes after live reads showed each of them released |
| `LifecycleGoals.SafeMeans` | internal/controller/registration/lifecycle.go:299-308 | the sets kept by the two loops call a Pod safe if and only if each job it is a cached member of counts as released |
| `LifecycleGoals.PassEnds` | internal/controller/registration/lifecycle.go:278-330 | a pass whose loops met no failure has done its duty for every job and Pod |
| `LifecyclePass.DuePodFinalized` | internal/controller/registration/lifecycle.go:278-330 | a pass that neither failed nor waits has finalized every ended Pod of ours with the finalizer each of whose jobs was seen released or has no cached member that needs it |
| `LifecyclePass.CancelHappens` | internal/controller/registration/lifecycle.go:163-223 | an unfinished component that no member in the cache or in a live view needs, nor one of a sibling, is canceled in a pass without failure, unless its live read shows that it has ended |
| `LifecyclePass.CancelCoverage` | internal/controller/registration/lifecycle.go:163-223 | each component that a cancel ends, pending or running, leader or not, has only releasable live members |
| `Duplicates.GroupModern` | internal/controller/registration/duplicates.go:27-69 | modern records are listed under their group, which also claims their Pods with and without UIDs |
| `Duplicates.GroupAllocations` | internal/controller/registration/duplicates.go:27-87 | every active record is listed under its allocation and exactly the keys it belongs to |
| `Duplicates.LegacyNeverMerges` | internal/controller/registration/duplicates.go:70-85 | no record is under two groups, and a legacy record whose Pods belong to several groups is under none |
| `Duplicates.LegacyJoins` | internal/controller/registration/duplicates.go:46-85 | a record from before groups were recorded sits under the one group that unfinished PodGroup records tie to its Pods, with or without UID; tied to none it stands for its own Pods |
| `Duplicates.SurvivorUnique` | internal/controller/registration/duplicates.go:160-192 | the survivor is one allocation of the pool and depends on the pool alone |
| `Duplicates.SurvivorSigns` | internal/controller/registration/duplicates.go:160-192 | what the survivor is, in terms of the states and priorities of the records |
| `Duplicates.ScanComponents` | internal/controller/registration/duplicates.go:167-183 | an allocation counts as started, or as released, exactly when one of its components is |
| `Duplicates.ProgressMinima` | internal/controller/registration/duplicates.go:161-184 | for any map iteration order the running minima are the least started, least released and least ID |
| `Duplicates.SurvivingAllocation` | internal/controller/registration/duplicates.go:160-192 | the lowest allocation with a running, suspended or completing record; if there is none the lowest with a pending record that is not held, and else the lowest; it fails exactly if a record is malformed |
| `Duplicates.Cleaner.Cancel` | internal/controller/registration/duplicates.go:151-155 | a cancel touches no other allocation, and an acknowledged one ends its own |
| `Duplicates.Cleaner.ReadLive` | internal/controller/registration/duplicates.go:120-136 | succeeds exactly if every listed record can be read, and then has the live records behind all of them |
| `Duplicates.Cleaner.CleanAllocationConflict` | internal/controller/registration/duplicates.go:120-158 | for one key all but the survivor of its live conflict are ended and nothing else is touched; an unreadable record stops it before anything is changed, and it fails only then or if a cancel it sent was not acknowledged |
| `Duplicates.Cleaner.CancelOthers` | internal/controller/registration/duplicates.go:146-157 | every active allocation but the kept one is ended, those ended for another key are not canceled again, and exactly what was ended is remembered |
| `Duplicates.Cleaner.CleanDuplicateAllocations` | internal/controller/registration/duplicates.go:102-118 | after a pass each group key has kept the survivor of its live allocations unchanged and, without a failure, no other; nothing outside the listed allocations of the keys is touched; it fails only if a cancel is not acknowledged or a record of a key with a conflict cannot be read |
| `Duplicates.KeysDisjoint` | internal/controller/registration/duplicates.go:27-87 | different keys, one of them a group, never list the same allocation |
| `Duplicates.RecoveredKey` | internal/controller/registration/duplicates.go:102-158 | recovering one key leaves what was settled for the others |
| `Duplicates.NeverNone` | internal/controller/registration/duplicates.go:102-192 | the outcome of a pass never takes a pool of active records to none, and without a failure leaves one allocation of it |
| `Duplicates.PassLeavesOne` | internal/controller/registration/duplicates.go:102-192 | so a pass over a group key with a live active allocation leaves it at least one, and exactly one if no read or cancel failed |
| `Duplicates.StartedKept` | internal/controller/registration/duplicates.go:102-192 | if an allocation of the key has a running, suspended or completing record, the pass leaves one with such a record as it was, and without a failure no other: none ends in favour of one that never started |
| `Duplicates.ReleasedKept` | internal/controller/registration/duplicates.go:102-192 | if none has started and one has a pending record that is not held, the same for such a record |
| `EligibilityUpdate.Plan` | internal/scheduler/plugins/slurmbridge/slurmbridge.go:965-1001 | the order of an attempt: a release comes only for a held allocation, after all updates, directly after a check of the same component |
| `EligibilityUpdate.ReleaseGuarded` | internal/scheduler/plugins/slurmbridge/slurmbridge.go:965-1001 | before any release in an attempt, the update of each component with its priority withheld was acknowledged, and the pinned IDs were checked again for this component |
| `EligibilityUpdate.EverythingServed` | internal/scheduler/plugins/slurmbridge/slurmbridge.go:965-1001 | a complete attempt has every component's update acknowledged and, if held, its release |
| `EligibilityUpdate.EverythingSent` | internal/scheduler/plugins/slurmbridge/slurmbridge.go:972-979 | no update of a held allocation carries a priority, and no other allocation is released |
| `EligibilityUpdate.Attempt.CheckAllocation` | internal/scheduler/plugins/slurmbridge/allocation.go:21-73 | each lookup is judged against the pinned IDs; the first acceptable one pins, later ones never change the pin |
| `EligibilityUpdate.Attempt.CheckJobs` | internal/scheduler/plugins/slurmbridge/allocation.go:39-73 | success if and only if there are as many jobs as components, with the pinned IDs, every unfinished one the label of all its Pods, and the component's own job the label asked for and not finished; an error exactly if the lookup failed |
| `EligibilityUpdate.Attempt.UpdateComponent` | internal/scheduler/plugins/slurmbridge/slurmbridge.go:970-985 | one update with the component's exclusions, and its priority exactly if the allocation is not held; the component is put back as it was; "not pending" is unschedulable and any other failure an error |
| `EligibilityUpdate.Attempt.ReleaseComponent` | internal/scheduler/plugins/slurmbridge/slurmbridge.go:995-998 | the release goes to the pinned job of the component, with the component's priority |
| `EligibilityUpdate.Attempt.UpdateExternalJob` | internal/scheduler/plugins/slurmbridge/slurmbridge.go:965-1001 | an attempt follows the plan up to its first failure; success means that every component's update was acknowledged, with its exclusions and with its priority if and only if the allocation is not held, and that a held allocation's components were all released with their priorities; nothing else is ever sent |
| `EligibilityUpdate.Attempt.UpdateAll` | internal/scheduler/plugins/slurmbridge/slurmbridge.go:969-986 | success means each component was updated, failure that the attempt ended there |
| `EligibilityUpdate.Attempt.ReleaseAll` | internal/scheduler/plugins/slurmbridge/slurmbridge.go:990-1000 | components are released in order, each after its own check |
| `HoldRelease.Filled` | internal/scheduler/plugins/slurmbridge/slurmbridge.go:197-212 | recorded exclusions are sent if and only if the cycle's own are empty or the same |
| `HoldRelease.RecordComponent` | internal/scheduler/plugins/slurmbridge/slurmbridge.go:197-212 | the component's exclusions are recorded, and the workload is complete exactly when every component has a record, which is then filled in |
| `HoldRelease.NextKeeps` | internal/scheduler/plugins/slurmbridge/release.go:46-141 | every step of the scheduler thread, the release queue and its worker keeps the invariant |
| `HoldRelease.ReachableInv` | internal/scheduler/plugins/slurmbridge/slurmbridge.go:694-741 | the invariant holds in every reachable state |
| `HoldRelease.QueueAccounted` | internal/scheduler/plugins/slurmbridge/release.go:46-141 | the outstanding count is always the number of queued and running works, and each queued work has an event that will wake it |
| `HoldRelease.UpdatingHasWork` | internal/scheduler/plugins/slurmbridge/release.go:46-141 | a pending progress marked as updating always has a live work that will clear the mark |
| `HoldRelease.UpdatingLeavesOnly` | internal/scheduler/plugins/slurmbridge/slurmbridge.go:699-741 | such a progress leaves only because its allocation started or its release succeeded, never by the timeout |
| `HoldRelease.WorkNotLost` | internal/scheduler/plugins/slurmbridge/release.go:93-141 | that work is never dropped or replaced while the mark stands |
| `HoldRelease.AttemptsBounded` | internal/scheduler/plugins/slurmbridge/release.go:93-128 | a work is attempted at most maxReleaseAttempts times in any run, and a live one has attempts left |
| `HoldRelease.RetryQueued` | internal/scheduler/plugins/slurmbridge/release.go:114-127 | after a failure with attempts left, for any key, the key is queued: the same work with one more attempt unless a newer one was queued, which then stays |
| `HoldRelease.PreparedNotForgotten` | internal/scheduler/plugins/slurmbridge/release.go:93-128 | in every run a prepared work stays queued, running or about to be queued until an attempt of it succeeds, finds the allocation changed or is the fifth, or another work of its key is prepared after it |
| `HoldRelease.HeldReleaseSafe` | internal/scheduler/plugins/slurmbridge/slurmbridge.go:694-741 | in every run, a release of a heterogeneous allocation belongs to a work prepared when each component had a feasibility result; the work carries the results that were the last then and knew of the hold, and all updates with those exclusions were acknowledged and the pinned IDs checked in the same attempt |
| `ReleaseFreshness.CurrentExactly` | internal/scheduler/plugins/slurmbridge/slurmbridge.go:694-741 | before an attempt, a work carries the last recorded exclusions of every component if and only if they equal those in its progress, which the scheduler could compare |
| `ReleaseFreshness.SupersededOnly` | internal/scheduler/plugins/slurmbridge/slurmbridge.go:712-727 | a current work ceases to be current if and only if a cycle gets another result for one of its components |
| `ReleaseFreshness.SkippedConcurrent` | internal/scheduler/plugins/slurmbridge/slurmbridge.go:712-727 | such a cycle finds the progress being updated: it records its result and queues nothing |
| `ReleaseFreshness.StaysCurrent` | internal/scheduler/plugins/slurmbridge/slurmbridge.go:694-741 | over any stretch of a run without such a cycle a current work stays current |
| `ReleaseFreshness.ReleaseCurrentExactly` | internal/scheduler/plugins/slurmbridge/release.go:93-128 | when an attempt releases a component, every component was updated with its last recorded exclusions if and only if the progress still has what the work carries |
| `ReleaseFreshness.ReleasedCurrent` | internal/scheduler/plugins/slurmbridge/slurmbridge.go:965-1001 | for every release in every run: the exclusions sent were the last recorded ones if and only if no result recorded since the preparation differs |
| `ReleaseFreshness.SuccessForgets` | internal/scheduler/plugins/slurmbridge/release.go:130-141 | after a successful release no progress and no work of the key is left, so a result recorded meanwhile is lost |
| `ReleaseFreshness.SupersededRun` | internal/scheduler/plugins/slurmbridge/slurmbridge.go:722-727 | a run that releases with exclusions that are no longer the last recorded ones, and forgets those |
| `ReleaseQueue.SlurmBridge.EvictStale` | internal/scheduler/plugins/slurmbridge/slurmbridge.go:702-706 | exactly the progress that is not being updated and older than 300 seconds is dropped |
| `ReleaseQueue.SlurmBridge.FindProgress` | internal/scheduler/plugins/slurmbridge/slurmbridge.go:699-711 | the key's progress is found after eviction, or made new |
| `ReleaseQueue.SlurmBridge.NoteFeasibility` | internal/scheduler/plugins/slurmbridge/slurmbridge.go:699-720 | refines `HoldRelease.Note`; the workload is complete exactly if each component is recorded, and is then filled in |
| `ReleaseQueue.SlurmBridge.RecordFeasibility` | internal/scheduler/plugins/slurmbridge/slurmbridge.go:694-732 | refines the step `HoldRelease.Record`, in place; the component is recorded with the hold and the time, a work is queued only for a complete workload, and a workload with a component not seen yet is unprocessed |
| `ReleaseQueue.SlurmBridge.PrepareWork` | internal/scheduler/plugins/slurmbridge/slurmbridge.go:729-736 | the progress is marked and the work carries its hold |
| `ReleaseQueue.SlurmBridge.QueueRelease` | internal/scheduler/plugins/slurmbridge/release.go:46-59 | refines `HoldRelease.ReleaseHold`: a newer work replaces a queued one without being counted twice |
| `ReleaseQueue.SlurmBridge.TakeRelease` | internal/scheduler/plugins/slurmbridge/release.go:93-100 | refines `HoldRelease.TakeWork` |
| `ReleaseQueue.SlurmBridge.FinishRelease` | internal/scheduler/plugins/slurmbridge/release.go:129-141 | the mark is cleared on the work's own progress, and the progress is dropped only after success |
| `ReleaseQueue.SlurmBridge.ReconcileRelease` | internal/scheduler/plugins/slurmbridge/release.go:93-128 | refines `HoldRelease.FinishWork`: a failure with attempts left is put back with one more attempt unless a newer work waits, and the queue is told; any end clears the mark, and only a success forgets the progress |
| `UpdateElision.BuildJobUpdate` | internal/scheduler/plugins/slurmbridge/slurmcontrol/slurmcontrol.go:345-413 | exclusions are always part of an update, also when empty; the priority only if given; nothing else is added |
| `UpdateElision.RunInv` | internal/scheduler/plugins/slurmbridge/slurmcontrol/slurmcontrol.go:201-254 | in every run a remembered description is the latest one sent, and sending it again would change nothing |
| `UpdateElision.RepeatElided` | internal/scheduler/plugins/slurmbridge/slurmcontrol/slurmcontrol.go:239-251 | in every run an acknowledged description is not sent again until another one is or the job is forgotten or deleted: the repeated update changes nothing, whatever Slurm would have answered |
| `UpdateElision.ElisionIsInvisible` | internal/scheduler/plugins/slurmbridge/slurmcontrol/slurmcontrol.go:201-254 | over every run of updates, lost replies, releases, forgotten entries and deletions in which releases follow updates without priority, Slurm's records are those of always sending |
| `UpdateElision.ReleaseExact` | internal/scheduler/plugins/slurmbridge/slurmcontrol/slurmcontrol.go:287-300 | after a release, leaving out the remembered update is right if and only if that update sets no priority, or the one the job now has |
| `UpdateElision.WithholdingNeeded` | internal/scheduler/plugins/slurmbridge/slurmbridge.go:972-979 | releasing a job whose remembered update set another priority makes the records part |
| `UpdateElision.LatestWithheld` | internal/scheduler/plugins/slurmbridge/slurmbridge.go:965-1001 | after an attempt on a held allocation updated a job, the job's latest description has no priority, whatever was sent in between for other jobs |
| `UpdateElision.AttemptWithholds` | internal/scheduler/plugins/slurmbridge/slurmbridge.go:965-1001 | every release that an attempt issues meets what the elision needs |
| `UpdateElision.AttemptsDisciplined` | internal/scheduler/plugins/slurmbridge/slurmbridge.go:965-1001 | in a run of any number of attempts, one after the other or interleaved on different jobs, all releases do |
| `UpdateElision.AttemptsElide` | internal/scheduler/plugins/slurmbridge/slurmcontrol/slurmcontrol.go:201-254 | so in every run in which only attempts release and Slurm gives new jobs new IDs, Slurm's records are those of always sending |
| `UpdateElision.Fetched` | internal/scheduler/plugins/slurmbridge/slurmcontrol/slurmcontrol.go:145-185 | a job is returned only if it is the one asked for, active and well formed, and "no job" only if it is gone or ended |
| `UpdateElision.SlurmControl.Send` | internal/scheduler/plugins/slurmbridge/slurmcontrol/slurmcontrol.go:245-251 | a request changes the record unless refused, and only an acknowledgement is success |
| `UpdateElision.SlurmControl.UpdateJob` | internal/scheduler/plugins/slurmbridge/slurmcontrol/slurmcontrol.go:201-254 | refines the cached step: an unusable label or description changes nothing, a remembered description succeeds without a request, an acknowledged one is remembered, and a failed one is not |
| `UpdateElision.SlurmControl.ReleaseJob` | internal/scheduler/plugins/slurmbridge/slurmcontrol/slurmcontrol.go:287-300 | refines the release step: after full acknowledgement a known job has the given priority, or is just no longer held if none was given, and nothing else changes; the remembered update stays |
| `UpdateElision.SlurmControl.GetJob` | internal/scheduler/plugins/slurmbridge/slurmcontrol/slurmcontrol.go:145-185 | returns that, and forgets the description unless the job is pending, also after an error |
| `UpdateElision.SlurmControl.DeleteJob` | internal/scheduler/plugins/slurmbridge/slurmcontrol/slurmcontrol.go:108-137 | the leader's description is forgotten, also if the request fails; a failed deletion counts as done exactly if the Pod's own job is gone, canceled or completed |
| `Composite.ShortWay` | internal/utils/slurmjobir/composite_podgroup.go:261-279 | whatever lies above is reached within as many steps as there are groups, even if parents form a cycle |
| `Composite.TraverseParentChain` | internal/utils/slurmjobir/composite_podgroup.go:261-279 | the bounded walk finds the target if and only if it lies above through gangs; its bound loses nothing and it ends on cycles |
| `Composite.RootName` | internal/utils/slurmjobir/workload_api.go:297-317 | resolution succeeds if and only if the walk ends within the depth limit on readable groups, and then returns the last gang below a basic boundary or the top |
| `Composite.ResolvedIsRoot` | internal/utils/slurmjobir/workload_api.go:297-317 | the resolved name is a root of an allocation and lies above the group |
| `Composite.RootsApart` | internal/utils/slurmjobir/composite_podgroup.go:200-279 | no group lies below two roots |
| `Composite.MembershipAgrees` | internal/utils/slurmjobir/composite_podgroup.go:200-279 | for a root and a parent that resolves, the group lies below the root if and only if it resolves to it |
| `Composite.FromCompositePodGroup` | internal/utils/slurmjobir/composite_podgroup.go:200-259 | translation succeeds if and only if the root is readable and supported, both lists can be read, and the Pods of each member can be and each member with Pods translates; the components are then exactly those of the members with Pods, in list order |
| `Composite.AllocationsDisjoint` | internal/utils/slurmjobir/composite_podgroup.go:200-279 | no PodGroup is a member of the allocations of two roots |
| `SmtLayout.LowerIsGreedy` | internal/nodeinfo/cpuinfo.go:239-254 | any split of a CPU set into pairs at the stride has the lower CPUs that the greedy pass picks |
| `SmtLayout.PairingUnique` | internal/nodeinfo/cpuinfo.go:239-254 | there is at most one such split |
| `SmtLayout.GreedyDecides` | internal/nodeinfo/cpuinfo.go:239-254 | a set splits into pairs if and only if the greedy pass gives each CPU a partner |
| `SmtLayout.Paired` | internal/nodeinfo/cpuinfo.go:239-254 | the loop accepts exactly those sets and adds the pairs to the map, keeping earlier atoms; "multiple siblings" cannot occur |
| `SmtLayout.DecodeAtom` | internal/nodeinfo/cpuinfo.go:221-254 | an atom is accepted if and only if its CPUs are new, its stride is positive and its CPUs split into pairs |
| `SmtLayout.DecodeLayout` | internal/nodeinfo/cpuinfo.go:216-260 | a layout is accepted if and only if its atoms share no CPU, each is acceptable and the whole is within the size limit; the map has exactly their siblings |
| `SmtLayout.SiblingsMutual` | internal/nodeinfo/cpuinfo.go:216-260 | in a decoded layout siblings are mutual and no CPU is its own |
| `CpuTopology.CoreIsSiblingPair` | internal/nodeinfo/cpuinfo.go:144-157 | two allocatable CPUs get the same core ID if and only if they are siblings |
| `CpuTopology.CoreIsLowest` | internal/nodeinfo/cpuinfo.go:144-157 | a core's ID is its lowest allocatable CPU, also when its other thread is reserved |
| `CpuTopology.CoreNamesDevice` | internal/nodeinfo/cpumap.go:116-124 | CPUs with equal core IDs are of one device, so ignoring the NUMA node when collecting siblings merges nothing across devices |
| `CpuTopology.FindCoreSiblings` | internal/nodeinfo/cpumap.go:116-124 | the siblings found are the CPUs of that core |
| `CpuTopology.ListCores` | internal/nodeinfo/cpumap.go:86-99 | walking the sorted CPUs lists each core once, in order of socket, NUMA node and core |
| `CpuTopology.NewCPUMap` | internal/nodeinfo/cpumap.go:69-114 | abstract core k is the k-th core in that order with all its CPUs, and both directions of the map agree |
| `CpuTopology.Invert` | internal/nodeinfo/cpumap.go:101-106 | each CPU is mapped back to the one abstract core that has it |
| `CpuGeometry.CountCores` | internal/nodeinfo/fingerprint.go:20-34 | the first loop succeeds exactly when all cores have as many threads, and counts the cores of each group |
| `CpuGeometry.Geometry` | internal/nodeinfo/fingerprint.go:20-51 | a geometry exists if and only if all cores have as many threads and all devices as many cores, and it is those numbers; the mismatch error cannot occur |
| `CpuGeometry.EqualBlocks` | internal/nodeinfo/fingerprint.go:20-51 | sorted cores with c in each group are consecutive blocks of c |
| `CpuInventory.NewCPUInfos` | internal/nodeinfo/cpuinfo.go:93-160 | a device is accepted if and only if it can be shared, has as much capacity as CPUs, and its layout has all of them, unpaired if SMT is off; it yields one record for each |
| `CpuInventory.DecodedCores` | internal/nodeinfo/cpuinfo.go:93-160 | with a decoded layout, two CPUs of a device share a core if and only if they are siblings, and the core has the ID of the lower one |
| `CpuInventory.FileDevices` | internal/nodeinfo/nodeinfo.go:46-70 | the device loop succeeds exactly when the devices are well formed and share no name, group or CPU |
| `CpuInventory.ValidateCPUDeviceGroups` | internal/nodeinfo/nodeinfo.go:123-141 | groups are accepted exactly when all are sockets or all are NUMA nodes, and no NUMA node is in two sockets |
| `CpuInventory.CheckSiblings` | internal/nodeinfo/nodeinfo.go:82-95 | no CPU's sibling may be allocatable in another device |
| `CpuInventory.NewNodeInfo` | internal/nodeinfo/nodeinfo.go:35-99 | an inventory is accepted if and only if devices are well formed and apart and cores, groups and siblings are uniform; it then has a sound device table and core map |
| `NumaCores.SortedCPUDeviceNames` | internal/nodeinfo/nodeinfo.go:143-152 | each device once, ordered by socket and NUMA node |
| `NumaCores.DeviceBlocks` | internal/nodeinfo/nodeinfo.go:143-185 | with geometry (s, c, t) there are s*c abstract cores, and the k-th device owns exactly cores k*c up to (k+1)*c |
| `NumaCores.ToMachineCPUs` | internal/nodeinfo/cpumap.go:57-67 | all CPUs of the set cores; bits beyond the map are ignored |
| `NumaCores.ToAbstractCPUs` | internal/nodeinfo/cpumap.go:44-55 | a core is set exactly when one of its CPUs is in the set |
| `NumaCores.MachineThenAbstract` | internal/nodeinfo/cpumap.go:44-67 | bitmap to CPUs and back gives the same bits |
| `NumaCores.AbstractThenMachine` | internal/nodeinfo/cpumap.go:44-67 | CPUs to bitmap and back is the smallest union of whole cores that contains them |
| `NumaCores.MachineCount` | internal/nodeinfo/cpumap.go:57-67 | an in-range bitmap names set bits times threads CPUs |
| `NumaCores.CpuCount` | internal/nodeinfo/fingerprint.go:20-51 | there are s*c*t CPUs |
| `NumaBinding.DeviceCores` | internal/nodeinfo/nodeinfo.go:167-183 | the cores of one device, each once, ascending |
| `NumaBinding.CoresAreBlock` | internal/nodeinfo/nodeinfo.go:154-185 | the cores of the k-th device are the k-th block |
| `NumaBinding.NUMACores` | internal/nodeinfo/nodeinfo.go:154-185 | nothing unless the devices are NUMA nodes, and then block k for the k-th device's node |
| `NumaBinding.BindCores` | internal/dra/gres.go:87-108 | a device is bound exactly when its nodes have cores that form one range, and to that range |
| `NumaBinding.OneNodeBound` | internal/dra/gres.go:87-108 | a device with a single CPU-bearing NUMA node is always bound, to that node's block |
| `CpuAllocation.ItoaInjective` | internal/nodeinfo/allocation.go:140-147 | decimal numerals of different numbers differ |
| `CpuAllocation.RequestsDistinct` | internal/nodeinfo/allocation.go:140-147 | different groups of an accepted inventory have different request names |
| `CpuAllocation.SharesConserve` | internal/nodeinfo/allocation.go:83-138 | the shares partition the allocated CPUs by device, their capacities sum to the CPU count, and their requests differ |
| `CpuAllocation.ShareOut` | internal/nodeinfo/allocation.go:83-138 | sharing succeeds if and only if the device class accepts each touched device; capacity and leftover errors cannot occur |
| `CpuAllocation.TakeShares` | internal/nodeinfo/allocation.go:85-133 | the device loop takes from each device exactly its part of the CPUs |
| `CpuAllocation.AllocateCPUs` | internal/nodeinfo/allocation.go:34-138 | an allocation exists if and only if bitmap, identity and an unconfigured class are given, the geometry is the reported one, the numeral is valid and names cores in range, at least one, and the class accepts the devices; it then conserves the CPUs the numeral names: set bits times threads |
| `CpuAllocation.AllocateBits` | internal/nodeinfo/allocation.go:58-138 | the same from the bits on |
| `CpuAllocation.DenotedBits` | internal/utils/bitmaputil/bitmaputil.go:25-46 | the bits of a parsed bitmap are those of the numeral |
| `CpuAllocation.SameAllocation` | internal/utils/bitmaputil/bitmaputil.go:25-68 | a bitmap that was written and read back names the same CPUs |
| `CpuAllocation.AcceptedReady` | internal/nodeinfo/nodeinfo.go:35-99 | every inventory that was accepted has a geometry and meets what CPU allocation relies on |
| `CpuAllocation.ShapeUnique` | internal/nodeinfo/fingerprint.go:20-51 | a node with devices has one geometry |
| `Bitmap.DecodeHex` | internal/utils/bitmaputil/bitmaputil.go:26-37 | exactly the hexadecimal strings decode, a byte for each pair of digits |
| `Bitmap.HexDigits` | internal/utils/bitmaputil/bitmaputil.go:26-37 | exactly the digits and the letters a to f in either case are digits, with their usual values |
| `Bitmap.Reverse` | internal/utils/bitmaputil/bitmaputil.go:39-42 | the bytes are reversed in place |
| `Bitmap.FromBytes` | internal/utils/bitmaputil/bitmaputil.go:48-60 | the blocks have the given bytes, and zero beyond |
| `Bitmap.NewFrom` | internal/utils/bitmaputil/bitmaputil.go:25-46 | exactly the hexadecimal numerals, odd or even in length, with or without 0x, are read, and the bitmap is the number |
| `Bitmap.ToString` | internal/utils/bitmaputil/bitmaputil.go:62-68 | the numeral of the bitmap, without leading zeros |
| `Bitmap.RoundTrip` | internal/utils/bitmaputil/bitmaputil.go:17-68 | reading back what was written gives exactly the bits, for every block array |
| `Constraint.Analyze` | internal/utils/slurmconstraint/slurmconstraint.go:56-110 | the scanner loop computes the shape function, errors included |
| `Constraint.ScanSeesShape` | internal/utils/slurmconstraint/slurmconstraint.go:56-110 | the shape read off the characters of a printed expression is the expression's own |
| `Constraint.PaddingIgnored` | internal/utils/slurmconstraint/slurmconstraint.go:27-34 | exactly the surrounding Unicode white space is cut off; a constraint of nothing else leaves the required feature alone |
| `Constraint.ComposePreservesMeaning` | internal/utils/slurmconstraint/slurmconstraint.go:27-54 | a well-formed expression is accepted if and only if it is composable, and the result is the text of a well-formed expression without nesting that evaluates, left to right, to "has the feature and the original" |
| `Constraint.ComposeAgain` | internal/utils/slurmconstraint/slurmconstraint.go:27-54 | composing the result again is accepted and means the same |
| `Constraint.AcceptedAgain` | internal/utils/slurmconstraint/slurmconstraint.go:27-54 | every result is accepted again, also for strings that are no well-formed expression |
| `Constraint.OneReading` | internal/utils/slurmconstraint/slurmconstraint.go:9-54 | different expressions have different texts, so the meaning of a text is unique |
| `SlurmGrammar.ComposedValid` | internal/utils/slurmconstraint/slurmconstraint_test.go:64-148 | Slurm accepts the composed text if and only if it accepts the original and the original does not both have a top-level OR and end in an operator |
| `SlurmGrammar.ParenthesizedValid` | internal/utils/slurmconstraint/slurmconstraint_test.go:64-148 | a flat expression stays valid in parentheses if and only if it does not end in an operator |
| `SlurmGrammar.TrailingOperator` | internal/utils/slurmconstraint/slurmconstraint_test.go:64-148 | the text `a` followed by an OR shows that it can fail |
| `SlurmGrammar.ValidGroups` | internal/utils/slurmconstraint/slurmconstraint_test.go:64-148 | a valid constraint closes each group it opens and has at most one bracket group |
| `SlurmGrammar.CountedAlone` | internal/utils/slurmconstraint/slurmconstraint_test.go:64-148 | a feature with a count is valid exactly if the count is not zero, and not together with another feature |
| `NativeAssignments.Occupants` | internal/scheduler/plugins/slurmbridge/native_state.go:235-248 | succeeds exactly when the snapshot has all nodes, and finds each Pod on them |
| `NativeAssignments.Reserve` | internal/scheduler/plugins/slurmbridge/native_state.go:249-268 | succeeds exactly when placed members agree with the snapshot and have different allocated nodes, and takes those nodes away |
| `NativeAssignments.PlanUnique` | internal/scheduler/plugins/slurmbridge/native_state.go:269-284 | there is one plan: the rest in key order on the rest in node order |
| `NativeAssignments.PlanInjective` | internal/scheduler/plugins/slurmbridge/native_state.go:235-285 | it is an injective assignment of all members to allocated nodes that keeps placements |
| `NativeAssignments.Fill` | internal/scheduler/plugins/slurmbridge/native_state.go:269-284 | the last loop computes the plan, and fails exactly if there are too few nodes |
| `NativeAssignments.NativeAssignments` | internal/scheduler/plugins/slurmbridge/native_state.go:235-285 | an assignment exists if and only if the snapshot is complete, placements are consistent and nodes suffice; it is the plan, injective and within the nodes |
| `NativeAssignments.OrderDoesNotMatter` | internal/scheduler/plugins/slurmbridge/native_state.go:235-285 | neither success nor the plan depends on the order of the Pod list |
| `NativeAssignments.PlanStays` | internal/scheduler/plugins/slurmbridge/native_state.go:235-285 | placing any members on their planned nodes leaves the plan the plan |
| `NativeAssignments.FixedSince` | internal/scheduler/plugins/slurmbridge/native_state.go:249-268 | if members have since been bound to or assumed on their planned nodes, the placements a retry finds are exactly the earlier ones and those |
| `NativeAssignments.RetryStable` | internal/scheduler/plugins/slurmbridge/native_state.go:235-285 | running nativeAssignments again on such Pods and snapshot succeeds and returns the identical assignment |
| `PoolSnapshot.GenerationIsMax` | internal/dra/inventory.go:153-174 | the kept generation is the largest of its pool |
| `PoolSnapshot.NewestNext` | internal/dra/inventory.go:153-174 | adding a slice replaces, ignores or extends the snapshot as its generation is newer, older or equal |
| `PoolSnapshot.SelectSnapshots` | internal/dra/inventory.go:135-174 | the snapshots are the newest slices of each pool of a configured driver, in the order given |
| `PoolSnapshot.CheckPool` | internal/dra/inventory.go:180-216 | a pool passes exactly when its slices name one node and one count throughout and, if that node is this one, are as many as they say |
| `PoolSnapshot.CompleteSnapshots` | internal/dra/inventory.go:176-216 | succeeds exactly when all pools pass, and returns the pools of the node in order |
| `NodeInventory.VerdictMeans` | internal/dra/inventory.go:236-272 | a device is classified exactly when no expression fails and at most one profile selects it, and then to that profile |
| `NodeInventory.MatchDeviceProfile` | internal/dra/inventory.go:236-272 | the loop over a driver's profiles gives that verdict |
| `NodeInventory.Collect` | internal/dra/inventory.go:100-127 | the device loop succeeds exactly when each device is classified and none that a profile selects is published twice, and collects every selected device with its NUMA nodes |
| `NodeInventory.SortedProfileInventories` | internal/dra/inventory.go:298-337 | profiles and their devices come out sorted, each exactly as collected |
| `NodeInventory.BuildNodeInventory` | internal/dra/inventory.go:88-133 | succeeds exactly when pools are complete and devices classified once, with the sorted inventory of the node's newest slices |
| `NodeInventory.SameVerdict` | internal/dra/inventory.go:100-127 | whether devices can be classified, and as what, does not depend on their order |
| `CanonicalInventory.InventoryUnique` | internal/dra/inventory.go:298-337 | the same devices in another order have the same inventory |
| `CanonicalInventory.OneProfile` | internal/dra/inventory.go:88-133 | a selected device is in the list of exactly one profile |
| `CanonicalInventory.InventoryCanonical` | internal/dra/inventory.go:88-216 | success and the exact inventory depend only on the newest slices of each pool |
| `CanonicalInventory.RepublishingDoesNotMatter` | internal/dra/inventory.go:88-216 | publishing the same devices again, in another number of slices or at another generation, and any change to sound pools of other nodes, leaves success and the inventory |
| `CanonicalInventory.OrderDoesNotMatter` | internal/dra/inventory.go:88-216 | neither the order of slices nor of devices in them changes those |
| `CanonicalInventory.ObsoleteDoesNotMatter` | internal/dra/inventory.go:153-174 | nor does a slice of an obsolete generation |
| `DevicePath.Decode` | internal/dra/gres.go:361-375 | no decoded driver or device name has a slash |
| `DevicePath.DecodeEncode` | internal/dra/gres.go:351-375 | decoding inverts encoding if and only if neither driver nor device name has a slash |
| `DevicePath.SlashMoves` | internal/dra/gres.go:351-375 | a driver with a slash is read back as another driver and pool |
| `DevicePath.EncodeDecode` | internal/dra/gres.go:351-375 | each path that decodes is the encoding of what it decodes to |
| `GresIndex.EncodeAppliedInventory` | internal/dra/gres.go:239-273 | succeeds exactly when profiles differ and entries are valid, and gives each profile the range after those of the same resource name |
| `GresIndex.Tiles` | internal/dra/gres.go:239-273 | the ranges of a resource name cover 0 up to its total without gap or overlap |
| `GresIndex.DecodeAppliedInventory` | internal/dra/gres.go:275-316 | succeeds exactly for the known version with readable profiles, and gives back their indexes and devices |
| `GresIndex.InventoryRoundTrip` | internal/dra/gres.go:239-316 | the decoded inventory has the same devices at the same indexes if and only if no driver or device name has a slash |
| `GresIndex.SlashlessReadable` | internal/dra/gres.go:239-316 | without such slashes, what was encoded can be decoded |
| `GresAllocation.SelectIndexed` | internal/scheduler/plugins/slurmbridge/deviceprofile.go:116-129 | succeeds exactly when each indexed request has a resource, and keeps those in order |
| `GresAllocation.GatherIndexes` | internal/scheduler/plugins/slurmbridge/deviceprofile.go:131-142 | fails exactly if an entry that names a profile and its GRES cannot be expanded; each profile then has exactly the indexes those entries give it, in their order |
| `GresAllocation.CutWindows` | internal/scheduler/plugins/slurmbridge/deviceprofile.go:144-162 | each request gets the next window of its profile's indexes, of its count; it fails exactly when one runs short |
| `GresAllocation.AllocateIndexedGRESProfiles` | internal/scheduler/plugins/slurmbridge/deviceprofile.go:116-163 | an allocation exists exactly when requests, layouts and counts fit, and is that cut |
| `GresAllocation.WindowsApart` | internal/scheduler/plugins/slurmbridge/deviceprofile.go:144-162 | if the used indexes of a profile are distinct, its windows share no index |
| `GresAllocation.IndexesApart` | internal/scheduler/plugins/slurmbridge/deviceprofile.go:144-162 | no index is repeated within or across requests if and only if none of the indexes Slurm listed, as far as they are used, is |
| `GresAllocation.Devices` | internal/dra/gres.go:199-219 | indexes are translated exactly when they are in range and differ within the request, each to the device it stands for |
| `GresAllocation.AllocationResults` | internal/scheduler/plugins/slurmbridge/deviceprofile.go:308-344 | results exist exactly when each request's indexes translate to devices of its profile's driver, and are those devices |
| `GresAllocation.SharedDeviceExactly` | internal/scheduler/plugins/slurmbridge/deviceprofile.go:308-344 | two requests get a common device if and only if they share a profile and an index |
| `GresAllocation.DevicesCounted` | internal/scheduler/plugins/slurmbridge/deviceprofile.go:308-344 | each request gets exactly its count of devices, all different |
| `GresAllocation.DevicesApart` | internal/scheduler/plugins/slurmbridge/deviceprofile.go:308-344 | no device goes to two requests, also if two classes share a profile, if and only if the used Slurm indexes of each profile do not repeat |
| `GresAllocation.RepeatedIndex` | internal/scheduler/plugins/slurmbridge/deviceprofile.go:116-163 | two layouts that list one index give one device to two requests |
| `GresInventory.ToGres` | internal/dra/gres.go:119-141 | succeeds exactly when each profile is a core bitmap or an indexed resource with a valid name, and translates the latter in order |
| `GresInventory.TranslatedApart` | internal/dra/gres.go:119-141 | the translated profiles differ, as encoding demands |
| `GresInventory.BuiltInventoried` | internal/dra/gres.go:239-316 | an inventory built from a node's slices, translated, written and read back has each device in one profile at one index, if no driver or device name has a slash |
| `GresInventory.NodeDevicesApart` | internal/scheduler/plugins/slurmbridge/deviceprofile.go:308-344 | from slices to claims, if no driver or device name has a slash: each request gets its count of different devices, and no device goes to two requests if and only if the used Slurm indexes do not repeat |

## Left out

- Kubernetes and Slurm clients, informers, watches, work queues and leader election: they appear as lagging lists, arbitrary answers and serialized keys.
- `Filter`, `PreFilter`, `PreBind` and node eligibility: they depend on other scheduler plugins.
- The text forms of CPU lists, SMT layouts, JSON, labels, annotations and host lists: the model starts from the parsed values, and a CPU list parses to a non-empty set.
- CEL expressions: a selector answers yes, no or an error, as an arbitrary function of the device.
- Selecting the CPU pool among resource slices (internal/nodeinfo/nodeinfo.go:222-285), and the fingerprint of a CPU inventory: checks of the same kind as those for device pools, and a hash.
- validateCPUCoreTopology: its check for equal thread counts is made again by `Geometry`, and every CPU that `NewCPUInfos` yields has the standard core type.
- Publishing labels and matching components to jobs after registration, and the readiness of composite trees: they decide when to submit, which the protocol model leaves arbitrary.
- Allocations of LeaderWorkerSets without a group identity, and legacy records that name Pods of several groups: such a record can be under several Pod keys, and the claims about whole passes are for group keys.
- Slurm configuration lines for generic resources and the printed core ranges: `NumaBinding` stops at the list of cores.
- ShareIDs, requests and configuration of a CPU claim are one list of shares: they are appended together in the source.
- Admission webhooks, configuration and registry validation, taints, events and diagnostics: branch-by-branch checks.
- UpdateElision.SlurmControl.UpdateJob: the cache's capacity is not modelled; an eviction is a `Forget` that may come at any time.
- Duplicates.Cleaner.ReadLive: reads of one pass see one table; a job that Slurm changes between two reads is not modelled.
- CpuInventory.NewCPUInfos: starts from parsed attributes; a missing or ill-typed attribute is an error before that.
- GresAllocation.AllocationResults: does not model that the request's class is resolved again before its devices are looked up.
- ReleaseFreshness.ReleaseCurrentExactly: an attempt's events are taken at the end of the attempt, so a result recorded between a release and that end counts as recorded before it.
- HoldRelease.NextKeeps: putting a failed work back and asking for its retry is one step, the outstanding count goes down in the step that changes the maps although the source does so just after unlocking, and rate limiting is left out.
- NodeInventory.BuildNodeInventory: the nested loops over pools, slices and devices run over the concatenation of the devices; a nil registry or node is not modelled.
- CpuInventory.NewNodeInfo: the devices of the selected slices are one list, so a duplicate is found at the device and not at the end of its slice.
- LifecyclePass.CancelCoverage: speaks about the state that the checks read; a Pod that appears between a check and the cancel is not covered, as it is not in the source.
- Duplicates.Cleaner.CleanDuplicateAllocations: states the outcome for group keys; for a Pod key that shares an ambiguous legacy record with another key only the single step `CleanAllocationConflict` is stated.
