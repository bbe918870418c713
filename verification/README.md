# A verified model of the EBS CSI controller's concurrent core

The controller of the Amazon EBS CSI driver attaches, detaches, resizes and modifies volumes on behalf of
Kubernetes. Its difficult parts are small and stateful: an allocator for device names and EBS cards that works
from stale instance descriptions, a coalescer that merges concurrent modify requests into one execution, a
batcher that merges concurrent lookups into one call, a quarantine for IDs that poison such a call, expiring
caches, and integer arithmetic that can wrap. This project models them in Dafny and proves what they guarantee
over every run.

`dafny verify dfyconfig.toml` checks the whole project.

## How the model is built

A component that runs as a loop or under a mutex has a state, events and a `Step` function; `Run` gives the state
after any event history, and the theorems quantify over all histories. The imperative code is modelled beside it,
as classes whose methods are proved to perform exactly those steps. Go's map order is not fixed: where it can
influence a result, the specification is a relation that admits every order (`MayReturn`, `ParsedFrom`). EC2 is an
arbitrary sequence of answers (`World`), an arbitrary instance description, or an abstract set of volumes.

| file | what it models |
|---|---|
| `sizes.dfy` | bytes and GiB over wrapping int32 and int64 |
| `coalescer.dfy` | the coalescer's select loop, its timers and its executions |
| `modify_request.dfy`, `modify_parameters.dfy` | modify requests: their merge, and the parameters they are parsed from |
| `volume_modification.dfy`, `modification_outcome.dfy` | ResizeOrModifyDisk against EC2: its calls, and exactly what it answers |
| `modify_pipeline.dfy` | expansion and modification from the RPC to EC2 |
| `modify_ratio.dfy` | what becomes of a ratio of IOPS to size on that way |
| `batcher.dfy`, `quarantine.dfy`, `expiring_cache.dfy` | batched lookups, the quarantine, the cache |
| `device_names.dfy`, `device_manager.dfy` | the legal names, the allocator, reservations and cards |
| `in_flight_guard.dfy`, `attach_protocol.dfy` | publish and unpublish calls that interleave |
| `attachment_wait.dfy` | waiting for an attachment state |
| `client_tokens.dfy` | idempotency tokens for volume creation |

## Main results

- **End to end.** In every run of the coalescer, a caller that is told its modify request succeeded had it carried
  out by one execution for its own volume. That execution finished once in the run, and with the answers EC2 gave
  then, EC2 accepted the caller's tags and was last asked for the volume, which showed its size, type, throughput
  and IOPS, capped unless a modification was already under way (`SuccessfulCallerIsFulfilled`). A ratio of IOPS to
  size is served under an exact condition only (`RatioCallerIsServedIff`). Every caller is
  answered by the time the system comes to rest (`AtRestAllAreAnswered`). For ControllerExpandVolume
  the capacity returned is at least the capacity required exactly for requests up to 2^63 - 2^30 bytes
  (`ExpandIsSafeIffRoundable`).
- **Outcomes.** Over EC2's answers alone, on every path and in every world: exactly when resizing or modifying a
  volume succeeds, and exactly when it fails with each of its errors (`SucceedsIff`, `NotFoundIff`,
  `LimitExceededIff`, `InvalidArgumentIff`, `ExecutionSucceedsIff`); exactly when waiting for an attachment succeeds
  (`AttachSucceedsIff`, `DetachSucceedsIff`); exactly when a cached value is found (`FoundIffNotTakenAway`).
- **Names.** Over every interleaving of attaches and detaches, with arbitrary stale instance descriptions, no two
  volumes on a node hold the same device name (`NamesAreNeverShared`), every reservation is held by a live attach
  or was left behind by a failed wait (`ReservationsAreAccountedFor`), and the name of a failed wait is withheld until a detach or a successful retry
  exactly when the volume holds a reservation of it, as every fresh device does (`TaintedNameIsWithheldIff`).
- **Conservation.** Every batcher entry is queued, pending, still to be sent by one batch or delivered, exactly one
  of these and once (`Batcher.ExactlyOnePlace`); every coalescer caller is in exactly one place
  (`Coalescer.ExactlyOnePlace`).

## Where the code does less than one might expect

Each of these is proved, together with the condition under which the code does meet the expectation.

- Rounding a request above 2^63 - 2^30 bytes wraps, and an expansion to eight EiB succeeds on a two GiB volume
  (`OverflowRunSucceeds`, `ExpandIsSafeIffRoundable`).
- A successful caller that asks for a ratio of IOPS to size may have got nothing but its tags: the merge keeps the
  ratio of a batch's first request only (`RatioMayBeLost`, `RatioCallerIsServedIff`). If the volume shows the tags
  just created and somebody in the batch asks for a size, throughput or type, the order of arrival does not matter
  (`BatchChangesDiskIff`, `RatioInForceWithTagsIff`).
- A volume or snapshot being created under the name of a volume's ID followed by a node's ID keeps that volume from
  being attached to or detached from that node (`TurnedAwayIffPending`, `CreateMayStandInTheWay`).
- A volume whose name is in the cache of missing volume IDs is not found by name (`NamesAgreeIff`,
  `CachedNameIsNotFound`).
- A volume that an instance description shows without a device name may be reserved a second name
  (`ReservedVolumeIsRecognised`, `UnnamedVolumeMayBeReservedAgain`).
- Two modify requests with identical parameters may conflict: tags to delete are kept in map order and compared in
  order, and of two values for a tag key the one that the map yields later wins (`IdenticalParametersMergeIff`,
  `DeletionsMayConflict`, `ValuesMayConflict`).
- The detour for a volume that is already modifying compares uncapped IOPS, so a repeat may modify the volume
  again (`RepeatAfterDetourIsQuietIff`, `RepeatAfterDetourModifies`).
- The int32 product in the IOPS cap can wrap to a tighter cap (`CapIsClampIffNoTighterWrap`, `TighterWrapHappens`).
- A failed change of tags may have deleted tags (`FailedTagsAreHalfAppliedIff`).
- A failed wait for a device that was only recognised in an instance description withholds nothing, and the name
  can go to another volume at once (`TaintedNameIsWithheldIff`, `TaintedNameMayBeGivenAway`).
- A duplicate of a lone pending task restarts the batch timer, so maxDelay does not bound the wait
  from the first arrival (`DuplicatesPostpone`, `DueFromFirstArrivalIff`).
- A cached value may go sooner than the comment on the cache promises, after Remove left a timer running or when it
  is touched while its callback is on its way (`RemovedTimerEvictsSuccessor`, `LateTouchDoesNotKeep`), and only then
  (`UndisturbedIsNeverEarly`, `MayGoEarlyIff`).
- A volume named like another volume followed by a dash and a number can share its token
  (`AttemptsCollideIff`, `AttemptsMayCollide`).

## Model

| member | source | states |
|---|---|---|
| `Sizes.RoundUpToGiBsIsCeiling` | pkg/util/util.go:160-165 | The wrapping code is the mathematical ceiling for every request up to 2^63 - 2^30; beyond it the sum wraps to one of two negative counts |
| `Sizes.RoundUpBytesCovers` | pkg/util/util.go:87-89 | Rounded bytes cover the request if and only if it is at most 2^63 - 2^30, and then are the least multiple of GiB that does |
| `Sizes.WholeGiBsRoundToThemselves` | pkg/util/util.go:160-165 | A whole number of GiB rounds to itself, and to one more below zero because Go's division truncates |
| `Sizes.GiBRoundTrip` | pkg/util/util.go:93-116 | Every int32 number of GiB survives the conversion to bytes and back |
| `Sizes.RoundUpIsLeastCover` | pkg/util/util.go:87-89 | No smaller number of GiB covers the request |
| `Sizes.RoundUpGiBFailsIff` | pkg/util/util.go:93-100 | The target is refused if and only if it does not fit int32 |
| `Sizes.BytesToGiBIsFloor` | pkg/util/util.go:103-111 | Bytes are cut down to whole GiB, saturating at the int32 maximum |
| `Sizes.RequestedGiBIsCeiling` | pkg/util/util.go:87-100 | Rounding to bytes and then to GiB rounds once |
| `Sizes.RequestedGiBCovers` | pkg/util/util.go:87-116 | A volume at least as large as the rounded target covers the requested bytes |
| `Sizes.RequestedGiBCollapses` | pkg/util/util.go:87-100 | Past the bound the target is one or two GiB instead of an error |
| `Coalescer.RunKeepsInvariant` | pkg/coalescer/coalescer.go:114-165 | After every history: callers, timers, pending entries, executions and deliveries match (`Inv`) |
| `Coalescer.OneTimerPerPendingKey` | pkg/coalescer/coalescer.go:134-150 | A key has exactly one outstanding timer if pending and none otherwise; a timer message always finds a non-empty entry |
| `Coalescer.ExactlyOnePlace` | pkg/coalescer/coalescer.go:97-165 | Every caller is pending, held by one execution or answered: exactly one place |
| `Coalescer.AnsweredAtMostOnce` | pkg/coalescer/coalescer.go:97-112 | No channel receives two results, and only callers receive any |
| `Coalescer.SuccessComesFromSharedExecution` | pkg/coalescer/coalescer.go:114-165 | A successful caller shares one execution of its own key; that execution's input is the arrival-order fold of the accepted inputs, its own among them, and its outcome is the result received |
| `Coalescer.OutcomesAreExecuted` | pkg/coalescer/coalescer.go:147-158 | Every outcome is the execute callback applied to the folded input and to what the world answered in the event of this run in which the execution finished |
| `Coalescer.FinishesOnce` | pkg/coalescer/coalescer.go:152-160 | An execution finishes once, so that event is the only one |
| `Coalescer.RejectedIffConflict` | pkg/coalescer/coalescer.go:117-145 | After every run, a call is answered on arrival if and only if its input does not merge with the fold of those accepted under its key, with that merge's error; any other call is accepted, last in line |
| `Coalescer.UnansweredCanProgress` | pkg/coalescer/coalescer.go:97-165 | While a caller is unanswered, a timer, the end of an execution or a send is possible |
| `Coalescer.AtRestAllAreAnswered` | pkg/coalescer/coalescer.go:97-165 | The system is at rest if and only if no timer is outstanding and every execution is done, which is if and only if every caller was answered |
| `Coalescer.LoneCallIsExecuted` | pkg/coalescer/coalescer.go:114-165 | A call nobody joins runs to its end and receives its own execution's result |
| `Coalescer.StepOnSameWork` | pkg/coalescer/coalescer.go:114-165 | The loop's future depends only on what is pending, timed and executing |
| `Coalescer.RejectedLeaveNoTrace` | pkg/coalescer/coalescer.go:119-133 | Deleting the rejected calls from any history changes nothing but the errors they received, although a failing merge returns a partly updated value |
| `Coalescer.Loop.ReceiveInput` | pkg/coalescer/coalescer.go:117-145 | The input case performs the specified step on the loop's own map; a refused input leaves the map alone |
| `Coalescer.Loop.ReceiveTimer` | pkg/coalescer/coalescer.go:147-153 | The timer case removes the entry and hands exactly it to the execution |
| `ModifyRequest.MergeMeetsSpec` | pkg/driver/controller_modify_volume.go:92-127 | The merge fails exactly on a conflicting set field and otherwise overlays the set fields, never the ratio and the increase flag |
| `ModifyRequest.MergeSucceedsIffJointlyGrantable` | pkg/driver/controller_modify_volume.go:92-127 | The merge succeeds if and only if some request grants both, and its result does |
| `ModifyRequest.FailedMergeIsHalfUpdated` | pkg/driver/controller_modify_volume.go:92-127 | A failing merge can return a value that differs from the existing request and does not grant the input |
| `ModifyRequest.FoldGrantsExactly` | pkg/driver/controller_modify_volume.go:92-127 | The fold of an accepted batch grants each request, sets nothing that none set, and keeps the first request's ratio and flag |
| `ModifyRequest.AcceptedIffPairwiseCompatible` | pkg/driver/controller_modify_volume.go:92-127 | A batch merges without rejection if and only if no two of its requests conflict |
| `ModifyRequest.MergeOrderIrrelevant` | pkg/driver/controller_modify_volume.go:92-127 | If one order of a batch is accepted so is every order, with the same size, IOPS, throughput, type and tags |
| `ModifyRequest.ModifyRequestsMergeInAnyOrder` | pkg/driver/controller_modify_volume.go:92-127 | The same for pairwise compatible requests and the driver's own merge |
| `ModifyRequest.RatioDependsOnOrder` | pkg/driver/controller_modify_volume.go:92-127 | The ratio field does depend on the order |
| `ModifyParameters.Collect` | pkg/driver/controller_modify_volume.go:187-239 | For every map order, the loop fails exactly on an invalid parameter and otherwise has collected exactly what the parameters say |
| `ModifyParameters.ParseModifyVolumeParameters` | pkg/driver/controller_modify_volume.go:178-251 | Parsing succeeds if and only if every parameter and every tag is good in itself, whatever the map order, and the request is what the parameters amount to in some order |
| `ModifyParameters.ParametersRoundTrip` | pkg/driver/controller_modify_volume.go:178-251 | Parameters written for some options parse to exactly these options, with the driver's two tags set to what was written |
| `ModifyParameters.ParametersTellAll` | pkg/driver/controller_modify_volume.go:220-225 | And templates see the properties that were written |
| `ModifyParameters.DeprecatedTypeCounts` | pkg/driver/controller_modify_volume.go:202-210 | The deprecated key for the type counts only where the preferred one is missing; absent keys leave their options unset |
| `ModifyParameters.ReservedIff` | pkg/driver/validation.go:45-57 | A key is reserved if and only if it is one of three names or begins with kubernetes.io or the driver's name and a slash |
| `ModifyParameters.SplitsAtFirstEquals` | pkg/util/template/template.go:40-45 | A specification is split into exactly the parts around its first equals sign |
| `ModifyParameters.EvaluateTemplates` | pkg/util/template/template.go:37-60 | The loop computes the tags of the specifications, the later of two for a key winning |
| `ModifyParameters.EvaluateMeans` | pkg/util/template/template.go:37-60 | Evaluation succeeds exactly when every specification does, and sets exactly their keys |
| `ModifyParameters.LastSpecificationWins` | pkg/util/template/template.go:55-57 | The last specification of a key decides its value |
| `ModifyParameters.TagsAreGoodInAnyOrder` | pkg/driver/controller_modify_volume.go:241-247 | Whether the tags evaluate and validate does not depend on the map order |
| `ModifyParameters.RatioTagIsOwn` | pkg/driver/validation.go:45-71 | A request carries the ratio tag exactly if its parameters set the ratio, with that value, and no request can delete it, because the key is reserved |
| `ModifyParameters.RatioReachesMergedTags` | pkg/driver/controller_modify_volume.go:117-125 | The merged tags carry the ratio if and only if some accepted request set it, although the merge drops the field |
| `ModifyParameters.UnambiguousParsesEqually` | pkg/driver/controller_modify_volume.go:178-251 | Parameters without two different tags to delete and without two values for a tag parse to the same request in every map order |
| `ModifyParameters.TwoDeletionsConflict` | pkg/driver/controller_modify_volume.go:231-235 | Parameters that name two different tags to delete parse to a conflicting request in another map order |
| `ModifyParameters.TwoValuesConflict` | pkg/util/template/template.go:37-60 | Parameters with two values for a tag key parse to a conflicting request in another map order |
| `ModifyParameters.IdenticalParametersMergeIff` | pkg/driver/controller_modify_volume.go:117-125 | Identical parameters are sure to merge if and only if they name no two different tags to delete and no two values for one tag key |
| `ModifyParameters.DeletionsMayConflict` | pkg/driver/controller_modify_volume.go:231-235 | The parameters that delete the tags x and y may conflict with themselves |
| `ModifyParameters.ValuesMayConflict` | pkg/util/template/template.go:55-57 | The parameters that set the tag a to 1 and to 2 may conflict with themselves |
| `VolumeModification.CapIsFixedPoint` | pkg/cloud/cloud.go:2929-2951 | Capping twice is capping once, whatever the limits and even if the product wraps |
| `VolumeModification.CapIsClampIffNoTighterWrap` | pkg/cloud/cloud.go:2928-2951 | The cap is the clamp of every request into the allowed range, a limit of 0 being infinite and the minimum applying only where an increase is allowed, if and only if the int32 product does not wrap to a tighter positive cap |
| `VolumeModification.TighterWrapHappens` | pkg/cloud/cloud.go:2944-2948 | At 1000 IOPS per GiB, 4294968 GiB cap the allowed 64000 IOPS at 704 |
| `VolumeModification.TagsAreReadIff` | pkg/cloud/cloud.go:2844-2861 | The tags are read without error if and only if the ratio and flag tags among them parse; absent ones give no ratio and no permission |
| `VolumeModification.EffectiveIsIopsToShow` | pkg/cloud/cloud.go:1075-1114 | The IOPS asked for and checked, spelled out: those requested or derived, capped for the new size and type |
| `VolumeModification.CheckIsNegationOfNeed` | pkg/cloud/cloud.go:2672-2698 | The final check succeeds exactly when needsVolumeModification is false of the same volume, and returns its size |
| `VolumeModification.SuccessIsVerified` | pkg/cloud/cloud.go:1032-1144 | On every path, success means the last call read a volume that shows every option, at least as large as asked, of the size returned |
| `VolumeModification.OptionsChangeOnlyByCapping` | pkg/cloud/cloud.go:1082-1114 | What a success was checked against: on the detour the request itself; otherwise the request with the IOPS asked for, or derived from a ratio, capped for the target size and type |
| `VolumeModification.ModifyIsGuarded` | pkg/cloud/cloud.go:2871-2922 | ModifyVolume is called at most once, for a real difference and with the requested values, after a read not showing "modifying" and a later one not showing "optimizing" |
| `VolumeModification.FirstReadsAreLogged` | pkg/cloud/cloud.go:1043-1055 | A successful operation began by reading the volume and its latest modification |
| `VolumeModification.InvalidMeansRefused` | pkg/cloud/cloud.go:1116-1133 | An invalid-argument error means EC2 refused every change |
| `VolumeModification.SettledVolumeIsLeftAlone` | pkg/cloud/cloud.go:2891-2910 | A volume that shows the capped options is not modified, whatever EC2 answers afterwards |
| `VolumeModification.RepeatIsQuiet` | pkg/cloud/cloud.go:1032-1144 | After a success, the same request on the volume left behind calls ModifyVolume no more, with fresh options and with the capped ones |
| `VolumeModification.RepeatAfterDetourIsQuietIff` | pkg/cloud/cloud.go:2878-2887 | After a run that succeeded through the detour, a repeat on the volume left behind, with both guards open, calls no ModifyVolume if and only if capping leaves the requested IOPS alone or the volume has the capped ones |
| `VolumeModification.DetourAcceptsUncapped` | pkg/cloud/cloud.go:2878-2887 | The detour succeeds on every volume that shows the uncapped options, and last reads that volume |
| `VolumeModification.RepeatAfterDetourModifies` | pkg/cloud/cloud.go:2878-2887 | A concrete pair of runs: the first succeeds through the detour, the repeat calls ModifyVolume |
| `VolumeModification.ModifiesIffNeeded` | pkg/cloud/cloud.go:1050-1120 | With neither guard in the way, ModifyVolume is called if and only if the volume does not show the capped options |
| `ModificationOutcome.WaitSucceedsIff` | pkg/cloud/cloud.go:2701-2724 | Waiting for a modification succeeds if and only if one of the polls finds none, "completed" or "optimizing" and all before it could be read |
| `ModificationOutcome.CheckGivesLastVerdict` | pkg/cloud/cloud.go:2672-2698 | The final check returns the size of a volume that shows everything, and else an error that tells a missing volume |
| `ModificationOutcome.StartResult` | pkg/cloud/cloud.go:1110-1144 | What the part after the decision answers, case by case, over EC2's answers |
| `ModificationOutcome.ResultIsExpected` | pkg/cloud/cloud.go:1032-1144 | What the whole operation answers, case by case, over EC2's answers |
| `ModificationOutcome.SucceedsIff` | pkg/cloud/cloud.go:1032-1144 | On every path, success with a size if and only if the last read is reached (the detour or a settled volume waited for; or ModifyVolume accepted and done at once or within ten polls) and shows a volume of that size with everything asked for |
| `ModificationOutcome.NotFoundIff` | pkg/cloud/cloud.go:1043-1049 | Not found if and only if the first or the last read does not find the volume |
| `ModificationOutcome.LimitExceededIff` | pkg/cloud/cloud.go:1122-1131 | Limit exceeded if and only if ModifyVolume is reached and refused for one of its two limits |
| `ModificationOutcome.InvalidArgumentIff` | pkg/cloud/cloud.go:1082-1121 | Invalid argument if and only if the tags are reached and unreadable, or ModifyVolume is reached and refuses a parameter |
| `VolumeModification.Client.WaitForVolumeModification` | pkg/cloud/cloud.go:2701-2724 | The polling loop makes exactly the specified calls and stops at the first poll that decides |
| `VolumeModification.Client.CheckState` | pkg/cloud/cloud.go:2672-2698 | The check makes the specified call and returns the specified verdict |
| `VolumeModification.Client.Start` | pkg/cloud/cloud.go:2891-2922 | The part from the decision to the final check makes the specified calls in order |
| `VolumeModification.ResizeOrModifyDisk` | pkg/cloud/cloud.go:1032-1144 | The imperative operation makes the specified calls, returns the specified result and overwrites the caller's options as specified |
| `ModifyPipeline.ModifyVolumeTags` | pkg/cloud/cloud.go:993-1026 | Deletions and then additions, each only if there are any, stopping at the first refusal |
| `ModifyPipeline.ExecuteModifyVolumeRequest` | pkg/driver/controller_modify_volume.go:129-176 | Tags first, then the disk, with the specified status codes |
| `ModifyPipeline.TagsAreCalled` | pkg/cloud/cloud.go:993-1026 | A tag change without an error made exactly the calls its tags need, all accepted |
| `ModifyPipeline.ExecutionFulfils` | pkg/driver/controller_modify_volume.go:142-176 | A successful execution fulfils every request the merged one grants: its tags, size, IOPS, throughput and type, not its ratio |
| `ModifyPipeline.ExecutionSucceedsIff` | pkg/driver/controller_modify_volume.go:129-176 | An execution succeeds with a size if and only if its tag calls are accepted and the disk, if it is to be changed, shows everything with that size |
| `ModifyPipeline.ExecutionFailsIff` | pkg/driver/controller_modify_volume.go:152-170 | Exactly when the codes NotFound, ResourceExhausted and InvalidArgument are returned; the last only without tags |
| `ModifyPipeline.InvalidArgumentChangedNothing` | pkg/driver/controller_modify_volume.go:154-161 | An execution that reports InvalidArgument made no tag call at all, and EC2 refused every ModifyVolume |
| `ModifyPipeline.FailedTagsAreHalfAppliedIff` | pkg/cloud/cloud.go:993-1026 | A failed tag change has changed tags if and only if there were tags to delete and EC2 did not refuse those; it is reported as Internal |
| `ModifyPipeline.SuccessfulCallerIsFulfilled` | pkg/driver/controller_modify_volume.go:88-176 | In every run, a successful caller's request was carried out by one execution for its volume: with the answers EC2 gave when that execution finished in the run, all tags were applied and its size, IOPS, throughput and type shown by the last read |
| `ModifyPipeline.ExpandReturnsEnough` | pkg/driver/controller.go:699-739 | In every run, coalesced with anything, success returns at least the required bytes, up to the rounding bound |
| `ModifyPipeline.ExpandReportsVolume` | pkg/driver/controller.go:735-738 | The capacity reported is the size of the volume as EC2 last showed it in the run |
| `ModifyPipeline.ExpandIsPassedOnIff` | pkg/driver/controller.go:701-721 | An expansion is passed on if and only if some whole number of GiB covers the required bytes within the limit |
| `ModifyPipeline.ExpandAsksForLeast` | pkg/driver/controller.go:717-724 | What is passed on asks for the least such number and nothing else |
| `ModifyPipeline.OverflowRunSucceeds` | pkg/driver/controller.go:715-724 | Beyond the bound, a run in which the request succeeds on a two GiB volume |
| `ModifyPipeline.ExpandIsSafeIffRoundable` | pkg/driver/controller.go:699-739 | Every successful expansion returns enough if and only if the required bytes are at most 2^63 - 2^30 |
| `ModifyRatio.RatioDecidesIops` | pkg/cloud/cloud.go:1086-1094 | The IOPS to ask for are the size times the ratio in force, or else those asked for outright |
| `ModifyRatio.BatchChangesDiskIff` | pkg/driver/controller_modify_volume.go:150-152 | Executing a batch turns to the disk if and only if its first request sets a ratio or any request sets a size, IOPS, throughput or type |
| `ModifyRatio.BatchUsesRatioIff` | pkg/cloud/cloud.go:1086-1094 | A ratio is in force for a batch if and only if nobody asks for IOPS, the first request or the tags allow an increase, and the first request sets it, or sets none and the tags have it |
| `ModifyRatio.TagsTell` | pkg/cloud/cloud.go:2844-2861 | Of tags with unique keys, the scan returns the ratio and the flag they carry |
| `ModifyRatio.FirstAgreesWithTags` | pkg/driver/controller_modify_volume.go:211-220 | Within an accepted batch the first request's ratio is that of the merged tags or none, and its flag is among them |
| `ModifyRatio.RatioInForceWithTagsIff` | pkg/cloud/cloud.go:1082-1094 | With the tags just created in sight, a positive ratio is in force if and only if nobody asks for IOPS and the tags allow an increase, in whatever order the requests arrived |
| `ModifyRatio.RatioCallerIsServedIff` | pkg/driver/controller_modify_volume.go:92-176 | In every run, a successful caller's ratio is applied and shown by the last read if and only if the batch turned to the disk, EC2 first showed the volume at rest, and the ratio was in force |
| `ModifyRatio.RatioMayBeLost` | pkg/driver/controller_modify_volume.go:150-173 | A run in which a caller's ratio request succeeds although the only call made creates its tags |
| `Batcher.GroupKeepsEntries` | pkg/batcher/batcher.go:130-135 | Grouping arrivals by task loses no channel and invents none |
| `Batcher.RunConserves` | pkg/batcher/batcher.go:106-172 | After every history the queue, the pending map, the batches and the deliveries account for every entry (`Conserved`) |
| `Batcher.EntriesAreConserved` | pkg/batcher/batcher.go:106-148 | The added entries are, in order, those of the batches, the pending ones and the queued ones |
| `Batcher.ExactlyOnePlace` | pkg/batcher/batcher.go:106-172 | If no two AddTask calls are alike, every entry is in exactly one place across all batches: queued, pending, unsent in one batch, or delivered once |
| `Batcher.UndeliveredCanProgress` | pkg/batcher/batcher.go:106-172 | While an entry is undelivered, a receive, the timer after enough ticks, the end of an execution or a send is possible |
| `Batcher.BatchDeliversExactly` | pkg/batcher/batcher.go:152-172 | What a batch has sent and has still to send are together its entries, each once |
| `Batcher.DeliveriesAreOwn` | pkg/batcher/batcher.go:165-170 | Each answer carries its own task's result and the error of the execution that contained it |
| `Batcher.OutcomesAreReturned` | pkg/batcher/batcher.go:159-162 | The outcome of a batch is what execFunc returned in the event of the run in which the batch finished |
| `Batcher.FinishesOnce` | pkg/batcher/batcher.go:152-162 | A batch finishes once |
| `Batcher.DeliveriesComeFromFinish` | pkg/batcher/batcher.go:159-170 | In every run, a delivery carries the error returned in the one event in which its batch finished, and the result returned there for its own task |
| `Batcher.BatchStartsIff` | pkg/batcher/batcher.go:117-145 | An event starts a batch if and only if it is the timer's, not before its deadline, or the receipt that makes the distinct tasks maxEntries; the batch is everything pending |
| `Batcher.TimerAndSizeAreKept` | pkg/batcher/batcher.go:113-148 | With maxEntries at least 1: fewer than maxEntries tasks pending, timer armed exactly while something is pending, batches of 1 to maxEntries tasks, deadline maxDelay after the last arrival that left one task pending |
| `Batcher.DuplicatesPostpone` | pkg/batcher/batcher.go:137-140 | If identical tasks keep coming, each with a channel of its own, the timer never becomes due, for any length of time |
| `Batcher.DueFromFirstArrivalIff` | pkg/batcher/batcher.go:137-140 | A pending batch is due maxDelay after its first arrival if and only if no duplicate of a lone pending task came later than that |
| `Batcher.TaskManager.ReceiveTask` | pkg/batcher/batcher.go:129-145 | The task case performs the specified step on the manager's variables |
| `Batcher.TaskManager.ReceiveTimer` | pkg/batcher/batcher.go:117-127 | The timer case hands over exactly the pending tasks |
| `Batcher.ListTasks` | pkg/batcher/batcher.go:153-156 | The batch lists each task once, in whatever order |
| `Batcher.SendAll` | pkg/batcher/batcher.go:166-169 | One answer per channel, in order |
| `Batcher.Execute` | pkg/batcher/batcher.go:152-172 | For every map order, what is sent is exactly the map's entries, with their task's result and the batch's error |
| `DeviceNames.NamesAreDistinct` | pkg/cloud/devicemanager/device_names.go:33-160 | The 127 names are pairwise different |
| `DeviceNames.FirstCleanIsFirst` | pkg/cloud/devicemanager/allocator.go:51-57 | The scan finds the first name that is neither in use nor likely bad |
| `DeviceNames.GetNext` | pkg/cloud/devicemanager/allocator.go:50-74 | The search returns a name the specification allows, for every order of the likely-bad map |
| `DeviceNames.AllocatedNameIsFreeAndLegal` | pkg/cloud/devicemanager/allocator.go:50-74 | An allocated name is free and legal, and likely bad only if no clean name is free |
| `DeviceNames.FailsIffAllInUse` | pkg/cloud/devicemanager/allocator.go:59-73 | Allocation fails if and only if all 127 names are in use |
| `DeviceNames.StaysWithinSafeNames` | pkg/cloud/devicemanager/device_names.go:25-33 | With fewer than 52 names in use or likely bad, the choice is among the first 52 |
| `DeviceManager.GetNames` | pkg/cloud/devicemanager/manager.go:102-108 | Every reserved name is mapped to a volume that reserved it, and nothing else is |
| `DeviceManager.NamesInvertIffUnshared` | pkg/cloud/devicemanager/manager.go:102-108 | GetNames inverts the reservations in every map order if and only if no name is reserved twice |
| `DeviceManager.GetPath` | pkg/cloud/devicemanager/manager.go:311-318 | A name recorded for the volume, or "" if there is none |
| `DeviceManager.CountMapped` | pkg/cloud/devicemanager/manager.go:172-181 | The first loop counts the mappings of each card |
| `DeviceManager.GetCardCounts` | pkg/cloud/devicemanager/manager.go:166-192 | The counts are the loads: mapped volumes and reservations no counted mapping stands for |
| `DeviceManager.WithAllCardsMeans` | pkg/cloud/devicemanager/manager.go:204-210 | Filling in the missing cards adds zeros for them and changes nothing else |
| `DeviceManager.LeastCard` | pkg/cloud/devicemanager/manager.go:212-220 | The scan yields the lexicographically least (count, index) for every map order |
| `DeviceManager.GetNextCardIndex` | pkg/cloud/devicemanager/manager.go:198-223 | No card for a single-card instance, else the least loaded one |
| `DeviceManager.ChooseCard` | pkg/cloud/devicemanager/manager.go:151-153 | The card for a new volume is the least loaded candidate, the lowest index among equals |
| `DeviceManager.LoadCountsEachVolumeOnce` | pkg/cloud/devicemanager/manager.go:166-192 | A card's count is the number of volumes on it: one both mapped and reserved counts once |
| `DeviceManager.ReservingKeepsBalance` | pkg/cloud/devicemanager/manager.go:194-223 | Reserving the chosen card for a volume not yet counted raises its load by one, leaves the others, and keeps balanced loads balanced |
| `DeviceManager.NewDeviceKeepsBalance` | pkg/cloud/devicemanager/manager.go:126-161 | Every fresh answer of NewDevice keeps balanced loads balanced, also for a volume whose mapping is hidden by a reservation |
| `DeviceManager.Manager.GetDeviceNamesInUse` | pkg/cloud/devicemanager/manager.go:298-309 | Reported names overridden by reserved ones |
| `DeviceManager.Manager.FindCard` | pkg/cloud/devicemanager/manager.go:226-235 | The first mapping of the volume decides its card |
| `DeviceManager.Manager.NewDevice` | pkg/cloud/devicemanager/manager.go:126-161 | The answer is one the specification allows, and a fresh one is reserved |
| `DeviceManager.Manager.GetDevice` | pkg/cloud/devicemanager/manager.go:237-249 | The answer is one the specification allows |
| `DeviceManager.Manager.ReleaseDevice` | pkg/cloud/devicemanager/manager.go:267-294 | The reservation goes exactly if the handle still names it |
| `DeviceManager.Handle.ReleaseTo` | pkg/cloud/devicemanager/manager.go:42-48 | A tainted handle releases only by force |
| `DeviceManager.ReservedNameIsWithheld` | pkg/cloud/devicemanager/manager.go:126-161 | No other volume is handed a reserved name, however stale the instance description |
| `DeviceManager.AttachedMeans` | pkg/cloud/devicemanager/manager.go:301-304 | The names recorded are those of the mappings, each with the volume of the last mapping that has it |
| `DeviceManager.FreshNameIsLegalAndFree` | pkg/cloud/devicemanager/manager.go:126-161 | A fresh device has a legal name that no reservation on the node holds |
| `DeviceManager.FreshNameIsNotShown` | pkg/cloud/devicemanager/manager.go:126-161 | And that no mapping of the instance has |
| `DeviceManager.ShownVolumeIsRecognised` | pkg/cloud/devicemanager/manager.go:137-141 | A volume shown under a name that no later mapping repeats and no reservation holds is answered as already there, unless it is also shown without a name |
| `DeviceManager.RecognisedIsReservedOrShown` | pkg/cloud/devicemanager/manager.go:137-141 | An answer that the volume is already there has the name of its reservation or of a mapping of it, and the card of its first mapping |
| `DeviceManager.FirstMappingDecides` | pkg/cloud/devicemanager/manager.go:226-235 | The card of a volume is that of its first mapping, and none without a mapping |
| `DeviceManager.GetAnswersShownOrReserved` | pkg/cloud/devicemanager/manager.go:237-249 | GetDevice answers with the name of a reservation or mapping of the volume, and with none only if there is neither in plain sight |
| `DeviceManager.ReservedVolumeIsRecognised` | pkg/cloud/devicemanager/manager.go:137-141 | A volume that holds a reservation is never reserved a second one, unless the description shows it without a device name |
| `DeviceManager.UnnamedVolumeMayBeReservedAgain` | pkg/cloud/devicemanager/manager.go:137-141 | Then it may be, because the empty name reads as none |
| `DeviceManager.GetFindsReservationIff` | pkg/cloud/devicemanager/manager.go:237-249 | GetDevice is sure to answer with the reserved name if and only if the instance shows the volume under no other name |
| `InFlightGuard.InFlight.Insert` | pkg/driver/internal/inflight.go:54-65 | Succeeds exactly if the key was absent, and holds it afterwards |
| `InFlightGuard.InFlight.Delete` | pkg/driver/internal/inflight.go:69-75 | Removes the key and nothing else |
| `InFlightGuard.KeyIsInjective` | pkg/driver/controller.go:502-505 | On volume IDs of the form vol-[a-z0-9]+ and node IDs that begin with i- or hyperpod- the concatenated key determines both |
| `InFlightGuard.DeletesHaveOtherKeys` | pkg/driver/controller.go:461-465 | The ID of a volume or snapshot being deleted is never the key of a publish or unpublish call |
| `InFlightGuard.KeyIsNotInjectiveInGeneral` | pkg/driver/controller.go:502-505 | On arbitrary strings it does not |
| `AttachProtocol.RunKeepsInvariant` | pkg/cloud/cloud.go:1270-1334 | Every run keeps the guard, the names and the handles consistent (`Inv`): likely-bad and reserved names legal, fresh handles backed by their reservation |
| `AttachProtocol.NamesAreNeverShared` | pkg/cloud/devicemanager/manager.go:87-161 | Over every interleaving, no two volumes in flight on a node hold one name, so GetNames is an exact inverse |
| `AttachProtocol.OneHandlePerVolumeAndNode` | pkg/driver/controller.go:502-508 | At most one live call holds a device for a volume and node |
| `AttachProtocol.TurnedAwayIffPending` | pkg/driver/controller.go:599-602 | A call is turned away with ABORTED if and only if a live call of the six that share the guard has the same key; on ordinary IDs that is if and only if a live publish or unpublish works on the same volume and node, or a live create has both IDs together as its name |
| `AttachProtocol.CreateMayStandInTheWay` | pkg/driver/controller.go:108-112 | While a volume named vol-1i-1 is being created, a publish of vol-1 on i-1 is turned away |
| `AttachProtocol.AllocationsKeepBalance` | pkg/cloud/devicemanager/manager.go:126-223 | After every run, a fresh device leaves balanced card loads balanced |
| `AttachProtocol.ControllerService.TryBegin` | pkg/driver/controller.go:502-505 | Inserting the key into the in-flight set, for any of the six calls, succeeds exactly when the protocol lets the call begin; a call turned away leaves no trace |
| `AttachProtocol.ControllerService.Finish` | pkg/driver/controller.go:602-605 | The deferred deletion ends the call and frees its key |
| `AttachProtocol.AllocationsAreLegal` | pkg/cloud/cloud.go:1280-1318 | After any run a fresh name is legal, not reserved and not shown by the instance, and failure means all 127 are reserved or shown |
| `AttachProtocol.RunKeeps` | pkg/cloud/cloud.go:1270-1334 | A reservation no live call owns survives every run without a clearing event |
| `AttachProtocol.TaintedNameIsWithheldIff` | pkg/cloud/cloud.go:1321-1327 | After a failed wait, the name of its device is withheld from all other volumes through every continuation without a clearing event, if and only if the volume holds a reservation of that name; a fresh device's volume does, and whatever name a volume holds is withheld. Otherwise another volume may reserve it as a device of its own, if and only if it is a legal name |
| `AttachProtocol.TaintedNameMayBeGivenAway` | pkg/cloud/cloud.go:1289-1327 | A run in which a wait fails for a device recognised in a description and the name goes to another volume at once |
| `AttachProtocol.ReleaseFreesIffSameName` | pkg/cloud/cloud.go:1402-1406 | Such a release ends the reservation if and only if its device has the reserved name |
| `AttachProtocol.ReservationsAreAccountedFor` | pkg/cloud/cloud.go:1270-1334 | After every run each reservation is held by a live attach or was left by a failed wait |
| `AttachProtocol.ReservationsHaveAReason` | pkg/cloud/cloud.go:1289-1327 | After every run, each reservation is held by a live attach, or a wait for that volume on that node has failed in the run |
| `AttachProtocol.WaitsOnlyForAccepted` | pkg/cloud/cloud.go:1291-1321 | In every run, a call waits for a fresh device only after EC2 accepted its attachment |
| `AttachProtocol.LikelyBadIffRefused` | pkg/cloud/cloud.go:1302-1317 | In every run, a name is likely bad if and only if EC2 refused it as in use and has not accepted it since |
| `AttachmentWait.Scan` | pkg/cloud/cloud.go:1672-1689 | The loop finds the last attachment to the instance; an unparsable resource ends it |
| `AttachmentWait.VerifyVolume` | pkg/cloud/cloud.go:1640-1760 | The poll function returns the specified verdict and leaves the specified attachment |
| `AttachmentWait.WaitForAttachmentState` | pkg/cloud/cloud.go:1636-1763 | The loop that carries `attachment` from poll to poll succeeds at the specified poll or fails |
| `AttachmentWait.DoneIffPollShowsAttached` | pkg/cloud/cloud.go:1672-1745 | A poll ends a wait for "attached" with success if and only if it itself shows a good attachment, whatever earlier polls left |
| `AttachmentWait.SuccessIsShownByLastPoll` | pkg/cloud/cloud.go:1636-1763 | The wait succeeds at the first poll that shows it |
| `AttachmentWait.DoneIffPollShowsDetached` | pkg/cloud/cloud.go:1644-1752 | A poll ends a wait for "detached" with success if and only if the volume is gone or shows no other state |
| `AttachmentWait.AttachFailsIff` | pkg/cloud/cloud.go:1644-1743 | A poll ends a wait for "attached" with failure if and only if the volume is gone, has several attachments it should not have, is stuck, or was reported as attached and is not, with nothing known that differs in device or card |
| `AttachmentWait.DetachFailsIff` | pkg/cloud/cloud.go:1665-1668 | A poll ends a wait for "detached" with failure if and only if there are several attachments that should not be |
| `AttachmentWait.AttachSucceedsIff` | pkg/cloud/cloud.go:1636-1763 | A wait for "attached" succeeds if and only if some poll shows the attachment and no earlier one gives up |
| `AttachmentWait.DetachSucceedsIff` | pkg/cloud/cloud.go:1636-1763 | A wait for "detached" succeeds if and only if some poll shows it and no earlier one has several attachments |
| `AttachmentWait.HyperPodAttachIff` | pkg/cloud/cloud.go:1673-1683 | On a HyperPod node a poll succeeds if and only if the last attachment of the node's resource is attached and all resources parse, and fails if and only if one does not or an attachment reported as existing is gone |
| `AttachmentWait.HyperPodDetachIff` | pkg/cloud/cloud.go:1673-1683 | And the same for "detached" |
| `AttachmentWait.CarriedOnlyPostponesFailure` | pkg/cloud/cloud.go:1695-1740 | The surviving attachment changes a verdict only by turning the already-assigned failure into a retry |
| `AttachmentWait.ForgettingNeverHelps` | pkg/cloud/cloud.go:1636-1763 | A wait that forgets the attachment between polls agrees for new attachments and whenever it succeeds |
| `AttachmentWait.ForgettingCanHurt` | pkg/cloud/cloud.go:1636-1763 | A wait that succeeds only because the attachment survives |
| `Quarantine.Batch.RemoveLikelyBadIds` | pkg/cloud/cloud.go:560-572 | The input is split by membership in the cache, with nothing lost or repeated |
| `Quarantine.Batch.ExecBatchDescribeVolumes` | pkg/cloud/cloud.go:575-647 | The batched lookup computes the specified result and cache |
| `Quarantine.SuccessAgreesWithOneByOne` | pkg/cloud/cloud.go:575-647 | A successful batch returns what single lookups would, and the cache forgets exactly the IDs found |
| `Quarantine.SucceedsIffMissingQuarantined` | pkg/cloud/cloud.go:609-618 | A batch succeeds if and only if every missing ID in it is quarantined; otherwise exactly the IDs EC2 names join the quarantine |
| `Quarantine.RoundShrinksDanger` | pkg/cloud/cloud.go:609-632 | A failing round strictly shrinks the missing IDs not yet quarantined; a successful one leaves them |
| `Quarantine.FailuresAreBounded` | pkg/cloud/cloud.go:560-647 | Over any series of batches the failures are at most the missing IDs not quarantined at the start |
| `Quarantine.RetrySucceeds` | pkg/cloud/cloud.go:560-647 | A repeated batch ends in success within that bound and returns exactly the existing IDs |
| `Quarantine.Batch.ExecBatchDescribeVolumesByName` | pkg/cloud/cloud.go:575-647 | The batched lookup by name: the filter's volumes and those whose IDs are the cached names, keyed by their names, with the shared cache updated |
| `Quarantine.KeyedByName` | pkg/cloud/cloud.go:634-644 | The response becomes a map from the names found to a volume that bears each |
| `Quarantine.NamesAgreeIff` | pkg/cloud/cloud.go:575-647 | A batch of names finds what single lookups would if and only if each cached name that a volume bears is borne by one whose ID is a cached name of the batch too; for names of existing volumes that are nobody's ID, if and only if none is cached |
| `Quarantine.CachedNameIsNotFound` | pkg/cloud/cloud.go:620-632 | A volume named like a quarantined ID is not found |
| `ExpiringCache.LookupIsLastSetOrNothing` | pkg/expiringcache/expiring_cache.go:68-106 | After every history a lookup finds nothing or the value last set since the last removal |
| `ExpiringCache.FoundIffNotTakenAway` | pkg/expiringcache/expiring_cache.go:68-106 | After every history a lookup finds a value if and only if it was last set and neither a removal nor a callback for the key came since |
| `ExpiringCache.EveryKeyIsDoomed` | pkg/expiringcache/expiring_cache.go:80-99 | Every stored key has a timer of its own, armed or with a callback on its way |
| `ExpiringCache.OwnTimerIsNeverEarly` | pkg/expiringcache/expiring_cache.go:68-99 | A stored key's own timer is due exactly the delay after the key was last touched, and fires no earlier |
| `ExpiringCache.UndisturbedIsNeverEarly` | pkg/expiringcache/expiring_cache.go:68-106 | For every history without a removal of the key and without a touch of it while its callback is on its way, no callback takes its value sooner than the delay after the last touch |
| `ExpiringCache.RecentIsFound` | pkg/expiringcache/expiring_cache.go:68-99 | In such a history a key that was set or found less than the delay ago is found, with its value |
| `ExpiringCache.MayGoEarlyIff` | pkg/expiringcache/expiring_cache.go:68-106 | After every history, time and timers alone can take a key sooner than the delay after its last touch if and only if that time has not come and a timer for the key has a callback on its way or is armed for an earlier time |
| `ExpiringCache.OwnTimerThreatensIff` | pkg/expiringcache/expiring_cache.go:72-86 | The key's own timer is such a one if and only if it has a callback from before it was reset; any other was left over |
| `ExpiringCache.LateTouchDoesNotKeep` | pkg/expiringcache/expiring_cache.go:72-74 | A history in which Get finds a value that is gone in the same instant |
| `ExpiringCache.RemovedTimerEvictsSuccessor` | pkg/expiringcache/expiring_cache.go:101-106 | A history in which a value is gone in the instant it was set, because Remove left the old timer running |
| `ExpiringCache.Cache.Get` | pkg/expiringcache/expiring_cache.go:68-78 | Returns the lookup's result and performs the specified step |
| `ExpiringCache.Cache.Set` | pkg/expiringcache/expiring_cache.go:80-99 | Performs the specified step |
| `ExpiringCache.Cache.Remove` | pkg/expiringcache/expiring_cache.go:101-106 | Performs the specified step, which leaves the timers alone |
| `ExpiringCache.Cache.RunCallback` | pkg/expiringcache/expiring_cache.go:90-95 | Deletes whatever is stored under the key |
| `ClientTokens.ItoaRoundTrip` | pkg/cloud/cloud.go:763-766 | Token numbers are written so that they can be read back |
| `ClientTokens.TokenCache.Create` | pkg/cloud/cloud.go:763-821 | An attempt uses the cached number's token, and only a mismatch changes the cache |
| `ClientTokens.CacheCountsMismatches` | pkg/cloud/cloud.go:815-821 | After every history the cached number is one more than the name's mismatches, and absent if there were none |
| `ClientTokens.SameTokenIffNoMismatchBetween` | pkg/cloud/cloud.go:763-821 | Two attempts for a name use the same token if and only if no mismatch came between |
| `ClientTokens.DifferentNamesCollideIff` | pkg/cloud/cloud.go:763-766 | Different names share a token if and only if one is the other followed by the number the other has reached |
| `ClientTokens.AttemptsCollideIff` | pkg/cloud/cloud.go:763-821 | Over every history, attempts for different names use one token if and only if one has had no mismatch and its name is the other's followed by the number that one has reached |
| `ClientTokens.AttemptsMayCollide` | pkg/cloud/cloud.go:763-766 | A history in which the volumes x and x-2 use one token |

## Left out

- AWS SDK clients, retryers, IMDS, Kubernetes clients and the SageMaker path for HyperPod nodes; of HyperPod only the wait's comparison of instances is kept.
- Node service, mounters, NVMe and Windows code, metrics, tracing, logging and option flags.
- Snapshots, volume creation beyond its token, volume limits and availability zones; IOPS limits are a parameter.
- Time: the batcher and the cache use a clock of ticks, the coalescer fires timers in any order, and backoff is a number of polls.
- The execution of a Go template, strconv parsing and strings.EqualFold are arbitrary functions; SHA-256 is left out and tokens are compared before hashing.
- Parameter keys are a datatype: that key strings and prefixes map to its constructors is not modelled.
- Channel capacities and blocking: a send and its receive are one event, and the batcher's queue is unbounded.
- The order in which CreateTags lists its tags.
- EC2 volumes have a size that is not negative; a missing size is not modelled.
- Nil EBS parts of block device mappings: the code dereferences them, so the device manager requires them to be present.
- The attachment value returned by WaitForAttachmentState, and the extra DetachVolume and AttachVolume calls it makes before it fails; the model has its verdicts.
- Expiry of the quarantine and of the client-token cache while their theorems run; the loss of likely-bad names is modelled.
- The batched lookups of instances and snapshots.
- Quarantine.RetrySucceeds: assumes EC2 names at least one missing ID in a refusal, and that lookups fail only for missing IDs.
- DeviceManager.LeastCard: says nothing when every card holds 2^31 - 1 volumes or more, because the scan starts from that number.
- AttachProtocol.TaintedNameIsWithheldIff: counts as clearing, besides a forced release and a successful retry, a retry that sees the volume in a mapping without a device name.
- Batcher.DuplicatesPostpone: needs a delay of at least two ticks, since its clock moves by one tick between duplicates.
- DeviceManager.NewDeviceKeepsBalance: assumes card indices below the number of cards, and a volume not shown without a device name.
- InFlightGuard.KeyIsInjective: covers identifiers of EC2 and HyperPod only, because the key of arbitrary strings is ambiguous.
