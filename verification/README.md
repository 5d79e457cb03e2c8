# Verified model of the Thalassa Cloud CSI driver

A Dafny model of what the driver does with volumes, snapshots and mounts, and proofs of what holds
over whole runs of it. `dafny verify dfyconfig.toml` checks everything.

| part | files |
|---|---|
| attach/detach protocol, for every interleaving | `Iaas`, `AttachProtocol`, `AttachRuns`, `AttachServes`, `AttachOutcomes`, `Attachment` |
| token pagination and the two list calls | `Lex`, `Pagination`, `PaginationRuns`, `Listing` |
| staging and publishing on a node | `Devices`, `Mounter`, `Node`, `NodeRuns`, `MountChain` |
| volume life cycle and sizes | `Capacity`, `Volumes`, `VolumeRuns` |
| snapshot life cycle | `Snapshots`, `SnapshotRuns` |
| custom labels | `Text`, `Labels` |

Code that changes state step by step is a class or a method with loops, proved against a
specification function or, for attach and detach, against the protocol's state machine; the lemmas
are about those specifications and about runs of them.

## What is assumed of the surroundings

- Attach/detach: each API request takes effect, if at all, between its call and its answer.
  AttachVolume adds one attachment and does not itself refuse a second; DetachVolume removes only
  the named one and answers not-found only if it is absent; a volume reads "available" only without
  attachments; attachment and machine identities are not empty. Machines, statuses and volumes
  change at any time otherwise. Nobody but the driver attaches or detaches.
- At most one publish or unpublish call is in flight per volume (section "Concurrency" of the CSI
  specification v1.12.0); without this a volume can be attached twice
  (`AttachRuns.TwoInFlightAttachTwice`). Calls on different volumes, and the cloud's own steps,
  interleave freely.
- Between two API calls of one call, `Attachment.Cloud.Others` stands for all other activity: its
  callers rely on nothing but its contract, which any such activity meets.
- `NewDriver` sets no kubeConfig (driver/controller.go:171-185), so the calls are modelled without
  that branch.
- Volume identities given to listing are distinct; `Pagination.StallsIff` says what happens otherwise.
- GetVolume finds a volume by identity, else by name, as CreateVolume's lookup by name needs;
  UpdateVolume and DeleteVolume address the same resource path
  (vendor/github.com/thalassa-cloud/client-go/iaas/volumes.go:50-114) and resolve their key alike.
  The API does not reuse identities; list filters on identity and name are exact for volumes and lose nothing for snapshots.
- A snapshot found available by the wait is still so when read again, with the same identity, name
  and source; its size and the form in which its source is given are the API's choice.
- The mounter is the repository's in-memory one, with two more sets of injected errors for the
  probes IsFormatted and IsMounted, whose real versions can fail. Symlink evaluation and growing the
  file system are outcomes handed in, and growing may fail after the mount happened.
- The mount chain is for an orchestrator that keeps the order of the CSI specification's section
  "Volume Lifecycle" and uses distinct staging and target paths; the other node results need neither.
- Strings are sequences of code points. Go compares bytes, which for valid UTF-8 is the same order.
  Case folding is modelled for ASCII, which is exact for "attached" and "available".

## What the proofs found

- A requirement below 1 GiB with a limit is granted below the minimum size, and sizes are rounded
  down to whole GiB, so a volume may be smaller than required (`Capacity.SizeMeetsRange`,
  `Capacity.FloorMeetsRequirementIff`).
- Repeating CreateVolume with a size that is not a whole number of GiB answers AlreadyExists, and the
  volume-identity parameter can lead to a second volume of the same name (`VolumeRuns.RetryCreate`,
  `VolumeRuns.CreateKeepsNamesIff`, `VolumeRuns.CreateDoubles`).
- DeleteVolume is repeatable unless a remaining volume is named after the deleted identity: a repeat
  that takes effect then deletes that volume (`VolumeRuns.DeleteExact`, `VolumeRuns.DeleteRepeats`).
- ControllerUnpublishVolume resolves node ids differently from publish when names and identities
  collide (`AttachRuns.ResolutionsAgree`), so it can report success with the volume still attached.
  It has detached a volume if and only if the node id, if a known machine identity, or else the
  first listed machine it names, is the attached machine (`AttachServes.UnpublishDetachesIff`,
  `AttachOutcomes.UnpublishOutcome`); `AttachRuns.UnpublishMisses` is an input on which it does not,
  and `AttachRuns.AssumedDetached` the case of a node id that names no machine.
- NodeStageVolume and NodePublishVolume do not look at what is mounted: staging gives the own device
  if and only if the path was unmounted or mounted from it (`NodeRuns.StagedRightIff`; not so in
  `NodeRuns.StagedWrong`), and publish a right chain if and only if the staging path was mounted from
  the own device (`MountChain.PublishRightIff`; not so in `MountChain.PublishUnstaged`).
- Volume ids with a slash can share a device path, because joining cleans it
  (`Devices.DevicePathsCollide`; not without a slash, `Devices.DevicePathInjective`).
- A snapshot whose source is known by its id field only is reported without a source
  (`Snapshots.ReportedSourceIff`).

## Model

| member | source | states |
|---|---|---|
| `Iaas.Resolve` | driver/controller_attachment.go:93-104 | a node id resolves to the identity of the first listed machine whose name, identity or slug it is, and to nothing exactly when there is none |
| `Iaas.NamedByAll` | driver/controller_attachment.go:94 | a machine answers to its name, its identity and its slug, and to nothing else |
| `Iaas.StatusesApart` | driver/controller_attachment.go:144 | the statuses that end polling, in any case, are told apart from "attaching", "detaching" and each other |
| `AttachProtocol.Without` | driver/controller_attachment.go:237-240 | detaching removes the named machine and keeps every other attachment |
| `AttachProtocol.StepFrame` | driver/controller_attachment.go:56-156 | a step of one call leaves every other call and every other volume as they were |
| `AttachProtocol.StepAgrees` | driver/controller_attachment.go:56-156 | after each step of a call its stale copy still agrees with the cloud on its volume, and the volume has at most one attachment |
| `AttachProtocol.StepKeepsInv` | driver/controller_attachment.go:35-269 | every step of every call and of the cloud keeps: at most one attachment per volume, no empty attachment identity, "available" only without attachments, one call in flight per volume, and every in-flight copy agreeing with the cloud |
| `AttachRuns.RunKeepsInv` | driver/controller_attachment.go:35-269 | the invariant holds in every state of every interleaving |
| `AttachRuns.Exclusivity` | driver/controller_attachment.go:56-134 | attachment exclusivity: in every reachable state each volume has at most one attachment, and AttachVolume is only ever issued for a volume without attachments |
| `AttachRuns.StaysAttachedStep` | driver/controller_attachment.go:106-134 | one step ends an attachment if and only if it is an effective detach of that machine from that volume or the deletion of the volume |
| `AttachRuns.StaysAttached` | driver/controller_attachment.go:106-134 | an attachment stays, and stays alone, until it is detached or the volume deleted, whatever other calls do |
| `AttachRuns.PublishedIsAttached` | driver/controller_attachment.go:106-156 | a publish call that answers success leaves its volume, if it exists, attached to the machine it answers with, alone |
| `AttachRuns.NoOtherPublish` | driver/controller_attachment.go:106-122 | while a volume is attached to one machine no publish for another machine succeeds |
| `AttachRuns.Migration` | driver/controller_attachment.go:106-134 | between a successful publish to A and one to B there is an effective detach from A (or a deletion), which leaves the volume unattached |
| `AttachRuns.OtherMachineRefused` | driver/controller_attachment.go:119-122 | until then the decision of a publish to B is FailedPrecondition and changes no volume |
| `AttachRuns.Converges` | driver/controller_attachment.go:106-156 | after an attach took effect, even one reported as failed or not confirmed by polling, every later publish that resolves to the same machine succeeds at its decision, and no second AttachVolume is issued for that volume |
| `AttachRuns.RetrySucceeds` | driver/controller_attachment.go:56-117 | from any reachable state with the volume attached, a publish to that machine on a working API succeeds in three steps and changes no volume |
| `AttachRuns.ResolutionsAgree` | driver/controller_attachment.go:76-104 | publish and unpublish resolve a listed node id alike if and only if the id is not a known machine identity or the first listed match has that identity; without collisions they always agree |
| `AttachRuns.ResolutionsMayDiffer` | driver/controller_attachment.go:199-235 | a machine named after the identity of another makes the two resolutions differ |
| `AttachRuns.UnpublishLooksUp` | driver/controller_attachment.go:160-203 | an unpublish of an attached volume does not take the early exit and looks up its machine |
| `AttachRuns.DetachEmpties` | driver/controller_attachment.go:237-246 | detaching the only attachment empties the volume and changes nothing else |
| `AttachRuns.FaultFreeUnpublish` | driver/controller_attachment.go:160-269 | from every reachable state with the volume attached an unpublish can run to its end without failures; one such run is given, which ends with success, and with the volume unattached if and only if the node id, if a known identity, or else the first listed machine it names, is the attached machine; otherwise it changes no volume |
| `AttachRuns.FaultFreeAim` | driver/controller_attachment.go:160-235 | the first part of that run ends in a detach of that machine, or in success if there is none |
| `AttachRuns.FaultFreeDetach` | driver/controller_attachment.go:237-268 | the second part of that run empties the volume if the machine is the attached one, and otherwise changes no volume; it succeeds either way |
| `AttachRuns.ListEnds` | driver/controller_attachment.go:205-231 | after the fallback list the call detaches the first named machine, or ends with success if none is named |
| `AttachRuns.DetachEnds` | driver/controller_attachment.go:237-268 | detach, the volume turning available, and the poll that sees it end the call with success and the volume unattached |
| `AttachRuns.DetachMisses` | driver/controller_attachment.go:241-244 | a detach of a machine that is not attached is answered not-found and ends the call with success, volumes unchanged |
| `AttachRuns.FaultFreePublish` | driver/controller_attachment.go:35-156 | from every reachable state with the volume unattached a publish can run to its end without failures, with success and the volume attached to the machine the node id stands for |
| `AttachRuns.UnpublishMisses` | driver/controller_attachment.go:76-244 | a run from an unattached volume on which unpublish does not undo publish: the node id is the name of one machine and the identity of another; publish attaches to the first, unpublish goes to the other and answers success with the volume still attached |
| `AttachRuns.AssumedDetached` | driver/controller_attachment.go:220-231 | the fallback scan ends with success while the volume stays attached if and only if no listed machine answers to the node id |
| `AttachRuns.DetachOnlyTarget` | driver/controller_attachment.go:237-246 | a detach aimed at another machine leaves the attachment alone |
| `AttachRuns.TwoInFlightAttachTwice` | driver/controller_attachment.go:56-134 | two publish calls for one unattached volume in flight together can attach it twice, for any two node ids that stand for machines |
| `AttachServes.CallMoves` | driver/controller_attachment.go:56-269 | one step moves a call only along its own path: the machine of an attach is what its node id resolves to in that step, the machine of a detach is the known node id or what it resolves to in that step |
| `AttachServes.PublishServesNode` | driver/controller_attachment.go:76-134 | in every run a publish call for a volume and node only attaches that volume, to the machine the node id stood for when the call listed the machines, and only answers success for it |
| `AttachServes.SuccessSawAttached` | driver/controller_attachment.go:106-149 | in every run a publish call answers success only once it has seen its volume attached to the machine: in the copy it decided on, or by a poll that read the status "attached" |
| `AttachServes.UnpublishServesNode` | driver/controller_attachment.go:199-246 | in every run an unpublish call for a volume and node only detaches from that volume, and only the machine that is the node id, if that is a known identity, else the one it stood for when the call listed the machines |
| `AttachServes.DetachNamesOwn` | driver/controller_attachment.go:199-246 | under every interleaving and all failures: while the node id stands for one machine without collision, every DetachVolume of an unpublish call names that machine, empties a volume attached to it and leaves any other attachment alone |
| `AttachServes.UnpublishUndoesPublish` | driver/controller_attachment.go:93-246 | unpublish detaches exactly what publish attached: while the node id stands for one machine without collision, every DetachVolume of every later unpublish call names the machine that the successful publish answered with |
| `AttachServes.UnpublishDetachesIff` | driver/controller_attachment.go:160-269 | under every interleaving, with the machines unchanged during the call: a successful unpublish of a volume attached to a machine has left it unattached if and only if the node id is aimed at that machine, and otherwise has left it attached |
| `AttachServes.SuccessServes` | driver/controller_attachment.go:76-156 | a call begun for a volume and node that ended with publish success has listed the machines when the node stood for the machine it answers with, and has seen the volume attached to it |
| `AttachServes.DetachServes` | driver/controller_attachment.go:199-235 | a call begun for a volume and node that is about to detach has looked the node up, with the machine it names as result |
| `AttachOutcomes.PublishReads` | driver/controller_attachment.go:56-62 | the first read of a publish: a missing volume is NotFound, any error Unknown |
| `AttachOutcomes.PublishPolls` | driver/controller_attachment.go:137-149 | a publish poll succeeds if and only if the volume reads "attached"; any other status leaves the call polling; an error or a missing volume fails it |
| `AttachOutcomes.UnpublishReads` | driver/controller_attachment.go:168-182 | the first read of an unpublish: success at once if and only if the volume is gone, or has no attachment and reads "available" |
| `AttachOutcomes.UnpublishPolls` | driver/controller_attachment.go:249-265 | an unpublish poll succeeds if and only if the volume is gone or reads "available"; any other status leaves the call polling |
| `AttachOutcomes.FailingSteps` | driver/controller_attachment.go:56-265 | a failing step or a timeout ends the call with Unknown, an attach answered not-found with NotFound |
| `AttachOutcomes.UnpublishSucceedsIff` | driver/controller_attachment.go:160-269 | in every run an unpublish call fails if and only if the API fails one of its steps or its polling times out; otherwise it is under way or has answered success |
| `AttachOutcomes.UnpublishOutcome` | driver/controller_attachment.go:160-269 | in every run without such a failure, with the machines unchanged during the call, an unpublish that ends answers success, and leaves the volume unattached if the node id is aimed at the attached machine and attached as it was otherwise |
| `AttachOutcomes.PublishOutcome` | driver/controller_attachment.go:56-156 | in every run without such a failure, with the machines unchanged during the call, a publish that ends answers NotFound for a node id that names no machine, success with the volume attached to the machine if it was unattached or attached to it, and FailedPrecondition with the attachment as it was otherwise; a call that attached the volume ends with the poll that reads it "attached" |
| `AttachOutcomes.StepKeepsCourse` | driver/controller_attachment.go:56-156 | every step of the call or of others keeps a properly answered publish on the way to that outcome |
| `Attachment.Cloud.constructor` | driver/controller_attachment.go:55-62 | a cloud with well-formed volumes and machines starts reachable |
| `Attachment.Cloud.Knows` | driver/controller_attachment.go:56-62 | in a reachable state the copy of a call agrees with the cloud |
| `Attachment.Cloud.Served` | driver/controller_attachment.go:76-156 | what the cloud went through shows that the machine of a successful publish is the one its node id stood for |
| `Attachment.Cloud.AimServed` | driver/controller_attachment.go:199-235 | what the cloud went through shows that the machine about to be detached is the one the node id leads to |
| `Attachment.Cloud.Others` | driver/controller_attachment.go:137-148 | between two API calls any steps of other calls may happen; the own call stays where it is and reads nothing |
| `Attachment.Cloud.GetVolume` | driver/controller_attachment.go:56-62 | a read gives the stored volume, not found, or an error, and is one protocol step |
| `Attachment.Cloud.ListMachines` | driver/controller_attachment.go:79-93 | the list call gives the machines or an error, and is one protocol step |
| `Attachment.Cloud.GetMachine` | driver/controller_attachment.go:201-235 | the lookup finds known identities only, and is one protocol step |
| `Attachment.Cloud.AttachVolume` | driver/controller_attachment.go:125-134 | an attach adds one attachment or fails before or after its effect, and is one protocol step |
| `Attachment.Cloud.DetachVolume` | driver/controller_attachment.go:237-246 | a detach removes the named attachment only or fails before or after its effect, and is one protocol step |
| `Attachment.FindMachine` | driver/controller_attachment.go:94-101 | the scan loop finds what Resolve specifies |
| `Attachment.ScanAttachments` | driver/controller_attachment.go:106-117 | the scan loop reports a hit on the target exactly when it is attached, and otherwise the last identity |
| `Attachment.AimAttach` | driver/controller_attachment.go:76-122 | list, scan and decide end in the attach the protocol decides on, or in the answer it records; either way success is for the machine that the node resolves to |
| `Attachment.AttachAndWait` | driver/controller_attachment.go:125-156 | success means that the volume is attached to the machine alone |
| `Attachment.WaitUntilAttached` | driver/controller_attachment.go:137-149 | polling succeeds only with the volume attached to the machine and reading "attached"; a timeout comes after exactly the given number of reads |
| `Attachment.DecideAndAttach` | driver/controller_attachment.go:76-156 | after the read, success means that the volume is attached to the answered machine alone, and the answer is the one the protocol records |
| `Attachment.ControllerPublishVolume` | driver/controller_attachment.go:35-157 | under every interleaving the call is begun for the requested volume and node and its answer is the one the protocol records; success means that its machine is the one the requested node stood for when the machines were listed, that the call saw the volume attached to it, and that the volume is attached to it alone; invalid requests change nothing |
| `Attachment.AimDetach` | driver/controller_attachment.go:199-235 | the get-then-list lookup ends in the detach target, or in the answer the protocol records |
| `Attachment.ReadForDetach` | driver/controller_attachment.go:168-182 | the call goes on to look up its machine, or has ended with the answer the protocol records, success meaning volume gone or unattached |
| `Attachment.FindAndDetach` | driver/controller_attachment.go:199-268 | the target is the machine the node id leads to, and success means volume gone, unattached, target not attached, or no machine for the node id |
| `Attachment.WaitUntilDetached` | driver/controller_attachment.go:249-265 | polling succeeds only with the volume gone, or unattached and reading "available"; a timeout comes after exactly the given number of reads |
| `Attachment.DetachAndWait` | driver/controller_attachment.go:237-268 | success means that the machine is not attached |
| `Attachment.ControllerUnpublishVolume` | driver/controller_attachment.go:160-269 | under every interleaving the call is begun for the requested volume and node, its answer is the one the protocol records and its target is the machine the requested node leads to; success means volume gone, unattached, target not attached, or no machine for the node id |
| `Lex.Transitive` | driver/pagination.go:16 | the order of sort.Strings is transitive |
| `Lex.Trichotomy` | driver/pagination.go:16 | the order of sort.Strings is total |
| `Lex.SortedUnique` | driver/pagination.go:15-16 | a multiset of strings has one sorted listing |
| `Lex.SortStrings` | driver/pagination.go:15-16 | the array is sorted in place and permuted |
| `Pagination.PaginateIdentities` | driver/pagination.go:10-40 | InvalidArgument exactly for a negative maximum and Aborted exactly for a token that is not listed; otherwise the sorted identities, the first index of the token, the page end and the next token |
| `Pagination.PageUnique` | driver/pagination.go:15-39 | the page is determined by identities, token and maximum |
| `Pagination.PageIsInterval` | driver/pagination.go:18-37 | a page of distinct identities holds exactly the identities from its token up to the next token; the next token is a later, non-empty identity, and empty only on the last page |
| `Pagination.StallsIff` | driver/pagination.go:20-37 | a page hands out its own token again if and only if more copies of that identity exist than fit the page |
| `PaginationRuns.ListedFrom` | driver/pagination.go:18-37 | from a token on, a run lists in strict order only identities at or above it, and all that stay present |
| `PaginationRuns.PaginationUnderChange` | driver/pagination.go:15-37 | with the collection and page size changing between calls, a run to the end lists nothing twice and every identity present throughout exactly once |
| `PaginationRuns.NextPageStarts` | driver/pagination.go:32-37 | over an unchanged collection the next page starts where the page ended |
| `PaginationRuns.PageCountIsCeiling` | driver/pagination.go:32-37 | the number of pages is max(1, ceil(m / k)) |
| `PaginationRuns.FixedListed` | driver/pagination.go:18-37 | the pages from a token on join to the sorted identities from its position on |
| `PaginationRuns.FixedCount` | driver/pagination.go:32-37 | the calls from a token on are as many as pages of the remaining identities |
| `PaginationRuns.FixedCollection` | driver/pagination.go:10-40 | over distinct identities following NextToken takes as many calls as there are pages and joins to the sorted permutation |
| `PaginationRuns.WalkEnds` | driver/pagination.go:10-40 | from every token of distinct identities there is a run to the end |
| `Listing.Index` | driver/controller_volumes.go:301-306 | the map holds exactly the listed identities, each with a record of that identity |
| `Listing.IndexFinds` | driver/controller_volumes.go:301-315 | with distinct identities the map gives every record back |
| `Listing.CollectVolumes` | driver/controller_volumes.go:301-306 | the loop collects the identities in order and the map of records |
| `Listing.ShowVolumes` | driver/controller_volumes.go:313-330 | the loop shows the records of a page in order, as VolumesShown describes them |
| `Listing.VolumesShown` | driver/controller_volumes.go:313-330 | every entry is of a listed volume of the identity on its place: its identity, its size in bytes, and the machines it is attached to |
| `Listing.ListVolumes` | driver/controller_volumes.go:280-339 | the response is the page of the listed identities; each entry is of a listed volume of that identity with its size in bytes and its attachments; the page has at most the requested number of entries, or the default page size if none is requested |
| `Listing.CollectSnapshots` | driver/controller_snapshots.go:229-234 | the loop collects the identities in order and the map of records |
| `Listing.ShowSnapshots` | driver/controller_snapshots.go:241-250 | the loop shows the snapshots of a page in order, as SnapshotsShown describes them |
| `Listing.SnapshotsShown` | driver/controller_snapshots.go:241-250 | every entry is of a listed snapshot of the identity on its place: its source, its size in bytes, and ready exactly if it is available |
| `Listing.ListSnapshots` | driver/controller_snapshots.go:186-255 | one snapshot by id, or the page of the listed identities with at most the requested number of entries; each entry is of a listed snapshot of that identity with its source, its size in bytes, and ready exactly if it is available |
| `Listing.AllEntriesAt` | driver/controller_volumes.go:313-334 | the joined responses show the joined identities |
| `Listing.ListsEachOnce` | driver/controller_volumes.go:301-334 | listing distinct records to the end shows each exactly once with its own data |
| `Listing.EveryVolumeListed` | driver/controller_volumes.go:280-339 | listing distinct volumes to the end shows each exactly once, with its identity, its size in bytes and the machines it is attached to |
| `Listing.EverySnapshotListed` | driver/controller_snapshots.go:229-255 | listing distinct snapshots to the end shows each exactly once, with its source, its size in bytes and its readiness |
| `Devices.DevicePathPlain` | driver/node.go:511-513 | for an id without a slash the path is the by-id directory, the prefix and the id, although the join cleans paths |
| `Devices.DevicePathIs` | driver/node.go:511-513 | for an id without a slash the path is /dev/disk/by-id/scsi-0QEMU_QEMU_HARDDISK_ followed by the id |
| `Devices.DevicePathsCollide` | driver/node.go:511-513 | with slashes two ids can share a device path: what precedes "/../" in the id is cleaned away |
| `Devices.DevicePathInjective` | driver/node.go:509-513 | volumes with different ids (without slash) have different device paths |
| `Mounter.MockMounter.constructor` | driver/mock_mounter.go:43-55 | a new mounter has nothing mounted and nothing formatted |
| `Mounter.MockMounter.Format` | driver/mock_mounter.go:77-84 | records the file system of the device, or fails without effect |
| `Mounter.MockMounter.IsAttached` | driver/mock_mounter.go:86-92 | tells whether the device is attached |
| `Mounter.MockMounter.IsFormatted` | driver/mock_mounter.go:94-98 | tells whether the device has been formatted |
| `Mounter.MockMounter.Mount` | driver/mock_mounter.go:105-112 | records the source of the target, or fails without effect |
| `Mounter.MockMounter.Unmount` | driver/mock_mounter.go:114-121 | forgets the target, mounted or not, or fails without effect |
| `Mounter.MockMounter.IsMounted` | driver/mock_mounter.go:123-127 | tells whether something is mounted at the target |
| `Node.Driver.NodeStageVolume` | driver/node.go:57-168 | the new mounter state and answer are those of AfterStage, also when growing the file system fails after the mount |
| `Node.Driver.NodeUnstageVolume` | driver/node.go:171-200 | the new mounter state and answer are those of AfterUnstage |
| `Node.Driver.NodePublishVolume` | driver/node.go:203-244 | the new mounter state and answer are those of AfterPublish |
| `Node.Driver.PublishFilesystem` | driver/node.go:451-480 | mounts the staging path at the target unless something is mounted there |
| `Node.Driver.PublishBlock` | driver/node.go:482-507 | mounts the resolved device at the target unless something is mounted there |
| `Node.Driver.NodeUnpublishVolume` | driver/node.go:247-266 | the new mounter state and answer are those of AfterUnpublish |
| `NodeRuns.NoFormatNeverFormats` | driver/node.go:104-112 | staging with the noformat annotation formats nothing |
| `NodeRuns.StepKeepsOnce` | driver/node.go:104-148 | no call formats a formatted device or changes a recorded file system |
| `NodeRuns.FormatOnce` | driver/node.go:104-148 | over every run with any failures a device is formatted at most once, never if it was formatted before, and its recorded file system never changes |
| `NodeRuns.StepKeepsFormatted` | driver/node.go:104-148 | each call keeps: staged mounts come from formatted devices unless staged noformat |
| `NodeRuns.StagedFromFormatted` | driver/node.go:104-148 | over every run each mount made by staging is from a formatted device or was staged noformat |
| `NodeRuns.StageDoes` | driver/node.go:104-148 | a successful stage on an unmounted path formats the own device only if it is neither formatted nor declined, and mounts it with the requested file system, ext4 by default, and the requested flags |
| `NodeRuns.NodeRefuses` | driver/node.go:57-266 | InvalidArgument exactly for missing ids, paths or access types, with nothing done; staging a block volume does nothing and succeeds |
| `NodeRuns.UnstageExact` | driver/node.go:171-200 | unstaging succeeds exactly if the probe and the unmount of a mounted path do, and leaves the path unmounted; a failure changes nothing |
| `NodeRuns.UnpublishExact` | driver/node.go:247-266 | unpublishing succeeds exactly if the unmount does, which is tried on an unmounted target too; a failure changes nothing |
| `NodeRuns.StageUnstage` | driver/node.go:57-200 | a successful stage mounts the own device and changes nothing else but possibly its formatted entry; unstage restores the mounts; both are idempotent |
| `NodeRuns.StageSucceedsIff` | driver/node.go:80-168 | staging a file system succeeds exactly without the failures on its way, touches nothing when the device is not ready, leaves the mounts on failure unless only growing failed, and answers Unknown exactly for a failing probe |
| `NodeRuns.StagedRightIff` | driver/node.go:137-148 | a successful stage leaves the path mounted, from the own device if and only if it was unmounted before or mounted from that device already |
| `NodeRuns.StagedWrong` | driver/node.go:137-148 | a state where it is not: staging succeeds on a path that something else is mounted on, and leaves that there |
| `NodeRuns.PublishUnpublish` | driver/node.go:451-480 | publishing a file system is one bind mount of the staging path with the requested file system and flags, with "ro" among the driver options exactly if asked; it is idempotent and unpublish undoes it |
| `NodeRuns.PublishSucceedsIff` | driver/node.go:451-480 | publishing a file system succeeds exactly if the probe and, on an unmounted target, the mount do; a failure changes nothing |
| `NodeRuns.PublishBlockExact` | driver/node.go:482-507 | publishing a block volume succeeds exactly if the device is found under /dev and the probe and, on an unmounted target, the mount succeed; then the target gains the device, by one bind mount without file system, with "ro" exactly if asked; otherwise nothing changes |
| `NodeRuns.PublishBlockUndone` | driver/node.go:482-507 | publishing a block volume again changes nothing, and unpublish undoes it |
| `MountChain.StageKeeps` | driver/node.go:57-168 | a stage in lifecycle order keeps the chain, whatever its result |
| `MountChain.PublishKeeps` | driver/node.go:203-244 | a publish in lifecycle order keeps the chain, whatever its result |
| `MountChain.UnmountKeeps` | driver/node.go:171-266 | an unstage or unpublish in lifecycle order keeps the chain, whatever its result |
| `MountChain.RunKeepsInv` | driver/node.go:57-266 | the chain invariant holds after every run in lifecycle order |
| `MountChain.Chain` | driver/node.go:80-168 | after every run in lifecycle order each mounted file system target has its volume's staging path as source, which is mounted from the volume's own device |
| `MountChain.PublishIgnoresStaging` | driver/node.go:463-475 | publish succeeds and binds the staging path whether or not anything is mounted there |
| `MountChain.PublishRightIff` | driver/node.go:451-480 | publishing a file system leaves a right chain if and only if an id or path is empty, the mount check or the mount fails, or the staging path was mounted from the own device before; a target mounted before is left as it was |
| `MountChain.PublishUnstaged` | driver/node.go:451-480 | a state where it breaks: with nothing staged and nothing failing publish succeeds and binds an unmounted staging path |
| `Capacity.SizeMeetsRange` | driver/capacity.go:29-76 | a granted size meets the bounds that are set and the maximum, is the least such size for a requirement, and is below 1 GiB exactly for a small requirement with a limit, such as 1 byte with a limit of 1 GiB |
| `Capacity.SizeFailsIff` | driver/capacity.go:45-63 | the range is refused exactly when no supported size fits or a lone limit exceeds the maximum |
| `Capacity.FloorToGib` | driver/controller_volumes.go:121 | the provisioned GiB fit an int64 in bytes and lose less than one GiB, nothing exactly on multiples |
| `Capacity.Limits` | driver/capacity.go:29-76 | 16 GiB without a range, 1 GiB for one byte without a limit, and at most 16 TiB, which is granted |
| `Capacity.FloorMeetsRequirementIff` | driver/controller_resize.go:40 | the provisioned volume reaches the required bytes exactly when they are a whole number of GiB, or less than one GiB without a limit |
| `Volumes.FirstIndex` | driver/controller_volumes.go:195 | the first volume a test accepts, or none |
| `Volumes.Find` | driver/controller_volumes.go:195 | a key denotes the volume of that identity, if there is one, else the first of that name, and nothing exactly when there is neither |
| `Volumes.Region.CreateVolume` | driver/controller_volumes.go:161-254 | the new store and answer are those of AfterCreate |
| `Volumes.Region.ControllerExpandVolume` | driver/controller_resize.go:30-77 | the new store and answer are those of AfterExpand |
| `Volumes.Region.DeleteVolume` | driver/controller_volumes.go:257-277 | the new store and answer are those of AfterDelete |
| `VolumeRuns.CreateAppends` | driver/controller_volumes.go:195-224 | a create changes the store only by appending a volume whose key found nothing |
| `VolumeRuns.WhereFrom` | driver/controller_volumes.go:195-224 | every volume after a call was there before, was created by it with the floored size, or was grown by it |
| `VolumeRuns.StepKeepsSizes` | driver/controller_resize.go:36-78 | each call keeps sizes within the bounds |
| `VolumeRuns.StepNeverShrinks` | driver/controller_resize.go:50-78 | no call shrinks a volume |
| `VolumeRuns.SizesOverRuns` | driver/controller_resize.go:36-82 | over every run sizes stay at most 16384 GiB and never shrink, so the byte conversion never overflows; they stay at least 1 when no create has both bounds set with a requirement below 1 GiB |
| `VolumeRuns.GoneStaysGone` | driver/controller_volumes.go:265-276 | the identity of a deleted volume does not come back |
| `VolumeRuns.SurvivesOrGone` | driver/controller_resize.go:50-78 | a volume present at both ends of a run has not shrunk |
| `VolumeRuns.ExpandExact` | driver/controller_resize.go:36-76 | a successful expand leaves the larger of old size and floored request, reports exactly the stored bytes, and touches no other volume; no node expansion is asked for exactly when a block volume grew |
| `VolumeRuns.DeleteExact` | driver/controller_volumes.go:257-277 | deleting removes that volume and no other; repeating it changes nothing unless it takes effect and some volume left has the identity as its name |
| `VolumeRuns.DeleteKeepsIff` | driver/controller_volumes.go:257-277 | with no volume of that identity, a delete changes nothing if and only if it takes no effect or no volume has the identity as its name |
| `VolumeRuns.DeleteRepeats` | driver/controller_volumes.go:257-277 | an input on which a repeat deletes another volume: two volumes, the second named after the identity of the first |
| `VolumeRuns.DeleteAnswers` | driver/controller_volumes.go:257-277 | a delete succeeds exactly if the id is given and the API deleted the volume or found none; it takes effect also when that is reported as an error |
| `VolumeRuns.CreateFree` | driver/controller_volumes.go:161-254 | with a free key one volume is created exactly if the request is well formed and the API creates it, also when that is reported as an error: unattached, with the requested name, the new identity, and less than one GiB below the computed size; success answers with it |
| `VolumeRuns.CreateFound` | driver/controller_volumes.go:52-63 | with a volume under the key nothing is created; the answer is that volume exactly if its bytes are the computed size, and AlreadyExists otherwise |
| `VolumeRuns.CreateAnswersStored` | driver/controller_volumes.go:161-254 | every success names a stored volume, less than one GiB smaller than what is answered, the computed size |
| `VolumeRuns.CreateRefuses` | driver/controller_volumes.go:161-201 | which error a refused request gets, with nothing created |
| `VolumeRuns.CreateFails` | driver/controller_volumes.go:132-158 | which error a failing creation gets: that of the type lookup, InvalidArgument for an empty snapshot id, NotFound for a missing snapshot, Internal otherwise |
| `VolumeRuns.ExpandSucceedsIff` | driver/controller_resize.go:30-68 | an expand succeeds exactly if the id is not blank, the range is accepted, the volume can be read, and it is large enough or the API grows it; a failure leaves the store as it was unless a growth was reported as an error |
| `VolumeRuns.FindAfterAdd` | driver/controller_volumes.go:185-195 | a created volume is found under its name and its identity and no other new key |
| `VolumeRuns.RetryCreate` | driver/controller_volumes.go:52-63 | repeating a creating call makes no second volume if and only if the key is the name or identity, and then answers with that volume if and only if the size is a whole number of GiB, else AlreadyExists |
| `VolumeRuns.CreateKeepsNamesIff` | driver/controller_volumes.go:185-224 | a create keeps names unique if and only if its key finds a volume or its name is free |
| `VolumeRuns.CreateDoubles` | driver/controller_volumes.go:183-224 | an input on which names double: the volume-identity parameter hides the volume of the requested name |
| `VolumeRuns.NamesOverRuns` | driver/controller_volumes.go:183-224 | runs without the volume-identity parameter keep volume names unique |
| `Snapshots.ReportedSourceIff` | driver/controller_snapshots.go:333-350 | the reported source is the compared one exactly when the source volume is present or there is no source id |
| `Snapshots.ResolveVolumeIdentity` | driver/controller_snapshots.go:257-300 | the two-list lookup gives what Resolved specifies |
| `Snapshots.SnapshotNamed` | driver/controller_snapshots.go:99-102 | the first listed snapshot of the name, and none exactly when there is none |
| `Snapshots.Without` | driver/controller_snapshots.go:174 | deleting removes the snapshot of that identity and no other |
| `Snapshots.Region.GetOrCreateSnapshot` | driver/controller_snapshots.go:79-164 | the new store and answer are those of AfterGetOrCreate |
| `Snapshots.Region.CreateSnapshot` | driver/controller_snapshots.go:33-77 | the new store and answer are those of AfterCreate |
| `Snapshots.Region.DeleteSnapshot` | driver/controller_snapshots.go:167-183 | the new store and answer are those of AfterDelete |
| `SnapshotRuns.AtMostOne` | driver/controller_snapshots.go:258-269 | distinct identities: at most one volume has a given identity |
| `SnapshotRuns.ResolutionCanonical` | driver/controller_snapshots.go:257-300 | an identity wins over any name, resolving a result gives it back, and NotFound means that no volume has that identity or name |
| `SnapshotRuns.ResolutionFails` | driver/controller_snapshots.go:257-300 | resolving fails with Internal exactly on a failing list call that was needed or several volumes of the name, and with NotFound exactly when both lists are empty |
| `SnapshotRuns.Reported` | driver/controller_snapshots.go:333-350 | what is reported of a snapshot: its identity, its source record, its size in bytes or 0, and ready exactly if it is available |
| `SnapshotRuns.ExistingDecides` | driver/controller_snapshots.go:99-120 | while a snapshot of the name exists nothing changes; for the same source it is returned as re-read, ready, and otherwise AlreadyExists is answered, or Internal if the source id is the name of several volumes |
| `SnapshotRuns.ExistingSucceedsIff` | driver/controller_snapshots.go:53-120 | while a snapshot of the name exists a create succeeds exactly if the lookup works, the source is the same, and the wait and the final read succeed; it never changes anything |
| `SnapshotRuns.FreshCreate` | driver/controller_snapshots.go:52-163 | with the name free and the source resolving, a create adds one snapshot of exactly that volume and returns its identity, ready after the wait |
| `SnapshotRuns.FreshCreateFails` | driver/controller_snapshots.go:53-163 | with the name free the snapshot is added exactly if the API creates it, also when that is reported as an error, and the answer is success exactly if the creation, the wait and the final read succeed |
| `SnapshotRuns.CreateRefuses` | driver/controller_snapshots.go:33-127 | which error a create gets before it comes to creating anything, with nothing changed |
| `SnapshotRuns.DeleteExact` | driver/controller_snapshots.go:167-183 | a delete that takes effect removes the snapshots of that identity and nothing else, and may be repeated; the answer is success exactly if the API did it or found none |
| `SnapshotRuns.NameStaysFree` | driver/controller_snapshots.go:79-183 | a free name stays free until a create of it |
| `SnapshotRuns.RecreateAfterDelete` | driver/controller_snapshots.go:79-183 | after a delete that took effect and any further calls, a create of that name adds a new snapshot, with a new identity and the source asked for now |
| `SnapshotRuns.AnswersReady` | driver/controller_snapshots.go:53-76 | a successful answer is always of a stored snapshot of the requested name and ready to use, and a reported source is that snapshot's |
| `Snapshots.Reread` | driver/controller_snapshots.go:55-63 | what is read after the wait is the same snapshot, available |
| `SnapshotRuns.CreateAppends` | driver/controller_snapshots.go:99-164 | a create changes the store only by adding a snapshot whose name was free |
| `SnapshotRuns.StepKeepsInv` | driver/controller_snapshots.go:79-183 | each call keeps snapshot names and identities unique |
| `SnapshotRuns.NamesOverRuns` | driver/controller_snapshots.go:79-183 | over every run with any failures snapshot names stay unique |
| `SnapshotRuns.StepKeepsSnapshot` | driver/controller_snapshots.go:79-183 | each call but its own deletion keeps a snapshot |
| `SnapshotRuns.SnapshotStays` | driver/controller_snapshots.go:79-183 | a snapshot stays until it is deleted |
| `SnapshotRuns.RetryOnHeld` | driver/controller_snapshots.go:99-120 | a retry of a held name creates nothing; the source decides between the same identity, ready, and AlreadyExists |
| `SnapshotRuns.RetryReturnsSame` | driver/controller_snapshots.go:99-120 | after a create that took effect, even if reported failed, and any further calls, a retry creates nothing and returns the same identity, ready, for the same source, AlreadyExists for another |
| `SnapshotRuns.RetryAfterSourceDeleted` | driver/controller_snapshots.go:104-119 | a snapshot taken by identity is still returned, as re-read and ready, after its source is deleted if and only if no remaining volume has that identity as name |
| `Text.SplitJoin` | driver/nodedriver.go:92-93 | splitting inverts joining parts free of the separator |
| `Text.JoinSplit` | driver/nodedriver.go:92-93 | joining inverts splitting any text |
| `Labels.BindsUnique` | driver/nodedriver.go:91-98 | the last well-formed binding of each key determines the labels |
| `Labels.ParseCustomLabels` | driver/nodedriver.go:87-99 | the labels are the last well-formed binding of each key, malformed items ignored |
| `Labels.BindingOfPrinted` | driver/nodedriver.go:93-96 | an entry without separators is read back from its printed form |
| `Labels.RoundTripIff` | driver/nodedriver.go:87-99 | printing a non-empty map in any order and parsing gives it back if and only if no key or value contains a separator |
| `Labels.MergeAnyOrder` | driver/controller_volumes.go:106-115 | every visiting order of the custom entries gives the same result: custom overridden by the driver |
| `Labels.Merge` | driver/controller_volumes.go:106-115 | the merge loop gives the custom entries overridden by the driver's own |
| `Labels.BuildVolumeLabels` | driver/controller_volumes.go:94-129 | labels and annotations are custom overridden by what the driver sets, the cluster identity overriding both: the driver mark and name, the description, and the fstype if there is one |
| `Labels.BuildSnapshotLabels` | driver/controller_snapshots.go:129-151 | labels and annotations are custom overridden by what the driver sets, the cluster identity overriding both: the driver mark and name, the source id, the snapshot name and the description |
| `Labels.Precedence` | driver/controller_volumes.go:94-129 | key by key: cluster identity, then the driver's own, then custom |

## Left out

- Requests that take effect after their error has been returned, and attaching or detaching by anyone but the driver.
- Interleaving of volume, snapshot and node calls with each other: their runs are sequential; only attach and detach interleave.
- Real time: polling is a given number of reads, then a timeout.
- gRPC servers, sockets, health endpoints, flags, logging and the Kubernetes client with the kubeConfig branches: I/O plumbing.
- The real mounter (driver/mounter.go): it runs external programs; a mount or format that fails halfway is not modelled.
- Volume type lookup, capability and topology validation: their outcomes are parameters of CreateVolume.
- NodeExpandVolume, NodeGetVolumeStats, capability lists and the identity service: no state of their own.
- Error message texts and formatBytes: only the status codes are modelled.
- Creation times of snapshots and the region/VPC/name filters inside the API: the lists handed in are the filtered ones.
- The copy of the attachment list that ListVolumes makes for each entry: values cannot be aliased here.
