# Verification of the Nobus CSI controller and of parts of the Pulumi provider

The CSI controller runs as several replicas against one block-storage provider that neither
enforces unique names nor locks anything for its clients. Each replica creates volumes and
snapshots, looks for namesakes afterwards, keeps the one with the lowest ID, deletes the other
ones it may delete, and waits until what it sees is stable. Attach and detach read first and
act later, under a try-lock that lives in one process. This project models that protocol, the
in-memory provider the repository ships, and the arithmetic, pagination and ID formats under
it, and proves what they guarantee. A second, smaller part covers the Pulumi provider's
security-group update and its reading of instance addresses.

`dafny verify dfyconfig.toml` checks everything. Every lemma carries `{:induction false}`: all
inductions are written out.

## How it is organised

| files | what they hold |
|---|---|
| `Ordering`, `Cloud`, `Reconcile` | byte order on IDs and sorting; the provider's types and errors; what one listing makes a reconcile do |
| `Protocol` | every controller RPC as a step machine, split at each call to a lock table, the provider or the clock (`CallOf`, `Step`) |
| `Driver` | the same RPCs as the code runs them: classes with mutable lock tables, loops over listings, the retry loop. Each method is proved to say to the provider, the clock and the lock tables exactly what its machine says, from the lock to its release, and to come to its outcome |
| `System` | any number of drivers and RPCs, interleaved call by call, over a permissive provider: it accepts namesakes, lists any part of what was ever created, reports stale sizes, states and attachments, and may carry out a call and still report an error |
| `Locking`, `Canonical`, `Agreement`, `Exclusive` | the theorems about all runs of that system |
| `Limits`, `Emptying` | runs that break exclusivity, agreement and the survival of a name, for all the requests, reads and listings that can, and with them the exact conditions |
| `Deletions`, `Polling` | one reconcile's conversation with the provider, and the bounds of the retry loop |
| `Outcomes`, `CreateOutcomes` | what each RPC answers to what it is told, whatever the provider: its calls, its outcome, and where each reconcile of a create leads |
| `Fake`, `FakeLaws` | the in-memory provider as a class with maps and counters, and the laws of its calls |
| `Histories`, `SnapshotHistories`, `Lifetimes` | what all its histories keep, and what a repeated or a conflicting request comes to |
| `Creations`, `SnapshotCreations`, `Answers` | the answer of each RPC over it, known from the state the RPC begins in, and what the RPC leaves behind |
| `Refinement`, `Transfer` | the in-memory provider is one of the permissive providers, call by call and over whole runs |
| `Capacity`, `Pagination`, `Identifiers`, `Parameters` | sizes in wrapping int64 arithmetic, page tokens, ID formats, and a create request's zone and specification |
| `SecurityGroups`, `Addresses` | the Pulumi provider |

The two halves meet in `Protocol`. `Driver.Connection` keeps, as a ghost, the history of every
exchange with the provider, the clock and the lock tables; it only grows. `Controller.Ran` says of
an RPC that what it added to that history is one whole conversation of its machine, from its
beginning to its outcome, so a method that made one call more, in whatever place, would not meet
its contract. `Controller.Answered` says what the replies have to do with the outcome, without the
machine. What is proved of all runs of the machines holds of these methods.

Side conditions are stated where a theorem needs them, and where one fails another theorem says
what follows. The clean-up's safety needs listings that carry each ID once (`DistinctKeys`); what
one that repeats IDs makes a reconcile do is stated for all listings. Attach exclusivity needs
publishes whose reads do not hide an attachment to another node (`SoundRead`) and no two drivers
that want one volume on two nodes (`Peaceful`); both are necessary. A create agrees with the others
exactly if the last listing it sees shows the lowest ID. A "not found" between two equal samples
does not reset the count of stable samples.

## What the code does not guarantee

These are proved as statements about the code as it is.

- Capacity rounding wraps around for requests above 2^63 - 2^30 bytes: the request is accepted,
  whatever its limit, with -2^63 bytes. A request of -2^30 bytes or less is accepted, too, with a
  capacity that is not positive. In between, and only there, a request gets a positive capacity
  that covers it (`Capacity.RoundingOverflows`).
- If a listing carries an ID more than once, the reconcile can delete what it returns. A volume
  goes exactly when the listing has a free entry of its ID beside the entry kept
  (`Reconcile.CanonicalDoomedIff`): a free volume listed twice, or an attached one listed once more
  as it was before (`Reconcile.RepeatedListingDeletesCanonical`,
  `Reconcile.StaleEntryDeletesCanonical`). A snapshot goes exactly when it is listed more than once,
  without exemption (`Reconcile.CanonicalSnapshotDoomedIff`, `Reconcile.RepeatedSnapshotIsDeleted`).
- A create whose last listing hides the lowest ID returns a higher one, and only such a create does
  (`Agreement.ReturnsLowestIff`); every resource of a name can be returned in that way
  (`Limits.HiddenLowestIsMissed`).
- Two drivers that want one free volume on two nodes can both attach it, each having read the true
  attachments; and one publish can attach a volume to a second node if its read hides the
  attachment to the first. Without either it cannot happen (`Limits.TwoDriversAttachTwice`,
  `Limits.BlindPublishAttachesTwice`, `Limits.ExclusiveIff`).
- A delete request for a name's lowest volume, in the middle of a create's clean-up of the others,
  leaves the name without a volume, although nobody asked for the others to go. So does a request
  for an unused ID below the lowest, if a create mints it first. Requests for higher duplicates
  never do (`Emptying.DeleteDuringCleanupEmptiesTheName`, `Emptying.NewLowestEmptiesTheName`,
  `Emptying.NameEmptiedIff`).
- An expand to more than 2^63 - 2^30 bytes reports success with any old size
  (`Lifetimes.ExpandCoversIff`).
- A volume that is stored without a zone, when the driver has one to give, cannot be published over
  the in-memory provider (`Answers.PublishAnswers`), and if it is attached an unpublish reports
  success and leaves it so; in no other case (`Answers.DoneIsDetachedIff`,
  `Answers.UnpublishLeavesAttached`).
- A snapshot of the right name and source that is stored in another zone is hidden from every
  listing of a request and still keeps the in-memory provider from making a second one: the request
  answers Unavailable, however often it is repeated (`SnapshotCreations.HiddenSnapshotIsUnavailable`).
  Drivers with different default zones come to this with a source that has none
  (`SnapshotCreations.ZonelessSourceHides`).
- A snapshot ID is decoded wrongly when its zone contains "/" and, for raw IDs, when the ID does
  or a fallback zone is set (`Identifiers.SnapshotIdRoundTrip` says exactly when).
- Comparing lists that mix scoped and bare security-group IDs can find a difference where there
  is none (`SecurityGroups.MixedListsLookDifferent`); it does no harm, because the difference
  that is then computed is empty (`SecurityGroups.UpdateSecurityGroups`).
- The source's README says that duplicates are removed "when they are safe to delete"
  (README.md:140). For snapshots the code makes no exemption: every namesake but the lowest is
  deleted, unless the provider refuses.

## Model

| member | source | states |
|---|---|---|
| Canonical.LowestSurvives | internal/driver/controller.go:225-259 | in every interleaving of any number of drivers, with stale or partial listings, the lowest ID ever created for a name and zone (for snapshots, name and source) still exists unless a request named it for deletion |
| Canonical.NameStaysPopulated | internal/driver/controller.go:225-259 | once a name has a resource it has one at every later time at which no request has named its lowest one for deletion; deleting higher duplicates is harmless |
| Canonical.PlanIsSafe | internal/driver/controller.go:243-258 | whatever an honest listing leaves out, the IDs it dooms were created under the target's own name and lie strictly above an ID that was, too |
| Canonical.StepKeepsCleanup | internal/driver/snapshot.go:125-159 | every single step of every RPC keeps the invariant: each pending deletion has a lower namesake, and whatever is gone was asked for or has a lower sibling |
| Canonical.LowestExists | internal/driver/controller.go:243-246 | a name that ever had a resource has a lowest one, so the condition above always speaks of something |
| Agreement.ReturnsLowestIff | internal/driver/controller.go:168-206 | in every run, a create of a volume or snapshot that succeeds, on any driver, returns the lowest ID ever created under its name if and only if the last listing it saw showed that ID, whatever others delete meanwhile |
| Agreement.CreatesAgree | internal/driver/controller.go:168-206 | hence, once every listing for a name shows its lowest ID, each create that had not settled before and succeeds, on any driver, returns that ID |
| Agreement.StepChoice | internal/driver/controller.go:246-258 | an RPC settles on a resource only by a listing, on the one that listing's reconcile keeps, and never changes its choice but by another listing |
| Agreement.PlanKeepsLowest | internal/driver/controller.go:243-246 | a reconcile of a listing that shows the lowest ID keeps that ID or keeps nothing |
| Agreement.OnTrackAlways | internal/driver/controller.go:22-69 | in every run an RPC only ever lists, creates, purges and verifies under the name, zone or source of its own request |
| Exclusive.NeverOnTwoNodes | internal/driver/controller.go:89-130 | if no two drivers want one volume on two nodes, and no publish is led on by a read that hides an attachment to another node, no volume is ever attached to two nodes, in any interleaving with unpublish, delete, expand and create, and with attaches that take effect but report an error |
| Exclusive.ExactIsSound | internal/driver/controller.go:109-117 | a read of the true attachments never leads a publish on to a volume that is elsewhere |
| Exclusive.AttacherAlone | internal/driver/controller.go:96-100 | the volume lock leaves at most one RPC of a driver between reading a volume and attaching it |
| Exclusive.OthersKeepPublish | internal/driver/controller.go:101-118 | while one RPC is about to attach a volume, no step of another attaches it to another node |
| Exclusive.NotElsewhere | internal/driver/controller.go:144-151 | when a volume with attachments to one node at most is not reported as attached elsewhere, it is attached to no node but the one asked for |
| Locking.LockTableRefinement | internal/driver/locks.go:14-26 | in every run the locked keys are exactly those of the RPCs between TryLock and unlock, each held by exactly one, each the key of its own request; an RPC that has answered holds none |
| Locking.TryLockFailsIffHeld | internal/driver/locks.go:17-19 | TryLock is refused exactly when another RPC of the same driver holds the key |
| System.StepKeepsLock | internal/driver/controller.go:30-34 | an RPC that holds its lock keeps that very lock through every step up to its unlock |
| Limits.TwoDriversAttachTwice | internal/driver/controller.go:101-118 | for any two drivers, any two nodes and any free volume: a run in which both read true attachments and attach it to both |
| Limits.BlindPublishAttachesTwice | internal/driver/controller.go:101-118 | for any driver, volume and second node: a run of one publish, alone, whose read hides the attachment the volume has, and which attaches it again |
| Limits.HiddenLowestIsMissed | internal/driver/controller.go:225-258 | for any key and any of its resources, however many lower ones there are: a run of one create that is shown only that one and returns it |
| Limits.ExclusiveIff | internal/driver/controller.go:89-130 | every run keeps every volume on one node if and only if no two drivers want one volume on two nodes and no publication that gets as far as reading may be misled by its read |
| Emptying.DeleteDuringCleanupEmptiesTheName | internal/driver/controller.go:247-257 | for any provider, any name with any number of volumes, and any drivers: a run in which the lowest volume is deleted on request, all others by a clean-up, and only the lowest was asked for |
| Emptying.NewLowestEmptiesTheName | internal/driver/controller.go:46-68 | the same for an unused ID below the lowest: a create mints it, its clean-up dooms all others, and a request deletes it |
| Emptying.NameEmptiedIff | internal/driver/controller.go:225-259 | requests to delete can leave nothing of a name if and only if one of them names its lowest volume, or an unused ID below that |
| Reconcile.PlanVolumesMeaning | internal/driver/controller.go:225-263 | for every listing: it is refused exactly when some namesake is incompatible; otherwise the kept volume is the lowest namesake, and an ID is deleted exactly if an entry other than the kept one shows it unattached and not in use |
| Reconcile.PlanSnapshotsMeaning | internal/driver/snapshot.go:125-159 | for every listing: the conflict is another source; otherwise the lowest namesake is kept, and an ID is deleted exactly if the listing has an entry of it beside the kept one |
| Reconcile.PlanOfDistinctVolumes | internal/driver/controller.go:247-263 | if each ID is listed once, the deleted ones are exactly the other namesakes listed as unattached and not in use |
| Reconcile.PlanOfDistinctSnapshots | internal/driver/snapshot.go:150-158 | and for snapshots exactly the other namesakes |
| Reconcile.PlanIgnoresListingOrder | internal/driver/controller.go:243-245 | kept volume and deletions do not depend on the order of the listing |
| Reconcile.SnapshotPlanIgnoresListingOrder | internal/driver/snapshot.go:146-148 | nor do they for snapshots |
| Reconcile.CanonicalDoomedIff | internal/driver/controller.go:246-257 | for every listing: the kept volume is itself deleted exactly when the listing has a free entry of its ID beside the entry kept |
| Reconcile.ArrangementDooms | internal/driver/controller.go:243-257 | whatever order the sort leaves equal IDs in, what follows the head dooms an ID exactly if the listing has a free entry of it beside the head |
| Reconcile.RepeatedListingDeletesCanonical | internal/driver/controller.go:246-257 | a listing of one free volume twice does so |
| Reconcile.StaleEntryDeletesCanonical | internal/driver/controller.go:246-257 | so does a listing that shows it attached and once more, stale, as free |
| Reconcile.CanonicalSnapshotDoomedIff | internal/driver/snapshot.go:149-157 | for every listing: the kept snapshot is itself deleted exactly when it is listed more than once |
| Reconcile.SnapshotArrangementDooms | internal/driver/snapshot.go:146-157 | the same of every ID and in whatever order equal IDs come |
| Reconcile.RepeatedSnapshotIsDeleted | internal/driver/snapshot.go:149-157 | one snapshot listed twice is kept and deleted |
| Deletions.VolumeConflictDeletesNothing | internal/driver/controller.go:231-237 | with one incompatible namesake in the listing no delete is issued: the RPC makes no call but its unlock and answers AlreadyExists |
| Deletions.SnapshotConflictDeletesNothing | internal/driver/snapshot.go:131-137 | the same with a snapshot of another source |
| Deletions.VolumeReconcileDeletes | internal/driver/controller.go:225-259 | with no conflict, the deletes a reconcile attempts are exactly the free namesakes above the lowest, each once and in order; "not found" and "conflict" do not stop it, and the first other error does, with its status |
| Deletions.SnapshotReconcileDeletes | internal/driver/snapshot.go:125-159 | the same for snapshots |
| Deletions.PurgeConversation | internal/driver/controller.go:247-257 | while deletes are soft, the next call is always the delete of the next ID |
| Polling.PollingBounded | internal/driver/controller.go:168-206 | whatever the provider answers: at most 8 reconciles, at most 12.7 s of waiting; an ID is handed out only if the last reconcile found it and, before the last try, the last three successful ones agreed on it; the loop stops when three agree |
| Polling.RoundEnds | internal/driver/snapshot.go:89-114 | one round's effect on the previous ID, the stable count and the delay, for volumes and snapshots alike; a "not found" leaves the count as it is |
| Outcomes.WholeConversation | internal/driver/controller.go:276-287 | a request that lacks an ID or name is refused before any call; one whose lock is taken makes no other call and answers Aborted; any other holds its own lock from its first call to its last |
| Outcomes.DeleteOutcome | internal/driver/controller.go:80-86 | whatever the provider answers, a delete makes one call, of this ID, and answers Done if and only if the reply is success or "not found"; otherwise the status of that error |
| Outcomes.DropOutcome | internal/driver/snapshot.go:59-71 | the same for a snapshot, by the decoded ID and zone, and without a lock |
| Outcomes.PublishOutcome | internal/driver/controller.go:101-142 | all ways a publish can go: it answers with a device exactly if the first read shows one on the node, the attach returns it, or the read after a failed attach shows it; shared or elsewhere attached volumes are refused without an attach; a failed attach that cannot be confirmed answers its own error |
| Outcomes.AttachedDeviceMeaning | internal/driver/controller.go:144-151 | the device is that of the first attachment to the node, and elsewhere means there are attachments and none is to the node |
| Outcomes.UnpublishOutcome | internal/driver/controller.go:288-308 | all ways an unpublish can go: it detaches exactly a volume that is read as attached to the node, in the volume's zone or the driver's; a volume that is gone or not attached counts as done |
| Outcomes.ExpandOutcome | internal/driver/controller.go:371-392 | all ways an expand can go: a size that is large enough is the answer; otherwise the volume is resized in its own zone and the answer is what the resize returned |
| CreateOutcomes.EveryReconcileLeads | internal/driver/controller.go:35-68 | where every reconcile of a create of a volume or snapshot leads, told by the conversation alone: the first to what it found or to the creation; after a creation that met a namesake to that one or AlreadyExists; after one that worked, to the found ID once the last three successful reconciles agree or at the eighth, to Unavailable if the eighth finds nothing, to an error if there is one, and otherwise to a wait of 100 ms doubled per reconcile |
| CreateOutcomes.CreateOutcome | internal/driver/controller.go:208-223 | a create answers with a volume exactly if its last exchange reads a compatible one by ID, and with what was read; a read that finds nothing is Unavailable, an incompatible one AlreadyExists, a cut-short wait Unavailable, a failed creation its own error |
| CreateOutcomes.SnapshotOutcome | internal/driver/snapshot.go:29-56 | a snapshot request reads its source first and works in the source's zone or the driver's; it answers with the snapshot its last reconcile found, and otherwise with an error |
| CreateOutcomes.EveryConversation | internal/driver/controller.go:22-69 | these tables hold of every conversation that began with the grant of the RPC's lock |
| Driver.VolumeLocks.TryLock | internal/driver/locks.go:14-20 | granted exactly when the key was free, and then the table holds it; the attempt and its answer are on record |
| Driver.VolumeLocks.Unlock | internal/driver/locks.go:21-25 | removes this key and no other; the release is on record |
| Driver.FindAttachedDevice | internal/driver/controller.go:144-151 | the loop returns the first device on the node, and otherwise whether there is any attachment |
| Driver.IsAttachedToNode | internal/driver/controller.go:153-160 | true exactly when some attachment is to the node |
| Driver.CollectVolumes | internal/driver/controller.go:230-239 | the loop reports a conflict exactly when the listing has an incompatible namesake, and otherwise collects all namesakes in order |
| Driver.CollectSnapshots | internal/driver/snapshot.go:130-142 | the same for snapshots, with blank zones filled in |
| Driver.Controller.ReconcileVolumeByName | internal/driver/controller.go:225-259 | one listing and the deletes of its plan are what is added to the history, and the result is the machine's sample |
| Driver.Controller.PurgeVolumes | internal/driver/controller.go:247-258 | the deletion loop adds the machine's deletes in order, and nothing else |
| Driver.Controller.DeleteDuplicateVolume | internal/driver/controller.go:251-256 | one delete; gone or in use does not stop the clean-up, any other error does |
| Driver.Controller.Tally | internal/driver/controller.go:174-196 | what follows one reconcile of the retry loop is the machine's round: counting, settling at three, or waiting with the delay doubled |
| Driver.Controller.Pause | internal/driver/controller.go:265-274 | one wait, with its status if it is cut short |
| Driver.Controller.ReconcileCreatedVolume | internal/driver/controller.go:168-206 | the retry loop, with its three variables, adds the machine's sequence of rounds, and nothing else |
| Driver.Controller.LastReconcileOfVolume | internal/driver/controller.go:198-205 | the reconcile after the last round |
| Driver.Controller.VerifyVolume | internal/driver/controller.go:208-223 | verification by ID, with the blank zone filled in |
| Driver.Controller.CreateVolume | internal/driver/controller.go:22-69 | a request that does not parse is refused before anything is said; otherwise all that is said is one whole conversation of the create's machine, with the lock attempt first and its release last, and under the lock a volume is returned exactly as the last exchange verifies it, every other end being the refusal that exchange calls for |
| Driver.Controller.CreateUnderLock | internal/driver/controller.go:35-46 | an existing namesake is verified and returned; otherwise one is created |
| Driver.Controller.CreateMissing | internal/driver/controller.go:46-68 | create, then the reconcile after a conflict or the retry loop, then the verification |
| Driver.Controller.DeleteVolume | internal/driver/controller.go:71-87 | all that is said is one whole conversation of the machine: lock, delete of this ID, release; under the lock it answers Done if and only if the reply is success or "not found", and otherwise that error's status |
| Driver.Controller.ControllerPublishVolume | internal/driver/controller.go:89-100 | all that is said is one whole conversation of the publish's machine, lock and release included, and under the lock the outcome is the one that `Outcomes.PublishGoes` reads off the replies |
| Driver.Controller.PublishUnderLock | internal/driver/controller.go:101-117 | the branches of a publish that holds its lock, up to the attach |
| Driver.Controller.AttachFree | internal/driver/controller.go:118-129 | the attach, and the second look after an error |
| Driver.Controller.AttachedDeviceAfterPublishError | internal/driver/controller.go:132-142 | after a failed attach the device found on the node is returned, and the first error otherwise |
| Driver.Controller.ControllerUnpublishVolume | internal/driver/controller.go:276-287 | all that is said is one whole conversation of the unpublish's machine, lock and release included, and under the lock the outcome is the one that `Outcomes.UnpublishGoes` reads off the replies |
| Driver.Controller.UnpublishUnderLock | internal/driver/controller.go:288-308 | the branches of an unpublish that holds its lock |
| Driver.Controller.ControllerExpandVolume | internal/driver/controller.go:362-374 | all that is said is one whole conversation of the expand's machine, with the capacity computed under the lock, and the outcome is the one that `Outcomes.ExpandGoes` reads off the replies |
| Driver.Controller.ExpandUnderLock | internal/driver/controller.go:375-392 | a large enough volume is reported as it is, a smaller one resized in its own zone |
| Driver.Controller.CreateSnapshot | internal/driver/snapshot.go:17-28 | all that is said is one whole conversation of the machine, under the key "snapshot:" + name, and under the lock the outcome is the one that `CreateOutcomes.SnapshotGoes` reads off the conversation |
| Driver.Controller.SnapshotUnderLock | internal/driver/snapshot.go:29-56 | the branches of a snapshot create that holds its lock |
| Driver.Controller.ReconcileSnapshotByName | internal/driver/snapshot.go:125-159 | one listing and the deletes of its plan are what is added to the history, and the result is the machine's sample |
| Driver.Controller.PurgeSnapshots | internal/driver/snapshot.go:150-158 | the deletion loop adds the machine's deletes in order, and nothing else |
| Driver.Controller.DeleteDuplicateSnapshot | internal/driver/snapshot.go:151-156 | one delete; gone or in use does not stop the clean-up, any other error does |
| Driver.Controller.ReconcileCreatedSnapshot | internal/driver/snapshot.go:85-114 | the retry loop adds the machine's sequence of rounds, and nothing else |
| Driver.Controller.LastReconcileOfSnapshot | internal/driver/snapshot.go:115-122 | the reconcile after the last round |
| Driver.Controller.DeleteSnapshot | internal/driver/snapshot.go:59-71 | all that is said is one delete of the decoded ID in the decoded zone, with no lock; it answers Done if and only if the reply is success or "not found" |
| Fakes.FakeStepKeepsInv | internal/cloud/fake.go:32-212 | every call keeps the invariant: a volume's key is its ID, IDs were minted by the counter, names are pairwise distinct, one attachment at most, in use exactly when attached |
| Fakes.NewNameIsFresh | internal/cloud/fake.go:44-45 | the next printed ID differs from every ID printed before |
| FakeLaws.OthersUntouched | internal/cloud/fake.go:32-166 | a call leaves alone every volume but the one it names, and only a create adds one |
| FakeLaws.OtherSnapshotsUntouched | internal/cloud/fake.go:168-212 | the same for snapshots |
| FakeLaws.RefusalsChangeNothing | internal/cloud/fake.go:32-231 | a refused call and a read change nothing |
| FakeLaws.AttachMeaning | internal/cloud/fake.go:124-146 | an attach works exactly on a volume its zone reaches and that is on no other node, and then the volume is on that node at the returned device and nowhere else; otherwise a conflict or "not found", each exactly when |
| FakeLaws.DetachMeaning | internal/cloud/fake.go:148-166 | a detach ends the attachment to that node and to no other; one with another zone succeeds and does nothing |
| FakeLaws.DetachUndoesAttach | internal/cloud/fake.go:124-166 | attaching a free volume and detaching it restores the provider, status included |
| FakeLaws.DeleteMeaning | internal/cloud/fake.go:99-104 | a delete succeeds, removes that volume and changes nothing else |
| FakeLaws.ResizeMeaning | internal/cloud/fake.go:106-122 | a resize returns the size the volume then has, is refused exactly when smaller or not reached, and touches only the size |
| FakeLaws.CreateMeaning | internal/cloud/fake.go:32-58 | a create is refused exactly when the name has an incompatible volume; otherwise a compatible one has the name afterwards, new exactly when it had none |
| FakeLaws.NewVolume | internal/cloud/fake.go:44-68 | a new volume is free and has what was asked for; without a type it gets the encrypted or the default one |
| FakeLaws.DevicesDiffer | internal/cloud/fake.go:141 | no two attached volumes have one device |
| FakeLaws.CreateSnapshotMeaning | internal/cloud/fake.go:168-198 | the same for snapshots, with the missing source |
| FakeLaws.DeleteSnapshotMeaning | internal/cloud/fake.go:200-212 | a snapshot is removed if the zone reaches it; an absent one counts as removed |
| Fakes.Fake.CreateVolume | internal/cloud/fake.go:32-58 | a namesake is returned or refused and nothing changes; otherwise one volume is added under the next ID |
| Fakes.Fake.GetVolumeById | internal/cloud/fake.go:70-78 | returns what is stored under the ID |
| Fakes.Fake.ListVolumes | internal/cloud/fake.go:80-97 | the filter loop and the sort give all matching volumes, strictly by ID, cut into the page asked for |
| Fakes.Fake.DeleteVolume | internal/cloud/fake.go:99-104 | removes that volume and succeeds, present or not |
| Fakes.Fake.ResizeVolume | internal/cloud/fake.go:106-122 | the new state, and each of the three errors |
| Fakes.Fake.AttachVolume | internal/cloud/fake.go:124-146 | the new state; idempotent for the same node, a conflict for another |
| Fakes.Fake.DetachVolume | internal/cloud/fake.go:148-166 | the new state; the status becomes available when nothing is left |
| Fakes.Fake.CreateSnapshot | internal/cloud/fake.go:168-198 | the new state, and each of the errors |
| Fakes.Fake.DeleteSnapshot | internal/cloud/fake.go:200-212 | the new state, and the zone mismatch |
| Fakes.Fake.ListSnapshots | internal/cloud/fake.go:214-231 | as for volumes |
| Histories.IdsNeverReused | internal/cloud/fake.go:44-45 | in no history does the ID of a deleted volume come back |
| Histories.SnapshotIdsNeverReused | internal/cloud/fake.go:184-185 | nor does that of a deleted snapshot |
| Histories.VolumesOnlyGrow | internal/cloud/fake.go:106-122 | in no history does a volume shrink or change name, zone, type or encryption |
| Histories.CreateIsIdempotent | internal/driver/controller.go:22-69 | after a create has succeeded, the same request, among any other calls that neither delete nor resize its volume, can only return that volume, and changes nothing |
| Histories.SuccessIsStored | internal/driver/controller.go:208-223 | at the moment a create succeeds, the provider holds the returned volume under the requested name, compatible with the request |
| Histories.IncompatibleCreateIsRefused | internal/driver/controller.go:43-58 | a create for a name that an incompatible volume has, in whatever zone, can only answer AlreadyExists, and changes nothing |
| Histories.ListingOfStored | internal/cloud/fake.go:80-97 | the in-memory provider's listing makes a retry keep the stored volume and delete nothing |
| SnapshotHistories.SnapshotIsIdempotent | internal/driver/snapshot.go:17-56 | after a snapshot request has succeeded, the same request, while nobody deletes the snapshot or its source, can only return that snapshot, and changes nothing |
| SnapshotHistories.SnapshotIsStored | internal/driver/snapshot.go:125-159 | at the moment it succeeds, the provider holds the snapshot under the requested name and source |
| SnapshotHistories.OccupiedNameIsRefused | internal/driver/snapshot.go:131-137 | while a snapshot of another source has the name, a request for it can only answer AlreadyExists, or NotFound for want of its source, and changes nothing |
| Lifetimes.ExpandReaches | internal/driver/controller.go:371-392 | a successful expand reports at least the rounded request, and the provider's volume is that large |
| Lifetimes.ExpandCoversIff | internal/driver/controller.go:371-392 | every successful expand reports at least the required bytes if and only if these are at most 2^63 - 2^30 |
| Lifetimes.ExpandIsIdempotent | internal/driver/controller.go:379-384 | repeating it, while the volume is not deleted, changes nothing and reports at least as much |
| Lifetimes.DeleteRemovesWhatCreateReturned | internal/driver/snapshot.go:59-71 | deleting the ID that a snapshot create returned removes exactly that snapshot, provided its zone has no "/" |
| Lifetimes.SnapshotNamesAreSlashFree | internal/cloud/fake.go:184 | minted snapshot IDs contain no "/" |
| Creations.CreateSucceeds | internal/driver/controller.go:22-69 | if the name has no incompatible volume, no wait is cut short, and nobody else does anything with the name but to make the same request, a create answers within eight calls, with a volume of the name that is compatible and stored, and adds one at most |
| Creations.CreateAnswers | internal/driver/controller.go:22-69 | its answer is known beforehand: that volume, or AlreadyExists exactly when the name has an incompatible one, then after three calls at most, which change nothing |
| Creations.RacingCreatesAgree | internal/driver/controller.go:22-69 | two creates of one request that race, on whatever drivers, both answer with the same volume |
| SnapshotCreations.SnapshotSucceeds | internal/driver/snapshot.go:17-57 | for an existing source and a name that no other source or zone has, a snapshot request answers within eight calls, with the snapshot stored under its name, source and zone, and adds one at most, in the source's zone or the driver's |
| SnapshotCreations.SnapshotAnswers | internal/driver/snapshot.go:17-57 | its answer is known beforehand: AlreadyExists if the name has a snapshot of another source, Unavailable if it has one in another zone, and otherwise the snapshot |
| SnapshotCreations.HiddenSnapshotIsUnavailable | internal/driver/snapshot.go:115-122 | in that middle case no call of the request changes anything |
| SnapshotCreations.ZonelessSourceHides | internal/cloud/fake.go:219-221 | for any two zones: a state in which one driver sees the snapshot of a zoneless source and another does not |
| Answers.PublishAnswers | internal/driver/controller.go:101-130 | if nobody else deletes, attaches or detaches the volume, a publish answers within three calls: with its device on the node if it is there or is free and reached, FailedPrecondition if it is elsewhere, NotFound if it is free without a zone while the driver gives one; the volume is on the node exactly when the answer says so, and nothing else changes |
| Answers.PublishedIsAttached | internal/driver/controller.go:118-129 | whatever others do, at the moment a publish answers with a device the volume has exactly one attachment, to that node at that device |
| Answers.PublishIsIdempotent | internal/driver/controller.go:109-114 | publishing it again, undisturbed, from any driver, answers with the same device and changes nothing |
| Answers.UnpublishAnswers | internal/driver/controller.go:288-308 | whatever others do, an unpublish answers Done within two calls, and all they can do is to end this volume's attachment to this node |
| Answers.DoneIsDetachedIff | internal/driver/controller.go:293-308 | at the moment it answers the volume is off the node, unless it was on it before the last call and has no zone while the driver gave one |
| Answers.UnpublishLeavesAttached | internal/cloud/fake.go:155-157 | for any node and any zone of the driver: such an unpublish |
| Answers.UnpublishUndoesPublish | internal/driver/controller.go:276-309 | a free volume that is published and then unpublished is what it was, but for its size |
| Answers.DeleteAnswers | internal/driver/controller.go:71-87 | a delete makes one call, which removes this volume and nothing else, and answers Done |
| Answers.DeletedForGood | internal/driver/controller.go:71-87 | a volume whose deletion was answered never comes back |
| Answers.ExpandAnswers | internal/driver/controller.go:375-392 | if nobody else deletes or resizes the volume, an expand answers, within two calls, with the larger of its size and the one asked for, which it then has |
| Refinement.FakeIsPermissive | internal/cloud/fake.go:32-231 | every call of the in-memory provider is a step of the permissive provider, with exact reads, and ends in corresponding states |
| Refinement.EmptyFakeIsEmptyProvider | internal/cloud/fake.go:22-30 | both begin in corresponding states |
| Transfer.RunTransfers | internal/cloud/fake.go:32-231 | any interleaving of any drivers' RPCs over the in-memory provider is a legal run of the permissive system, with exact reads and the same RPCs |
| Transfer.EverIsStored | internal/cloud/fake.go:32-198 | what that system remembers as created, volumes and snapshots, is exactly what the in-memory provider has held |
| Transfer.LowestSurvivesInMemory | internal/driver/controller.go:225-259 | over the in-memory provider, the lowest volume ever stored under a name and zone, or snapshot under a name and source, is stored at the end of any run, unless a request named it |
| Transfer.ReturnsLowestInMemoryIff | internal/driver/controller.go:168-206 | over the in-memory provider, too, a create returns the lowest ID ever stored under its name if and only if its last listing showed it |
| Transfer.NeverOnTwoNodesInMemory | internal/cloud/fake.go:134-140 | over the in-memory provider, which refuses a second attach itself, no volume is on two nodes at any time of any run, whichever drivers publish what |
| Ordering.LeqTotal | internal/driver/controller.go:243-245 | byte order compares any two IDs |
| Ordering.LeqAntisymmetric | internal/driver/controller.go:243-245 | it ties only equal IDs |
| Ordering.LeqTransitive | internal/driver/controller.go:243-245 | it is transitive, hence a total order |
| Ordering.SortPermutationInvariant | internal/driver/controller.go:243-245 | sorting by distinct keys forgets the order of the input |
| Ordering.StrictlySortedUnique | internal/cloud/fake.go:93-95 | a strictly sorted list is determined by its members |
| Capacity.RequestedBytesLeast | internal/driver/params.go:104-122 | above -2^30 and up to 2^63 - 2^30, the least positive multiple of 2^30 at or above the request, or an error exactly when none fits under the limit |
| Capacity.RoundingOverflows | internal/driver/params.go:104-122 | for every int64: a request is answered with a positive capacity that covers it, if with any, exactly in that range; beyond it the result is -2^63, below it not positive |
| Capacity.SizeRoundTrip | internal/cloud/client.go:421-423 | bytes to GiB and back is the identity exactly on whole GiB |
| Capacity.RequestedSizeSurvives | internal/cloud/client.go:527-530 | hence on every requested size |
| Parameters.TopologyZones | internal/driver/params.go:93-102 | the distinct non-empty zones in the order of their first occurrence |
| Parameters.SelectedZone | internal/driver/params.go:73-91 | a required zone if any is required; the first usable preferred one; then the fallback if required; then the first required one |
| Parameters.VolumeSpecOf | internal/driver/params.go:32-71 | exactly which requests are rejected, each with its status, and what the specification of the others says, with the zone chosen as above |
| Parameters.NoZoneIffNamesNone | internal/driver/params.go:46-50 | no zone is chosen exactly when neither topology, parameters nor configuration name one |
| Parameters.FreshVolumeIsCompatible | internal/driver/controller.go:164-166 | the volume made of a request passes the compatibility test for that request |
| Pagination.AtoiOfItoa | internal/cloud/client.go:428-441 | a printed offset parses back to itself |
| Pagination.ItoaInjective | internal/cloud/fake.go:44 | different counters print differently |
| Pagination.PagesConserveTheList | internal/cloud/client.go:425-442 | following the tokens yields every item once, in order, in ceil(n/k) pages |
| Pagination.WalkFrom | internal/cloud/client.go:434-441 | the same from any offset |
| Pagination.UnpagedListing | internal/cloud/client.go:437-439 | without a size the first page is everything, which the reconcile relies on |
| Identifiers.SnapshotIdRoundTrip | internal/driver/snapshot.go:174-187 | decode inverts encode exactly when the zone is non-empty and has no "/", or is empty with a slash-free ID and no fallback |
| Identifiers.ScopedIdRoundTrip | pulumi-nobus/provider/pkg/provider/types.go:26-48 | parsing a scoped ID returns its three slash-free parts |
| Identifiers.BareResourceIdIdempotent | pulumi-nobus/provider/pkg/provider/types.go:44-48 | taking the bare ID twice changes nothing, on any string |
| SecurityGroups.BareIds | pulumi-nobus/provider/pkg/provider/types.go:50-59 | the loop maps each ID to its bare ID |
| SecurityGroups.StringSlicesEqual | pulumi-nobus/provider/pkg/provider/check.go:52-66 | compares the bare IDs of the sorted raw lists, position by position |
| SecurityGroups.LookEqualIsSound | pulumi-nobus/provider/pkg/provider/check.go:52-66 | lists that compare equal name the same groups, each as often, so skipping the update is right |
| SecurityGroups.LookEqualIsExact | pulumi-nobus/provider/pkg/provider/check.go:57-65 | where raw order and bare order agree, the comparison decides equality of the bare lists up to order |
| SecurityGroups.LookEqualToOrderedList | pulumi-nobus/provider/pkg/provider/check.go:57-65 | against a list whose two orders agree, scoped, bare or mixed, the comparison is right exactly when the other list's orders agree, too |
| SecurityGroups.LookEqualIffPermutation | pulumi-nobus/provider/pkg/provider/check.go:52-66 | on IDs without "/", equal exactly when permutations of each other |
| SecurityGroups.OneScopeAgrees | pulumi-nobus/provider/pkg/provider/check.go:57-65 | for IDs under one zone and project the two orders agree |
| SecurityGroups.MixedListsLookDifferent | pulumi-nobus/provider/pkg/provider/check.go:57-65 | two mixed lists of the same groups that compare unequal |
| SecurityGroups.SliceDiff | pulumi-nobus/provider/pkg/provider/check.go:78-100 | the two differences of the sets of bare IDs, each strictly sorted, however the maps are walked |
| SecurityGroups.ScriptUnique | pulumi-nobus/provider/pkg/provider/check.go:87-99 | the calls that lead from one list to another are determined by the two lists |
| SecurityGroups.UpdateSecurityGroups | pulumi-nobus/provider/pkg/provider/compute.go:363-385 | from the old groups a successful update ends in exactly the new ones; from any groups, only those in one list and not the other come or go, even if a call fails; the calls made are the script or a beginning of it |
| SecurityGroups.DetachEach | pulumi-nobus/provider/pkg/provider/compute.go:365-374 | the detaching loop stops at the first failure, having called in order |
| SecurityGroups.AttachEach | pulumi-nobus/provider/pkg/provider/compute.go:375-384 | the attaching loop likewise |
| Addresses.ParseAddresses | pulumi-nobus/provider/pkg/nobusapi/addresses.go:76-111 | networks sorted; IPv4 and IPv6 the entries in network order; private and public the first eligible entry, else the first and last IPv4 address |
| Addresses.ParseIsDeterministic | pulumi-nobus/provider/pkg/nobusapi/addresses.go:80-84 | the result does not depend on the order in which the map is walked |
| Addresses.AddressesPartition | pulumi-nobus/provider/pkg/nobusapi/addresses.go:87-103 | IPv4 and IPv6 together hold every entry exactly once |
| Addresses.EntryLands | pulumi-nobus/provider/pkg/nobusapi/addresses.go:87-103 | an entry's place is the number of entries of its kind before it |
| Addresses.ChoicesAreMembers | pulumi-nobus/provider/pkg/nobusapi/addresses.go:104-109 | both choices are members of IPv4, or empty, and when they can be empty |

## Left out

- HTTP, JSON, URLs, authentication and the classification of error messages: a provider call is an abstract call with a reply.
- Clocks, timers and cancelled contexts: a wait adds to a count of milliseconds or fails, at the provider's discretion; the cancellation of a request in the middle of a call is one of the errors a call may report.
- Effects that arrive late: a call takes effect at the moment of its reply, or not at all. A provider that carries out an attach after it has reported an error, when the lock is free again, is not modelled.
- Crashes: a driver that stops is an RPC that takes no further step and keeps its lock.
- Capability validation, probing, the node service, mounting, and the conversion of listings and volumes to CSI messages.
- Metadata, project, creation time, content source and the snapshot a volume is made from: the driver passes them on and decides nothing by them. A volume created from a snapshot is treated like an empty one.
- The HTTP client's waiting for deletions and status changes, its configured-zone override in listings, and its search of listings for one ID.
- The driver's own ListVolumes and ListSnapshots RPCs: pagination is modelled for the in-memory provider, which both share with the client.
- Minimum size and granularity other than the defaults of internal/driver/config.go: the results about whole GiB are for those.
- The scheduling of Go's maps and sorts: sorting is by insertion and stable; `Ordering.SortPermutationInvariant` and `Ordering.StrictlySortedUnique` say why the choice does not show when keys are distinct. Maps are walked in arbitrary order where the source walks them.
- Concurrency inside `Driver`: its methods are sequential programs, each adding one conversation to the history of a connection of its own; the interleaving of many is in `System`. The mutex in a lock table is not modelled; TryLock and unlock are atomic steps.
- The deferred unlock: a method that takes a lock calls an inner method for the rest and unlocks after it returns. Some further steps of the Go functions are methods of their own.
- Exclusive.NeverOnTwoNodes: the clean-up of duplicates takes no volume lock, and nothing is claimed about a deletion that races with an attach.
- Histories.CreateIsIdempotent: like its counterpart for snapshots, is about the in-memory provider, whose listings are exact; the permissive provider can hide a volume from a retry.
- The Pulumi provider's other resources, its generated SDK and schema, its flavour and tag updates, and decoding the address map from JSON.
- Deployment files, configuration loading, identity and metadata discovery on the node.
