# bpfman, modelled and proved in Dafny

bpfman loads eBPF programs and keeps three things in step: a store of rows, the kernel's programs, links
and filters, and the pins in bpffs. Most of its operations change all three in several steps, any of which
may fail or be cut off by a crash. This project models those operations, and the algorithms around them,
and proves what holds over every input, every run and every point of failure.

`dafny verify dfyconfig.toml` checks everything.

## What is here

| file | what it models |
|---|---|
| `ProceedOn.dfy` | the proceed-on bitmask against the set of return codes it stands for |
| `Chain.dfy` | the XDP and TC dispatcher programs: the C chain against "run in order, go on iff the code is listed" |
| `RebuildSlots.dfy` | the in-place sort that orders a dispatcher's slots |
| `AttachPoint.dfy`, `Coherence.dfy` | store row, kernel objects and pins of one attach point; when they agree |
| `RebuildSteps.dfy`, `Rebuild.dfy` | what the steps of a rebuild keep; class `Executor`: attach and detach rebuilds of XDP and TC dispatchers, with rollback |
| `DispatcherRuns.dfy`, `PhantomRow.dfy` | every run of dispatcher attaches and detaches over all attach points; a run that ends badly |
| `Operation.dfy`, `SimpleAttach.dfy` | the plan interpreter; pending-row attach and detach of simple links with crashes |
| `Lifecycle.dfy` | class `Manager`: batch load with rollback, unload, map-set garbage collection |
| `Reap.dfy`, `Delete.dfy` | the dead-record reap plan; ordered and recursive program deletion |
| `Tcx.dfy` | class `Hook`: TCX chain insertion by priority |
| `Csi.dfy`, `CsiRuns.dfy`, `CsiReplies.dfy`, `MapNames.dfy` | CSI publish and unpublish over a mount table; whole runs; what the answers mean; the map list |
| `StrDist.dfy`, `Suggest.dfy` | two-row edit distance; the suggestions built on it |
| `Inspect.dfy` | the store, kernel and bpffs correlation |
| `PinNames.dfy`, `MountInfo.dfy`, `Text.dfy`, `Options.dfy` | names in bpffs, mountinfo, string order and splitting |

A class's `faults: nat -> bool` says which of its calls fail; every statement holds for all of them. Ids that
the kernel picks (program ids, filter handles) are parameters too. Unless a member says otherwise, a
compensating call (one that undoes or cleans up) is taken to succeed, and every other call may fail. The
attaches, detaches, loads, unloads and deletions also say what they need to succeed when no call fails (`Quiet`).

## Where the code does less than it says

* A TC attach over a row whose filter is gone (left by a teardown that could not delete the row) can be given
  the recorded handle again by the kernel. The attach then removes its own filter as "the old one" and still
  returns success. `Coherence.CommittedCoherent` says exactly when; `PhantomRow.SilentAttach` has the executor do it.
* A rebuild on detach drops the survivors' link metadata, although the slot's comment says that metadata is
  carried over (manager/executor_dispatcher.go:35 and 682-690). `DispatcherRuns.DetachMembers` states it.
* A member's half-done detach is invisible to packets exactly when its codes hold `dispatcher_return` or the
  rest of the chain gives that verdict anyway: `Chain.StubInvisible`.
* The load plan's undo removes the directory a program's maps are in, also when it belongs to another
  program. A sharer that cannot be published takes its owner's maps along: `Lifecycle.UndoKeepsSets` gives the
  exact condition, `Lifecycle.OwnerLosesMaps` an instance.
* A pin outlives its link row exactly when the rollback of an attach could not detach but could delete the row:
  `SimpleAttach.PinOutlivesRow`.
* A read-only CSI publish that does not finish can leave its bind mount writable: cut off between the bind mount
  and the read-only remount, or rolled back without the target being unmounted. A retry with the same
  arguments is refused with AlreadyExists exactly then, from every point of the work and of the rollback, with
  or without a crash (`CsiRuns.RetryAfterCrash`, `CsiRuns.RetryAfterFailure`), and stays refused until the volume is
  unpublished (`CsiRuns.RefusedUntilUnpublished`). Every read-only publish passes through that point
  (`CsiRuns.PassesRemount`).
* A TCX priority outside int32 is narrowed to another number, and stored as that or, if it is negative, refused:
  `Tcx.NarrowExact`, `Tcx.Hook.AttachTcx`.
* A revision directory's name has other spellings with leading zeros that parse to the same revision:
  `PinNames.ParsedIsName`.
* Deletion order puts owners last exactly when the selected programs' owner graph has no cycle:
  `Delete.OrderProgramDeletes`.

## Model

| member | source | states |
|---|---|---|
| `ProceedOn.ProceedOnMask` | dispatcher/dispatcher.go:134-151 | succeeds iff every code is valid (so the range check never fires on valid codes), with the mask of exactly those codes |
| `ProceedOn.MaskHoldsListed` | dispatcher/dispatcher.go:107-151 | bit code+offset is set iff the code is listed |
| `ProceedOn.ProceedOnActions` | dispatcher/dispatcher.go:154-171 | succeeds iff every set bit is a valid code; the result is strictly increasing and encodes back to the mask |
| `ProceedOn.DecodeOfEncode` | dispatcher/dispatcher.go:134-171 | decoding an encoded list gives its strictly increasing, deduplicated form, and there is only one |
| `ProceedOn.MaskDecodable` | dispatcher/dispatcher.go:134-171 | every encoded mask decodes, to exactly the listed codes |
| `ProceedOn.MaskExtensional` | dispatcher/dispatcher.go:134-151 | two masks with the same 32 bits are equal |
| `ProceedOn.ValidCodes` | dispatcher/dispatcher.go:118-129 | which codes are valid, in numbers |
| `Chain.NewConfig` | dispatcher/dispatcher.go:175-203 | 1 to 10 programs, or an error; masks padded with zero |
| `Chain.Dispatch` | dispatcher/bpf/xdp_dispatcher_v2.bpf.c:132-205 | the unrolled C chain gives the verdict of the simple chain over its slots' code sets, for XDP and TC |
| `Chain.RunConcat` | dispatcher/bpf/tc_dispatcher.bpf.c:110-183 | a chain is run part by part: the second part runs iff the first is passed through |
| `Chain.StubEffect` | dispatcher/bpf/xdp_dispatcher_v2.bpf.c:44-50 | a stub in any place either ends the chain with dispatcher_return or changes nothing |
| `Chain.StubInvisible` | dispatcher/bpf/tc_dispatcher.bpf.c:22-28 | the chain with a stub equals the chain without that slot iff the slot's codes hold dispatcher_return, or the rest always gives that verdict |
| `Chain.DefaultStubInvisible` | manager/attach_xdp.go:32-42 | with the default proceed-on codes the stub is invisible on every packet |
| `Chain.DefaultMasks` | manager/attach_xdp.go:32-42 | the default codes' masks are 0x80000004 for XDP and 0x80000010 for TC |
| `Chain.VerdictIs` | dispatcher/bpf/xdp_dispatcher_v2.bpf.c:132-205 | the verdict is that of the first program whose code is not listed, else 2 (pass) for XDP and 0 (ok) for TC |
| `RebuildSlots.SortRebuildSlots` | manager/executor_dispatcher.go:1113-1129 | the in-place insertion sort leaves the array as the sorting function of its old contents |
| `RebuildSlots.SortSorts` | manager/executor_dispatcher.go:1113-1129 | sorted by priority, new before attached, name; and a permutation |
| `RebuildSlots.SortStable` | manager/executor_dispatcher.go:1113-1129 | slots with the same key keep their order |
| `RebuildSlots.NewSlotIndex` | manager/executor_dispatcher.go:132-153 | the one new slot lands at the number of members of strictly lower priority |
| `RebuildSlots.SelectSort` | manager/executor_dispatcher.go:660-692 | dropping members before or after sorting is the same |
| `RebuildSlots.DetachTwoCommutes` | manager/executor_dispatcher.go:660-692 | the order in which two filters and re-sorts are applied does not matter; `DispatcherRuns.DetachOrderFree` is its use |
| `AttachPoint.LoadStages` | manager/executor_dispatcher.go:160-182 | loading and pinning a new revision changes nothing that serves packets |
| `AttachPoint.AttachStages` | manager/executor_dispatcher.go:202-240 | attaching slot k extends the staged revision by exactly that slot |
| `AttachPoint.DetachResidue` | manager/executor_dispatcher.go:183-200 | the clean-up of extension links leaves one link fewer and nothing else changed |
| `AttachPoint.DropResidue` | manager/executor_dispatcher.go:729-745 | dropping the new revision restores pins, row and attachment |
| `AttachPoint.RevDirDetaches` | manager/executor_dispatcher.go:729-745 | removing a revision directory includes detaching any link pinned in it |
| `AttachPoint.RevDirGone` | manager/executor_dispatcher.go:729-745 | afterwards nothing of the revision is pinned and its links hold no slot; other slots and pins are as they were |
| `Coherence.RolledBackCoherent` | manager/executor_dispatcher.go:447-464 | a failed rebuild leaves row, attachment and pins in agreement, the old revision attached if it was |
| `Coherence.CommittedCoherent` | manager/executor_dispatcher.go:508-627 | a finished rebuild leaves them in agreement with every stub gone; it leaves nothing attached iff TC, a row whose filter is gone, and its handle given out again |
| `Coherence.CompletedIds` | manager/executor_dispatcher.go:69-87 | link ids of the persisted members are distinct and below the store's next id |
| `Coherence.DetachExtCoherent` | manager/detach.go:79-90 | detaching a member's extension link keeps row and attachment and removes that one pin |
| `Coherence.AttachSlotsNew` | manager/executor_dispatcher.go:132-153 | exactly one slot is new, at its priority's place, and takes the next link id |
| `Coherence.CommittedOrder` | manager/executor_dispatcher.go:1113-1129 | of two slots of a rebuilt dispatcher, the lower priority number is first; at the same number a new one is first; of two old ones the smaller name |
| `Text.FirstDifference` | manager/executor_dispatcher.go:1119-1121 | a name is smaller iff it is a proper prefix or has the smaller character where they first differ |
| `Coherence.RebuiltRevision` | manager/executor_dispatcher.go:165-170 | a detach whose rebuild succeeds leaves the revision one higher, or no row when nobody is left or the namespace is gone |
| `Rebuild.Executor.Stage` | manager/executor_dispatcher.go:160-240 | all slots attached to the new revision, or nothing of it left; service unchanged throughout; succeeds iff no call fails |
| `Rebuild.Executor.RebuildXdp` | manager/executor_dispatcher.go:93-353 | commits or rolls back; every state on the way runs the old dispatcher or the finished new one; with no failing call it commits iff the store takes the snapshot and the link is where the row says |
| `Rebuild.Executor.RebuildTc` | manager/executor_dispatcher.go:358-627 | the same for TC, failed rebuilds with the old handle again; a successful one has a filter in every state; with no failing call it commits iff the store takes the snapshot and the kernel picks a free handle |
| `Rebuild.Executor.FinishXdp` | manager/executor_dispatcher.go:242-353 | swap, persist and tidy of a staged XDP revision, or its rollback |
| `Rebuild.Executor.FinishTc` | manager/executor_dispatcher.go:508-627 | the same for a staged TC revision, with the handle the kernel picked |
| `Rebuild.Executor.RollBackXdp` | manager/executor_dispatcher.go:279-295 | from a failed persist, the link is detached on a first attach, otherwise points at the program pinned for the stored revision, and no pin of the new revision is left |
| `Rebuild.Executor.RollBackTc` | manager/executor_dispatcher.go:552-570 | from any failed persist, the new filter is gone, the old one is back and no pin of the new revision is left |
| `Rebuild.Executor.SwapTcFilter` | manager/executor_dispatcher.go:508-538 | the new filter exists before the old one is removed |
| `Rebuild.Executor.Attach` | manager/executor_dispatcher.go:93-353 | success: the member list with the new member at its priority's place under the returned id; and the stored revision up by one, or 1 on the first; failure: as before; ten members refuse an eleventh; all-or-nothing in every state; with no failing call it succeeds iff there is room, the mask decodes, the revision is below 2^32 - 1 and the attachment can be swapped |
| `Rebuild.Executor.RebuildForDetach` | manager/executor_dispatcher.go:654-704 | the survivors' chain, the empty dispatcher removed, or a rollback; with no failing call, success iff it empties or the attachment can be swapped |
| `Rebuild.Executor.RemoveEmpty` | manager/executor_dispatcher.go:992-1025 | nothing changed, or attachment and pins gone, and the row too unless its deletion failed; succeeds iff neither call fails |
| `Rebuild.Executor.BeginDetach` | manager/detach.go:73-90 | iff the link is stored and neither call fails, its extension is detached and nothing else changed; otherwise nothing |
| `Rebuild.Executor.Detach` | manager/detach.go:73-97 | unknown link: nothing; otherwise the stub is back and the rebuild has ended as above, the revision up by one if it committed, the row gone if the last member went; with no failing call, success iff the link is stored and the rebuild can be done |
| `Coherence.RevisionLeft` | manager/executor_dispatcher.go:165-170 | a next revision exists iff there is no row or its revision is below 2^32 - 1 |
| `DispatcherRuns.RunInvariant` | manager/executor_dispatcher.go:93-704 | in every state of every run: row, attachment and pins agree at every attach point, 1 to 10 members at positions 0..n-1, a stub only where a detach began, link ids distinct across all points |
| `DispatcherRuns.LinkIdentity` | manager/executor_dispatcher.go:69-87 | a link id names one extension at one attach point for ever |
| `DispatcherRuns.MembersConserved` | manager/executor_dispatcher.go:654-704 | no event loses a member but its own detach or a detach in a vanished namespace; a successful detach leaves its id nowhere |
| `DispatcherRuns.MemberWasThere` | manager/executor_dispatcher.go:69-87 | no event brings back or re-labels an id already given out |
| `DispatcherRuns.AttachMembers` | manager/executor_dispatcher.go:132-153 | after an attach: the old members with id, extension and metadata, and the new one |
| `DispatcherRuns.DetachMembers` | manager/executor_dispatcher.go:682-690 | after a detach: the other members with id and extension, their metadata empty |
| `DispatcherRuns.DetachOrderFree` | manager/executor_dispatcher.go:654-704 | two successful detaches in either order end with the same members, in the same order, under the same link ids |
| `DispatcherRuns.DetachedSlots` | manager/executor_dispatcher.go:660-692 | after a successful detach the members are the sorted others, or none |
| `DispatcherRuns.DispatcherMeansMembers` | dispatcher/bpf/xdp_dispatcher_v2.bpf.c:132-205 | the running dispatcher's chain is the stored members' chain, slot i with member i's codes or the stub |
| `DispatcherRuns.StubsInvisible` | manager/detach.go:79-90 | while the missing members' codes hold dispatcher_return, the verdict is that of the remaining members |
| `DispatcherRuns.RunVerdict` | manager/executor_dispatcher.go:93-353 | in every run, an attached dispatcher's verdict on every packet is the simple chain's over the stored members, stubs only where a detach began |
| `DispatcherRuns.WholeVerdict` | manager/executor_dispatcher.go:242-295 | in every state on the way of a rebuild, whatever runs gives on every packet the old chain's verdict or the new chain's; for XDP exactly one dispatcher runs |
| `DispatcherRuns.RowOnlyAfterTearDown` | manager/executor_dispatcher.go:992-1025 | in every run a stored row's dispatcher is attached, unless an earlier detach there took the attachment away and could not delete the row |
| `DispatcherRuns.RevisionCounts` | manager/executor_dispatcher.go:165-170 | in every run, the stored revision is the number of rebuilds committed at that attach point since it last had no row |
| `PhantomRow.SilentAttach` | manager/executor_dispatcher.go:500-627 | an executor whose only failing call is one row deletion: its last attach returns success and leaves no filter; and its states are a run |
| `Operation.Run` | manager/operation/run.go:13-118 | the loop that collects undo groups and replays them backwards visits the states of the nested meaning: each node undoes itself when the rest fails |
| `Operation.FailureRestores` | manager/doc.go:95-117 | a failed plan whose undos invert their nodes ends where it started, as seen by any observer |
| `SimpleAttach.AttachTraceIs` | manager/attach_simple.go:89-164 | the states an attach visits, for every combination of failing calls |
| `SimpleAttach.AttachNamed` | manager/attach_simple.go:89-164 | every pin under links/ is named by a row in every state; success adds one row and its pin, a failure nothing |
| `SimpleAttach.PinOutlivesRow` | manager/attach_simple.go:109-136 | a pin without a row is left iff the rollback's detach failed and its row deletion did not |
| `SimpleAttach.DetachRuns` | manager/detach.go:73-97 | the states a detach visits, for every combination of failing calls |
| `SimpleAttach.DetachNamed` | manager/detach.go:73-97 | every state of a detach names its pins |
| `SimpleAttach.CrashThenDetach` | platform/interfaces.go:55-69 | wherever an attach is cut off, nothing is left or its row is, and detaching that row removes the rest |
| `SimpleAttach.RunNamed` | platform/interfaces.go:55-69 | over every run of attaches and detaches with failures and crashes, every pin is named; a link stays until its own detach; a retired id does not come back |
| `SimpleAttach.AttachedUntilDetached` | manager/attach_simple.go:89-164 | a finished attach leaves its row and pin through every run without a detach of that link |
| `SimpleAttach.DetachedForGood` | manager/detach.go:73-97 | a finished detach takes row and pin away for the rest of every run |
| `SimpleAttach.CutAnywhere` | platform/interfaces.go:55-69 | a crash can leave any state on the way |
| `Lifecycle.Manager.UnloadProgram` | manager/unload.go:50-126 | succeeds iff detach, unpinning and row deletion do; a failure of the first two changes nothing, of the third keeps row and maps; a map directory goes only when no stored program uses the set, and stored programs keep theirs; with no failure, exactly the program's things go |
| `Lifecycle.Manager.RemoveRow` | manager/unload.go:87-96 | row and unused map set, or nothing; rows and sets stay in agreement |
| `Lifecycle.Manager.GcMapSetIfUnused` | manager/unload.go:144-166 | a set in use is left alone; otherwise directory and row go, the row only after its directory and only if no call failed |
| `Lifecycle.Manager.RemoveRolledBackMaps` | manager/unload.go:128-142 | a surviving map set of the same id protects its directory |
| `Lifecycle.Manager.Unload` | manager/unload.go:277-306 | unknown id: an error and no change; success iff the id is stored and none of the five calls fails, and then exactly that row is gone; otherwise every row is still there |
| `Lifecycle.UnloadedIs` | manager/unload.go:50-104 | the last member's clean unload removes directory and set row, any other keeps both |
| `Lifecycle.Manager.LoadOne` | manager/load.go:703-755 | one program staged iff its owner's maps are there and neither call fails; otherwise its plan undone as `PlanUndone` says, a failed step of the undo leaving what it was to remove |
| `Lifecycle.Manager.UndoPlan` | manager/load.go:722-728 | each step of the undo that does not fail takes its part away, whatever the other does |
| `Lifecycle.Manager.Commit` | manager/load.go:653-693 | all rows and map sets of the batch, none of which was there, or the store as it was; success only if no call failed, and on a batch the store takes whenever none does |
| `Lifecycle.Manager.SaveOne` | manager/load.go:653-672 | saved iff neither call fails, the id is new, and its map set is new or the owner's is there |
| `Lifecycle.Manager.RollBack` | manager/load.go:583-590 | unloading the staged programs last first gives the disk before the batch |
| `Lifecycle.Manager.LoadAll` | manager/load.go:592-640 | phase A: all staged, with no call failed, or rolled back; with no failing call all staged iff every owner's maps are there |
| `Lifecycle.Manager.LoadBody` | manager/load.go:555-696 | success adds exactly the batch, in spec order; failure saves nothing and, with working clean-up and self-owned programs, leaves the disk as before; with no failing call, success iff every owner's maps are there |
| `Lifecycle.Manager.Load` | manager/load.go:317-352 | an owner without a map set: nothing changes; otherwise as loadBody; success only if no call failed, and then iff every owner has its map set and directory |
| `Lifecycle.StagedIs` | manager/load.go:592-640 | what phase A adds, id by id |
| `Lifecycle.SavedIs` | manager/load.go:653-693 | what phase B adds, row by row |
| `Lifecycle.UndoKeepsSets` | manager/load.go:722-728 | the plan's undo keeps every stored program's maps iff none uses the new program's set |
| `Lifecycle.OwnerLosesMaps` | manager/load.go:722-728 | an owner that loses its maps to a sharer's failed publish |
| `Reap.PlanReap` | manager/load.go:505-550 | terminates on any graph; each dead program once; exactly the least set closed under "all dependents reaped"; dependents first; equal to a function of the sets alone, whatever the iteration order |
| `Reap.SweepOnce` | manager/load.go:526-548 | the count of remaining dependents stays exact through a sweep |
| `Reap.StuckIsLeast` | manager/load.go:505-550 | a sweep without progress has found the least such set |
| `Reap.WithinClosed` | manager/load.go:505-550 | deleting dependents first stays within every closed set |
| `Delete.OrderProgramDeletes` | manager/delete.go:245-275 | terminates on every graph; several ids over a graph with edges come out once each, every selected dependent before its owner iff no selected program reaches itself through the selection |
| `Delete.Ordering.Visit` | manager/delete.go:257-269 | the closure's depth-first visit keeps owners last |
| `Delete.OrderRanks` | manager/delete.go:245-275 | an order with owners last exists only without cycles |
| `Delete.AcyclicIsRanked` | manager/delete.go:245-275 | no cycle among the selected programs iff a rank falls from every owner to its dependents |
| `Delete.Batch.DeleteProgram` | manager/delete.go:188-223 | removes only what the program's dependents reach, and touches no other program's links; on success all of it; never unloads an owner before its dependents, failures included; succeeds when no call fails |
| `Delete.Batch.DeleteDependents` | manager/delete.go:277-291 | the dependents are gone, the owner is not |
| `Delete.Batch.DetachAndUnload` | manager/delete.go:202-222 | links detached one by one, then the program once; no other program's links change; the links reported removed are exactly those gone since the start; with no failing call it succeeds |
| `Delete.Batch.DetachLinks` | manager/delete.go:202-213 | on success the program has no link left; otherwise a first part is gone; every other program keeps its links |
| `Delete.OneMoreGone` | manager/delete.go:202-213 | detaching the next link keeps the account exact: each program's links are those gone followed by those left, and the removed set is those gone |
| `Delete.DeleteSelected` | manager/delete.go:77-104 | one result per listed program, ok only if removed; without cycles no selected owner goes before a selected dependent; programs not listed keep their links; the links reported removed are exactly those gone; all ok when no call fails |
| `Delete.DeleteRecursively` | manager/delete.go:77-104 | removes nothing outside the dependent closure of the listed programs, and all of the closure of each that is answered ok, each once and dependents first; programs outside the closure keep their links; the links reported removed are exactly those gone; all ok when no call fails |
| `Tcx.FilterLive` | manager/attach_tc.go:260-274 | exactly the live links in order; each program asked once |
| `Tcx.ComputeOrder` | manager/attach_tc.go:285-303 | before the first link of a higher priority number, else after the last, else first of all |
| `Tcx.OrderedPlace` | manager/attach_tc.go:285-303 | at the computed place, everything managed before has at most this priority, everything after a higher one |
| `Tcx.AttachOrdered` | manager/attach_tc.go:134-192 | whatever the kernel accepts there keeps the managed part in listing order |
| `Tcx.Hook.AttachTcx` | manager/attach_tc.go:105-207 | the chain is the old one with the program put in directly at its anchor; keeps the chain ordered; a program attached before is refused; a failure leaves the rows, and the chain but for a stale link of the program itself; success iff no call fails, no link here, a stored priority that is not negative, and the anchor on the chain |
| `Tcx.Hook.ClearOwn` | manager/attach_tc.go:133-164 | refused iff the program has a link here or a call fails, the chain then as it was; otherwise only a stale link of its own is gone |
| `Tcx.AttachPlaces` | manager/attach_tc.go:134-192 | refused iff the anchor is not on the chain; otherwise the program is directly before or after its anchor, or at the front, and nothing else moved |
| `Tcx.AnchoredIfLive` | manager/attach_tc.go:160-192 | the anchor is on the chain when every listed program not known to be dead is |
| `Tcx.Hook.DetachTcx` | manager/detach.go:73-97 | an unknown link changes nothing; the link goes before its row, the chain loses that program and nothing else; if the first call fails nothing changes; success iff the link is stored and no call fails |
| `Tcx.RemoveOrdered` | manager/attach_tc.go:260-303 | a program that dies leaves the rest in order |
| `Tcx.RemoveIs` | manager/detach.go:73-97 | removing a program from a chain that holds it once closes the gap and keeps both sides |
| `Tcx.NarrowExact` | manager/attach_tc.go:192 | the stored priority is the requested one iff it fits int32 |
| `Csi.OpKeeps` | csi/node.go:139-313 | every step of a call keeps one mount per path, other volumes' mounts, and every pin; OK means published, or for an unpublish a bare target; a failed publish leaves its target bare or with the bind mount it could not make read-only |
| `CsiRuns.NoStacking` | csi/node.go:139-313 | over every run with crashes and retries, at most one mount per path, and no step removes a pin |
| `CsiRuns.RepliesMean` | csi/node.go:519-553 | publish OK: the target shows exactly the maps asked for, with the flag; unpublish OK: no mount at the target, and none left of its per-pod filesystem unless that clean-up failed |
| `CsiReplies.OkIsEarned` | csi/node.go:139-553 | over every run, each OK was given by a step after which the target showed what was asked for, or for an unpublish was bare |
| `CsiReplies.UnpublishCompletes` | csi/node.go:519-553 | from any reachable state an unpublish without failures is answered OK, leaves target and per-pod filesystem bare, and everything else as it was |
| `CsiReplies.FailureUndone` | csi/node.go:213-313 | a publish that fails at any step of its work, and whose rollback does not, leaves target and per-pod filesystem bare, answered NotFound for a map the program does not pin and otherwise Internal |
| `CsiReplies.EarlyFailure` | csi/node.go:144-199 | a failure before the work ends the call with the host as it was: NotFound for a missing program, FailedPrecondition for a target with another kind of mount, otherwise Internal |
| `CsiReplies.BusyAborted` | csi/node.go:139-142 | a call for a volume that has one in flight is answered Aborted and changes nothing else |
| `CsiReplies.BadMapsRefused` | csi/node.go:388-430 | a publish is refused as invalid, busy or not, iff it names no map or a name is not a single path element |
| `CsiReplies.ReservedNeverOk` | csi/node.go:335-346 | over every run, a publish that asks for maps.debug or progs.debug is never answered OK |
| `CsiRuns.PublishIdempotent` | csi/node.go:144-177 | after a publish is answered OK, through every run without an unpublish of the target, each publish of the same set of maps and the same flag is answered OK at its check and leaves the host as it is |
| `CsiRuns.Republish` | csi/node.go:320-347 | the check's three answers: OK iff the target already shows these maps and this flag, AlreadyExists iff something else, on with the work iff it is bare; none changes anything |
| `CsiRuns.StaysPublished` | csi/node.go:139-313 | a published target, with no call for it past its check, stays so through every run without an unpublish of it |
| `CsiRuns.Completes` | csi/node.go:208-313 | without failures a call past its check publishes, whatever a crash left behind |
| `CsiRuns.RetryAfterCrash` | csi/node.go:159-232 | cut off anywhere in its work or rollback, a publish's retry is refused iff it was read-only and its writable bind mount is still there; in the work that is between bind and remount |
| `CsiRuns.RetryAfterFailure` | csi/node.go:213-232 | the same after a publish that failed and was rolled back, whichever steps failed |
| `CsiRuns.RefusedUntilUnpublished` | csi/node.go:159-177 | such a retry stays refused through every run without an unpublish of the target |
| `CsiRuns.PassesRemount` | csi/node.go:292-307 | every read-only publish passes through that point |
| `Csi.CleanupKeeps` | csi/node.go:497-515 | unmounting, then removing the directory, deletes no pin |
| `Csi.RemovedFirst` | csi/node.go:507-515 | in the other order the mount would stay and show nothing |
| `MapNames.ParseMapNames` | csi/node.go:353-368 | the names that the two lemmas below describe |
| `MapNames.KeptAre` | csi/node.go:353-368 | exactly the trimmed non-empty fields, each once |
| `MapNames.KeptInOrder` | csi/node.go:353-368 | in the order of their first occurrences |
| `MapNames.TrimIs` | csi/node.go:353-368 | trimming takes white space off the ends and nothing else |
| `MapNames.SpaceCodes` | csi/node.go:353-368 | the code points counted as white space |
| `MapNames.NamesOfJoin` | csi/node.go:353-368 | a clean list written with commas parses back to itself |
| `MapNames.EqualStringSets` | csi/node.go:372-386 | true iff the lists are permutations of each other |
| `MapNames.DistinctSameSet` | csi/node.go:320-347 | on lists without repeats that is equality of sets |
| `StrDist.Levenshtein` | internal/strdist/strdist.go:15-41 | the two-row loop returns the least number of single-rune insertions, deletions and substitutions |
| `StrDist.FillRow` | internal/strdist/strdist.go:29-40 | one row of the table from the one before |
| `StrDist.DistanceMinimal` | internal/strdist/strdist.go:15-41 | the recurrence is reached by an edit path and no path is shorter |
| `StrDist.Metric` | internal/strdist/strdist.go:15-41 | zero iff equal, symmetric, triangle inequality |
| `StrDist.SuffixCancels` | internal/strdist/strdist.go:15-41 | a common suffix does not count |
| `StrDist.PrefixCancels` | internal/strdist/strdist.go:15-41 | a common prefix does not count |
| `Suggest.Nearest` | internal/strdist/strdist.go:59-96 | exactly the first limit candidates by distance and name within both caps |
| `Suggest.NearestTracepoints` | manager/suggest.go:212-266 | the same under the tracepoint score |
| `Suggest.Take` | internal/strdist/strdist.go:70-96 | the common tail; non-empty iff the best distance is within the absolute cap |
| `Suggest.ClosestUnique` | internal/strdist/strdist.go:59-96 | there is only one such list |
| `Suggest.SuggestedOrderFree` | manager/suggest.go:212-266 | the suggestions do not depend on the order of the candidates |
| `Suggest.TracepointDistanceIs` | manager/suggest.go:277-300 | the split-aware score is the distance of the whole paths, but for a name prefix |
| `Suggest.NoSlashScoreIs` | manager/suggest.go:212-266 | without a slash in the target, the score is the distance to the candidate's name, or its whole text if it has none |
| `Suggest.NameMatches` | manager/suggest.go:228-233 | if some tracepoint has the target as its bare name, then some are suggested, and only tracepoints of that name |
| `Suggest.SlashPerfect` | manager/suggest.go:277-300 | a target with a slash scores 0 on itself and, if its name has at least three bytes, on that name's extensions in its group; on nothing else |
| `Suggest.RuneLenIs` | manager/suggest.go:277-300 | a character's length in bytes is that of section 3 of RFC 3629 |
| `Inspect.MapSetMembers` | inspect/mapset.go:27-42 | for each stored program, the ascending list of its map set |
| `Inspect.MembersPartition` | inspect/mapset.go:27-52 | these lists partition the stored programs |
| `Inspect.SharersListed` | inspect/mapset.go:27-52 | a program shares its list with an owner that owns its own maps, and with that owner's other users; two that own their maps do not |
| `Inspect.Snapshot` | inspect/inspect.go:382-721 | one row per program of the three sources, strictly ascending, flags equal to membership, each with its links; link rows are the stored links and the unclaimed kernel links, ascending by link id |
| `Inspect.LinkRows` | inspect/inspect.go:548-619 | a row per stored link and per kernel link that none claims, once |
| `Inspect.StoreLinkRowIs` | inspect/inspect.go:556-601 | a stored link's row carries the record's own fields; in the kernel iff listed there, in bpffs iff a pin was found or the recorded path exists |
| `Inspect.KernelLinkRowIs` | inspect/inspect.go:603-619 | an unclaimed kernel link's row: the kernel's own record, in the kernel, not in the store, in bpffs iff a pin was found, at that path |
| `Inspect.Correlate` | inspect/inspect.go:704-716 | each program row gets exactly its own links, in order |
| `Inspect.LinkUnderOwner` | inspect/inspect.go:704-716 | a stored link is under its program's row and under no other |
| `Inspect.KernelOnlyFirst` | inspect/inspect.go:718-721 | with link ids from 1 on, links only the kernel has come first, then the stored ones by id |
| `Inspect.ProgramsUnique` | inspect/inspect.go:718-721 | the program rows do not depend on the order in which any map is walked |
| `PinNames.RevisionRoundTrip` | fs/bpffs_layout.go:181-187 | parsing a revision directory's name gives the revision back |
| `PinNames.LinkRoundTrip` | fs/bpffs_layout.go:169-175 | parsing a dispatcher link's name gives the attach point back |
| `PinNames.NoNameIsBoth` | fs/scanner.go:456-500 | no name parses as both |
| `PinNames.ParsedIsName` | fs/scanner.go:456-479 | a parsed revision's name is the text iff no number has a leading zero |
| `PinNames.ParsedIsLinkName` | fs/scanner.go:481-500 | the same for a parsed link: prefix, two numbers and suffix, and its name is the text iff neither has a leading zero |
| `PinNames.DecimalOfValue` | fs/scanner.go:456-500 | printing a parsed number gives its text iff it has no leading zero |
| `MountInfo.UnescapeMountInfo` | fs/runtime/mount.go:187-211 | the index loop decodes every octal triplet that fits a byte and keeps the rest |
| `MountInfo.UnescapeEscape` | fs/runtime/mount.go:187-211 | it undoes the escaping of every path, for every escape set that holds the backslash |
| `MountInfo.RoundTrip` | fs/runtime/mount.go:187-211 | the escape sets for which that holds: exactly those with the backslash or with all of 0 to 3 |
| `MountInfo.MountpointFsType` | fs/runtime/mount.go:44-95 | the last matching line is reported; unreadable lines are passed over |
| `MountInfo.ReportedIsTopmost` | fs/runtime/mount.go:44-95 | on the lines of a mount table that is the topmost mount |

## Left out

- SQLite, cilium/ebpf, netlink and the system calls: modelled by the contracts in platform/interfaces.go and what their callers rely on; a transaction is atomic.
- The kernel's reclaiming of programs that nothing holds any more; kernel ids are numbered per attach point and not used again there.
- Best-effort and compensating calls in `Rebuild.dfy`: taken to succeed, except where `RemoveEmpty` lets the row deletion fail; creating and reclaiming the clsact qdisc is not modelled.
- `Manager.DeleteDispatcherSnapshot` and the reap of dead records inside dispatcher runs: they drop rows without a kernel detach.
- XDP and TC return codes outside the shift range (0..31 and -1..30), undefined in C; `Chain.Dispatch` requires them inside.
- A rebuild reads the stored members in the order of their positions. The store lists them by priority and name (platform/store/sqlite/dispatchers.go:40 and 54), so members with the same priority and the same program name may reach the sort in another order, and come out in that one.
- The eleventh slot `compat_test` and xdp_dispatcher_v1.bpf.c: unreachable, and not embedded.
- Lifecycle.Manager.Load: requires kernel ids without residue, as loadBody does.
- Lifecycle.Manager.LoadBody: requires kernel ids without residue; shared PinByName pins, and the reap before a load, are not modelled; every program that shares maps is taken to need its owner's directory.
- Lifecycle.Manager.UnloadProgram: the link detaches of an unload are one call here, and dispatcher clean-up after it is in `Rebuild.dfy`.
- Delete.Batch.DeleteProgram: requires an owner graph without cycles, since the source's recursion does not end on one.
- Delete.Batch.DeleteDependents: requires the same.
- Delete.DeleteRecursively: requires the same.
- `DeleteLinks`: it adds no ordering beyond that of `Delete.dfy`.
- Csi.OpKeeps: publish and unpublish are a state machine on values, one step per system call, because calls interleave and crash; csi/locks.go is the key set of its `inflight` map; the volume id, target path and capability checks before the lock are not modelled.
- CsiRuns.NoStacking: requires each target to belong to one volume, as the driver's single-target access modes do, and a host with no mounts of the driver at the start.
- Inspect.Snapshot: dispatcher rows and enumeration errors are not modelled; link rows of unclaimed kernel links all have link id 0, so their order among themselves is open.
- MountInfo.MountpointFsType: takes lines already cut at " - " and into fields.
- gRPC server, CLI, configuration, OCI images, signatures, locking by flock, JSON and enum tables: plumbing, or settled by one branch.
