# Verification of clash-verge state handling

A Dafny model of the parts of clash-verge that keep state: the copy-on-write draft store and its
transactions, the profile list and its saved node selections, proxy chains, configuration merging, listener
claims, and the bounded histories of the front end. `dafny verify dfyconfig.toml` checks everything.

## What is modelled

- **Draft layers.** `DraftStore` is one layer: a committed snapshot and an optional draft in reference-counted
  cells, edited in place only when unshared. Its class performs each critical section statement by statement.
  `DraftProtocol` is the concurrent protocol: any number of asynchronous updates, edits, applies, discards and
  snapshot readers interleave, one atomic step at a time (mutex sections, the compare-exchange, the store, the
  notification queue). The allocator may reuse a freed address at once. The notification queue is taken as its
  documentation describes it: at most one stored permit and first-come waiters. `DraftRuns` proves what holds over
  whole runs, and `DraftLineage` which edits and updates of a run are in the committed value.
- **Transactions.** `DraftTransaction` is begin, commit and drop as loops over layer objects;
  `TransactionProtocol` interleaves any number of transactions with outside use of the same layers, and
  `TransactionLaws` says that they do as they are told and end.
- **Selections and profiles.** `Selection`, `SelectionLaws`, `PlanLaws` and `Activation` are the reconciliation of
  saved selections with what the core reports; `ProfileList` and `ProfileLaws` the list of profiles; `ProfileStore`
  the updates of saved selections and the end of a profile switch, each on its own; `ProfileRuns` all of them racing
  in the draft protocol.
- **Proxy chains.** `ProxyChain` writes a chain as `dialer-proxy` links and reads it back; `ChainLaws` says when
  that works.
- **Merging and listeners.** `Merge`, `Listener` and `ListenerLaws` work on YAML values (`Yaml`).
- **Front-end histories.** `Ring`, `Sampler`, `SamplerLaws` and `SamplerRanges` are the traffic sampler;
  `Connections`, `ConnectionLaws` and `TrafficLaws` the connection monitor; `Occurrence` the bindings to one of
  several like members.

Clock readings, answers of the core, whether a file could be written, parsed addresses, the closures passed to
updates and the addresses an allocation returns are parameters.

## What the proofs found

- Deleting a profile whose options name the current profile leaves `current` naming nothing
  (`src-tauri/src/config/profiles.rs:335-373`). `ProfileLaws.StepKeepsValid` gives the exact condition,
  `ProfileLaws.DanglingCurrent` an instance.
- Recording a node rewrites the first record of its group while restoring honours the last, so with repeated
  records a recorded choice can be ignored (`src-tauri/src/config/profiles.rs:695-732` against `508-515`).
  `ProfileStore.RecordTakesEffectIff` gives the exact condition, `ProfileStore.RecordCanBeShadowed` an instance.
- The chain reader does not always terminate on a written chain (`src-tauri/src/cmd/runtime.rs:51-74`). For a chain of
  string names it stops exactly when no name repeats behind the last name that no proxy has: `ChainLaws.ReaderStopsIff`,
  with `ChainLaws.CycleNeverEnds` and `ChainLaws.AbsentNameBreaksCycle` as instances. It returns the chain exactly when
  the chain moreover has at least two names and all are present: `ChainLaws.RoundTripIff`; a chain of one name reads
  back as nothing.
- Taking a profile switch back stages an edit and then applies it (`src-tauri/src/cmd/profile.rs:204-213`). Updates of the
  profiles that are written between those two calls are lost, and no others: `DraftLineage.UpdateLostIff` and
  `ProfileRuns.RestoreGoesBackToStaging`, with `ProfileRuns.RestoreLosesAppend` as an instance.
- A longer range of the sampler can show a point twice, in its group's average and as it came, or not at all
  (`src/utils/traffic-sampler.ts:133-155`). `SamplerRanges.ShownOnceIff` gives the exact condition,
  `SamplerRanges.ShownTwice` and `SamplerRanges.ShownNever` instances.
- A snapshot that lists an id twice can push the closed history past 500
  (`src/hooks/use-connection-data.ts:177-198`). `ConnectionLaws.BoundKeptIff` gives the exact condition,
  `ConnectionLaws.RepeatedIdOverflows` an instance.
- The recursive merge is associative exactly under `Merge.Groups`, which is slightly wider than "the middle overlay
  never replaces a mapping" (`src-tauri/src/enhance/merge.rs:4-17`).

## Model

| member | source | states |
|---|---|---|
| DraftStore.Draft.constructor | crates/clash-verge-draft/src/lib.rs:39-48 | A new layer has one committed cell with one reference, no draft, the update flag and the claim clear |
| DraftStore.Draft.DataArc | crates/clash-verge-draft/src/lib.rs:51-54 | Hands out the committed cell and adds one reference; no content changes |
| DraftStore.Draft.LatestArc | crates/clash-verge-draft/src/lib.rs:58-61 | Hands out the draft cell if there is a draft, the committed one otherwise, and adds one reference |
| DraftStore.Draft.EditDraft | crates/clash-verge-draft/src/lib.rs:65-75 | The draft becomes the edit of the latest value and the committed value stays; the edit is in place exactly when the draft cell has no other reference, otherwise it goes to a fresh cell |
| DraftStore.Draft.Apply | crates/clash-verge-draft/src/lib.rs:79-84 | The latest value becomes the committed one, the draft is gone and the old committed reference is released |
| DraftStore.Draft.Discard | crates/clash-verge-draft/src/lib.rs:88-91 | The draft is gone and released; the committed value stays |
| DraftStore.Draft.BeginModify | crates/clash-verge-draft/src/lib.rs:102-106 | Reads the committed value and keeps a reference to the cell it came from |
| DraftStore.Draft.FinishModify | crates/clash-verge-draft/src/lib.rs:108-115 | Writes the new value into a fresh committed cell exactly when the committed cell is still the one read; otherwise changes nothing and fails |
| DraftStore.Draft.TryAcquirePermit | crates/clash-verge-draft/src/lib.rs:119-125 | Succeeds exactly when the flag was clear, and leaves it set |
| DraftStore.Draft.TryClaim | crates/clash-verge-draft/src/lib.rs:161-166 | Succeeds exactly when the layer was unclaimed, and leaves it claimed |
| DraftStore.Draft.ReleaseClaim | crates/clash-verge-draft/src/lib.rs:169-171 | Leaves the layer unclaimed |
| DraftProtocol.NextKeepsInv | crates/clash-verge-draft/src/lib.rs:51-143 | Every atomic step of every interleaving keeps: reference counts equal to actual holders, held snapshots live and unchanged, one owner of the update flag, a duplicate-free waiting queue, no stranded waiter, and an exact pointer comparison |
| DraftProtocol.SectionKeepsStore | crates/clash-verge-draft/src/lib.rs:65-115 | Edit, apply, discard and the final write of an update keep the counts and leave every held snapshot's content as it was, although freed addresses may be reused |
| DraftProtocol.HeldIsLive | crates/clash-verge-draft/src/lib.rs:65-115 | A cell someone holds is live and shared as far as the store is concerned, so an in-place edit cannot reach it and its address cannot be reused: the pointer comparison has no ABA problem |
| DraftProtocol.FlagStepKeepsInv | crates/clash-verge-draft/src/lib.rs:119-143 | The compare-exchange on the flag, first or repeated, keeps the invariant |
| DraftProtocol.PollKeepsInv | crates/clash-verge-draft/src/lib.rs:136-142 | Consuming a stored permit or joining the waiting queue keeps the invariant |
| DraftProtocol.UnlockKeepsInv | crates/clash-verge-draft/src/lib.rs:24-26 | Clearing the flag keeps the invariant: the releaser still has to notify, so no waiter is stranded |
| DraftProtocol.NotifyKeepsInv | crates/clash-verge-draft/src/lib.rs:27-27 | Waking the longest waiter, or storing the permit if there is none, keeps the invariant |
| DraftProtocol.UpdateStepKeepsInv | crates/clash-verge-draft/src/lib.rs:102-115 | Reading, finishing and dropping the snapshot keep the invariant |
| DraftRuns.RunKeepsInv | crates/clash-verge-draft/src/lib.rs:51-143 | Every state of every run satisfies the invariant, so every step taken is defined |
| DraftRuns.StepRefines | crates/clash-verge-draft/src/lib.rs:51-116 | Every step of the shared, reference-counted store is a step of a plain layer of two values: sharing, in-place edits and the pointer comparison are invisible |
| DraftRuns.UpdateOutcome | crates/clash-verge-draft/src/lib.rs:95-116 | In every interleaving an update ends as written exactly when its closure succeeded on the value it read and no draft was committed in between; then it writes the closure's result on the value committed at that very moment, and otherwise the layer is untouched |
| DraftRuns.FinishOutcome | crates/clash-verge-draft/src/lib.rs:107-115 | The last section reports a closure failure, a stale read or a write, decided exactly by the closure's result and by whether the committed cell was replaced since the read |
| DraftRuns.SnapshotNeverChanges | crates/clash-verge-draft/src/lib.rs:51-91 | A reference kept from one state of a run to a later one names the same live cell with the same content throughout |
| DraftRuns.ReaderSees | crates/clash-verge-draft/src/lib.rs:51-61 | In every interleaving a reader of the latest value gets the draft if there is one at that step and the committed value otherwise, a reader of the committed value gets that, and neither read changes a value |
| DraftRuns.EditsInPlaceIff | crates/clash-verge-draft/src/lib.rs:65-75 | The draft stays in its cell exactly when there is one that nobody else refers to; otherwise it moves to a fresh cell |
| DraftRuns.PermitIsExclusiveAndFair | crates/clash-verge-draft/src/lib.rs:22-29 | In every reachable state at most one update is past the flag; if the flag is free and somebody is parked, a notifier or a woken task has yet to act |
| DraftRuns.QuietMeansDone | crates/clash-verge-draft/src/lib.rs:118-143 | When no task can take a step every update has completed, nobody waits and the flag is clear |
| DraftRuns.StepMakesProgress | crates/clash-verge-draft/src/lib.rs:118-143 | Every task step strictly lowers a measure that only starting an update raises |
| DraftRuns.StepsAreBounded | crates/clash-verge-draft/src/lib.rs:118-143 | In every schedule, n updates take at most 14 n steps between them, retries and wake-ups included |
| DraftRuns.RunKeepsGood | crates/clash-verge-draft/src/lib.rs:51-116 | Any property kept by every edit and every closure holds of every value in a live cell of every reachable state |
| DraftLineage.ApplyCommitsEdits | crates/clash-verge-draft/src/lib.rs:65-84 | In every interleaving, what an apply commits is the edits made since the draft was staged, one after the other, over the value committed when it was staged |
| DraftLineage.CommittedIsTrail | crates/clash-verge-draft/src/lib.rs:65-116 | The committed value of every reachable state is the replay of exactly the edits and updates on its trail |
| DraftLineage.UpdateLostIff | crates/clash-verge-draft/src/lib.rs:65-116 | A written update is off the trail of a later state exactly if it fell between the staging of a draft and the commit of that draft |
| DraftLineage.EditLandsIff | crates/clash-verge-draft/src/lib.rs:65-91 | An edit is on the trail of a later state exactly if a draft staged no later than it was committed after it |
| DraftLineage.WrittenThenLost | crates/clash-verge-draft/src/lib.rs:65-116 | A run from a fresh layer, for any update that succeeds and any edit: the update's result is committed, and then the edit of the value from before it replaces it |
| DraftTransaction.Begin | crates/clash-verge-draft/src/lib.rs:219-235 | Succeeds exactly when the layers are distinct and all unclaimed, and then holds them all; otherwise names the first layer in the way and leaves every claim as it was |
| DraftTransaction.DraftTransaction.Commit | crates/clash-verge-draft/src/lib.rs:238-243 | Applies every layer's draft and gives back every claim |
| DraftTransaction.DraftTransaction.Drop | crates/clash-verge-draft/src/lib.rs:252-259 | Gives back every claim; discards every draft exactly when the transaction was not committed |
| TransactionProtocol.NextKeepsInv | crates/clash-verge-draft/src/lib.rs:159-260 | Under any interleaving of begins, commits, rollbacks and outside use, each step keeps: claims conserved (a claimed layer is held exactly once), and each transaction's effects exactly those its progress calls for |
| TransactionProtocol.ExclusiveClaims | crates/clash-verge-draft/src/lib.rs:159-171 | At any moment of any run a layer is claimed exactly if some transaction holds it, and never by two |
| TransactionProtocol.AllOrNothing | crates/clash-verge-draft/src/lib.rs:219-259 | A finished transaction has applied all its layers, once and in order, or discarded all of them, and holds no claim; a failed begin has done nothing and holds nothing; naming a layer twice never gets past begin |
| TransactionLaws.DoesAsTold | crates/clash-verge-draft/src/lib.rs:238-259 | In every run a transaction is on the way of applying its layers exactly if it was committed, and of discarding them exactly if it was rolled back |
| TransactionLaws.TransactionStepsAreBounded | crates/clash-verge-draft/src/lib.rs:219-259 | Whatever the others do, a transaction over n layers takes at most 4 n + 4 steps of its own |
| TransactionProtocol.BusyHasReason | crates/clash-verge-draft/src/lib.rs:219-235 | Under any interleaving a begin backs out only for a reason: when it came to the layer it reports, another transaction held that layer, or its own list names the layer earlier too |
| TransactionProtocol.EffectsAreReal | crates/clash-verge-draft/src/lib.rs:173-181 | The recorded effects are the real ones: a step changes only the layer it records, in the way it records, and only a layer it holds |
| TransactionLaws.OutsideActs | crates/clash-verge-draft/src/lib.rs:65-116 | What an edit, apply, discard or update from outside makes of its layer, held or not; other layers, claims and transactions stay as they are |
| TransactionProtocol.HeldLayerIsUnwritten | crates/clash-verge-draft/src/lib.rs:251-259 | A transaction that has not committed never writes the committed value of a layer it holds; nor does any other transaction |
| TransactionProtocol.RollbackRestores | crates/clash-verge-draft/src/lib.rs:245-259 | From claiming a layer to discarding its draft, the committed value stays what it was unless written from outside any transaction, and the discard leaves no draft |
| TransactionProtocol.CommitInstalls | crates/clash-verge-draft/src/lib.rs:219-243 | From any moment at which a transaction holds a layer, if nobody outside touches the layer until the transaction applies it, that apply commits the latest value the layer had at that moment and leaves no draft, whatever other transactions do |
| TransactionProtocol.ClaimsAreDistinct | crates/clash-verge-draft/src/lib.rs:219-235 | What a transaction holds is distinct and claimed, so a begin that names a layer twice always fails |
| Selection.UniqueSelected | src-tauri/src/config/profiles.rs:508-515 | The backward walk keeps exactly the last record of each named group, in order |
| Selection.ReconcileOne | src-tauri/src/config/profiles.rs:517-588 | One record is kept, activated, replaced or dropped as its verdict says, with the matching repair count |
| Selection.ReconcileSelectedNodes | src-tauri/src/config/profiles.rs:498-591 | The loops build the plan: verdicts over the last record of each group, plus one repair per record dropped as a duplicate or nameless |
| PlanLaws.PlanChoice | src-tauri/src/config/profiles.rs:498-591 | For every group, what the plan records: its last record's node unless the snapshots refute it, then the node the group stands on if that is one of its own, and otherwise nothing |
| PlanLaws.ActivatedIff | src-tauri/src/config/profiles.rs:544-566 | A group is sent to the core exactly if the node of its last record is one it has, it can be told to take it, and it is on another |
| PlanLaws.RepairsAreTheRest | src-tauri/src/config/profiles.rs:503-590 | The repair count is the number of records that are not the last of their group, name no node, or are refuted |
| SelectionLaws.NoRepairsMeansUnchanged | src-tauri/src/config/profiles.rs:503-590 | For every input the repair count is zero exactly when the plan's records equal the input list |
| SelectionLaws.PlanIsOnePerGroup | src-tauri/src/config/profiles.rs:508-588 | The plan keeps at most one record per group, only for groups that had one |
| SelectionLaws.ReconcileConverges | src-tauri/src/config/profiles.rs:498-591 | Reconciling a plan's own records, with its activations carried out and the same previous snapshot, gives the same records, no activations and no repairs |
| SelectionLaws.PreviousMattersIff | src-tauri/src/config/profiles.rs:483-496 | An earlier snapshot can change the plan exactly when some group's last record names a node and the group is missing, or is selectable and loaded without that node |
| SelectionLaws.ConfirmationIsSound | src-tauri/src/config/profiles.rs:483-496 | When no confirmation is needed the plan is the same for every previous snapshot, so skipping the second fetch loses nothing |
| PlanLaws.NeedsNoConfirmationIff | src-tauri/src/config/profiles.rs:483-496 | No second snapshot is asked for exactly if every record with a node finds it among its group's nodes |
| SelectionLaws.DroppedOnlyWhenConfirmed | src-tauri/src/config/profiles.rs:522-588 | A group's last record survives unchanged exactly unless it is refuted: both snapshots lack the group, or both have it loaded and selectable without the node, or it is not selectable and stands on another node (or on none and lacks this one) |
| SelectionLaws.UnsettledIff | src-tauri/src/config/profiles.rs:821-834 | A group is reported unsettled exactly when some record asks for a node the core has not brought it to |
| PlanLaws.UnsettledExactly | src-tauri/src/config/profiles.rs:821-834 | In the core's terms: exactly if a record asks for a node and the core lacks the group or has it on another |
| SelectionLaws.ActivationsAreUnsettled | src-tauri/src/config/profiles.rs:821-834 | Every group a plan activates is reported unsettled beforehand |
| SelectionLaws.OnlyUnloadedStayUnsettled | src-tauri/src/config/profiles.rs:821-834 | Once a plan's activations have succeeded, a kept record is unsettled only if the core cannot select its node |
| Activation.RemainingActivations | src-tauri/src/config/profiles.rs:627-636 | Exactly the activations not yet recorded as completed, in order |
| Activation.RemainingIff | src-tauri/src/config/profiles.rs:627-636 | An activation is still to be sent exactly unless its group is recorded with that very node |
| Activation.ApplyActivations | src-tauri/src/config/profiles.rs:638-668 | A pass runs to its end exactly when the generation stays current through its last look; then it counts and records every success; cut short, it has recorded those of a prefix |
| Activation.SuccessesAreCounted | src-tauri/src/config/profiles.rs:638-668 | The successes reported and the failures add up to what was sent |
| Activation.RetryOnlyFailures | src-tauri/src/config/profiles.rs:627-668 | After a pass, what remains to be sent is exactly what failed, in order |
| Activation.PlanActivatesEachGroupOnce | src-tauri/src/config/profiles.rs:498-591 | A plan never activates a group twice, which is what the retry law needs |
| Activation.PlanRetriesOnlyFailures | src-tauri/src/config/profiles.rs:498-668 | The retry law holds for the activations of every plan |
| ProfileList.IProfiles.PatchConfig | src-tauri/src/config/profiles.rs:149-162 | Makes an existing profile current; an unknown or missing uid leaves the choice alone; the list becomes empty if it was missing |
| ProfileList.IProfiles.AppendItem | src-tauri/src/config/profiles.rs:180-215 | Fails without effect for a missing uid, a missing file name or a failed write; otherwise appends the entry without its file data and makes it current if none was and it can be |
| ProfileList.IProfiles.Reorder | src-tauri/src/config/profiles.rs:217-231 | Moves the last entry with one uid to the index of the last entry with the other and then saves, which may fail; does nothing and saves nothing if either is unknown |
| ProfileList.IProfiles.PlanDeleteItem | src-tauri/src/config/profiles.rs:335-373 | Removes the entry and then the first entry for each uid its options name, plans exactly the files met, and picks the first remote or local profile if the current one went; an unknown uid changes nothing |
| ProfileList.IProfiles.PatchItem | src-tauri/src/config/profiles.rs:233-275 | Replaces exactly the fields the patch carries in the first entry with the uid; a file name that is a path changes nothing and is an error, and so are an unknown uid and a failed save |
| ProfileList.IProfiles.UpdateItem | src-tauri/src/config/profiles.rs:278-313 | Merges the options of the first entry with the uid and puts new file data under its file, a given name or the uid; an unknown uid changes nothing but a missing list, and a failed write is reported with the private copy as it then is |
| ProfileLaws.TakeAllKeeps | src-tauri/src/config/profiles.rs:93-96 | With distinct uids, taking targets one by one keeps exactly the entries no target names, in order |
| ProfileLaws.TakeAllSplits | src-tauri/src/config/profiles.rs:93-96 | Whatever the uids, the entries kept and taken together are the entries there were, and every one taken was a target |
| ProfileLaws.FilesAreOf | src-tauri/src/config/profiles.rs:335-373 | The planned files are exactly the files of the entries taken |
| ProfileLaws.DeleteSplits | src-tauri/src/config/profiles.rs:335-373 | A delete succeeds exactly for an existing uid; it splits the list into the named entries, which go, and the others, which stay in order; the planned files are exactly those of the entries that went |
| ProfileLaws.ReorderMoves | src-tauri/src/config/profiles.rs:217-231 | Reordering is a permutation: the moved entry ends at the target's index and the others keep their relative order |
| ProfileLaws.StepKeepsValid | src-tauri/src/config/profiles.rs:149-373 | An operation keeps uids distinct and the current profile existing exactly when it is safe: a new uid is new, and a deleted profile other than the current one does not own the current one |
| ProfileLaws.RunKeepsValid | src-tauri/src/config/profiles.rs:149-373 | Over any run of safe operations uids stay distinct and current, if set, names an existing entry |
| ProfileLaws.DanglingCurrent | src-tauri/src/config/profiles.rs:335-373 | A concrete delete that is not safe: it removes the current profile through another profile's options and leaves current naming nothing |
| ProfileLaws.AppendedIs | src-tauri/src/config/profiles.rs:180-215 | What an append needs, the entry it adds behind the unchanged list, and that it becomes current exactly if none was and it is remote or local |
| ProfileLaws.CurrentAfterDelete | src-tauri/src/config/profiles.rs:335-373 | After a deletion the current profile is the one it was, unless that was deleted or none was set; then it is the first remote or local profile left, if any |
| ProfileLaws.TargetsIff | src-tauri/src/config/profiles.rs:335-373 | A deletion aims at the profile itself and at each of the five entries its options name |
| ProfileLaws.PatchedFields | src-tauri/src/config/profiles.rs:233-259 | Field by field, a patch replaces what it carries and leaves the rest, the uid included |
| ProfileLaws.RefreshedFields | src-tauri/src/config/prfitem.rs:118-141 | A refresh merges options field by field with the new ones winning |
| ProfileLaws.RewrittenIs | src-tauri/src/config/profiles.rs:233-313 | Patching and refreshing reach the first entry with the uid and no other |
| ProfileLaws.FailuresAre | src-tauri/src/config/profiles.rs:233-313 | Exactly when patching and refreshing fail, and in which order the reasons are looked at |
| ProfileLaws.MovesIff | src-tauri/src/config/profiles.rs:217-231 | A reordering moves something, and is saved, exactly if both profiles are in the list |
| ProfileStore.RecordSelectedNode | src-tauri/src/config/profiles.rs:695-732 | Rewrites the first record of the group in the current profile, or appends one; reports no change when there is no current profile or the node is already recorded; a failed save is an error that leaves the private copy rewritten |
| ProfileStore.RemoveSelectedNode | src-tauri/src/config/profiles.rs:741-745 | Removes exactly the records of the group and says whether there were any |
| ProfileStore.ForgetSelectedNode | src-tauri/src/config/profiles.rs:747-771 | Removes the group's records from the current profile, leaving none instead of an empty list; reports no change when there were none; a failed save is an error that leaves the private copy rewritten |
| ProfileStore.PersistReconciledSelected | src-tauri/src/config/profiles.rs:780-812 | Writes the repaired list and answers true exactly when the repair's generation is current at both looks, its profile is the current one, the saved list is the one the plan came from and the save succeeds; a missing entry or a failed save is an error, and anything else changes nothing |
| ProfileStore.PersistedIff | src-tauri/src/config/profiles.rs:780-812 | Exactly when a repair writes, fails or stands down; what it writes is the repaired list and nothing else, stored as no list if it is empty |
| ProfileStore.RecordedIff | src-tauri/src/config/profiles.rs:695-732 | Exactly when recording writes or fails; what it writes differs only in the first record of the group, or in one added at the end |
| ProfileStore.ForgottenIff | src-tauri/src/config/profiles.rs:747-771 | Exactly when forgetting writes or fails; the records left are those of other groups, and no empty list is stored |
| ProfileStore.CommitCurrentProfile | src-tauri/src/cmd/profile.rs:222-237 | Drops the staged draft, and with a target makes it current in the committed value if it exists there |
| ProfileStore.RecordTakesEffectIff | src-tauri/src/config/profiles.rs:695-732 | The recorded node is the one a restore honours exactly when the group has at most one record or its last one already names the node, since recording rewrites the first record and restoring reads the last |
| ProfileStore.RecordCanBeShadowed | src-tauri/src/config/profiles.rs:695-732 | A concrete list with two records of a group, where a recorded node is ignored by a restore |
| ProfileStore.ForgetUndoesRecord | src-tauri/src/config/profiles.rs:695-771 | Forgetting a group after recording it gives what forgetting alone gives: every other group's records, in order |
| ProfileRuns.RepairNeverUndoesNewerChoice | src-tauri/src/config/profiles.rs:780-812 | In every interleaving a repair changes the committed profiles only while its profile is current and the committed list equals the one its plan came from; then it writes the plan's list and nothing else |
| ProfileRuns.RepairWritesItsPlan | src-tauri/src/config/profiles.rs:780-812 | In every interleaving, a repair step that writes commits the plan's list, and nothing else, exactly if the repair still applies; if not it leaves the profiles as they are |
| ProfileRuns.RepairSucceedsIff | src-tauri/src/config/profiles.rs:780-812 | The repair's update fails exactly if its profile is current and missing, or it applies and the save fails |
| ProfileRuns.RepairKeepsLiveChoices | src-tauri/src/config/profiles.rs:498-818 | In every interleaving a repair step leaves the choice saved for a group as it is unless the snapshots refute it |
| ProfileRuns.ListUpdatesAre | src-tauri/src/config/profiles.rs:422-475 | Exactly when the updates that append, move, delete, patch, refresh and save write, and that they write what the list operation makes |
| ProfileRuns.PatchedSaved | src-tauri/src/config/profiles.rs:233-259 | A patch changes what is saved for the current profile exactly by what it carries, and only when it patches that profile |
| ProfileRuns.RefreshedSaved | src-tauri/src/config/profiles.rs:278-313 | Refreshing a profile leaves the current profile and its saved selections as they are, even when uids repeat |
| ProfileRuns.PatchSetsChoice | src-tauri/src/config/profiles.rs:233-259 | The exception is real: a patch of the current profile that carries selections leaves exactly the choices it carries, whatever was recorded |
| ProfileRuns.UpdateKeepsChoice | src-tauri/src/config/profiles.rs:422-818 | Each of the eleven kinds of update the program makes to the profiles layer keeps what a restore finds for a group if it records or forgets another group, repairs without refuting the node, appends a profile, moves one in a list with distinct uids, deletes one in such a list that does not take the current one along, switches to no other profile, patches another profile or no other choice for the group, refreshes a profile, saves, or raises update intervals |
| ProfileRuns.ChoiceLasts | src-tauri/src/config/profiles.rs:422-818 | Over any run whose writes are the program's updates of this layer, what a restore finds for a group stays what it is as long as no step records or forgets that group, repairs the node away on evidence, patches another choice for the group into the current profile, switches or removes the profile, or commits a draft, and none moves or deletes profiles in a list that repeats a uid |
| ProfileRuns.RecordedChoiceLasts | src-tauri/src/config/profiles.rs:695-732 | A recorded node that takes effect is the group's choice in every later state of the run, under the same proviso, patches included |
| ProfileRuns.ForgottenStaysForgotten | src-tauri/src/config/profiles.rs:747-771 | A forgotten group has no choice in any later state of the run, under the same proviso: no repair brings it back, only a newer record or a patch that carries one |
| ProfileRuns.SwitchLosesNothing | src-tauri/src/cmd/profile.rs:222-237 | In every interleaving each step of a switch's update leaves the entries equal to the latest committed ones, and its write makes the target current if it still exists |
| ProfileRuns.SwitchEndsAsWritten | src-tauri/src/cmd/profile.rs:222-237 | From the discard that opens the end of a switch to its finishing update, if nobody stages a draft in between: the update ends as written, the entries are the latest committed ones, the target is current if it exists and no draft is left |
| ProfileRuns.RestoreGoesBackToStaging | src-tauri/src/cmd/profile.rs:204-213 | Taking a switch back puts back the entries of the moment its edit was staged, with the earlier profile current if it is among them, in every interleaving |
| ProfileRuns.RestoreLosesAppend | src-tauri/src/cmd/profile.rs:204-213 | A run, for any profiles and any new profile: an update appends it between the two calls that take a switch back; it is committed after the update's write and gone after the apply |
| ProxyChain.IRuntime.UpdateProxyChainConfig | src-tauri/src/config/runtime.rs:55-85 | Removes every link, then links each chain entry found among the proxies to the entry before it; without a list of proxies nothing changes |
| ProxyChain.GetProxyChain | src-tauri/src/cmd/runtime.rs:41-87 | Watched for any number of links: it is still walking, or it follows links from the exit node while there are any, adds the entry node if at least one link was followed, and returns the proxies in chain order |
| ChainLaws.RechainedOnlyLinks | src-tauri/src/config/runtime.rs:55-85 | For any chain, of whatever entries, no proxy loses or changes any key but its link |
| ChainLaws.NoChainClears | src-tauri/src/config/runtime.rs:53-70 | When no chain or no list is given no proxy keeps a link, and from every exit the walk ends at once with nothing |
| ChainLaws.UpdateKeepsRest | src-tauri/src/config/runtime.rs:55-85 | In the whole configuration every key other than `proxies` keeps its value and every proxy every key but its link; without a chain no link is left |
| ChainLaws.ClearedReadsEmpty | src-tauri/src/cmd/runtime.rs:41-87 | After clearing, the reader answers an empty chain from every exit |
| ChainLaws.ChainedOnlyLinks | src-tauri/src/config/runtime.rs:55-85 | Writing a chain changes nothing but links, and leaves links only on proxies named by its second and later entries |
| ChainLaws.ChainedTo | src-tauri/src/config/runtime.rs:55-85 | The proxy of each later entry that is the last of its name links to exactly the entry before it |
| ChainLaws.WalkDown | src-tauri/src/cmd/runtime.rs:51-74 | From any chain entry the walk passes that entry and those before it, and ends at the first |
| ChainLaws.RoundTrip | src-tauri/src/cmd/runtime.rs:51-74 | After writing a chain of at least two distinct names, all present, the walk from the last name ends and returns proxies named exactly as the chain, in order |
| ChainLaws.RoundTripIff | src-tauri/src/cmd/runtime.rs:51-74 | For every non-empty chain of string names, the walk ends and returns the chain exactly when it has at least two names, repeats none and every one names a proxy |
| ChainLaws.WalkHasNoRepeats | src-tauri/src/cmd/runtime.rs:51-74 | A walk that ends passes no name twice |
| ChainLaws.SingleChainReadsEmpty | src-tauri/src/cmd/runtime.rs:51-74 | A chain of one name writes no link and reads back as nothing |
| ChainLaws.ReaderStopsIff | src-tauri/src/cmd/runtime.rs:51-74 | For every non-empty chain of string names, after writing it the walk from its last name ends exactly when no name repeats behind the last name that no proxy has |
| ChainLaws.PresentChainStopsIff | src-tauri/src/cmd/runtime.rs:51-74 | With every one of the string names present: exactly when the chain repeats no name |
| ChainLaws.CycleNeverEnds | src-tauri/src/cmd/runtime.rs:51-74 | An instance: after writing the chain a, b, a of two proxies the walk never ends |
| ChainLaws.AbsentNameBreaksCycle | src-tauri/src/cmd/runtime.rs:51-74 | An instance: with no proxy of the middle name, the walk after writing a, gone, a ends |
| ChainLaws.LastLeadsBack | src-tauri/src/cmd/runtime.rs:51-64 | From the last entry of a name that some proxy has, the reader goes to the entry before it |
| Merge.UseLowercase | src-tauri/src/enhance/field.rs:27-36 | Keys that are strings are lower-cased, later entries winning; other keys are dropped |
| Merge.LowercasedValue | src-tauri/src/enhance/field.rs:27-36 | Under each lower-cased key stands the value of the last entry whose key lower-cases to it |
| Merge.LowerIsLower | src-tauri/src/enhance/field.rs:21-25 | Lower-casing moves the capital letters A to Z by 32 and touches no other character |
| Merge.DeepMerge | src-tauri/src/enhance/merge.rs:4-17 | Mappings merge key by key at every depth; anything else is replaced; the order of keys does not matter |
| Merge.UseMerge | src-tauri/src/enhance/merge.rs:19-32 | Lays the lower-cased overlay over the configuration: `dns` mappings one level deep, `hosts` as a whole, every other key recursively |
| Merge.UseMergeTakes | src-tauri/src/enhance/merge.rs:19-32 | What the merge takes over is the entry's own value: all of it where it replaces, and at every path where the overlay takes over, what the entry has there |
| Merge.MergedIdempotent | src-tauri/src/enhance/merge.rs:4-17 | Merging the same overlay again changes nothing, at any depth |
| Merge.UseMergeIdempotent | src-tauri/src/enhance/merge.rs:19-32 | So does the merge with its special keys |
| Merge.CoveredIff | src-tauri/src/enhance/merge.rs:4-17 | Exactly when an overlay hides a base completely |
| Merge.AssociativeIff | src-tauri/src/enhance/merge.rs:4-17 | Overlays may be merged with each other first exactly when nowhere a middle value that is no mapping stands between two mappings, unless the upper hides the lower completely |
| Merge.Associative | src-tauri/src/enhance/merge.rs:4-17 | In particular when the middle overlay nowhere replaces a mapping by something else |
| Merge.MergedByPath | src-tauri/src/enhance/merge.rs:4-17 | On every path: where the overlay says nothing the base shows through, and where it decides, its value is taken |
| Merge.PathIsSettled | src-tauri/src/enhance/merge.rs:4-17 | Between those two cases there is nothing but mappings merged with mappings |
| Merge.LowercasedIff | src-tauri/src/enhance/field.rs:21-36 | A key is in the lower-cased overlay exactly when some string key of the overlay lower-cases to it |
| Merge.UseMergeKeepsOthers | src-tauri/src/enhance/merge.rs:19-32 | No key is ever removed, and a key no overlay key lower-cases to keeps its value |
| Merge.UseMergedByPath | src-tauri/src/enhance/merge.rs:19-32 | On every path of the merge with its shallow `dns` and replacing `hosts`: what the overlay leaves alone shows through unchanged, and where it takes over its lower-cased value is taken as it is |
| Merge.UseMergedIsSettled | src-tauri/src/enhance/merge.rs:19-32 | Between those two cases there is nothing but mappings merged with mappings |
| Listener.MappingPort | src-tauri/src/core/listener.rs:315-329 | Nothing exactly for a missing key; a port exactly for a number between 1 and 65535 or its decimal text, perhaps with leading zeros and a plus sign; an error naming the key otherwise |
| Listener.PortIsReadBack | src-tauri/src/core/listener.rs:315-329 | A number written as an integer, as decimal digits or with a plus sign is read back exactly if it is between 1 and 65535, and rejected otherwise |
| Listener.BindAddresses | src-tauri/src/core/listener.rs:249-281 | Localhost alone unless LAN access is allowed; then all addresses, of version 6 too unless that is off, for a blank or starred text; localhost for that name in any case; otherwise the one address the text parses to, without brackets, or an error |
| Listener.CollectProxyClaims | src-tauri/src/core/listener.rs:229-247 | One claim per configured listener, address and transport, in table order; a bad address is the error, then the first bad port |
| ListenerLaws.ClaimedIff | src-tauri/src/core/listener.rs:229-247 | For every valid configuration, a claim is made exactly for one of its addresses by a listener of the table whose key has that port, over TCP, and over UDP for the mixed, socks and tproxy listeners only |
| ListenerLaws.ConfiguredListenersIs | src-tauri/src/core/listener.rs:229-247 | The listeners are exactly those with a port; if any port is bad the first bad one in table order is the error |
| ListenerLaws.BindTextIs | src-tauri/src/core/listener.rs:249-281 | The bind address is the configured text without the space around it, all of it and nothing else |
| ListenerLaws.BindAddressesAre | src-tauri/src/core/listener.rs:249-281 | With LAN access, the addresses the text stands for: blank or a star, localhost in any mixture of capitals, a text in brackets, and any other text |
| Listener.InternalConflict | src-tauri/src/core/listener.rs:331-338 | The first claim that overlaps an earlier one |
| Listener.RetainNew | src-tauri/src/core/listener.rs:224-225 | The claims that overlap none of the running core's, in order |
| Listener.ProbeProxyPortChange | src-tauri/src/core/listener.rs:194-227 | Errors of the current configuration first (only while a core runs), then errors of the candidate, then its internal conflict, then the claims left to probe |
| ListenerLaws.DecisionIs | src-tauri/src/core/listener.rs:194-227 | Which answer is given, exactly: the running core's error, only while it runs, before the candidate's, before a conflict |
| ListenerLaws.ProbedIff | src-tauri/src/core/listener.rs:194-227 | Probed are exactly the candidate's claims that overlap none of the running core's; all of them, in order, when nothing runs |
| ListenerLaws.OverlapIff | src-tauri/src/core/listener.rs:331-345 | Claims overlap exactly if some address would be taken by both on one port with one transport |
| Listener.ConflictIsFirstRepeat | src-tauri/src/core/listener.rs:331-345 | Claims conflict exactly when a port repeats, and the conflict is the first repeated port, over TCP |
| Listener.ConfigurationConflicts | src-tauri/src/core/listener.rs:229-345 | For every valid configuration a conflict is reported exactly when two configured listeners share a port, naming the first that repeats an earlier one in table order, over TCP |
| Listener.FirstRepeatIff | src-tauri/src/core/listener.rs:331-338 | There is a repeated port exactly when two listeners share one |
| Listener.ClaimsOfIff | src-tauri/src/core/listener.rs:229-247 | A claim is made exactly by a configured listener, for one of its transports, on one of the addresses |
| Listener.NewClaimsIff | src-tauri/src/core/listener.rs:224-225 | The retained claims are exactly those overlapping no current one |
| Listener.OnlyNewPortsAreProbed | src-tauri/src/core/listener.rs:194-227 | With unchanged addresses a claim is probed exactly if no running listener has its port with its transport |
| Listener.SameConfigurationProbesNothing | src-tauri/src/core/listener.rs:194-227 | Restarting a running core on its own valid, conflict-free configuration probes nothing |
| Sampler.TrafficDataSampler.AddDataPoint | src/utils/traffic-sampler.ts:59-95 | The new state of all five fields: both buffers pushed, trimmed past their cutoffs and compacted by their own rule, and the queue flushed into one average when it is full |
| Sampler.TrafficDataSampler.CompressData | src/utils/traffic-sampler.ts:97-115 | A non-empty queue becomes one averaged point and is emptied |
| Sampler.TrafficDataSampler.GetDataForTimeRange | src/utils/traffic-sampler.ts:117-156 | A short range is the raw points after the cutoff; a longer one is the stable time order of the averages up to the raw window and those raw points; nothing is modified |
| Sampler.TrafficDataSampler.GetStats | src/utils/traffic-sampler.ts:158-168 | The sizes of the live parts and of the queue |
| Sampler.TrafficDataSampler.Clear | src/utils/traffic-sampler.ts:170-176 | Back to the empty state |
| SamplerLaws.SpaceIsBounded | src/utils/traffic-sampler.ts:59-95 | After every call of every run each buffer is at most twice its live points, or its live points and 512 (raw) or 256 (compressed) |
| SamplerLaws.WorkIsLinear | src/utils/traffic-sampler.ts:59-95 | Over any run with n additions, head advances and elements copied by compaction come to at most 2 n on either buffer |
| SamplerLaws.RawIsFilter | src/utils/traffic-sampler.ts:59-73 | With clock and timestamps in order, the live raw points are exactly those added since the last clear after the last cutoff, whatever trimming and compaction happened |
| SamplerLaws.CompressedIsFilter | src/utils/traffic-sampler.ts:75-115 | Likewise the live compressed points are exactly the averages of the consecutive full groups of the history after their last cutoff |
| SamplerLaws.QueueIsPending | src/utils/traffic-sampler.ts:75-78 | The queue is exactly the end of the history past its last full group |
| SamplerLaws.CompressionConserves | src/utils/traffic-sampler.ts:97-115 | Over any run, averages weighted by their samples plus the queue add up to the traffic and to the times of the whole history, and the samples plus the queue to its length |
| SamplerLaws.AveragesAreSorted | src/utils/traffic-sampler.ts:97-115 | Averages of a time-ordered history are in time order, as trimming from the front needs |
| SamplerLaws.RecentRangeIsHistory | src/utils/traffic-sampler.ts:117-131 | With clock and timestamps in order, a range no longer than the raw window is exactly the points added since the last clear after its cutoff, in order |
| SamplerLaws.LongRangeIsHistory | src/utils/traffic-sampler.ts:133-155 | A longer range is the group averages and raw points of the history between exact cutoffs, in stable time order |
| SamplerRanges.LongRangeIsSlices | src/utils/traffic-sampler.ts:133-155 | A longer range is the averages of a run of consecutive groups and the points from some index of the history on, in stable time order |
| SamplerRanges.AverageIsOfGroup | src/utils/traffic-sampler.ts:97-115 | Each average is that of its own n consecutive points of the history |
| SamplerRanges.ShownOnceIff | src/utils/traffic-sampler.ts:117-155 | From its first group on, a longer range shows every point exactly once, in an average or as it came, exactly if the points begin where the groups end, or no group is shown and the points begin no later |
| SamplerRanges.ShownTwice | src/utils/traffic-sampler.ts:133-155 | An instance: a group old enough to be shown by its average while its points are still kept |
| SamplerRanges.ShownNever | src/utils/traffic-sampler.ts:133-155 | An instance: a point already trimmed whose group's average is not old enough to be shown |
| SamplerLaws.SortIsStable | src/utils/traffic-sampler.ts:153-155 | Sorting gives time order and keeps, for each time, the same points in the same order |
| SamplerLaws.StableSortIsUnique | src/utils/traffic-sampler.ts:153-155 | Those two properties determine the result, so any stable sort gives the same list |
| Ring.TrimBoundsSpace | src/utils/traffic-sampler.ts:62-73 | One trim leaves a buffer within its space bound |
| Ring.TrimCost | src/utils/traffic-sampler.ts:62-73 | Copying in one trim is paid for by head advances since the last copy, and each advance drops one live point |
| Ring.PushTrimIsFilter | src/utils/traffic-sampler.ts:59-73 | Pushing and trimming a time-ordered buffer is filtering the whole history by the cutoff |
| Ring.SkipIsFilter | src/utils/traffic-sampler.ts:120-127 | Skipping from the head equals filtering when the live points are in time order |
| Connections.SameChains | src/hooks/use-connection-data.ts:90-96 | The loop answers exactly whether the two lists are equal |
| Connections.SharingIsInvisible | src/hooks/use-connection-data.ts:56-144 | The object-reusing normalisation equals a fresh one in value, and keeps the previous object exactly when nothing in it changed |
| Connections.MatchActive | src/hooks/use-connection-data.ts:160-166 | Each connection is normalised against its entry in the previous snapshot, only the first of a repeated id; the map keeps what was not met again |
| Connections.CloseRemoved | src/hooks/use-connection-data.ts:177-198 | Room is made in the history by the number of distinct removed ids, and the removed connections are appended in order, skipping the excess |
| Connections.MergeConnectionSnapshot | src/hooks/use-connection-data.ts:146-206 | The whole merge: totals, normalised connections in payload order, and the closed history extended by what is gone |
| Connections.ConnectionStore.FlushPendingMessage | src/hooks/use-connection-data.ts:214-232 | A message that parsed is merged into the module's data while someone listens; otherwise nothing changes |
| Connections.ConnectionStore.ClearClosedConnectionData | src/hooks/use-connection-data.ts:406-413 | Empties the closed history and nothing else |
| ConnectionLaws.HistoryIsLatestDepartures | src/hooks/use-connection-data.ts:146-206 | Over any run of snapshots with distinct ids and clears, the closed history is exactly the latest 500 departures since the last clear, in departure order |
| ConnectionLaws.ClosedIsLatest | src/hooks/use-connection-data.ts:177-198 | Dropping and skipping by counts is taking the latest 500 of the history and the departures |
| ConnectionLaws.BoundKeptIff | src/hooks/use-connection-data.ts:177-198 | For every payload the history stays within 500 exactly when there is room for all departures or no id departs twice |
| ConnectionLaws.RepeatedIdOverflows | src/hooks/use-connection-data.ts:146-206 | For any connection a run from the initial state in which a snapshot lists its id twice, after which the history holds 501 entries |
| ConnectionLaws.MergeGivesGrowth | src/hooks/use-connection-data.ts:103-112 | A connection's current traffic is the growth of its counters since the snapshot before, and zero when it is new |
| ConnectionLaws.TrafficAddsUp | src/hooks/use-connection-data.ts:103-206 | While a connection stays, its current uploads and downloads sum to its last counters minus its first |
| TrafficLaws.MergeShowsPayload | src/hooks/use-connection-data.ts:109-206 | Every entry shows its own line of the payload: id, both counters, start, chains, rule, its payload and each field of the metadata; the totals are the payload's |
| TrafficLaws.MergeGivesGrowthSinceLast | src/hooks/use-connection-data.ts:103-206 | For every payload, ids repeated or not: the first line of an id shows the growth since the last entry with that id in the snapshot before, every other line counts as new |
| TrafficLaws.EntryIsReported | src/hooks/use-connection-data.ts:146-206 | In every state of a run a connection is shown exactly if the latest snapshot reported it, and as it reported it |
| TrafficLaws.ReportedTrafficAddsUp | src/hooks/use-connection-data.ts:103-206 | While a connection is reported, the uploads and downloads shown for it add up to the last counters reported minus the first |
| TrafficLaws.DepartedAppend | src/hooks/use-connection-data.ts:177-198 | Departures keep the order of the list |
| Occurrence.SameSource | src/types/proxy-view.ts:227-234 | Two sources match exactly when they are the same source |
| Occurrence.ToMemberOccurrenceBinding | src/types/proxy-view.ts:245-269 | A binding exists exactly for an interactable member, and it describes that member and counts the like members before it |
| Occurrence.RebindMemberOccurrence | src/types/proxy-view.ts:271-289 | The member found matches the binding and has exactly as many like members before it; none is found only if there are not that many |
| Occurrence.RoundTripFromIndex | src/types/proxy-view.ts:245-289 | Rebinding the binding of any interactable index gives back that index and member |
| Occurrence.RoundTripFromBinding | src/types/proxy-view.ts:245-289 | Binding what a binding leads to gives back the same binding, exactly when the list has that occurrence |
| Occurrence.BoundExistsIff | src/types/proxy-view.ts:271-289 | Some index holds the occurrence exactly when there are that many matching members |
| Occurrence.BoundIsUnique | src/types/proxy-view.ts:271-289 | At most one index holds the occurrence |
| Occurrence.StableIff | src/types/proxy-view.ts:236-289 | When members are inserted, the binding still leads to the same member at its shifted index exactly when none of them matches or all stand behind it |
| Occurrence.StableUnderRemovalIff | src/types/proxy-view.ts:236-289 | When other members are removed, likewise: exactly when none of them matches or all stand behind it |

## Left out

- Files, YAML parsing and emission, network, sockets, the core client, tray, windows, hotkeys and notices: steps that need them succeed or fail by a parameter.
- Probing real sockets, the Windows TCP tables, and parsing of explicit listener addresses and of textual IP addresses.
- Task cancellation and panics inside closures, 64-bit wrap-around of counters, numbers beyond what a double represents exactly, and floating-point rounding: counters are integers, times and averages are reals.
- The memory orderings of the atomics: each atomic operation is one step in one total order.
- Key order inside YAML mappings and tagged YAML values; `use_sort` and `use_lowercase_owned` are not part of this model.
- ProxyChain.GetProxyChain: its loop is a method of its own (`FollowLinks`), watched for a given number of links, and a walk that never ends is one still going after any number of them; the YAML text of the answer is not part of this model.
- DraftTransaction.Begin: all layers of one transaction hold the same type here, while the source mixes types behind one interface; the busy layer is named by its index instead of its type name.
- TransactionProtocol: layers are plain pairs of values there, and an outside update is one step; that the shared store behaves so is `DraftRuns.StepRefines`.
- ProfileStore.RecordSelectedNode: that a recorded or forgotten selection makes a running repair stand down shows only as the repair's generation no longer being current; refreshing the user interface is not part of this model.
- ProfileStore.CommitCurrentProfile: run without interference; with interference it is `ProfileRuns.SwitchEndsAsWritten` and `ProfileRuns.SwitchLosesNothing`.
- Profile fields that no modelled operation reads (name, description, url, extra, update times and intervals, home page): patching, refreshing and raising intervals show no change of them.
- ProfileList.IProfiles.PatchItem: a file name is what platforms other than Windows take as one; drive prefixes are not part of this model.
- ChainLaws.ReaderStopsIff: stated for chains of strings; the writer also takes entries of other kinds, to which the reader gives one common key.
- The settling loop with its timers and the worker that schedules repairs: their decisions are `SelectionLaws` and `Activation`, their timing is not part of this model.
- Activation.ApplyActivations: the generation counter enters as the number of looks that still find the pass current; requests and their timeouts are answers that succeed or fail.
- Sampler.TrafficDataSampler.AddDataPoint: its two trimming loops are methods of their own (`TrimRaw`, `TrimCompressed`; in the same way the loops of the connection merge are `IndexById`, `MatchActive`, `CloseRemoved` and `SkipRemoved`), and buffers are sequences, so reuse of array storage is not visible.
- SamplerLaws.RecentRangeIsHistory: stated for a clock that never goes back and for points in time order; without either the early stop of the skipping loops is not a filter.
- Connections.MergeConnectionSnapshot: object identity is a flag saying that the previous object is kept, not a heap address; the previous data is always the monitor's own, so it is normalised by type.
- ConnectionLaws.HistoryIsLatestDepartures: stated for snapshots with distinct ids; without that, `ConnectionLaws.BoundKeptIff` and `ConnectionLaws.RepeatedIdOverflows` say what happens to the bound.
- Occurrence.ToMemberOccurrenceBinding: members are given already resolved; the lookups that resolve them and throw for dangling references are not part of this model.
- Connections.ConnectionStore.FlushPendingMessage: parsing of the message, the throttling timer, the time of the last flush and the notification of listeners are not part of this model.
- Connections.SharingIsInvisible: object identity is a flag here, as for the merge.
- Socket supervision, throttling, the connection summary, React components and hooks.
- The remaining small stateful pieces (shutdown latch, log ring, limiter, hotkey differences, failure table, DNS override state), which would only add easy members.
