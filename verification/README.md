# Verification of the A/B firmware update and boot core

This project models the update and boot core of the LM3S6965 firmware in Dafny and proves what it is for: after any
reset, power cut, flash fault or lost message the board still knows which image it may run, and nobody is told that an
update has succeeded unless it has. `dafny verify dfyconfig.toml` checks everything.

## The parts

Bottom up, one module a file:

- **Bytes, Crc, Format, Codec** - little-endian words, the check value, the metadata record and the manifest: what a
  valid record is, and that the byte layouts are canonical.
- **Flash** - the two metadata pages and both slots as an array that erases and programs change bit by bit. A call may
  be cut at any bit, fail after full effect, be dropped although reported as done, or return a wrong first bit; these
  last ones are switches of the device (`silentPrograms`, `silentErases`, `fabricatedReads`). A crash is a call that fails
  and is followed by nothing. A ghost counter of faults lets the contracts also say what happens when nothing fails.
- **Store** - the commit-last replacement on two pages. `Durable(mem)` is the snapshot that a load finds now and will
  still find after any cut of the next replacement.
- **Lifecycle, Reset, History** - the transitions of the record, the classification of a reset, and what whole runs of
  transitions keep.
- **Watchdog, Verify** - the evidence-gated watchdog, the stored-image verifier, and the bridge between them.
- **Launch, Select, Runtime, Trials** - one boot: count the reset, choose an image, make a first trial durable, publish;
  and what any number of boots can publish.
- **Controller** - the driver of the flash controller against a chip that progresses, stops and fails as it likes.
- **ErasePlan, Receive, Truth, TruthRuns** - the phased upload, and the invariant across components: every image that
  the durable record names is completely stored.
- **RamFile, FtpReplies, FtpCore, FtpBoot, FtpServer** - the double-buffered file, the reply ring and line parser, the FTP
  state machine, the operations behind its special names, and the two of them together. `FtpCore` runs with any operation
  whatever and keeps a log of what it asked and was answered; `FtpServer` makes the logged calls of `FtpBoot.Boot` and
  speaks of those runs in which that gives the answers on record.
- **Diag, Text, Confirm, Status, Service, Workflow** - the diagnostic publication, the texts exchanged with the PC, the
  confirmation service, and the PC client.

## Main results

1. **Crash atomicity** (`Store.Replace`, `Store.RunsAlwaysLoad`): whatever is cut, dropped or reported wrongly, a store
   that is durable stays so, and holds exactly the old or the desired record; no property of the check value is used.
   The page invariant behind it is exact (`Store.SettledExactly`): the page decodes, or setting the lowest bit of its
   first byte does not make it decode; for a load alone, a record that is older or the same may come back
   (`Store.LoadSurvivesExactly`). Without the invariant the claim is false (`Store.UnsettledLosesTheRecord`). With dishonest
   reads it is false exactly for a stale caller whose record is still on its page (`Store.FabricationLosesTheNewest`,
   `Store.PassableExactly`, `Store.TrustedExactly`).
2. **Metadata truth** (`TruthRuns.AlwaysTruthful`, `Receive.Receiver.ValidMeans`, `Receive.Receiver.Step`): after any
   number of uploads with their calls in any order, boots, confirmations and other commits, each named image is completely
   stored; an accepted upload is stored exactly as sent. A command that stops short and is followed by nothing leaves what
   a call that fails there leaves, so this holds at every point. From it follows that such a board always has something
   to boot (`TruthRuns.TruthBoots`).
3. **Boot decision** (`Select.SelectImage`, `Runtime.Runtime.Run`): the effectful selection refines a plain choice, and
   what is published is durable.
4. **Bounded trial** (`Trials.BoundedTrial`, `Trials.RejectedNeverStarts`).
5. **Histories** (`History.RunKeeps`, `History.AcceptedIdsIncrease`, `History.HistoriesGrow`, `History.IntentUsedOnce`).
6. **Watchdog and verifier agree** (`Verify.VerifyStored`, `Watchdog.Watchdog.Service`).
7. **Controller quarantine** (`Controller.Driver.Modify`), and that what the driver returns is what `Flash.Device` promises
   its users (`Controller.Driver.Program`, `Controller.Driver.Erase`).
8. **FTP**: the ring never overflows and 226 means what it says (`FtpCore.Core.ControlSpan`,
   `FtpCore.Core.DataCloseResult`): for firmware, that the bytes received are delivered under a durable READY, and for a
   confirmation that the request received is in force (`FtpServer.Complete`). The branch of the source that drops a
   session because the ring is full is therefore unreachable, and has no counterpart here; the room is part of
   `FtpCore.State.Coherent`, kept by every call. That a successful begin is matched by exactly one end is part of the
   type of the log (`FtpCore.Log`).
9. **Client verdict** (`Workflow.ConclusionIsSound`, `Workflow.ConfirmsItsAcceptance`, `Status.ReportArrives`,
   `Confirm.ConfirmRoundTrip`).
10. **Publication coherence** (`Diag.Publication.Publish`, `Diag.Publication.Snapshot`).
11. **Check value and codecs** (`Crc.LoopIsRfc`, `Crc.BurstDetected`, `Codec.MetadataCanonical`, `Codec.ManifestCanonical`).

Some functions and predicates are kept behind a descent (`...Behind`, with a depth that is counted down first), so that
the verifier does not follow their definitions where they are not needed; the lemma ending in `Open` gives each meaning.
For the same reason some predicates are the question whether a function returns `Yes`.

## Model

| member | source | states |
|---|---|---|
| `Crc.Compute` | src/boot_format.c:155-167 | The byte loop returns the check value of the whole message; with LoopIsRfc that is the one of the standard |
| `Crc.Absorb` | src/boot_format.c:160-164 | The eight conditional shifts after one byte are one step of the register |
| `Crc.LoopIsRfc` | src/boot_format.c:155-167 | For every message the bitwise computation equals the table-driven one of section 8 of RFC 1952 |
| `Crc.BurstDetected` | src/boot_format.c:155-167 | Two messages of equal length that differ, and only within four consecutive bytes, never have the same check value |
| `Format.UnpackOfPack` | src/boot_format.c:169-201 | The accounting word keeps every field: state, count, rollback, three reasons and reserved bits |
| `Format.PackOfUnpack` | src/boot_format.c:169-201 | Every 32-bit accounting word is the packing of its own fields, so that the field view loses no bit |
| `Format.EntryValidMeaning` | src/boot_format.c:169-201 | An entry is accepted exactly when it is all zero, or its length is in bounds and its failure history is well formed: as many reasons as failures, three failures exactly when rejected and rolled back |
| `Format.ValidMeaning` | src/boot_format.c:203-267 | The validator accepts exactly the well-formed records: roles distinct, confirmed and non-empty as they must be, one candidate at most and only in READY or TRIAL, ids not above the sequence, a deadline intent only for the running trial |
| `Codec.EncodeMetadata` | src/boot_format.c:315-353 | In place: size, commit word and record are checked first; success fills exactly the 168 bytes and keeps the rest of the buffer; an error changes nothing |
| `Codec.EncodeManifest` | src/boot_format.c:105-128 | In place: success fills exactly the 160 bytes and keeps the rest of the buffer; an error changes nothing |
| `Codec.StoreWords` | src/boot_format.c:15-21 | Consecutive words are stored little-endian, the bytes before and after stay |
| `Codec.MetadataDecodesEncoding` | src/boot_format.c:269-353 | Decoding an encoded valid record, whatever follows it, returns that record |
| `Codec.MetadataEncodesDecoding` | src/boot_format.c:269-353 | Encoding what was decoded reproduces the 168 bytes that were accepted, and the record is valid |
| `Codec.MetadataCanonical` | src/boot_format.c:269-353 | Two accepted prefixes have equal values if and only if they are byte for byte the same |
| `Codec.ManifestDecodesEncoding` | src/boot_format.c:73-128 | Decoding an encoded valid manifest returns it, signature included |
| `Codec.ManifestEncodesDecoding` | src/boot_format.c:73-128 | Encoding what was decoded reproduces the 160 bytes that were accepted |
| `Codec.ManifestCanonical` | src/boot_format.c:73-128 | Two accepted manifests have equal values if and only if they are byte for byte the same |
| `Flash.Device.EraseBits` | tests/boot/flash_model.c:26-39 | The bit loop of an erase leaves exactly the memory with that prefix of the page set to ones |
| `Flash.Device.ProgramBits` | tests/boot/flash_model.c:41-57 | The bit loop of a program leaves exactly the memory with that prefix of the word cleared as wanted |
| `Flash.Device.Read` | tests/boot/flash_model.c:16-24 | A read that succeeds returns the true bytes, or with a wrong first bit where fabricated reads are allowed |
| `Flash.Device.Erase` | tests/boot/flash_model.c:26-39 | Cut anywhere, dropped, or reported as failed after full effect: the memory is a torn erase of the one page, success means a complete one or, where the device allows it, one that was dropped; a blocked device does nothing |
| `Flash.Device.Program` | tests/boot/flash_model.c:41-57 | Cut anywhere, dropped or reported as failed after full effect: the memory is a torn program of the one word, and no bit is ever set by it |
| `Flash.EraseAll` | tests/boot/flash_model.c:26-39 | A complete erase is ones on the page and nothing else |
| `Flash.ProgramAll` | tests/boot/flash_model.c:41-57 | A complete program of a word whose bits only have to be cleared stores exactly that word |
| `Store.SettledUnderErase` | src/boot_store.c:39-92 | The page invariant: a page that decodes, or that no erase can make decode, stays so under an erase cut at any bit, and the record on it is kept whole or lost |
| `Store.SettledExactly` | src/boot_store.c:39-92 | That invariant holds of a page if and only if no cut of an erase can turn it into a record it did not hold |
| `Store.LoadSurvivesExactly` | src/boot_store.c:20-37 | A load survives every torn erase of the other page exactly if that page is settled, or its first bit brings back a record that is older or the same |
| `Store.EraseIsSafe` | src/boot_store.c:39-92 | An erase of the page that is not authoritative, cut anywhere, leaves what a load returns unchanged |
| `Store.StagingIsSafe` | src/boot_store.c:39-92 | Whatever is written to that page, a load returns the same as long as its commit word is not zero |
| `Store.CommitIsAtomic` | src/boot_store.c:39-92 | The commit program cut at bit n: before its last bit a load returns the old record, after it the new one, never anything else |
| `Store.LoadStore` | src/boot_store.c:20-37 | With honest reads the result is exactly what the two pages say or an IO failure; without faults it is never a failure of IO |
| `Store.FoundIsDurable` | src/boot_format.c:355-380 | Even with a wrong first bit on either page, a load that finds a record on the authoritative page finds the durable one |
| `Store.EraseVerified` | src/boot_store.c:39-92 | Success means that every byte of the page is erased, even where erases may be dropped in silence; failure at any point leaves the durable record |
| `Store.StageRecord` | src/boot_store.c:39-92 | Success means that the page holds the whole record but for its commit word, even where programs may be dropped in silence; failure leaves the durable record |
| `Store.CommitRecord` | src/boot_store.c:39-92 | Success means the new record is durable; a failure here, and only here, is reported as uncertain, and then either record is durable |
| `Store.Replace` | src/boot_store.c:39-92 | For every cut, error or dropped program: afterwards the durable record is exactly the old or the desired one, success means the desired one, every error but the uncertain one means the old one, a stale caller changes nothing, and without faults a due replacement succeeds; with dishonest reads the same for every caller but a stale one whose record is still on its page |
| `Store.TrustedExactly` | src/boot_store.c:39-92 | Old or desired is claimed exactly where no wrong first bits can make a load find a stale snapshot that its caller holds |
| `Store.PassableExactly` | src/boot_store.c:20-37 | Some wrong first bits make the load find a given other snapshot if and only if its record is on its page |
| `Store.DurableLoads` | src/boot_store.c:20-37 | What is durable is what a fresh load finds, and it is a valid record |
| `Store.RunsAlwaysLoad` | src/boot_store.c:39-92 | Along every run of replacements, each ended by success, error or power cut, the store loads at every point, never as missing or in conflict, and its sequence never goes back |
| `Store.FactoryIsDurable` | src/boot_store.c:20-37 | A provisioned page beside an erased one is a durable start |
| `Store.UnsettledLosesTheRecord` | src/boot_store.c:39-92 | Without the page invariant the claim is false: one cleared bit in the other page and one torn erase end in a conflict |
| `Store.FabricationLosesTheNewest` | src/boot_store.c:39-92 | With dishonest reads every stale caller whose record is on its page can pass for current, and the erase that follows loses the newest record |
| `Lifecycle.AdmissionMeaning` | src/boot_lifecycle.c:35-56 | An upload is admitted exactly if the evidence names the confirmed current image as running, no candidate waits and the manifest is for the other slot |
| `Lifecycle.ExecutionMeaning` | src/boot_lifecycle.c:122-134 | Execution is refused exactly to inadmissible images and to those that the record does not name |
| `Lifecycle.InvalidateCloses` | src/boot_lifecycle.c:69-86 | An admitted invalidation succeeds unless the sequence is exhausted, and its result is valid |
| `Lifecycle.AcceptReadyCloses` | src/boot_lifecycle.c:88-120 | It changes the record exactly when the upload is admitted, the slot is empty and the image is admissible and the one announced; the result is the READY candidate, valid; a valid record is never reported as invalid |
| `Lifecycle.BeginTrialCloses` | src/boot_lifecycle.c:142-156 | READY becomes TRIAL exactly when the image may run and is the candidate; TRIAL is left alone; nothing but that one entry and the sequence changes |
| `Lifecycle.ConfirmCloses` | src/boot_lifecycle.c:158-189 | It confirms exactly a healthy running trial asked for under its own slot, hash and id; afterwards it is current, the old current is previous, and a repetition is no change |
| `Lifecycle.CountedFailureCloses` | src/boot_lifecycle.c:208-247 | Exactly one failure is appended and the earlier reasons stay; the third one rejects, rolls back and ends the candidacy; the intent is used up as asked |
| `Lifecycle.PromotePreviousCloses` | src/boot_lifecycle.c:263-288 | It replaces the current image exactly when that one is shown to be bad and the previous one may run, and it changes no entry |
| `Lifecycle.DeadlineIntentCloses` | src/boot_lifecycle.c:290-317 | An intent is installed exactly for the running trial and only if none is pending |
| `History.StepKeeps` | src/boot_lifecycle.c:58-317 | Every committed transition keeps validity, adds one to the sequence, keeps a confirmed current image if there was one, and does one of four things to each slot: leave it, carry its life on, end it, begin a new one |
| `History.RunKeeps` | src/boot_lifecycle.c:58-317 | Along any run every record is valid, the sequence counts the transitions, and a device that starts with a confirmed current image always has one |
| `History.AcceptedIdsIncrease` | src/boot_lifecycle.c:109-119 | Trial ids given by acceptance strictly increase, and each is above every id retained before it |
| `History.HistoriesGrow` | src/boot_lifecycle.c:208-247 | While a slot is not emptied, its failure count never drops and its recorded reasons never change |
| `History.IntentUsedOnce` | src/boot_lifecycle.c:208-247 | Along any run no more intents are used than were installed, and a pending one has not been used |
| `History.IntentStep` | src/boot_lifecycle.c:290-317 | An intent is only installed where none is, and using it removes it |
| `Reset.ProposeReset` | src/boot_reset_accounting.c:15-70 | The accumulating classification computes the proposal that the lemmas below are about |
| `Reset.ProposeCounts` | src/boot_reset_accounting.c:15-70 | One failure is proposed exactly when a trial is running and one of its causes, or its own deadline, is among the flags; a pending deadline is used up by it; nothing is proposed otherwise |
| `Reset.ReasonMeans` | src/boot_reset_accounting.c:39-52 | The reason is the only cause present, or combined if there are two; the software flag is a cause only with its matching intent |
| `Runtime.ClearedBits` | src/boot_reset_handler.c:17-69 | The write back clears exactly the captured supported bits and keeps every other bit of the register as it is now |
| `Runtime.RunResetHandler` | src/boot_reset_handler.c:17-69 | The flash is touched only after the capture is cleared; at most one count is committed, and only for a counted capture; success means the capture is durably accounted for; only captured flags are cleared, so that flags arriving between the two register reads stay; without faults it fails only where no sequence number is left for the count |
| `Runtime.Account` | src/boot_reset_handler.c:17-69 | The same from the load onwards: old record or counted record, and which one the status says |
| `Launch.SameSnapshotIsEqual` | src/boot_launch.c:19-27 | Comparing encodings and pages is comparing snapshots |
| `Launch.Recheck` | src/boot_launch.c:93-100 | Success means that the snapshot held is the durable one now |
| `Launch.MakeTrial` | src/boot_launch.c:88-114 | A decision is published only after the trial is durable, and then it is what a load finds; without faults it succeeds exactly when the record names the image and a number is left |
| `Launch.LaunchCandidate` | src/boot_launch.c:37-115 | A published candidate is verified in its slot, named by the durable record and durably in TRIAL; an image is called invalid only if it is, and without faults a good candidate is started and a bad one reported |
| `Select.SelectImage` | src/boot_select.c:62-196 | The effectful selection refines the plain choice from what slots and record say (Choice): a decision is for the chosen slot and is durable, recovery means there is none to choose, at most one commit is made and none for the confirmed current image, and without faults the decision is made exactly when the chosen image can run |
| `Select.SelectCandidate` | src/boot_select.c:99-124 | The candidate is passed over only if its slot does not hold a good image |
| `Select.SelectConfirmed` | src/boot_select.c:125-150 | The current image is taken without a write if it is good; only if it is shown to be bad the previous one is looked at |
| `Select.SelectPrevious` | src/boot_select.c:151-185 | The previous image is taken only if it is confirmed and good |
| `Select.Promote` | src/boot_select.c:169-185 | The promotion is durable before the image is published, and no entry changes |
| `Select.ChoiceKept` | src/boot_select.c:62-196 | Changing the metadata does not change what the slots hold, so that the choice for a record stays |
| `Runtime.Runtime.Run` | src/boot_runtime.c:25-88 | One-shot; selection follows only a durable accounting; one boot makes at most the count and one selection commit; what is published is the choice for the accounted record; without faults it publishes exactly when that choice can run |
| `TruthRuns.TruthBoots` | src/boot_select.c:62-196 | Where metadata is true and a current image is confirmed there is always a choice: the candidate if there is one, else the current image; it can run unless it is a first trial with no sequence number left |
| `TruthRuns.EraseLeavesABoot` | src/boot_flash.c:202-248 | An admitted erase, however far it gets, leaves the confirmed current image durable, stored, good and the choice of the next boot |
| `Trials.BoundedTrial` | src/boot_reset_accounting.c:31-70 | For one trial id and any run of boots, uploads and store faults: of the boots that captured a counted cause, at most one publishes the candidate from READY and at most two from TRIAL |
| `Trials.StartsArePaidFor` | src/boot_launch.c:81-109 | Every such start uses up a part of a budget that only acceptance creates |
| `Trials.RejectedNeverStarts` | src/boot_lifecycle.c:231-247 | The third recorded failure leaves the entry REJECTED, and no later boot publishes that acceptance |
| `Trials.OverStays` | src/boot_lifecycle.c:231-247 | An acceptance whose candidacy has ended is never a candidate again |
| `Trials.OwnIdAlways` | src/boot_lifecycle.c:109-119 | The id of the candidate is shared by no other entry, along every run |
| `Trials.EventKeeps` | src/boot_runtime.c:63-84 | What one boot or transition does to the budget of an id |
| `Watchdog.Watchdog.Configure` | src/boot_watchdog.c:86-121 | Success means the exact budget is loaded, both stages are enabled, the clock runs and the registers are locked; with truthful registers in the reset state it succeeds; every later fault quarantines |
| `Watchdog.Watchdog.Service` | src/boot_watchdog.c:138-165 | It feeds at most once, and only on complete evidence of the current owner and epoch; success advances the epoch by one and uses the evidence up; with truthful registers and epochs left it succeeds |
| `Watchdog.Watchdog.Transfer` | src/boot_watchdog.c:175-184 | The one way handover happens exactly when the boot owner is ready and an epoch is left, and drops all evidence |
| `Watchdog.Watchdog.Report` | src/boot_watchdog.c:193-229 | A report is accepted exactly when it is the next event of the stream being followed, and a refused one changes no evidence |
| `Watchdog.Watchdog.ApplicationReport` | src/boot_watchdog.c:240-252 | Each predicate counts once an epoch and only after complete work |
| `Verify.Observer.Notify` | src/boot_runtime_watchdog.c:31-60 | Each event but the first is one report and one feed, with identity, epoch and totals as the watchdog expects |
| `Verify.VerifyManifest` | src/boot_verify.c:31-100 | Success means the manifest decodes, targets the slot and is authentic; an image failure means it is not |
| `Verify.VerifyStored` | src/boot_verify.c:108-189 | The verdict is exact: success means a good image in the slot and an image failure means a bad one, and without faults one of the two is returned; a complete verification of length L is accepted event by event, feeds exactly 1 + ceil(L/256) times and advances the epoch by as many |
| `Verify.ReadPayload` | src/boot_verify.c:130-155 | The chunk loop hashes exactly the payload bytes of the slot, in order, with one progress event a chunk |
| `Verify.ReadChunk` | src/boot_verify.c:130-155 | One chunk: what is hashed is what the flash holds there |
| `Verify.JudgementMeaning` | src/boot_verify.c:156-185 | The checks after the last chunk accept exactly the payload named by the manifest with usable vectors |
| `Verify.NamedMeaning` | src/boot_format.c:397-413 | A record names an image exactly when length, release and hash of the entry are those of the manifest |
| `Verify.GoodIsAdmissible` | src/boot_lifecycle.c:122-134 | A verified image passes every execution check but that of its name |
| `Verify.AdmissibleIsVectors` | src/boot_lifecycle.c:24-33 | The check of a verified image by the lifecycle and the check of vectors by the format accept the same images |
| `Controller.Driver.Recover` | src/boot_flash.c:84-96 | It issues nothing; the quarantine is lifted exactly on success and its first cause is kept otherwise |
| `Controller.Driver.Read` | src/boot_flash.c:98-112 | Success means the true bytes; a quarantined driver reads nothing |
| `Controller.Driver.Modify` | src/boot_flash.c:114-166 | Against a controller that progresses and fails as it likes: nothing is issued while quarantined or under the wrong clock, one command at most, the memory is the command torn at some bit, quarantine holds exactly while a first cause is recorded, and success means the addressed bytes have the requested value and no other byte changed; with a prompt controller it succeeds |
| `Controller.Driver.Program` | src/boot_flash.c:168-171 | The same for one word, addresses checked first; at its return it has done no more and promised no less than what every user of the flash rests on (Flash.ProgramOutcome) |
| `Controller.Driver.Erase` | src/boot_flash.c:173-176 | The same for one page (Flash.EraseOutcome) |
| `Controller.AchievedExactly` | src/boot_flash.c:156-163 | Reading back the addressed bytes proves the whole memory |
| `Controller.SucceededWhole` | src/boot_flash.c:156-163 | A verified success leaves the memory of a command that ran to its end |
| `ErasePlan.Plan.Begin` | src/boot_flash.c:202-223 | The erase is admitted exactly when the destination is invalidated and without a role and the confirmed current image runs elsewhere |
| `ErasePlan.Plan.Step` | src/boot_flash.c:225-248 | One page a step, the manifest page first; nothing outside that page changes and a failure is final |
| `ErasePlan.EmptyEntryBytes` | src/boot_flash.c:202-223 | Looking for 48 zero bytes in the encoding is looking for the empty entry |
| `ErasePlan.WholeSlot` | src/boot_flash.c:225-248 | The pages of a finished plan are the whole slot |
| `ErasePlan.OnePage` | src/boot_flash.c:225-248 | Each step adds its page to those erased |
| `Receive.Receiver.ValidMeans` | src/boot_receive.c:87-257 | At any point of any interleaving: received is programmed plus buffered, the manifest buffer is the first bytes of the input, the snapshot held is the durable one, no byte outside the destination slot and the metadata has changed, and metadata that was true stays true |
| `Receive.Receiver.Begin` | src/boot_receive.c:87-119 | Arguments, reuse and state are told apart exactly; without faults it succeeds unless the sequence leaves no room for two commits or nothing is known to run |
| `Receive.Receiver.Feed` | src/boot_receive.c:120-148 | A span is taken in part or not at all, as far as the buffer of the phase goes, and exactly an excess over the announced length ends the transaction |
| `Receive.Receiver.Eof` | src/boot_receive.c:149-160 | The end is accepted exactly when all announced bytes have arrived |
| `Receive.Receiver.Abort` | src/boot_receive.c:161-168 | It ends every transaction that has begun and touches nothing |
| `Receive.Receiver.StepAuthenticate` | src/boot_receive.c:178-186 | The upload goes on only with an authentic manifest whose invalidation is admitted; without faults exactly the inauthentic ones are refused as such |
| `Receive.Receiver.StepInvalidate` | src/boot_receive.c:187-198 | The durable invalidation always admits the erase that follows |
| `Receive.Receiver.StepErase` | src/boot_receive.c:199-203 | One page of the destination, or the end of the erase; without faults it succeeds |
| `Receive.Receiver.StepPayload` | src/boot_receive.c:204-214 | It waits exactly when no full word is at hand and more is to come; a word is programmed once and in order |
| `Receive.Receiver.StepManifest` | src/boot_receive.c:215-222 | The manifest is programmed word by word, after the payload |
| `Receive.Receiver.StepVerify` | src/boot_receive.c:223-241 | Without faults the stored image is judged good exactly when the bytes that were sent make a good image |
| `Receive.Receiver.StepReady` | src/boot_receive.c:242-253 | Acceptance is reported only after READY is durable |
| `Receive.Receiver.Step` | src/boot_receive.c:169-257 | One phase at most, every success brings the end nearer, and acceptance means that the slot holds exactly the bytes sent, verified, and that the durable record names them as its READY candidate; without faults no step fails that the input does not make fail |
| `Receive.InvalidationAdmits` | src/boot_receive.c:187-198 | After the invalidation the slot is empty, may be destroyed, and the upload is still admitted |
| `Receive.AcceptanceFollows` | src/boot_receive.c:223-241 | A verified image of an admitted upload is always accepted |
| `Receive.SlotTouched` | src/boot_receive.c:199-222 | Changing the destination slot keeps the durable record and its truth, because the record names nothing there |
| `Receive.InvalidationTried` | src/boot_receive.c:187-198 | However the invalidation ends, the transaction invariant holds |
| `Receive.SentIsStored` | src/boot_receive.c:223-241 | When verification begins the slot holds the manifest and payload that were sent |
| `Receive.ImageVerified` | src/boot_receive.c:223-241 | What is verified is what the manifest received says |
| `Receive.ReadyTried` | src/boot_receive.c:242-253 | However the commit ends, the metadata stays true; if it succeeds the image is delivered |
| `Receive.OthersMayCommit` | src/boot_receive.c:87-119 | Other commits between transactions do not disturb them |
| `Truth.ProvisionedIsTruthful` | src/boot_store.c:20-37 | A provisioned board whose record names only images that are stored is a true start |
| `Truth.BlankIsTruthful` | src/boot_store.c:20-37 | There is such a board |
| `Truth.TruthUnderSlotWrite` | src/boot_flash.c:225-248 | Writing a slot that the durable record leaves empty keeps every named image stored |
| `Truth.TruthUnderAction` | src/boot_lifecycle.c:69-317 | So does every committed transition but acceptance |
| `Truth.TruthUnderAccept` | src/boot_lifecycle.c:88-120 | So does acceptance, once the image is completely stored |
| `TruthRuns.BootKeepsNames` | src/boot_runtime.c:63-84 | A boot names no image that was not named before |
| `TruthRuns.BootStaysTruthful` | src/boot_runtime.c:63-84 | A boot however it ends keeps the metadata true |
| `TruthRuns.CallReceiver` | src/boot_receive.c:120-257 | Any call of the receiver, in any order, keeps the metadata true |
| `TruthRuns.RunUpload` | src/boot_receive.c:87-257 | An upload by any sequence of calls, given up anywhere, keeps the metadata true |
| `TruthRuns.RunBoot` | src/boot_runtime.c:25-88 | One boot, with any flags, images, watchdog registers and faults, keeps the metadata true |
| `TruthRuns.RunConfirmation` | src/boot_service.c:151-180 | One request to confirm, over any published diagnostics, keeps the metadata true |
| `TruthRuns.RunCommit` | src/boot_store.c:39-92 | One commit of any other transition by any caller, stale or not, keeps the metadata true |
| `TruthRuns.AlwaysTruthful` | src/boot_receive.c:187-253 | After any number of uploads, boots, confirmations and other commits, made by the modelled calls in any order, with any of their flash commands failed, cut or dropped: each entry of the record that a fresh load returns has a complete stored image in its slot with the same hash, length and release |
| `RamFile.File.constructor` | src/ram_file.c:168-243 | A new file is absent and no upload is open |
| `RamFile.File.Inspect` | src/ram_file.c:78-84 | A reader sees the committed file |
| `RamFile.File.Clear` | src/ram_file.c:69-76 | The file is absent afterwards |
| `RamFile.File.Begin` | src/ram_file.c:86-96 | One upload at a time; the committed file stays |
| `RamFile.File.Append` | src/ram_file.c:98-140 | Bytes are staged whole or not at all, exactly when they fit; readers see nothing of them |
| `RamFile.File.Abort` | src/ram_file.c:142-147 | The committed file stays |
| `RamFile.File.Commit` | src/ram_file.c:149-162 | Everything staged becomes the file at once, or nothing changes |
| `FtpReplies.OnlyComplete` | src/ftp_core.c:447-464 | One reply alone has code 226 |
| `FtpReplies.AnswerFits` | src/ftp_core.c:74-85 | Every reply, with any size, address or port in it, fits a slot of the ring |
| `FtpReplies.ListenerFits` | src/ftp_core.c:319-339 | The listener replies fit for every address and port |
| `FtpReplies.Ring.Push` | src/ftp_core.c:74-85 | The reply is queued behind all others |
| `FtpReplies.Ring.ClearStarts` | src/ftp_core.c:44-63 | No reply left will open a transfer, and nothing else of the queue changes |
| `FtpReplies.Ring.Peek` | src/ftp_core.c:245-253 | What is left of the oldest reply |
| `FtpReplies.Ring.Consume` | src/ftp_core.c:254-270 | Part of the oldest reply, or all of it, and nothing of the others |
| `FtpReplies.KeptUntilReturn` | src/ftp_core.c:272-287 | Before a carriage return bytes are kept in order; one that is not printable or does not fit spoils the line |
| `FtpReplies.LineAccepted` | src/ftp_core.c:272-287 | A line is understood exactly if it is printable and has at most 254 characters, and then as what was sent |
| `FtpReplies.SpokenSplit` | src/ftp_core.c:289-318 | What the client says does not depend on how its bytes are split into spans |
| `FtpCore.ElapsedCountsTicks` | src/ftp_core.c:40-43 | The modular comparison counts ticks correctly across a wrap of the clock |
| `FtpCore.LoginIsEarned` | src/ftp_core.c:130-147 | Whoever is logged in gave the anonymous name, no other one since, and then a password; whoever is in binary mode asked for it after that |
| `FtpCore.NothingForgotten` | src/ftp_core.c:44-63 | Teardown closes every listener and aborts every data connection or transfer, and drops no other pending action |
| `FtpCore.Core.Teardown` | src/ftp_core.c:44-63 | Transfer and listener end, an active operation is ended exactly once, and the committed file stays |
| `FtpCore.Core.Lost` | src/ftp_core.c:64-73 | The session and everything it had is gone |
| `FtpCore.Core.Say` | src/ftp_core.c:74-85 | A reply is queued; the ring is never full where it is called |
| `FtpCore.Core.Failure` | src/ftp_core.c:86-90 | Everything is torn down and the failure takes the slot reserved for it |
| `FtpCore.Core.Command` | src/ftp_core.c:104-188 | What each verb does to login, mode and transfer, with at most one reply and none for a listener still to be opened; a transfer in progress is disturbed by no command but QUIT and ABOR |
| `FtpCore.Core.AnyTime` | src/ftp_core.c:112-127 | The five commands obeyed during a transfer, with their reply codes |
| `FtpCore.Core.WhenIdle` | src/ftp_core.c:130-186 | Listeners only for those logged in, transfers only in binary mode behind a listener |
| `FtpCore.Core.Login` | src/ftp_core.c:130-138 | USER, PASS and the refusal before them |
| `FtpCore.Core.LoggedIn` | src/ftp_core.c:139-186 | The commands that need a login keep the user and, but for TYPE, the mode |
| `FtpCore.Core.Simple` | src/ftp_core.c:139-160 | Which of the immediate answers each verb gets; only TYPE changes anything |
| `FtpCore.Core.Quit` | src/ftp_core.c:112-114 | The session is torn down and says goodbye |
| `FtpCore.Core.Abor` | src/ftp_core.c:115-121 | An operation already accepted is reported as such |
| `FtpCore.Core.User` | src/ftp_core.c:130-133 | A new name ends login, mode and transfer |
| `FtpCore.Core.Listen` | src/ftp_core.c:148-151 | A listener is asked for, its announcement deferred |
| `FtpCore.Core.Size` | src/ftp_core.c:152-160 | The size is that of the committed file |
| `FtpCore.Core.Transfer` | src/ftp_core.c:161-185 | A transfer starts with nothing moved, its reply queued as the one that opens it |
| `FtpCore.Core.BeginOperation` | src/ftp_core.c:171-184 | An operation begun is the one named, with nothing taken yet, and is begun once |
| `FtpCore.Core.BeginFile` | src/ftp_core.c:177-184 | A download is of the file as it is now, an upload starts empty |
| `FtpCore.Core.Reset` | src/ftp_core.c:223-228 | Everything as at the beginning, the file absent |
| `FtpCore.Core.SessionOpen` | src/ftp_core.c:229-234 | A session opens exactly when there is none and nothing is left to be done, with nobody logged in |
| `FtpCore.Core.SessionLost` | src/ftp_core.c:235 | The session is gone and the committed file stays |
| `FtpCore.Core.ControlClosed` | src/ftp_core.c:236-240 | The same without asking for an abort |
| `FtpCore.Core.TakeActions` | src/ftp_core.c:241-244 | All pending actions are handed out and forgotten |
| `FtpCore.Core.ReplyPeek` | src/ftp_core.c:245-253 | The oldest reply and what is left of it |
| `FtpCore.Core.ReplyConsume` | src/ftp_core.c:254-270 | The transfer becomes ready exactly when the whole of the reply that announces it has gone out |
| `FtpCore.Core.ControlSpan` | src/ftp_core.c:289-318 | Backpressure exactly when the replies might not fit beside the reserved slots; every complete line of what is taken is obeyed once and in order; the ring never overflows |
| `FtpCore.Core.HandleSpan` | src/ftp_core.c:305-316 | The second pass says and does what the first one counted, and stops behind a command that opens a listener |
| `FtpCore.Core.CountLines` | src/ftp_core.c:297-301 | The first pass on a copy of the parser counts exactly the lines that the second one completes |
| `FtpCore.Core.HandleLine` | src/ftp_core.c:307-309 | One line, at most one reply; a malformed one does nothing else |
| `FtpCore.Core.PassiveResult` | src/ftp_core.c:319-339 | The listener is announced with its address and port, or everything is torn down; either reply has its reserved slot |
| `FtpCore.Core.DataConnected` | src/ftp_core.c:340-346 | One connection for each listener |
| `FtpCore.Core.UploadSpan` | src/ftp_core.c:364-391 | What is accepted is staged or handed to the operation, and nothing else is |
| `FtpCore.Core.UploadEof` | src/ftp_core.c:392-403 | A file closes at once, an operation has to accept first |
| `FtpCore.Core.Foreground` | src/ftp_core.c:405-420 | One step of the operation; its success closes the transfer only after the end of the input |
| `FtpCore.Core.DownloadSpan` | src/ftp_core.c:421-428 | Together with what was handed over before, it is the file, or the view of the operation, as it was at RETR |
| `FtpCore.Core.DownloadEnqueued` | src/ftp_core.c:429-437 | Handed over in order, never past the end |
| `FtpCore.Core.DownloadAcked` | src/ftp_core.c:438-446 | Acknowledged at most what was handed over; the transfer closes exactly when all is acknowledged |
| `FtpCore.Core.DataCloseResult` | src/ftp_core.c:447-464 | The meaning of 226 (section 5.4 of RFC 959): the committed file is the concatenation of all accepted spans, or the operation has taken exactly those spans, has seen their end and has reported success since, or every byte of the view was handed over and acknowledged |
| `FtpCore.Core.DataError` | src/ftp_core.c:465-472 | The transfer is torn down with one reply that says so |
| `FtpCore.Core.Tick` | src/ftp_core.c:481-516 | The session is dropped exactly for its own silence, a stalled transfer or listener is torn down with one reply, the one for the oldest complaint in a fixed order, and nothing else happens |
| `Text.ReadDecimal` | src/boot_service.c:18-30 | The digit loop reads exactly the numbers that fit 32 bits |
| `Text.ValueOfDigits` | src/ftp_core.c:92-99 | Reading the digits of a number gives the number |
| `Text.Decimal` | src/ftp_core.c:92-99 | The formatter writes the digits in the right order |
| `Text.HexRoundTrip` | src/boot_service.c:31-36 | Lower-case hexadecimal is read back as written |
| `Text.HexCanonical` | src/boot_service.c:31-36 | Only one text is read as a given hash |
| `Text.SplitJoin` | tools/boot/workflow.py:24-26 | Splitting takes a joined text apart again |
| `Text.JoinSplit` | tools/boot/workflow.py:24-26 | Joining puts a split text together again |
| `Confirm.Parser.Feed` | src/boot_service.c:37-50 | A span is taken whole or not at all, so that splitting does not matter |
| `Confirm.Parser.Finish` | src/boot_service.c:51-95 | Once, and the request is a function of the bytes fed |
| `Confirm.ConfirmRoundTrip` | tools/boot/workflow.py:211 | Every confirm body that the client can send fits the 128-byte parser and is read as the same slot, hash and id |
| `Confirm.RequestIsExplained` | src/boot_service.c:51-95 | Nothing else is taken for a request: the text is four lines, one for each field in some order, each saying what the request says |
| `Status.StatusRoundTrip` | src/boot_service.c:112-150 | Every consistent capture is rendered within its buffer and accepted by the client parser with the values rendered |
| `Status.StatusReads` | tools/boot/workflow.py:20-53 | Values that are well formed come back from the text |
| `Status.StatusIsText` | tools/boot/workflow.py:20-53 | The client accepts no other text for these values than the one that the device renders of them |
| `Status.ValuesAcceptable` | src/boot_service.c:112-150 | Every value that the device renders is one that the client accepts |
| `Status.TextIsShort` | src/boot_service.c:112-150 | The longest status is at most 702 characters |
| `Status.StatusMeans` | src/boot_service.c:112-150 | The text loses nothing that the client uses: its reading of a status is the report |
| `Status.ReportArrives` | tools/boot/workflow.py:20-53 | From the device to the client, text and all |
| `Service.Capture` | src/boot_snapshot.c:61-81 | All or nothing: diagnostics with their own context, the durable record, and a running image that it names; undisturbed it succeeds exactly when the record names the running image |
| `Service.ConfirmService.Apply` | src/boot_service.c:151-180 | Success is durable and repeating it writes nothing; old or confirmed record however it ends; after an uncertain commit nothing more is tried; undisturbed the answer is the one deserved |
| `Service.ConfirmService.Decide` | src/boot_service.c:161-176 | The decision on one consistent capture and its single commit |
| `Service.ConfirmedMeans` | src/boot_lifecycle.c:158-189 | Success confirms exactly the slot, hash and id asked for |
| `Service.ConfirmKeepsTruth` | src/boot_service.c:151-180 | A confirmation, granted or not, keeps the metadata true |
| `Service.WrongAcceptanceRefused` | src/boot_lifecycle.c:158-189 | A request for one acceptance never confirms another, even of identical bytes |
| `Workflow.ArtifactAgrees` | tools/boot/workflow.py:64-83 | The client accepts exactly the packages that the device verifies, but for the signature |
| `Workflow.Origin` | src/boot_lifecycle.c:109-119 | An entry whose id is above a sequence number goes back to an acceptance after the record with that number |
| `Workflow.ConfirmedIsSound` | tools/boot/workflow.py:133-173 | A truthful status taken for success, however old or repeated: a record has this artifact as confirmed current, accepted after the upload was admitted |
| `Workflow.ConfirmsItsAcceptance` | src/boot_lifecycle.c:158-189 | A confirmation confirms the one acceptance whose id it names |
| `Workflow.UploadIsPending` | tools/boot/workflow.py:141-155 | While the upload is on its way into the slot and the old image runs, no truthful status is a mismatch |
| `Workflow.Client.Read` | tools/boot/workflow.py:104-107 | Anything but a well-formed status is silence; a genuine one is a report of the device |
| `Workflow.Client.Upload` | tools/boot/workflow.py:109-131 | Attempted once in the life of the client, exactly when the status admits it and the package is for the permitted slot |
| `Workflow.Client.Classify` | tools/boot/workflow.py:133-173 | The verdict, and the retained id, which is set once and never changes |
| `Workflow.Client.Poll` | tools/boot/workflow.py:175-187 | It sends nothing; CONFIRMED rests on a genuine report; without a verdict none of the statuses it had settled the upload |
| `Workflow.Client.Confirm` | tools/boot/workflow.py:189-221 | A confirmation is sent exactly after a fresh healthy trial, for the retained id, slot and hash, and success is never claimed on the strength of sending |
| `Workflow.ConclusionIsSound` | tools/boot/workflow.py:133-221 | If the client concludes CONFIRMED from lost, repeated or delayed genuine messages, the device had this artifact as durable confirmed current, accepted after the admission status under the retained id |
| `Workflow.IdentityIsExact` | tools/boot/workflow.py:246-261 | For a truthful status the read-only verdict is exact |
| `FtpBoot.Boot.Begin` | src/ftp_boot.c:73-105 | One operation at a time, none in quarantine, one firmware upload ever; status and report show one capture of the durable record, the report only of a healthy image without a fault |
| `FtpBoot.ReportFits` | src/ftp_boot.c:22-57 | The boot report of a valid descriptor is the unchanged status behind its message, is never too long, and is refused exactly without success |
| `FtpBoot.Boot.BeginView` | src/ftp_boot.c:84-90 | What is shown was captured from the durable record |
| `FtpBoot.Boot.Feed` | src/ftp_boot.c:113-128 | Every byte taken goes to the active operation, none after the end or after acceptance |
| `FtpBoot.Boot.Eof` | src/ftp_boot.c:129-140 | Once; firmware only with all its bytes |
| `FtpBoot.Boot.Step` | src/ftp_boot.c:141-177 | Acceptance is durable success, READY for firmware or the confirmation asked for, is sticky, and touches nothing when repeated; waiting and progress are told truly |
| `FtpBoot.Boot.StepFirmware` | src/ftp_boot.c:141-177 | Acceptance of firmware is the delivery of what was sent |
| `FtpBoot.Boot.StepConfirm` | src/ftp_boot.c:141-177 | Acceptance of a confirmation means the record holds it |
| `FtpBoot.Boot.End` | src/ftp_boot.c:178-190 | What was accepted stays, what was not is aborted |
| `FtpServer.Repeat` | src/ftp_boot.c:68-191 | If the boot services answer one call as the core was answered, they stay where the core believes them to be |
| `FtpServer.Replay` | src/ftp_boot.c:68-191 | The same for all the calls that the core ever made: what was fed was taken, what was shown is what was handed over, what was accepted is delivered or in force |
| `FtpServer.CatchUp` | src/ftp_boot.c:178-190 | And it stays so when the operation is ended |
| `FtpServer.Complete` | src/ftp_core.c:447-464 | Core and boot services together: code 226 for firmware means that the bytes received are delivered under READY, for a confirmation that the request received is in force, and what was downloaded is one capture of the durable record |
| `FtpServer.FirmwareProved` | src/boot_receive.c:242-253 | Delivered means: the durable record names as READY candidate, under its own sequence number, the good image that was received, stored whole |
| `Diag.DecodesLayout` | src/boot_diag.c:67-96 | Decoding succeeds exactly on the layout of a good record |
| `Diag.CodecRoundTrip` | src/boot_diag.c:40-96 | The codec is canonical in both directions |
| `Diag.Encode` | src/boot_diag.c:40-66 | In place; success decodes to the record and keeps the rest of the buffer, an error changes nothing |
| `Diag.NeverMixed` | src/boot_diag_publication.c:100-127 | Of a block that is as before, withdrawn or complete, a reader sees the whole old or the whole new record or none |
| `Diag.Publication.ReadRecord` | src/boot_diag_publication.c:87-99 | What is read is what the words say |
| `Diag.Publication.Publish` | src/boot_diag_publication.c:100-127 | Validity is withdrawn first and given last; wherever it stops, with any word write faulted, a reader sees the whole old or the whole new record or none; success means the record and its context are the published ones; a fault withdraws association |
| `Diag.Publication.Boot` | src/boot_diag_publication.c:128-137 | A fresh record of the captured flags; after a fault a reader sees that one, the one before, or none |
| `Diag.Publication.Adopt` | src/boot_diag_publication.c:138-148 | Only on trust and only if whole |
| `Diag.Publication.Progress` | src/boot_diag_publication.c:149-166 | Only stage and health change; after a fault a reader sees the record with them, the one before, or none |
| `Diag.Publication.Snapshot` | src/boot_diag_publication.c:167-178 | Success only for the last completed record with its own context |

## Left out

- Cryptography: digest and signature check are parameters (`Verify.Trust`); no property of SHA-256 or ECDSA is used.
- Null pointers, overlap, aliasing and alignment of C objects: disjointness is stated as inequality of objects.
- Atomic flags, interrupt masking and barriers: of the reentry guards only the busy flags of the publication and of the
  confirmation service are modelled; calls of one object follow each other.
- Handoff, startup, clock setup and target register access: long equality checks that one branch settles.
- The one-shot watchdog runner of src/boot_runtime_watchdog.c:70-221: only its progress callback is modelled.
- The lwIP glue, the Ethernet driver and everything that is not boot, update or FTP logic.
- Wording of FTP replies: only code and length are kept, and of the listener and size replies the variable parts.
- FTP diagnostics causes, `ftp_core_upload_chunk`, `ftp_core_file` and a core that is bound to no storage.
- Other storage back ends than the RAM file, and the arguments that `ram_file_init` refuses.
- Optional-value helpers of src/boot_diag.c:111-139 and evidence masks and detail fields of reports and results.
- Sockets, sleeping and the strict and validating options of the host client; a request or reply that is lost is a
  silent entry of `Workflow.Link.inbox`. Package files other than the two offered for the slots.
- In-place form of the lifecycle transitions, the decoders and the status renderer: they are functions on values; a
  proposal copy, an output written through an argument and the renderer's buffer are values returned. The record is one
  value with an accounting word split into its fields (`Format.UnpackOfPack`), and the static FTP core and the fields of
  the receiver are one record field each (`FtpCore.State`, `Receive.State`), beside the buffers, which are arrays.
- Flash.Device.Erase: a command still in flight after its call has returned is not part of the device, which is blocked
  from then on; `Controller.Driver` may still change the flash while it is quarantined. A device that drops erases reads
  honestly.
- Flash.Device.Program: the same.
- Store.Replace: old or desired is not claimed for fabricated reads and a stale caller whose record is still on its page,
  because there it is false (`Store.TrustedExactly`).
- Launch.LaunchCandidate: what is claimed of the flash rests on honest reads (`!fabricatedReads`), and so does everything
  of `Select`, `Runtime`, `Service`, `Trials` and `TruthRuns` that follows from it; only `Store` is proved without.
- Receive.Receiver.constructor: the receiver, and with it `FtpBoot` and `FtpServer`, is given a flash with honest reads.
- Receive.Receiver.Step: that the slot holds exactly the bytes sent is claimed where nothing is dropped in silence; the
  stored image is verified in every case.
- Runtime.RunResetHandler: it says nothing of completeness when a register access fails, because each may fail without
  being counted; flags that arrive between the second read and the write back are overwritten, as in the source, and
  are not modelled.
- FtpServer.Complete: the boot services run with the core's calls in order, each with any running evidence; nothing else
  uses the flash in between.
- Trials.BoundedTrial: a boot is counted only if its capture holds a counted cause, because the source counts no other.
- Trials.OwnIdAlways: the events are boots and committed transitions; uploads enter as the transitions they commit.
- Workflow.ConclusionIsSound: genuine messages may be lost, repeated and delayed, but not forged; no transport
  authentication exists in the source.
- FtpCore.ElapsedCountsTicks: an interval of 2^32 ticks or more is indistinguishable from a shorter one, as in the source.
- FtpBoot.Boot.Begin: a firmware upload is admitted as `Receive.Receiver.Begin` says; its outcome is not stated again.
