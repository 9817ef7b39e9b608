# icfx, modelled in Dafny

icfx encrypts and signs files into `.icfx` containers, keeps a list of contacts and their keys, and
synchronises contacts, groups and identities between devices through a server that sees only
ciphertext. This project models the parts of it that carry its promises and proves them:

* **contacts sync** (`OpLog`, `ContactsDiff`, `ContactsSync`, `ContactsExact`, `ContactsEdits`,
  `ContactsAgree`, `ContactsQuiet`, `ContactsHazards`, `ContactsTrail`, `ContactsClient`): N devices, each
  running passes one network call at a time and edited at any time, against one op log that any of
  them may compact;
* **merged blobs and groups** (`MergedBlob`, `Groups`, `GroupWinners`): a read-merge-write loop against a
  version-checked blob, and the CRDT it carries;
* **re-keying** (`Reseal`): when re-sealing from local plaintext may overwrite what the cloud holds;
* **identity roaming** (`Roaming`, `RoamingEdits`, `RoamingClient`): N devices pulling and pushing one
  blob, why they stop, and what becomes of an edit;
* **containers** (`Icfx`, `Verdict`, `Containers`): the writer, the framing parser, the header strip
  and the verdict on the signature;
* **key continuity** (`SignedMessages`, `Continuity`, `InboxEffects`, `Inbox`): the signed messages,
  rotations and revocations, and the pending inbox;
* **codecs** (`QrFrames`, `Text`, `Base64`, `Armor`, `ArmorTexts`, `Chalresp`, `ChalrespFrames`): animated QR
  frames, PEM-style armor (base64 of section 4 of RFC 4648), and the YubiKey HID frame with its CRC-16.

Code that updates things in place is modelled by classes and methods (`ContactsClient`,
`OpLogServer`, `BlobServer`, `RoamingDevice`, `Client`, `Reader`, `FrameCollector`), each proved against a
specification about which the theorems are proved. A method that works against other writers takes
them as a function `net` of the state each call finds, and its contract says what it did in terms of
`net` alone. `Sorting`, `Lex`, `Bytes`, `Text` and `Wrappers` hold the ground they stand on.

`dafny verify dfyconfig.toml` checks everything.

## What is assumed

* Signatures, hashing, age, JSON and base64 of keys are functions passed in. `Containers.Sound` asks
  that JSON and age give back what was put in, `Containers.KeyPair` that a key accepts what its owner
  signs, `Continuity.Sane` that the empty string is no signing key and no fingerprint is empty,
  `Inbox.NameRequired` that a valid lock has a name, `RoamingEdits.Congruent` that identity sets with one
  digest merge into sets with one digest. No theorem needs unforgeability: they say which
  key a signature was checked under.
* The server does what its clients rely on: one contiguous range of sequence numbers per append, a
  high-water mark, compare-and-swap on versions. A failed call has no effect on it.
* Other writers are arbitrary up to those rules. `Lawful` and `LogWriters` state the rules; for
  `Reseal.ResealBlob` there are none beyond blobs having versions.
* In contacts sync, local aliases are distinct and an op's id is its contact's alias.
* Text is valid UTF-8, seen as code points.

## Where the code does less than it promises

Each of these is proved: the failing input, and the exact condition under which the promise holds.

1. **Error returns move the contacts position.** The position is advanced in place and persisted even
   when the pass then fails (`cloud/runsync.go:268-272`), so it can run ahead of the shadow and a contact
   is skipped for good (`ContactsHazards.ErrorReturnLosesContact`). Resuming is right for every history
   exactly when the position is not ahead of the shadow (`ContactsExact.ResumeExact`).
2. **A compaction between a pass's state fetch and its reads loses ops**, and the skip-download rule
   hides it afterwards (`ContactsHazards.ForeignCompactionLosesContact`). A pull is right for every log
   with the given sequence numbers exactly when it misses nothing past its base
   (`ContactsExact.PullExact`), a race repair exactly when nothing past the position has been truncated
   (`ContactsExact.RepairExact`). Clean runs ask for these tests, for the one in 1 with its form for a
   device without shadow (`ContactsExact.ResumeWithoutShadowExact`), and that a pull does not end behind
   the position already persisted (`ContactsExact.FallBehindExact`), and for nothing else; a pass that no
   foreign compaction overtakes passes them (`ContactsSync.UndisturbedIsClean`).
3. **An edit made while a contacts pass is under way is overwritten** (`ContactsHazards.EditDuringPassIsLost`):
   the store is loaded at the start and saved at the end without a lock. **A deletion is undone** by the
   next pass, which pulls the contact back, if it is not synced when the shadow is removed at logout
   (`cloud/sync_contacts.go:332-348`, `ContactsHazards.DeletionBeforeResetIsUndone`) or is made while there is
   no shadow (`ContactsHazards.DeletionWithoutShadowIsUndone`). For every edit and every alias, in every
   clean run, what the edit set is lost by the next save in exactly three cases: it was made after that
   pass's load, and neither what the pass had loaded nor the log brings the same value; or it was made
   before, the pass has no shadow, the edit is a deletion and the log still holds the contact; or it was
   made before and gave the alias back the value of the shadow, from which the log has moved on
   (`ContactsEdits.EditLostExact`). An edit after the load leaves no trace at all
   (`ContactsEdits.EditForgotten`). The shadow a save's pass goes by is that of the time of the edit, or
   the one then being saved, or none if it was removed since (`ContactsEdits.ShadowTraced`).
4. **`MergeGroups` is commutative on what groups say, not on bytes**: two copies that differ but tie in
   stamp and canonical content are kept first come, first served (`Groups.MergeCommutesIff`,
   `Groups.PermutedMembersDoNotCommute`).
5. **Re-sealing contacts asks only that the local list is not empty.** Any other list passes the guard
   and drops every contact it lacks (`Reseal.StaleListDropsContact`); everyone keeps seeing the same
   contacts, whatever is appended meanwhile, exactly when the list is what everyone saw at the head
   being truncated (`Reseal.ResealExact`).
6. **Roaming can push twice after the last edit**, exactly when a push is in flight whose digest that
   edit overtook (`Roaming.PushesAtMostOnce`, `Roaming.OvertakenDigestPushesTwice`).
7. **An identity edit can be recorded as synced without being uploaded.** The digest is taken at the start
   of a pass and recorded for whatever is exported later (`cloud/sync.go:184`, `cloud/identities.go:64`). An
   edit is at risk at three moments: during a pass that only pulls
   (`RoamingEdits.EditDuringPullIsSwallowed`); while a refused push is being retried whose digest is not
   that of the set it writes (`RoamingEdits.EditBackDuringRetryIsSwallowed`); and at any time after a push
   recorded a digest that was not that of the set it wrote
   (`RoamingEdits.EditBackAfterPushIsSwallowed`). In the last two it is lost when the edited set has, or by
   imports comes to have, the digest in question. For every edit, whatever the device and all others go
   on to do, a device with nothing left to push has uploaded its set since the edit, or has the very set
   its record stands for, exactly when the edit was made at none of the three; and at each of them it can
   be lost for good (`RoamingEdits.EditKeptExact`, for runs of N devices `RoamingEdits.EditKeptInRuns`).
   Where merging only adds, what it uploads holds everything it had after the edit
   (`RoamingEdits.EditReachesBlob`).
8. **A failed push after an old-format pull is not retried** (`Roaming.OldFormatPushNotRetried`). The next
   pass, undisturbed, pushes exactly when the set is not the recorded one or the old-format blob has a
   version the device has not recorded (`Roaming.PushRetriedExact`).
9. **One accept can block the inbox.** A self-signed accept whose labels are refused, such as one without
   a name, which no signature covers (`Inbox.NamelessAcceptBlocks`), ends the drain with an error before
   it is acknowledged (`cloud/discovery.go:217-219`), although permanent failures are meant to be
   acknowledged and dropped (`cloud/discovery.go:205-215`). As long as it can be read, no later drain
   gets past it: no rotation or revocation behind it is applied (`Inbox.BlockedForever`). A drain in
   which no call fails handles every item exactly when none is of this kind
   (`Inbox.DrainCompletesExact`).
10. **A revoked key can come back under a new contact**, because an accept is matched with current
    fingerprints alone (`Continuity.RevokedKeyReturns`). A fingerprint that no contact goes by becomes
    current exactly by a valid self-signed accept of it or a verified rotation to it
    (`Continuity.BecomesCurrentExact`); the revoked contact itself never regains a key
    (`Continuity.RevocationIsFinal`).
11. **Armor accepts a header with an empty key but cannot write it back** (`Armor.EmptyKeyAccepted`), and
    writes back everything else it accepts (`Armor.ReencodeExact`).
12. **The request frame's checksum is not the one the response check wants.** The comment on
    `yubikeyCRC16` says a valid frame has residual 0xF0B8; `buildFrame` writes the checksum
    uncomplemented, which leaves zero (`ChalrespFrames.FrameChecksum`), while responses carry the
    complement (`ChalrespFrames.ReadResponse`).
13. **The declared share size is wrong for a file cut short inside its header block**
    (`Icfx.TruncatedSizeWrong`), and right for every other accepted one (`Icfx.StripSizeExact`).

## Model

| member | source | states |
|---|---|---|
| `OpLog.ReplayAt` | cloud/sync_contacts.go:319-330 | what replaying a log leaves at one alias is its last decisive op, wherever it stands |
| `OpLog.ReplayOverlap` | cloud/sync_contacts.go:108-123 | a store that already holds a stretch of the log may be fed that stretch again |
| `OpLog.GapRepairSound` | cloud/sync_contacts.go:291-317 | local ops first, then the raced ops skipping touched aliases, equals sequence order, for every store, gap and deciding batch |
| `OpLog.GapRepairExact` | cloud/sync_contacts.go:291-317 | it holds for every store and gap exactly for batches that decide each id they touch |
| `OpLog.DiffReplays` | cloud/sync_contacts.go:226-250 | replaying the diff over the shadow gives exactly the local set, with at most one op per alias |
| `OpLog.DiffEmptyIff` | cloud/sync_contacts.go:226-250 | the diff is empty exactly when nothing differs |
| `OpLog.DiffUnique` | cloud/sync_contacts.go:247-249 | sorted by id, the diff is one sequence, whatever order maps were walked in |
| `ContactsDiff.DiffContacts` | cloud/sync_contacts.go:226-250 | the loops compute that diff for distinct local aliases |
| `OpLog.ContactsByID` | cloud/sync_contacts.go:264-270 | the loop builds the map in which a later duplicate wins |
| `ContactsDiff.ContactsSorted` | cloud/sync_contacts.go:272-279 | the result lists exactly the map's contacts, once each, in alias order |
| `OpLog.ApplyGapOps` | cloud/sync_contacts.go:291-301 | the loop replays exactly the ops below the first own sequence number, skipping touched aliases |
| `ContactsSync.StepKeeps` | cloud/sync_contacts.go:44-185 | every clean step of a device, edits of its store at any point of a pass included, keeps the server's and its own invariant |
| `ContactsSync.DeviceFrame` | cloud/sync_contacts.go:44-185 | steps of other devices keep a device's invariant, at any point of its pass |
| `ContactsSync.PassReplaysHistory` | cloud/sync_contacts.go:44-185 | in every clean run of N devices, after each successful pass the shadow equals the replay of the full log through the recorded position, whichever paths ran, and so does the store unless edited since it was saved |
| `ContactsSync.DevicesConverge` | cloud/sync_contacts.go:44-185 | two successful passes that end at the same position agree |
| `ContactsSync.CompactionPreservesMeaning` | cloud/sync_contacts.go:175-219 | in every reachable state snapshot plus retained tail replay to the untruncated history |
| `ContactsSync.CatchUp` | cloud/sync_contacts.go:86-123 | pulling from a position behind the base still ends at the meaning of the log |
| `ContactsSync.UndisturbedIsClean` | cloud/sync_contacts.go:86-164 | as long as no one else compacts after the state fetch, everything a pass reads is whole |
| `ContactsExact.PullExact` | cloud/sync_contacts.go:108-123 | for every combination of sequence numbers: the pulled base is the meaning at the new position for every log with those numbers exactly when the pull is whole |
| `ContactsExact.RepairExact` | cloud/sync_contacts.go:145-162 | likewise for the race repair: right for every log exactly when there is no gap or none of it has been truncated |
| `ContactsExact.ResumeExact` | cloud/runsync.go:268-272 | a shadow resumed from a position catches up with every history exactly when the position is not ahead of it |
| `ContactsExact.ResumeWithoutShadowExact` | cloud/sync_contacts.go:83-106 | a device without shadow may start from a position, whatever the server holds, exactly when it is at the start of the log or a snapshot is bound to be downloaded |
| `ContactsExact.FallBehindExact` | cloud/sync_contacts.go:109-173 | after a crash between saving the shadow and returning, the next pass catches up with every later log exactly when the pull did not end behind the position persisted before |
| `ContactsEdits.SavedValue` | cloud/sync_contacts.go:166-173 | what a pass saves at each alias: its batch's value, else the log's; never what the store holds by then |
| `ContactsEdits.EditLostExact` | cloud/sync_contacts.go:45-173 | in every clean run, whatever an edit set at an alias is lost by the next save in exactly three cases: made between that pass's load and its save, and the pass does not bring the same value; a deletion that a pass without shadow cannot see, of a contact the log holds; a return to the shadow's value, from which the log has moved on |
| `ContactsEdits.ShadowTraced` | cloud/sync_contacts.go:332-348 | up to the next save a device's shadow is the one of the time of the edit, or the one then being saved, or none once it was removed since |
| `ContactsEdits.EditForgotten` | cloud/sync_contacts.go:45-173 | an edit in that window could have been any other, with the same states from the save on |
| `ContactsAgree.ListsAgree` | cloud/sync_contacts.go:44-185 | in every clean run of N devices: once nothing is edited any more and every device has completed a pass and then another that no compaction overtook, all hold the same contacts, the whole log replayed, and go on doing so |
| `ContactsQuiet.SoloPassCatchesUp` | cloud/sync_contacts.go:44-185 | an undisturbed pass appends exactly the device's diff and leaves store, shadow and position at the head |
| `ContactsQuiet.FreshDeviceBootstraps` | cloud/sync_contacts.go:86-123 | a fresh device bootstrapping from snapshot and tail gets what replaying every op ever appended gives |
| `ContactsQuiet.RepeatedPassIsIdle` | cloud/sync_contacts.go:73-81 | repeated with nothing changed, a pass emits no op, takes the idle path and changes nothing |
| `ContactsQuiet.QuietExact` | cloud/sync_contacts.go:73-93 | with nothing new on either side a pass emits no op and downloads nothing, and is idle exactly when no newer snapshot version was left behind |
| `ContactsQuiet.StillPassIsSolo` | cloud/sync_contacts.go:44-185 | a successful trail of the code that nothing disturbs ends in the server and the device of the undisturbed pass the four lemmas above are about |
| `ContactsHazards.ErrorReturnLosesContact` | cloud/runsync.go:268-272 | for every contact there is a run in which an error return loses it for good |
| `ContactsHazards.ForeignCompactionLosesContact` | cloud/sync_contacts.go:86-93 | for every two contacts there is a run in which a foreign compaction loses one for good |
| `ContactsHazards.EditDuringPassIsLost` | cloud/sync_contacts.go:45-173 | for every contact there is a run in which adding it during a pass leaves it in neither store, shadow nor log |
| `ContactsHazards.DeletionBeforeResetIsUndone` | cloud/sync_contacts.go:332-348 | for every contact there is a run in which its deletion, made outside any pass, is undone because the shadow was removed |
| `ContactsHazards.DeletionWithoutShadowIsUndone` | cloud/sync_contacts.go:83-123 | likewise for its deletion made outside any pass while there is no shadow |
| `ContactsClient.OpLogServer.AppendOps` | cloud/ops.go:27-46 | an append gets one contiguous range right after the head |
| `ContactsClient.OpLogServer.CompactOps` | cloud/ops.go:85-104 | snapshot and truncation together, only at the expected version |
| `ContactsTrail.TrailKeeps` | cloud/sync_contacts.go:44-185 | a pass whose stages read nothing overtaken keeps the protocol's invariant, whatever the others and the user do in between |
| `ContactsTrail.QuietTrail` | cloud/sync_contacts.go:44-185 | while the others do not compact, every stage of every pass is clean |
| `ContactsTrail.CleanSuccess` | cloud/sync_contacts.go:44-185 | a clean pass that succeeds leaves shadow, and store unless edited since, equal to the replay through the position |
| `ContactsTrail.QuietVersion` | cloud/sync_contacts.go:175-219 | a pass that succeeds while the others do not compact records the snapshot version the server then has, its own compaction included |
| `ContactsClient.ContactsClient.Rebase` | cloud/sync_contacts.go:83-107 | the base stage of the protocol, at the server the download met; it fails only by a download that was due, and then nothing moves |
| `ContactsClient.ContactsClient.PullRemote` | cloud/sync_contacts.go:109-123 | the pull stage, at the server the fetch met: ops applied in order, the position following each |
| `ContactsClient.ContactsClient.PushLocal` | cloud/sync_contacts.go:125-164 | the push and repair stages, each at the server its call met |
| `ContactsClient.ContactsClient.Save` | cloud/sync_contacts.go:166-173 | the two file writes, either of which may fail and stop the pass there |
| `ContactsClient.ContactsClient.CompactContacts` | cloud/sync_contacts.go:175-219 | the compaction stage, tried only past the threshold; a successful one moves the position to the new version, a lost race is no error and leaves it |
| `ContactsClient.ContactsClient.SyncContactsOps` | cloud/sync_contacts.go:44-185 | files, position and server end exactly where a legal trail of stages leads, each at the server its call met, stopping only at a due call that failed; the reported action says whether anything was pushed and whether anything was downloaded or pulled; clean trails, and all trails without foreign compaction, end in the replay of the log, the latter at the server's own snapshot version; undisturbed, it does not fail and does what the quiet lemmas say |
| `MergedBlob.SyncMergedBlob` | cloud/envelope.go:47-90 | the first attempt that loses no race decides: success returns exactly the join of the original and of the blob that attempt met; a blob that already holds it all is left with its version, any other is written once, untouched since its read; the server never decreases; a merge error is one of the value folded so far with that blob; five attempts at most |
| `MergedBlob.CommitsKept` | cloud/envelope.go:47-62 | every contribution is below the result of any sequence of commits |
| `MergedBlob.CommitsLeast` | cloud/envelope.go:47-62 | nothing else is in it |
| `MergedBlob.CommitOrderIrrelevant` | cloud/envelope.go:47-62 | the same contributions in any order and number give the same result |
| `Groups.CanonicalIgnoresMemberOrder` | groups/merge.go:85-89 | permuting members does not change canonical content |
| `GroupWinners.CanonicalExact` | groups/merge.go:85-89 | for names without NUL and non-empty member ids without commas, two groups have one canonical form exactly when they have one name and the same members |
| `GroupWinners.WinsOverExact` | groups/merge.go:72-89 | the later copy wins; of two of one time the one with the greater name; of two of one name the one with the greater list of members |
| `Groups.MergeIsJoin` | groups/merge.go:16-83 | the view of a merge is the join of the views: latest stamp per id, tombstones united and masking |
| `Groups.ViewsFormSemilattice` | groups/merge.go:16-83 | that join is commutative, associative and idempotent |
| `Groups.GroupMergeConvergent` | groups/merge.go:16-70 | MergeGroups meets the contract SyncMergedBlob asks of its merge |
| `Groups.TreeKeepsLeaves` | groups/merge.go:16-70 | however merges are nested, the outcome is above each input |
| `Groups.TreesConverge` | groups/merge.go:16-70 | merge trees over the same inputs agree in view |
| `Groups.TombstonesStick` | groups/merge.go:28-45 | an id tombstoned in any input is absent from every later merge tree and still tombstoned |
| `Groups.MergedContents` | groups/merge.go:52-70 | the output lists each surviving group once, sorted by name then id, and the sorted union of tombstones |
| `GroupWinners.MergeKeepsNewest` | groups/merge.go:16-83 | a merge keeps one copy of every id that neither side has deleted, and no other copy among the inputs wins over it, by time, name and members |
| `GroupWinners.MergeOrdersAgree` | groups/merge.go:16-89 | both merge orders keep each group with the same time, name and members |
| `GroupWinners.TiesKeepFirst` | groups/merge.go:28-45 | of two copies that tie although they differ, the first side's is the one kept |
| `Groups.MergeCommutesIff` | groups/merge.go:72-83 | merging commutes on bytes exactly when no id has tied, differing copies |
| `Groups.PermutedMembersDoNotCommute` | groups/merge.go:72-89 | any group and any reordering of its members is such a tie |
| `Groups.MergeGroups` | groups/merge.go:16-70 | the loops over maps and slices compute that merge |
| `Reseal.HasDataExact` | cloud/rekey.go:21-58 | the guard fires exactly for guarded resources whose source decodes to nothing |
| `Reseal.ResealBlob` | cloud/rekey.go:144-178 | the first attempt that does not run into a conflict decides, and ends exactly as the guard, the version it goes by, the blob its write met and the failing call say; a guarded entry-free plaintext is never written over an existing blob; left alone it fails exactly when the guard stops it |
| `Reseal.ResealContacts` | cloud/rekey.go:180-233 | the first attempt that loses no race compacts the server it meets through the head it had itself read, past the guard; every other end leaves position and shadow alone |
| `Reseal.UndisturbedReseals` | cloud/rekey.go:180-233 | left alone, the first attempt stops at the guard or compacts all it had read, and the position follows |
| `Reseal.NothingAboveHeadDropped` | cloud/rekey.go:205-219 | every op above that head is still fetched afterwards |
| `Reseal.EmptyListDropsNothing` | cloud/rekey.go:192-200 | re-sealing an empty list drops no op at all |
| `Reseal.ResealExact` | cloud/rekey.go:201-219 | what a fresh device sees is unchanged, whatever was appended since the head was read, exactly when the list is what was to be seen at that head |
| `Reseal.StaleListDropsContact` | cloud/rekey.go:198-212 | every nonempty list passes the guard, and every contact it lacks is dropped |
| `Roaming.WritesWithinOwed` | cloud/sync.go:183-248 | in every run without edits a device writes at most what it owed at the start |
| `Roaming.PushesAtMostOnce` | cloud/sync.go:183-248 | each device pushes at most once more unless an edit overtook a push in flight; a settled, pull-only device never does |
| `Roaming.OvertakenDigestPushesTwice` | cloud/sync.go:184-190 | from every state with such a push there is a run with two |
| `Roaming.GoesQuiet` | cloud/sync.go:171-248 | in every run of N devices without edits all but N(2N+1) passes, plus one per failed call, are up to date, old-format blobs included |
| `Roaming.UpToDateHoldsBlob` | cloud/sync.go:206-248 | with a non-destructive merge and edits that only add, sets only grow and an up-to-date device holds everything in the blob |
| `Roaming.OldFormatPushNotRetried` | cloud/sync.go:213-219 | after a failed push following an old-format pull the device plans nothing while the blob stays old |
| `RoamingEdits.EditDuringPullIsSwallowed` | cloud/sync.go:230-236 | an edit during a pull-only pass is recorded as synced and never uploaded |
| `RoamingEdits.EditBackDuringRetryIsSwallowed` | cloud/identities.go:61-74 | an edit back to the digested set between the refused write and its retry: the other set's bytes go up under this set's digest, and the device takes itself to be up to date |
| `RoamingEdits.EditBackAfterPushIsSwallowed` | cloud/sync.go:184-248 | after a push whose digest an edit overtook, an edit back to the digested set at any later time: the blob holds the other set, and the device takes itself to be up to date |
| `RoamingEdits.EditKeptExact` | cloud/sync.go:183-253 | for every edit, whatever device and others do: a device with nothing left to push has uploaded its set since, or has the set its record stands for, exactly when the edit was not made in a pull-only pass, over a stale retry or over a misrecorded digest; otherwise it can be lost for good |
| `RoamingEdits.EditKeptInRuns` | cloud/sync.go:183-253 | the same promise over every run of N devices, the others edited freely |
| `RoamingEdits.EditReachesBlob` | cloud/sync.go:183-253 | and where merging only adds, after an edit outside a pull-only pass that no merge takes back to a recorded set, any such device has put a set into the blob that holds everything it had after the edit |
| `Roaming.PushRetriedExact` | cloud/sync.go:189-248 | after a failed push the next pass writes exactly when the set is not the recorded one or an old-format blob has a version not yet recorded |
| `RoamingClient.RoamingDevice.Push` | cloud/identities.go:63-77 | one export, a fresh write, then one retry of the same bytes at the reported version, each at the blob its call met; success leaves blob, version and digest describing the local set |
| `RoamingClient.RoamingDevice.PullBlob` | cloud/identities.go:90-106 | what a pull merges and records is the model's step, at the blob the call met |
| `RoamingClient.RoamingDevice.SyncIdentities` | cloud/sync.go:183-248 | every call of a pass is a step of the model at the blob that call met; up to date exactly when neither side moved, failed exactly when the last call failed or was a refused retry; a pull-only pass writes nothing, a pushing one exactly once; pushed-new, synced and pushed are told apart by the blob being absent and by an import |
| `SignedMessages.FramesInjective` | crypto/sigmsg.go:41-48 | length-framed field lists with equal bytes are equal |
| `SignedMessages.SignedBytesIdentifyMessage` | bundle/authbundle.go:25-74 | container, lock, revocation and rotation messages have equal bytes exactly when they are of one kind and agree in every bound field, the lock inside a rotation included |
| `SignedMessages.ContainerBytes` | crypto/sigmsg.go:15-39 | byte by byte what a container signature covers |
| `SignedMessages.LockBytes` | qr/authlock.go:56-64 | likewise a lock's self-signature |
| `SignedMessages.RevocationBytes` | bundle/authbundle.go:51-60 | a revocation's |
| `SignedMessages.RotationBytes` | bundle/authbundle.go:62-74 | and a rotation's, which covers the new lock's own message and its signature |
| `SignedMessages.SignedMessage` | crypto/sigmsg.go:15-39 | the buffer built field by field is the canonical container message |
| `SignedMessages.CanonicalRotationBytes` | bundle/authbundle.go:65-74 | the buffer with the nested lock is the canonical rotation message |
| `Continuity.FindByID` | contacts/contact.go:100-107 | the first contact with the id, none exactly when there is none |
| `Continuity.FindDuplicate` | contacts/contact.go:111-124 | the first contact with the alias or the email, an empty one matching nothing |
| `Continuity.HandleEvolves` | cloud/discovery.go:175-319 | one inbox item leaves a contact's fingerprint and history alone or retires its key under a bundle signed by that key and naming it, the new lock being signed by its own |
| `Continuity.PreviousKeysGrow` | bundle/import.go:147-187 | over every run of items each contact's previous keys only grow at the end |
| `Continuity.ChainOfCustody` | bundle/authbundle.go:122-198 | every key retired in a run was retired by one item signed under it, naming its fingerprint and installing the key that came next |
| `Continuity.NewKeyNeedsOldKey` | cloud/discovery.go:287-319 | a contact's fingerprint changes only by such an item, with the old key appended to its history |
| `Continuity.RevocationIsFinal` | bundle/import.go:175-187 | a revoked contact is never touched again |
| `Continuity.BecomesCurrentExact` | contacts/lock.go:63-103 | a fingerprint no contact goes by becomes current exactly by a valid self-signed accept of it or a verified rotation to it |
| `Continuity.CurrentWasBrought` | cloud/discovery.go:175-319 | over every run, a fingerprint current at the end and not at the start was brought by one such item |
| `Continuity.RevokedKeyReturns` | contacts/lock.go:63-103 | after a verified revocation, any valid self-signed accept of the revoked lock makes its key current again under a new contact without history |
| `Continuity.StrangersAreRejected` | bundle/authbundle.go:122-185 | a bundle no key on record verifies changes nothing |
| `InboxEffects.BundleEffect` | bundle/import.go:60-187 | a rotation or revocation changes exactly the first contact it speaks of, if it convinces under that contact's key: key, history, alias and email follow the lock field by field, or the key goes; it is rejected or ignored exactly when malformed or unconvincing, or speaking of no one |
| `InboxEffects.AcceptEffect` | contacts/lock.go:18-103 | a valid self-signed accept is saved over the first contact with its fingerprint, keeping the history, or as a new one with a marked alias on a clash; any other changes nothing |
| `InboxEffects.ItemEffect` | cloud/discovery.go:175-319 | so for every kind of inbox item; requests and unreadable items change nothing |
| `Inbox.DrainIsRun` | cloud/discovery.go:175-254 | what a drain does, wherever it stops, is a run, so everything proved of runs holds of drains |
| `Inbox.StopsExact` | cloud/discovery.go:175-254 | the drain stops at an item exactly when that blocks or one of the calls it makes for it fails; the item has its effect exactly when none of the calls up to the save is among those |
| `Inbox.Client.ApplyBundleToContacts` | cloud/discovery.go:287-319 | load, verify, change, save: the store gets the specified list, or nothing exactly when the load, or a save that was due, fails |
| `Inbox.NamelessAcceptBlocks` | validate/lock.go:11-23 | any self-signed lock stripped of its name still verifies and is refused by SaveFromLock |
| `Inbox.DrainCompletesExact` | cloud/discovery.go:205-229 | a drain in which no call fails handles every item exactly when no self-signed accept carries refused labels |
| `Inbox.BlockedForever` | cloud/discovery.go:217-219 | such an accept and everything behind it are there, unhandled, at every later drain, whatever arrives and whatever calls fail |
| `Inbox.TallyAddsUp` | cloud/discovery.go:150-160 | every item got past is counted once, and those counted as waiting or skipped are those that stay |
| `Inbox.TallyCounts` | cloud/discovery.go:256-270 | each entry of the report is the number of items that met that fate |
| `Inbox.Client.DrainPending` | cloud/discovery.go:175-270 | it stops at the first item that blocks or at which a call it makes fails; items before it are handled in order and, if acknowledged, gone; it and all behind it stay; the report tallies what it got past |
| `Icfx.PrefixParses` | format/icfx.go:240-259 | the prefix parser accepts exactly the seven bytes of a known profile and a 16-bit length |
| `Icfx.LengthGuardExact` | format/icfx.go:320-328 | the signed 64-bit guard passes exactly for payload lengths whose end fits in an int64 |
| `Icfx.ParseComplete` | format/icfx.go:273-345 | every laid-out container parses to its own header and locates its own payload |
| `Icfx.ParseSound` | format/icfx.go:273-345 | whatever parses is laid out that way, every field where the header says |
| `Icfx.ParseRefusals` | format/icfx.go:240-345 | what is wrong with a stream, for each error it can be refused with |
| `Icfx.ShortReadIsCutShort` | format/icfx.go:294-345 | a stream called too short does end before the prefix, header, length, payload or signature its own lengths announce |
| `Icfx.ParseStreamHeader` | format/icfx.go:294-345 | reading and seeking piece by piece gives the same result |
| `Icfx.ZeroMetaLen` | format/icfx.go:261-271 | overwrites the two length bytes in place and nothing else |
| `Icfx.StripHeader` | sharing/sharing.go:106-124 | the stream that is shared is the specified strip |
| `Icfx.StripSizeExact` | sharing/sharing.go:122-124 | the declared size is the stream's exactly when the header block is all there |
| `Icfx.TruncatedSizeWrong` | sharing/sharing.go:110-124 | every file cut inside its header block is accepted with a size short by what is missing |
| `Icfx.StripKeepsContainer` | sharing/sharing.go:106-124 | stripping keeps profile, payload and signature and drops only the header block |
| `Icfx.StripIdempotent` | sharing/sharing.go:106-124 | stripping twice is stripping once |
| `Icfx.PayloadRoundTrip` | format/icfx.go:205-238 | the sealed metadata and the file come back from the payload |
| `Icfx.PayloadExact` | format/icfx.go:205-238 | a payload opens to metadata and file exactly when it is laid out as their encoding |
| `Icfx.DeserializeSound` | format/icfx.go:145-203 | whatever the buffered reader accepts is laid out field by field as it says, with 32-bit payload lengths |
| `Icfx.DeserializeComplete` | format/icfx.go:145-203 | and whatever is so laid out it reads back |
| `Icfx.DeserializeRefusals` | format/icfx.go:145-203 | likewise what is wrong with a buffered container, for each error |
| `Verdict.SearchComplete` | decrypt/decrypt.go:107-162 | the search over current, retired and own keys finds one exactly when some key on record accepts, and sees a usable one exactly when there is one |
| `Verdict.VerifySignature` | decrypt/decrypt.go:115-162 | the nested loops with their resolved flag compute that search, in that order |
| `Verdict.VerifiedMeans` | decrypt/decrypt.go:129-155 | a verified signature is put down to the first contact whose current key accepts it, else to the first retired key that does, flagged with its contact and date, else to ourselves |
| `Verdict.StatusExact` | decrypt/decrypt.go:115-162 | verified exactly when a current, retired or own key under the fingerprint accepts; unknown exactly when none there decodes |
| `Verdict.EqualFoldExact` | decrypt/decrypt.go:131-131 | fingerprints are equal exactly when they are the same hexadecimal number, digit by digit |
| `Verdict.FingerprintExact` | validate/fingerprint.go:12-23 | a fingerprint is 32 hexadecimal characters, of either case |
| `Verdict.VerdictExact` | decrypt/stream.go:95-133 | verified, unknown signer and unsigned, each with an exact condition |
| `Containers.EncryptStream` | encrypt/stream.go:37-164 | chunk by chunk, the container written is that of the whole plaintext |
| `Containers.DecryptContainerStream` | decrypt/stream.go:61-93 | the ciphertext digest covers the whole payload however much of it age consumed |
| `Containers.ContainerRoundTrip` | encrypt/stream.go:37-164 | every recipient gets exactly the plaintext; unsigned reads unsigned, signed reads verified when the signer's key is on record, unknown when none usable is |
| `Containers.LegacyNeverVerifies` | decrypt/stream.go:135-203 | a legacy container reads as unsigned or failed, never verified |
| `Containers.LegacyExact` | decrypt/stream.go:135-207 | a legacy container gives exactly the file its payload holds, streamed or buffered, and is unsigned exactly when neither metadata nor wire speaks of a signature |
| `Containers.VerifiedExactly` | decrypt/stream.go:36-133 | any file reads as verified exactly when it is current, consistently framed, and a key on record under the sealed fingerprint accepts profile, plaintext and ciphertext |
| `Containers.StripKeepsMeaning` | sharing/sharing.go:106-124 | stripping any current container keeps the plaintext, and the verdict unless its header contradicted the sealed copy, when it had failed |
| `Containers.StripWrittenContainer` | sharing/sharing.go:106-124 | for a written container the strip is invisible to its readers and its size is exact |
| `QrFrames.AddValid` | qr/frames.go:130-176 | Add keeps the collector consistent and a rejected frame leaves it unchanged |
| `QrFrames.AddExact` | qr/frames.go:130-176 | a payload is accepted exactly when it is well-formed and, if of the bundle being collected, consistent with it; another bundle starts the collection anew |
| `QrFrames.RejectExact` | qr/frames.go:130-172 | each error with the condition under which it is the one reported |
| `QrFrames.CompleteHasEveryIndex` | qr/frames.go:178-183 | counting to the total means holding every index from 1 to it |
| `QrFrames.HoldsAcceptedChunks` | qr/frames.go:127-176 | after any calls the collector holds exactly the accepted chunks since the bundle id last changed |
| `QrFrames.AnyOrderReassembles` | qr/frames.go:64-213 | scans of a lock's frames in any order and number, with rubbish between them, are complete exactly when each frame was seen, and then give back the lock |
| `QrFrames.MarshalAnimatedQR` | qr/frames.go:64-102 | the frames are the consecutive chunks of the lock, numbered from 1, under one id |
| `QrFrames.FrameCollector.Add` | qr/frames.go:130-176 | the fields after the call are the specified state, with the same result |
| `QrFrames.FrameCollector.IsComplete` | qr/frames.go:178-183 | true exactly when every index from 1 to a positive total is held |
| `QrFrames.FrameCollector.Reassemble` | qr/frames.go:185-213 | the chunks are joined in index order and parsed, only when complete |
| `QrFrames.FrameCollector.Reset` | qr/frames.go:215-226 | back to the empty collector |
| `Base64.Base64RoundTrip` | format/armor.go:59-59 | standard base64 decodes to what was encoded |
| `Base64.EncodeExact` | format/armor.go:59-59 | each group of characters spells out its bytes six bits at a time, padded at the end |
| `Base64.StrayStringFails` | format/armor.go:146-150 | a character outside the alphabet, line breaks aside, makes decoding fail |
| `Armor.ArmorRoundTripExact` | format/armor.go:43-153 | decoding undoes encoding for every payload, newline-free label and plain headers, exactly when no key is empty |
| `Armor.ReencodeExact` | format/armor.go:43-185 | for every text that decodes, encoding and decoding again changes nothing exactly when it had no empty header key |
| `ArmorTexts.ArmorTextExact` | format/armor.go:43-72 | the text written: BEGIN line, headers in the order of their keys and a blank line if there are any, base64 in lines of 76 characters, END line |
| `ArmorTexts.DecodeExact` | format/armor.go:103-153 | a text decodes exactly when its first and last lines frame it with one label and what they frame, headers aside, is base64; label, headers and payload are those |
| `ArmorTexts.RefusalExact` | format/armor.go:103-153 | each error with the condition under which it is the one reported |
| `ArmorTexts.HeaderCountExact` | format/armor.go:125-185 | the body has headers exactly when lines with a colon after 1 to 64 bytes come first and a blank line follows them |
| `ArmorTexts.GatherExact` | format/armor.go:130-142 | a header has the value of the last line with its key |
| `ArmorTexts.TrimSpaceExact` | format/armor.go:104-104 | trimming takes the spaces off both ends and nothing else |
| `Armor.EmptyKeyAccepted` | format/armor.go:129-144 | every such text with a blank before the colon decodes to an empty key and cannot be written back |
| `Armor.Base64IsNotHeaders` | format/armor.go:129-185 | base64 lines, blank lines among them, are never taken for headers |
| `Armor.LabelInBounds` | format/armor.go:114-118 | prefix and suffix of an accepted BEGIN line never overlap |
| `Armor.CrlfTolerated` | format/armor.go:104-104 | CRLF line ends decode to the same result |
| `Armor.ArmorEncodeWithHeaders` | format/armor.go:43-72 | the buffer written by the loops is the specified text, headers in sorted order, 76 characters a line |
| `Armor.ArmorDecodeWithHeaders` | format/armor.go:103-185 | the loops compute the specified result, every error included |
| `Chalresp.YubikeyCRC16` | hardware/chalresp/chalresp_hid.go:333-348 | the shift-and-xor loop computes the register the lemmas are about |
| `Chalresp.PolynomialIs8408` | hardware/chalresp/chalresp_hid.go:343-343 | the feedback taps are the bits of 0x8408 |
| `Chalresp.UniqueValidSuffix` | hardware/chalresp/chalresp_hid.go:333-350 | data and two bytes leave 0xF0B8 exactly when they are the complement of its checksum, low byte first |
| `Chalresp.SingleByteDetected` | hardware/chalresp/chalresp_hid.go:335-350 | changing any one byte changes the checksum |
| `Chalresp.BurstDetected` | hardware/chalresp/chalresp_hid.go:335-350 | so does any change confined to two adjacent bytes |
| `ChalrespFrames.PadRoundTrip` | hardware/chalresp/chalresp_hid.go:300-317 | a variable-length slot recovers the challenge exactly when it is shorter than 64 bytes |
| `ChalrespFrames.PadChallenge` | hardware/chalresp/chalresp_hid.go:304-317 | the array filled in place is the padded challenge |
| `ChalrespFrames.BuildFrame` | hardware/chalresp/chalresp_hid.go:319-331 | the array filled in place is payload, slot, checksum low byte first, three zeros |
| `ChalrespFrames.FrameBytesExact` | hardware/chalresp/chalresp_hid.go:304-331 | which bytes of a frame are challenge, slot and the checksum of the 64 bytes before it, low byte first |
| `ChalrespFrames.FrameInjective` | hardware/chalresp/chalresp_hid.go:319-331 | frames of challenges shorter than 64 bytes determine challenge and slot |
| `ChalrespFrames.FrameChecksum` | hardware/chalresp/chalresp_hid.go:319-334 | the frame's checksum field is the one suffix that clears the register |
| `ChalrespFrames.SkipExact` | hardware/chalresp/chalresp_hid.go:354-376 | leaving records out gives the device the frame exactly when all of them are zero |
| `ChalrespFrames.SentExact` | hardware/chalresp/chalresp_hid.go:354-376 | the first and the last record go out, and those with a byte that is not zero |
| `ChalrespFrames.SentRecordsSuffice` | hardware/chalresp/chalresp_hid.go:354-376 | the records that are sent reassemble, over a zero buffer, to the same frame as all ten |
| `ChalrespFrames.SendFrame` | hardware/chalresp/chalresp_hid.go:354-376 | it succeeds exactly when the device accepts each record due, and then the device holds the frame |
| `ChalrespFrames.AlteredResponseRefused` | hardware/chalresp/chalresp_hid.go:433-440 | a response with any one of its 22 bytes altered is refused |
| `ChalrespFrames.ReadResponse` | hardware/chalresp/chalresp_hid.go:401-451 | it succeeds exactly when the response ends within the frame and carries 20 bytes and the complement of their checksum, which it returns; the read limit is never reached |

## Left out

- HTTP, sessions, events, billing, directory, share transfer, webauthn and fido2: calls into other systems with little logic of their own.
- age, ML-DSA-65, SHA-2, HKDF, Argon2, memguard and JSON: parameters, with the assumptions listed above.
- `FetchOpsSince` paging: a fetch is one read of the log; the page loop's growing slices are not modelled.
- A pull that stops at an op it cannot decrypt: the position it has reached by then is a further case of the first item above.
- Edits of the identity set during SyncIdentities: `Roaming` has them at every point, the method does not.
- RekeySelfLock and the settings gate: orchestration of the two re-seals, which are modelled; a re-seal is not a step of the contacts runs, whose snapshots it may replace.
- A write that lands although its response is lost: a failed call leaves the server as it was.
- MergeNotifications and NotificationStore.Sync: caps and first-non-empty rules break the lattice laws, so only weak projections would hold.
- Convergence of the identities blob: pushes replace it whole and pull-only passes do not push back, so only quiescence is claimed.
- The second SyncIdentities call of a run whose encryption key had to be re-established: it reuses the first call's state fetch.
- SyncResource and SyncSettingsGated: last-writer-wins on opaque bytes.
- Git signatures: they sign raw commit content without a canonical tag, so domain separation does not cover them.
- Alias uniqueness in the contact store: update paths refresh aliases without a clash check, so it is a precondition of contacts sync.
- The alias SaveFromLock picks and the text of short fingerprints: functions passed in.
- Armored text that is not valid UTF-8, and IsArmored.
- Profile import, config, keystores, OS keychains, QR rendering, GIF decoding, device polling, deadlines and back-off: files, platforms and timing.
