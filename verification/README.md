# AltSendme in Dafny

A model of the parts of AltSendme whose correctness is not visible from one function: the
share session that decides when a transfer is complete, the ZIP writer of the browser
fallback, device pairing and the allowlist it feeds, landing received files on disk, entry
names, control-message framing, and the node's secret across restarts.

| file | models |
|---|---|
| `Wrappers.dfy` | Option, Result and the small numeric functions the other files share |
| `ByteAccounting.dfy` | per-request byte accounting, progress and the 95% test of the share session |
| `ShareSession.dfy` | the share session as a step system: any number of request tasks, one step per lock region or atomic operation |
| `SoloSession.dfy` | a session that serves one request and nothing else: its whole state and all its events as a function of the updates |
| `Bits.dfy`, `Crc32.dfy` | 32-bit words as bits; the CRC table and loop against the bit-serial register of section 8 of RFC 1952 |
| `ZipArchive.dfy` | the store-only ZIP writer, and a reader that follows sections 4.3.16, 4.3.12 and 4.3.7 of the PKWARE APPNOTE and accepts no gap |
| `PairedDevices.dfy` | the paired-device list, the allowlist beside it, and the handlers that change both |
| `Pairing.dfy` | the host's message loop and the two-party handshake |
| `ConnectTasks.dfy` | the connect loops per device and their reconnect delays |
| `FileLanding.dfy` | conflict names (native and browser) and the export of a collection |
| `Names.dfy`, `PathNames.dfy` | de-duplication of entry names; printing and parsing of entry paths |
| `ControlFraming.dfy` | length-prefixed control messages |
| `IdentityStore.dfy` | identity file, keychain and environment override across crashes |

Where the code changes things in place the model has a class or a loop, proved against a
function; the theorems are about that function and hold for every input or every run.

## What the proofs show about the code

- The tail branch of a request task (a channel that ends without Completed) never removes
  its transfer state, so the check for active transfers always finds the task's own entry:
  with distinct request keys it can never emit `transfer-completed`
  (`TailNeverEmits`). Every emission from a task stands for a request that ended with
  Completed and whose payload blobs pass the 95% test (`EmissionMeansDelivery`).
- A payload request whose channel ends before its first update is never resolved, and from
  then on `completed < active` for good (`UnstartedRequestBlocks`); the session's own
  emission at the end needs every payload request to have started (`FinalVerdict`).
- An abort counts as a completion (`CountersExact`). A session whose only request is aborted emits
  `transfer-failed` at once and `transfer-completed` when it ends (`SoloSessionEvents`).
- The saturating 95% test is the exact inequality up to a total of 194176253407468965 bytes
  and for no larger total (`PayloadCompleteExact`).
- A metadata blob that starts again in mid-transfer drops the bytes counted before it
  (`MetadataRestartDropsBytes`). The bytes judged at Completed are the clamped payload sum exactly
  when no payload blob follows a metadata blob that follows a non-empty payload blob, or when what is
  counted reaches the total anyway (`AccountedIsSumIff`). Progress is shown only at Progress updates, so
  a restart sets it back exactly when such an update after it has received less than one before it
  had shown (`ShownMonotoneIff`; `RestartSetsBack` shows 50 and then 10, `RestartMayNotShow` rises
  across a restart).
- The ZIP writer checks no field width: its output reads back exactly when the archive fits
  them (`RoundTrip`).
- `dedup_name` does not record the names it makes up, so outputs are distinct exactly when no
  input name is one of them (`DistinctIff`; `ClashExists` is a clash of three names, and no two names clash).
- The browser resolver sees files only, the native one also subdirectories. The name the browser
  settles on is the native one exactly when no subdirectory carries it; otherwise creating the file
  fails where native export would rename (`ResolversAgree`, `SubdirectoryStopsBrowser`). The browser
  also tries the plain name in its first turn, so it stops one number short.
- `forget_paired` removes from the list by spelling and from the allowlist by parsing; the two
  stay equal exactly when the text means the same device both ways (`ForgetPairedExact`).
  A text that only spells the id leaves the device allowed (`ForgetLeavesAllowed`), one that only
  parses to it leaves the device listed (`ForgetLeavesListed`).
- A host stores the id text of the PairingInfo but allows the id of the connection. The two records
  stay in step exactly when the stored text parses to the connection's id, or both ids were allowed
  already (`HostPairedInStep`; `HostPairedAsAnother` is a peer for which they part).
- A received Forget is looked up by the printed id, so a peer that joined under another text for its
  id stays stored and allowed after it (`ForgetReachesPrinted`), and one stored under two texts is
  allowed again by the next start (`ForgetLeavesAlias`). A Forget takes the peer off both records exactly
  when its printed id is stored and no other stored text parses to it (`ForgetTakesOff`); then it stays off
  exactly until a pairing brings it back (`GoneStaysIff`).
- A pairing takes exactly nine steps however its ends interleave (`RunsTakeNineSteps`).
- Neither end of a pairing learns whether the other accepted it: if one PairingInfo fails to verify,
  its sender may still store and allow the other (`CompleteRunExact`).
- `is_connectable` is documented as the devices that keep outbound loops, but a loop goes on only
  for `Active` devices. A device marked stale by an identity rotation therefore has a loop that
  exits at once, and pairing it again starts no other, because `refresh` sees the old handle
  (`RepairedDeviceHasNoLoop`, `ExitedStaysExited`).

## Model

| member | source | states |
|---|---|---|
| ByteAccounting.PayloadCompleteExact | engine/protocol/src/send.rs:284-290 | the saturating u64 test equals 100·sent >= 95·total for every byte count if and only if the total is at most (2^64-1)/95 + 1 |
| ByteAccounting.ReplayReflects | engine/protocol/src/send.rs:384-437 | after any trace of updates the account is the clamped total of the counted blobs and the blob offset stays within the blob |
| ByteAccounting.AccountedAtCompletion | engine/protocol/src/send.rs:502-519 | despite saturating and clamping at each step, the bytes judged at Completed are min(total, bytes counted), for every trace |
| ByteAccounting.AccountedIsBlobsDone | engine/protocol/src/send.rs:610-616 | before anything is settled, as in the tail branch, the account is min(total, bytes of the payload blobs before the one in flight) |
| ByteAccounting.CountedIsSumIff | engine/protocol/src/send.rs:411-435 | the count is the sum of all payload blobs if and only if no payload blob follows a metadata blob that follows a non-empty payload blob |
| ByteAccounting.PayloadByType | engine/protocol/src/send.rs:411-413 | in a directory or collection the payload is every blob but those of index 0; in any other share it is every blob and all of it is counted |
| ByteAccounting.AccountedIsSumIff | engine/protocol/src/send.rs:411-435 | the bytes judged at Completed are min(total, sum of all payload blobs) if and only if there is no such restart, or the count reaches the total |
| ByteAccounting.AccountedWithMetadataFirst | engine/protocol/src/send.rs:411-435 | with the metadata blob started only first, they are min(total, sum of all payload blobs) |
| ByteAccounting.MetadataRestartDropsBytes | engine/protocol/src/send.rs:427-430 | a trace on the failing side: a repeated metadata blob leaves 50 of the 100 payload bytes counted |
| ByteAccounting.ShownBounded | engine/protocol/src/send.rs:464-499 | shown progress never exceeds the total |
| ByteAccounting.ShownIsReceived | engine/protocol/src/send.rs:464-485 | after any trace the value progress stands for is min(total, bytes received): the payload blobs before the one in flight plus its furthest end offset, or the bytes counted while a metadata blob is ignored |
| ByteAccounting.ShownEach | engine/protocol/src/send.rs:464-499 | one value is shown for each Progress update, in order, the bytes received by then |
| ByteAccounting.RestartsIffDrops | engine/protocol/src/send.rs:418-430 | a trace restarts if and only if some update drops counted bytes: a payload blob right after a metadata blob |
| ByteAccounting.ShownNeverDecreases | engine/protocol/src/send.rs:464-499 | that value never goes back between any two points of a trace without a restart |
| ByteAccounting.PositionMonotoneIff | engine/protocol/src/send.rs:411-499 | read after every update, whether or not anything is shown then, it is monotone if and only if the total is zero or there is no restart |
| ByteAccounting.ShownMonotoneIff | engine/protocol/src/send.rs:464-499 | the values shown at Progress updates never go back if and only if no Progress update after a drop has received less than one before the drop had shown |
| ByteAccounting.RestartSetsBack | engine/protocol/src/send.rs:427-430 | a trace that shows 50 and then 10 |
| ByteAccounting.RestartMayNotShow | engine/protocol/src/send.rs:427-430 | a trace with a restart whose shown values rise |
| ByteAccounting.TrackRequest | engine/protocol/src/send.rs:379-520 | one request's loop shows exactly the progress of its trace, within the total and rising if and only if nothing sets it back, and ends with the counted bytes on Completed and nothing otherwise |
| ShareSession.Conservation | engine/protocol/src/send.rs:355-360 | in every interleaving active - completed is the number of received payload requests not yet resolved |
| ShareSession.ResolvedOnce | engine/protocol/src/send.rs:529-602 | a request is resolved at most once, by exactly one of decrementing active or incrementing completed |
| ShareSession.CountersExact | engine/protocol/src/send.rs:529-602 | in every run completed is the number of requests that passed the test or were aborted, and active the number of payload requests received less those judged short |
| ShareSession.TasksArrive | engine/protocol/src/send.rs:349-374 | there is one task for each request received before the provider channel ended, with its key and kind, and no other |
| ShareSession.ConnectionsShown | engine/protocol/src/send.rs:383-402 | at every moment of every run the connection count last shown is the number of requests started and not ended by Completed or Aborted |
| ShareSession.NeverUnderflows | engine/protocol/src/send.rs:535 | whenever a task is about to decrement, active is above completed, so the wrapping subtraction does not wrap |
| ShareSession.StaleReadIsQuiet | engine/protocol/src/send.rs:539-553 | an old completion count that still covers the active count read now means that nothing is unresolved now |
| ShareSession.PassedChecks | engine/protocol/src/send.rs:546-575 | wherever a task stands, the run has the ordered moments at which it passed its checks: twice all requests received by then were resolved, with no more of them the second time, then the map was empty, then the clock was not recent |
| ShareSession.Emissions | engine/protocol/src/send.rs:404-580 | transfer-completed is emitted at most once, never before transfer-started, and from a task only by a request that passed the 95% test |
| ShareSession.MapKeys | engine/protocol/src/send.rs:386-400 | with distinct request keys the map holds exactly the requests that started and were not ended by Completed or Aborted |
| ShareSession.Histories | engine/protocol/src/send.rs:415-436 | each entry of the shared map is the accounting of exactly the updates its own request applied, and a request is judged by the bytes counted from them, or by its finished blobs in the tail branch |
| ShareSession.ProgressIsReplay | engine/protocol/src/send.rs:464-499 | the step that shows progress shows the accounting of the request's own updates |
| ShareSession.ProgressOfRun | engine/protocol/src/send.rs:464-499 | over every run the progress events of a request are, in order, the values its own updates give, whatever else is interleaved |
| ShareSession.ProgressNeverGoesBack | engine/protocol/src/send.rs:464-499 | over every run the progress events of a request stay within the total, and rise if and only if its own updates contain no setback; without a restart they contain none |
| ShareSession.TailNeverEmits | engine/protocol/src/send.rs:610-668 | no task in the tail branch ever reaches the emission |
| ShareSession.EmissionMeansDelivery | engine/protocol/src/send.rs:529-581 | a transfer-completed from a task comes from a request that ended with Completed: it was judged by the bytes counted from its own updates, which an aborted request never is, and they pass the 95% test |
| ShareSession.EmissionTrail | engine/protocol/src/send.rs:550-580 | behind every transfer-completed of a task, in any run, lie all four of those moments in order, and every request unresolved at the moment of emission was received after the second counter check |
| ShareSession.FailureIsQuiet | engine/protocol/src/send.rs:588-604 | transfer-failed is emitted only by an ended request at a moment when every received request is resolved; ServesAbort says when it is |
| ShareSession.LastRequestDecides | engine/protocol/src/send.rs:502-584 | the last open request, undisturbed, emits transfer-completed if its bytes pass the test; if not, it is taken out of the count and nothing is emitted |
| ShareSession.FinalVerdict | engine/protocol/src/send.rs:680-691 | at the end the session emits exactly if no task did, completed is not zero (CountersExact says what it counts) and every payload request had started |
| ShareSession.UnstartedRequestBlocks | engine/protocol/src/send.rs:610-614 | a payload request that ends unstarted keeps completed below active in every continuation |
| SoloSession.ServesFirst | engine/protocol/src/send.rs:384-406 | the first update inserts an entry, shows the connection count, announces the transfer once and applies the update |
| SoloSession.ServesNext | engine/protocol/src/send.rs:415-499 | a later one changes the entry and, if it is Progress, shows the bytes |
| SoloSession.ServesCompletion | engine/protocol/src/send.rs:502-584 | the last open request, alone in the map, completes with enough bytes: completed is one higher and transfer-completed is emitted unless it was before; nothing else changes |
| SoloSession.ServesShortage | engine/protocol/src/send.rs:529-537 | with too few bytes active is one lower and nothing is emitted |
| SoloSession.ServesAbort | engine/protocol/src/send.rs:585-606 | aborted, it leaves completed one higher and active as it was, and transfer-failed is emitted |
| SoloSession.SoloRun | engine/protocol/src/send.rs:376-608 | after any updates of a session's only request the whole state, counters, map, flags and all events, is the stated function of the updates from its start to its end |
| SoloSession.SoloSessionEvents | engine/protocol/src/send.rs:340-691 | from the request to the end of the session exactly these events are emitted, the session's own transfer-completed if the request was aborted or passed only in the tail branch |
| Crc32.BuildTable | frontend/src/lib/web-zip.ts:6-16 | entry i is eight shifts of i |
| Crc32.Compute | frontend/src/lib/web-zip.ts:18-24 | the table-driven loop computes the checksum of the bit-serial register, for every byte sequence |
| Crc32.TableStep | frontend/src/lib/web-zip.ts:21 | one table lookup is eight clocks of the bit-serial register |
| Crc32.ShiftLinear | frontend/src/lib/web-zip.ts:10-12 | shifting distributes over XOR, for any number of shifts |
| Crc32.BurstSeen | frontend/src/lib/web-zip.ts:18-24 | two bit streams that differ only inside a window of 32 bits leave different registers |
| Crc32.ChecksumDetectsBurst | frontend/src/lib/web-zip.ts:18-24 | messages that differ only within four consecutive bytes have different checksums |
| Crc32.ChecksumDetectsByte | frontend/src/lib/web-zip.ts:18-24 | messages of equal length that differ in exactly one byte have different checksums |
| Crc32.KnownValues | frontend/src/lib/web-zip.ts:6-24 | the polynomial is 0xedb88320 and is table entry 128; no bytes sum to 0 and four bytes 0xff to 0xffffffff |
| ZipFields.WriteUint16LE | frontend/src/lib/web-zip.ts:26-28 | writes the value modulo 2^16, low byte first, and nothing else |
| ZipFields.WriteUint32LE | frontend/src/lib/web-zip.ts:30-32 | writes the value modulo 2^32, low byte first, and nothing else |
| ZipFields.LittleEndian | frontend/src/lib/web-zip.ts:26-32 | byte k of a field is the k-th lowest byte of the value |
| ZipArchive.LocalFields | frontend/src/lib/web-zip.ts:50-64 | every field of the local header at its offset in APPNOTE 4.3.7 |
| ZipArchive.CentralFields | frontend/src/lib/web-zip.ts:73-93 | every field of the central header at its offset in APPNOTE 4.3.12 |
| ZipArchive.EndFields | frontend/src/lib/web-zip.ts:101-111 | every field of the end record at its offset in APPNOTE 4.3.16 |
| ZipArchive.BuildLocalFileHeader | frontend/src/lib/web-zip.ts:45-65 | fills the buffer with the local header layout of APPNOTE 4.3.7 |
| ZipArchive.BuildCentralDirectoryHeader | frontend/src/lib/web-zip.ts:67-94 | fills the buffer with the central header layout of APPNOTE 4.3.12 |
| ZipArchive.BuildEndOfCentralDirectory | frontend/src/lib/web-zip.ts:96-112 | fills the buffer with the end record layout of APPNOTE 4.3.16 |
| ZipArchive.ConcatChunks | frontend/src/lib/web-zip.ts:34-43 | copies the chunks one after the other, filling the output exactly |
| ZipArchive.Placed | frontend/src/lib/web-zip.ts:124-136 | local region and central header of every entry lie where the running offset says, one after the other |
| ZipArchive.RoundTrip | frontend/src/lib/web-zip.ts:115-146 | a reader that allows no gap recovers names, checksums and contents in order if and only if the archive fits the 16 and 32 bit fields |
| ZipArchive.CreateStoreOnlyZip | frontend/src/lib/web-zip.ts:115-146 | fails only on no entries; else a reader gets back every entry in order, its path with slashes for backslashes, the checksum of its bytes and its bytes, if and only if the entries fit the fields |
| ZipArchive.Normalise | frontend/src/lib/web-zip.ts:125 | every backslash becomes a slash and nothing else changes |
| DeviceStore.PairedDeviceStore.Remember | engine/native/src/device_identity.rs:87-113 | the device stored under the same id up to case takes over name, type, system, time and a given relay and becomes Active, keeping id and pairing time; a new one is appended; no other changes |
| DeviceStore.PairedDeviceStore.Rename | engine/native/src/device_identity.rs:115-128 | renames the device found, and reports when there is none |
| DeviceStore.PairedDeviceStore.Forget | engine/native/src/device_identity.rs:130-138 | keeps exactly the devices of other ids, in order |
| DeviceStore.ForgottenConcat | engine/native/src/device_identity.rs:130-138 | forgetting looks at one device at a time and keeps the order |
| DeviceStore.PairedDeviceStore.Touch | engine/native/src/device_identity.rs:140-153 | sets the time of the device found |
| DeviceStore.PairedDeviceStore.MarkUnpairedRemotely | engine/native/src/device_identity.rs:155-173 | marks the device found and returns it |
| DeviceStore.PairedDeviceStore.MarkStaleAfterLocalIdentityRotation | engine/native/src/device_identity.rs:175-189 | turns every Active device stale, so that none is Active, changes no other, and counts them |
| PairedNode.LoadAllowedFromStore | engine/native/src/node.rs:1096-1109 | loads exactly the ids of the connectable devices |
| PairedNode.NodeService.constructor | engine/native/src/node.rs:548-574 | a start loads the allowlist before marking devices stale |
| PairedNode.RotationMarksStale | engine/native/src/node.rs:548-574 | after a start with a rotated identity no device is Active and those that were are stale; without a rotation the list is unchanged |
| PairedNode.EditsOneField | engine/native/src/device_identity.rs:115-153 | renaming and touching change one field of the device found, nothing else and not the allowlist |
| PairedNode.NodeService.HostPaired | engine/native/src/node.rs:277-288 | stores the announced device and allows the connection's id |
| PairedNode.NodeService.JoinPairing | engine/native/src/node.rs:893-909 | stores and allows the host named by its PairingInfo |
| PairedNode.NodeService.ForgetPaired | engine/native/src/node.rs:718-728 | drops the parsed id from the allowlist and the spelled id from the list |
| PairedNode.NodeService.HandleForget | engine/native/src/node.rs:456-468 | a verified Forget unpairs and disallows the peer if it is stored |
| PairedNode.HostPairedInStep | engine/native/src/node.rs:277-288 | for any announced text, host pairing keeps the allowlist equal to the connectable ids if and only if the text stored parses to the connection's id, or everything it names was allowed already |
| PairedNode.JoinedInStep | engine/native/src/node.rs:893-909 | the same for the joining side, which allows the id it parsed |
| PairedNode.HostPairedExact | engine/native/src/node.rs:277-288 | full agreement after host pairing needs that and, for a device new to the list, the printed form of an id, and nothing else |
| PairedNode.HostPairedPrinted | engine/native/src/node.rs:277-288 | for a printed id: they agree if and only if the named id is the connection's, or both were allowed |
| PairedNode.HostPairedAsAnother | engine/native/src/node.rs:277-288 | a peer connected under one id that announces another is allowed without being listed |
| PairedNode.ForgetPairedExact | engine/native/src/node.rs:724-728 | after forgetting by text a list of printed ids and the allowlist agree if and only if parsing and spelling pick out the same allowed id |
| PairedNode.ForgetPairedInStep | engine/native/src/node.rs:724-728 | for a list of any texts they stay in step if and only if no device under another key is the parsed id, and whoever is stored under the key is that id or held under another key too |
| PairedNode.ForgetReceivedInStep | engine/native/src/node.rs:456-468 | a verified Forget keeps them in step if and only if the printed id is not stored, or no other device parses to the sender and the device marked is the sender or held beside it too |
| PairedNode.ForgetLeavesAllowed | engine/native/src/node.rs:724-728 | a text that parses to nothing but spells a stored id up to case empties the list and leaves the device allowed |
| PairedNode.ForgetLeavesListed | engine/native/src/node.rs:724-728 | a second text for a stored id disallows the device and leaves it listed, and the next start allows it again |
| PairedNode.ForgetReachesPrinted | engine/native/src/node.rs:456-468 | after one join and its Forget a peer is still allowed if and only if it announced itself by a text other than its printed id up to case |
| PairedNode.ForgetTakesOff | engine/native/src/node.rs:456-468 | from any node in step a verified Forget takes the peer off list and allowlist if and only if its printed id is stored and no other connectable device parses to it, or it was on neither |
| PairedNode.ForgetTakesOffAfter | engine/native/src/node.rs:456-468 | after every run in which peers announce printed ids it always does |
| PairedNode.GoneStaysIff | engine/native/src/node.rs:546-574 | over every run, restarts and rotations included, a peer on neither record stays off both if and only if no pairing names it or connects as it |
| PairedNode.ForgetLeavesAlias | engine/native/src/node.rs:456-468 | a peer stored under two texts is disallowed by its Forget and allowed again by the next start |
| PairedNode.StepInStepIff | engine/native/src/node.rs:225-236 | for every handler, on any node in step and for any texts, the exact condition for list and allowlist to stay in step |
| PairedNode.StartInStep | engine/native/src/node.rs:548-574 | a start brings them in step whatever went before |
| PairedNode.RunInStepIff | engine/native/src/node.rs:546-574 | over every run they are in step at every moment if and only if each handler meets its condition where it runs |
| PairedNode.StepAgrees | engine/native/src/node.rs:225-236 | every handler keeps the allowlist equal to the connectable ids |
| PairedNode.AlwaysAgrees | engine/native/src/node.rs:546-574 | for every sequence of starts, pairings, forgets, renames, touches and rotations the two agree, ids stay unique up to case, and a restart loads the same allowlist |
| PairedNode.AlwaysUnique | engine/native/src/device_identity.rs:87-138 | ids stay unique up to case whatever peers send |
| HostLoop.HandleMessage | engine/native/src/node.rs:142-258 | a PairingInfo replaces the info if and only if its id parses and its signature verifies for that id; a vote replaces the vote; only a Forget or Recognition whose signature verifies for the connection's id touches the records |
| HostLoop.HostSession | engine/native/src/node.rs:129-299 | completes if and only if some prefix has a signed PairingInfo and Remember as latest vote, at the shortest such prefix; then the last signed PairingInfo read is stored, with its name, type and system, as an Active device and the connection's id is allowed |
| HostLoop.LatestExact | engine/native/src/node.rs:150-174 | the remembered info is the last message whose signature verifies, the remembered vote the last vote |
| HostLoop.ReadyExact | engine/native/src/node.rs:260-262 | pairing is ready if and only if some message is a signed PairingInfo and the last vote is Remember |
| Handshake.StepOk | engine/native/src/node.rs:106-127 | every step of either side keeps the invariant of the exchange |
| Handshake.HostRunsLoop | engine/native/src/node.rs:129-299 | in every run the host's side is its message loop: info, vote and verdict are those of the messages it has read, no shorter prefix was ready, and the node is the one the loop leaves |
| Handshake.NoDeadlock | engine/native/src/node.rs:135-141 | no reachable state has both sides blocked before both are done |
| Handshake.StepsShrink | engine/native/src/node.rs:850-880 | every enabled step decreases the measure, by exactly one unless a host that has paired still listens |
| Handshake.RunsAreShort | engine/native/src/node.rs:850-880 | a run of enabled steps has at most nine, whatever the two ends hold |
| Handshake.RunsTakeNineSteps | engine/native/src/node.rs:106-318 | a run of enabled steps is complete if and only if it has taken exactly nine, in every interleaving and whether or not the signatures verify |
| Handshake.CanComplete | engine/native/src/node.rs:106-318 | every schedule extends, by steps that can be taken, to a complete one |
| Handshake.CompleteRunExact | engine/native/src/node.rs:301-318 | in every complete run the host stores and allows the joiner if and only if the joiner's signature verifies for its id, the joiner likewise for the host's, and a node that does not is unchanged |
| Handshake.UnsignedChangesNothing | engine/native/src/node.rs:154-157 | in every run, complete or not, an end whose peer's signature does not verify keeps its records, and a host its window |
| Handshake.CompleteRunPairs | engine/native/src/node.rs:850-910 | with both ends verifying, every complete run ends with each side storing the other, with what it announced, as Active and allowing it, and the window shut unless persistent |
| Handshake.PairingKeepsAgreement | engine/native/src/node.rs:260-318 | in every state on the way list and allowlist of both nodes agree |
| ConnectTasks.PairedConnectionManager.RefreshTasks | engine/native/src/paired_connections.rs:78-122 | aborts what is no longer wanted, then spawns what is missing |
| ConnectTasks.PairedConnectionManager.ForgetDevice | engine/native/src/paired_connections.rs:124-132 | removes and aborts the loop of one device |
| ConnectTasks.PairedConnectionManager.ShutdownAll | engine/native/src/paired_connections.rs:134-141 | aborts every loop in the map and empties it |
| ConnectTasks.AtMostOneLoop | engine/native/src/paired_connections.rs:96-120 | over any sequence of refreshes, forgets, shutdowns and loop turns a device has at most one running loop |
| ConnectTasks.ForgetStops | engine/native/src/paired_connections.rs:124-129 | after forgetting a device it has no task and no running loop, and every other device is as it was |
| ConnectTasks.ShutdownStops | engine/native/src/paired_connections.rs:134-141 | after a shutdown no loop runs and no task is left |
| ConnectTasks.ShutdownStays | engine/native/src/paired_connections.rs:134-141 | the shutdown flag is set if and only if a shutdown came before |
| ConnectTasks.TurnExits | engine/native/src/paired_connections.rs:242-247 | the next turn of a loop ends it if and only if the manager was shut down or its device is not stored as Active |
| ConnectTasks.RefreshKeys | engine/native/src/paired_connections.rs:87-120 | after a refresh the task keys are exactly the lower-cased connectable ids of the list read |
| ConnectTasks.RefreshMatchesAllowlist | engine/native/src/node.rs:287-289 | refreshing from a list that agrees with the allowlist leaves one task for each allowed id, under its printed form |
| ConnectTasks.RunningAfterRefresh | engine/native/src/paired_connections.rs:111-120 | a wanted device has a running loop after a refresh if and only if the map did not hold the handle of one no longer running |
| ConnectTasks.ExitedStaysExited | engine/native/src/paired_connections.rs:113-116 | a loop that exited with its handle in the map is not replaced by any refresh that wants its device |
| ConnectTasks.RepairedDeviceHasNoLoop | engine/native/src/paired_connections.rs:244-247 | a stale device that is paired again is left without a running loop |
| ConnectTasks.ConnectLoop | engine/native/src/paired_connections.rs:239-281 | the n-th wait since the last successful connect is min(5·2^n, 60) seconds |
| ConnectTasks.WaitSeconds | engine/protocol/src/pairing.rs:6-9 | the waits are 5, 10, 20 and 40 seconds and 60 from then on |
| ConflictNames.SameNumbering | frontend/src/lib/web-save-location.ts:125-131 | native and browser put the number in the same place, for every file name |
| ConflictNames.NumberedDistinct | engine/native/src/export.rs:88-94 | distinct indices give distinct names |
| ConflictNames.FirstFree | engine/native/src/export.rs:88-98 | the least index below the limit whose name is free |
| ConflictNames.AlwaysFree | engine/native/src/export.rs:88-100 | a directory of at most 9,999 entries always yields a free name for a file in it |
| ConflictNames.ResolveWritableFileName | frontend/src/lib/web-save-location.ts:145-164 | the browser takes the least index free among the names it is told are taken, the name itself first, and gives up past 9,998; a conflict is reported if and only if the name changed |
| FileLanding.ResolveConflictPath | engine/native/src/export.rs:71-101 | the native loop finds the least free numbered sibling, or fails when all 9,999 are taken |
| FileLanding.ResolversAgree | frontend/src/lib/web-save-location.ts:133-164 | native takes the least index no entry carries; the name the browser settles on is that one if and only if no subdirectory carries it; the browser gives up if and only if the name and its first 9,998 numbers are all files, and native then still takes 9,999 if it is free |
| FileLanding.BrowserLandsAsNative | frontend/src/lib/web-save-location.ts:184-198 | the browser writes only to an absent path, the one native export takes, and succeeds if and only if the least name that is no file is no subdirectory and its index is below 9,999 |
| FileLanding.SubdirectoryStopsBrowser | frontend/src/lib/web-save-location.ts:133-143 | beside a subdirectory "photos" native lands a file "photos" at "photos (1)"; the browser settles on "photos" and cannot write it |
| FileLanding.Disk.CreateDirAll | engine/native/src/export.rs:41-45 | creates the missing directories above a target unless one of them is a file |
| FileLanding.Disk.ExportToDirectory | engine/native/src/export.rs:21-69 | the loop over the changing disk lands every entry as the specification says, of which ExportExact, ExportPlaces and ConflictsExact say what it means |
| FileLanding.NothingOverwritten | engine/native/src/export.rs:29-51 | no file that existed is changed, whether the export succeeds or not |
| FileLanding.ExportExact | engine/native/src/export.rs:21-101 | an export succeeds if and only if each entry in turn has a name of plain parts, its content, a free path among its own and 9,999 numbered ones, and no file above the first free one; and then it lands there |
| FileLanding.LandsBeside | engine/native/src/export.rs:30-36 | a received a.txt beside an a.txt lands as a (1).txt with one conflict reported |
| FileLanding.ExportPlaces | engine/native/src/export.rs:21-69 | on success every entry has its own previously absent path below the root holding its bytes, targets are pairwise distinct, and nothing else appears but directories above them |
| FileLanding.ConflictsExact | engine/native/src/export.rs:30-39 | the reported conflicts are exactly the renamed entries in order, and an entry is renamed if and only if its path existed before or through an earlier entry |
| Decimal.SuffixRecoverable | engine/native/src/import.rs:151 | base name and number can be read off a suffixed name |
| Decimal.PrintValue | engine/native/src/import.rs:151 | the digits printed stand for the number, without leading zero |
| Dedup.Seen.DedupName | engine/native/src/import.rs:147-158 | counts the name and suffixes every occurrence after the first |
| Dedup.DedupAll | engine/native/src/import.rs:73-76 | the first occurrence of n keeps its name and the k-th becomes "n (k)" |
| Dedup.DistinctIff | engine/native/src/import.rs:147-158 | all outputs are pairwise distinct if and only if no input name equals a generated one |
| Dedup.ClashExists | engine/native/src/import.rs:147-158 | a list of three names whose outputs collide |
| Dedup.NoShorterClash | engine/native/src/import.rs:147-158 | lists of at most two names never collide |
| PathNames.GetExportPath | engine/native/src/export.rs:103-122 | accepts a name if and only if no part is empty, "." or ".." or holds a slash, backslash, colon or null, and then appends exactly its parts to the root |
| PathNames.PrintExact | engine/native/src/import.rs:95-130 | printing fails if and only if some component is no plain name, or a root where none is allowed; a root prints as a leading slash |
| PathNames.PrintThenParse | engine/native/src/import.rs:95-130 | a printed path parses back to its components if and only if it is not empty and each component is valid |
| PathNames.ParseThenPrint | engine/native/src/export.rs:103-111 | an accepted name is the printed form of the components it is split into |
| PathNames.NeverLeavesRoot | engine/native/src/export.rs:113-122 | an accepted name resolves to a path below the resolved root |
| ControlFraming.Stream.WriteMessage | engine/protocol/src/control.rs:137-150 | appends one frame, or refuses a body over 1 MiB and writes nothing |
| ControlFraming.Stream.ReadMessage | engine/protocol/src/control.rs:152-163 | consumes and decodes one frame, or fails as the frame reader says |
| ControlFraming.ReadExactly | engine/protocol/src/control.rs:152-163 | a message is read if and only if the bytes start with a length of 1 to 1048576, that many bytes, and these decode to it; the rest is left |
| ControlFraming.BigEndian | engine/protocol/src/control.rs:145-155 | the length is four bytes, high byte first |
| ControlFraming.PrefixFree | engine/protocol/src/control.rs:145-147 | no frame is a proper prefix of another |
| ControlFraming.ReadBack | engine/protocol/src/control.rs:137-163 | any concatenation of frames is read back as the same messages with nothing left over |
| ControlFraming.WholeIsMaximal | engine/protocol/src/control.rs:152-163 | the number of messages read from a cut stream is the largest number of whole frames that fit |
| ControlFraming.CutAnywhere | engine/protocol/src/control.rs:152-163 | a stream cut at any byte yields the intact earlier messages and then an error |
| Hex.DecodeEncode | engine/native/src/identity_store.rs:158 | lower-case hex decodes to the bytes it was made from |
| Hex.EncodeDecode | engine/native/src/identity_store.rs:185-188 | only the lower-case hex of some bytes decodes |
| Hex.TrimBlanks | engine/native/src/identity_store.rs:186 | white space around a text does not matter |
| IdentityStore.ParseHexExact | engine/native/src/identity_store.rs:184-190 | a text is accepted if and only if it is a 32-byte secret in lower-case hex with any white space around it |
| IdentityStore.SecretHome.WriteIdentityFile | engine/native/src/identity_store.rs:121-131 | the file changes only by the rename, whatever happens before it |
| IdentityStore.SecretHome.LoadOrCreateSecret | engine/native/src/identity_store.rs:41-101 | loads, migrates or generates as file, keychain and override demand, under every fault |
| IdentityStore.OverrideDecides | engine/native/src/identity_store.rs:44-52 | an override that parses is used, one that does not is an error, and the disk is unchanged |
| IdentityStore.MigratesOrGenerates | engine/native/src/identity_store.rs:81-99 | with no valid file a valid keychain secret is loaded as migrated and written to the file; with none a fresh one is |
| IdentityStore.LoadedIff | engine/native/src/identity_store.rs:54-99 | which faults keep a start from loading a secret, exactly |
| IdentityStore.SecretIsKept | engine/native/src/identity_store.rs:41-101 | over any number of starts with any faults, a secret held by the file, or by the keychain alone, is the one that is loaded |
| IdentityStore.FileWins | engine/native/src/identity_store.rs:57-80 | a valid file decides whatever the keychain holds, and is not changed |
| IdentityStore.LoadSyncs | engine/native/src/identity_store.rs:157-170 | a load without fault leaves file and keychain agreeing on its secret |
| IdentityStore.SecretIsStable | engine/native/src/identity_store.rs:41-101 | after the first successful load every later one returns the same secret from the file, through crashes, failed saves and outside keychain changes |

## Left out

- iroh, iroh-blobs, QUIC, Ed25519 and the keyring: a connection is a pair of message queues, a signature check and id parsing are parameters, a blob is its bytes.
- JSON and UTF-8: parameters of the framing and ZIP models.
- Clocks: whether the last request is recent is an arbitrary answer at each check; the 500 ms sleep and the 30 s close timeout are single steps.
- ShareSession.Conservation: the increments of the two counters are not wrapped at 2^64; the decrement is.
- SoloSession.SoloRun: the request is taken as not recent at its clock check, and updates arrive while its task waits; other timings are covered by the theorems of `ShareSession` over every run.
- ShareSession.MapKeys: needs no two payload requests to share a (connection, request) pair, as do Histories, ConnectionsShown, ProgressOfRun, ProgressNeverGoesBack, TailNeverEmits and EmissionMeansDelivery.
- Store and allowlist updates of one handler are one step, and store I/O succeeds, in the pairing model; the code does them as separate awaits.
- A host that already allows the joiner: it routes the connection to the paired handler, so the handshake model requires it not to.
- Presence and session maps of paired connections: presence is also written without a session.
- Handshake: the window expiring or being closed by the user during a pairing, and links that lose messages.
- `to_lowercase` and `trim` are modelled on ASCII.
- The browser's directory walk and permission prompts, and its single-file download.
- Import's walk, sort and total: a library sort and a sum.
- Relay probing, pairing tickets, UI, thumbnails, Android and build scripts: easy or foreign.
