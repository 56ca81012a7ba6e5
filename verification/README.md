# Verified model of aranya's allocators, sessions and reconcilers

This project models the parts of aranya that carry state from call to call, and
proves what every sequence of calls keeps. It is written for Dafny 4.11;
`dafny verify dfyconfig.toml` checks all of it.

Each component is modelled twice where the Go code changes things in place: a value with
step functions, about which statements over whole runs are proved, and a class or a method
with the same loops and branches, proved against those functions. Go's run-time panics
(closing a channel twice, sending on a closed one, indexing past a slice, dereferencing nil)
are outcomes of the model or preconditions that every caller is proved to meet.

| module | what it models |
|---|---|
| `Addresses`, `Blocks`, `Pool`, `PoolRuns`, `AddressManager` | the mesh address allocator: prefixes, one block with its cursor, the pool of blocks and its runs |
| `Sessions`, `SessionClose`, `SessionManager` | sessions with the device, the session table, dispatches split at the table's lock, closers split at their test |
| `Signals`, `GrpcStreams` | connected, disconnected and rejected signals; gRPC streams that share a map of device ids |
| `Chunking`, `Framing` | command chunks, upstream numbering, size-prefixed packets |
| `Admission` | the pod cache and the admission of pods that need the abbot pod |
| `ClusterRole`, `ServicePorts`, `Volumes`, `Conditions` | generated objects against their own checks; lists and times kept between reports |
| `Prelude`, `Ordering` | result types, bytes and the role label; string order and sorting by name |

## Where the code falls short of its purpose

Each of these has a lemma that says exactly when the code meets the promise, and a concrete
input or run on which it does not.

- The cursor of a block that ends at the all-ones address wraps to zero when its last own
  address goes out (`Blocks.AllocateTidy`). From then on the block hands out foreign addresses,
  0, 1 and so on (`Blocks.WrappedHandsOutForeign`), also ones another block has leased
  (`PoolRuns.TopBlockHandsOutTwice`). No run hands an address out twice if and only if no such
  block is added (`PoolRuns.SafeIffBelowTop`), and only the host prefix of the all-ones
  address makes one (`Addresses.RangeBelowTop`). Once every address of the family is in use,
  the call never returns (`Blocks.HangsIffAllUsed`), which a pool of that one block reaches
  after as many requests as the family has addresses (`PoolRuns.TopPoolHangs`).
- Putting an address back into a full block dereferences a nil cursor
  (`Pool.PutBackExact`, `PoolRuns.LastAddressCannotReturn`). As long as every block behind the
  block cursor is full, the branch that moves that cursor back is never completed.
- A request for a specific address uses a binary search with a test that is not monotone.
  It reaches a block only on one chain of probes, all blocks only when there is at most
  one, and indexes past the end of the list otherwise (`Pool.AllocateOneExact`,
  `Pool.LookupCompleteIff`, `PoolRuns.FirstOfTwoIsMissed`).
- A block that sorting puts behind the block cursor is skipped by requests for any address:
  they get the lowest free address if and only if every block behind the cursor is full
  (`Pool.AllocateAnyIsLowest`), in every state of a run if and only if no block is added there
  (`Pool.FirstFitIffAddsInOrder`, `PoolRuns.AddedBehindCursorIsMissed`).
- A reply that comes in several messages is never delivered: `close()` drops the buffer
  before it is read (`Sessions.DeliverAdvances`, `Sessions.LongReplyIsLost`).
- The timeout of a unary session acts on the id its creator passed in, so it ends nothing
  (`Sessions.UnaryTimeoutEndsNothing`, `Sessions.TimeoutLeavesSession`).
- A dispatch that completes its session closes it under no lock. The session is closed twice,
  which panics, if and only if two closers find it open before either closes it
  (`SessionClose.DoubleCloseIff`, `SessionClose.TwoDispatchesCloseTwice`). Closers that hold the
  lock never do that (`SessionClose.LockedCloseOnce`).
- A stream refused because its device id is taken still reports that id as lost when it
  ends, which drops the device of the stream that holds it
  (`GrpcStreams.RefusedStreamDropsOwner`, `GrpcStreams.RefusedStreamRun`).
- Pods already running, and pods first cached by a refresh, are cached without an abbot pod
  (`Admission.StepCoveredIff`, `Admission.RunCoveredIff`, `Admission.RunningPodIsUncovered`).
- Only one abbot pod is allowed on a node, but what is checked is the record, not the cache.
  A node keeps to one if and only if no operation caches a pod as an abbot pod beside another
  (`Admission.StepOneAbbotIff`, `Admission.RunOneAbbotIff`). One found running after a restart
  is not recorded (`Admission.RunningAbbotIsForgotten`), one being deleted is no longer
  recorded but still cached (`Admission.DeletedAbbotLingers`), and one that only got its role
  label later is never asked (`Admission.RelabelledPodJoins`). Deleting a pod that is not the
  recorded one can clear the record (`Admission.ForeignDeletionClearsIff`,
  `Admission.DeletedAbbotLingers`).
- The record names a cached pod in every state of a run if and only if that pod never goes
  while it is recorded (`Admission.RunRecordCachedIff`). An abbot pod reconciled once more
  during its deletion leaves a record behind that keeps every later one out
  (`Admission.RecordOutlivesPod`).
- The abbot pod itself, admitted and still pending, is refused as a second abbot pod when it
  comes up for admission again (`Admission.ReadmittedUnlessAbbot`).
- Dropping a cached pod removes the name entry of a newer pod of the same name
  (`Admission.DropHidesNamesakeIff`, `Admission.NamesakeIsHidden`).
- A device that lists permissions only for other cluster roles keeps the generated role out
  of date for good (`ClusterRole.BuiltRolePassesIff`, `ClusterRole.OtherRoleNeverPasses`), and a role that grants a device nothing
  on one of the resources passes the check (`ClusterRole.PassingRoleGrantsIff`,
  `ClusterRole.PassesWithoutStatus`).

## Model

| member | source | states |
|---|---|---|
| `Addresses.IntToIP` | pkg/util/ipam/block.go:257-268 | the packing loop yields the low bytes of the value, zero-padded in front, for any size |
| `Addresses.DecodePadded` | pkg/util/ipam/block.go:257-268 | decoding a packed value gives it back modulo the buffer's width |
| `Addresses.PackDecoded` | pkg/util/ipam/block.go:257-268 | packing a decoded byte string gives the same byte string |
| `Addresses.NetworkSpan` | pkg/util/ipam/block.go:65-82 | two addresses share a prefix exactly when one lies between the network and last address of the other |
| `Addresses.LastIPIsBroadcast` | pkg/util/ipam/block.go:248-255 | lastIP gives the last address of the prefix from any address of it, in the 4-byte or the 16-byte form |
| `Addresses.NewRangeIsUsable` | pkg/util/ipam/block.go:35-124 | a request is accepted iff it is well formed and leaves a usable address, and the range is exactly the set of usable addresses: in the prefix, between the given ends, not the network nor the last address unless the prefix is one host |
| `Addresses.RangeErrorIsTrue` | pkg/util/ipam/block.go:35-120 | a refused request gets the error of a fault it has; an invalid pair means no address would be usable |
| `Addresses.RangeBelowTop` | pkg/util/ipam/block.go:90-103 | a range ends at the all-ones address iff the prefix is that single host, and then holds nothing else |
| `Blocks.LowestFreeFound` | pkg/util/ipam/block.go:192-217 | the plain search finds the lowest free address, and nothing exactly when the block is full |
| `Blocks.UsedPlusFree` | pkg/util/ipam/block.go:126-138 | addresses in use and free addresses add up to the size of the block |
| `Blocks.CallsKeepSane` | pkg/util/ipam/block.go:155-246 | no call changes the range or takes the cursor outside the block, or outside the family for a block that ends at the all-ones address |
| `Blocks.AllocateTidy` | pkg/util/ipam/block.go:155-217 | with the cursor at the lowest free address, hands out that address, or the requested one unless foreign or in use; never reads a nil cursor, never loops; the cursor stays the lowest free address unless the block ends at the all-ones address and just became full, and is zero then |
| `Blocks.AllocateBelowTop` | pkg/util/ipam/block.go:155-217 | in a block below the all-ones address the cursor gives exactly the results of the plain search |
| `Blocks.PutBackTidy` | pkg/util/ipam/block.go:219-246 | takes back an address in use and keeps the cursor lowest; dereferences nil iff the block is full |
| `Blocks.WrappedHandsOutForeign` | pkg/util/ipam/block.go:192-217 | after the wrap the block hands out the addresses of the family from zero upwards |
| `Blocks.HangsIffAllUsed` | pkg/util/ipam/block.go:204-212 | the skip loop never ends iff the block ends at the all-ones address and every address of the family is in use |
| `Blocks.TopBlockHangs` | pkg/util/ipam/block.go:192-217 | the all-ones host block answers one call for each address of the family and hangs in the next |
| `Blocks.Block.MoveToNextUnused` | pkg/util/ipam/block.go:192-217 | the skip loop ends, returns the old cursor and leaves it at the next free address ahead, else nil, or in a block that ends at the all-ones address at the first free one from zero |
| `Blocks.Block.Allocate` | pkg/util/ipam/block.go:155-190 | changes the block as modelled, for any cursor, and fails iff it reads a nil cursor |
| `Blocks.Block.PutBack` | pkg/util/ipam/block.go:219-246 | changes the block as modelled, for any cursor, and fails iff it reads a nil cursor |
| `Pool.AddBlockKeeps` | pkg/util/ipam/ipam.go:52-65 | refuses exactly overlapping ranges, keeps blocks sorted and disjoint, and keeps the blocks behind the cursor full iff the new block does not land among them |
| `Pool.AddMakesAvailable` | pkg/util/ipam/ipam.go:42-66 | a range that shares an address with a block is refused; any other makes exactly its own addresses available, and the capacity grows by its size |
| `Pool.AllocateAnyIsLowest` | pkg/util/ipam/ipam.go:74-91 | hands out the lowest free address of the whole pool, failing iff no block has one, iff the blocks behind the cursor are full; keeps them full |
| `Pool.SearchFinds` | pkg/util/ipam/ipam.go:94-96 | the binary search finds the one block that contains the address iff its index is on the chain of probes, else runs to the end |
| `Pool.AllocateOneExact` | pkg/util/ipam/ipam.go:93-107 | a specific request panics iff no containing block is on the probe chain; otherwise the only containing block decides it |
| `Pool.LookupCompleteIff` | pkg/util/ipam/ipam.go:94-102 | the lookup reaches every block iff there is at most one; the last block is always reached |
| `Pool.PutBackExact` | pkg/util/ipam/ipam.go:110-126 | nothing changes for an address not in use; panics iff its block is full; with full blocks behind the block cursor, the cursor never moves |
| `Pool.Conservation` | pkg/util/ipam/ipam.go:52-63 | over disjoint blocks, addresses in use plus free addresses equal the total size |
| `Pool.StepKeepsSane` | pkg/util/ipam/ipam.go:42-126 | every operation keeps the blocks sorted and disjoint and the block cursor in range, also with a block at the all-ones address |
| `Pool.StepKeeps` | pkg/util/ipam/ipam.go:42-126 | with no block at the all-ones address, every operation ends and keeps the pool valid, and what it hands out or takes back is a legal move of a set of leased addresses |
| `Pool.RunNeverHandsOutTwice` | pkg/util/ipam/ipam.go:42-126 | over every run without such a block, no step hangs, no address is handed out while leased, none is taken back that is not, the addresses in use are the leased ones, and used plus free stays the total size |
| `Pool.FirstFitIffAddsInOrder` | pkg/util/ipam/ipam.go:42-126 | a run is first-fit in every state it reaches iff it adds no block behind the cursor |
| `Pool.AddedFirstIsFirstFit` | pkg/controller/edgedevice/mesh.go:80-98 | a pool given all its blocks before use hands out the lowest free address of the whole pool in every state it reaches, and fails iff there is none |
| `PoolRuns.LastAddressCannotReturn` | pkg/util/ipam/block.go:236-239 | the run that puts back the only address of the only block panics |
| `PoolRuns.FirstOfTwoIsMissed` | pkg/util/ipam/ipam.go:94-102 | the run that asks for a free address of the first of two blocks panics |
| `PoolRuns.AddedBehindCursorIsMissed` | pkg/util/ipam/ipam.go:61-91 | after a run that adds a block behind the cursor, Allocate(nil) fails with an address of it free |
| `PoolRuns.TopBlockHandsOutTwice` | pkg/util/ipam/block.go:192-217 | the run with the all-ones host block hands out address 0 twice |
| `PoolRuns.SafeIffBelowTop` | pkg/util/ipam/ipam.go:42-126 | no run that starts with a range, and adds no other at the all-ones address, hands an address out twice, iff the range ends below the all-ones address |
| `PoolRuns.TopPoolHangs` | pkg/util/ipam/ipam.go:74-91 | a pool of that block alone never returns from the request after as many as the family has addresses |
| `AddressManager.IPAddressManager.AddAddressBlock` | pkg/util/ipam/ipam.go:42-66 | rejects what NewBlock rejects and what overlaps; otherwise exactly the usable addresses of the prefix become available, the all-ones host block included |
| `AddressManager.IPAddressManager.Allocate` | pkg/util/ipam/ipam.go:68-108 | changes the blocks as the pool's step does, panics exactly when that step does, and tells the two failures apart |
| `AddressManager.IPAddressManager.FindBlock` | pkg/util/ipam/ipam.go:94-96 | the loop of sort.Search computes the modelled search |
| `AddressManager.IPAddressManager.TakeBack` | pkg/util/ipam/ipam.go:110-126 | changes the blocks as the pool's step does, and fails exactly when that step panics |
| `Sessions.DeliverAdvances` | pkg/virtualnode/connectivity/session_manager.go:193-312 | a delivery ends the session iff it reports complete, delivers iff the session was open, and puts a reply on the channel iff the session is open and the reply is one whole message |
| `Sessions.ReleaseAllReports` | pkg/virtualnode/connectivity/session_manager.go:126-140 | one error is reported for each chunk that fails: any on a session that is no stream, the first after a timeout, those the sink refuses; the first data releases whoever waits for the stream |
| `Sessions.DeliverExact` | pkg/virtualnode/connectivity/session_manager.go:193-312 | what a delivery leaves on the channel of an open session, and that it ends the session iff the message is whole or the queue has the last one |
| `Sessions.DeliverToKeeps` | pkg/virtualnode/connectivity/session_manager.go:507-518 | a dispatch changes no session but its own and keeps the table right |
| `Sessions.StepKeeps` | pkg/virtualnode/connectivity/session_manager.go:406-562 | every operation keeps a session in the table exactly while its message channel is open, ids growing, unary sessions of the current epoch, channels never reopened, closed ones never sent to |
| `Sessions.AddIssuesFreshId` | pkg/virtualnode/connectivity/session_manager.go:439-485 | a live id is used again; else the new session gets an id above every id ever issued, open, of the kind asked for and of this epoch, and no other session changes |
| `Sessions.DeleteEnds` | pkg/virtualnode/connectivity/session_manager.go:521-530 | the session leaves the table with its channels closed and nothing sent; no other session changes |
| `Sessions.EndedIsFinal` | pkg/virtualnode/connectivity/session_manager.go:487-562 | nothing that happens after a session has ended, on any schedule, changes it |
| `Sessions.SetStreamOpensReady` | pkg/virtualnode/connectivity/session_manager.go:406-436 | a live session without a ready channel gets an open one; nothing else changes |
| `Sessions.TimeoutClosesReady` | pkg/virtualnode/connectivity/session_manager.go:426-433 | after the creation timeout a ready channel is closed iff there is one; nothing else changes |
| `Sessions.LookupTakesLive` | pkg/virtualnode/connectivity/session_manager.go:493-505 | a message is taken up iff its session is live |
| `Sessions.FinishDelivers` | pkg/virtualnode/connectivity/session_manager.go:507-518 | a reply in one message reaches the channel iff its session is still live, and ends it |
| `Sessions.StepPanicsExactly` | pkg/virtualnode/connectivity/session_manager.go:131-140 | the only panic is data for an open stream session whose ready channel was never set |
| `Sessions.CleanupLeavesStreams` | pkg/virtualnode/connectivity/session_manager.go:532-562 | cleanup opens a new epoch, leaves exactly the streams, untouched, closes every other session without sending, and keeps ids growing |
| `Sessions.LateMessageIsLost` | pkg/virtualnode/connectivity/session_manager.go:487-519 | a message for an ended session changes nothing anywhere |
| `Sessions.RunIsSafe` | pkg/virtualnode/connectivity/session_manager.go:406-562 | over every run and interleaving, with devices answering only ids they were sent, nothing panics, ids are never reused and each channel closes once and carries nothing afterwards |
| `Sessions.StaleNeedsCleanup` | pkg/virtualnode/connectivity/session_manager.go:487-519 | a session found in the table is stale at its delivery only if a cleanup came in between, and has left the table then |
| `Sessions.UnaryTimeoutEndsNothing` | pkg/virtualnode/connectivity/session_manager.go:460-477 | in every later state the timeout's dispatch and delete find no session |
| `Sessions.LongReplyIsLost` | pkg/virtualnode/connectivity/session_manager.go:288-312 | a run in which a session ends with its reply in two messages lost |
| `Sessions.TimeoutLeavesSession` | pkg/virtualnode/connectivity/session_manager.go:460-477 | a run in which a unary session is still open after its timeout |
| `SessionClose.DoubleCloseIff` | pkg/virtualnode/connectivity/session_manager.go:314-320 | on every schedule of closers that lets each that passed the test go on, the session is closed twice iff two pass the test before either closes |
| `SessionClose.LockedCloseOnce` | pkg/virtualnode/connectivity/session_manager.go:521-562 | closers that hold the lock, on any schedule, never panic and close the session at most once, with the effect of the atomic close |
| `SessionClose.TwoDispatchesCloseTwice` | pkg/virtualnode/connectivity/session_manager.go:228-229 | a dispatch that completes the session and any other closer have such a schedule |
| `SessionManager.Session.OnCreationTimeout` | pkg/virtualnode/connectivity/session_manager.go:426-433 | closes the ready channel unless it is closed |
| `SessionManager.Session.Close` | pkg/virtualnode/connectivity/session_manager.go:314-347 | closes what is still open, once |
| `SessionManager.Session.SetStream` | pkg/virtualnode/connectivity/session_manager.go:100-124 | attaches the ready channel only the first time |
| `SessionManager.Session.WriteToStream` | pkg/virtualnode/connectivity/session_manager.go:126-140 | the first data write closes the ready channel unless somebody did, and is refused then |
| `SessionManager.Session.DeliverMsg` | pkg/virtualnode/connectivity/session_manager.go:193-312 | the message, its released chunks and the close have the modelled effect |
| `SessionManager.SessionManager.NextSid` | pkg/virtualnode/connectivity/session_manager.go:396-404 | the loop runs exactly once |
| `SessionManager.SessionManager.Add` | pkg/virtualnode/connectivity/session_manager.go:439-485 | reuses a live id, else issues the next one with a fresh open session |
| `SessionManager.SessionManager.SetStream` | pkg/virtualnode/connectivity/session_manager.go:406-436 | succeeds iff the session is live and has no ready channel |
| `SessionManager.SessionManager.FinishDispatch` | pkg/virtualnode/connectivity/session_manager.go:507-518 | works on the session object found earlier, even when it has left the table since; reports a delivery iff that session is of this epoch or a stream, and takes the message |
| `SessionManager.SessionManager.Delete` | pkg/virtualnode/connectivity/session_manager.go:521-530 | closes the session and takes it out of the table |
| `SessionManager.SessionManager.Cleanup` | pkg/virtualnode/connectivity/session_manager.go:532-562 | closes and removes every session that is not a stream; the zero entries of its id list remove nothing |
| `Signals.RunKeepsSignals` | pkg/virtualnode/connectivity/manager.go:392-502 | in every run exactly one of connected and disconnected is closed, the rejection flag matches its signal, connected is closed iff a device is connected until the context ends, and cleanup happens once per change from some devices to none |
| `Signals.SignalsAfter` | pkg/virtualnode/connectivity/manager.go:392-502 | every signal after every run, from the operations alone: connected is closed iff a first device came before the context ended and there have been devices since; rejected iff no first device came since the last rejection; stopped and cancelled iff that happened |
| `Signals.BaseManager.OnConnected` | pkg/virtualnode/connectivity/manager.go:406-443 | signals the first device and refreshes the other signals; no channel is closed twice |
| `Signals.BaseManager.OnDisconnected` | pkg/virtualnode/connectivity/manager.go:472-502 | signals the loss of the last device, cleans up and refreshes the connected signal; no channel is closed twice |
| `Signals.BaseManager.OnReject` | pkg/virtualnode/connectivity/manager.go:392-404 | closes the rejected signal once |
| `Signals.BaseManager.OnClose` | pkg/virtualnode/connectivity/manager.go:633-643 | cancels and stops once |
| `GrpcStreams.StepKeepsOwnership` | pkg/virtualnode/connectivity/mgr_grpc.go:138-204 | an entry is never overwritten, only its owner's deferred call removes it, and a message is passed on only by a stream that owns its id, an online message under that id |
| `GrpcStreams.RunKeepsOwnersApart` | pkg/virtualnode/connectivity/mgr_grpc.go:112-204 | for any interleaving, no two streams that have not returned are online under one device id |
| `GrpcStreams.ReceiveExact` | pkg/virtualnode/connectivity/mgr_grpc.go:160-202 | a stream passes on exactly the ordinary messages under an id it holds and the online messages with an id nobody holds, leaves its loop iff a message is invalid or offline, and rejects exactly invalid and refused ones |
| `GrpcStreams.LeaveExact` | pkg/virtualnode/connectivity/mgr_grpc.go:151-159 | leaving the loop changes nothing else |
| `GrpcStreams.FinalizeExact` | pkg/virtualnode/connectivity/mgr_grpc.go:141-149 | the end of a stream removes its own entry, and no other, iff a device is connected, and reports its id as lost |
| `GrpcStreams.DeviceComesBack` | pkg/virtualnode/connectivity/mgr_grpc.go:138-204 | after that another stream can go online under the id |
| `GrpcStreams.RefusedStreamDropsOwner` | pkg/virtualnode/connectivity/mgr_grpc.go:141-149 | the end of a stream drops a device held by another stream iff it was refused under that device's id |
| `GrpcStreams.RefusedStreamRun` | pkg/virtualnode/connectivity/mgr_grpc.go:138-204 | a run from the start in which that happens |
| `GrpcStreams.GrpcManager.Receive` | pkg/virtualnode/connectivity/mgr_grpc.go:160-202 | one round of the loop has the modelled effect on the shared map, the stream and the signals |
| `GrpcStreams.GrpcManager.Finalize` | pkg/virtualnode/connectivity/mgr_grpc.go:141-149 | the deferred call removes the stream's own entry, and does nothing when no device is connected |
| `Chunking.ChunksCoverPayload` | pkg/virtualnode/connectivity/manager.go:504-542 | chunks join to the payload, fit the limit, fill it except the last, are numbered without a gap, and only the last may be complete |
| `Chunking.ChunkCount` | pkg/virtualnode/connectivity/manager.go:504-542 | there are max(1, ceil(length / limit)) chunks |
| `Chunking.DoPostData` | pkg/virtualnode/connectivity/manager.go:504-542 | sends the chunks in order up to the first failure and returns the number of the last one tried |
| `Chunking.NumbersOverlapIff` | pkg/virtualnode/pod/devpod_http_port_forward.go:399-402 | posts numbered one after the other share a number iff the first payload exceeds the limit |
| `Chunking.BlocksEndAtFailure` | pkg/virtualnode/pod/devpod_http_port_forward.go:385-398 | the data sent are those of all reads before the first that fails without any |
| `Chunking.Pump` | pkg/virtualnode/pod/devpod_http_port_forward.go:355-411 | for any reads and failures, what the read loop and its deferred end mark send; the device gets the bytes unchanged, numbered from 0 without a gap and with an end mark, iff every post succeeds |
| `Framing.UvarintRoundTrip` | pkg/virtualnode/connectivity/session_manager.go:165-168 | every 64-bit size is read back from at most ten bytes, whatever follows |
| `Framing.ReadSizeFits` | pkg/virtualnode/pod/devpod_http_port_forward.go:631-635 | a size that is read fits 64 bits; input ends only where every byte so far asks for another |
| `Framing.PutUvarint` | pkg/virtualnode/connectivity/session_manager.go:166-167 | the ten-byte buffer holds the encoding of every 64-bit size |
| `Framing.DecodeUvarint` | pkg/virtualnode/pod/devpod_http_port_forward.go:631-635 | the decoding loop computes the modelled reader, with its end-of-input and overflow cases |
| `Framing.WriteToStream` | pkg/virtualnode/connectivity/session_manager.go:159-186 | succeeds iff no write it makes fails, stops at the first that does, and leaves exactly what the writes took, the whole frame on success |
| `Framing.ReadFrames` | pkg/virtualnode/pod/devpod_http_port_forward.go:630-661 | posts the packets of the stream in order, up to the first failed post if sending is ensured, and else all |
| `Framing.FramesRoundTrip` | pkg/virtualnode/pod/devpod_http_port_forward.go:606-661 | packets within the limit are read back as written, whatever follows |
| `Framing.FramesWholeIff` | pkg/virtualnode/pod/devpod_http_port_forward.go:637-644 | a list comes back whole iff every packet is within the limit, else a prefix of it does |
| `Framing.FramesUnambiguous` | pkg/virtualnode/connectivity/session_manager.go:165-183 | different lists of packets never make the same bytes |
| `Framing.CutFrameIsDropped` | pkg/virtualnode/pod/devpod_http_port_forward.go:631-650 | a frame that is cut short yields no packet |
| `Admission.PutKeepsIndexes` | pkg/util/cache/pod_cache.go:64-71 | caching a newer version of a pod keeps both indexes in step, and all other pods and marks |
| `Admission.DropHidesNamesakeIff` | pkg/util/cache/pod_cache.go:111-121 | dropping a pod removes it and its mark, no other, and keeps the others findable by name iff its name did not lead to another pod |
| `Admission.NamesakeIsHidden` | pkg/util/cache/pod_cache.go:111-121 | two pods of one name for which it does not |
| `Admission.StepCoveredIff` | pkg/virtualnode/pod/respod_admission.go:80-246 | an operation keeps an abbot pod recorded while cluster network pods are cached iff it does not cache such a pod unasked with none recorded |
| `Admission.AbbotChangesOnlyWhenFree` | pkg/virtualnode/pod/respod_admission.go:149-246 | a recorded abbot pod is cleared before it is replaced, and only when no cluster network pod is cached; deleting such a pod is never refused for want of it |
| `Admission.ClusterPodsEnterServed` | pkg/virtualnode/pod/respod_admission.go:80-147 | in every run a cached cluster network pod was there from the start, was first cached unasked, or entered with its finalizer while the recorded abbot pod was cached and running |
| `Admission.StepOneAbbotIff` | pkg/virtualnode/pod/respod_admission.go:80-186 | an operation keeps the cache at one abbot pod iff it does not cache a pod as an abbot pod, new or relabelled, beside another |
| `Admission.RunOneAbbotIff` | pkg/virtualnode/pod/respod_admission.go:149-246 | every state of a run has at most one abbot pod cached iff no operation of it does that |
| `Admission.RunningAbbotIsForgotten` | pkg/virtualnode/pod/respod_admission.go:87-95 | an abbot pod found running is not recorded, and a second one is let in beside it |
| `Admission.DeletedAbbotLingers` | pkg/virtualnode/pod/respod_admission.go:241-245 | an abbot pod whose deletion is admitted stays cached, a second one is let in beside it, and deleting the first again clears the record |
| `Admission.RelabelledPodJoins` | pkg/virtualnode/pod/respod_admission.go:86-95 | a cached pod that gets the role label becomes a second abbot pod, by a refresh or once it is running |
| `Admission.ForeignDeletionClearsIff` | pkg/virtualnode/pod/respod_admission.go:216-245 | deleting a pod other than the recorded abbot pod can clear the record iff no cluster network pod and some other pod is cached; as cached, iff that one is an abbot pod |
| `Admission.RunRecordCachedIff` | pkg/virtualnode/pod/respod_admission.go:37-51 | the recorded pod is cached in every state of a run iff it never goes while recorded |
| `Admission.RecordOutlivesPod` | pkg/virtualnode/pod/respod_admission.go:161-168 | a run that leaves a record without a pod, and every new abbot pod refused |
| `Admission.ReadmittedUnlessAbbot` | pkg/virtualnode/pod/respod_reconcile.go:40-44 | a pending pod admitted once is admitted again with nothing changed, iff it is not the abbot pod |
| `Admission.RunCoveredIff` | pkg/virtualnode/pod/respod_admission.go:80-246 | an abbot pod is recorded while cluster network pods are cached, in every state of a run, iff no operation of it caches such a pod unasked with none recorded |
| `Admission.RunStaysCovered` | pkg/virtualnode/pod/respod_admission.go:188-214 | after such a run no deletion is refused for want of an abbot pod |
| `Admission.RunDeletionExact` | pkg/virtualnode/pod/respod_admission.go:188-246 | after such a run a cached cluster network pod can be deleted iff its finalizer is gone or comes off, an ordinary host network pod always, an abbot pod iff no cluster network pod is cached and its own finalizer is gone or comes off; only that clears the record |
| `Admission.CreationExact` | pkg/virtualnode/pod/respod_admission.go:80-186 | a pod that was on the node before is cached as it is; a pending one is let in iff nothing stands against it, cached with its finalizer, recorded iff it is an abbot pod on the host network; a refusal changes nothing and has its reason |
| `Admission.ServedOnceAbbotRuns` | pkg/virtualnode/pod/respod_admission.go:106-147 | once the abbot pod is running, every pending cluster network pod is let in |
| `Admission.RunningPodIsUncovered` | pkg/virtualnode/pod/respod_admission.go:87-95 | a cluster network pod found running on an empty node is cached without one, and its deletion is refused |
| `Admission.LooksLikeAbbot` | pkg/virtualnode/pod/respod_admission.go:53-64 | the loop decides role label and container name together |
| `Admission.PodCache.Update` | pkg/util/cache/pod_cache.go:64-71 | writes both indexes |
| `Admission.PodCache.Remove` | pkg/util/cache/pod_cache.go:111-121 | removes the pod, the entry of its name and its remote mark |
| `Admission.PodCache.GetAll` | pkg/util/cache/pod_cache.go:73-83 | lists exactly the cached pods |
| `Admission.PodCache.Cleanup` | pkg/util/cache/pod_cache.go:123-136 | empties both indexes |
| `Admission.PodManager.AdmitPodCreation` | pkg/virtualnode/pod/respod_admission.go:80-186 | decides and changes the state as modelled, for either outcome of the finalizer patch |
| `Admission.PodManager.AdmitPodDeletion` | pkg/virtualnode/pod/respod_admission.go:188-246 | decides and changes the state as modelled, for either outcome of the finalizer patch |
| `ClusterRole.NewNodeClusterRole` | pkg/controller/edgedevice/node_clusterrole.go:360-432 | the loop builds the modelled role |
| `ClusterRole.ContainsAll` | pkg/controller/edgedevice/util.go:149-160 | true iff every expected verb is among the real ones |
| `ClusterRole.CheckRule` | pkg/controller/edgedevice/node_clusterrole.go:139-191 | accepts a rule iff it names devices, covers one known resource and includes the verbs required, with the overrides of a device named alone |
| `ClusterRole.CheckNames` | pkg/controller/edgedevice/node_clusterrole.go:199-220 | counting and striking out decides that the names are exactly the devices |
| `ClusterRole.CheckUpToDate` | pkg/controller/edgedevice/node_clusterrole.go:124-223 | true iff the role is not managed, or is labelled, has only good rules and names exactly the set of devices |
| `ClusterRole.BuiltNames` | pkg/controller/edgedevice/node_clusterrole.go:370-420 | the built role names exactly the devices that list no role or this one |
| `ClusterRole.BuiltRolePassesIff` | pkg/controller/edgedevice/node_clusterrole.go:360-432 | the built role passes its own check iff every device lists no cluster role permissions or lists this role |
| `ClusterRole.OtherRoleNeverPasses` | pkg/controller/edgedevice/node_clusterrole.go:370-420 | one device that lists another role for which it does not pass |
| `ClusterRole.BuiltRoleGrantsIff` | pkg/controller/edgedevice/node_clusterrole.go:360-432 | the built role grants a device its verbs on either resource iff the device is listed |
| `ClusterRole.BuiltRoleGrantsOnly` | pkg/controller/edgedevice/node_clusterrole.go:360-432 | every rule of the built role that names a device has exactly the verbs the device is meant to have |
| `ClusterRole.PassingRoleNames` | pkg/controller/edgedevice/node_clusterrole.go:124-223 | a role that passes is labelled, and its rules name every device and nothing else |
| `ClusterRole.FindsRemote` | pkg/controller/edgedevice/node_clusterrole.go:158-162 | a device missing from the store is looked up at the API server |
| `ClusterRole.PassingRoleGrantsIff` | pkg/controller/edgedevice/node_clusterrole.go:124-223 | a role that passes grants a device its verbs on a resource iff a rule for the resource names it alone, or the device overrides nothing, or the rule has the overridden verbs |
| `ClusterRole.PassesWithoutStatus` | pkg/controller/edgedevice/node_clusterrole.go:124-223 | a role without any rule for the status of nodes passes |
| `ServicePorts.RequiredPorts` | pkg/controller/edgedevice/svc_conn.go:343-365 | collects the ports of listening nodes and sorts them by name |
| `ServicePorts.RequiredIgnoresOrder` | pkg/controller/edgedevice/svc_conn.go:345-364 | the required ports do not depend on the order of the map walk |
| `ServicePorts.StrikePorts` | pkg/controller/edgedevice/svc_conn.go:147-159 | reports an unknown port iff a name is not required or repeated, and otherwise matching iff every entry is the required one |
| `ServicePorts.CheckServiceUpToDate` | pkg/controller/edgedevice/svc_conn.go:122-166 | for the managed name, an unknown port iff one has a name nobody requires or a repeated one; none and up to date iff the role label is right and the entries are a permutation of the required ones |
| `ServicePorts.BuiltServicePasses` | pkg/controller/edgedevice/svc_conn.go:343-378 | a freshly built service has one entry for each listening node and passes the check, in whatever order either walked the nodes |
| `Ordering.LessIsLexicographic` | pkg/virtualnode/pod/respod_volume.go:140-146 | names are ordered by the first character in which they differ, a prefix first |
| `Ordering.AnySortAgrees` | pkg/virtualnode/pod/respod_volume.go:140-146 | with distinct names, any sort by name gives the same list |
| `Volumes.AddVolumesInUse` | pkg/virtualnode/pod/respod_volume.go:109-149 | the loops and the two separate sorts compute the modelled lists |
| `Volumes.RemoveVolumeInUse` | pkg/virtualnode/pod/respod_volume.go:88-107 | the loop computes the modelled lists |
| `Volumes.SortKeepsAligned` | pkg/virtualnode/pod/respod_volume.go:140-146 | two aligned lists with distinct names stay aligned when sorted separately |
| `Volumes.AddEnumerates` | pkg/virtualnode/pod/respod_volume.go:109-149 | adding acts on the map the lists enumerate; a volume already there keeps its path |
| `Volumes.RemoveEnumerates` | pkg/virtualnode/pod/respod_volume.go:88-107 | removing acts on the map the lists enumerate |
| `Volumes.RunEnumerates` | pkg/virtualnode/pod/respod_volume.go:88-149 | after any run the lists are aligned, sorted and without repetition: they enumerate the map the same operations make |
| `Volumes.RemoveUndoesAdd` | pkg/virtualnode/pod/respod_volume.go:88-149 | removing what was just added to disjoint lists restores them exactly |
| `Conditions.TranslateNodeConditions` | pkg/virtualnode/remote_actions.go:231-285 | the nested loops compute each condition from the last previous one of its kind |
| `Conditions.AspectDecides` | pkg/virtualnode/remote_actions.go:231-261 | a healthy report means ready and free of pressure, an unspecified aspect unknown, and each aspect decides its own condition only |
| `Conditions.TransitionIsRunStart` | pkg/virtualnode/remote_actions.go:231-285 | after any sequence of reports each of the five conditions is there once, with the last status, and its transition time is that of the report which opened the current unbroken run of that status |
| `Conditions.RunStartIsUnique` | pkg/virtualnode/remote_actions.go:264-282 | there is only one such report |
| `Conditions.NodeCache.UpdateNodeCache` | pkg/virtualnode/remote_actions.go:192-199 | the cache holds the conditions of the whole history of reports |

## Left out

- AddressManager.IPAddressManager.AddAddressBlock: one address family per manager; a requested address is one of that family.
- AddressManager.IPAddressManager.Allocate: the call that never returns, which needs every address of the family in use, is a precondition here and an outcome of the pool's step.
- Parsing of CIDR and address texts: a text is what net.ParseCIDR and net.ParseIP make of it. IPv4-mapped prefixes are not modelled.
- Sessions.RunIsSafe: operations are atomic except that a dispatch is split after its table lookup; `SessionClose` splits the close of one session further; other interleavings inside deliverMsg and SetStream are not modelled. Ids are unbounded, without uint64 wrap-around.
- The sequence queue and the timeout queue are not part of this model: the sequence queue may release any chunks and complete at any time, timeouts fire at any time.
- SessionManager.Session.WriteToStream: the wait on canWrite and the choice of output stream are left out, and a send on the message channel never blocks. `Framing.WriteToStream` covers the bytes written.
- SessionManager.SessionManager.FinishDispatch: the SeqQueue's answer, the clock and the outcome of writes are parameters.
- GrpcStreams.StepKeepsOwnership: a stream may leave its loop at any time, which covers rejection, cancellation and the end of the connection. Entries of streams that returned while no device was connected stay behind, as in the code.
- Chunking.Pump: the terminal's timed read loop, which posts in the same way, is left out. Reads return at most the buffer's size, which the code takes as the smaller of the payload limit and 1 MiB.
- Framing.WriteToStream: a sink that takes nothing and reports no error, against the contract of io.Writer, is left out: the loop would not end.
- Admission.RunStaysCovered: the recorded abbot id is a pod id throughout. The code first stores a types.UID and later a string in the same atomic value, which atomic.Value refuses with a panic at the first abbot pod; the model goes on as if both were ids.
- Admission.StepCoveredIff: a pod's id is not empty and its place on the network never changes, as Kubernetes guarantees. API calls are a free success or failure.
- ClusterRole.CheckUpToDate: devices live in one namespace, so names are unique; keys are taken apart into names beforehand. API server look-ups are a map.
- ServicePorts.CheckServiceUpToDate: the list to compare with is one that the controller builds, with distinct names and each target port equal to its port. The protocol is not compared, as in the code.
- Conditions.TransitionIsRunStart: reports without conditions change nothing and are left out; clock readings are positive.
- Message queue connectivity (MQTT, AMQP, Azure, GCP), HTTP, SPDY and websocket handling, the Kubernetes API, storage and certificates: foreign interfaces.
- Pod role checks for the system and tenant namespaces, WireGuard peers, DNS, environment and pod spec translation: filtering and copying of fields.
- Extended node information in the node cache, with its decimal arithmetic on texts.
