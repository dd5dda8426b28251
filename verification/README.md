# Verified model of go-spdk-helper

A Dafny model of the four parts of the repository whose correctness takes an argument, with
proofs of what those parts promise. `dafny verify dfyconfig.toml` checks all of it.

## What is modelled

**Erasure-code shard sizing** (`pkg/spdk/types/ec_geometry.go`). `EcGeometry` holds the formulas
over unbounded integers, `EcFixpoint` defines the metadata size as the least self-consistent one
without mentioning the loop that finds it, and `SpdkReplay` is an independent account of what SPDK
carves out of a device, rounding down. `EcShard`, `EcGrowth` and `EcAdmission` compare the two for
every volume size. `EcMachine` is the code at its real width: wrapping 64-bit arithmetic, the
iteration and the binary search as loops, proved equal to the formulas.

**The asynchronous JSON-RPC client** (`pkg/jsonrpc/client.go`). `RpcDispatcher` states what the
three handlers do to the state they own, including the panics of closing a channel twice and of
sending on a closed one. `RpcProtocol` is the whole client as a step relation in which callers,
dispatcher, reader, server, timeouts and cancellation interleave in any order. `RpcSafety` is the
invariant of every run, `RpcGuarantees` what follows from it, and `RpcWitness` holds runs that show
where the guarantees end. `RpcLeaks` follows requests that reached the server without being logged, and `RpcProgress` says what
the client can always do next: serve a fresh call, let a caller go, stop. `RpcClient` is the code's
form of the handlers, over channel objects updated in place, proved against `RpcDispatcher`. Matching
responses to requests by `id` is what
section 5 ("Response object") of the JSON-RPC 2.0 Specification asks for.

**The ublk ID allocator** (`pkg/initiator/ublk_id_generator.go`): one call, and runs of calls.

**The NVMe/TCP path state machine** (`pkg/initiator`). `NvmeAddress` parses controller addresses,
`NvmeDevices` discovers devices and selects controllers with the code's loops, and `NvmeDiscovery` says
what they yield in terms of the rows and subsystems that the host printed. `NvmeInitiator` is the
initiator as a class whose methods connect, roll back, replace the device-mapper target and create the
endpoint. `HostKernel` is the host the commands act on: the device-mapper device and the endpoint node
are state, and what was scanned, listed, detected, connected, disconnected and changed through
device-mapper is kept as history. What the commands of an operation reply is a parameter of it
(`NvmeOutcomes`), so that contracts say exactly which replies make it succeed.

## Where the code and its comments part

- The growth test (`pkg/spdk/types/ec_geometry_test.go:134-168`) replays growth to the device sized
  for ten times the volume, and calls its success the invariant that admission relies on. Beyond the
  sizes it lists the replay can fail: a 40800092160-byte volume on 15 data disks with 16 KiB strips
  needs one mask page more than was reserved (`EcGrowth.TenfoldCanBeRefused`). Growth succeeds exactly when that mask
  fits (`GrowsTenfoldIffMaskFits`), and `GrowsTenfoldGuaranteed` gives a condition on volume size and
  data disks under which it always does; it covers every whole-cluster volume on up to 20 data disks.
  The ceiling in the code's comment, ten times the creation size of the device itself, does hold
  (`TenfoldOfCreationSizeGrows`).
- `MaxECVolumeSizeForCreation` is documented as the largest size that validation accepts. When even
  one byte is rejected (2^30 data disks with 1024 KiB strips, for instance) it answers 1, which
  validation rejects. It is the boundary exactly when one byte is accepted, which holds up to 2^29
  data disks (`MaxVolumeSizeForCreation`, `SmallestIsAccepted`, `SmallestCanBeRejected`).
- The allocator's comment and error say that every ID is in use. The loop never looks at the ID it
  issued last, so it fails exactly when every other ID is in use; that one may be free
  (`UblkIdGenerator.FailsWithLastFree`).
- A response that the dispatcher handles before the caller has reached its wait is dropped, and the
  caller sees a closed channel (`RpcWitness.EarlyResponseIsLost`).
- A request whose encoding fails after it reached the server gives its ID to the next request, whose
  caller may then receive the other caller's answer (`LeakedRequestIsMisanswered`). An answer
  handed over after more than 2^32 sends from its own request on goes astray the same way
  (`LateAnswerIsMisdelivered`); one handed over earlier never does
  (`RpcGuarantees.AnsweredByOwnResponse`).
- `ConnectTargetWithNrIoQueues` indexes the first controller of a discovered device without checking
  that there is one. For a named subsystem there always is one; the index fails exactly when the name
  is empty and the unfiltered scan puts a device without controllers first
  (`NvmeInitiator.ConnectTarget`, with a scan that does so in `ConnectCanPanic`). The controller it
  returns may stand at another address than the requested one, when the device has several paths
  (`NvmeDevices.FirstControllerAtAddress`, `FirstControllerElsewhere`).
- The connection that a failed load takes down is called orphaned. It is a controller of the requested
  name, address and port, but it may have existed before: `DiscoverAndConnectNVMeTCPTarget` issues a
  connect only if the scan finds no device, and otherwise reports success for a controller that the
  scan or the listing shows (`pkg/initiator/nvme.go:51-53`, `pkg/initiator/initiator.go:910-916`);
  `LoadConnectedPath` disconnects either kind.
- A start with cleanup whose device-mapper device stays busy succeeds even if the target could not be
  replaced. `Export` is then the device-mapper device exactly if its numbers were read after the
  reload, and 0:0 otherwise; the endpoint is then a node for 0:0, which has the numbers of the exported
  device, but that device is none (`pkg/initiator/initiator.go:546-556`, `Relaunched`, and a run in
  `PublishesNoDevice`).

## Assumptions

- The code states no bound on the number of data disks. The machine-width results hold up to
  `EcMachine.MAX_DISKS` = 2^41; at four times as many even the usable size of one byte leaves 64 bits
  (`EcMachine.BoundIsNeeded`). The results over unbounded integers hold for any number.
- Strip sizes divide 2 MiB. The documented ones (`EcGeometry.ValidStrip`) all do.
- Sockets, JSON, timers and scheduling are nondeterministic outcomes, command replies arbitrary
  parameters. The retry library is a loop of at most the configured number of attempts.
- While an operation runs, nothing but the initiator's own commands changes the volume's
  device-mapper device and endpoint node: the per-volume file lock serializes operations.

## Model

| member | source | states |
|---|---|---|
| EcGeometry.MetadataClustersMonotone | pkg/spdk/types/ec_geometry.go:94-102 | More clusters never cost fewer metadata clusters. |
| EcGeometry.MetadataClustersBound | pkg/spdk/types/ec_geometry.go:94-102 | The metadata is about one per cent: at most (clusters + 200) / 100, the bound that makes the iteration end. |
| EcGeometry.DataClustersMonotone | pkg/spdk/types/ec_geometry.go:94-102 | Growing a device by n clusters adds at most n metadata clusters, so the data clusters left never decrease. |
| EcGeometry.ValidStripDivides | pkg/spdk/types/ec_geometry.go:137-140 | Every documented strip size divides the 2 MiB alignment, which is all the exactness argument uses. |
| EcFixpoint.EnoughFor | pkg/spdk/types/ec_geometry.go:107-117 | For every data size there is a metadata budget that pays for itself; it bounds the iteration. |
| EcFixpoint.RoundStaysBelow | pkg/spdk/types/ec_geometry.go:107-117 | An estimate below every sufficient budget is still below all of them after one more round. |
| EcFixpoint.Climb | pkg/spdk/types/ec_geometry.go:107-117 | Iterating from below ends, for every data size, in a self-consistent value that no sufficient budget undercuts. |
| EcFixpoint.LeastSettled | pkg/spdk/types/ec_geometry.go:107-117 | There is a least m with metadata(data + m) = m, and no budget that suffices is smaller. |
| EcFixpoint.LeastSettledMonotone | pkg/spdk/types/ec_geometry.go:107-117 | The fixed point never shrinks when the data grows. |
| EcFixpoint.LeastSettledClusters | pkg/spdk/types/ec_geometry.go:107-117 | The fixed point is a whole number of clusters, charged on the data clusters plus itself, and at most 1/99 of the data clusters plus four. |
| EcFixpoint.LeastSettledTenfold | pkg/spdk/types/ec_geometry.go:107-117 | Ten times the data needs at most ten times the metadata. |
| SpdkReplay.ReservationMatchesLayout | pkg/spdk/types/ec_geometry.go:16-31 | For every strip size the front reservation is the on-disk layout: as many 64-bit words as fit a write-intent strip beside its header and CRC, a bitmap blob of a bit per stripe with header and CRC, the least number of strips that hold it, twice, and the commit and write-intent strips. |
| SpdkReplay.ReservationIsUnique | pkg/spdk/types/ec_geometry.go:16-31 | Only one number of strips is that layout. |
| SpdkReplay.FrontReservationValues | pkg/spdk/types/ec_geometry_test.go:12-39 | The reservations of all nine documented strip sizes, in strips and in bytes. |
| SpdkReplay.CarveAgrees | pkg/spdk/types/ec_geometry_test.go:83-89 | For every cluster count SPDK's carve, written with its own rounding, is the charge of the sizing code. |
| EcShard.LeastAlignedShard | pkg/spdk/types/ec_geometry.go:126-133 | The computed shard is 2 MiB-aligned, and an aligned shard's k-fold data area covers volume plus metadata if and only if it is no smaller. |
| EcShard.UsableCoversBacking | pkg/spdk/types/ec_geometry.go:142-148 | The usable size covers volume plus metadata and exceeds it by less than k alignment units. |
| EcShard.UsableMonotone | pkg/spdk/types/ec_geometry.go:150-166 | The usable size never decreases with the volume, which is what justifies the binary search. |
| EcShard.WholeStrips | pkg/spdk/types/ec_geometry_test.go:199-218 | On an aligned shard whole-strip truncation drops nothing, for any strip size that divides the alignment. |
| EcShard.UsableSizeIsExact | pkg/spdk/types/ec_geometry.go:135-148 | The usable size equals SPDK's truncating whole-strip geometry of the computed shard, for every volume, k and strip size. |
| EcShard.ClustersCoverDataAndMetadata | pkg/spdk/types/ec_geometry.go:119-133 | The device has at least a cluster per cluster of data plus the settled metadata; this uses the spare cluster. |
| EcShard.ShardBacksVolume | pkg/spdk/types/ec_geometry_test.go:55-101 | For every volume, k and strip size, SPDK's geometry and metadata carve of the computed shard leave at least ceil(volume / cluster) data clusters. |
| EcGrowth.FrozenBudgetCoversTenfold | pkg/spdk/types/ec_geometry_test.go:124-133 | For every volume the page budget frozen at creation, and the clusters beside the frozen metadata after growth, both cover ten times the volume. |
| EcGrowth.GrowsTenfoldIffMaskFits | pkg/spdk/types/ec_geometry_test.go:107-134 | A store grows to ten times its creation size if and only if the grown cluster mask fits the region reserved at creation. |
| EcGrowth.MaskFitsWithinTenfold | pkg/spdk/types/ec_geometry_test.go:122-127 | The mask fits whenever the grown device has at most ten times the clusters of the created one. |
| EcGrowth.TenfoldOfCreationSizeGrows | pkg/spdk/types/ec_geometry.go:45-66 | A device grown to at most ten times the clusters it was created with backs a volume if and only if the volume fits beside the frozen metadata; the frozen budget and mask are never what refuses it. |
| EcGrowth.GrowsTenfoldGuaranteed | pkg/spdk/types/ec_geometry_test.go:134-168 | Growth to ten times succeeds when ten times the volume's odd bytes plus k alignment units fit ten clusters. |
| EcGrowth.TenfoldCanBeRefused | pkg/spdk/types/ec_geometry_test.go:134-168 | A 2 MiB-aligned volume on 15 data disks for which growth to ten times is refused, with its cluster counts. |
| EcGrowth.BudgetStopsShortOfElevenfold | pkg/spdk/types/ec_geometry_test.go:174-183 | From 1 GiB on and up to 32 data disks, the frozen budget cannot cover eleven times the volume, whatever the device grows to. |
| EcGrowth.FrozenSizes | pkg/spdk/types/ec_geometry_test.go:41-50 | The metadata, shard and usable sizes of the 33 GiB production geometry are the frozen ones. |
| EcAdmission.AcceptanceIsDownwardClosed | pkg/spdk/types/ec_geometry.go:150-166 | If a size is accepted, every smaller positive size is. |
| EcAdmission.AcceptsIffPageCountFits | pkg/spdk/types/ec_geometry.go:68-73 | A size is accepted if and only if SPDK's metadata page count for its device fits 32 bits. |
| EcAdmission.CapIsThePageLimit | pkg/spdk/types/ec_geometry_test.go:185-197 | At the creation cap the metadata page count fits 32 bits, and one cluster more does not. |
| EcAdmission.NothingIsAccepted | pkg/spdk/types/ec_geometry.go:142-148 | A non-positive volume or number of data disks has usable size 0 and is accepted. |
| EcAdmission.CapIsRejected | pkg/spdk/types/ec_geometry_test.go:251-260 | The raw cap itself is never accepted, for any number of data disks. |
| EcAdmission.SmallestIsAccepted | pkg/spdk/types/ec_geometry.go:153-169 | Up to 2^29 data disks one byte is accepted, so a largest accepted size exists. |
| EcAdmission.SmallestCanBeRejected | pkg/spdk/types/ec_geometry.go:150-169 | On 2^30 data disks with 1024 KiB strips even one byte is rejected. |
| EcAdmission.BoundaryFromSplit | pkg/spdk/types/ec_geometry.go:158-169 | Where the search ends is the accept/reject boundary if and only if one byte is accepted. |
| EcMachine.FrontReservationFits | pkg/spdk/types/ec_geometry.go:23-36 | The 64-bit front reservation wraps nowhere and underflows nowhere, for every strip size that divides the alignment. |
| EcMachine.MetadataBytesFit | pkg/spdk/types/ec_geometry.go:83-102 | The 64-bit metadata charge is the unbounded one for every device up to a cluster short of 2^64 bytes. |
| EcMachine.LvstoreMetadataBytes | pkg/spdk/types/ec_geometry.go:107-117 | The loop ends for every 64-bit input and returns the least fixed point plus a cluster for every size below 2^63. |
| EcMachine.SizingFits | pkg/spdk/types/ec_geometry.go:126-148 | For every int64 volume and up to 2^41 data disks no intermediate of the sizing chain leaves its width. |
| EcMachine.BoundIsNeeded | pkg/spdk/types/ec_geometry.go:142-148 | At four times the bound on data disks the usable size of a one-byte volume no longer fits uint64. |
| EcMachine.ComputeShardSize64 | pkg/spdk/types/ec_geometry.go:126-133 | Returns the unbounded shard size, read as int64, and exactly it for volumes up to 2^62; the volume unchanged for non-positive volume or k. |
| EcMachine.UsableSize64 | pkg/spdk/types/ec_geometry.go:142-148 | Returns the unbounded usable size for every int64 volume, also where the shard size itself passes 2^63, and 0 for non-positive volume or k. |
| EcMachine.MaxVolumeSizeForCreation | pkg/spdk/types/ec_geometry.go:153-169 | The search ends; its result is the accept/reject boundary if and only if one byte is accepted, is 1 otherwise, and is strictly below the raw cap. |
| EcMachine.ValidateCreationSize | pkg/spdk/types/ec_geometry.go:175-182 | Accepts exactly the acceptable sizes, non-positive ones among them; a refusal reports its arguments and the boundary. |
| RpcSafety.InitSound | pkg/jsonrpc/client.go:53-81 | A new client satisfies the invariant, for every starting ID. |
| RpcSafety.StepKeeps | pkg/jsonrpc/client.go:153-321 | Every step of every participant keeps the invariant of channels, send log, pending map, fates, responses and limits. |
| RpcSafety.RunKeeps | pkg/jsonrpc/client.go:153-321 | The invariant holds over runs of any length. |
| RpcSafety.RecvMatches | pkg/jsonrpc/client.go:176-192 | The entry a response is matched with is the send it answers, exactly as long as at most 2^32 sends were logged from that send on; and the server did emit the response. |
| RpcLeaks.RunKeepsLeaks | pkg/jsonrpc/client.go:159-174 | Over any run a leaked call is neither queued nor logged, and every response in flight or returned that names a leaked call names one that leaked. |
| RpcGuarantees.NeverPanics | pkg/jsonrpc/client.go:153-192 | In every reachable state no channel was closed twice or sent on after close, both maps have the same keys, and pending channels are distinct and open, whatever the server sends and even when the counter wraps. |
| RpcGuarantees.SendsAreNumbered | pkg/jsonrpc/client.go:159-174 | The n-th successful send carries start + n modulo 2^32, and no call sends twice. |
| RpcGuarantees.AnsweredByOwnResponse | pkg/jsonrpc/client.go:176-192 | A response returned to a caller carries the ID of that caller's request; if it was meant for a logged send, it answers the caller's own if and only if at most 2^32 sends were logged from the one it was meant for, that one included, up to the hand-over. |
| RpcGuarantees.LeakedAnswerIsForeign | pkg/jsonrpc/client.go:159-174 | An answer meant for a request that was sent without being logged is another call's, and such a request was leaked; a run that leaks none hands out no such answer. |
| RpcGuarantees.ClosedChannelMeansLost | pkg/jsonrpc/client.go:302-305 | A caller told that its channel is closed had its request sent, and either a response under its ID was dropped, which was the answer to that very request under the condition of `AnsweredByOwnResponse`, or the client was shut down first. |
| RpcGuarantees.NoResponseReachesTwoCallers | pkg/jsonrpc/client.go:176-192 | Two callers are never returned the same response. |
| RpcGuarantees.ConcurrencyIsLimited | pkg/jsonrpc/client.go:262-274 | At most 1024 callers are past the semaphore at any time. |
| RpcGuarantees.SendsAreConserved | pkg/jsonrpc/client.go:153-206 | Every successful send is in exactly one of: pending, delivered, dropped and closed, closed by shutdown, overwritten; the last only after 2^32 further sends. |
| RpcGuarantees.WithinWindowNothingIsOverwritten | pkg/jsonrpc/client.go:159-174 | No entry is overwritten as long as fewer than 2^32 sends succeed beside any pending entry. |
| RpcGuarantees.SendsAreConservedWithinWindow | pkg/jsonrpc/client.go:153-206 | Over any run inside that window every successful send is in exactly one of the first four states. |
| RpcProgress.CancelStops | pkg/jsonrpc/client.go:153-206 | From every reachable running state, cancelling the context lets the dispatcher shut down; then it is stopped, every send that was pending is closed by shutdown with its channel closed, and nothing settled before changes. |
| RpcProgress.ShutdownReleasesCallers | pkg/jsonrpc/client.go:299-305 | After that shutdown a caller with a pending request can return with a cancellation, and with a closed channel, and exactly that is recorded. |
| RpcProgress.CallerCanTimeOut | pkg/jsonrpc/client.go:299-308 | Every caller inside the guarded section can time out; exactly that is recorded, it gives back the semaphore, and nobody else is affected. |
| RpcProgress.CallerCanLeave | pkg/jsonrpc/client.go:299-301 | Once the context is cancelled, every such caller can return with exactly that error. |
| RpcProgress.CallerCanBeTurnedAway | pkg/jsonrpc/client.go:265-279 | A caller that is not let in, or whose parameters cannot be marshalled, returns with exactly that error and holds nothing. |
| RpcProgress.CallerSeesClosedChannel | pkg/jsonrpc/client.go:302-305 | A caller past the queue whose channel is closed can return with exactly that. |
| RpcProgress.CallerCanQueue | pkg/jsonrpc/client.go:291-297 | A caller that was let in can queue its message behind the others as long as there is room for it among 1024. |
| RpcProgress.ReaderCanQueue | pkg/jsonrpc/client.go:233-239 | The reader can queue the next response behind the others as long as there is room for it among 1024. |
| RpcProgress.ReaderCanDrop | pkg/jsonrpc/client.go:233-239 | A response that waited too long for room is lost, and only that one. |
| RpcProgress.FreshCallCanBeAnswered | pkg/jsonrpc/client.go:244-321 | From every reachable running state with a free semaphore slot, however much is queued or in flight, there is a run that ends with a fresh call holding the answer to its own request. |
| RpcProgress.ShutdownClosesPending | pkg/jsonrpc/client.go:153-157 | A run from the start in which a waiting caller is handed a closed channel by the shutdown. |
| RpcWitness.EarlyResponseIsLost | pkg/jsonrpc/client.go:186-191 | A run without timeout, cancellation or misbehaving server in which a caller loses its answer and sees a closed channel. |
| RpcWitness.LeakedRequestIsMisanswered | pkg/jsonrpc/client.go:159-174 | A run in which a failed encode that reached the server leads to another caller receiving its answer. |
| RpcWitness.ManyTimeouts | pkg/jsonrpc/client.go:299-308 | Any number of requests can be sent in order by callers that all time out. |
| RpcWitness.LateAnswerIsMisdelivered | pkg/jsonrpc/client.go:171-172 | A run of 2^32 + 1 sends in which the late answer to the first request reaches another caller, so the bound of 2^32 is exact. |
| RpcClient.ResponseChan.TrySend | pkg/jsonrpc/client.go:186-190 | The response is taken exactly when the caller is parked, and lost otherwise; the channel must be open. |
| RpcClient.Client.HandleSend | pkg/jsonrpc/client.go:159-174 | Updates counter and both maps in place as specified; a failed encode changes nothing. |
| RpcClient.Client.HandleRecv | pkg/jsonrpc/client.go:176-192 | Removes the entry, hands the response to that channel only, and closes it without ever touching a closed channel. |
| RpcClient.Client.HandleShutdown | pkg/jsonrpc/client.go:153-157 | Closes every pending channel once, in any map order, and closes no other. |
| UblkIdGenerator.NextId | pkg/initiator/ublk_id_generator.go:25-40 | What a call must return: the first free ID in cyclic order after the last one, and nothing exactly when every ID other than the last is in use. |
| UblkIdGenerator.NextIsUnique | pkg/initiator/ublk_id_generator.go:25-37 | At most one ID is the first free one in cyclic order. |
| UblkIdGenerator.FailsWithLastFree | pkg/initiator/ublk_id_generator.go:39-40 | A call fails on the list of all IDs but the one issued last, although that one is free. |
| UblkIdGenerator.FailsIffOthersListed | pkg/initiator/ublk_id_generator.go:19-40 | A call fails exactly when every ID from 1 to 65535 other than the last one issued is in the list. |
| UblkIdGenerator.IDGenerator.constructor | pkg/initiator/ublk_id_generator.go:10-13 | A new generator has issued nothing. |
| UblkIdGenerator.IDGenerator.GetAvailableID | pkg/initiator/ublk_id_generator.go:15-41 | Returns exactly that ID, between 1 and 65535 and not in the list, and records it, leaves the state alone on failure, and never overflows an int32. |
| UblkIdGenerator.UnservedStep | pkg/initiator/ublk_id_generator.go:25-37 | While an ID is free and not issued, each call succeeds and moves strictly towards it without passing it. |
| UblkIdGenerator.RoundRobin | pkg/initiator/ublk_id_generator.go:15-41 | Over any calls with arbitrary lists, between two issues of one ID every other ID is issued or reported in use. |
| UblkIdGenerator.ConsecutiveIssuesDiffer | pkg/initiator/ublk_id_generator.go:15-41 | Two successive successful calls return different IDs, even with stale lists and failures in between. |
| UblkIdGenerator.NoStarvation | pkg/initiator/ublk_id_generator.go:15-41 | An ID that stays free is issued within as many calls as it is steps away. |
| NvmeAddress.GetIPAndPortFromControllerAddress | pkg/initiator/nvmecli.go:422-444 | The loop computes the parse that the next rows describe. |
| NvmeAddress.FieldsOfPrint | pkg/initiator/nvmecli.go:425-427 | Splitting at commas and spaces recovers the printed fields in order, for any separators between them. |
| NvmeAddress.SpaceIsWhiteSpace | pkg/initiator/nvmecli.go:432-433 | What is trimmed are exactly the characters with the Unicode property White_Space. |
| NvmeAddress.TrimTakesEnds | pkg/initiator/nvmecli.go:432-433 | Trimming takes white space off both ends, nothing else, and leaves none there. |
| NvmeAddress.ParseInvertsPrint | pkg/initiator/nvmecli.go:419-444 | Parsing printed fields gives the last `traddr` and the last `trsvcid`, whatever other fields, words without `=` and separators surround them; values may contain `:` and `=`. |
| NvmeAddress.AddressAndPortRoundTrip | pkg/initiator/nvmecli.go:419-421 | An address and a port come back unchanged from the printed form, for any separators between them. |
| NvmeAddress.DocumentedForms | pkg/initiator/nvmecli.go:419-421 | Any address and port of visible ASCII characters without a comma come back in the space form and in the comma form. |
| NvmeAddress.DocumentedAddresses | pkg/initiator/nvmecli.go:419-421 | The three documented examples are parsed as documented. |
| NvmeDevices.GetDevices | pkg/initiator/nvme.go:96-299 | The nested loops compute the discovery that the next rows describe. |
| NvmeDevices.MatchingDevices | pkg/initiator/nvme.go:177-200 | The filtering loops compute the selection that `SelectKeepsMatches` describes. |
| NvmeDevices.MultipathFallback | pkg/initiator/nvme.go:218-269 | The fallback loops compute the devices that `FallbackRoutes` describes. |
| NvmeDiscovery.BaseIsLastElement | pkg/initiator/nvme.go:154-155 | The namespace name is what stands between the last slash of the device path, trailing ones aside, and its end. |
| NvmeDiscovery.UnfilteredDiscovery | pkg/initiator/nvme.go:104-175 | A discovery without a name fails exactly when the listing does or a row has several subsystems behind it; otherwise it yields, in order, exactly one device per row with a single readable subsystem, with that subsystem's name, NQN and paths field by field and the row's namespace. |
| NvmeDiscovery.DirectDiscovery | pkg/initiator/nvme.go:177-200 | If rows match directly, a named discovery succeeds with exactly their devices, in order, field by field; an empty address or port stands for any. |
| NvmeDiscovery.FallbackDiscovery | pkg/initiator/nvme.go:202-298 | Without a direct match it succeeds exactly if a row has the name and the unfiltered listing a serving subsystem; it then yields one device per serving subsystem, in order, with all its controllers over the namespace of the first such row. |
| NvmeDevices.SelectKeepsMatches | pkg/initiator/nvme.go:177-200 | Filtering keeps exactly the scanned devices of the subsystem with a controller at the address. |
| NvmeDevices.FallbackRoutes | pkg/initiator/nvme.go:202-270 | Every device of the multipath fallback is of the subsystem, has one named namespace and a controller at the address; one is found if and only if a device of the subsystem was scanned and a listed path matches. |
| NvmeDevices.DevicesHaveOneNamespace | pkg/initiator/nvme.go:154-168 | Every device discovered, for a name or for none, has exactly one namespace, and its name is not empty. |
| NvmeDevices.DevicesMatchRequest | pkg/initiator/nvme.go:96-299 | For a named subsystem a success is a non-empty list of its devices, each with one named namespace and a controller at the address, on the fallback path too. |
| NvmeDevices.DevicesFoundIff | pkg/initiator/nvme.go:173-299 | When a named subsystem is found, in both directions; direct matches are neither lost nor mixed with fallback ones. |
| NvmeDevices.SelectControllerForNVMeDevice | pkg/initiator/initiator.go:1191-1216 | The loops choose by address, else by recorded name, else the first controller. |
| NvmeDevices.FirstAtFinds | pkg/initiator/initiator.go:1196-1203 | A controller is chosen by address if and only if one stands at the address, and it does stand there. |
| NvmeDevices.SelectionIsListed | pkg/initiator/initiator.go:1191-1216 | Whatever the choice falls back to, it is one of the device's controllers, and it fails only without any. |
| NvmeDiscovery.ControllerChoice | pkg/initiator/initiator.go:1191-1216 | Which controller is chosen, by position: the first at the address if any, else the first of the recorded name if any, else the first; it fails exactly without controllers. |
| NvmeDevices.SelectsByAddress | pkg/initiator/initiator.go:1191-1216 | For a discovered device and a full request the choice is at the requested address and does not depend on the recorded name. |
| NvmeDevices.FirstControllerAtAddress | pkg/initiator/nvme.go:51-53 | The first controller of a discovered device stands at the requested address whenever it is the only one, and otherwise if and only if choosing by address chooses it. |
| NvmeDevices.DirectMatchStandsThere | pkg/initiator/nvme.go:202-217 | Where a device path lists only its owning path, the first controller of every device found without the fallback stands at the requested address. |
| NvmeDevices.FirstControllerElsewhere | pkg/initiator/nvme.go:202-270 | For any two paths at different addresses, a scan that lists one path behind the device path and is found at the other one's address by the fallback: its device has the owning path's controller first. |
| NvmeDevices.FindRoute | pkg/initiator/initiator.go:952-963 | The nested loops find the first path that `FirstRouteFinds` describes. |
| NvmeDevices.FirstRouteFinds | pkg/initiator/nvme.go:81-92 | The path found belongs to a listed subsystem of that name at that address; none is found only if there is none. |
| NvmeDiscovery.RouteChoice | pkg/initiator/nvme.go:81-92 | The path found is the first, in the order of the listing, at exactly this name, address and port. |
| NvmeOutcomes.LoadsIff | pkg/initiator/initiator.go:1150-1189 | A load of a named subsystem works exactly if the listing is readable and unambiguous, exactly one row matches directly or none does and exactly one listed subsystem serves beside a row of that name, and the device is detected. |
| NvmeOutcomes.WaitsAreSixty | pkg/initiator/initiator.go:773-787 | A waiting finds a load that works at any of its sixty attempts, and none later. |
| NvmeOutcomes.FirstSettledDecides | pkg/initiator/initiator.go:881-941 | The first attempt that settles anything decides; without one nobody is reached. |
| NvmeOutcomes.ConnectsAreFifteen | pkg/initiator/initiator.go:881-941 | Fifteen attempts are made at connecting. |
| NvmeOutcomes.RepeatedIff | pkg/initiator/initiator.go:882-923 | An attempt is repeated exactly if no name is configured and none discovered, or no device is found and a read or the connect is refused; "already connected" settles the matter either way. |
| NvmeOutcomes.LockingByCase | pkg/initiator/initiator.go:164-176 | The lock is needed only with a host proc directory, which must be the supported one. |
| NvmeOutcomes.DevPathOfName | pkg/initiator/initiator.go:1179 | A namespace is detected at its path under /dev. |
| NvmeOutcomes.EndpointLoadsByCase | pkg/initiator/initiator.go:1243-1259 | When an existing endpoint can be taken over, case by case. |
| NvmeOutcomes.ReplacingNeedsEveryReply | pkg/initiator/initiator.go:453-481 | Replacing needs a device and every reply, the suspend only of a running device; reading the numbers needs all but the resume. |
| NvmeOutcomes.NodeCreatableByCase | pkg/initiator/initiator.go:605-630 | When the endpoint can be created: over nothing, over the device's own node, over anything else. |
| NvmeOutcomes.CleansUpByCase | pkg/initiator/initiator.go:991-1010 | When cleaning up works: a missing device-mapper device is no error, one in use only on request. |
| NvmeInitiator.ConnectTarget | pkg/initiator/nvme.go:48-65 | Its exact answer: the first controller of a device found, without a command; refused if the host name or ID cannot be read; else the reply of a connect command for exactly this request. The unchecked index fails if and only if the name is empty and the scan puts a device without controllers first. |
| NvmeInitiator.ConnectCanPanic | pkg/initiator/nvme.go:51-53 | A scan with one row whose subsystem has no path makes that index fail, for any address and port. |
| NvmeInitiator.DisconnectController | pkg/initiator/nvme.go:76-93 | Sends exactly one disconnect if a controller is listed under that name, address and port, of the first such, and none otherwise; succeeds exactly if the listing does and the disconnect, if any, does. |
| NvmeInitiator.Initiator.NewInitiator | pkg/initiator/initiator.go:119-154 | An initiator is created if and only if the name is not empty, exactly one kind of frontend is given with a non-empty identifying name, and a command executor can be had; it starts down, without device, at the volume's endpoint path. |
| NvmeInitiator.Initiator.LoadNVMeDeviceInfoWithoutLock | pkg/initiator/initiator.go:1150-1189 | Exactly when it works and what record it leaves, failures included. On success the namespace, one controller with its address, and the source detected at the namespace's path are those of the one device found; with address, port and name given, exactly those are recorded, and a failure records them or nothing; the subsystem name never changes. |
| NvmeInitiator.Initiator.WaitAndLoadNVMeDeviceInfoWithoutLock | pkg/initiator/initiator.go:770-800 | Works exactly if some attempt does; the source is that of the first that does; the load guarantees over all attempts. |
| NvmeInitiator.Initiator.ReuseExistingNVMeTCPPathWithoutLock | pkg/initiator/initiator.go:802-820 | Exactly when it answers true, false and an error, and what record it leaves: true if the recorded path loads, is the requested one and gets ready, false if it loads and is another; a path recorded in full stays as it was, whatever fails. |
| NvmeInitiator.Initiator.DiscoverAndConnectNVMeTCPTarget | pkg/initiator/initiator.go:876-941 | Exactly the connection that its attempts come to. A configured subsystem name is the one connected; a connect command gets through at most once, only in a success and only if the scan found no device, and a success without one is of the first controller of the device found or of one listed at exactly the address; the index crash needs an empty name and a bare device. |
| NvmeInitiator.Initiator.RecordConnectedNVMeTCPInfo | pkg/initiator/initiator.go:857-874 | Records the subsystem name even when the controller name is missing, and reports that as failure. |
| NvmeInitiator.Initiator.LoadConnectedPath | pkg/initiator/initiator.go:835-854 | After a connect: works exactly if a controller is named and some attempt loads; success records the requested path and the device discovered there, and disconnects nothing; any failure restores the record and the device exactly, and disconnects the first controller listed at that name, address and port, whether or not this call created it. |
| NvmeInitiator.Initiator.ConnectAndLoadPath | pkg/initiator/initiator.go:829-855 | From the state the reuse probe left: works exactly if connecting reaches a named controller and its device loads; any failure leaves record and device exactly as the probe left them, and a connection made here is not left without trying to disconnect it. |
| NvmeInitiator.Initiator.EnsureNVMeTCPPathWithoutLock | pkg/initiator/initiator.go:822-855 | Works exactly if the recorded path can be reused or `ConnectAndLoadPath` works: success records the requested path and the device discovered there, and disconnects nothing; failure leaves the record as the probe left it and tries to disconnect what a connect command made; only a controller of that name, address and port is ever disconnected, whether or not this call created it. |
| NvmeInitiator.Initiator.ConnectNVMeTCPPathWithoutLock | pkg/initiator/initiator.go:287-303 | Works exactly if the recorded path can be reused or connecting reaches a controller, which then backs the request; the record is as the probe left it, and nothing is disconnected. |
| NvmeInitiator.Initiator.LoadEndpointForNvmeTcpFrontend | pkg/initiator/initiator.go:1239-1274 | Exactly when it works. Success means up, with a block node at the endpoint serving the exported device, a known source kept and, unless busy, the recorded namespace among that device's dependencies; failure changes nothing. |
| NvmeInitiator.Initiator.MakeEndpoint | pkg/initiator/initiator.go:1287-1293 | Succeeds exactly if there is a device, an endpoint path, no node yet and the node can be made; then the node has the exported device's numbers and the initiator is up. |
| NvmeInitiator.Initiator.CreateEndpoint | pkg/initiator/initiator.go:605-630 | Exactly when it works, with and without a device; with one, a block node at the endpoint then serves the exported device. |
| NvmeInitiator.Initiator.RemoveEndpoint | pkg/initiator/initiator.go:1295-1306 | Exactly when it works; success leaves no node, no device and not up; failure keeps device and up. |
| NvmeInitiator.Initiator.CleanUp | pkg/initiator/initiator.go:991-1010 | Exactly when cleaning up works and when the device stays busy; then the endpoint is gone, and the device-mapper device unless busy or deferred. |
| NvmeInitiator.Initiator.ValidateDiskCreation | pkg/initiator/initiator.go:1355-1388 | Works exactly if the node is ready at one of the attempts. |
| NvmeInitiator.Initiator.IsNamespaceExist | pkg/initiator/initiator.go:1218-1228 | Whether the recorded namespace is in the list. |
| NvmeInitiator.Initiator.Lock | pkg/initiator/initiator.go:504-510 | Locks exactly when no lock is needed or the file lock can be taken. |
| NvmeInitiator.Initiator.CreateLinearDmDevice | pkg/initiator/initiator.go:1318-1353 | Works exactly if there is no such device and every command works, its node appearing within the attempts; success exports a running device-mapper device mapped onto the source by one create command. |
| NvmeInitiator.Initiator.ReloadLinearDmDevice | pkg/initiator/initiator.go:1491-1528 | Succeeds exactly if the size is read, the table loaded and the numbers read; then the table onto the source is loaded but not live, and the device is exported; failure leaves the export alone. |
| NvmeInitiator.Initiator.ReplaceDmDeviceTarget | pkg/initiator/initiator.go:453-481 | Works exactly if every command it needs does; it then has suspended a running device, reloaded onto the source and resumed, in this order, and the device runs with its live table on the current source. The device-mapper device is exported exactly if its numbers were read, and the export is left alone otherwise. |
| NvmeInitiator.Initiator.StopWithoutLock | pkg/initiator/initiator.go:988-1040 | Exactly when it works and when it reports busy: cleaning up works, a missing device-mapper device being no error, and the disconnect does. Every outcome: a busy device stays and, where that is an error, nothing else changes; the subsystem is disconnected at most once, and only after the endpoint is gone when cleaning up; success clears the record, failure keeps it. |
| NvmeInitiator.Initiator.Publish | pkg/initiator/initiator.go:546-574 | Exactly when it works. Busy afterwards exactly if replacing the target did not work; the export is then the device-mapper device exactly if its numbers were read, and unchanged otherwise; success leaves the initiator up with a node for the export. |
| NvmeInitiator.PublishesNoDevice | pkg/initiator/initiator.go:546-574 | With a busy device-mapper device whose first query fails and every other command working, the start succeeds with a node for 0:0 and no exported device. |
| NvmeInitiator.Initiator.Relaunch | pkg/initiator/initiator.go:530-575 | Works exactly if stopping (when asked to), ensuring the path, creating the device-mapper device (unless skipped or still busy) and the endpoint node do. Record and source are then of the device discovered at the requested address; it disconnected exactly when asked to stop; the export is the running device-mapper device on the current source, or the source itself; busy is reported exactly if the device was not stopped or stayed in use and replacing did not work, and the export is then the device-mapper device if its numbers were read, and none otherwise. |
| NvmeInitiator.Initiator.StartNvmeTCPInitiator | pkg/initiator/initiator.go:484-575 | Works exactly if the arguments and the lock are in order and either the initiator is found up or the relaunch works. On success, on every path, the endpoint has the numbers of the exported device, the initiator is up, and record and source are of the one device that discovery found for the requested address and port; found up means an untouched host, an exported device that depends on the recorded namespace, and no other path recorded before. |
| NvmeInitiator.FirstStart | pkg/initiator/initiator.go:484-575 | The first start of a volume works: with no device-mapper device, no endpoint and no device yet, a stop that finds nothing to remove, and a connect after which the device appears. |
| NvmeInitiator.Initiator.Stop | pkg/initiator/initiator.go:967-986 | Under the lock, exactly when `StopWithoutLock` works and every outcome of it; identity and validity are kept whatever fails. |
| NvmeInitiator.Initiator.ConnectNVMeTCPPath | pkg/initiator/initiator.go:257-262 | Exactly when it works, and under the lock what `ConnectNVMeTCPPathWithoutLock` guarantees; nothing is disconnected, and neither device-mapper nor endpoint is touched. |
| NvmeInitiator.Initiator.ReconnectNVMeTCPPath | pkg/initiator/initiator.go:264-269 | Exactly when it works, and under the lock what `EnsureNVMeTCPPathWithoutLock` guarantees. |
| NvmeInitiator.Initiator.LoadNVMeDeviceInfo | pkg/initiator/initiator.go:1138-1148 | Exactly when it works, and under the lock what `LoadNVMeDeviceInfoWithoutLock` guarantees of namespace, controller, address, port and device. |
| NvmeInitiator.Perform | pkg/initiator/initiator.go:484-1306 | Over any run of start, stop, connect, reconnect and load operations, failing ones included, the subsystem name stays what creation gave and being up implies a device. |

## Left out

- EcMachine.ComputeShardSize64: above `MAX_DISKS` = 2^41 data disks only the trivial cases are stated; the code states no bound, and some bound is needed for 64-bit products not to wrap.
- EcMachine.UsableSize64: the same bound on data disks.
- EcMachine.MaxVolumeSizeForCreation: the same bound on data disks; termination and range hold without it.
- EcMachine.ValidateCreationSize: the same bound on data disks; the error text is its four values.
- EcGrowth.GrowsTenfoldGuaranteed: sufficient only; the exact condition is in `GrowsTenfoldIffMaskFits`.
- EcGrowth.BudgetStopsShortOfElevenfold: stated from 1 GiB on and up to 32 data disks, because small volumes on many disks have more than a tenth of slack.
- NvmeInitiator.Initiator.NewInitiator: whether an executor can be had is a parameter; the record is a value, so writes of the caller through the pointer it passed in are not captured.
- NvmeInitiator.Initiator.StopWithoutLock: the state of the ublk frontend after stopping its disk is not modelled; its RPC succeeds or fails. A removal that fails for a reason other than busy leaves the device-mapper device in an unknown state.
- NvmeInitiator.ConnectTarget: what a fresh `nvme connect` does to the kernel is not modelled; its reply is arbitrary.
- Command-line programs, scripts and SPDK client wrappers (`app/`, `pkg/spdk/client`): their meaning lives in the tools and in SPDK.
- `SendMsgWithTimeout`: reads the connection itself; the model assumes that it is not mixed with the asynchronous path.
- JSON encoding, the socket, the real lengths of timeouts and Go's fairness: a queue-full drop, a timeout and a lost encode may happen whenever the code allows them, and which ready case a select takes is arbitrary. `RpcProgress` says what can happen next, not that it does.
- The text recorded for a pending request, which is only logged.
- Responses that fail to decode: they never enter the receive queue and are not counted as emitted.
- `WaitForNVMeTCPConnect`, `WaitForNVMeTCPTargetDisconnect`, `Suspend`, `Resume`, `ReloadDmDevice`, `SyncDmDeviceSize`, the ublk start path beyond the allocator.
- The error classifiers, the text formats of `nvme`, `lsblk` and `dmsetup`, and error messages: a discovery failure is one error value, and the listing made only to word it is skipped.
- Fields of a namespace that only travel along (sizes, block counts), and the count of skipped devices, which is only logged.
- Processes other than the initiator changing its device-mapper device or endpoint node in the middle of an operation.
- Cleaning of `.` and `..` elements in a volume name that becomes part of the endpoint path.
- Truncation of device numbers by `mkdev`, and invalid UTF-8 in addresses: numbers are integers and addresses are sequences of characters.
- The mutex of the allocator and the file lock of the initiator: each call is taken as atomic, and taking the file lock may fail.
