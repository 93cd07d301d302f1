# Verified model of an SFU control plane

This project models the stateful cores of a mediasoup-based conferencing server and proves what
they promise over all inputs, all interleavings and all reachable states:

- the **room ownership protocol**: nodes that share a Redis store, claim rooms through an atomic
  script and keep local caches fed by pub/sub, snapshots and their own lookups
  (`RoomOwnership`, `RoomOwnershipSafety`, `RoomRegistry`, `RoomInterleaving`, `CacheView`,
  `CacheEntries`, `NodeValues`, `NodeSelection`);
- the **worker IPC channel**: length-prefixed framing over arbitrary read chunks with a re-entrant
  pump, a second, threaded reader, the wrapping request-id search and the table of outstanding
  requests (`ChannelFraming`, `ChannelRequests`);
- the **RTP recorder**: timestamp unwrapping, H.264 depacketization, the deferred header, buffered
  audio and repaired presentation timestamps (`Timestamps`, `H264`, `Recorder`, `RecorderLaws`,
  `RecorderTimes`, `KeyFrames`, `Depacketizing`, `Openings`);
- the **WebSocket client codec**: framing, masking and reassembly (`WsCodec`, `WsReader`);
- the **event emitter** and **single-flight room creation** (`EventEmitter`, `RoomCreation`).

Code that changes state step by step is a class or a method with loops, proved against a function
on values; the laws are then proved of those functions, against definitions that do not mention
them: bits and byte positions, readers of the written form, histories of operations. Concurrent protocols are step systems, and
the laws hold in every run. Callbacks that re-enter an object are scripts: finite trees of actions
that say what each callback does, so a statement for all scripts covers every depth of re-entry.

`dafny verify dfyconfig.toml` checks everything.

## How the environment appears

- Sockets, pipes and the worker process are byte sequences plus a list of read sizes; poll results,
  timeouts, failing writes and failing sends are parameters (`PumpCall`, `Env`, `Step`).
- Redis is a pair of maps. One protocol step is one command; the claim script is one step. Key
  expiry, lost, late, repeated and misordered messages, partial scans, failing commands and
  restarted nodes are steps of their own that may happen at any time. The script is taken to
  return no error reply, and node addresses to be fixed, non-empty and free of `|`
  (`WellConfigured`); `DistinctAddresses` is named where it is needed.
- The muxer is an append-only log. Its time-base conversions and the success of the header write
  are parameters (`Config`).
- Random masks are parameters; results hold for each mask.
- Hash-map iteration order is an arbitrary choice (`:|`, or an order passed in).

## What turned out to differ from the expectation

The model follows the code in each case; the exact condition is proved.

- `Timestamps.UnwrapIsExactIff`: a run that drops below the 2^32 cycle of its first packet is
  measured from the lowest cycle reached, so results are up to whole cycles late from then on.
  `Timestamps.ReorderedFirstPacketIsMisplaced` is a two-packet instance.
- `WsReader.LoopDelivers`: `recvText` drops the fragments it holds when it times out, so over the
  reader loop a message is delivered exactly when no timeout falls after its first data frame; the
  remainder of a message that was cut closes the connection (`WsReader.TimeoutInsideMessageIsFatal`).
- `KeyFrames.OpensWithoutIdrIff`: the recorder opens its file on a frame that is flagged as a key
  frame, and no flush lowers the flag. Before the start and between frames, packets without any IDR
  or empty unit can open the file if and only if the flag is left up
  (`KeyFrames.StaleKeyFlagOpensFile` is a run). An empty aggregated unit can raise the flag as well,
  since the byte after the payload is read as its type (`KeyFrames.EmptyUnitOpensFile`). The first
  frame written does hold an IDR unit when, until the start, no empty unit is read as an IDR unit
  and no aggregation packet or later piece begins a frame without one while the flag is left up
  (`KeyFrames.FirstFrameIsIdr`). On loss-free streams the frame that opens the file is a function
  of the units (`Openings.OpeningIsExact`), and only such aggregation packets can spoil it
  (`Openings.StreamOpensOnIdr`).
- `Openings.FrameStampStep`: a frame has the timestamp of the packet that began it, unless that is a
  later piece of a fragmented unit whose first piece was lost; such a frame keeps the timestamp of
  the one before (`Openings.LatePieceKeepsOldStamp` is an instance). On loss-free streams every timestamp is right (`Openings.FrameMarksAreExact`).
- `RoomOwnershipSafety.CacheGrantCanBeStale`: a grant from the node's own cache can be given while
  the store records another live owner. `RoomOwnershipSafety.ReleaseCanUnseatLiveOwner`: the `DEL`
  that gives a fresh claim back can delete the key of a live node that took the room over in
  between, and so can the `DEL` of unregisterRoom (`RoomOwnershipSafety.UnregisterCanUnseatLiveOwner`).
  `RoomOwnershipSafety.CacheGrantIsCurrentIff`, `RoomOwnershipSafety.ReleaseDeletesOwnKeyIff` and
  `RoomOwnershipSafety.UnregisterDeletesOwnKeyIff` say exactly when each is safe.
- `NodeValues.NodeValueRoundTrip`, `NodeValues.MessageRoundTrip`, `H264.AnnexBRoundTrip`: the text
  and byte formats are unambiguous exactly when the parts contain no `|`, no `=`, and no start
  code. Room and node ids cannot contain `=`, since they are checked where they enter
  (`src/SignalingRequestDispatcher.h:18-34`, `src/MainBootstrap.cpp:76-86`).

## Model

| member | source | states |
|---|---|---|
| `RoomOwnershipSafety.OwnerIsOnlyDisplacedWhenGone` | src/RoomRegistry.cpp:266-333 | in every run, between any two script grants of a room to a and then to b != a, the key was removed or another node took the room over while a's node key was absent |
| `RoomOwnershipSafety.ConsecutiveGrants` | src/RoomRegistry.cpp:266-333 | for consecutive script grants: the key was removed in between, or a's node key is absent at b's own claim |
| `RoomOwnershipSafety.GrantIsCurrentIff` | src/RoomRegistry.cpp:245-313 | after a node's last script grant of a room, the store still records it if and only if there was no removal or takeover since |
| `RoomOwnershipSafety.CacheGrantIsCurrentIff` | src/RoomRegistry.cpp:245-248 | every grant from a node's own cache goes back to a last script grant to it, and is current if and only if the node was not displaced since |
| `RoomOwnershipSafety.ReleaseDeletesOwnKeyIff` | src/RoomRegistry.cpp:300-308 | every release goes back to a last script grant to the releasing node, and deletes that node's own key if and only if it was not displaced since |
| `RoomOwnershipSafety.UnregisterDeletesOwnKeyIff` | src/RoomRegistry.cpp:392-405 | the key that unregisterRoom deletes is the calling node's own if and only if the node was granted the room by the script and not displaced since |
| `RoomOwnershipSafety.RecordedIff` | src/RoomRegistry.cpp:266-333 | in every state of every run, the store records a node for a room if and only if the node has a last script grant and was not displaced since |
| `RoomOwnershipSafety.EveryReachableStateIsSound` | src/RoomRegistry.cpp:137-405 | store, caches, calls in flight, messages and answers agree with the ownership history in every reachable state |
| `RoomOwnershipSafety.CacheNeverNamesANeverOwner` | src/RoomRegistry.cpp:149-328 | a cached owner address belongs to a node that the store recorded as the owner of that room at an earlier moment, whichever of the cache writers put it there |
| `RoomOwnershipSafety.AnswersNeverNameANeverOwner` | src/RoomRegistry.cpp:149-328 | every grant (by script, cache or refresh), every redirect to an owner and every resolution names an earlier owner; the referral to a better node after a release (line 306) and resolveRoom's choice for a new room (line 235) are answers of their own and excluded |
| `RoomOwnershipSafety.OwnedWasRecorded` | src/RoomRegistry.cpp:266-278 | the ownership history contains only pairs that some earlier state of the store recorded |
| `RoomOwnershipSafety.CacheGrantCanBeStale` | src/RoomRegistry.cpp:245-248 | a run in which a cache grant is given while another live node is the recorded owner |
| `RoomOwnershipSafety.ReleaseCanUnseatLiveOwner` | src/RoomRegistry.cpp:300-308 | a run in which a release deletes the key of a live node that holds a script grant |
| `RoomOwnershipSafety.UnregisterCanUnseatLiveOwner` | src/RoomRegistry.cpp:399-401 | a run in which a node whose room expired deletes the key of the live node granted after it |
| `RoomRegistry.RedisStore.EvalClaim` | src/RoomRegistry.cpp:266-278 | the script's effect and reply: fresh claim, own room, takeover from an absent node, or a live owner's value |
| `RoomRegistry.RedisStore.ExpireRoomKey` | src/RoomRegistry.cpp:380-390 | a room key is gone, nothing else changes |
| `RoomRegistry.RedisStore.StoreNodeKey` | src/RoomRegistryConnection.cpp:151-168 | a node key holds the built value, nothing else changes |
| `RoomRegistry.RedisStore.DropNodeKey` | src/RoomRegistryConnection.cpp:151-168 | a node key is gone, nothing else changes |
| `RoomRegistry.RedisStore.constructor` | src/RoomRegistry.cpp:266-278 | an empty store at the start of the cluster's run |
| `RoomRegistry.Registry.constructor` | src/RoomRegistry.h:137-140 | a registry joins the cluster of a store with an empty cache, as one more step of its run, leaving all other nodes as they were |
| `RoomRegistry.ClaimBeside` | src/RoomRegistry.cpp:238-333 | two registries on one store: a claim of one leaves the other valid, with its cache unchanged |
| `RoomInterleaving.ClaimAmid` | src/RoomRegistry.cpp:238-333 | a claim with anything in between its commands (other nodes claiming and unregistering, keys expiring and coming back): both registries stay valid, the result is among the answers of the protocol run, a grant or a redirect that is no referral names an earlier owner, and nothing is thrown |
| `RoomInterleaving.Interfere` | src/RoomRegistry.cpp:238-405 | whatever others do in between leaves the node's cache and its claim in flight as they were |
| `RoomRegistry.Registry.ClaimRoom` | src/RoomRegistry.cpp:238-333 | a cached entry for this node is granted unchecked; otherwise the result is what the store says (live owner, free room, better node), whatever the cache holds; it throws only for a live owner without an address, which no reachable store contains; every answer is recorded |
| `RoomRegistry.OnlyOwnEntryMatters` | src/RoomRegistry.cpp:245-333 | with sound node values, a cached redirect never changes the outcome of a claim and a claim never throws |
| `RoomRegistry.Registry.ClaimCached` | src/RoomRegistry.cpp:251-265 | a cached redirect is answered by the recorded owner, or dropped in favour of the script |
| `RoomRegistry.Registry.RunClaimScript` | src/RoomRegistry.cpp:283-333 | the result is the verdict of the store; a grant leaves this node as the recorded owner, cached and announced, and every other outcome leaves the store as it was |
| `RoomRegistry.Registry.FollowOwner` | src/RoomRegistry.cpp:323-330 | a live owner's value gives a cached redirect; an exception exactly if it has no address |
| `RoomRegistry.Registry.ReleaseClaim` | src/RoomRegistry.cpp:301-308 | the fresh claim is deleted from the store and the better node named |
| `RoomRegistry.Registry.KeepClaim` | src/RoomRegistry.cpp:309-322 | the room is cached under this node, announced and granted |
| `RoomRegistry.Registry.RefreshedAddress` | src/RoomRegistry.cpp:335-378 | the recorded owner's address, with which a cached redirect is confirmed or replaced; when there is none, the room is not in the cache any more, all else unchanged, before the script is tried |
| `RoomRegistry.Registry.LookUpOwner` | src/RoomRegistry.cpp:353-359 | the recorded owner; or none, and then the room is not in the cache any more, all else unchanged |
| `RoomRegistry.Registry.ResolveRoomOwner` | src/RoomRegistry.cpp:137-236 | the cached owner, else the owner's address as node cache and store know it; a new node is proposed if and only if there is neither, hence only when the store records no owner or the owner's node key is absent; it is the choice of the cache, or of the cache with the nodes read again when that knows too little; an address found in the store is the recorded owner's own |
| `RoomRegistry.Registry.ChooseNode` | src/RoomRegistry.cpp:212-235 | the choice of the cache as it then is: after an empty choice, or this node for want of any other, every scanned live node is known with its current value; after any other choice the cache is as it was |
| `RoomRegistry.Registry.ResolveFromStore` | src/RoomRegistry.cpp:157-209 | the owner's address from the node cache, else from its node key; empty exactly if neither has one |
| `RoomRegistry.Registry.ResolveFromNode` | src/RoomRegistry.cpp:175-206 | the owner's address from its node key, caching node and room; empty exactly if the key is absent or has no address |
| `RoomRegistry.Registry.UnregisterRoom` | src/RoomRegistry.cpp:392-405 | the room is in neither cache nor store any more, everything else in both is as it was, and the removal is published |
| `RoomRegistry.Registry.OnMessage` | src/RoomRegistryPubSub.cpp:110-127 | a delivered message updates the registry's cache, as one protocol step; after a room removal the room is not in the cache and nothing else changed |
| `RoomRegistry.Registry.ReadNodeValues` | src/RoomRegistrySync.cpp:184-204 | the loop misses no scanned node that is alive, and reads no other; each value is the stored one |
| `RoomRegistry.Registry.ReadRoomOwners` | src/RoomRegistrySync.cpp:206-234 | the loop misses no scanned room whose owner is among the nodes read, and keeps no other; each has its owner's address |
| `RoomRegistry.Registry.SyncNodesSnapshot` | src/RoomRegistrySync.cpp:134-169 | every scanned live node is known with its stored value, other nodes and all rooms as before |
| `RoomRegistry.Registry.SyncAllSnapshot` | src/RoomRegistrySync.cpp:171-240 | the cache holds exactly the scanned live nodes with their stored values, and exactly the scanned rooms owned by one of them, with its address |
| `RoomOwnership.SnapshotsMissNothing` | src/RoomRegistrySync.cpp:184-234 | a snapshot holds every scanned live node and every scanned room whose owner was read, and nothing else |
| `CacheView.CacheObject.EraseNodeAndOwnedRooms` | src/RoomRegistry.h:176-187 | the node is gone and with it exactly the rooms cached under its non-empty address; all other nodes and rooms are as they were |
| `CacheView.CacheObject.Merge` | src/RoomRegistry.h:197-202 | every new node is known with its new value, every other node with its old one; rooms stay |
| `CacheView.CacheObject.ReplaceAll` | src/RoomRegistry.h:204-211 | nodes and rooms are exactly the new ones |
| `CacheView.CacheObject.PutNode` | src/RoomRegistry.h:161-164 | the node is known with the given value; every other node and all rooms are as they were |
| `CacheView.CacheObject.PutRoom` | src/RoomRegistry.h:166-169 | the room is known under the given address; every other room and all nodes are as they were |
| `CacheView.CacheObject.DropRoom` | src/RoomRegistry.h:171-174 | the room is not in the cache any more; every other room and all nodes are as they were |
| `CacheView.CacheObject.HandlePubSubMessage` | src/RoomRegistryPubSub.cpp:110-127 | the message is split at its first `=` and updates or erases a node or a room |
| `CacheView.CacheObject.Update` | src/RoomRegistryPubSub.cpp:117-126 | for rooms: an empty value removes the room, any other value becomes its address, nothing else changes; for nodes: an empty value removes node and owned rooms, any other value is parsed into the node |
| `CacheView.NodeMessagesAreUnderstood` | src/RoomRegistryPubSub.cpp:110-122 | after a published node update the same node is known with the same fields and nothing else changes; after a published removal the node and the rooms under its address are gone |
| `CacheView.RoomMessagesAreUnderstood` | src/RoomRegistryPubSub.cpp:110-126 | if the id has no `=`: after a published room message its own room has the address published, after a removal it is not in the cache, and nothing else changes; otherwise another room is changed |
| `CacheView.RoomWrites` | src/RoomRegistry.h:166-174 | erasing leaves no address for the room, setting leaves the new one; nothing else changes |
| `CacheView.NodeWrites` | src/RoomRegistry.h:161-202 | a node set is known with its value; an erased node is gone with exactly the rooms under its address; merged nodes override |
| `CacheEntries.ErasedRoomIsAskedAgain` | src/RoomRegistry.cpp:137-405 | in every run: after a node unregistered a room, found its redirect stale or received its removal, its next claim runs the script and its next resolution asks the store, unless one of the cache writers put the room back in between |
| `NodeValues.SplitTokens` | src/RoomRegistryConnection.cpp:134-138 | the getline loop yields the tokens, none after a trailing separator |
| `NodeValues.TokenEnd` | src/RoomRegistryConnection.cpp:137-138 | a token ends at the next bar or at the end |
| `NodeValues.ParseNodeValue` | src/RoomRegistryConnection.cpp:131-149 | the fields read from the tokens, with defaults for missing or unreadable ones |
| `NodeValues.TokensOfJoin` | src/RoomRegistryConnection.cpp:124-138 | splitting undoes joining for any bar-free fields, but for one trailing empty field |
| `NodeValues.TokensOfBuilt` | src/RoomRegistryConnection.cpp:124-138 | a built value splits into address, rooms, limit, latitude, longitude, provider and country, in this order |
| `NodeValues.DecimalPlaces` | src/RoomRegistryConnection.cpp:126-126 | the text of a number has its decimal digits, the last one last, and no leading zero |
| `NodeValues.NodeValueRoundTrip` | src/RoomRegistryConnection.cpp:124-149 | parsing a built value returns the same fields if and only if the texts are bar-free, empty ones included |
| `NodeValues.MessageRoundTrip` | src/RoomRegistryConnection.cpp:170-186 | a published message splits into what was sent if and only if the key has no `=` |
| `NodeValues.NodeUpdateRoundTrip` | src/RoomRegistryConnection.cpp:170-177 | an update of a valid node id arrives with key and fields intact and is never a removal |
| `NodeSelection.BeforeIsStrictTotalOrder` | src/RoomRegistrySelection.h:23-39 | the comparator orders by fewer rooms, then this node first, then dictionary order of addresses, and is irreflexive, asymmetric, transitive and total |
| `NodeSelection.BestIsUnique` | src/RoomRegistrySync.cpp:242-281 | the choice depends on the cache contents only, not on iteration order |
| `NodeSelection.FrontIsBest` | src/RoomRegistrySync.cpp:268-280 | the front of any sorted arrangement of the candidates is a node with an address that is not full, has the fewest rooms of all such nodes, and among those is this node itself or has the smallest address |
| `NodeSelection.BestIsLeastLoaded` | src/RoomRegistrySelection.h:23-39 | the least node by the comparator is the least loaded one by rooms, self and address, stated without the comparator |
| `NodeSelection.TextLessIsSmaller` | src/RoomRegistrySelection.h:38-38 | texts compare by the first position in which they differ, or by which one ends first |
| `NodeSelection.CollectCandidates` | src/RoomRegistrySync.cpp:249-266 | the candidates are exactly the nodes that have an address and are not full |
| `NodeSelection.SortCandidates` | src/RoomRegistrySync.cpp:273-277 | a sorted permutation |
| `NodeSelection.FindBestNodeCached` | src/RoomRegistrySync.cpp:242-281 | a node that can take rooms and of which no other such node has fewer rooms; with as many rooms it is this node if this node is among them, otherwise no address comes before its own in dictionary order; empty exactly when no node has an address and room left |
| `ChannelFraming.DecompositionIsUnique` | src/Channel.cpp:425-452 | a stream splits into frames and an undecodable rest in one way only |
| `ChannelFraming.Decomposition` | src/Channel.cpp:425-452 | every byte stream is the encoding of its frames followed by its rest |
| `ChannelFraming.FramesOfExtension` | src/Channel.cpp:388-452 | later bytes never change frames already recognised |
| `ChannelFraming.BadLengthIsFinal` | src/Channel.cpp:428-435 | after a bad length no later byte is ever recognised |
| `ChannelFraming.PeekByLength` | src/Channel.cpp:425-436 | the length is the number whose bytes the first four are, least significant first; it is bad exactly if zero or above 4194308, and otherwise the frame is complete exactly if that many bytes follow |
| `Bytes.Le32Places` | src/Channel.cpp:426-427 | byte k of a length stands at position k, written and read |
| `ChannelFraming.Channel.ProcessAvailableData` | src/Channel.cpp:381-465 | no byte is lost or repeated at any depth of re-entry; the reads take what they can from the pipe; after an outermost call every complete frame was dispatched once, in stream order, and the buffer is the undispatched suffix; without EOF, closing or refusal at any depth the channel closes only at a bad length or by overflow, and overflow needs more bytes than the buffer has room for |
| `ChannelFraming.Channel.ReadAvailable` | src/Channel.cpp:388-416 | the reads move bytes from pipe to buffer in order, closing on overflow |
| `ChannelFraming.Channel.ReadSizes` | src/Channel.cpp:389-401 | the read loop takes exactly the bytes its reads allow, in order, and stops at the first overflow |
| `ChannelFraming.Channel.Absorb` | src/Channel.cpp:390-392 | one read appends exactly the bytes it takes |
| `ChannelFraming.Channel.DispatchBuffered` | src/Channel.cpp:424-452 | dispatching ends at an incomplete frame, a bad length, or a refusing handler |
| `ChannelFraming.Channel.DispatchNext` | src/Channel.cpp:425-451 | one round: stop at an incomplete frame or bad length, or dispatch one message and act on its handler's verdict |
| `ChannelFraming.Channel.FrontHead` | src/Channel.cpp:425-436 | the three tests on the length field are what the front of the buffer means |
| `ChannelFraming.Channel.DispatchFront` | src/Channel.cpp:438-446 | the offset moves past the frame before its handler runs |
| `ChannelFraming.Channel.RunHandler` | src/Channel.cpp:442-446 | whatever a handler does keeps the stream and only moves the offset forward; its re-entrant calls read all that their reads allow, at most its budget, unless the channel closes; a close takes effect |
| `ChannelFraming.DrainBuffer` | src/Channel.cpp:545-566 | the threaded inner loop splits a buffer into messages and rest |
| `ChannelFraming.TakeChunk` | src/Channel.cpp:536-570 | one pass keeps the split and leaves less than one maximum frame |
| `ChannelFraming.ReadLoop` | src/Channel.cpp:507-571 | the threaded reader dispatches a prefix of the stream's frames, all of them when handlers accept; the 16 MiB guard never fires |
| `ChannelFraming.BothReaders` | src/Channel.cpp:381-571 | on every stream, bad lengths included: each reader dispatches a prefix of the frames, and all of them once its reads cover the stream (pumped: no EOF, closing or refusal at any depth, and no overflow); so both agree for every chunking and re-entry in which the pumped one does not overflow, and it does not when the stream fits the buffer or each call reads little enough |
| `ChannelFraming.PumpStream` | src/Channel.cpp:381-465 | the pumped half of it, with overflow at any depth reported |
| `ChannelFraming.ReadStream` | src/Channel.cpp:507-571 | the threaded half of it |
| `ChannelFraming.Channel.PumpAll` | src/Channel.cpp:381-465 | over any sequence of quiet outermost calls, without overflow everything complete stays dispatched and the channel closes only at a bad length; calm calls do not overflow |
| `ChannelRequests.SearchVisitsEachIdOnce` | src/Channel.cpp:257-263 | from any cursor the search visits each of 1..2^32-1 exactly once |
| `ChannelRequests.FindFreeId` | src/Channel.cpp:255-266 | the first free id in visiting order; none if and only if all ids are outstanding |
| `ChannelRequests.NextKeepsInv` | src/Channel.cpp:246-377 | each step keeps the table equal to the unresolved requests; a closed table no longer changes |
| `ChannelRequests.EveryRunIsSound` | src/Channel.cpp:67-377 | over every run nothing is resolved twice, resolutions are final, a closed table is empty for good |
| `ChannelRequests.EveryOutcomeIsExplained` | src/Channel.cpp:67-377 | over every run each resolution was made by one step, and the outcome says which: accepted or rejected by the response to its own id, timed out by its own deadline, closed by a close or a failed write, too big by its size |
| `ChannelRequests.NextExplains` | src/Channel.cpp:246-377 | the same for one step |
| `ChannelRequests.RequestTable.SendAs` | src/Channel.cpp:267-305 | with its id a request is entered and sent, lost to a failing write, or refused for its size |
| `ChannelRequests.RequestTable.CloseTable` | src/Channel.cpp:67-90 | every outstanding request is rejected once, in any map order |
| `ChannelRequests.RequestTable.MakeRequest` | src/Channel.cpp:212-305 | issue, too-big, failed write, exhausted and closed cases; each exception exactly under its condition; a request written is outstanding under a free id, after a failed write the table is closed and empty, a request too big is resolved as that and leaves the table as it was |
| `ChannelRequests.RequestTable.OnResponse` | src/Channel.cpp:584-611 | a response resolves the request that holds its id, as accepted if it accepts and as rejected if not, and no other; a response to an id that is not outstanding changes nothing |
| `ChannelRequests.RequestTable.OnTimeout` | src/Channel.cpp:355-367 | an expired wait settles exactly its own request |
| `ChannelRequests.RequestTable.SettleIfPresent` | src/Channel.cpp:591-599 | one lookup, one removal, one resolution |
| `Timestamps.UnwrapTimestamp` | src/Recorder.cpp:467-484 | new last timestamp and wrap count, and the 64-bit difference from the base, never negative |
| `Timestamps.ClockCountsFromLowestCycle` | src/Recorder.cpp:467-481 | on every run of steps below half a cycle the wrap count is the distance from the lowest cycle reached |
| `Timestamps.UnwrapIsExact` | src/Recorder.cpp:467-484 | at every step of a run that stays in or above the base's cycle the result is max(0, true - base) |
| `Timestamps.UnwrapIsExactIff` | src/Recorder.cpp:467-484 | on any run: exact if and only if it stayed in or above that cycle, or still reads as at or before the base |
| `Timestamps.ReorderedFirstPacketIsMisplaced` | src/Recorder.cpp:474-479 | a packet from before a cycle boundary is placed 2^32 ticks late |
| `Timestamps.EmittedIsEnvelope` | src/Recorder.cpp:527-536 | the n-th repaired timestamp is the envelope of the raw ones |
| `Timestamps.EmittedIsLeastIncreasing` | src/Recorder.cpp:527-536 | strictly increasing, equal to max over j <= n of raw_j + n - j, and the least such sequence above the raw one |
| `H264.FindStartCode` | common/media/h264/AnnexB.cpp:6-24 | the first start code at or after an offset, and its size |
| `H264.NextNal` | common/media/h264/AnnexB.cpp:34-74 | the next unit of the stream and where to go on |
| `H264.AnnexBToAvcc` | common/media/h264/Avcc.cpp:7-24 | a reader that takes four bytes, most significant first, as a size and then that many bytes returns exactly the units found, if and only if each is shorter than 2^32 bytes, as all are when the buffer is |
| `H264.LengthPrefixedRoundTrip` | common/media/h264/Avcc.cpp:15-23 | such a reader returns the units from their length-prefixed form if and only if each is shorter than 2^32 bytes |
| `H264.Be32Value` | common/media/h264/Avcc.cpp:16-20 | the prefix, read most significant byte first, is the size modulo 2^32 |
| `H264.AnnexBRoundTrip` | common/media/h264/AnnexB.cpp:6-74 | reading back the Annex B form of units returns them if and only if none is empty or hides a start code |
| `H264.ReaderYieldsCleanNals` | common/media/h264/AnnexB.cpp:34-74 | whatever the bytes, the units found are non-empty and hide no start code |
| `Recorder.PeerRecorder.constructor` | src/Recorder.h:89-114 | an H.264 recording starts empty, with its header still to come |
| `Recorder.PeerRecorder.WriteAudioPacket` | src/Recorder.cpp:486-500 | one audio packet after all that was written, at max(0, scaled ticks) for its unwrapped ticks |
| `Recorder.PeerRecorder.StartOutput` | src/Recorder.cpp:511-517 | header with the parameter sets, then all buffered audio in order |
| `Recorder.PeerRecorder.WriteFrame` | src/Recorder.cpp:520-546 | one frame: the units of the buffer behind their sizes, with the buffer's timestamp and key flag and a repaired presentation time (what that means is `RecorderLaws.FrameIsWritten`) |
| `Recorder.PeerRecorder.FlushVideoFrame` | src/Recorder.cpp:502-547 | nothing, drop, start, or write, as header state, key flag and parameter sets demand |
| `Recorder.PeerRecorder.DepacketizeH264` | src/Recorder.cpp:321-399 | the state after one packet of any kind |
| `Recorder.PeerRecorder.DepacketizeSingle` | src/Recorder.cpp:342-359 | single-unit packets, parameter sets kept apart |
| `Recorder.PeerRecorder.DepacketizeFragment` | src/Recorder.cpp:360-376 | fragments: start flushes and restores the header byte, end or marker flushes |
| `Recorder.PeerRecorder.BeginFragmented` | src/Recorder.cpp:366-374 | the start fragment |
| `Recorder.PeerRecorder.DepacketizeAggregate` | src/Recorder.cpp:377-397 | all complete units of an aggregation packet, in order |
| `Recorder.PeerRecorder.CollectUnits` | src/Recorder.cpp:378-396 | the loop over the units of an aggregation packet |
| `Recorder.PeerRecorder.AddUnit` | src/Recorder.cpp:380-395 | one unit of an aggregation packet |
| `Recorder.PeerRecorder.WriteRtpPacket` | src/Recorder.cpp:401-465 | dispatch by payload type, with the base set by the first packet |
| `Recorder.PeerRecorder.TakeAudioPacket` | src/Recorder.cpp:416-439 | write, buffer up to 500, or drop and count |
| `Recorder.PeerRecorder.FinalizeMuxer` | src/Recorder.cpp:241-263 | last flush, trailer if started, closed |
| `RecorderLaws.TakeVideoKeeps` | src/Recorder.cpp:321-399 | whatever flushing and collecting keep, every video packet keeps |
| `RecorderLaws.EveryRecordingIsSound` | src/Recorder.cpp:401-547 | the invariant of log, audio and frames holds after every packet sequence |
| `RecorderLaws.RecordingLaws` | src/Recorder.cpp:401-518 | nothing before the header, a frame flagged as key frame first, written audio is the first at most 500 and then all later packets in order, received = written + pending + dropped |
| `RecorderLaws.FrameIsWritten` | src/Recorder.cpp:520-546 | the frame written carries the timestamp and key flag of the buffer, its data reads back as the units in the buffer, and its time is max(0, scaled ticks), or one more than the last if that is greater |
| `RecorderLaws.AudioTimesAreScaled` | src/Recorder.cpp:486-500 | in every recording each audio packet is written at max(0, scaled ticks) |
| `RecorderLaws.OthersAreIgnored` | src/Recorder.cpp:321-399 | packets of reserved types, empty ones and fragments without a header byte change nothing |
| `RecorderLaws.FinalizedIsSound` | src/Recorder.cpp:241-256 | the laws survive finalization; what was still collected is flushed; the trailer is last exactly when the header was written |
| `RecorderLaws.VideoTimestampsAreLeast` | src/Recorder.cpp:527-536 | the written timestamps of every recording are the least strictly increasing ones above max(0, scaled ticks) |
| `RecorderLaws.HeaderCarriesParameterSets` | src/Recorder.cpp:195-222 | SPS and PPS can be read back from the header's extradata; version 1, profile, compatibility and level from the SPS, four-byte sizes, one SPS and one PPS |
| `RecorderTimes.HeaderIsLatest` | src/Recorder.cpp:506-518 | in every started recording the first thing written is the header of the opening packet, and it carries the last SPS and the last PPS among the packets up to that one |
| `RecorderTimes.SetsAreLatest` | src/Recorder.cpp:343-350 | as long as the recording is open its parameter sets are the last type 7 and type 8 units received, alone or aggregated |
| `RecorderTimes.WrittenTimesAreExact` | src/Recorder.cpp:467-547 | in every recording the ticks written for audio and for video are max(0, true - base), for true times less than half a cycle apart that stay in or above the base's cycle |
| `RecorderTimes.AudioBaseIsFirst` | src/Recorder.cpp:417-421 | the audio base is the timestamp of the first audio packet |
| `RecorderTimes.VideoBaseIsFirst` | src/Recorder.cpp:441-445 | the video base is the timestamp of the first video packet |
| `KeyFrames.FirstFrameIsIdr` | src/Recorder.cpp:342-397 | when, until the file is started, no empty aggregated unit is read as an IDR unit, and while the flag is left up an aggregation packet begins no frame or puts an IDR unit into it and a later piece brings no byte: the first frame written holds an IDR unit; it begins with one when no aggregation packet comes before the start |
| `KeyFrames.OpensWithoutIdrIff` | src/Recorder.cpp:389-397 | in every reachable state between frames, before the file is started: packets without any IDR or empty unit can open it if and only if the flag is left up |
| `KeyFrames.FlagLeftUpOpensFile` | src/Recorder.cpp:377-397 | from every such state with the flag left up, SPS, PPS and one aggregated slice open the file with that slice alone |
| `KeyFrames.StaleKeyFlagOpensFile` | src/Recorder.cpp:506-514 | a run: an IDR unit dropped for lack of parameter sets leaves the flag up, and a frame without IDR unit opens the file |
| `KeyFrames.EmptyUnitOpensFile` | src/Recorder.cpp:379-394 | a run: an empty aggregated unit raises the flag of a frame without IDR unit by the byte after the payload |
| `KeyFrames.ReaderFindsUnitAt` | common/media/h264/AnnexB.cpp:34-74 | the reader finds the unit behind every start code that is not followed by another |
| `Depacketizing.DepacketizingIsExact` | src/Recorder.cpp:321-399 | for every loss-free in-order packetization with audio anywhere in between: flushed buffers plus residue are the Annex B form of the units without SPS/PPS, each flushed buffer whole units |
| `Depacketizing.WrittenFramesAreWholeUnits` | src/Recorder.cpp:502-547 | the n-th written frame reads back, by sizes of four bytes most significant first, as the n-th of the last groups of whole units, in stream order, if and only if its units are shorter than 2^32 bytes |
| `Depacketizing.StreamRefines` | src/Recorder.cpp:321-399 | the recorder's buffers refine collecting whole units |
| `Depacketizing.AudioDoesNotDisturb` | src/Recorder.cpp:401-448 | audio packets do not change what is collected |
| `Depacketizing.CollectKeepsAllMedia` | src/Recorder.cpp:321-399 | collecting neither loses nor reorders a unit |
| `Depacketizing.FragmentsFed` | src/Recorder.cpp:360-376 | the recorder after the first n fragments of a unit, in closed form |
| `Openings.OpeningIsExact` | src/Recorder.cpp:321-399 | for every loss-free in-order packetization, with audio anywhere in between: the key flag, whether the file is started and with which group of units, are functions of the units alone |
| `Openings.FrameMarksAreExact` | src/Recorder.cpp:342-397 | for every such packetization: every frame is written with the timestamp that the first unit of its group was sent with, and with the key flag that the units give to the group |
| `Openings.FrameStampStep` | src/Recorder.cpp:342-397 | whatever the packets: a frame has the timestamp of the packet that began it, single unit, first piece or aggregation packet, and the one left over from the frame before exactly if a later piece began it |
| `Openings.LatePieceKeepsOldStamp` | src/Recorder.cpp:360-376 | so a later piece that comes first begins a frame at time zero, whatever its own timestamp |
| `Openings.AggregateStamp` | src/Recorder.cpp:377-397 | an aggregation packet gives its timestamp to a frame that it begins, and leaves that of one already begun |
| `Openings.StreamOpensOnIdr` | src/Recorder.cpp:321-399 | for every such packetization in which, until the file is started, no aggregation packet begins a frame without an IDR unit while the flag is left up: the first frame written is a group of units with an IDR unit |
| `WsCodec.SendClientFrame` | client/WsClient.cpp:114-141 | a final frame with the opcode in the low bits, the mask bit, the shortest length form with the length most significant byte first, the mask, and the payload, each byte differing from the original in exactly the bits set in its byte of the mask |
| `WsCodec.Unmask` | client/WsClient.cpp:188-191 | in place: each byte differs from the received one in exactly the bits that are set in its byte of the mask |
| `WsCodec.Unmasked` | client/WsClient.cpp:183-191 | the payload, each byte differing from the received one in exactly the bits that are set in its byte of the mask |
| `WsCodec.MaskTwice` | client/WsClient.cpp:137-139 | masking is its own inverse, and flips exactly the bits that are set in the mask |
| `WsCodec.MaskIsBitwise` | client/WsClient.cpp:137-139 | masking is the one result whose bytes differ from the payload in exactly the bits set in the mask; a mask of zeros changes nothing |
| `WsCodec.XorIsBitwise` | client/WsClient.cpp:138-138 | the exclusive or of two bytes is the one byte whose set bits are those in which they differ |
| `WsCodec.ReceiveLength` | client/WsClient.cpp:154-167 | one of the three length forms, with the number that its bytes hold most significant first |
| `WsCodec.ReceiveBody` | client/WsClient.cpp:180-191 | the payload, bit by bit unmasked when a mask precedes it, and what follows; a dead connection exactly when bytes are missing |
| `WsCodec.ReceiveWsFrame` | client/WsClient.cpp:143-194 | one frame off the stream, or refusal |
| `WsCodec.DecodeOfWire` | client/WsClient.cpp:143-194 | a frame in any form, masked or not, decodes to what it carries and leaves what follows, if and only if it is acceptable |
| `WsCodec.DecodeIsSound` | client/WsClient.cpp:143-194 | whatever decodes was an acceptable frame at the front of the stream |
| `WsCodec.DecodeReadsBits` | client/WsClient.cpp:143-194 | what decodes was laid out at the front of the stream bit by bit: FIN and opcode from the first byte, mask bit and length code from the second, length most significant byte first, mask, payload |
| `WsCodec.WireIsLaidOut` | client/WsClient.cpp:114-141 | every frame on the wire has that layout |
| `WsCodec.DecodeOfStream` | client/WsClient.cpp:143-194 | any concatenation of frames decodes to the same opcodes and payloads, to the last byte |
| `WsCodec.ClientFrameRoundTrip` | client/WsClient.cpp:114-194 | what the client sends decodes to its opcode and payload for every mask, up to 4 MiB, or 125 bytes for control frames |
| `WsReader.RecvText` | client/WsClient.cpp:284-362 | the read loop, every branch |
| `WsReader.BytesReadAsFrames` | client/WsClient.cpp:284-362 | reading bytes is reading the frames they carry |
| `WsReader.MessageIsDelivered` | client/WsClient.cpp:284-362 | a fragmented message with other frames anywhere in between is returned as its joined fragments, each ping answered in order, if and only if nothing times out or fails and the text is at most 4 MiB |
| `WsReader.TextIsAMessage` | client/WsClient.cpp:284-362 | conversely, whatever the stream holds: a text is returned only for a whole message at its front, with nothing out of order and no close frame before its end, and it is the text of that message |
| `WsReader.TimeoutComesFrom` | client/WsClient.cpp:293-361 | a timeout is reported only when waiting for the socket timed out, after frames without a close frame |
| `WsReader.NextMessage` | client/WsClient.cpp:364-373 | the reader loop up to its next message: calls that time out are repeated |
| `WsReader.LoopDelivers` | client/WsClient.cpp:284-373 | over the loop a message is delivered, joined and with the rest of the stream untouched, if and only if no timeout falls after its first data frame, nothing else fails and it is at most 4 MiB; by then every ping, whichever call read it, was answered by one pong with its payload, in order |
| `WsReader.ReadingAnswers` | client/WsClient.cpp:313-328 | a call that does not close has answered every ping that it read |
| `WsReader.TimeoutLeaves` | client/WsClient.cpp:293-361 | a call that times out leaves a whole message if it read no data frame, and exactly the remainder of one otherwise |
| `WsReader.TimeoutInsideMessageIsFatal` | client/WsClient.cpp:290-362 | the remainder of a message cut by a timeout never becomes a text |
| `EventEmitter.EveryRunIsSound` | src/EventEmitter.h:19-118 | after every script of re-entrant operations: index and lists agree and no list is empty; each emission called, in registration order, exactly the listeners registered for its event before and ended neither by their own removal, nor by that of the event, nor, if once-listeners, by an emission; no once-listener was called twice |
| `EventEmitter.PersistentListenerIsCalled` | src/EventEmitter.h:76-118 | a listener registered by `on` is called by every later emission of its event until its own or its event's removal, at whatever depth of re-entry |
| `EventEmitter.RemovedListenerIsNotCalled` | src/EventEmitter.h:35-65 | once it or its event was removed, a listener is called by no later emission |
| `EventEmitter.EmissionKeepsPersistent` | src/EventEmitter.h:81-99 | when an emission begins, its event keeps exactly the listeners that are not once-listeners, in order, and every other event its whole list |
| `EventEmitter.OffMembers` | src/EventEmitter.h:35-53 | after `off` no list holds the listener, and all others are where they were |
| `EventEmitter.OffEventMembers` | src/EventEmitter.h:55-65 | after the removal of an event it has no listener, and other events have those they had |
| `EventEmitter.LoggedFirst` | src/EventEmitter.h:19-118 | the history records every operation before anything that its callbacks do, and nothing is struck out |
| `EventEmitter.RunKeeps` | src/EventEmitter.h:19-118 | every script keeps index, lists and emissions consistent |
| `EventEmitter.RunCompletes` | src/EventEmitter.h:76-118 | each emission calls its listeners in order whatever their callbacks do or throw |
| `EventEmitter.OnceCalledOnce` | src/EventEmitter.h:86-95 | two calls of one listener mean it was not registered by `once` |
| `EventEmitter.Emitter.AddListener` | src/EventEmitter.h:19-33 | a new id, appended to the event's list and indexed |
| `EventEmitter.Emitter.RemoveListener` | src/EventEmitter.h:35-53 | one listener gone from list and index, empty lists dropped, the removal recorded |
| `EventEmitter.Emitter.RemoveEvent` | src/EventEmitter.h:55-65 | all listeners of an event gone from both, the removal recorded |
| `EventEmitter.Emitter.TakeListeners` | src/EventEmitter.h:81-99 | the list to call; afterwards the event keeps exactly its entries that are not once-listeners, other events keep their lists, and the emission is recorded |
| `EventEmitter.Emitter.EmitEvent` | src/EventEmitter.h:76-118 | the state after one emission with all its callbacks, which `EveryRunIsSound` describes, and whether emitChecked would throw |
| `EventEmitter.Emitter.CallListeners` | src/EventEmitter.h:101-118 | every listener taken is called in order, whatever the others do or throw |
| `EventEmitter.Emitter.RunActions` | src/EventEmitter.h:101-114 | what a callback does to the emitter |
| `RoomCreation.RoomManager.EnterCreateRoom` | src/RoomManager.h:125-139 | the existing room, else the pending creation, else a new creator entered as pending; rooms untouched |
| `RoomCreation.RoomManager.PublishRoom` | src/RoomManager.h:148-163 | the room kept is in the table, the new one exactly if there was none; other rooms untouched; no longer pending |
| `RoomCreation.RoomManager.AbandonCreation` | src/RoomManager.h:166-170 | no longer pending |
| `RoomCreation.RoomManager.RemoveRoom` | src/RoomManager.h:182-186 | the room is gone, other rooms and pending creations untouched |
| `RoomCreation.EveryReachableStateIsSound` | src/RoomManager.h:124-186 | calls, promises and tables agree in every interleaving |
| `RoomCreation.SingleFlight` | src/RoomManager.h:124-186 | at most one creator per id between the two critical sections, pending ids not in the table, duplicate branch never taken, waiters get the creator's outcome and are never stranded |
| `RoomCreation.FoundIsLastPublished` | src/RoomManager.h:125-131 | in every interleaving a call returns a room at once if and only if that room was published under its id and not removed since |
| `RoomCreation.TableIsLastPublished` | src/RoomManager.h:148-186 | in every interleaving the table holds exactly the rooms published and not removed since |
| `RoomCreation.PromiseSetOnce` | src/RoomManager.h:160-171 | no promise is set twice |

## Left out

- VP8 recordings, the RTP header parser and the receive thread of the recorder: a simpler path and I/O.
- The removal of an empty recording file (`src/Recorder.cpp:257-262`): filesystem.
- Location-aware node choice (`CompareGeoCandidates`, `GeoRouter`, country isolation): its tolerance makes the comparator intransitive, so there is no order to prove.
- FlatBuffers contents, FFmpeg, hiredis, logging, configuration: foreign code or I/O.
- TTL lengths and the refresh timers: any key may expire at any time, which covers every timing.
- The threaded mode's request wait (`src/Channel.cpp:320-344`) and build callbacks that use the channel while a request is being built.
- `WsClient` requests, their asynchronous completion, the parsing of delivered texts and the HTTP upgrade: only the codec, the read loop and the loop around it are modelled.
- Room and peer services, QoS, workers, signaling: not part of this model.
- Timestamps.UnwrapIsExact: true values stay within 2^64 ticks of the base's cycle, where the 64-bit sum is exact.
- NodeValues.ParseNodeValue: coordinates are millionths; text that is not in the six-decimal form written by the server reads as the default, where the original would accept more spellings; negative zero is not distinguished.
- Depacketizing.WrittenFramesAreWholeUnits: for units without a hidden start code, which is exactly when the conversion can recover them (`H264.AnnexBRoundTrip`).
- Recorder.PeerRecorder.AddUnit: the byte after the payload, which the original reads for an empty last unit, is a parameter of the packet.
- RoomRegistry.Registry.ClaimRoom: the node chosen by findBestNodeCached is a parameter, so the result holds for any choice; a lost connection is the `Fail` step of the protocol. Its exact result is for a call whose commands follow one another; with other nodes in between, `RoomInterleaving.ClaimAmid` states what remains of it.
- RoomInterleaving.ClaimAmid: in between, one other node makes whole calls and keys change; finer interleavings, and messages that reach the claiming node itself, are steps of the protocol only.
- RoomRegistry.Registry.ResolveRoomOwner: findBestNodeCached for the client is a parameter, a function of the cache; a lost connection is the `Fail` step.
- RoomOwnershipSafety.ConsecutiveGrants: grants are ordered by the execution of their scripts.
- Eviction of dead nodes is a protocol step that may name any node, a superset of what `evictDeadNodes` does.
- EventEmitter.Emitter.AddListener: ids are unbounded; the 64-bit counter does not wrap in the model.
- NodeSelection.SortCandidates: stands for std::sort; any sorted permutation gives the same front (`NodeSelection.FrontIsBest`).
- Recorder.PeerRecorder.constructor: the fields of one stream and of the frame buffer are grouped into records.
- Recorder.PeerRecorder.StartOutput: writes after the header are taken to succeed, and an allocation failure while the extradata is built is not modelled.
