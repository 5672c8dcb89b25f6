# Verified models of an MMO game server

This project models the in-memory cores of a game server written in Go and proves what they promise.
Every module stands for one component:

- `Grid`, `SpatialIndexing`, `Regions`: a grid index of entities inside a grid of regions. After any run of
  adding, moving and removing, a range query equals a linear scan. What makes it true is an asymmetry of
  roundings: regions are keyed by positions truncated toward zero, the minimum of the query window is
  floored, the maximum only truncated.
- `EventBus`: the in-memory event bus as a machine of interleaved steps, with its safety and accounting.
- `Bytes`, `DeltaCodec`, `Batching`: the sync pipeline, a priority-evicting buffer that is an online top-k, and
  its length-prefixed codec.
- `AckWindow`, `TornStamp`: the 32-bit acknowledgement mask of the KCP channel against the set of sequences
  received, and what a stamp says that is read while it changes.
- `Replication`: block deltas with versions, watermarks, flushes and deletion by age, together with the clients.
- `WriteBehind`, `FileStorage`, `SaveRace`, `ChunkDeltas`, `ChunkLife`, `WorldBlocks`, `GenerationRace`, `Dedupe`:
  caches and stores, each against the history of its operations.
- `Framing`: message and batch framing over abstract body codecs.
- `RateLimit`, `OnceUpdates`, `RttStats`: a fixed-window rate limit, the one-shot block scheduler, and the
  sliding round-trip statistics.

Objects that the server updates in place are classes whose methods are proved against specification
functions; the properties of whole runs are lemmas about those functions. `EventBus`, `TornStamp`,
`WriteBehind`, `SaveRace`, `GenerationRace`, `Dedupe` and `OnceUpdates` are machines over the steps that
interleave: one operation on a channel, on a field, on a file, on Redis or on cold storage, or one critical
section each; `ChunkLife` also takes a save apart. Elsewhere a call is one step. `Common` holds the few
declarations that modules share.

Where the code does not meet what one would expect, the model keeps the code, states exactly when it does,
and shows a run that fails:

- `DeltaCodec.RoundTrip`, `DeltaCodec.LargeDatumIsLost`: data of 2^32 bytes or more.
- `AckWindow.TopBitExact`, `AckWindow.TopBitDependsOnOrder`: bit 31 of the mask.
- `TornStamp.TornExactly`, `TornStamp.TornStampAcksFalsely`: stamps that are read while an arrival is written.
- `Replication.ClientExact`, `Replication.MovedMissesChange`, `Replication.ReturnedShowsOld`: a subscriber that
  moves its area.
- `WriteBehind.LayersExact` with `WriteBehind.GoodExact`, `WriteBehind.BatchLoses`, `WriteBehind.OverflowLoses`:
  failed stores and overflow; `WriteBehind.LossIsForGood` says how long a loss lasts.
- `WriteBehind.HotExact`, `WriteBehind.RefillExact`, `WriteBehind.StaleRefillLoses`: refills.
- `WriteBehind.OrdersAgreeExactly`, `WriteBehind.OverlappingSetsDisagree`: overlapping Sets.
- `SaveRace.PutRestores`, `SaveRace.OverlappingSavesLose`: overlapping saves of one chunk.
- `SaveRace.DiskExact`, `SaveRace.LateWriteKeepsOlder`: file writes that land in another order.
- `ChunkLife.ReloadExact`, `ChunkLife.SecondSaveLoses`, `ChunkLife.OtherLayerLosesAll`: a reload after more than one
  save.
- `ChunkLife.CommitExact`, `ChunkLife.EditDuringSaveIsLost`: edits during a save.
- `WorldBlocks.FetchIsLiveExactly`, `WorldBlocks.ShadowDiffers`: chunk coordinates outside 0..15.
- `GenerationRace.WriteShowsExactly`, `GenerationRace.SecondWriteIsLost`: accessors that generate one chunk at once.
- `Framing.RoundTripExact`, `Framing.CompressedIsLost`: compressed messages.
- `Dedupe.SpacedExactly`, `Dedupe.InterleavedChecksBothPass`: checks that overlap.
- `RateLimit.WithinLimitExactly`, `RateLimit.TwiceIsReached`: more than the limit within a second, up to twice.

Two comments in the source say more than the code does, and the model follows the code: the counter of the rate limit is
not reset every second but by the first message a second after the last reset
(internal/network/game_server_adapter.go:387-391), and GetChunk's arithmetic does not convert chunk
coordinates to BigChunk coordinates (internal/world/world.go:568-571).

Times are integers in nanoseconds, and clocks, disk and database outcomes, random choices, map iteration
orders and what block behaviours do are parameters or free choices.

`dafny verify dfyconfig.toml` checks the whole project.

## Model

| member | source | states |
|---|---|---|
| `Grid.ChunkSplitIsBijective` | internal/vec/vec2.go:11-23 | a block position is exactly a chunk and a local position, for all signs: splitting and joining are inverse |
| `Grid.ChunkStripe` | internal/vec/vec2.go:11-13 | a chunk holds a half-open stripe of 16 blocks on each axis, also below zero |
| `Grid.BigChunkStripe` | internal/vec/vec2.go:16-18 | a BigChunk holds a half-open stripe of 512 blocks on each axis, also below zero |
| `Grid.TruncDivTruncates` | internal/world/region_manager.go:319-335 | Go's integer division keeps the quotient without its fraction, toward zero on both sides |
| `Grid.Trunc` | internal/world/spatial_index.go:373-386 | Go's float-to-int conversion truncates toward zero on both sides |
| `Grid.LowCellIsFloor` | internal/world/spatial_index.go:372-384 | truncation with the correction for negative bounds is the floor of the quotient, for every sign |
| `Grid.HighCellBounds` | internal/world/spatial_index.go:374-376 | the uncorrected upper index is the floor for bounds that are not negative and the ceiling for the others |
| `Grid.CellWindowCovers` | internal/world/spatial_index.go:372-395 | the cell of a point lies in the cell window of every interval that holds the point |
| `Grid.RegionIndexIsFloor` | internal/world/region_manager.go:319-335 | the region of a block position is a half-open stripe of 16 * regionSize blocks, also below zero |
| `Grid.RegionWindowCovers` | internal/world/region_manager.go:234-258 | an entity keyed by its truncated position lies in the window from the floored minimum to the truncated maximum of every interval around it, for all sign combinations |
| `Grid.FlooredMaximumWouldMiss` | internal/world/region_manager.go:241-258 | correcting the maximum like the minimum would lose entities: just below zero the truncated maximum covers a region that the floored one misses |
| `SpatialIndexing.OrderedBoundsHaveCells` | internal/world/spatial_index.go:386-386 | the slice capacity is positive for ordered bounds |
| `SpatialIndexing.CapacityIs` | internal/world/spatial_index.go:386-386 | the slice capacity is the product of the two window lengths, so negative when just one of them is |
| `SpatialIndexing.CellsForBounds` | internal/world/spatial_index.go:372-395 | lists exactly the cells of the bounds' cover, each once |
| `SpatialIndexing.ContainedInBox` | internal/world/spatial_index.go:241-252 | a point within the radius lies in the query's box |
| `SpatialIndexing.RangeContains` | internal/world/spatial_index.go:264-268 | a range query contains exactly the points whose squared distance from the centre is at most the squared radius |
| `SpatialIndexing.CoverIsWindow` | internal/world/spatial_index.go:372-395 | the cells of bounds are those from the floored minimum to the truncated maximum on both axes |
| `SpatialIndexing.CoversMeet` | internal/world/spatial_index.go:241-280 | an entity inside a query shares a cell with it, whatever its size |
| `SpatialIndexing.AddKeepsConsistent` | internal/world/spatial_index.go:89-107 | adding to cells keeps: an id is in a cell exactly when the cell is in the id's own set, and no cell is empty |
| `SpatialIndexing.MoveKeepsConsistent` | internal/world/spatial_index.go:135-202 | leaving the old cells that are not new and entering the new cells that are not old makes the new cells the id's own set |
| `SpatialIndexing.ForgetKeepsConsistent` | internal/world/spatial_index.go:215-237 | removal from the id's own cells leaves no trace of it and no empty cell |
| `SpatialIndexing.SpatialIndex.constructor` | internal/world/spatial_index.go:47-57 | an empty index; a cell size that is not positive becomes 16 |
| `SpatialIndexing.SpatialIndex.Insert` | internal/world/spatial_index.go:65-108 | a fresh entity is recorded with the cover of its present bounds; all other records stay; the invariant holds |
| `SpatialIndexing.SpatialIndex.Update` | internal/world/spatial_index.go:111-203 | the id is recorded with the cover of the entity's present bounds, inserted when unknown; a known record keeps its object whichever is passed; all other records stay |
| `SpatialIndexing.SpatialIndex.Remove` | internal/world/spatial_index.go:206-238 | exactly the id is forgotten; an unknown id changes nothing |
| `SpatialIndexing.SpatialIndex.AddToCells` | internal/world/spatial_index.go:92-104 | the loop puts the entity into every listed cell, creating missing ones, and changes no other cell |
| `SpatialIndexing.SpatialIndex.RemoveFromCells` | internal/world/spatial_index.go:226-237 | the loop takes the id out of every listed cell and deletes the cells left empty |
| `SpatialIndexing.SpatialIndex.NewKeys` | internal/world/spatial_index.go:146-153 | the cells to add are the new ones the entity was not in |
| `SpatialIndexing.SpatialIndex.CollectCell` | internal/world/spatial_index.go:261-273 | appends the entities of a cell that the query contains and that were not seen yet |
| `SpatialIndexing.SpatialIndex.CollectKeys` | internal/world/spatial_index.go:254-277 | visiting any list of cells lists each contained entity of those cells once |
| `SpatialIndexing.SpatialIndex.QueryRange` | internal/world/spatial_index.go:241-280 | lists, each once, exactly the indexed entities that stand in the closed disc of the radius now and whose recorded cells meet those of the box around it; only a negative slice capacity is excluded |
| `SpatialIndexing.SpatialIndex.QueryRect` | internal/world/spatial_index.go:283-316 | lists, each once, exactly the indexed entities with minX <= x <= maxX and minZ <= z <= maxZ now whose recorded cells meet the rectangle's; inverted rectangles included where the capacity is not negative |
| `SpatialIndexing.SpatialIndex.SyncedHitIsContainment` | internal/world/spatial_index.go:241-316 | for an entity updated since it moved, being found is exactly being inside |
| `SpatialIndexing.SpatialIndex.SyncedAnswerIsLinearScan` | internal/world/spatial_index.go:241-316 | with all entities updated since they moved, a query equals a duplicate-free linear scan by centre point; for a range query that is the closed disc |
| `Regions.RegionManager.constructor` | internal/world/region_manager.go:59-87 | an empty manager; a region size that is not positive becomes 4 |
| `Regions.RegionManager.CreateRegion` | internal/world/region_manager.go:338-346 | a new region gets an index of its own; nothing else changes |
| `Regions.RegionManager.AddEntity` | internal/world/region_manager.go:101-129 | a fresh entity is recorded in the region of its position with its present bounds, and in no other; records in sync stay in sync |
| `Regions.RegionManager.RemoveEntity` | internal/world/region_manager.go:132-163 | exactly the id is forgotten; an unknown id changes nothing |
| `Regions.RegionManager.MoveEntity` | internal/world/region_manager.go:166-231 | the id is recorded where the entity is now, whether unknown, in the same region (which keeps the object it has) or crossing over; if all others were in sync and it is the recorded object, all are |
| `Regions.RegionManager.Merge` | internal/world/region_manager.go:273-279 | results are merged without repeating an entity |
| `Regions.RegionManager.ScanRow` | internal/world/region_manager.go:259-282 | one row of the window adds the touched entities of its regions, each once |
| `Regions.RegionManager.ScanBox` | internal/world/region_manager.go:234-285 | scans the window from the floored minimum to the truncated maximum of the box |
| `Regions.RegionManager.VisitRegion` | internal/world/region_manager.go:267-280 | a region of the window adds its touched entities; a missing one adds none |
| `Regions.RegionManager.ScanWindow` | internal/world/region_manager.go:259-282 | the nested loops visit every existing region of the window and list each touched entity once |
| `Regions.RegionManager.GetEntitiesInRange` | internal/world/region_manager.go:234-285 | lists, each once, exactly the registered entities that stand in the closed disc of the radius now and whose recorded region and cells meet the query's; only a negative slice capacity is excluded |
| `Regions.InSyncFoundIsContained` | internal/world/region_manager.go:234-285 | for a record in sync, being found through the region window and the cells is exactly being in range |
| `Regions.RegionManager.InSyncAnswerIsLinearScan` | internal/world/region_manager.go:234-285 | with all records in sync, an answer is the duplicate-free linear scan of all registered entities for the closed disc of the radius |
| `Regions.AnyRun` | internal/world/region_manager.go:101-231 | after any sequence of adding, moving, resizing and removing, the manager holds exactly the entities placed last, each in sync; an id may come back with another object once it was removed |
| `Regions.FinalIsLast` | internal/world/region_manager.go:101-231 | the place of an id after a run is that of the last operation on it: where it was put, or gone |
| `Regions.FinalIsConcerned` | internal/world/region_manager.go:101-231 | an id that no operation of the run names is not there |
| `Regions.AnyRunThenQuery` | internal/world/region_manager.go:101-285 | after any such sequence, for every region size, centre and radius, the query lists exactly the entities whose last place has dx^2 + dz^2 <= radius^2, each once |
| `EventBus.MatchFilter` | internal/eventbus/eventbus.go:160-173 | an event matches exactly when its type is in the filter's types, or there are none, and its source in the sources, or there are none |
| `EventBus.MatchValue` | internal/eventbus/eventbus.go:161-171 | an empty list accepts every value, another exactly its members |
| `EventBus.StepInv` | internal/eventbus/eventbus.go:83-187 | every step of publishers, dispatcher, handlers, subscribers and contexts keeps the whole invariant |
| `EventBus.RunInv` | internal/eventbus/eventbus.go:83-187 | every state of every interleaving satisfies it |
| `EventBus.RunSafety` | internal/eventbus/eventbus.go:83-109 | in every run the buffer stays within capacity, dispatch is first-in first-out in send order, nothing of priority 5 or more is dropped, the counters lag by exactly the uncounted sends and drops, and each offered event is sent, dropped, refused or waiting |
| `EventBus.RunAccount` | internal/eventbus/eventbus.go:131-158 | Consumed plus pending, running, skipped and not yet spawned handlers equals the matching subscribers of all dispatched events |
| `EventBus.SkippedAreCancelled` | internal/eventbus/eventbus.go:145-155 | in every state of every run only handlers of cancelled subscribers are skipped |
| `EventBus.LiveHandlersRun` | internal/eventbus/eventbus.go:146-150 | in every run the check lets a handler run exactly when its subscriber is not cancelled then, and skips it otherwise |
| `EventBus.FinishedAreCounted` | internal/eventbus/eventbus.go:150-153 | in every run a running handler that finishes adds one to Consumed |
| `EventBus.LiveAccount` | internal/eventbus/eventbus.go:131-158 | while no subscriber is cancelled, Consumed plus pending, running and not yet spawned handlers equals the matching subscribers of all dispatched events: nothing is skipped |
| `EventBus.EverythingIsHandled` | internal/eventbus/eventbus.go:131-158 | every run goes on, by dispatching and handling alone, until every event sent has been dispatched and each matching handler has finished or was skipped; with nobody cancelled Consumed is then the number of all deliveries |
| `EventBus.FinishHandlers` | internal/eventbus/eventbus.go:145-155 | spawned handlers can always be brought to an end |
| `EventBus.DrainBuffer` | internal/eventbus/eventbus.go:131-158 | the dispatcher can always empty the buffer |
| `EventBus.PublishByRoom` | internal/eventbus/eventbus.go:83-109 | in every run an event is dropped only when the buffer is full and its priority is below 5, waits only when it is full and the priority is at least 5, and is otherwise appended |
| `EventBus.PublishProceeds` | internal/eventbus/eventbus.go:83-109 | a publisher always has a next step, and one that waits can send as soon as there is room |
| `EventBus.DispatchProceeds` | internal/eventbus/eventbus.go:131-158 | the dispatcher has a next step unless it waits at an empty buffer |
| `EventBus.SubscriptionSteps` | internal/eventbus/eventbus.go:111-187 | in every run a subscriber gets a new id and its filter, one that leaves is gone and cancelled, and no other step changes subscribers or contexts |
| `EventBus.AudienceExactly` | internal/eventbus/eventbus.go:133-143 | an event is handed to exactly those of the snapshot taken for it whose types and sources accept it |
| `EventBus.NoStartAfterCancel` | internal/eventbus/eventbus.go:145-155 | once a subscriber is cancelled, no handler of it passes its check any more |
| `EventBus.RunExtends` | internal/eventbus/eventbus.go:111-187 | histories only grow, and a subscriber that has gone does not come back |
| `EventBus.SnapshotsFollowSubscription` | internal/eventbus/eventbus.go:133-146 | a subscriber present throughout a stretch is in all its snapshots, one that had left before is in none |
| `DeltaCodec.Compress` | internal/sync/delta_compressor.go:22-31 | the loop writes one length-prefixed frame per change, in order |
| `DeltaCodec.HeaderBytes` | internal/sync/delta_compressor.go:25-27 | a header is the four low bytes of the length, most significant first |
| `DeltaCodec.Decompress` | internal/sync/delta_compressor.go:33-49 | total on every byte string: returns the data of the complete frames, with all other fields empty |
| `DeltaCodec.RoundTrip` | internal/sync/delta_compressor.go:22-49 | decoding an encoding returns exactly the data in order, if and only if every datum is shorter than 2^32 bytes |
| `DeltaCodec.LargeDatumIsLost` | internal/sync/delta_compressor.go:25-28 | a datum of 2^32 bytes does not come back |
| `DeltaCodec.Truncation` | internal/sync/delta_compressor.go:33-49 | any truncation of an encoding decodes to exactly the frames that are wholly inside it |
| `DeltaCodec.EncodeDecode` | internal/sync/delta_compressor.go:22-49 | re-encoding what was decoded from any payload gives a prefix of it, and the rest holds no complete frame |
| `DeltaCodec.DecodedAreShort` | internal/sync/delta_compressor.go:33-49 | whatever is decoded can be encoded again without truncating its length |
| `Bytes.BigRoundTrip` | internal/sync/delta_compressor.go:25-27 | a big-endian header reads back modulo its range |
| `Bytes.BigRewrite` | internal/sync/delta_compressor.go:37-41 | reading a header and writing it again gives the same bytes |
| `Batching.EvictIndex` | internal/sync/batch_manager.go:62-70 | the evicted index is the first of the lowest priorities and only one below the new priority; none when all are at least as high |
| `Batching.OfferConserves` | internal/sync/batch_manager.go:57-80 | an offer keeps the multiset of changes, up to the one it throws away |
| `Batching.OfferReplaces` | internal/sync/batch_manager.go:57-76 | a full buffer keeps its length: the first change of lowest priority is replaced in its place if the new priority is higher, and otherwise nothing changes |
| `Batching.BatchManager.constructor` | internal/sync/batch_manager.go:40-54 | an empty buffer of the given capacity |
| `Batching.BatchManager.Append` | internal/sync/batch_manager.go:77-79 | appending keeps the buffered changes and adds one, also when the backing array grows |
| `Batching.BatchManager.AddChange` | internal/sync/batch_manager.go:57-80 | with room the change is appended; a full buffer replaces its first change of lowest priority in place if the new priority is higher, and otherwise stays as it is |
| `Batching.BatchManager.Take` | internal/sync/batch_manager.go:97-108 | the flush copies the buffer out and empties it while keeping the backing array |
| `Batching.BatchManager.Flush` | internal/sync/batch_manager.go:97-129 | an empty buffer sends nothing; otherwise one payload encodes the buffered data in buffer order |
| `Batching.AddWhileCompressing` | internal/sync/batch_manager.go:97-129 | adds that happen while a batch is compressed do not alter it, although they write into the reused backing array |
| `Batching.RunConserves` | internal/sync/batch_manager.go:57-129 | over every run each offered change is exactly one of buffered, emitted once or discarded |
| `Batching.OfferKeepsTop` | internal/sync/batch_manager.go:57-80 | an offer keeps the buffer an online top-k of the priorities offered since the flush |
| `Batching.RunIsTop` | internal/sync/batch_manager.go:57-129 | after every run the buffer is within capacity and holds, at every threshold, as many high priorities as fit |
| `Batching.BufferIsTopOfSorted` | internal/sync/batch_manager.go:57-129 | after every run the buffered priorities are those of the first `capacity` changes of the sorted window |
| `AckWindow.AfterDescribes` | internal/network/kcp_channel.go:509-527 | for every arrival order the newest sequence is the maximum received, bits 0..30 are exact and bit 31 is never set falsely |
| `AckWindow.AcksAreReceipts` | internal/network/kcp_channel.go:509-527 | nothing is acknowledged that was not received, and every receipt at most 31 behind the newest is acknowledged |
| `AckWindow.OrderDoesNotMatter` | internal/network/kcp_channel.go:509-527 | the newest sequence and the first 31 bits depend only on the set received |
| `AckWindow.TopBitDependsOnOrder` | internal/network/kcp_channel.go:515-525 | bit 31 does depend on the order: two arrival orders of one set |
| `AckWindow.TopBitExact` | internal/network/kcp_channel.go:515-525 | bit 31 is set exactly when the sequence 32 behind the newest came before it and was not the newest then |
| `AckWindow.WordOperations` | internal/network/kcp_channel.go:514-525 | the shifts and ors on the 32-bit word are the mask operations |
| `AckWindow.KCPChannel.constructor` | internal/network/kcp_channel.go:57-67 | a new channel has received only sequence 0 |
| `AckWindow.KCPChannel.UpdateAckBits` | internal/network/kcp_channel.go:509-527 | the fields remain the window of everything that arrived |
| `AckWindow.KCPChannel.Send` | internal/network/kcp_channel.go:184-192 | an unconnected channel refuses; otherwise the next sequence modulo 2^32 and, when nothing arrives between its reads, acknowledgements of receipts only and of all receipts in the window |
| `TornStamp.RunInv` | internal/network/kcp_channel.go:509-527 | in every interleaving of the two writes of arrivals and the two reads of Send, the mask is that of all arrivals and the newest sequence that of those written completely |
| `TornStamp.TornExactly` | internal/network/kcp_channel.go:190-192 | in every interleaving a stamp acknowledges falsely exactly when a newer sequence arrived between the two reads and an acknowledged sequence less that lag was never received |
| `TornStamp.UntornIsSound` | internal/network/kcp_channel.go:190-192 | without a newer arrival between the reads a stamp acknowledges receipts only |
| `TornStamp.TornStampAcksFalsely` | internal/network/kcp_channel.go:190-192 | sequence 10 arrives, Send reads it, the mask of 12 is written: the stamp acknowledges 8, which never arrived |
| `Replication.BlockDeltaManager.AddBlockChange` | internal/world/block_delta_manager.go:69-100 | the change is stored in its chunk's delta under a new version and time |
| `Replication.BlockDeltaManager.AddSubscriber` | internal/world/block_delta_manager.go:103-115 | a subscriber starts at the present version |
| `Replication.BlockDeltaManager.RemoveSubscriber` | internal/world/block_delta_manager.go:118-124 | exactly the subscriber goes |
| `Replication.BlockDeltaManager.MoveSubscriber` | internal/world/block_delta_manager.go:127-136 | the area changes, the watermark does not; an unknown connection changes nothing |
| `Replication.BlockDeltaManager.ChunkMessage` | internal/world/block_delta_manager.go:282-318 | a message lists each change of a delta once |
| `Replication.BlockDeltaManager.SendDeltasToSubscriber` | internal/world/block_delta_manager.go:172-240 | exactly the deltas in the circle and newer than the watermark are sent, each whole and once |
| `Replication.BlockDeltaManager.CleanupOldDeltas` | internal/world/block_delta_manager.go:252-259 | a delta stays, unchanged, exactly when it was updated at most a second, 1_000_000_000 ns, before now; all others go |
| `Replication.BlockDeltaManager.FlushPendingChanges` | internal/world/block_delta_manager.go:154-169 | every subscriber gets its due deltas of the state before the flush and the present version as watermark; then the deltas older than a second go, as CleanupOldDeltas says |
| `Replication.BlockDeltaHandler.ProcessDeltaMessage` | examples/delta-demo/main.go:53-82 | the client writes the changes of a message in order; an unreadable one changes nothing |
| `Replication.ApplyListed` | examples/delta-demo/main.go:53-82 | a message overwrites exactly its delta's positions, with its blocks, metadata and version |
| `Replication.DeliveryRefreshes` | internal/world/block_delta_manager.go:172-233 | however the messages of a flush and their changes are ordered, the client ends with the same cache |
| `Replication.AfterOk` | internal/world/block_delta_manager.go:69-259 | in every run of recording, subscribing, moving, leaving and flushing, each client's outstanding positions are still in a kept delta newer than its watermark |
| `Replication.ChunkKeptExactly` | internal/world/block_delta_manager.go:69-100 | in every run the server remembers a chunk exactly when it was recorded and every flush since its last recording came at most a second after that recording |
| `Replication.RememberedExactly` | internal/world/block_delta_manager.go:69-259 | in every run the delta of a chunk holds exactly the positions recorded since it was last forgotten, and it is forgotten exactly by a flush more than a second after the last recording in the chunk |
| `Replication.LastRecordedAt` | internal/world/block_delta_manager.go:69-100 | the time that counts for a chunk is that of its last recording |
| `Replication.SendsExactly` | internal/world/block_delta_manager.go:172-233 | in every run a flush sends a subscriber exactly the remembered positions of its circle whose chunk was recorded since it came or was last flushed |
| `Replication.AwayIsSentAgain` | internal/world/block_delta_manager.go:154-259 | a position recorded while a client was away is shown, as last recorded, by the first flush after its chunk is recorded again, if no flush has forgotten it |
| `Replication.AreaIsLast` | internal/world/block_delta_manager.go:103-136 | in every run a connection is subscribed exactly while it has asked for an area, and has the one it asked for last |
| `Replication.ReplicaIsCurrent` | internal/world/block_delta_manager.go:69-259 | after every flush a client holds the last recorded block and metadata at every position of its circle recorded since its area was set, although deltas are deleted by age and resent whole |
| `Replication.HeldIsCurrent` | internal/world/block_delta_manager.go:69-259 | wherever its area moves, a client is right about every position that was inside its circle at the flush after the last change |
| `Replication.ClientExact` | internal/world/block_delta_manager.go:69-259 | in every run, for every client and position: if the position was sent since it was last recorded, the client shows the last recorded block, otherwise exactly what it held when the position was last recorded |
| `Replication.CurrentExactly` | internal/world/block_delta_manager.go:69-259 | a client is current at a position exactly when it was sent there since, or held the same block already |
| `Replication.MovedKeepsOld` | internal/world/block_delta_manager.go:127-136 | a position outside the circle at a flush is not sent by the next one to a client that has moved there: it keeps what it held, nothing or an old block |
| `Replication.MovedMissesChange` | internal/world/block_delta_manager.go:103-136 | a run in which a client moves to a place that changed before it came and is not sent the change |
| `Replication.ReturnedShowsOld` | internal/world/block_delta_manager.go:103-136 | a run in which a client comes back to a place that changed meanwhile and goes on showing the old block, which it has in its cache |
| `WriteBehind.RedisCache.constructor` | internal/cache/redis_cache.go:62-121 | empty layers; a batch size of 0 becomes 100 |
| `WriteBehind.RedisCache.WriteRedis` | internal/cache/redis_cache.go:179-184 | the Redis half of Set; a failed write ends the call and queues nothing |
| `WriteBehind.RedisCache.SendWrite` | internal/cache/redis_cache.go:187-205 | the queue half of Set: the write is appended to the queue, or handed to its own goroutine exactly when the queue holds twice the batch size |
| `WriteBehind.RedisCache.SetValue` | internal/cache/redis_cache.go:170-208 | the two halves one after the other |
| `WriteBehind.RedisCache.ReadRedis` | internal/cache/redis_cache.go:131-148 | a hit answers, a miss goes on, an error ends the call |
| `WriteBehind.RedisCache.ReadCold` | internal/cache/redis_cache.go:150-163 | a miss answers from cold storage and leaves a goroutine that is to set the value again |
| `WriteBehind.RedisCache.WorkerTake` | internal/cache/redis_cache.go:398-399 | one queued write enters the batch |
| `WriteBehind.RedisCache.WorkerTurn` | internal/cache/redis_cache.go:397-406 | the first queued write enters the batch, which is stored, or lost, and emptied exactly when it then holds the batch size |
| `WriteBehind.RedisCache.FlushWriteBehindBatch` | internal/cache/redis_cache.go:430-445 | the batch overwrites cold storage, or is lost when the store fails |
| `WriteBehind.RedisCache.StoreOverflow` | internal/cache/redis_cache.go:194-204 | an overflowing write reaches cold storage on its own, or is lost |
| `WriteBehind.HotIsLast` | internal/cache/redis_cache.go:170-184 | in every interleaving a hit is the last value written to Redis |
| `WriteBehind.HotExactly` | internal/cache/redis_cache.go:131-184 | in every interleaving a key is hot exactly when it was written to Redis and has not expired since |
| `WriteBehind.QueuesBounded` | internal/cache/redis_cache.go:113-117 | in every interleaving the queue holds at most twice the batch size and the batch at most the batch size |
| `WriteBehind.LayersAre` | internal/cache/redis_cache.go:387-445 | the value of the layers is that of the last queued write of the key, else the batch's, else cold storage's |
| `WriteBehind.LastIs` | internal/cache/redis_cache.go:170-208 | the last value of a key is that of the write after which no other write of the key comes |
| `WriteBehind.HotExact` | internal/cache/redis_cache.go:131-184 | in every run every hit is the last value that a caller set exactly when no refill writes another value than that |
| `WriteBehind.RefillExact` | internal/cache/redis_cache.go:149-157 | a refill writes what cold storage held when the miss read it; that is the last value set exactly when the last value set since the read is the same, or none was and cold storage was up to date at the read |
| `WriteBehind.GoodStep` | internal/cache/redis_cache.go:187-204 | from a state in which queue over batch over cold give the last value sent and no direct store is outstanding, a step leads to such a state exactly when it is no overflow of the key, no refill of another value, and no loss of a batch that holds its last value |
| `WriteBehind.LayersExact` | internal/cache/redis_cache.go:170-208 | every state of a run is such a state exactly when every step of it is harmless in this sense |
| `WriteBehind.GoodExact` | internal/cache/redis_cache.go:170-208 | such states are exactly those from which every harmless continuation keeps the layers at the last value sent |
| `WriteBehind.LossIsForGood` | internal/cache/redis_cache.go:387-445 | once the layers have settled on another value than the last one sent, every later step but a new Set of the key leaves it so, misses and refills included |
| `WriteBehind.BatchLoses` | internal/cache/redis_cache.go:430-441 | a run in which a failed store loses the only value of a key for good |
| `WriteBehind.OverflowLoses` | internal/cache/redis_cache.go:194-204 | for every batch size, a run in which an overflowing write reaches cold storage after a newer one was stored, with nothing left waiting |
| `WriteBehind.ReadThroughIsFresh` | internal/cache/redis_cache.go:149-162 | in a run without harm, cold storage is up to date exactly when no other value waits in the queue or the batch |
| `WriteBehind.StaleMiss` | internal/cache/redis_cache.go:149-162 | a run without overflow or failure in which a miss is about to read an old value |
| `WriteBehind.StaleRefillLoses` | internal/cache/redis_cache.go:149-157 | the same run goes on: the refill undoes the newer value in the hot cache and in cold storage, although nobody sets the key in between |
| `WriteBehind.ColdIsPrefix` | internal/cache/redis_cache.go:387-445 | in every run without overflow or a failed store, cold storage is what a prefix of the sends leaves behind, the batch what the next stretch does, and the queue is the rest |
| `WriteBehind.OrdersAgreeExactly` | internal/cache/redis_cache.go:179-205 | when no write of a key is under way, the last value written to Redis is the last value sent exactly when the last send carried, at that moment, the last value written to Redis |
| `WriteBehind.HotAgreesWithLayers` | internal/cache/redis_cache.go:170-208 | under the same condition exactly, a hit and the layers agree in a run without harm |
| `WriteBehind.OverlappingSetsDisagree` | internal/cache/redis_cache.go:179-205 | two overlapping Sets leave one value in the hot cache and the other in cold storage |
| `FileStorage.PutThenRead` | internal/storage_adapter/file_storage.go:153-168 | a stored block is read back at its cell, bare air if its id is 0, and no other cell changes |
| `FileStorage.LastWriteWins` | internal/storage_adapter/file_storage.go:55-300 | after any writes a position shows the block of the last write that covers it, id and metadata, or bare air if that id is 0 |
| `FileStorage.UncoveredStays` | internal/storage_adapter/file_storage.go:55-114 | a position that no write covers shows what the files held at start, or air |
| `FileStorage.ChunkWritten` | internal/storage_adapter/file_storage.go:255-300 | after a chunk was written each of its 256 cells shows its block, and no other chunk changes |
| `FileStorage.FileStorageAdapter.constructor` | internal/storage_adapter/file_storage.go:40-52 | the adapter shows the files found at start |
| `FileStorage.FileStorageAdapter.LoadBlock` | internal/storage_adapter/file_storage.go:55-114 | returns the last block written at the position; fails exactly when a needed file cannot be read; a file that was read is cached |
| `FileStorage.FileStorageAdapter.ChunkForEdit` | internal/storage_adapter/file_storage.go:123-151 | the cached chunk, the file's, or a new one; fails exactly when an existing file cannot be read |
| `FileStorage.FileStorageAdapter.SaveBlock` | internal/storage_adapter/file_storage.go:117-190 | the write is accepted unless the chunk cannot be read; an accepted block other than air is then shown with its id and metadata, air as bare air, and no other position changes; with autoSave the chunk is on disk, and no other chunk becomes unsaved in any case |
| `FileStorage.FileStorageAdapter.DeleteBlock` | internal/storage_adapter/file_storage.go:193-198 | unless the chunk cannot be read, the position then holds air without metadata; what becomes of the file is as for SaveBlock |
| `FileStorage.FileStorageAdapter.SaveChunk` | internal/storage_adapter/file_storage.go:255-300 | 256 blocks replace the chunk, each shown with its id and metadata, in cache and, if it can be written, file; another number is refused; no other chunk changes or becomes unsaved |
| `FileStorage.FileStorageAdapter.LoadChunk` | internal/storage_adapter/file_storage.go:201-252 | every cell as the chunk's file holds it, in row order |
| `FileStorage.FileStorageAdapter.FlushCache` | internal/storage_adapter/file_storage.go:303-318 | after success nothing is unsaved; after a failure nothing visible has changed |
| `FileStorage.FileStorageAdapter.SavedIsOnDisk` | internal/storage_adapter/file_storage.go:55-318 | where nothing is unsaved the file alone holds the last block written: LoadChunk agrees with LoadBlock, and dropping the cache loses nothing |
| `FileStorage.Pack` | internal/storage_adapter/file_storage.go:260-285 | 256 cells become maps that read back each cell that is not air as it is, at row times 16 plus column, and air elsewhere |
| `FileStorage.Unpack` | internal/storage_adapter/file_storage.go:226-249 | the maps become 256 cells that read as the maps do |
| `SaveRace.PutRestores` | internal/storage_adapter/file_storage.go:117-182 | over any steps of others, a put leaves its block in its cell and in every other cell what the call read: a cell keeps its block exactly when it is as the call read it, so overlapping saves of other cells are undone |
| `SaveRace.AloneSaves` | internal/storage_adapter/file_storage.go:117-190 | a SaveBlock that nobody interrupts leaves its block, with its metadata, or bare air in its cell and every other cell as it was; with autoSave the file is then the cached chunk |
| `SaveRace.FileReadExact` | internal/storage_adapter/file_storage.go:132-151 | a call that missed the cache reads the file, which is the visible chunk exactly when the cache is still empty or holds the same |
| `SaveRace.LoadRestores` | internal/storage_adapter/file_storage.go:55-94 | a LoadBlock that missed the cache undoes every save that is only in the cache |
| `SaveRace.OverlappingSavesLose` | internal/storage_adapter/file_storage.go:117-182 | two overlapping SaveBlocks of different cells: the block of the one that puts first is lost |
| `SaveRace.DiskExact` | internal/storage_adapter/file_storage.go:179-187 | with autoSave, once nothing is on its way to the file, the file is the cached chunk exactly when the last write to it carried what was cached at that moment |
| `SaveRace.LateWriteKeepsOlder` | internal/storage_adapter/file_storage.go:179-187 | two saves whose file writes land in the other order: the file keeps the older chunk and nothing is under way |
| `ChunkDeltas.Chunk.constructor` | internal/world/chunk.go:27-36 | an empty chunk without changes |
| `ChunkDeltas.Chunk.GetBlockLayer` | internal/world/chunk.go:130-138 | the id of a cell, 0 for a layer that does not exist |
| `ChunkDeltas.Chunk.GetBlockMetadataLayer` | internal/world/chunk.go:180-195 | the metadata of a cell, empty where there is none |
| `ChunkDeltas.Chunk.SetBlockLayer` | internal/world/chunk.go:141-162 | one id of one layer changes and is marked changed, and every other id of every layer stays; the tickable positions change by that coordinate at most, and only for the active layer; an unknown layer changes nothing |
| `ChunkDeltas.Chunk.SetBlock` | internal/world/chunk.go:80-82 | one active id changes and is marked changed, every other id of every layer stays, and its coordinate is tickable exactly when the id ticks |
| `ChunkDeltas.Chunk.SetBlockMetadataLayer` | internal/world/chunk.go:165-177 | one metadata key changes and its cell is marked changed |
| `ChunkDeltas.Chunk.SetBlockMetadataMap` | internal/world/chunk.go:44-48 | in any order of the keys the metadata is merged, right-biased |
| `ChunkDeltas.Chunk.SetBlockWithBehavior` | internal/world/chunk.go:85-105 | the block is placed, metadata is created only where there is none, every other id and metadata stays, and its coordinate is tickable exactly when the id ticks |
| `ChunkDeltas.Chunk.ClearChanges` | internal/world/chunk.go:121-127 | the present contents become the base of later changes |
| `ChunkDeltas.Chunk.ActiveDelta` | internal/storage/world_storage.go:97-116 | the delta holds exactly the changed cells of the active layer as they are |
| `ChunkDeltas.Chunk.ActiveDeltaReproduces` | internal/storage/world_storage.go:97-116 | replayed onto the contents at the last clear it reproduces the present active layer |
| `ChunkDeltas.DeltaReproduces` | internal/storage/world_storage.go:82-221 | a delta of the changed cells reproduces the layer, because every differing cell is marked and metadata keys never go |
| `ChunkDeltas.RestoreExact` | internal/storage/world_storage.go:190-221 | replaying the delta onto any chunk gives the saved one exactly when the two agree outside the delta and the chunk has no metadata key at a changed cell that the saved block lacks |
| `ChunkDeltas.WorldStorage.SaveChunk` | internal/storage/world_storage.go:82-141 | exactly the changed cells are stored, which reproduces the chunk from the last clear, and the changes are cleared; a refused or failed save changes nothing |
| `ChunkDeltas.WorldStorage.ApplyDeltaToChunk` | internal/storage/world_storage.go:190-221 | every cell of the delta inside the chunk is replayed and marked changed, no other cell changes |
| `ChunkDeltas.WorldStorage.LoadAndApplyChunk` | internal/storage/world_storage.go:144-242 | what is stored is replayed and marked; a chunk without a stored delta, a refused or a failed read change nothing |
| `ChunkDeltas.WorldStorage.ApplyCell` | internal/storage/world_storage.go:210-217 | the id is set and the payload merged at one cell, and no other cell changes |
| `ChunkLife.AfterOk` | internal/world/chunk.go:121-177 | in every life of a chunk, however it begins, the marked cells are exactly those edited, replayed or generated since the last save, and no metadata key it was born with goes |
| `ChunkLife.ReloadExact` | internal/storage/world_storage.go:82-242 | in every life of a chunk, with any marks at first, what a save stores restores the chunk from the generated one exactly when every cell that differs from it was edited, replayed or generated since the save before |
| `ChunkLife.GenerateChunk` | internal/world/generator.go:53-127 | a generated chunk has in every cell the floor and the active block that generation gives and nothing above, is tickable exactly where the active id ticks, and has every active cell marked as changed |
| `ChunkLife.LastSetWins` | internal/world/chunk.go:141-162 | after any sets each layer of each position holds the last id set there, or what it held, and the position ticks exactly as its last active id does, or as before |
| `ChunkLife.AnySets` | internal/world/chunk.go:141-162 | the chunk object follows: after any sequence of sets every column is what the sets on it make of it, and nothing else |
| `ChunkLife.GenerateCell` | internal/world/generator.go:87-122 | one column gets floor, ground and what is planted; no other column changes |
| `ChunkLife.GeneratedIsBorn` | internal/world/generator.go:92-94 | so its life begins with every cell marked |
| `ChunkLife.FirstSaveRestores` | internal/storage/world_storage.go:82-141 | the first save of a generated chunk is restored whatever was edited |
| `ChunkLife.CommitExact` | internal/storage/world_storage.go:116-138 | when a save ends, a reload brings a cell back exactly when it is in the delta and unchanged since the snapshot, or not in it and as generated; the edits since the snapshot are lost and unmarked |
| `ChunkLife.EditDuringSaveIsLost` | internal/storage/world_storage.go:116-138 | an edit between the snapshot and the end of a save is gone on reload, and nothing marks it any more |
| `ChunkLife.SecondSaveLoses` | internal/storage/world_storage.go:124-138 | however the chunk begins: edit one cell, save, edit another, save, and on reload the first edit is gone |
| `ChunkLife.OtherLayerLosesAll` | internal/storage/world_storage.go:91-116 | a change in another layer makes the next save store an empty delta: on reload all saved edits are gone |
| `ChunkLife.AnyLife` | internal/storage/world_storage.go:82-242 | the chunk and storage objects follow this life under any edits, saves and replays, from any valid chunk: generated, reloaded or saved |
| `ChunkLife.AnyLifeThenSave` | internal/storage/world_storage.go:82-242 | the same exact condition on the objects, from any valid chunk, after any edits, saves and replays |
| `WorldBlocks.WorldManager.constructor` | internal/world/world.go:49-66 | a world without loaded chunks |
| `WorldBlocks.WorldManager.LoadChunk` | internal/world/world.go:383-410 | a missing BigChunk and chunk are created once; the chunk's contents are the stored or generated ones |
| `WorldBlocks.WorldManager.GetBlockLayer` | internal/world/world.go:380-420 | the block of the stored or generated chunk; nothing visible changes |
| `WorldBlocks.WorldManager.SetBlockLayer` | internal/world/world.go:428-468 | the id, if the layer is one of the three, and, in any order of the keys, the payload over the old one are seen at the position and layer; no other position or layer looks different |
| `WorldBlocks.WorldManager.SetBlockMetadataValue` | internal/world/world.go:711-745 | one key of the active block is written, its id and other keys stay, and no other position or layer looks different |
| `WorldBlocks.WorldManager.RemoveBlock` | internal/world/world.go:748-753 | returns the old active block and leaves id 0 with the old metadata; no other position or layer looks different |
| `WorldBlocks.WorldManager.GetChunk` | internal/world/world.go:566-607 | the stored or generated chunk under the key of a sixteenth of the coordinates times four; nothing visible changes |
| `WorldBlocks.ViewIsHistory` | internal/world/world.go:380-468 | in every run the accessors see, at every position and layer, the generated block changed by just the operations on it |
| `WorldBlocks.LastIdWins` | internal/world/world.go:428-460 | the id is the last one set, 0 after a removal |
| `WorldBlocks.UntouchedIsGenerated` | internal/world/world.go:399-419 | a position and layer that no operation named shows the id and metadata that generation gave its chunk and cell |
| `WorldBlocks.BeyondLayersIsAir` | internal/world/chunk.go:130-162 | beyond the three layers no id but 0 is ever seen |
| `WorldBlocks.LastValueWins` | internal/world/world.go:462-467 | the value of a metadata key is the last one brought for it, removals notwithstanding |
| `WorldBlocks.KeysStay` | internal/world/world.go:748-753 | metadata keys, generated or set, never go |
| `WorldBlocks.FetchKeyExact` | internal/world/world.go:568-571 | GetChunk names the accessors' BigChunk exactly when both chunk coordinates lie in 0..15 |
| `WorldBlocks.ShadowIsGenerated` | internal/world/world.go:566-607 | outside that range GetChunk always returns the generated contents |
| `WorldBlocks.ShadowDiffers` | internal/world/world.go:566-607 | outside that range there is a run after which GetChunk shows another block than the accessors |
| `WorldBlocks.FetchIsLiveExactly` | internal/world/world.go:566-607 | GetChunk shows the world in every run exactly for chunk coordinates in 0..15 |
| `GenerationRace.StepInv` | internal/world/world.go:383-410 | every step of accessors that meet on a chunk not loaded yet keeps the invariant |
| `GenerationRace.RunInv` | internal/world/world.go:383-410 | every state of every interleaving satisfies it |
| `GenerationRace.AccessorsProceed` | internal/world/world.go:446-467 | in every interleaving each accessor can look up, store what it generated, write and leave without waiting for another |
| `GenerationRace.WriteShowsExactly` | internal/world/world.go:446-467 | in every interleaving each write of an id or a metadata key shows, as that id or key and nothing else, exactly when its accessor was not overtaken between lookup and store; otherwise it is lost |
| `GenerationRace.ReadSeesExactly` | internal/world/world.go:399-419 | in every interleaving an accessor reads what is visible, or, if it was overtaken, the generated contents with just its own writes |
| `GenerationRace.OnlyWritesShow` | internal/world/world.go:383-410 | generating and storing changes nothing visible |
| `GenerationRace.StoreDecides` | internal/world/world.go:446-457 | an accessor is overtaken exactly when it found no chunk but finds one when it stores, and stays so |
| `GenerationRace.SecondWriteIsLost` | internal/world/world.go:446-467 | two accessors that both find no chunk: the write of the one that stores second is lost |
| `Framing.RoundTripExact` | internal/protocol/serializer.go:166-229 | a message comes back exactly when it is uncompressed, or its compressed bytes happen to unmarshal to a message that asks for compression |
| `Framing.CompressedIsLost` | internal/protocol/serializer.go:166-229 | a correct codec and a compressed message that does not come back |
| `Framing.PrefixBytes` | internal/protocol/serializer.go:180-181 | a header is the four low bytes of the length, least significant first |
| `Framing.LengthIsChecked` | internal/protocol/serializer.go:193-204 | data shorter than a header, or whose rest is not of the announced length modulo 2^32, are refused |
| `Framing.WrongLengthIsRefused` | internal/protocol/serializer.go:192-204 | a frame cut short or followed by other bytes, by less than 2^32 bytes, is refused |
| `Framing.SerializeBatch` | internal/protocol/serializer.go:233-265 | count, then the frames in order; nothing for an empty batch or a message that cannot be marshalled |
| `Framing.DeserializeBatch` | internal/protocol/serializer.go:268-317 | reads the announced number of frames inside the data, or fails |
| `Framing.ReadMessage` | internal/protocol/serializer.go:285-310 | one turn of the loop: every slice stays in bounds and the outcome of the whole read does not change |
| `Framing.ReadMessages` | internal/protocol/serializer.go:282-314 | the loop gives the outcome of reading the announced number of frames |
| `Framing.BatchRoundTrip` | internal/protocol/serializer.go:233-317 | uncompressed messages with any bytes behind them are read back exactly when they are at most 1000 |
| `Framing.OnlyFramesMatter` | internal/protocol/serializer.go:268-317 | on any input an accepted batch consumes its header and its frames, inside the data, and nothing else: other bytes behind them give the same answer |
| `Framing.CutBatchIsRefused` | internal/protocol/serializer.go:268-317 | a batch cut anywhere before its last frame ends is refused |
| `Bytes.LittleRoundTrip` | internal/protocol/serializer.go:180-181 | a little-endian header reads back modulo its range |
| `Dedupe.NATSInvalidator.constructor` | internal/cache/nats_invalidator.go:83-136 | no keys; a window of 0 becomes five seconds |
| `Dedupe.NATSInvalidator.RecordKey` | internal/cache/nats_invalidator.go:299-304 | the key gets the present time |
| `Dedupe.NATSInvalidator.CleanupDedupe` | internal/cache/nats_invalidator.go:327-339 | a key stays, with its time, exactly when it is at most a window old |
| `Dedupe.NATSInvalidator.PublishInvalidation` | internal/cache/nats_invalidator.go:139-176 | a key recorded less than a window ago is skipped without error, a failed send is not recorded, a sent key is |
| `Dedupe.NATSInvalidator.HandleInvalidationMessage` | internal/cache/nats_invalidator.go:236-270 | own, duplicate and unreadable messages are not handled; a handled key is recorded |
| `Dedupe.CleanupIsInvisible` | internal/cache/nats_invalidator.go:285-339 | in every interleaving with a monotone clock a check answers as one that keeps every record for ever |
| `Dedupe.CloseRecordsOverlap` | internal/cache/nats_invalidator.go:139-176 | in every interleaving two records of one key are a window apart unless the later was checked before the earlier was recorded |
| `Dedupe.SpacedExactly` | internal/cache/nats_invalidator.go:139-262 | in every interleaving all records of one key are a window apart exactly when no worker records a key that a second check at that moment would refuse |
| `Dedupe.AtomicRecordsAreSpaced` | internal/cache/nats_invalidator.go:236-262 | when checking and recording is one step, all records of one key are a window apart |
| `Dedupe.InterleavedChecksBothPass` | internal/cache/nats_invalidator.go:139-170 | from any state, two workers that check a fresh key before either records it are both let through |
| `RateLimit.ClientConnection.constructor` | internal/network/game_server_adapter.go:224-232 | a connection starts at count 0 |
| `RateLimit.GameServerAdapter.CheckRateLimit` | internal/network/game_server_adapter.go:370-395 | off: accepts; unknown connection: refuses; else only that connection's meter moves: it restarts at 1 when a second has passed since its last reset and goes up by 1 otherwise, and a count within the limit is accepted |
| `RateLimit.AcceptedSinceReset` | internal/network/game_server_adapter.go:386-394 | between two resets exactly as many messages are accepted as arrive, up to the limit |
| `RateLimit.AtMostTwicePerSecond` | internal/network/game_server_adapter.go:370-395 | for every monotone arrival sequence at most twice the limit is accepted in any half-open second |
| `RateLimit.SplitAtReset` | internal/network/game_server_adapter.go:386-394 | a reset inside a second splits what it accepts into what came before and what arrives from it on, up to the limit |
| `RateLimit.WithinLimitExactly` | internal/network/game_server_adapter.go:370-395 | for every monotone arrival sequence a second accepts no more than the limit exactly when, for each reset strictly inside it, the accepted before it and the arrivals from it on, up to the limit, are together no more than the limit |
| `RateLimit.TwiceIsReached` | internal/network/game_server_adapter.go:370-395 | for every limit there are arrivals that reach twice the limit within a second |
| `OnceUpdates.BigChunk.AddOnceTickable` | internal/world/bigchunk.go:667-672 | scheduling twice is scheduling once |
| `OnceUpdates.BigChunk.TakeOnce` | internal/world/bigchunk.go:124-132 | the snapshot lists each scheduled position once and clears the schedule |
| `OnceUpdates.BigChunk.UpdateOnceBlocks` | internal/world/bigchunk.go:123-161 | each scheduled position has exactly one turn and is ticked in it exactly when loaded and registered then; what the updates schedule waits |
| `OnceUpdates.TickMeans` | internal/world/bigchunk.go:140-160 | a turn ticks exactly when the position's chunk is loaded and the behaviour of its id there is registered, and then has the effect of the tick; otherwise it has none |
| `OnceUpdates.VisitsAreOwed` | internal/world/bigchunk.go:123-161 | in every interleaving the schedule holds what was requested since the snapshot, and the visits done plus those left are one for each position requested before it |
| `OnceUpdates.PhaseServesEachOnce` | internal/world/bigchunk.go:123-161 | when a phase ends each position was visited once if it was requested before the phase, and not otherwise |
| `OnceUpdates.PhaseEnds` | internal/world/bigchunk.go:123-161 | requests made meanwhile do not prolong a phase |
| `OnceUpdates.RequestedExactly` | internal/world/bigchunk.go:667-672 | a position waits for the next phase exactly when it was requested after the last snapshot |
| `OnceUpdates.AnyoneMayRequest` | internal/world/bigchunk.go:667-672 | in every run any position may be requested, also during a phase |
| `OnceUpdates.RequestsAreServed` | internal/world/bigchunk.go:123-161 | every run goes on to one in which exactly the positions requested by now have been visited, each once, and nothing is left |
| `RttStats.ExchangeSort` | internal/network/metrics.go:361-367 | the in-place exchange sort yields a sorted permutation |
| `RttStats.Sum` | internal/network/metrics.go:374-377 | the loop adds all samples |
| `RttStats.Calculate` | internal/network/metrics.go:351-384 | minimum, maximum, truncated average and percentiles of the samples, said without sorting them |
| `RttStats.SortedIndexIsRank` | internal/network/metrics.go:381-383 | the element at index k of a sorted permutation is the order statistic of rank k of the samples |
| `RttStats.RanksAreOrdered` | internal/network/metrics.go:381-383 | order statistics of rising rank rise, so a rank determines its value |
| `RttStats.StatsAreOrdered` | internal/network/metrics.go:351-384 | Min <= P50 <= P95 <= P99 <= Max, and Avg lies in [Min, Max], also for negative values |
| `RttStats.WindowIsSuffix` | internal/network/metrics.go:154-162 | after any measurements the samples are the last thousand, or all if fewer |
| `RttStats.NetworkMetrics.constructor` | internal/network/metrics.go:105-121 | no samples |
| `RttStats.NetworkMetrics.RecordRTT` | internal/network/metrics.go:154-166 | the window of a thousand slides by the new sample; minimum, maximum, truncated average and the ranks 50, 95 and 99 per cent are those of the new window |

## Left out

- REST API, webhooks, authentication, middleware, metrics export, tracing, logging and configuration: thin wrappers around libraries and I/O.
- Sockets, KCP sessions, goroutine lifecycles and tickers: only the step that each tick triggers is modelled.
- JSON, protobuf, zstd, gzip, Redis, NATS and Badger internals: files, records and messages are values, and `Framing` takes its body codecs as parameters. The gzip compressor of the sync pipeline is left out with them.
- Rounding of float64: positions, sizes and radii are exact reals.
- Integer overflow of counters, versions, sums and ids: they are unbounded; the 32-bit sequence numbers and length headers are modelled with their width.
- Mutex re-entrancy and deadlock.
- SpatialIndexing.SpatialIndex.Insert: requires an id that is not in the index, because the code does not clean up an earlier record; here and in the queries bounds whose slice capacity would be negative, on which the code panics, are excluded.
- SpatialIndexing.SpatialIndex.Update: models the shared index record as a value whose only part read through a cell, the entity, never changes; the aliasing of the record itself is not captured.
- Regions.RegionManager.AddEntity: requires a fresh id; a region's own entity table, its dirty flag, its chunks and the statistics counters are not modelled.
- Regions.AnyRun: requires, while an id is registered, the object that is registered under it: with another object a region keeps the old one, whose position the queries read, so no linear scan over places holds. Sizes are not negative there.
- Regions.AnyRunThenQuery: as `AnyRun`, and the radius is not negative.
- Regions.RegionManager.MoveEntity: `updateEntityBehavior` moves entities without calling it, so such entities are out of sync until the next call.
- EventBus.StepInv: the bus is a machine on values, because its goroutines interleave inside its methods; a panicking handler is not modelled.
- Batching.BatchManager.Flush: publishing the payload on the bus, and with it a failed publish, is not modelled; an emitted batch is one handed to the bus.
- AckWindow.KCPChannel.UpdateAckBits: the code has no rule for wrap-around of sequence numbers, so none is modelled.
- AckWindow.KCPChannel.Send: is one step here; reads that an arrival comes between are the subject of `TornStamp`, which takes the update of the mask as one write.
- Replication.BlockDeltaHandler.ProcessDeltaMessage: the server only logs its message and names its fields differently from the demo client, so a message is what both ends mean by it, delivered once and in order; the CRC and the client timestamp are left out.
- WriteBehind.RedisCache.constructor: a cache without write-behind or without cold storage is not modelled.
- WriteBehind.RedisCache.SetValue: `BatchSet`, a Redis write that fails after taking effect, and the items left in the queue when the worker stops are not modelled; to the hot cache `Delete` is what expiry is.
- FileStorage.FileStorageAdapter.SaveBlock: is one step here, as are the other calls; calls that overlap on one chunk are the subject of `SaveRace`. Files that hold invalid JSON, and the modification time, are not modelled.
- SaveRace.DiskExact: a LoadBlock that puts an old file into the cache after the last write is covered by `LoadRestores` instead.
- WorldBlocks.WorldManager.GetChunk: returns the contents of the chunk rather than the live chunk, so writing through the returned pointer is not captured.
- ChunkDeltas.WorldStorage.SaveChunk: is one step here; edits during a save are the subject of `ChunkLife.CommitExact`.
- ChunkLife.AnyLife: an interrupted save and dropping a chunk are steps of the life, not operations of the objects; two saves of one chunk at once are not modelled.
- ChunkDeltas.Chunk.SetBlockWithBehavior: a behaviour may create nil metadata (internal/world/block/loader.go:28), and the next metadata write to that block then panics; the model takes nil for empty metadata.
- OnceUpdates.BigChunk.UpdateOnceBlocks: the permanently ticking blocks and the entity phase of a tick are left out; a TickUpdate is any function of the chunks.
- RttStats.NetworkMetrics.RecordRTT: the other metrics are plain counters and are left out.
- Regional conflict resolution, entity event routing, prediction snapshots, replay and the demo tools: stubs, or without a stable invariant.
- World generation, animal behaviour and colliders: generation is any function from chunk coordinates to contents; the rest is random or only easy facts.
