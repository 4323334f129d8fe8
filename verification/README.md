# QuantumRadar in Dafny

QuantumRadar turns on-chain logs into a fragility alert: logs are replayed or received, decoded into
events, kept in a ring buffer, folded into a graph, turned into tensors and scored. This project states
what the hard parts of that pipeline do, in Dafny, and proves it. Code that changes things in place is a
class or a method with loops; each such method is tied to a specification function, and the properties
are lemmas about those functions. Protocols with interleaving are state machines: a run is any list of
steps that are each possible when they happen.

The modules follow the repository's files:

- `RingBuffer`, `AsyncRingBuffer` - the two buffers and the lock around them (`core/ring_buffer.py`).
- `EngineRunner`, `EngineOrder` - the detector process behind a bounded queue, and which frames it loses
  (`engine/runner.py`).
- `HexText`, `Abi`, `Events`, `Replay`, `Decoders`, `DecoderLaws`, `Router`, `FixtureDecoders` - from a
  fixture row to an ABI-encoded log (Solidity Contract ABI Specification, "Formal Specification of the
  Encoding") and back to a normalized event, twice: through the typed decoders and through the hand-written
  word slicer.
- `BlockGroups`, `ClientQueues`, `MockServer`, `ServerRuns`, `SubscriptionLaws`, `Pipeline`, `EndToEnd`,
  `LossyReplay` - block grouping, the mock server's bounded client queues, every run of it, what each
  subscription is served, the realtime loop, all of these composed without losses, and composed whatever
  the queue evicts.
- `OrderedDict`, `GraphTables`, `GraphBuilder`, `GraphLaws`, `GraphWeights` - `build_graph`, what its
  snapshots satisfy, and what every edge stands for and weighs, told from the events alone.
- `Adjacency`, `Sparse`, `Normalize`, `Truncation`, `Fragility`, `FragilityInputs` - tensors, rank selection,
  the entropy score and how graph and masses reach it, over the reals; `ln`, `sqrt`, the decay and the
  singular values are parameters with the hypotheses used.
- `PyText`, `Memlog`, `MemlogHistory` - the frontmatter-and-log text format and what every command does to
  the log, whatever its arguments contain. `ConfigMerge`, `KeyedArrays`, `ConfigLaws`,
  `LayeredArrays` - the layered merge.
- `Paging`, `ReplayDriver`, `RateLimiter`, `LimiterThreads` - capped retrieval, timestamp pacing, the per-key
  limiter, and the limiter on interleaved threads.

Where the code does not keep a promise in general, the condition under which it does is proved with it:

- The drop counter of the engine runner bounds the lost frames in every run in which no `stop` finds the
  queue full. A `stop` on a full queue evicts without counting: begun in an idle state it keeps the bound
  exactly if the losses are counted now, with one count to spare when a frame can be at the head of the
  full queue (`LossesAreCounted`, `StopKeepsCountIff`, `StopLosesUncounted`).
- The realtime loop takes a head at the epoch for "no head yet" and skips that block's logs. Heads from
  before 1970 depend on the form their time comes in: as numbers, which is what `ingestion/streams.py` says
  of the client library, they are delivered like any other and the loop never crashes; as the text of the
  wire they cannot be read, and the loop crashes exactly if the replay has such a block, with the rows of
  the blocks before it delivered (`Fidelity`).
- When the client's queue overflows, a log is stamped with the time of the last head that was sent, which is
  its own block's exactly if that head was sent too (`StampOfSent`, `StampIsOwnIff`, with `EvictedHead` for
  the failure). As long as no log outlives its head, what is delivered is part of what a clean replay
  delivers (`KeptHeadsKeepStamps`), and a sorted fixture always arrives sorted (`ArrivesSorted`).
- A row with a malformed address column is not always refused. Uniswap rows are delivered whatever their
  token columns hold; an Aave column is read as the last 20 bytes of its digits, or padded with zeros up to
  20, as soon as it has an even number of at least 16 digits. `DeliveryIsExact` holds for every row, and
  only well-formed rows arrive exactly if no malformed one is deliverable (`OnlyWellFormedArriveIff`,
  `MalformedTokenArrives`, `MalformedColumnsExist`).
- Pool identifiers are unambiguous while protocol names hold no colon. A snapshot is refused exactly when
  there are no events, two pools sharing a token collide, a name exceeds the schema's length, a block number
  is negative or a given id is no UUID (`BuildSucceedsIff`, `ColonFreeIsSafe`, `CollisionRefuses`).
- The engine keeps the newest frames as long as a full queue yields a message when asked for one; if the
  queue claims to be empty, the new frame is refused and counted (`QueueIsNewest`, `LosesTheOldest`).
- A flat spectrum scores one only while `1/n` is above the `1e-15` cut-off (`ScoreOneIff`).
- The hand-written address slicer and the typed one agree exactly on topics of at least 20 bytes
  (`AssetsAgreeIff`).
- A memlog body survives rendering exactly if its only line breaks are newlines (`BodySurvivesIff`).
- The memlog never loses, changes or reorders an entry (`HistoryIsKept`), but a run appends exactly its own
  entries if and only if no label it prints has a line break and no key has an entry line after a fence line
  (`HistoryIsAppendOnlyIff`, with `BrokenLabelForgesEntry` and `BrokenKeyForgesEntry` for the failures).
- The layered merge may be bracketed either way on layers of one shape - at each common path all tables, all
  scalars, all plain arrays or all arrays keyed on one field - and then even fails alike
  (`SameShapeAssociates`). Arrays whose neighbours are merged on `id` agree exactly if the last merge sees an
  item without a code, or finds by the codes the places the ids have (`IdArraysIff`, with
  `HiddenCodeBreaksIt` for the failure). A layer of another kind in between is harmless exactly if the last
  layer absorbs the first: every key of a table, nothing below a plain array, the keys of a keyed array in
  their order (`InterruptedIff`). All these conditions speak of the layers, recurring keys included; the
  shapes are sufficient and not necessary.
- The rate limiter honours every limit exactly while a key has not left a minute and returned to it
  (`HonoursLimitsIff`, `ClockGoingBack`). On several threads it answers as if one at a time while requests of
  one key do not overlap; if they do, it can let too many through but never refuses one too many
  (`NoOverlapIsSequential`, `RefusedOnlyOverLimit`, `OverlapLetsThrough`).
- A timestamp that the schema's pattern admits and no calendar has ends a fixture replay with an exception,
  although malformed rows are meant to be skipped (`ReplayDriver.Run`).

`dafny verify dfyconfig.toml` checks everything.

## Model

| member | source | states |
|---|---|---|
| `RingBuffer.DequeRingBuffer.Write` | core/ring_buffer.py:120-122 | the history grows by the event and the buffer stays its last `capacity` elements |
| `RingBuffer.DequeRingBuffer.ReadLatest` | core/ring_buffer.py:128-136 | the newest `n` of what is shown, nothing for `n <= 0` |
| `RingBuffer.NumpyRingBuffer.Write` | core/ring_buffer.py:166-171 | writing modulo the capacity with an unbounded head overwrites exactly the oldest event |
| `RingBuffer.NumpyRingBuffer.ReadAll` | core/ring_buffer.py:173-182 | the rotated read returns the last `capacity` events in order |
| `RingBuffer.SlotsDistinct` | core/ring_buffer.py:166-171 | two positions less than a turn apart never share a slot |
| `RingBuffer.BothBuffersAgree` | core/ring_buffer.py:98-196 | after any writes both buffers answer `read_all` and `read_latest` alike: the FIFO view |
| `AsyncRingBuffer.OneHolder` | core/ring_buffer.py:234-262 | mutual exclusion in every reachable state |
| `AsyncRingBuffer.HeldReadStaysCurrent` | core/ring_buffer.py:253-262 | while a snapshot is held nothing is written and it equals the buffer's view throughout |
| `AsyncRingBuffer.RunIsSequential` | core/ring_buffer.py:234-247 | every run's answers are those of a plain FIFO called in the order the bodies ran |
| `AsyncRingBuffer.Rerun` | core/ring_buffer.py:234-262 | the synchronous buffer's own methods, called in the order the bodies ran, give the answers of the run |
| `EngineRunner.RunKeepsInv` | engine/runner.py:77-109 | queue ceiling, frame partition, order and counter equation in every interleaving of producer and worker |
| `EngineRunner.ExactlyOneFate` | engine/runner.py:40-109 | each submitted frame is exactly one of processed, failed, in the worker's hand, queued, lost, being placed |
| `EngineRunner.ResultsInSubmissionOrder` | engine/runner.py:40-50 | polled and pending results are the detector's images of handled frames, in submission order; the queue respects its ceiling |
| `EngineOrder.LosesTheOldest` | engine/runner.py:77-99 | in every interleaving the frame a step loses is older than all that is queued or being placed and newer than all that was handled, or it is the newest, refused twice |
| `EngineOrder.QueueIsNewest` | engine/runner.py:77-99 | while no `stop` begins and a full queue yields a message, the queue between calls is exactly the newest submissions, as many as it holds |
| `EngineOrder.IdleWorkerQueue` | engine/runner.py:77-99 | while the worker takes nothing these are the last `min(maxQueue, n)` of `n` submissions |
| `EngineOrder.QueueIsFifo` | engine/runner.py:40-50 | frames and stop marks leave the queue at its head only and join it at its end only, and the worker does as the head says |
| `EngineOrder.StoppedStays` | engine/runner.py:40-50 | once a stop mark is taken no step handles a frame or adds a result |
| `EngineRunner.DropCounter` | engine/runner.py:77-99 | lost frames plus evictions that removed none equal the drop counter plus the evictions of `stop` and the one still to be counted, in every interleaving |
| `EngineRunner.LossesAreCounted` | engine/runner.py:77-99 | without `stop`, or while every `stop` finds room, lost frames never exceed the drop counter once a call is over, nor by more than one within a call |
| `EngineRunner.StopKeepsCountIff` | engine/runner.py:111-131 | beginning a `stop` in any reachable idle state keeps the losses counted in every continuation exactly if they are counted now, with one to spare when a frame can be at the head of the full queue |
| `EngineRunner.StopLosesUncounted` | engine/runner.py:111-131 | a run in which `stop` loses a frame the counter never sees |
| `HexText.FromHexOfToHex` | ingestion/decoders/uniswap_v3.py:74-77 | reading printed hex returns the bytes |
| `HexText.ToIntOfHex` | ingestion/pipeline.py:37-40 | a number printed by `hex` is read back exactly if it is not negative |
| `Abi.WordRoundTrip` | tools/mock_wss/replay.py:210-242 | a value encodes exactly when in range for its type, and its word decodes to it |
| `Abi.WordCanonical` | ingestion/decoders/uniswap_v3.py:100-131 | only a value's own encoding decodes to it |
| `Abi.AnyWord` | ingestion/decoders/uniswap_v3.py:100-131 | every 32-byte word decodes, unsigned and in two's complement |
| `Abi.NarrowWord` | ingestion/decoders/uniswap_v3.py:100-131 | a narrower unsigned word is accepted exactly if its padding is zeros |
| `Abi.TupleRoundTrip` | tools/mock_wss/replay.py:210-242 | decoding undoes encoding on whole tuples, whatever bytes follow |
| `Abi.DecodeAt` | ingestion/decoders/uniswap_v3.py:100-131 | component `k` is the decoding of bytes `32k` to `32k+32` |
| `Replay.RenderableIff` | tools/mock_wss/replay.py:245-279 | a raw log is built exactly when the amounts parse and are in range for the row's event |
| `Router.TopicReadsBack` | ingestion/decoders/aave_v3.py:40-43 | for any column: its topic reads back as an address exactly if it has an even number, at least 16, of hex digits, and then as the last 40 of the padded digits |
| `Router.TopicRoundTrip` | ingestion/decoders/aave_v3.py:40-43 | what is read back is the column itself, lower-cased, exactly if it holds 20 bytes |
| `Router.DataRoundTrip` | tools/mock_wss/replay.py:245-279 | a rendered log's data decodes, by the types it was encoded with, to the encoded values |
| `DecoderLaws.RenderedLog` | tools/mock_wss/replay.py:245-279 | a rendered row is a log of its own event and pool, amounts and assets in their declared places and zeros in all others |
| `Router.AmountsRoundTrip` | ingestion/decoders/aave_v3.py:49-73 | for each event type the decoders pick the amounts out of the positions they were put in, and refuse the other protocol's events |
| `DecoderLaws.DecodersReadRealLogs` | ingestion/decoders/aave_v3.py:49-73 | on any log of an event, whatever its other words hold, the decoder of its protocol reads the declared amounts and the other protocol's refuses it |
| `Router.AssetsRoundTrip` | ingestion/decoders/aave_v3.py:49-89 | the assets of any renderable Aave row are addresses exactly if the columns that are read are readable, and which addresses they are |
| `Router.DeliveryIsExact` | ingestion/router.py:61-83 | render, route, decode and validate, for every row: it arrives exactly when deliverable, and then in normal form with the given stamp |
| `Router.MalformedTokenArrives` | tools/mock_wss/replay.py:205-207 | every deliverable Aave row whose token is not 20 bytes arrives all the same, with another, valid address in its place |
| `Router.MalformedColumnsExist` | tools/mock_wss/replay.py:205-207 | such rows exist for every even length from 16 digits on, 40 excepted |
| `Router.AaveSingleAssetFidelity` | ingestion/decoders/aave_v3.py:54-73 | supply, borrow and withdraw rows are unchanged exactly if their second amount and token were zero |
| `FixtureDecoders.SliceIsWord` | tools/extract_fixtures.py:254-265 | a sliced word has the value of the 32 bytes at its offset |
| `FixtureDecoders.SliceAgrees` | tools/extract_fixtures.py:245-265 | the slicer's two's complement reads what any typed decoder accepts there |
| `FixtureDecoders.AssetsAgreeIff` | tools/extract_fixtures.py:268-270 | both address readers agree exactly on topics of at least 20 bytes |
| `FixtureDecoders.SwapDecodersAgree` | tools/extract_fixtures.py:280-297 | on every swap log the typed decoder accepts, the hand-written one reads the same amounts |
| `FixtureDecoders.AaveDecodersAgree` | tools/extract_fixtures.py:299-357 | on supply, borrow and liquidation logs both give the same amounts and assets |
| `BlockGroups.IterBlockGroups` | tools/mock_wss/replay.py:169-188 | the grouping loop computes the groups |
| `BlockGroups.GroupsIsGrouping` | tools/mock_wss/replay.py:169-188 | groups flatten back to the input, hold one block each, carry their first timestamp and differ from their neighbours |
| `BlockGroups.GroupingIsUnique` | tools/mock_wss/replay.py:169-188 | no other list of groups has these properties |
| `BlockGroups.SortedGroupsIncrease` | tools/mock_wss/replay.py:169-188 | on sorted input block numbers strictly increase |
| `MockServer.Client.Enqueue` | tools/mock_wss/server.py:78-103 | drop-oldest: the newest message is always placed, the result tells whether one was evicted |
| `MockServer.Server.FanOut` | tools/mock_wss/server.py:254-272 | every client gets one notification per matching subscription, and the global drop counter grows by exactly the evictions caused |
| `SubscriptionLaws.SubscriptionIsServed` | tools/mock_wss/server.py:206-272 | in every run a kept subscription is enqueued exactly the actions played since its request that it asked for, in order: all heads, the logs of the named addresses in any case, or all logs |
| `SubscriptionLaws.UnsubscribeRemoves` | tools/mock_wss/server.py:195-198 | unsubscribing removes the named subscription only, keeps the others in order and answers whether there was one |
| `SubscriptionLaws.UnsubscribedIsSilent` | tools/mock_wss/server.py:195-198 | afterwards its id is never served again |
| `SubscriptionLaws.LazyStart` | tools/mock_wss/server.py:130-150 | in every run the replay has been released exactly if some client has subscribed, and before that nothing is played |
| `SubscriptionLaws.EndedStays` | tools/mock_wss/server.py:161-173 | a connection that has ended is enqueued and sent nothing more, whatever the others do |
| `EndToEnd.LogNotices` | tools/mock_wss/server.py:264-272 | the whitelist's subscription is sent a log exactly if its address is whitelisted, or the whitelist is empty |
| `MockServer.Server.ReplayLoop` | tools/mock_wss/server.py:274-316 | all clients end as after the rendered heads and logs in block order, and `events_sent` grows by the number of dated blocks and of renderable rows in them |
| `ClientQueues.SendsAreCounted` | tools/mock_wss/server.py:274-316 | the notifications of a replay are one per block whose time parses and one per row of such a block whose amounts are in range |
| `ServerRuns.RunKeepsInv` | tools/mock_wss/server.py:78-103 | the per-client and global counter invariants hold in every run of clients, writers and replay |
| `ServerRuns.QueueInvariant` | tools/mock_wss/server.py:175-181 | sent, in flight and queued form an ordered subsequence of everything enqueued, the queue is its newest part within the ceiling, counts add up, and `dropped_total` is the notification evictions |
| `Pipeline.RunRealtime` | ingestion/pipeline.py:73-99 | the loop writes to the buffer exactly the events of the message fold, with its counters |
| `EndToEnd.EnqueuedEverything` | tools/mock_wss/server.py:240-272 | a client that keeps its subscriptions is enqueued every notification of the replay, in order |
| `EndToEnd.Fidelity` | ingestion/pipeline.py:54-99 | after any clean replay: with heads as numbers the loop never crashes and has counted every block with a head and produced the delivered rows of all blocks in order; with heads as text it has crashed exactly if a block is from before 1970, with the count and the rows of the blocks before it |
| `EndToEnd.BufferHoldsTheFixture` | ingestion/pipeline.py:54-99 | for any fixture the last `capacity` of them are the last `capacity` deliverable rows of the blocks reached, in normal form, each under its own block's time |
| `EndToEnd.OnlyWellFormedArriveIff` | ingestion/pipeline.py:54-99 | what arrived is the well-formed whitelisted rows with their columns as given, exactly if no malformed row of an arriving block is deliverable |
| `EndToEnd.DeliveredRowsAreNormal` | ingestion/router.py:61-83 | any block delivers exactly its deliverable rows in normal form |
| `Pipeline.HeadTimeOfHex` | ingestion/pipeline.py:37-40 | a head's time is read back in either form, save a negative one that comes as text |
| `EndToEnd.ConsumeScript` | ingestion/pipeline.py:54-99 | consuming a whole replay crashes exactly if heads come as text and one is from before 1970, and yields the count and the delivered rows of the blocks reached |
| `EndToEnd.LogsFollowTheirHead` | tools/mock_wss/server.py:278-315 | the most recent head before any log is its own block's |
| `EndToEnd.IngestInto` | ingestion/pipeline.py:54-99 | feeding a fresh buffer leaves the newest `capacity` events |
| `LossyReplay.StampOfSent` | ingestion/pipeline.py:78-92 | in any replay, evictions included, a log that was sent is stamped with the time of the last head sent, never a later block's, and its own block's head exactly if that was sent |
| `LossyReplay.StampIsOwnIff` | ingestion/pipeline.py:78-92 | where no two blocks share a time, the stamp is right exactly if the log's own head was sent |
| `LossyReplay.KeptHeadsKeepStamps` | ingestion/pipeline.py:78-92 | while each log sent has its head sent, what is delivered is a subsequence of what a clean replay delivers |
| `LossyReplay.ArrivesSorted` | tools/mock_wss/replay.py:91-92 | a fixture sorted by block and log index arrives sorted, whatever was evicted |
| `LossyReplay.EvictedHead` | tools/mock_wss/server.py:78-103 | a replay over a queue of one in which the second block's row is stamped with the first block's time |
| `GraphTables.CollectTables` | engine/graph/builder.py:91-109 | the event loop computes the four tables |
| `GraphTables.VolumesAddUp` | engine/graph/builder.py:96-109 | the volume table sums to the total amount on legs with a real token |
| `GraphTables.TablesAt` | engine/graph/builder.py:96-109 | each entry is the flow and the last meeting of its own pool and token |
| `GraphBuilder.CollectEdges` | engine/graph/builder.py:111-152 | the nested loops emit leg, protocol and shared-token edges in order |
| `GraphBuilder.CollectVolumes` | engine/graph/builder.py:179-185 | the node volume loop files each leg under its token, pool and protocol |
| `GraphBuilder.BuildGraph` | engine/graph/builder.py:74-218 | the imperative builder computes the specified snapshot or error |
| `GraphLaws.RawEdgesSound` | engine/graph/builder.py:114-152 | every edge joins a pool and its token, a protocol and its pool, or two pools that share a token |
| `GraphLaws.SharedEdgesComplete` | engine/graph/builder.py:132-152 | every two pools that share a token have their edge |
| `GraphLaws.NodeTypesFacts` | engine/graph/builder.py:163-169 | ids are unique, complete and of their prefix's kind |
| `GraphLaws.EdgesHaveNodes` | engine/graph/builder.py:171-174 | no edge dangles |
| `GraphLaws.ColonFreeIsSafe` | engine/graph/builder.py:48-57 | colon-free protocol names exclude collisions |
| `GraphLaws.CollisionRefuses` | engine/graph/builder.py:48-57 | pool `b:c` under `a` and pool `c` under `a:b` that share a token collide, and the snapshot is refused |
| `GraphLaws.WeightsInBand` | engine/graph/builder.py:154-161 | weights are in the unit interval, some weight is 1 once any score is positive |
| `GraphLaws.ConnectivityIsExact` | engine/graph/builder.py:176-189 | connectivity is the share of other nodes touched; the clamp never acts |
| `GraphLaws.VolumeIsConserved` | engine/graph/builder.py:179-185 | node volumes over tokens, pools and protocols each sum to the total volume |
| `GraphLaws.BuildSucceedsIff` | core/schemas/__init__.py:107-144 | a valid snapshot results exactly for non-empty events, non-negative blocks, no collision, names within the schema's length and a well-formed id if one is given |
| `GraphLaws.NamesFitIs` | contracts/graph_snapshot.schema.json:46-50 | the names fit exactly up to these lengths, prefixes included |
| `GraphLaws.UuidGroups` | contracts/graph_snapshot.schema.json:10-14 | an id is well formed exactly if its five groups are hexadecimal, with the version and the variant in place |
| `GraphLaws.EdgeErrorIs` | core/schemas/__init__.py:123-144 | for any snapshot the edge checks pass exactly without dangling edges and loops, and an error names a fault that is there |
| `GraphLaws.SnapshotLaws` | core/schemas/__init__.py:123-144 | uniqueness, no dangling edge or loop, weights, volumes and connectivity of every produced snapshot |
| `GraphWeights.SnapshotEdgesAre` | engine/graph/builder.py:111-161 | from the events alone: each meeting, pool and pair of pools of a token has its one edge, between the named ends, of its kind, with its flow and last refresh; of equal flows the fresher weighs more and an hour halves the weight; at one time weights are as flows, and kinds as 1 to 0.7 to 0.5 |
| `GraphWeights.NodeVolumeIs` | engine/graph/builder.py:179-200 | a node's volume is what flowed on the legs filed under it |
| `GraphWeights.NodesAreCalledFor` | engine/graph/builder.py:163-169 | the nodes are exactly the tokens met, the pools and the protocols the pools were last under, each once and under its kind |
| `GraphWeights.RangeIsExact` | engine/graph/builder.py:206-216 | the range runs from the lowest to the highest block of the events |
| `Adjacency.AdjacencyTensor` | engine/tensor/adjacency.py:28-68 | the in-place accumulation yields the specified matrix; any unknown endpoint is an error |
| `Adjacency.CellsAreWeights` | engine/tensor/adjacency.py:36-66 | with distinct ids, cell `(i, j)` is the weight of all edges that join the i-th and the j-th node |
| `Adjacency.DenseSymmetric` | engine/tensor/adjacency.py:61-66 | the matrix is symmetric |
| `Adjacency.EntriesAddUp` | engine/tensor/adjacency.py:61-66 | entries add up to twice each non-loop weight plus once each loop weight |
| `Sparse.SparseAdjacency` | engine/tensor/sparse.py:24-74 | the triplet loop, coalescing and compression succeed exactly when every endpoint is known |
| `Sparse.TripletsAreDense` | engine/tensor/sparse.py:36-61 | summing the triplets of a cell gives the dense entry |
| `Sparse.CoalesceKeepsSums` | engine/tensor/sparse.py:63-72 | coalescing sorts the cells and keeps every sum |
| `Sparse.SparseIsDense` | engine/tensor/sparse.py:24-74 | the CSR matrix is the dense matrix |
| `Sparse.SameProduct` | engine/tensor/sparse.py:24-74 | both give the same matrix-vector product |
| `Sparse.CsrSavesSpace` | engine/tensor/sparse.py:77-97 | CSR bytes are at most 20% of dense from 41 nodes on at 95% sparsity, and 40 are too few |
| `Normalize.AffineInvariant` | engine/tensor/normalize.py:77-92 | both methods are invariant under `x -> ax+b` with `a > 0` |
| `Normalize.ScaleIsZeroIff` | engine/tensor/normalize.py:86-87 | the scale vanishes exactly on constant columns |
| `Normalize.ConstantBecomesZero` | engine/tensor/normalize.py:49-53 | constant columns become zero |
| `Normalize.NormalFormIsStandard` | engine/tensor/normalize.py:79-92 | a normalized non-constant column refits to offset 0 and scale 1 |
| `Normalize.Idempotent` | engine/tensor/normalize.py:77-92 | normalizing twice is normalizing once |
| `Normalize.TensorTwice` | engine/tensor/normalize.py:50-92 | on whole tensors: the second pass changes nothing and fits the standard state to every column; the first states reproduce the result |
| `Normalize.TensorFailsIff` | engine/tensor/normalize.py:72-92 | only an unknown method and the extremes of no rows fail; each column is fitted and applied on its own |
| `Normalize.MinMaxLaws` | engine/tensor/normalize.py:79-81 | values in the unit interval, both ends attained, order kept |
| `Normalize.ZScoreLaws` | engine/tensor/normalize.py:82-84 | mean 0 and population variance 1 |
| `Truncation.BisectIsFirst` | engine/mps/truncation.py:107-107 | left bisection finds the first position at or above the target |
| `Truncation.AutoRankIsMinimal` | engine/mps/truncation.py:97-108 | the rank retains the asked energy, no smaller one does, and it lies in `[1, k]` without the cap |
| `Truncation.AutoRankMonotone` | engine/mps/truncation.py:97-108 | more energy never lowers the rank |
| `Truncation.EffectiveRankIsBest` | engine/mps/truncation.py:60-76 | no null-space mode is kept unless nothing else exists, and no larger allowed rank would do |
| `Fragility.BornIsDistribution` | engine/mps/naive.py:101-105 | Born probabilities are non-negative and sum to 1 |
| `Fragility.GibbsSum` | engine/mps/naive.py:108-109 | Gibbs' inequality over the kept modes, with equality only at the flat value |
| `Fragility.ScoreInUnit` | engine/mps/naive.py:97-112 | every spectrum of at least two values scores in the unit interval, cut-off included |
| `Fragility.ScoreOneIff` | engine/mps/naive.py:100-112 | score 1 exactly for flat spectra with `1/n` above the cut-off |
| `Fragility.ScoreZeroIff` | engine/mps/naive.py:100-112 | score 0 exactly for one-mode spectra and those wholly below the cut-off |
| `Fragility.ScoreIsScaleFree` | engine/mps/naive.py:100-112 | scaling the spectrum changes nothing |
| `Fragility.FragilityInUnit` | engine/mps/naive.py:63-112 | whatever the input, an error or a value in the unit interval |
| `FragilityInputs.MassLaws` | engine/mps/naive.py:80-88 | a node's mass is linear in the weights, and one column's weight alone gives that column |
| `FragilityInputs.ScoreOfCoupling` | engine/mps/naive.py:93-112 | the score is that of the spectrum of any matrix whose squared cells are both masses times the squared edge, with the edge's sign |
| `FragilityInputs.CouplingLaws` | engine/mps/naive.py:93-95 | such a matrix has no coupling at a node without mass, is the graph at unit masses, and is symmetric with it |
| `FragilityInputs.SpectrumTotal` | engine/mps/naive.py:97-104 | the total that normalizes the spectrum is the sum of squared edges weighed by the masses at both ends |
| `FragilityInputs.UncoupledScoresZero` | engine/mps/naive.py:100-104 | a graph whose edges all have an end without mass scores zero |
| `FragilityInputs.UnitsDoNotMatter` | engine/mps/naive.py:63-112 | scaling all features or all edges changes neither score nor error |
| `FragilityInputs.ScoredIff` | engine/mps/naive.py:63-92 | when there is a score, and when it is zero for want of nodes or mass |
| `Memlog.Split` | _bmad/scripts/memlog.py:90-107 | the parser computes the specified document or error |
| `Memlog.RoundTrip` | _bmad/scripts/memlog.py:90-113 | splitting what was rendered finds the fence where it was written, whatever values and body contain |
| `Memlog.MetaReadBack` | _bmad/scripts/memlog.py:102-113 | with colon-free keys the frontmatter returns in order, trimmed and on one line, whatever its values contain |
| `Memlog.BodySurvivesIff` | _bmad/scripts/memlog.py:104-113 | the body returns stripped of outer newlines exactly if its only line breaks are newlines |
| `Memlog.ReadIsCanonical` | _bmad/scripts/memlog.py:90-107 | any document read from a file is in canonical form |
| `MemlogHistory.CommandEffect` | _bmad/scripts/memlog.py:90-187 | on a readable file no command fails; the old entries stay unchanged and in order, behind the entries a key forges and before those of the new entry's lines |
| `MemlogHistory.CommandOnlyAppendsIff` | _bmad/scripts/memlog.py:164-187 | a command adds exactly its own entry at the end if and only if its label has no line break, or no entry line of its key follows a fence line |
| `MemlogHistory.HistoryIsKept` | _bmad/scripts/memlog.py:164-187 | over every run, whatever its arguments, the log is forged entries, the old log, new entries |
| `MemlogHistory.HistoryIsAppendOnlyIff` | _bmad/scripts/memlog.py:164-187 | the log of a run is the old log followed by the appended entries in order exactly if every command is clean |
| `Memlog.AppendKeepsMeta` | _bmad/scripts/memlog.py:116-119 | an append changes nothing of the frontmatter but the stamp, which moves to the end |
| `Memlog.SetWritesMeta` | _bmad/scripts/memlog.py:180-187 | `set` writes the trimmed one-line value under its key and changes nothing else but the stamp |
| `MemlogHistory.BrokenLabelForgesEntry` | _bmad/scripts/memlog.py:164-177 | a label with a line break puts two entries into the file |
| `MemlogHistory.BrokenKeyForgesEntry` | _bmad/scripts/memlog.py:180-187 | a key with a fence in it puts an entry in front of all others |
| `ConfigMerge.MergeKeyed` | _bmad/scripts/resolve_config.py:82-105 | the two loops with their index compute the keyed merge, or fail on a key that is no scalar |
| `ConfigMerge.EmptyIsNeutral` | _bmad/scripts/resolve_config.py:117-125 | the empty table is neutral on both sides |
| `ConfigMerge.OverrideScalarWins` | _bmad/scripts/resolve_config.py:117-136 | a scalar of the overriding layer is what its path shows |
| `ConfigMerge.HighestLayerWins` | _bmad/scripts/resolve_config.py:161-163 | folding any layers shows, at every path, the scalar of the highest layer that speaks there |
| `ConfigMerge.FoldEdges` | _bmad/scripts/resolve_config.py:161-163 | one layer is itself, and empty layers below or above have no effect |
| `LayeredArrays.FoldJoinsArrays` | _bmad/scripts/resolve_config.py:107-163 | where every layer is silent or holds a plain array, the fold shows all their items, the lowest layer's first |
| `LayeredArrays.ItemPlace` | _bmad/scripts/resolve_config.py:107-163 | an item stands behind all items of lower layers and keeps its place within its own |
| `KeyedArrays.MergeIsPutAll` | _bmad/scripts/resolve_config.py:82-105 | on a uniquely keyed base the index-driven loops replace in place or append, item by item |
| `KeyedArrays.PutAllAssociates` | _bmad/scripts/resolve_config.py:82-105 | keyed merging of uniquely keyed arrays is associative |
| `KeyedArrays.MergeShape` | _bmad/scripts/resolve_config.py:82-105 | whatever keys recur: each key's last place in the base shows the last overriding item of that key, and the new keys follow in order |
| `KeyedArrays.SameResultIff` | _bmad/scripts/resolve_config.py:73-105 | merging on another field gives the same array exactly if every item finds the same place by both fields |
| `ConfigLaws.ArraysAssociate` | _bmad/scripts/resolve_config.py:73-114 | arrays that agree on how to merge, all plain, all keyed on `code`, or all merged on `id`, associate without ever failing; plain ones in their order |
| `ConfigLaws.MergesOnIdIff` | _bmad/scripts/resolve_config.py:73-105 | two arrays of unique ids are merged on `id` exactly if an item lacks a code or the codes find the same places |
| `ConfigLaws.IdArraysIff` | _bmad/scripts/resolve_config.py:73-105 | when both neighbouring pairs are merged on `id`, the bracketings agree exactly if the last merge sees an item without a code, or all codes are scalars and find the places the ids have |
| `ConfigLaws.MergeAssociates` | _bmad/scripts/resolve_config.py:117-125 | on layers of compatible shape the bracketing does not matter once the first two merge |
| `ConfigLaws.AlignedAssociates` | _bmad/scripts/resolve_config.py:117-125 | on layers that line up it never matters, failures included |
| `ConfigLaws.SameShapeAssociates` | _bmad/scripts/resolve_config.py:73-125 | on layers that are, at each common path, all tables, all scalars, all plain arrays or all arrays keyed on one field, the bracketing never matters, failures included |
| `ConfigLaws.AbsorbedIff` | _bmad/scripts/resolve_config.py:82-125 | merging a layer below changes nothing exactly if each of its keys is above, its plain arrays are empty, and the keyed arrays above go through its keys in order |
| `ConfigLaws.InterruptedIff` | _bmad/scripts/resolve_config.py:117-125 | with a layer of another kind in between the bracketings agree exactly if the last layer absorbs the first |
| `ConfigLaws.HiddenCodeBreaksIt` | _bmad/scripts/resolve_config.py:73-79 | `id` items that gain a shared `code` are replaced in one bracketing and kept in the other |
| `Paging.FetchPage` | tools/extract_fixtures.py:185-212 | at most five attempts, the first conclusive reply, and the back-off slept |
| `Paging.GetLogs` | tools/extract_fixtures.py:166-238 | the recursive retrieval terminates and computes the specified result |
| `Paging.NothingIsLost` | tools/extract_fixtures.py:207-238 | logs that are returned are all logs of the range in order, whatever the transport did |
| `Paging.PagingIsComplete` | tools/extract_fixtures.py:221-238 | over a transport that gets through, the full sequence is returned exactly if no single block holds 1000 logs; otherwise the lowest such block is named |
| `Paging.TransientIff` | tools/extract_fixtures.py:185-205 | an attempt is repeated exactly after a request exception or a text that names the rate limit, anywhere and in any case |
| `Paging.ConclusiveReply` | tools/extract_fixtures.py:185-225 | failed attempts leave no trace: the first conclusive reply of five decides, told apart by what it says |
| `ReplayDriver.NoRowIsLost` | ingestion/csv_loader.py:92-118 | every row is an event or a logged line, never both |
| `ReplayDriver.EventsAreRows` | ingestion/csv_loader.py:59-90 | the events are the acceptable rows, each once, in order, column by column |
| `ReplayDriver.Run` | ingestion/csv_loader.py:186-204 | writes the valid events up to the first impossible date, sleeps the positive gaps, counts, logs bad lines and warns on each step back |
| `ReplayDriver.SleepsTelescope` | ingestion/csv_loader.py:195-201 | the sleep is at least the scaled span and equals it exactly if no timestamp goes back |
| `ReplayDriver.ReplayFixture` | ingestion/csv_loader.py:186-204 | a whole replay leaves the last `capacity` valid events and takes the scaled span; `asap` never sleeps |
| `RateLimiter.Limiter.RequireApiKey` | emitter/api.py:39-51 | 401 for unknown keys, 429 over the limit, the table always being that of the history |
| `RateLimiter.AcceptedIffStreak` | emitter/api.py:44-50 | for any clock: accepted exactly if the key's current streak in the minute is below the limit |
| `RateLimiter.MinuteIs` | emitter/api.py:43-43 | minutes begin at the multiples of sixty seconds |
| `RateLimiter.HonoursLimitsIff` | emitter/api.py:44-50 | every limit is honoured exactly while the key has not left the minute and come back |
| `RateLimiter.PassedIsExact` | emitter/api.py:44-50 | on a monotone clock each key passes min(limit, requests) per minute |
| `RateLimiter.AnySixtySeconds` | emitter/api.py:44-50 | at most twice the limit passes per key in any sixty seconds |
| `RateLimiter.KeysAreIndependent` | emitter/api.py:44-50 | other keys' requests change no decision |
| `RateLimiter.ClockGoingBack` | emitter/api.py:43-50 | a clock stepping back lets two requests of one minute through at limit 1 |
| `LimiterThreads.NoOverlapIsSequential` | emitter/api.py:39-51 | in every interleaving in which requests of one key do not overlap, each answer is the one-at-a-time limiter's on the requests that began before |
| `LimiterThreads.RefusedOnlyOverLimit` | emitter/api.py:44-50 | in every interleaving a request is refused only if its key made more requests in its minute than the limit |
| `LimiterThreads.OverlapLetsThrough` | emitter/api.py:44-50 | two overlapping requests of one key both pass at limit 1 |

## Left out

- Floating point: amounts, weights, tensors and times are integers or reals; rounding and float32 are not modelled.
- Singular values, `exp`, `ln` and `sqrt` are parameters; of the singular value routine only the number of values, the sum of their squares and homogeneity are used.
- `strptime`, ISO formatting (years of fewer than four digits included) and the `Z` suffix: timestamps are Unix seconds or a parse function. The sorting of `load_events` is a hypothesis where it is used.
- Amounts are the integer that `int(text)` reads; its underscores, signs and blanks, and whitespace in `bytes.fromhex`, are not modelled.
- Schema patterns are read as JSON Schema means them; that Python's `$` also matches before a final newline is not modelled.
- web3's formatting of logs is taken as the identity, because the decoders read text, bytes and numbers alike; that of a head's time is a parameter.
- Keccak topic constants and block hashes are distinct tags.
- Subscription ids are numbers that are never given twice, where the server draws UUIDs.
- JSON, sockets, websocket ping and close, HTTP and FastAPI plumbing: channels are FIFO and stay open unless a client disconnects.
- `sleep_seconds` pacing of the mock server, `_parse_rate` and `parse_speed`: the speed is given as `asap` or a positive factor.
- `MockServer.Server.ReplayLoop`: clients that connect, request or drain during a replay are covered by `ServerRuns.RunKeepsInv`, on values.
- `EndToEnd.Fidelity`: asked, like `LossyReplay`, of clients that hold both subscriptions before the first block and keep them.
- `RateLimiter.Limiter.RequireApiKey`: one request at a time; interleaved threads are in `LimiterThreads`, on values.
- `EngineRunner.RunKeepsInv`: the process is a state machine on values, not a class, because worker and producer run interleaved; kill and join timeouts are not modelled.
- `AsyncRingBuffer.RunIsSequential`: fairness of the lock and cancellation are not modelled.
- A snapshot's creation time and the text of its id are not part of the modelled snapshot.
- The `order` of `sorted(pools)` is any enumeration of the set without repeats.
- `Sparse.SparseAdjacency`: `coalesce` and `to_sparse_csr` are modelled as what they mean, not as torch computes them; COO sizes are left out.
- `Normalize.ZScoreLaws`: a z-score fitted to no rows has no parameters in the model.
- `Truncation.EffectiveRankIsBest`: the warning is not modelled, and the factors are kept only through their number.
- `fragility_raw_from_graph`, the perturbation and baseline code: calls into the parts above.
- `MemlogHistory.HistoryIsAppendOnlyIff`: atomic file replacement, locking, `cmd_init` and argument parsing are not modelled; files are read with their line breaks as they are.
- `ConfigMerge.MergeKeyed`: TOML parsing is not modelled, tables are unordered, and keys that Python finds equal across types (`1`, `True`, `1.0`) are kept apart.
- `ConfigLaws.MergeAssociates`: asked of layers whose first two merge without a TypeError, since a later scalar can cover a failure in only one of the two orders; `AlignedAssociates` has the layers where it cannot.
- `ConfigLaws.ArraysAssociate`: sufficient, not necessary; arrays whose merges are on different fields may agree by chance.
- `Paging.PagingIsComplete`: the service answers each range from one unchanging chain; throttling between calls is not modelled.
- `ReplayDriver.Run`: CSV syntax, gzip and the text of the error log are not modelled, and the schema's verdict on the other columns is given.
- `_bmad/scripts/resolve_customization.py` repeats the merge functions; alert payloads, webhooks, the registry, reconnection and reports hold only short single-branch facts.
