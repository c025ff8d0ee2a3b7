# A verified model of Tribler's algorithms and protocols

This project models the self-contained algorithms and protocols inside Tribler's core, and proves what they keep
over all inputs, runs and reachable states. `dafny verify dfyconfig.toml` checks all of it.

Code that changes state step by step is a class or a method with its loops, proved against a specification function;
the theorems are lemmas about those functions and about runs of their steps. Each module belongs to one subject:

- **Metadata gossip** (`Binary`, `PayloadCodec`, `TextFields`, `TorrentRows`, `ChunkSender`, `ChunkReceiver`,
  `GossipRoundTrip`, `StoredFrames`): a query result is cut into size-bounded compressed chunks with a textual health
  list, sent, decoded and paired again. The main theorems go from one peer's rows to another peer's payloads and table.
- **Metadata merge** (`MetadataMerge`, `MetadataStore`): payloads are merged into a keyed table in batches whose size
  follows the measured time.
- **Title ranking** (`TitleRank`, `TorrentRank`): a rotating deque refines a circular scan of the fixed title.
- **Health order** (`HealthOrder`, `HealthStore`): which info replaces which, what runs of replacements keep, and how
  long their cycles are.
- **Query augmentation** (`LikePatterns`, `Augmenter`, `SearchQuery`): a search becomes a weaker SQL LIKE query,
  and what it finds is stated exactly, down to the text of the query.
- **Protocols** (`BloomFilter`, `DhtLookup`, `UdpTracker`, `UdpSessions`, `MetainfoLookup`, `GoldenRatio`): BEP 33
  lookups, the UDP tracker transactions of BEP 15, reference-counted metainfo lookups, and peer culling.
- **Pieces** (`PieceHash`, `Streaming`, `Availability`): the Merkle hash of a piece of BEP 52, streaming a byte range,
  and availability.
- **File selection** (`SelectionTree`, `FileTreeItems`): the tree of three-valued check boxes, as a value and as
  objects changed in place.

## Where the code and its documentation part

The model follows the code. Each case has a lemma with a concrete input and one that says exactly when the code meets
its promise; both are named.

- `entries_to_chunk` promises that the first entry of a chunk is always added, but tests the absolute index. At a later
  chunk whose first entry does not fit alone it returns index 1. The sending loop then starts over from there, and
  repeats for ever if it meets such an entry again (`StoredFrames.SecondEntryTooLarge`, `StoredFrames.OneFaultThenEnd`,
  `ChunkSender.ProgressIff`, `ChunkSender.TerminatesExactly`).
- A request takes ten packets at most, and the sender does not know it: a result of more than ten chunks arrives in
  part (`StoredFrames.TenOfElevenArrive`, `GossipRoundTrip.GossipRoundTrip`,
  `GossipRoundTrip.LastRowArrivesIff`).
- The last piece of a file that is exactly full is hashed as if it held no block
  (`PieceHash.FullLastPieceHashesToZero`, `PieceHash.PieceHashIsExpectedIff`), and in a buffer shorter than a piece the
  padding is cut short (`PieceHash.OneByteIsNotPadded`, `PieceHash.ShortBufferIsExpectedIff`).
- A search made only of markers raises an IndexError (`SearchQuery.BareMarkerFails`, `SearchQuery.AugmentFailsIff`).
- A datagram of four to seven bytes passes the length test and then fails to unpack (`UdpTracker.UnpackRaisesIff`).
- A finished session is cleaned up a second time; if another session has drawn its id in between, that session's
  future is dropped (`UdpTracker.SecondCleanupDropsFuture`, `UdpTracker.CleanupSparesOthersIff`).
- A user who removes a download during a lookup can leave a hidden download behind that no lookup will remove, and is
  given it when starting the download again (`MetainfoLookup.RemovalDuringLookupLeaksHidden`,
  `MetainfoLookup.NeverOrphanedIff`, `MetainfoLookup.OrphanStaysForEver`, `MetainfoLookup.UserStartTakesOver`).
- Replacement of health infos is not transitive (`HealthOrder.ReplacementIsNotTransitive`,
  `HealthOrder.ChainShortensIff`), and an own check and a remote info can replace each other
  (`HealthOrder.OwnAndRemoteContend`, `HealthOrder.MutualReplacementIff`).
- A shorter filter in a DHT response cuts the lookup's filter short (`BloomFilter.ShortFilterLosesBit`,
  `BloomFilter.BitsAreKeptIff`); it adds no zero bits, and an empty one leaves none at all
  (`DhtLookup.EmptyResponseSaturates`).
- A bit field shorter than the file makes a stream read too early (`Streaming.EmptyFieldReadsEarly`,
  `Streaming.ReadIsSafeIff`), and one that becomes shorter while a read waits can raise an IndexError
  (`Streaming.ShrinkingFieldRaises`, `Streaming.WaitRaisesIff`, `Streaming.PollMeans`).

## Model

| member | source | states |
|---|---|---|
| `Binary.BigEndianRoundTrip` | src/tribler/core/database/serialization.py:71-84 | An unsigned integer that fits in the width is read back from its big-endian bytes |
| `Binary.BigEndianOfRead` | src/tribler/core/database/serialization.py:71-84 | Writing what was read at the same width restores the bytes, so no two encodings share a value |
| `Binary.FirstCountsMost` | src/tribler/core/database/serialization.py:71-84 | The order of the bytes: those in front count more, by the range of those behind |
| `PayloadCodec.UnpackField` | src/tribler/core/database/serialization.py:88-115 | A field that unpacks never moves the offset back |
| `PayloadCodec.UnpackPacked` | src/tribler/core/database/serialization.py:88-115 | Any list of fields that packs is unpacked again at any position of any buffer, with the offset just behind it |
| `PayloadCodec.ReadPayload` | src/tribler/core/database/serialization.py:71-84 | A payload that is read moves the offset on by at least its 64-byte signature, which is what ends the reading loop |
| `PayloadCodec.ReadPayloads` | src/tribler/core/database/store.py:439-441 | The loop over the offset ends for all bytes and reads exactly the payloads of the recursive reader, stopping with its error |
| `PayloadCodec.KindDecides` | src/tribler/core/database/serialization.py:71-84 | Which number in front names which kind: 300 and 400 are read on, the four other known ones are skipped |
| `PayloadCodec.UnknownKindFails` | src/tribler/core/database/serialization.py:71-84 | Any other number, or too few bytes for one, ends the reading of the whole buffer with its error |
| `TorrentRows.ReadSerialized` | src/tribler/core/database/orm_bindings/torrent_metadata.py:369-381 | A row written by serialized() is read back with its signature, wherever it stands in a buffer |
| `TorrentRows.WireNames` | src/tribler/core/database/serialization.py:95-226 | Under each of its twelve names, and in its signature, the payload has what the row has: the sent title is the received title, and so for flags, key, ids, timestamp, infohash, size, date, tags and tracker info |
| `TorrentRows.ReadSaysRow` | src/tribler/core/database/serialization.py:71-84 | A row read back from any place in a buffer says under every name what the row that was written says |
| `TorrentRows.SerializedLayout` | src/tribler/core/database/orm_bindings/torrent_metadata.py:369-381 | The bytes of a row, field by field in the order and with the widths of the wire format, and its signature behind them |
| `TorrentRows.ReadAllSerialized` | src/tribler/core/database/serialization.py:71-84 | A run of serialized rows is read back row by row with nothing left over |
| `TextFields.ParsePrintedInt` | src/tribler/core/database/serialization.py:309-327 | int() undoes the decimal print of every integer, also a negative one |
| `TextFields.ParseHealthItem` | src/tribler/core/database/serialization.py:309-327 | Any bytes at all parse to a non-negative triple |
| `TextFields.ParsePrintedHealth` | src/tribler/core/database/orm_bindings/torrent_metadata.py:363-367 | A non-negative triple survives printing and parsing; a missing row or any other triple is received as zeros |
| `TextFields.HealthTextIs` | src/tribler/core/database/orm_bindings/torrent_metadata.py:363-367 | The very bytes of a health entry, and of one without health |
| `TextFields.ParseIntReads` | src/tribler/core/database/serialization.py:309-327 | Signs, spaces and single underscores are read as int() does, and three texts it refuses are refused |
| `TextFields.UnpackPrintedHealth` | src/tribler/core/database/serialization.py:300-306 | The concatenated health text unpacks to the health of every entry, in order |
| `TextFields.SelectedFilesRoundTrip` | src/tribler/core/libtorrent/download_manager/download_config.py:264-283 | Every selection is read back as it was set; the empty list stays apart from None |
| `ChunkSender.EntriesToChunk` | src/tribler/core/database/orm_bindings/torrent_metadata.py:133-187 | The chunk and the index returned are those of the maximal fitting run from `start`; the two exceptions come exactly when the start is too large or the health text too long |
| `ChunkSender.Fill` | src/tribler/core/database/orm_bindings/torrent_metadata.py:161-178 | The loop stops at the first later entry that breaks the limit, holding exactly the buffers of the entries before it |
| `ChunkSender.EndIsMaximal` | src/tribler/core/database/orm_bindings/torrent_metadata.py:167-178 | A chunk is within the limit, and the next entry would break it; only entry 0 of the list goes in unchecked |
| `ChunkSender.SizeIsLength` | src/tribler/core/database/orm_bindings/torrent_metadata.py:157-187 | The size counted while the chunk grows is the length of the bytes returned |
| `ChunkSender.ChunkWithinLimit` | src/tribler/core/database/orm_bindings/torrent_metadata.py:133-137 | No chunk is longer than the limit, except a first one that holds a single oversized entry |
| `ChunkSender.ProgressIff` | src/tribler/core/database/orm_bindings/torrent_metadata.py:173-187 | The returned index moves on if and only if the start is 0 or its entry fits in a chunk of its own |
| `ChunkSender.TerminatesWhenLaterFit` | src/tribler/core/content_discovery/community.py:343-357 | Sending ends whenever every entry after the first fits alone, for any compressor |
| `ChunkSender.TerminatesExactly` | src/tribler/core/content_discovery/community.py:343-357 | For every compressor sending ends if and only if, from index 0 on or from index 1 on, every entry at which a chunk begins fits alone |
| `ChunkSender.TerminatesIff` | src/tribler/core/content_discovery/community.py:343-357 | Without a dictionary between entries this means that every entry after the first fits alone |
| `StoredFrames.OneFaultThenEnd` | src/tribler/core/content_discovery/community.py:343-357 | A compressor with a dictionary that decompresses what it compresses, and a result for which sending meets a fault, starts over from index 1 and ends |
| `StoredFrames.StoredObeysLaws` | src/tribler/core/database/orm_bindings/torrent_metadata.py:148-157 | The laws asked of a compressor are met by one without a history between entries |
| `StoredFrames.DictionaryObeysLaws` | src/tribler/core/database/orm_bindings/torrent_metadata.py:148-157 | They are met too by a compressor whose blocks depend on the entries before, so that results with a fault exist under them |
| `StoredFrames.SecondEntryTooLarge` | src/tribler/core/database/orm_bindings/torrent_metadata.py:173 | Two entries, the second oversized: its chunk is empty, index 1 is returned again, and sending never ends |
| `ChunkSender.Cuts` | src/tribler/core/content_discovery/community.py:343-357 | The chunks cut the result into consecutive non-empty runs that reach the last entry if and only if there is no fault |
| `ChunkSender.SendDbResults` | src/tribler/core/content_discovery/community.py:343-357 | Whenever the loop ends it has sent exactly the chunks between those cuts, and after a fault an empty chunk and those from index 1 on; one empty archive for an empty result |
| `ChunkReceiver.Updates` | src/tribler/core/database/store.py:447-451 | Health items are used only when there is one for each payload, each with its own payload's infohash |
| `ChunkReceiver.ProcessCompressedBlob` | src/tribler/core/database/store.py:367-389 | A blob is decompressed, read by offsets and paired with its health list; each failure teaches nothing |
| `ChunkReceiver.BrokenBlobTeachesNothing` | src/tribler/core/database/store.py:367-389 | A broken archive, a health text without its length or one payload that cannot be read spoil the whole blob |
| `ChunkReceiver.WholeBlobTeaches` | src/tribler/core/database/store.py:432-452 | Otherwise all payloads are learnt, and health for each of them or for none |
| `ChunkReceiver.SelectRequest.OnResponse` | src/tribler/core/content_discovery/community.py:385-403 | A response is processed exactly while the request is cached and has budget left, which it uses up by one |
| `ChunkReceiver.ReceiveAll` | src/tribler/core/content_discovery/cache.py:32-36 | Of the responses to one request exactly the first ten are processed, in order |
| `ChunkReceiver.PrefixRoundTrip` | src/tribler/core/content_discovery/community.py:385-403 | The first k chunks teach exactly the entries before the k-th cut |
| `ChunkReceiver.FaultRoundTrip` | src/tribler/core/content_discovery/community.py:385-403 | The same when a fault puts an empty chunk between two lists of chunks |
| `GossipRoundTrip.ChunkRoundTrip` | src/tribler/core/database/orm_bindings/torrent_metadata.py:133-187 | Decoding a chunk gives back its rows in order, each with its own health triple |
| `GossipRoundTrip.GossipRoundTrip` | src/tribler/core/content_discovery/community.py:343-403 | From rows to received payloads, for every result whose sending ends, with or without a fault: the receiver learns exactly the rows carried by the first ten chunks, each payload saying under every name what its row says and each update carrying its row's own health; and all that was sent if and only if there were at most ten chunks; without a fault that is the result itself |
| `GossipRoundTrip.LastRowArrivesIff` | src/tribler/core/content_discovery/community.py:343-403 | With or without a fault, a last row unlike all others arrives if and only if the result was sent in at most ten chunks |
| `GossipRoundTrip.NothingIsLost` | src/tribler/core/content_discovery/community.py:343-357 | With or without a fault, the chunks of a whole result carry every row |
| `StoredFrames.TenOfElevenArrive` | src/tribler/core/content_discovery/cache.py:32-36 | Eleven rows in eleven chunks, of which the receiver learns ten |
| `StoredFrames.FaultyResultArrives` | src/tribler/core/content_discovery/community.py:343-403 | Three rows that meet a fault on the way: all arrive, the second of them twice |
| `GossipRoundTrip.EmptyArchive` | src/tribler/core/content_discovery/community.py:345-350 | The answer to an empty result teaches nothing, if the archive decompresses to nothing |
| `GossipRoundTrip.EmptyResultIsAnswered` | src/tribler/core/content_discovery/community.py:345-350 | An empty result is answered with one archive, by its bytes |
| `GossipRoundTrip.ArrivedRowIsStored` | src/tribler/core/database/store.py:494-531 | Every row carried by a chunk that arrived, also of a result that arrives in part, and taken by the policy, is in the receiver's table after merging, by infohash or id if free-for-all and by key and id if signed, unless its signature stands there already |
| `GossipRoundTrip.SmallResultIsStored` | src/tribler/core/database/store.py:494-531 | A result of at most ten chunks brings all its rows in that sense |
| `GossipRoundTrip.NewRowHasArrived` | src/tribler/core/database/store.py:494-531 | And every new row of the table is made, field by field, of a row that arrived and that the policy takes |
| `MetadataMerge.InfohashToId` | src/tribler/core/database/orm_bindings/torrent_metadata.py:104-108 | The id made of an infohash lies in 0 to 2^63 |
| `MetadataMerge.InfohashToIdIs` | src/tribler/core/database/orm_bindings/torrent_metadata.py:104-108 | It is the unsigned reading of the first eight bytes, or what that lacks of 2^64 |
| `MetadataMerge.OneFreeForAllPerInfohash` | src/tribler/core/database/orm_bindings/torrent_metadata.py:294-315 | No two free-for-all entries of a consistent table share an infohash |
| `MetadataMerge.ProcessKeepsTable` | src/tribler/core/database/store.py:494-531 | One payload appends at most one entry, reported as new exactly then; earlier entries stay unaltered; (key, id), signatures and free-for-all ids stay unique |
| `MetadataMerge.ProcessStoresIff` | src/tribler/core/database/store.py:494-531 | The table grows if and only if the payload is a regular torrent, no skipped own one, validly signed unless it has neither key nor signature, not there yet, and its signature free; then by exactly its own row; and a constraint is violated if and only if only the signature stands against it |
| `MetadataMerge.ProcessFreeForAll` | src/tribler/core/database/orm_bindings/torrent_metadata.py:294-315 | An acceptable payload without a key gets a row unless its infohash, or a free-for-all row with its id, is there; it is never an error |
| `MetadataMerge.ProcessSigned` | src/tribler/core/database/store.py:519-531 | An acceptable signed payload is reported as the duplicate of the row with its key and id, violates the unique signature, or gets its row |
| `MetadataMerge.MergeKeepsTable` | src/tribler/core/database/store.py:494-531 | The same for any sequence of payloads: the table stays consistent and keeps all earlier entries as a prefix |
| `MetadataMerge.MergeMakesKnown` | src/tribler/core/database/store.py:494-531 | Every payload of a processed sequence adds nothing when it comes again |
| `MetadataMerge.KnownIff` | src/tribler/core/database/store.py:494-531 | To add nothing means: not acceptable, or its row is there, or its signature is |
| `MetadataMerge.MergeStores` | src/tribler/core/database/store.py:494-531 | After any sequence each acceptable payload of it has its row, or found its signature taken |
| `MetadataMerge.MergeStoresOnly` | src/tribler/core/database/store.py:494-531 | And every row that was added is the row of an acceptable payload of the sequence |
| `MetadataMerge.MergeIsIdempotent` | src/tribler/core/database/store.py:494-531 | Processing a whole sequence again reports no new object and leaves the table unchanged |
| `MetadataStore.SecondRunAddsNothing` | src/tribler/core/database/store.py:441-492 | Payloads that one run has merged go through again, whatever the table has learnt since: no constraint aborts the second run however its batches fall, nothing new is reported, and the table stays as it is |
| `MetadataMerge.ReadAllIsWireShaped` | src/tribler/core/database/serialization.py:71-84 | Whatever bytes arrive, what is read from them satisfies the condition the merge relies on |
| `MetadataStore.AdjustedFollowsTime` | src/tribler/core/database/store.py:466-475 | Fast batches grow the next one strictly below the maximum and at most twofold, slow ones shrink it, none leaves 10 to 1000 |
| `MetadataStore.AdjustedIs` | src/tribler/core/database/store.py:468-477 | The rule in numbers: doubled when fast, divided by the time and rounded down when slow, within 10 and 1000 |
| `MetadataStore.SlowBatchMeetsTarget` | src/tribler/core/database/store.py:466-475 | After a slow batch the next one, at the same pace, keeps to the reference time unless it is minimal |
| `MetadataStore.BatchesPartition` | src/tribler/core/database/store.py:453-491 | For all measured times the batches partition the list from left to right, all but the last within 10 to 1000, so at most n/10 + 1 of them |
| `MetadataStore.OnlyFullBatchesAdjust` | src/tribler/core/database/store.py:469-477 | Full batches change the size by their time, and the batch that is not full leaves it alone |
| `MetadataStore.Store.ProcessBatch` | src/tribler/core/database/store.py:460-463 | A batch is merged in one transaction: all of its payloads or, on a violated constraint, none |
| `MetadataStore.Store.ProcessSquashed` | src/tribler/core/database/store.py:453-491 | The loop ends; the table is as if exactly the payloads of whole batches had been merged, all of them unless a shutdown or violated constraint came first |
| `MetadataStore.PrefixIsMergedOnce` | src/tribler/core/database/store.py:453-491 | Each payload of the processed prefix is merged once and in order, whatever the batches were |
| `MetadataStore.PrefixIsStored` | src/tribler/core/database/store.py:453-491 | After a run each acceptable payload of the processed prefix has its row |
| `TitleRank.TitleDeque.FindWordAndRotate` | src/tribler/core/database/ranks.py:151-178 | The deque after the call, the flag and the number of skipped words, as a function of the deque before |
| `TitleRank.StepRefinesScan` | src/tribler/core/database/ranks.py:151-178 | For one word, deque and circular scan find and skip the same and stay in step |
| `TitleRank.DequeRefinesScan` | src/tribler/core/database/ranks.py:114-178 | For all queries and titles the destructive deque finds what a scan of the fixed title finds, and ends as the uncrossed words read from the cursor |
| `TitleRank.FoundIsIntersection` | src/tribler/core/database/ranks.py:114-178 | The words found number the multiset intersection of query and title, and the words left over are the multiset difference |
| `TitleRank.PerfectIff` | src/tribler/core/database/ranks.py:114-178 | No error and nothing left over if and only if title and query are equal as lists |
| `TorrentRank.CalculateRank` | src/tribler/core/database/ranks.py:114-148 | The method computes the rank of the recursive definition |
| `TorrentRank.MatchWords` | src/tribler/core/database/ranks.py:130-140 | The loop adds up the cost of every hit and leaves the deque with the words not found |
| `TorrentRank.Rank` | src/tribler/core/database/ranks.py:114-121 | The rank lies in [0, 1] |
| `TorrentRank.RankIsOneIff` | src/tribler/core/database/ranks.py:114-148 | For a non-empty query the rank is 1 if and only if the title is the query, and 0 if and only if the title is empty |
| `TorrentRank.RankRefinesScan` | src/tribler/core/database/ranks.py:114-178 | The rank equals that of the circular scan of the fixed title |
| `TorrentRank.EarlierWeighsMore` | src/tribler/core/database/ranks.py:98-132 | Earlier query words weigh strictly more; word 0 weighs 1 and word 5 one half |
| `TorrentRank.LaterErrorCostsLess` | src/tribler/core/database/ranks.py:128-140 | The same error at a later query word costs less |
| `TorrentRank.LargerErrorCostsMore` | src/tribler/core/database/ranks.py:128-140 | A larger error at the same word costs more |
| `TorrentRank.MissingCostsTen` | src/tribler/core/database/ranks.py:102-140 | A missing word costs as much as ten skipped ones |
| `TorrentRank.RemainderIsSlight` | src/tribler/core/database/ranks.py:105-145 | A title word nobody asked for costs something, but less than the least error at any query word |
| `TorrentRank.LargerErrorRanksLower` | src/tribler/core/database/ranks.py:109-148 | A larger error makes a strictly lower rank; an error of ten ranks one half |
| `TorrentRank.RankFollowsError` | src/tribler/core/database/ranks.py:114-148 | Of two titles for one query that with the smaller error ranks higher, and the rank times ten plus the error is ten |
| `TorrentRank.SeedersRank` | src/tribler/core/database/ranks.py:52-61 | Within [0, 1) for all swarm sizes |
| `TorrentRank.SeedersRankIs` | src/tribler/core/database/ranks.py:52-61 | A hundred seeders rank one half, ten leechers count as one seeder, and the rank times the swarm size plus a hundred is the swarm size |
| `TorrentRank.FreshnessRank` | src/tribler/core/database/ranks.py:64-77 | Within [0, 1] for every age, a missing or negative one included |
| `TorrentRank.FresherRanksHigher` | src/tribler/core/database/ranks.py:64-77 | Strictly higher for fresher torrents, one half at thirty days, lowest without a date |
| `TorrentRank.CombinedFollowsTitle` | src/tribler/core/database/ranks.py:32-49 | Swarm and age take at most 19% off the title rank and never add to it |
| `TorrentRank.MoreSeedersRankHigher` | src/tribler/core/database/ranks.py:32-49 | More seeders or leechers never lower the rank |
| `TorrentRank.FresherTorrentRanksHigher` | src/tribler/core/database/ranks.py:32-49 | At equal titles and swarms a fresher torrent ranks strictly higher |
| `TorrentRank.CombinedIs` | src/tribler/core/database/ranks.py:32-49 | The value for a perfect title, a hundred seeders and thirty days |
| `HealthOrder.MutualReplacementIff` | src/tribler/core/torrent_checker/healthdataclasses.py:65-95 | Two infos replace each other if and only if they are contended, a stated test on their fields; two remote ones never do |
| `HealthOrder.ReplacesIff` | src/tribler/core/torrent_checker/healthdataclasses.py:40-95 | When one info replaces another, in numbers of seconds, seeders and leechers |
| `HealthOrder.OwnAndRemoteContend` | src/tribler/core/torrent_checker/healthdataclasses.py:65-95 | An own check and a remote info that replace each other at the same time |
| `HealthOrder.ChainShortensIff` | src/tribler/core/torrent_checker/healthdataclasses.py:65-95 | Exactly when the third info of a chain of replacements replaces the first; among remote infos it is the age window without a much-older step, and the numbers or a much later check with one |
| `HealthOrder.ReplacementIsNotTransitive` | src/tribler/core/torrent_checker/healthdataclasses.py:65-95 | Two chains of remote infos that cannot be shortened, one for each of the two conditions |
| `HealthOrder.CyclesAreLong` | src/tribler/core/torrent_checker/healthdataclasses.py:65-95 | A run of accepted remote infos that returns to its numbers has a much-older jump, and over 240 lexicographic climbs for each |
| `HealthOrder.ShortestCycle` | src/tribler/core/torrent_checker/healthdataclasses.py:65-95 | The bound is met: a cycle of 241 climbs and one jump exists |
| `HealthStore.TorrentStates.ProcessTorrentHealth` | src/tribler/core/database/store.py:391-419 | The record table after a remote message, and that only a valid message about an unknown infohash is reported as added |
| `HealthStore.TorrentStates.UpdateTorrentHealth` | src/tribler/core/torrent_checker/torrent_checker.py:393-428 | The record table and the cache of own checks after an own check |
| `HealthStore.RecordsStaySane` | src/tribler/core/torrent_checker/healthdataclasses.py:40-51 | In every reachable table of mixed remote and own updates seeders and leechers are at least 0 and last_check is less than 60 seconds after the clock |
| `HealthStore.RemoteIsRecorded` | src/tribler/core/database/store.py:391-419 | A valid message makes the record of an unknown torrent, replaces or keeps that of a known one, and touches no other |
| `HealthStore.OwnIsRecordedIff` | src/tribler/core/torrent_checker/torrent_checker.py:393-428 | An own check makes no record; it replaces one exactly when it is marked as own and beats it |
| `HealthStore.NewMetadataIsRecorded` | src/tribler/core/database/orm_bindings/torrent_metadata.py:242-245 | New metadata makes an all-zero record for an unknown torrent and changes none |
| `HealthStore.OwnRecordReplacedIff` | src/tribler/core/database/store.py:402-419 | Exactly when a remote message changes a record of an own check |
| `HealthStore.OwnChecksAreProtected` | src/tribler/core/database/store.py:402-419 | For four hours no sequence of remote messages and new metadata changes a record of an own check |
| `Augmenter.ToPhrases` | src/tribler/core/database/augmenter.py:137-155 | The loop computes the recursive grouping of pieces into phrases |
| `Augmenter.PhrasesFlatten` | src/tribler/core/database/augmenter.py:137-155 | No phrase is empty, and the phrases flatten back to the marker-stripped pieces |
| `Augmenter.PhrasesAreWords` | src/tribler/core/database/augmenter.py:137-155 | The joined phrases are the runs between markers of the tokenized text |
| `Augmenter.PermutationShape` | src/tribler/core/database/augmenter.py:170-183 | A permutation is the word with one piece replaced by a wildcard, or cut off when it is the first |
| `Augmenter.PatternsHold` | src/tribler/core/database/augmenter.py:163-188 | Every phrase has a pattern, and a title containing the word matches all its patterns under LIKE |
| `Augmenter.PatternsMeaning` | src/tribler/core/database/augmenter.py:163-188 | For words of plain pieces exactly what is asked: the word itself if it is one piece, else for some piece what is before it in the title and what is after it somewhere behind |
| `LikePatterns.PercentMeaning` | src/tribler/core/database/augmenter.py:163-188 | The recursive LIKE gives a leading percent sign its meaning: the rest matches some end of the text |
| `LikePatterns.PlainContainment` | src/tribler/core/database/augmenter.py:163-168 | For a word without wildcards, LIKE with percent signs around it holds if and only if the text contains it |
| `LikePatterns.GapMeaning` | src/tribler/core/database/augmenter.py:163-188 | Two plain words with a percent sign between them ask exactly that they stand in the text in this order |
| `LikePatterns.LikeReads` | src/tribler/core/database/augmenter.py:163-188 | Letters match in either case, an underscore any one character |
| `SearchQuery.Disjunction` | src/tribler/core/database/augmenter.py:169-188 | The middle and inner loops: one parameter for every piece left out, unless nothing remains |
| `SearchQuery.Conjoin` | src/tribler/core/database/augmenter.py:163-188 | The outer loop: a condition and its parameters for every phrase |
| `SearchQuery.Augment` | src/tribler/core/database/augmenter.py:157-194 | The query text and parameters, or the IndexError |
| `SearchQuery.AugmentFailsIff` | src/tribler/core/database/augmenter.py:189-191 | It fails if and only if there are pieces and all of them are bare markers |
| `SearchQuery.BareMarkerFails` | src/tribler/core/database/augmenter.py:189-191 | The search of one marker has no phrase and raises the IndexError |
| `SearchQuery.MarksMatchParameters` | src/tribler/core/database/augmenter.py:157-194 | Every augmented query has exactly as many question marks as parameters |
| `SearchQuery.AugmentOnlyWeakens` | src/tribler/core/database/augmenter.py:157-194 | Every title that contains each word is selected by the generated AND of ORs, even when pieces hold wildcard characters |
| `SearchQuery.SinglePiecesExact` | src/tribler/core/database/augmenter.py:163-168 | Words of one piece without wildcards are not weakened: selected if and only if all are contained |
| `SearchQuery.AugmentSelectsIff` | src/tribler/core/database/augmenter.py:157-194 | For plain pieces the conditions select exactly the titles that have every word of one piece, and of every other word all but one piece in their order |
| `SearchQuery.TextSelectsIff` | src/tribler/core/database/augmenter.py:157-194 | The text of the query, read as SQL with AND, OR and parentheses, says with its parameters what the conditions say, and uses up all parameters |
| `SearchQuery.SearchFindsIff` | src/tribler/core/database/augmenter.py:157-194 | From pieces to text: which titles a search finds |
| `SearchQuery.PagingIs` | src/tribler/core/database/augmenter.py:192 | Limit and offset in their places, in decimals |
| `SearchQuery.EmptySearch` | src/tribler/core/database/augmenter.py:162-163 | A search without pieces comes with no paging and finds every title |
| `BloomFilter.CombineBloomfilters` | src/tribler/core/libtorrent/download_manager/dht_health_manager.py:80-93 | The loop over bytes computes the bitwise OR up to the shorter filter |
| `BloomFilter.CountZeros` | src/tribler/core/libtorrent/download_manager/dht_health_manager.py:95-114 | Spelling out all bits and counting gives the number of zero bits |
| `BloomFilter.SetBitTakesZero` | src/tribler/core/libtorrent/download_manager/dht_health_manager.py:95-114 | Setting any one of the bits takes away exactly one zero |
| `BloomFilter.AllZeros` | src/tribler/core/libtorrent/download_manager/dht_health_manager.py:95-114 | A filter without a set bit has eight zeros for every byte |
| `BloomFilter.UnionIgnoresOrder` | src/tribler/core/libtorrent/download_manager/dht_health_manager.py:80-93 | The union depends only on the set of filters combined, not on order or repetition |
| `BloomFilter.CombiningAddsNoZeros` | src/tribler/core/libtorrent/download_manager/dht_health_manager.py:80-93 | Combining never adds zero bits, whatever the length of the other filter |
| `BloomFilter.BitsAreKeptIff` | src/tribler/core/libtorrent/download_manager/dht_health_manager.py:80-93 | No set bit is lost if and only if the other filter reaches to the last byte that is not zero |
| `BloomFilter.ShortFilterLosesBit` | src/tribler/core/libtorrent/download_manager/dht_health_manager.py:80-93 | Two bytes combined with one: the bit set in the second byte is lost |
| `BloomFilter.EmptyFilterErasesAll` | src/tribler/core/libtorrent/download_manager/dht_health_manager.py:80-117 | After one empty filter the union is empty and has no zero bit, which is the case of the largest size |
| `DhtLookup.EmptyResponseSaturates` | src/tribler/core/libtorrent/download_manager/dht_health_manager.py:57-117 | One response with empty filters makes a waiting future get no zero bits at all, whatever else was heard |
| `DhtLookup.DhtHealthManager.GetHealth` | src/tribler/core/libtorrent/download_manager/dht_health_manager.py:35-55 | A running lookup's future is shared, a new lookup starts with empty filters: the whole new state |
| `DhtLookup.DhtHealthManager.FinalizeLookup` | src/tribler/core/libtorrent/download_manager/dht_health_manager.py:57-78 | The whole state after a lookup ends: its queries and filters are gone and an undone future is answered with the zero bits |
| `DhtLookup.DhtHealthManager.RequestingBloomfilters` | src/tribler/core/libtorrent/download_manager/dht_health_manager.py:125-137 | The whole state after a query is sent: attributed to a live lookup, or forgotten |
| `DhtLookup.DhtHealthManager.ReceivedBloomfilters` | src/tribler/core/libtorrent/download_manager/dht_health_manager.py:139-154 | The whole state after a response; no dictionary is read at a missing key |
| `DhtLookup.StepKeepsConsistency` | src/tribler/core/libtorrent/download_manager/dht_health_manager.py:35-154 | Every step keeps the three key sets equal and every outstanding query on a live lookup |
| `DhtLookup.EndingsAreFinal` | src/tribler/core/libtorrent/download_manager/dht_health_manager.py:57-78 | A future that has ended keeps its ending: it resolves at most once |
| `DhtLookup.StepAnswers` | src/tribler/core/libtorrent/download_manager/dht_health_manager.py:57-78 | Only the end of its own lookup answers a future; anything else is a cancellation |
| `DhtLookup.LiveIsUnanswered` | src/tribler/core/libtorrent/download_manager/dht_health_manager.py:35-78 | In every run the future of a live lookup is unanswered |
| `DhtLookup.FiltersAreUnions` | src/tribler/core/libtorrent/download_manager/dht_health_manager.py:139-154 | In every run a live lookup's filters are the OR of exactly the responses counted for it |
| `DhtLookup.StepAsksIff` | src/tribler/core/libtorrent/download_manager/dht_health_manager.py:127-154 | A query is kept for a lookup if and only if it was made while that was live, until its id is used again or the lookup ends |
| `DhtLookup.QueryIsCounted` | src/tribler/core/libtorrent/download_manager/dht_health_manager.py:127-154 | A response to a query for a live lookup is counted for it and for no other, whatever happens in between |
| `DhtLookup.OrderDoesNotMatter` | src/tribler/core/libtorrent/download_manager/dht_health_manager.py:139-154 | Two runs that counted the same responses, in any order and number, agree on the filters |
| `DhtLookup.ZerosNeverGrow` | src/tribler/core/libtorrent/download_manager/dht_health_manager.py:139-154 | While a lookup lives no event adds zero bits to its filters |
| `DhtLookup.LookupReportsUnion` | src/tribler/core/libtorrent/download_manager/dht_health_manager.py:57-78 | At its end a waiting future gets the zero bits of the union of all counted responses |
| `UdpTracker.UnpackRaisesIff` | src/tribler/core/torrent_checker/torrentchecker_session.py:263-264 | A datagram passes the length test and raises if and only if it has 4 to 7 bytes, as four zero bytes do |
| `UdpSessions.UdpTrackers.Create` | src/tribler/core/torrent_checker/torrentchecker_session.py:287-305 | A new session gets an id that no active session uses; it keeps the invariant |
| `UdpSessions.UdpTrackers.GenerateTransactionId` | src/tribler/core/torrent_checker/torrentchecker_session.py:307-317 | The drawn id is one no active session uses, and is the only thing that changes |
| `UdpSessions.UdpTrackers.AddInfohash` | src/tribler/core/torrent_checker/torrentchecker_session.py:87-96 | An infohash is added to a session that has not begun, up to 60; the step of the protocol model, and it keeps the invariant |
| `UdpSessions.UdpTrackers.SendRequest` | src/tribler/core/torrent_checker/torrentchecker_session.py:232-253 | The message, as bytes, and its sending: the reply is awaited under the session's current id, or the session fails when nothing can be sent; it keeps the invariant |
| `UdpSessions.UdpTrackers.TransportReceived` | src/tribler/core/torrent_checker/torrentchecker_session.py:259-268 | A datagram completes the future under its id, is ignored, or raises exactly when it passes the length test and has no id; it keeps the invariant |
| `UdpSessions.UdpTrackers.FinishConnect` | src/tribler/core/torrent_checker/torrentchecker_session.py:372-407 | On a good reply, and only then, the session goes on with the new connection id and a fresh unused id; it keeps the invariant |
| `UdpSessions.UdpTrackers.FinishScrape` | src/tribler/core/torrent_checker/torrentchecker_session.py:409-463 | On a good reply, and only then, the session finishes with its results and frees its id; it keeps the invariant |
| `UdpSessions.UdpTrackers.RemoveTransactionId` | src/tribler/core/torrent_checker/torrentchecker_session.py:319-330 | The session is no longer active, and the future under its id is dropped whoever waits for it |
| `UdpSessions.UdpTrackers.Cleanup` | src/tribler/core/torrent_checker/torrentchecker_session.py:332-338 | The infohashes are emptied and the id is removed, for the first time or again; it keeps the invariant |
| `UdpSessions.ReadTriples` | src/tribler/core/torrent_checker/torrentchecker_session.py:443-455 | The loop with the running offset assigns the i-th 12-byte triple to the i-th infohash |
| `UdpTracker.StepKeepsInv` | src/tribler/core/torrent_checker/torrentchecker_session.py:232-463 | Every step of every interleaving keeps active ids distinct, every future keyed by its session's current id, and kept replies with their owner |
| `UdpTracker.DatagramReachesOnlyOwner` | src/tribler/core/torrent_checker/torrentchecker_session.py:259-268 | In every reachable state a datagram completes at most one future, its owner's; a session that waits has the datagram as its reply then, and nothing else is touched |
| `UdpTracker.ForeignSpares` | src/tribler/core/torrent_checker/torrentchecker_session.py:232-345 | Steps and datagrams of other sessions leave a running session, its id and its future alone |
| `UdpTracker.TimeOutFails` | src/tribler/core/torrent_checker/torrentchecker_session.py:102-112 | A timeout fails a session that has not ended, and nothing else |
| `UdpTracker.AddInfohashIff` | src/tribler/core/torrent_checker/torrentchecker_session.py:88-99 | A session takes an infohash exactly if nothing was sent, it is new, and there are fewer than sixty |
| `UdpTracker.RequestReads` | src/tribler/core/torrent_checker/torrentchecker_session.py:380-414 | From a request one reads the connection id, the action and the transaction id |
| `UdpTracker.RequestListsInfohashes` | src/tribler/core/torrent_checker/torrentchecker_session.py:413-414 | And behind them the infohashes, twenty bytes each, in order |
| `UdpTracker.ConnectReplyDecides` | src/tribler/core/torrent_checker/torrentchecker_session.py:385-407 | A connect reply of at least sixteen bytes with the action of a connect, and no other, lets the session go on |
| `UdpTracker.ScrapeReplyDecides` | src/tribler/core/torrent_checker/torrentchecker_session.py:417-463 | A scrape reply with its action and one triple per infohash, and no other, is a result |
| `UdpTracker.ScrapeCompletes` | src/tribler/core/torrent_checker/torrentchecker_session.py:343-463 | From every reachable state: a new session answered twice under its ids, while others do what they like, finishes with the triples of the reply in the order of its infohashes, names the connection by the very bytes of the connect reply, and gives its id and future back |
| `UdpTracker.ReadReplyIsOwn` | src/tribler/core/torrent_checker/torrentchecker_session.py:391-401 | A reply that is read always carries its session's id, so only a wrong action makes it an error |
| `UdpTracker.ScrapeResultsMatch` | src/tribler/core/torrent_checker/torrentchecker_session.py:409-463 | A finished scrape has one result per infohash, in order, from the matching triple, and no infohash twice |
| `UdpTracker.CleanupSparesOthersIff` | src/tribler/core/torrent_checker/torrentchecker_session.py:319-338 | Cleanup spares the futures of all other sessions if and only if none has taken over the stale id |
| `UdpTracker.CleanupForgets` | src/tribler/core/torrent_checker/torrentchecker_session.py:334-341 | Cleaning up forgets the infohashes and gives id and future back; phase and result stay |
| `UdpTracker.FirstCleanupSparesOthers` | src/tribler/core/torrent_checker/torrentchecker_session.py:319-338 | A session that still holds its id always meets that condition |
| `UdpTracker.SecondCleanupDropsFuture` | src/tribler/core/torrent_checker/torrentchecker_session.py:319-338 | A run in which a second removal drops the future of another session that drew the id again |
| `MetainfoLookup.DownloadManager.BeginGetMetainfo` | src/tribler/core/libtorrent/download_manager/download_manager.py:560-590 | The whole state when a lookup is joined, started, served by a visible download or answered from the cache |
| `MetainfoLookup.BeginHolds` | src/tribler/core/libtorrent/download_manager/download_manager.py:560-590 | A call that begins holds the download of the running lookup and is counted there, or the listed one without being counted, or a new hidden one |
| `MetainfoLookup.DownloadManager.EndGetMetainfo` | src/tribler/core/libtorrent/download_manager/download_manager.py:608-613 | The whole state after the finally clause |
| `MetainfoLookup.DownloadManager.StartDownload` | src/tribler/core/libtorrent/download_manager/download_manager.py:680-766 | The whole state after a hidden or user start, the take-over of a lookup included |
| `MetainfoLookup.DownloadManager.RemoveDownload` | src/tribler/core/libtorrent/download_manager/download_manager.py:909-935 | The download leaves the list only if it is the one listed |
| `MetainfoLookup.CalmRunsKeepInv` | src/tribler/core/libtorrent/download_manager/download_manager.py:560-613 | In every run without user removal during a lookup, `pending` is the number of live waiters |
| `MetainfoLookup.RemoveKeepsInvIff` | src/tribler/core/libtorrent/download_manager/download_manager.py:909-935 | A user removal keeps that invariant if and only if nobody waits for the infohash |
| `MetainfoLookup.HiddenGoesWithLastWaiter` | src/tribler/core/libtorrent/download_manager/download_manager.py:608-613 | The hidden download and its entry disappear exactly when the last waiter ends, and no other download with it |
| `MetainfoLookup.HiddenHasWaiter` | src/tribler/core/libtorrent/download_manager/download_manager.py:560-613 | In every run in which no hidden download is left behind, so in every calm one, each hidden download has a live waiter |
| `MetainfoLookup.UserDownloadStays` | src/tribler/core/libtorrent/download_manager/download_manager.py:703-766 | In every run, user removals included, a user download stays and stays visible whatever else happens, until the user removes it |
| `MetainfoLookup.UserStartTakesOver` | src/tribler/core/libtorrent/download_manager/download_manager.py:739-766 | In every run a user start ends a running lookup and leaves a listed download that is visible if and only if no hidden one was left behind for its infohash; in that case the user is given the hidden one |
| `MetainfoLookup.OrphanIff` | src/tribler/core/libtorrent/download_manager/download_manager.py:608-613 | A hidden download is left behind by an event if and only if it ends the last counted wait, and that wait was for another download than the hidden one listed |
| `MetainfoLookup.NeverOrphanedIff` | src/tribler/core/libtorrent/download_manager/download_manager.py:560-613 | Over any run, user removals included, no hidden download is ever left behind if and only if no wait ends like that |
| `MetainfoLookup.OrphanStaysForEver` | src/tribler/core/libtorrent/download_manager/download_manager.py:560-613 | A hidden download that was left behind survives every later run of lookups and starts, until the user removes it |
| `MetainfoLookup.HarmlessRemoval` | src/tribler/core/libtorrent/download_manager/download_manager.py:608-613 | A run with a user removal during a lookup that leaves nothing behind |
| `MetainfoLookup.RemovalDuringLookupLeaksHidden` | src/tribler/core/libtorrent/download_manager/download_manager.py:608-613 | A run with a user removal during a lookup, after which a hidden download stays with no waiter |
| `GoldenRatio.Strategy.TakeStep` | src/tribler/core/tunnel/discovery.py:62-70 | Which kind of peer goes, and that a peer of that kind goes and nothing else; the choice is never from an empty set, and with exits among the peers the counts move as in the runs of the lemmas below |
| `GoldenRatio.ChoiceIsPossible` | src/tribler/core/tunnel/discovery.py:62-70 | An exit or normal peer is chosen only when there is one, for every ratio in [0, 1] |
| `GoldenRatio.StepMovesSurplus` | src/tribler/core/tunnel/discovery.py:62-70 | Exactly when a step culls, and by how much it moves the surplus of normal peers |
| `GoldenRatio.StepTowardsBalance` | src/tribler/core/tunnel/discovery.py:62-70 | Once the surplus is within one removal of zero it stays there, and before that each step approaches without passing |
| `GoldenRatio.ExcessShrinks` | src/tribler/core/tunnel/discovery.py:62-70 | From too many normal peers balance is reached after as many steps as the surplus pays for, if culling lasts |
| `GoldenRatio.DeficitShrinks` | src/tribler/core/tunnel/discovery.py:62-70 | The same from too many exits |
| `GoldenRatio.BalanceIsReached` | src/tribler/core/tunnel/discovery.py:62-70 | After as many steps as pay for the distance the surplus is within one removal of zero, or the crowd is no larger than the target |
| `GoldenRatio.TotalPays` | src/tribler/core/tunnel/discovery.py:62-70 | As many steps as there are peers always pay for it |
| `GoldenRatio.CullingStops` | src/tribler/core/tunnel/discovery.py:62-70 | Without arrivals culling rests after at most total - target steps, at the target size or at the exact ratio |
| `PieceHash.PairingLoop` | src/tribler/core/libtorrent/torrentdef.py:152-158 | The in-place pairing ends for every number of leaves and computes the rounds of pairing |
| `PieceHash.RoundsAreMerkleRoot` | src/tribler/core/libtorrent/torrentdef.py:152-158 | For a power of two of leaves the rounds end in the recursive Merkle root |
| `PieceHash.RootDeterminesLeaves` | src/tribler/core/libtorrent/torrentdef.py:152-158 | Under an injective hash equal roots mean equal leaves |
| `PieceHash.RootOfPieces` | src/tribler/core/libtorrent/torrentdef.py:131-158 | The root over the blocks of several pieces is the root over the hashes of the pieces |
| `PieceHash.PieceLengths` | src/tribler/core/libtorrent/torrentdef.py:123-129 | Every piece of a file's range holds a byte, and only the last can be short |
| `PieceHash.GetV2PieceHash` | src/tribler/core/libtorrent/torrentdef.py:131-158 | The method hashes the blocks, pads with zero hashes and pairs them |
| `PieceHash.ExpectedIsRootOfLeaves` | src/tribler/core/libtorrent/torrentdef.py:144-158 | The tree over the bytes, block by block from left to right with zeros behind their end, is the root over the digests of all blocks and the padding |
| `PieceHash.PieceHashIsExpectedIff` | src/tribler/core/libtorrent/torrentdef.py:144-151 | In a buffer of a whole piece it is the hash of BEP 52 if and only if the piece is not a last piece that is exactly full |
| `PieceHash.RoundsDropTail` | src/tribler/core/libtorrent/torrentdef.py:152-158 | For any number of leaves the loop ends with the root over the largest power of two of them |
| `PieceHash.ShortBufferIsExpectedIff` | src/tribler/core/libtorrent/torrentdef.py:142-158 | In a buffer shorter than a piece, the hash of a last piece is that of BEP 52 if and only if its bytes reach the last block of the piece |
| `PieceHash.TreesNeverCollide` | src/tribler/core/libtorrent/torrentdef.py:131-158 | The conditions on hash functions are met by one |
| `PieceHash.OneByteIsNotPadded` | src/tribler/core/libtorrent/torrentdef.py:142-158 | One byte in a torrent with pieces of two blocks hashes without the missing block |
| `PieceHash.FullLastPieceHashesToZero` | src/tribler/core/libtorrent/torrentdef.py:145 | A file of one full block in one piece hashes to the padding value |
| `Streaming.AskedFor` | src/tribler/core/libtorrent/download_manager/stream.py:152-164 | The pieces asked for at a position take in the piece of every byte of the read |
| `Streaming.AskedForHolds` | src/tribler/core/libtorrent/download_manager/stream.py:152-164 | And no piece is asked for that holds neither a byte of the read nor the byte just behind it |
| `Streaming.ReadIsSafeIff` | src/tribler/core/libtorrent/download_manager/stream.py:145-164 | Once those pieces are complete, all bytes of the read are available if and only if the bit field reaches the last one |
| `Streaming.EmptyFieldReadsEarly` | src/tribler/core/libtorrent/download_manager/stream.py:145-164 | An empty bit field lets a read through although no piece is complete |
| `Streaming.PollMeans` | src/tribler/core/libtorrent/download_manager/stream.py:145-150 | A list of pieces is complete if and only if the bit field shows every one of them, and raises if and only if the bit field ends before the list does and shows all pieces up to there |
| `Streaming.WaitRaisesIff` | src/tribler/core/libtorrent/download_manager/stream.py:138-150 | Waiting raises if and only if a bit field that raises is the first one not to lack a piece |
| `Streaming.KeptLengthNeverRaises` | src/tribler/core/libtorrent/download_manager/stream.py:138-150 | Where no bit field is shorter than the one the list was made from, waiting never raises |
| `Streaming.ShrinkingFieldRaises` | src/tribler/core/libtorrent/download_manager/stream.py:138-150 | A bit field that becomes empty while a read waits for its only piece raises |
| `Streaming.PlanRange` | src/tribler/core/libtorrent/restapi/downloads_endpoint.py:1009-1028 | The range arithmetic computes the plan |
| `Streaming.PlanIsRange` | src/tribler/core/libtorrent/restapi/downloads_endpoint.py:1009-1028 | A byte is planned if and only if the range names it, for whole, suffix and bounded ranges |
| `Streaming.StreamReader.Read` | src/tribler/core/libtorrent/download_manager/stream.py:297-319 | Nothing for a superseded reader; else it waits for the list of pieces made at the start, and ends with the bytes up to a piece length on and the new position, still waiting, or with an IndexError, each exactly when the bit fields seen say so; each byte's piece was complete in one of them, or lay behind the end of the one the list was made from |
| `Streaming.ServeRange` | src/tribler/core/libtorrent/restapi/downloads_endpoint.py:1038-1054 | For every history the writes are a prefix of the range, the whole of it if the response is closed and never superseded, and at most one read per byte is made; the response breaks off only where waiting raises, and never with bit fields that keep their length; where they cover the file all bytes come from complete pieces |
| `Streaming.Prepare` | src/tribler/core/libtorrent/restapi/downloads_endpoint.py:1004-1054 | From range to bytes, for every history: exactly the first of the named bytes are written, and all of them if the response is closed and never superseded; it breaks off only if a bit field becomes shorter |
| `Availability.GetAvailability` | src/tribler/core/libtorrent/download_manager/download_state.py:345-372 | The nested loops compute the value of the definition by counting |
| `Availability.SeedersAreCopies` | src/tribler/core/libtorrent/download_manager/download_state.py:345-372 | It is the value obtained when a complete peer counts as one more copy of every piece |
| `Availability.OrderDoesNotMatter` | src/tribler/core/libtorrent/download_manager/download_state.py:345-372 | It is the same for every order of the peers |
| `Availability.OnePeerAddsUpToOne` | src/tribler/core/libtorrent/download_manager/download_state.py:345-372 | Adding a peer anywhere adds between 0 and 1, and exactly 1 if it is complete |
| `Availability.WholeCopies` | src/tribler/core/libtorrent/download_manager/download_state.py:345-372 | It lies in [k, k+1) for k complete peers and fewest other holders |
| `Availability.SpreadIsAverage` | src/tribler/core/libtorrent/download_manager/download_state.py:345-372 | The value is the average over the pieces of their copies, none counted for more than one above the rarest |
| `Availability.PeerCounts` | src/tribler/core/libtorrent/download_manager/download_state.py:345-372 | What one more peer counts for: a whole copy, its pieces, or nothing when its bit field has another length |
| `FileTreeItems.FileTreeItem.FixTreeProps` | src/tribler/ui/src/lib/utils.ts:206-226 | The in-place recursion changes the tree to exactly its fixed value and returns its size and mark |
| `FileTreeItems.FileTreeItem.GetSelectedFiles` | src/tribler/ui/src/lib/utils.ts:228-236 | The recursive collection lists exactly the files whose box is as asked for, in order |
| `FileTreeItems.FileTreeItem.ToggleTree` | src/tribler/ui/src/dialogs/SaveAs.tsx:98-105 | The in-place recursion sets every box below the row and nothing else |
| `FileTreeItems.FileTreeItem.BelowToggled` | src/tribler/ui/src/dialogs/SaveAs.tsx:121-129 | Toggling a row in place changes the whole tree at the path of that row only |
| `FileTreeItems.FileTreeItem.OnSelectedFilesChange` | src/tribler/ui/src/dialogs/SaveAs.tsx:121-129 | The tree and the selected files after a click |
| `SelectionTree.FixingKeepsLeaves` | src/tribler/ui/src/lib/utils.ts:206-226 | Fixing leaves all files as they are |
| `SelectionTree.FixedIsConsistent` | src/tribler/ui/src/lib/utils.ts:206-226 | Afterwards every directory shows all, none or some as its files are, and their total size |
| `SelectionTree.FixedPointIff` | src/tribler/ui/src/lib/utils.ts:206-226 | Nothing changes if and only if the tree was consistent |
| `SelectionTree.FixingIsIdempotent` | src/tribler/ui/src/lib/utils.ts:206-226 | A second run changes nothing, for any boxes |
| `SelectionTree.RootTellsSelection` | src/tribler/ui/src/lib/utils.ts:228-236 | The root is true if and only if the selected files are all files, false if and only if there are none |
| `SelectionTree.ClickSelects` | src/tribler/ui/src/dialogs/SaveAs.tsx:121-129 | A click selects all or none of the files below, leaves all other files alone, and leaves the tree consistent |

## Left out

- Compression, hashing, signatures and tokenizing are parameters: a compressor with an inverse law (`FrameLaws`, met by `StoredFrames.StoredObeysLaws` and `StoredFrames.DictionaryObeysLaws`), hash functions that do not collide where a lemma says so (met by `PieceHash.TreesNeverCollide`), a policy that decides about signatures, and the pieces of a search. The laws of LZ4 and SHA-256 themselves are foreign code.
- The field layout of payloads is taken from the format letters in `serialization.py`; the serializer of the IPv8 library is not part of this model.
- Text is held as UTF-8 bytes; payload texts that are no valid UTF-8 are not told apart. The limit on digits of Python's `int()` and the 64-bit range of database columns are not modelled.
- The database is a sequence of rows and maps from keys; SQL, full-text search, the tracker table and the unions of tracker sets are left out.
- Ranks, ratios and availability are over exact reals; the rounding of floats and the logarithm in the size estimate of a Bloom filter are left out, the counted zero bits stand in for the estimate.
- ChunkSender.SendDbResults: requires what `ChunkSender.TerminatesExactly` proves necessary for the loop to end, and that each chunk that is sent has a health text whose length fits the four bytes before it, since packing a longer one raises.
- UdpTracker.StepKeepsInv: the association of a proxy is awaited before a request is sent; here sending is one step, so that a cleanup during that await is left out.
- MetainfoLookup.CalmRunsKeepInv: starting and removing a download are single steps; user removal during a lookup is excluded by `Calm` here and treated in `NeverOrphanedIff` for all runs.
- MetainfoLookup.DownloadManager.BeginGetMetainfo: a start that raises TypeError is left out, since what it leaves in the list depends on where in libtorrent it was raised.
- Streaming.StreamReader.Read: piece priorities, deadlines, buffering and the pieces of a cursor are left out; whether the cursor is registered, and the bit fields seen while waiting, are inputs. `update_priorities` and `reset_priorities` are not modelled.
- Sessions, downloads, waiters and futures of the protocol modules are values in maps with numbers for names, so that theorems can quantify over all interleavings; the identity of Python objects is those numbers.
- Timeouts of the request cache, sockets, the event loop, HTTP trackers and alerts are events or inputs; their own code is left out.
- GoldenRatio.CullingStops: is about runs without arrivals, with known exits among the peers; `GoldenRatio.Strategy.TakeStep` allows exits that are no peers.
- FileTreeItems.FileTreeItem.FixTreeProps: progress and downloaded sizes are left out, since a directory of size 0 divides by zero there.
- `filesToTree`, which builds the tree from paths and mistakes a component called `result`, is left out.
- PieceHash.PieceHashIsExpectedIff: is about buffers of a whole piece; shorter ones are in `PieceHash.ShortBufferIsExpectedIff`, for buffers that hold all of the file's bytes in the piece.
- `get_v2_piece_indices_per_layer`, `aggregate_responses_for_infohash`, `title_rank`'s split into words and `process_torrents_health` of the community would only add easy members.
