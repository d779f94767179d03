# A verified model of parts of fuel-core

This project models five parts of the fuel-core node in Dafny 4.11 and proves what they are for.

**Block compression.** Registered values of a block (addresses, asset ids, contract ids, scripts,
predicates) are replaced by 24-bit registry keys. `RegistryKeys` and `EvictionPolicy` hold the keys and
the evictor that hands them out in cyclic order. `TemporalRegistry` holds the five keyspaces with values,
timestamps and reverse index, and the store that writes them. `CompressionSpec` describes the two passes
over a block, `Compressor` runs them, `Chain` proves the round trip over whole chains, `ChainEviction` that
keys are evicted in turn, and `IndexLoss` has a chain on which the reverse index forgets a value.

**Coin selection.** `Coins` has the worth of bags of coins and the exchange argument, `CoinsQuery` the
greedy and the random selection, `CoinsIndex` the selection over the index of coins to spend.

**Databases with linked heights.** `HistoricalStore` is the key-value store that records how to undo each
commit. `Database` adds the height rules and the cached height, and proves that every run of operations
follows a journal of its commits. `ByteKeys`, `HistoricalView` and `KeyConfusion` are about views of the past,
which seek in the byte order of the keys. `CombinedDatabase` rolls several databases back together.

**Gas price V0.** `GasPriceV0` has the saturating price updates and the worst-case bound.

**Smaller parts.** `Pagination` is cursor pagination, `ChaosFaults` the fault scheduler of the chaos test.

Code that updates state is modelled by classes and methods; each method is tied to a function of the old
state, and the lemmas are about those functions. `Wrappers` and `Integers` hold shared types. `dafny verify dfyconfig.toml` checks the project.

## What turned out not to hold

Where a property one might expect fails, the model follows the code and a lemma gives the exact condition.

- The reverse index can lose a value that is still registered, because a write drops the overwritten value
  from the index even if the index points to another key by then (`WriteKeepsCompleteIff`). For every retention
  there is a chain on which this happens to a value that is still accessible (`ChainLosesLiveValue`).
- The reverse index depends on the order in which a block's registrations are written, although values and
  timestamps do not (`WritesCommuteIff`, `WriteOrderShows`, `DrainOrderDoesNotShow`). Compressor and decompressor still agree,
  because both write the listed order (`Replication`).
- The cursor of the evictor is stored as the latest assigned key also by a block that assigns none; such a
  block skips one key (`LatestIsAssignedIff`, `EmptyBlockSkipsAKey`).
- With a limit of zero coins the indexed selection returns an empty success where largest first reports an
  error (`IndexedAgreesIff`, `ZeroLimitDisagrees`). With partial results on, the two also differ about coins
  that are all worthless and more than the limit (`PartialIndexedAgreesIff`, `WorthlessCoinsDisagree`).
- `rollback_to` has a test that treats a gas price or compression database below the target as rolled back,
  but refuses such a database whenever anything is left to undo (`Ledgers.CanRollBack`, `RollbackTo`,
  `BehindIsRefused`).
- At height `u32::MAX` the gas price updater accepts blocks without counting them, and the worst case
  prediction can be exceeded (`WorstCaseHoldsIff`, `WorstCaseIsExceeded`).
- When a mid-operation drop is reverted, the fault scheduler removes the recovery of another fault
  (`RevertKeepsQueueIff`, `RestartIsLost`).
- The cached height is not always that of the metadata: after the only commit, at a height above 0, has been
  undone, the cache keeps the height before it until the database is reopened or gets that commit again
  (`CacheDiffersIff`, `CacheIsStale`).
- Under `RewindRange` the views are exactly those of the documented range (`BoundedViewRangeIff`), but the last
  `size` commits cannot always be undone: the height that is pruned saturates at zero, so the record of height 0
  is gone once height 1 is committed, and a rollback does not bring back records that a higher height has pruned
  (`LastCommitsUndoableIff`, `HeightZeroIsPruned`).
- A view compares only the beginning of the height key it finds. So a row is mixed up with another row of its
  table whose key continues its own, unless by eight zero bytes, or is shorter by up to seven bytes; and a read
  panics at a much shorter key that may come later in byte order. Views of a row are right exactly when no
  modified key of the table is of one of these kinds (`ViewsAreRightIff`, `PrefixIsMixedUp`, `ShortKeyPanics`);
  keys of one length are safe (`SameLengthIsSafe`).
- A view at height `u64::MAX` shows the contents before that commit (`ViewShowsThePast`, `LastViewIsBehind`).

## Assumptions

- `RegistryKey` belongs to another crate: 24 bits, `DEFAULT_VALUE` is the largest key, and `next` is the
  cyclic successor over the other keys.
- The index key of a script or predicate is its hash; it is modelled as the value itself, that is, without
  collisions.
- Storage reads and writes do not fail by themselves.
- Random choices (shuffles, dust counts, faults) are arbitrary, and a shutdown signal may come at any poll, but does not go away again.
- A database has a single writer, and table changes do not touch its metadata row.

## Model

| member | source | states |
|---|---|---|
| `EvictionPolicy.CacheEvictor.NewFromDb` | crates/compression/src/eviction_policy.rs:21-40 | the cursor starts behind the last persisted key, or at zero |
| `EvictionPolicy.CacheEvictor.NextKey` | crates/compression/src/eviction_policy.rs:42-54 | terminates if a key is free and returns the first free key in cyclic order, which is kept from then on |
| `EvictionPolicy.CacheEvictor.Commit` | crates/compression/src/eviction_policy.rs:56-62 | the cursor itself is persisted |
| `EvictionPolicy.FirstFreeIsFree` | crates/compression/src/eviction_policy.rs:42-54 | the key found is not kept, and all keys passed over are |
| `EvictionPolicy.ScanStops` | crates/compression/src/eviction_policy.rs:46-50 | the scan reaches a free key exactly when not all keys are kept |
| `EvictionPolicy.CallsAreFresh` | crates/compression/src/eviction_policy.rs:42-54 | all calls within a block return distinct keys that were not kept, and exactly these are kept in addition from then on |
| `EvictionPolicy.CallsAdvance` | crates/compression/src/eviction_policy.rs:42-54 | the calls of a block assign keys at strictly increasing cursor positions |
| `EvictionPolicy.RoundRobin` | crates/compression/src/eviction_policy.rs:19-63 | over any run of blocks, two assignments of one key are at least a full round of the cursor apart |
| `TemporalRegistry.RegistryStore.ReadRegistry` | crates/services/compression/src/temporal_registry.rs:145-155 | the value of a key, or an error |
| `TemporalRegistry.RegistryStore.ReadTimestamp` | crates/services/compression/src/temporal_registry.rs:157-171 | the timestamp of a key, or an error |
| `TemporalRegistry.RegistryStore.IndexLookup` | crates/services/compression/src/temporal_registry.rs:206-217 | the key indexed for a value, if any |
| `TemporalRegistry.RegistryStore.WriteRegistry` | crates/services/compression/src/temporal_registry.rs:173-204 | value and timestamp are stored, the overwritten value leaves the index, the new one enters it; other keyspaces stay |
| `TemporalRegistry.RegistryStore.WriteTable` | crates/compression/src/registry.rs:86-88 | the registrations of one table are written in order |
| `TemporalRegistry.RegistryStore.WriteToRegistry` | crates/compression/src/registry.rs:81-92 | the registrations of all five tables are written |
| `TemporalRegistry.RegistryStore.SetLatestAssignedKey` | crates/services/compression/src/temporal_registry.rs:296-304 | sets the cursor of one keyspace only |
| `TemporalRegistry.WrittenAllKeepsSound` | crates/services/compression/src/temporal_registry.rs:173-204 | after any batch of writes an index entry still leads to a stamped key that holds the value |
| `TemporalRegistry.WriteKeepsCompleteIff` | crates/services/compression/src/temporal_registry.rs:184-196 | all registered values stay indexed exactly when the overwritten value has no other key |
| `TemporalRegistry.LiveEntryCanLeaveTheIndex` | crates/services/compression/src/temporal_registry.rs:184-196 | a value registered twice is not indexed any more once its first key is reused |
| `TemporalRegistry.WrittenAllIsUpdate` | crates/compression/src/registry.rs:81-92 | a batch with distinct keys amounts to one update of values and timestamps |
| `TemporalRegistry.DrainOrderDoesNotShow` | crates/compression/src/compress.rs:187-191 | values and timestamps do not depend on the order in which changes are drained |
| `TemporalRegistry.WriteOrderShows` | crates/services/compression/src/temporal_registry.rs:173-204 | two writes after which a value is indexed in one order and not in the other |
| `TemporalRegistry.WritesCommuteIff` | crates/services/compression/src/temporal_registry.rs:173-204 | two writes commute, index included, exactly when neither stores what the other overwrites |
| `CompressionSpec.PrepareKeepsAccessibleKeys` | crates/compression/src/compress.rs:201-218 | the first pass keeps exactly the keys of the block's accessible values and fails exactly when a timestamp is missing or in the future |
| `CompressionSpec.CompressValueStep` | crates/compression/src/compress.rs:225-249 | each value gets a new key or its kept old one; changes and lookup stay inverse, and no change is overwritten |
| `CompressionSpec.RoomForNewValue` | crates/compression/src/eviction_policy.rs:42-54 | when a key is assigned, fewer keys are kept than the block has values in that keyspace, so the scan stops; its assertion of two free keys holds if the block has fewer than `DEFAULT_VALUE` values |
| `CompressionSpec.CompressItemsResolve` | crates/compression/src/compress.rs:90-93 | the second pass cannot fail after the first, and every compressed item stands for its original |
| `CompressionSpec.PassesSucceed` | crates/compression/src/config.rs:21-32 | over a sound registry without future timestamps no pass fails |
| `CompressionSpec.PassesSucceedIff` | crates/compression/src/compress.rs:74-108 | compression succeeds exactly when every indexed value of the block has a timestamp that is not in the future |
| `CompressionSpec.ReuseIff` | crates/compression/src/config.rs:21-32 | an indexed value stamped at s is compressed to its old key and not registered exactly when the block's time minus s is within the retention; otherwise it is registered under the key it is compressed to |
| `CompressionSpec.NewValueIsRegisteredOnce` | crates/compression/src/compress.rs:243-248 | so is a value that is not indexed, and it is registered once however often the block holds it |
| `CompressionSpec.RegisteredOnce` | crates/compression/src/compress.rs:243-248 | no block registers a key twice or a value twice, which is what the two debug assertions there say |
| `CompressionSpec.DefaultIsNotRegistered` | crates/compression/src/compress.rs:229-231 | the values compressed to the default key are exactly the default ones, and none of them is registered |
| `CompressionSpec.ReusedKeysSurvive` | crates/compression/src/compress.rs:201-249 | an accessible value is compressed to its old key, and no registration of the block overwrites that key |
| `Chain.DecompressItemIff` | crates/compression/src/decompress.rs:172-184 | a key decompresses, to its value, exactly when it is the default key or holds a value and was stamped no longer than the retention ago |
| `Chain.DecompressBlockIff` | crates/compression/src/decompress.rs:74-98 | a block decompresses exactly when all its keys do after its registrations |
| `Chain.BlockRoundTrip` | crates/compression/src/decompress.rs:74-98 | decompressing a compressed block over the same registry gives the block back |
| `Chain.Replication` | crates/compression/src/ports.rs:16-19 | after every block of a chain the compressor's registry, index included, is what the decompressor rebuilds from the compressed blocks, and it is sound |
| `Chain.ChainRoundTrip` | crates/compression/src/compress.rs:71-108 | every chain with non-decreasing times decompresses to itself, through any eviction, expiry and re-registration |
| `Chain.NextBlockCompresses` | crates/compression/src/compress.rs:74-108 | however a chain has been compressed so far, the next valid block passes |
| `Chain.ChainCompresses` | crates/compression/src/compress.rs:74-108 | every such chain can be compressed from an empty registry |
| `Chain.RoundTripsIff` | crates/compression/src/decompress.rs:172-184 | all chains round-trip exactly when the decompressor retains entries at least as long as the compressor |
| `ChainEviction.BlockIsSession` | crates/compression/src/compress.rs:225-249 | a block uses the evictor of a keyspace as one series of calls that assigns exactly the keys it registers, never more than there are |
| `ChainEviction.ChainPasses` | crates/compression/src/eviction_policy.rs:21-62 | the cursor goes through the blocks of a chain without a gap; each block registers keys at its positions and passes only kept, registered or skipped keys; the persisted cursor is where it stands |
| `ChainEviction.FullRound` | crates/compression/src/eviction_policy.rs:42-54 | between the positions of one key in two blocks the cursor makes a full round |
| `ChainEviction.EveryKeyIsVisited` | crates/compression/src/eviction_policy.rs:42-54 | by the time a key is registered again, every key has been kept, registered or skipped by one of the blocks from the first registration to the second |
| `ChainEviction.LatestIsAssignedIff` | crates/compression/src/eviction_policy.rs:56-62 | the persisted cursor was assigned by the block exactly when the block registers a value in the keyspace; otherwise it moves on by one key |
| `ChainEviction.EmptyBlockSkipsAKey` | crates/compression/src/eviction_policy.rs:56-62 | an empty first block persists key zero without registering it |
| `IndexLoss.LiveValueIsLost` | crates/services/compression/src/temporal_registry.rs:184-196 | a chain after which, however it is compressed, a registered and accessible value is not in the index |
| `IndexLoss.ChainLosesLiveValue` | crates/services/compression/src/temporal_registry.rs:184-196 | for every retention some valid chain from an empty registry ends like that |
| `Compressor.PrepareCtx.Prepare` | crates/compression/src/compress.rs:201-218 | one step of the first pass |
| `Compressor.PrepareCtx.PrepareAll` | crates/compression/src/compress.rs:84-90 | the first pass, up to its first error |
| `Compressor.CompressCtxKeyspace.Register` | crates/compression/src/compress.rs:243-248 | the new key was not used before in this block |
| `Compressor.CompressCtxKeyspace.Compress` | crates/compression/src/compress.rs:225-249 | changes of this block first, then the accessible index entry, then a new key |
| `Compressor.CompressCtx.constructor` | crates/compression/src/compress.rs:164-177 | five separate keyspaces that keep the accessed keys |
| `Compressor.CompressCtx.CompressOne` | crates/compression/src/compress.rs:225-249 | default values become the default key; only one keyspace changes |
| `Compressor.CompressCtx.CompressAll` | crates/compression/src/compress.rs:92-93 | the second pass never meets an error |
| `Compressor.CompressCtx.Finalize` | crates/compression/src/compress.rs:183-193 | cursors are persisted and the drained changes are written |
| `Compressor.Drain` | crates/compression/src/compress.rs:187-189 | lists every change once, in an arbitrary order |
| `Compressor.Compress` | crates/compression/src/compress.rs:74-108 | the whole compression; an error leaves the store as it was |
| `Compressor.Decompress` | crates/compression/src/decompress.rs:74-96 | writes the registrations, then resolves the items |
| `Compressor.DecompressOne` | crates/compression/src/decompress.rs:172-184 | default key, unreadable, inaccessible and missing keys, or the value |
| `Coins.TopCoinsAreWorthMost` | crates/fuel-core/src/coins_query.rs:153-182 | no bag of at most n coins is worth more than the n largest |
| `Coins.NeverSaturates` | crates/fuel-core/src/coins_query.rs:180 | with at most `u16::MAX` coins the saturating sum is the sum |
| `CoinsQuery.LargestFirst` | crates/fuel-core/src/coins_query.rs:145-197 | the greedy selection over the sorted inputs, with its errors and partial results |
| `CoinsQuery.TakeLargest` | crates/fuel-core/src/coins_query.rs:156-196 | the loop of the greedy selection |
| `CoinsQuery.LargestFirstIsOptimal` | crates/fuel-core/src/coins_query.rs:142-197 | succeeds exactly when some selection within the limit covers the target, no covering selection is smaller, and which error is reported with which amount |
| `CoinsQuery.PartialResultIsBest` | crates/fuel-core/src/coins_query.rs:165-194 | with partial results on: when it fails, and that a result below the target is worth as much as any selection within the limit |
| `CoinsQuery.PartialInsteadOfError` | crates/fuel-core/src/coins_query.rs:165-194 | allowing partial results changes nothing but errors, and what is given instead |
| `CoinsQuery.RandomImproveAsset` | crates/fuel-core/src/coins_query.rs:207-252 | the random selection of one asset and its fallback |
| `CoinsQuery.RandomnessDoesNotDecide` | crates/fuel-core/src/coins_query.rs:200-256 | for every shuffle an asset is served exactly when a selection within the limit covers its target, with partial results unless the coins within the limit are all worthless, with the error of largest first; if the first coins of the shuffle cover the target, it takes a further coin exactly as long as that brings the change closer to the target and the sum is below `u64::MAX`; otherwise it is largest first |
| `CoinsQuery.ImprovementIsBounded` | crates/fuel-core/src/coins_query.rs:230-239 | with an improvement coin the selection stays below three times the target |
| `CoinsQuery.UpperLimitIsRedundant` | crates/fuel-core/src/coins_query.rs:223-228 | a coin above the upper limit would not improve the change anyway |
| `CoinsQuery.RandomImprove` | crates/fuel-core/src/coins_query.rs:200-256 | a query is served exactly when all its assets are; otherwise the error is that of the first asset that fails |
| `CoinsIndex.SelectCoinsUntil` | crates/fuel-core/src/coins_query.rs:383-408 | takes non-excluded coins up to the limit or the stop, and says whether more remain |
| `CoinsIndex.MaxDustCount` | crates/fuel-core/src/coins_query.rs:417-425 | any number up to five per big coin within the limit |
| `CoinsIndex.SkipBigCoinsUpToAmount` | crates/fuel-core/src/coins_query.rs:427-442 | leaves out leading coins that the amount pays for; `SkippedWorth` says which |
| `CoinsIndex.SkippedWorth` | crates/fuel-core/src/coins_query.rs:427-442 | what is left out is the longest prefix whose worth is within the amount |
| `CoinsIndex.BigCoinsAre` | crates/fuel-core/src/coins_query.rs:359-369 | the shortest prefix worth twice the target, or as many coins as the limit and the coins allow |
| `CoinsIndex.DustIs` | crates/fuel-core/src/coins_query.rs:371-381 | dust is taken from the front until the count, the end or the last big coin |
| `CoinsIndex.DustBoundIs` | crates/fuel-core/src/coins_query.rs:417-425 | up to five per big coin and within the limit |
| `CoinsIndex.SelectCoinsToSpend` | crates/fuel-core/src/coins_query.rs:258-357 | the selection for some dust count within the bound; the internal-error arms are not reached |
| `CoinsIndex.IndexedAgreesIff` | crates/fuel-core/src/coins_query.rs:293-322 | agrees with largest first on success, error and collected amount, exactly when the limit is positive or the target zero |
| `CoinsIndex.PartialIndexedAgreesIff` | crates/fuel-core/src/coins_query.rs:293-322 | the same with partial results on: exactly when the target is zero, or the coins are worth something or within a positive limit, or the limit is zero and there are coins |
| `CoinsIndex.ZeroLimitDisagrees` | crates/fuel-core/src/coins_query.rs:293-295 | a coin, target 1 and limit 0: an empty success against an error |
| `CoinsIndex.WorthlessCoinsDisagree` | crates/fuel-core/src/coins_query.rs:305-322 | two worthless coins, target 1 and limit 1: an error against a partial result |
| `CoinsIndex.SelectionConserves` | crates/fuel-core/src/coins_query.rs:343-356 | for every dust count: the dust, and the big coins after the longest prefix that the dust pays for, within the limit, at most five dust coins per big one, nothing excluded, worth at least the big coins first selected |
| `CoinsIndex.SelectionHasNoDuplicates` | crates/fuel-core/src/coins_query.rs:371-381 | with dust read from the other end of the index no coin is selected twice |
| `HistoricalStore.AppliedIs` | crates/fuel-core/src/state/historical_rocksdb.rs:577-600 | inserted rows have their new value, removed rows are gone, all others stay |
| `HistoricalStore.ReversedIs` | crates/fuel-core/src/state/historical_rocksdb.rs:138-174 | the reverse changes mention exactly the rows that differ |
| `HistoricalStore.ReverseUndoes` | crates/fuel-core/src/state/historical_rocksdb.rs:138-174 | the recorded reverse changes restore the rows |
| `HistoricalStore.RollbackInvertsCommit` | crates/fuel-core/src/state/historical_rocksdb.rs:343-370 | with an unbounded history a rollback restores rows, records and row versions exactly |
| `HistoricalStore.CommittedMatches` | crates/fuel-core/src/state/historical_rocksdb.rs:217-288 | the versions by row agree with the records by height after every commit |
| `Database.UpdatedMetadata` | crates/fuel-core/src/database.rs:615-644 | the metadata gets the new height and the current version, and keeps its kind and indexation |
| `Database.AcceptedIff` | crates/fuel-core/src/database.rs:508-590 | which commits are accepted, and the errors of the others |
| `Database.CommitMakesChanges` | crates/fuel-core/src/database.rs:592-613 | an accepted commit makes exactly its changes, and sets the metadata height |
| `Database.CommitAfterRun` | crates/fuel-core/src/database.rs:508-613 | the same after any run: contents, cached height and the untouched contents at earlier heights |
| `Database.CommitKeepsInv` | crates/fuel-core/src/database.rs:508-613 | an accepted commit extends a contiguous past by one height; cache, metadata and undo records follow |
| `Database.RollbackRestores` | crates/fuel-core/src/database.rs:339-358 | a rollback succeeds exactly when the last commit has a record, and restores the past before it |
| `Database.CommitThenRollback` | crates/fuel-core/src/database.rs:339-358 | restores the contents and the cached height, or leaves the predecessor of a first height |
| `Database.RunFollowsJournal` | crates/fuel-core/src/database.rs:508-613 | every run of commits, rollbacks and reopenings of a new database has the contents, metadata, cached height and undo records that the journal of its operations tells |
| `Database.CacheDiffersIff` | crates/fuel-core/src/database.rs:339-358 | exactly when cached height and metadata differ, in terms of the operations of the run |
| `Database.CacheIsStale` | crates/fuel-core/src/database.rs:339-358 | a commit at 5 and its rollback leave the cached height at 4 and no metadata height |
| `Database.RangeOfRecords` | crates/fuel-core/src/state/historical_rocksdb.rs:427-463 | which undo records a bounded history holds after any run |
| `Database.RecordsOfRun` | crates/fuel-core/src/state/historical_rocksdb.rs:225-227 | with the other policies: all records of the past, or none |
| `Database.LastCommitsUndoableIff` | crates/fuel-core/src/state/historical_rocksdb.rs:444-460 | exactly when the last `size` commits can be undone |
| `Database.HeightZeroIsPruned` | crates/fuel-core/src/state/historical_rocksdb.rs:445-457 | after commits at 0 and 1 the record of 0 is gone, with room for ten |
| `Database.RollbackDepth` | crates/fuel-core/src/state/historical_rocksdb.rs:343-370 | after any run of a database, n rollbacks undo n commits or as many as there are records, and no more |
| `ByteKeys.HeightKeyOrder` | crates/fuel-core/src/state/historical_rocksdb.rs:638-644 | the height keys of one key are ordered by height |
| `ByteKeys.HeightKeyInjective` | crates/fuel-core/src/state/historical_rocksdb.rs:638-644 | a height key determines key and height |
| `HistoricalView.ViewRangeIff` | crates/fuel-core/src/state/historical_rocksdb.rs:183-215 | there is a view exactly from just before the oldest record to the last commit, if there are records |
| `HistoricalView.BoundedViewRangeIff` | crates/fuel-core/src/state/historical_rocksdb.rs:85-87 | with a bounded history: exactly the documented range, counted from the highest height there has been |
| `HistoricalView.ViewShowsThePast` | crates/fuel-core/src/state/historical_rocksdb/view_at_height.rs:51-84 | a view shows a row without confusable keys as it was after the commit at its height, at `u64::MAX` as before that commit |
| `HistoricalView.ViewAfterRun` | crates/fuel-core/src/state/historical_rocksdb/view_at_height.rs:51-84 | the same after any run, against the journal of the run |
| `HistoricalView.LastViewIsBehind` | crates/fuel-core/src/state/historical_rocksdb.rs:191-192 | a row inserted at height `u64::MAX` is missing from the view at that height |
| `HistoricalView.SeekForward` | crates/fuel-core/src/state/historical_rocksdb/view_at_height.rs:61-67 | the first row version of a table from a byte string on |
| `HistoricalView.Get` | crates/fuel-core/src/state/historical_rocksdb/view_at_height.rs:51-84 | the nearest version by byte order with the prefix comparison, or the current row |
| `KeyConfusion.ViewsAreRightIff` | crates/fuel-core/src/state/historical_rocksdb/view_at_height.rs:69-81 | all views of a row are right exactly when no modified key of its table continues its key other than by eight zero bytes, or begins it within seven bytes, or is much shorter and not before it |
| `KeyConfusion.PrefixFreeIsSafe` | crates/fuel-core/src/state/historical_rocksdb/view_at_height.rs:73 | keys that are not prefixes of each other and differ by at most eight bytes in length are safe |
| `KeyConfusion.SameLengthIsSafe` | crates/fuel-core/src/state/historical_rocksdb/view_at_height.rs:73 | so are keys of one length |
| `KeyConfusion.PrefixIsMixedUp` | crates/fuel-core/src/state/historical_rocksdb/view_at_height.rs:73 | a modification of key 1, 255 is taken for one of key 1 |
| `KeyConfusion.ShortKeyPanics` | crates/fuel-core/src/state/historical_rocksdb/view_at_height.rs:73 | a later key that is much shorter makes a read panic |
| `Database.LinkedDatabase.constructor` | crates/fuel-core/src/database.rs:213-230 | opening takes the cached height from the metadata |
| `Database.LinkedDatabase.LatestHeightFromMetadata` | crates/fuel-core/src/database/metadata.rs:72-80 | the height of the last commit, or none |
| `Database.LinkedDatabase.CommitChanges` | crates/fuel-core/src/database.rs:508-613 | the height rules in numbers; an accepted commit makes its changes row by row, a rejected one changes nothing |
| `Database.LinkedDatabase.RollbackLastBlock` | crates/fuel-core/src/database.rs:339-358 | undoes exactly the last commit, or changes nothing |
| `CombinedDatabase.RollbackIfAbove` | crates/fuel-core/src/combined_database.rs:555-587 | one rollback if the height is above the target, failing exactly when the record is missing |
| `CombinedDatabase.TruncatedIs` | crates/fuel-core/src/combined_database.rs:460-597 | a truncated past ends with the last commit at or below the target and agrees with the original up to there |
| `CombinedDatabase.RoundKeepsOutcome` | crates/fuel-core/src/combined_database.rs:469-588 | a round changes neither whether the rollback goes through nor its result |
| `CombinedDatabase.UndoableIff` | crates/fuel-core/src/combined_database.rs:460-597 | the commits above a target have their records exactly when the oldest record is not above the first of them |
| `CombinedDatabase.BoundedUndoableIff` | crates/fuel-core/src/combined_database.rs:460-597 | with a bounded history: exactly when the first commit to undo is less than `size` below the highest height there has been |
| `CombinedDatabase.CanRollBackIff` | crates/fuel-core/src/combined_database.rs:470-553 | the condition of a rollback, in heights and records of the five databases |
| `CombinedDatabase.Combined.RollbackRound` | crates/fuel-core/src/combined_database.rs:555-587 | one database after the other loses a commit above the target, up to the first that cannot |
| `CombinedDatabase.Combined.Round` | crates/fuel-core/src/combined_database.rs:470-587 | done, refused or progress, with the databases after each |
| `CombinedDatabase.Combined.ReadHeights` | crates/fuel-core/src/combined_database.rs:470-553 | what a round decides from the heights is right about the whole rollback |
| `CombinedDatabase.Combined.RollbackRounds` | crates/fuel-core/src/combined_database.rs:469-588 | terminates; cancelled exactly when a poll has met the signal, otherwise done or refused |
| `CombinedDatabase.Combined.RollbackTo` | crates/fuel-core/src/combined_database.rs:461-597 | terminates; cancelled exactly when a poll meets the signal, and a rollback that can go through polls once per round and twice more; otherwise it goes through exactly under a condition on the heights and records at the start, and then every database holds its commits at or below the target; no outcome takes away such a commit; a missing height or a database that is behind is reported at once, naming the first such database, and leaves all databases untouched; a cancelled rollback can be resumed with the same outcome |
| `CombinedDatabase.BehindIsRefused` | crates/fuel-core/src/combined_database.rs:479-553 | of databases with commits from height 0 on, gas price or compression below the target: rolling back is refused because of it while on-chain and off-chain are above the target, and done once they are at it; block aggregation may be below |
| `CombinedDatabase.Combined.SyncRound` | crates/fuel-core/src/combined_database.rs:660-682 | off-chain and gas price lose a commit above the on-chain height |
| `CombinedDatabase.Combined.SyncAuxDbHeights` | crates/fuel-core/src/combined_database.rs:648-684 | terminates; unless a poll meets the signal it undoes exactly the off-chain and gas price commits above the on-chain height, and fails exactly when a record is missing; with a signal it reports success and can be resumed |
| `CombinedDatabase.RollbackRelayerTo` | crates/fuel-core/src/combined_database.rs:600-640 | the same for the relayer database alone; it refuses with "less than target" exactly when that database is behind |
| `GasPriceV0.ExactStep` | crates/fuel-gas-price-algorithm/src/v0.rs:106-130 | the new price in numbers: lowered by the percentage if the block is less full than the threshold, raised otherwise, saturating and not below the minimum |
| `GasPriceV0.TenPercent` | crates/fuel-gas-price-algorithm/src/v0.rs:106-130 | from 100, an empty block leads to 90 and a full one to 110 |
| `GasPriceV0.StepBounds` | crates/fuel-gas-price-algorithm/src/v0.rs:106-130 | one block changes the price by at most the percentage, up or down |
| `GasPriceV0.RunKeeps` | crates/fuel-gas-price-algorithm/src/v0.rs:87-104 | a run keeps the minimum and counts the blocks below the largest height |
| `GasPriceV0.CompoundBounds` | crates/fuel-gas-price-algorithm/src/v0.rs:70-138 | after k blocks the price is within k compounded percentage steps, up or down |
| `GasPriceV0.WorstCaseIs` | crates/fuel-gas-price-algorithm/src/utils.rs:662-696 | the prediction is the compounded price rounded up, unless capped |
| `GasPriceV0.WorstCaseHolds` | crates/fuel-gas-price-algorithm/src/utils.rs:662-696 | the price never exceeds the exact worst case predicted for its height |
| `GasPriceV0.WorstCaseHoldsIff` | crates/fuel-gas-price-algorithm/src/v0.rs:93-102 | for the next block: exactly when the height is not at its maximum or the block does not raise the price |
| `GasPriceV0.WorstCaseIsExceeded` | crates/fuel-gas-price-algorithm/src/v0.rs:93-102 | a full block at height `u32::MAX` takes the price from 100 to 110 against a prediction of 100 |
| `GasPriceV0.AlgorithmUpdaterV0.constructor` | crates/fuel-gas-price-algorithm/src/v0.rs:70-85 | the price starts at or above the minimum |
| `GasPriceV0.AlgorithmUpdaterV0.UpdateL2BlockData` | crates/fuel-gas-price-algorithm/src/v0.rs:87-104 | a skipped block is refused and changes nothing |
| `GasPriceV0.AlgorithmUpdaterV0.UpdateExecGasPrice` | crates/fuel-gas-price-algorithm/src/v0.rs:106-124 | the saturating price update |
| `Pagination.SkipStart` | crates/fuel-core/src/schema.rs:168-186 | leading entries with the start key are skipped and announce a previous page |
| `Pagination.TakePage` | crates/fuel-core/src/schema.rs:188-205 | at most the page size, up to the end key; the flag says whether entries remain |
| `Pagination.PageFrom` | crates/fuel-core/src/schema.rs:167-218 | one page of a stream |
| `Pagination.QueryPagination` | crates/fuel-core/src/schema.rs:99-222 | which arguments are served, the page they get, and which error the others get |
| `Pagination.PageAfterCursor` | crates/fuel-core/src/schema.rs:147-221 | the page after any cursor, in the table or not, starts with the first entry past it; both flags are exact |
| `Pagination.PagesTile` | crates/fuel-core/src/schema.rs:147-221 | following the last cursors yields every entry once and in order, in both directions; flags are exact and all pages but the last are full |
| `Pagination.PagesEnd` | crates/fuel-core/src/schema.rs:147-221 | following the cursors ends |
| `ChaosFaults.Quorum` | bin/chaos-test/src/cluster.rs:227 | the smallest majority of the Redis servers |
| `ChaosFaults.QuorumIsMajority` | bin/chaos-test/src/cluster.rs:213-231 | a node has a quorum exactly when it is alive and talks to more than half of the servers, live ones behind normal or slow proxies |
| `ChaosFaults.CutOffReachesNone` | bin/chaos-test/src/cluster.rs:213-223 | a node whose proxies all drop reaches no server |
| `ChaosFaults.AppliedReaches` | bin/chaos-test/src/fault.rs:363-420 | what each action does to every connection, server and node |
| `ChaosFaults.UndoneReaches` | bin/chaos-test/src/fault.rs:422-457 | what undoing it does |
| `ChaosFaults.QuorumGrows` | bin/chaos-test/src/cluster.rs:213-231 | a better connected cluster keeps its quorum |
| `ChaosFaults.UndoRestores` | bin/chaos-test/src/fault.rs:363-457 | undoing an action leaves the cluster at least as connected as before it |
| `ChaosFaults.RecoveryMakesUp` | bin/chaos-test/src/fault.rs:310-361 | which faults have a recovery; it leaves the cluster at least as connected as before and touches nothing else, except after a partition of all nodes |
| `ChaosFaults.InjectedIs` | bin/chaos-test/src/fault.rs:310-361 | a fault that leaves a quorum is kept and its recovery queued; any other is undone |
| `ChaosFaults.RecoveredIs` | bin/chaos-test/src/fault.rs:175-189 | exactly the due recoveries at the head of the queue are applied, in order |
| `ChaosFaults.InjectionIsSafe` | bin/chaos-test/src/fault.rs:310-361 | injecting any fault, with its revert, keeps a quorum |
| `ChaosFaults.RecoveryIsSafe` | bin/chaos-test/src/fault.rs:175-189 | scheduled recoveries keep a quorum |
| `ChaosFaults.RevertKeepsQueueIff` | bin/chaos-test/src/fault.rs:352-360 | a revert leaves the earlier recoveries alone exactly when it is not a mid-operation drop, or none are queued |
| `ChaosFaults.RestartIsLost` | bin/chaos-test/src/fault.rs:352-360 | a reverted drop removes the queued restart of a node |
| `ChaosFaults.InitiallySafe` | bin/chaos-test/src/cluster.rs:225-231 | a fresh cluster has a quorum exactly when it has a node and a Redis server |
| `ChaosFaults.QuorumAlways` | bin/chaos-test/src/fault.rs:134-173 | in every run some live node reaches a majority of the Redis servers at every step |
| `ChaosFaults.FaultScheduler.ReachableRedisCount` | bin/chaos-test/src/cluster.rs:213-223 | counts live servers behind healthy proxies |
| `ChaosFaults.FaultScheduler.AnyNodeHasRedisQuorum` | bin/chaos-test/src/cluster.rs:225-231 | whether some live node reaches a majority |
| `ChaosFaults.FaultScheduler.ApplyAction` | bin/chaos-test/src/fault.rs:363-420 | the effect of each action on the cluster |
| `ChaosFaults.FaultScheduler.UndoAction` | bin/chaos-test/src/fault.rs:422-457 | the best-effort inverse of each action |
| `ChaosFaults.FaultScheduler.ApplyFault` | bin/chaos-test/src/fault.rs:310-361 | queues, applies and possibly reverts a fault; the quorum stays |
| `ChaosFaults.FaultScheduler.ProcessRecoveries` | bin/chaos-test/src/fault.rs:175-189 | applies the due recoveries at the head of the queue; the quorum stays |
| `ChaosFaults.FaultScheduler.PickFault` | bin/chaos-test/src/fault.rs:191-308 | picks actions that fit the cluster; a kill leaves a quorum of Redis servers or a node alive |

## Left out

- Transaction structure: a block is the sequence of its registered fields; other fields, UTXO pointers, coin and message lookups and the patch of the mint transaction are not modelled.
- Encoding of compressed blocks and Merkle roots of the registry; `Chain.Replication` gives equal tables, from which the roots are computed.
- The assertion of `next_key` that two keys are free: `CacheEvictor.NextKey` asks for one free key, which is what its loop needs.
- Blocks with more distinct values in a keyspace than there are keys: the evictor's loop would not stop, so `Compressor.Compress` asks for blocks that fit.
- Undo records in the old format, the split of rows into columns, and database backups.
- Concurrent commits through cloned databases.
- Storage errors in coin and page streams, and the retrieval of coins from their ids.
- Which coins `largest_first` prefers among equal amounts matters only to the selection itself; the sort is stable in the model as in the source.
- The floating-point evaluation of the worst case price; it is stated in exact arithmetic.
- Timing and order of recoveries in the chaos test, and its proxies, invariants and time line.
