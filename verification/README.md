# Chain state, archives and fork identifiers of an Ethereum node

A Dafny model of parts of an Ethereum execution node written in Rust, with proofs. `dafny verify dfyconfig.toml` checks all
of it.

Five areas are modelled:

- **Canonical in-memory chain** (`BlockStates`, `InMemoryModel`, `InMemoryState`, `Overlay`, `DiskRuns`). Blocks that are
  canonical but not on disk yet live in a hash map, a number map and a pending slot; each block holds a link to its
  in-memory parent. The maps are proved to behave as a plain sequence of blocks in every run of commit, reorg, persist,
  set-pending and clear. Reads go through a chain newest first and fall back to the disk; whatever is committed, reorged
  or moved to disk in a run, reads through a block that stays in memory are proved not to change.
- **External sort** (`Etl`). A collector buffers entries, spills sorted runs to length-prefixed files and merges them through
  a heap. One pass is proved to be a sort of everything inserted.
- **Era1 archives** (`Bytes`, `E2Store`, `BlockIndexes`, `Era1`, `Era1Writer`, `Era1Layout`, `Era1RoundTrip`, `Export`,
  `ExportRange`). The byte format with every byte in its place, the writer's state machine, the reader that reassembles
  blocks from four queues, and the exporter that cuts a range of blocks into files while predicting byte offsets and adding
  up difficulty.
- **Fork identifiers** (`ForkIds`, `ForkIdLaws`). The fork id of a head, compared with EIP-6122, how it changes as the chain
  grows, and the heads built to satisfy a given fork. A fork hash is kept as the list of values folded into it.
- **Two checks over runs** (`RateLimits`, `Ancestors`). A fixed-window rate limiter, and the ancestor-chain check of stateless
  validation.

Objects that the node updates in place are classes whose methods are proved against functions on values; the laws are proved
about those functions. Loops inside pure code are methods proved against recursive functions.

## Assumptions

- Every method of the in-memory state is one atomic step. Writers hold both locks, but two methods look at the maps before
  taking the write locks (`crates/chain-state/src/in_memory.rs:319` and `:247`); a change between the two is not modelled.
- Callers of the in-memory state keep the chain good (`InMemoryModel.Allowed`): a hash determines its block, a child is
  numbered one above its parent, a commit extends the head, and a reorg names every in-memory block above the shared
  ancestor.
- The executor's diffs are sound (`Overlay.SoundDiffs`): the bundle state is code of another library, and its account status
  is reduced to two flags, whether the account was destroyed and whether its whole storage is known. In a run this is
  promised of the chain in memory, over the disk of that moment, whenever blocks are added (`DiskRuns.Executed`).
- Compressed payloads are opaque bytes, digests are opaque values, clocks and the database are parameters. A database
  range query returns only headers of that range (`Export.InRange`).
- In a run, blocks reach the disk in the persistence call that removes them from memory. Writing them earlier, as the node
  does, is not noticed by reads through memory (`DiskRuns.WrittenEarly`). When a call keeps no block in memory, because it
  clears it, reorgs below it or finds it empty, the disk may become any disk without zeros: unwound, extended or both
  (`DiskRuns.DiskStep`).
- The node reads below memory from the state at the anchor of the chain
  (`crates/storage/provider/src/providers/blockchain_provider.rs:142-143`). The disk of a run stands for that state; that
  the history tables give it back when the disk is further on is not part of the model.
- The clock does not go back, and a sleep is over exactly when its deadline is reached.

## What does not hold

Some natural statements are false of the code. Each has a lemma that shows it and a theorem with the exact condition.

- A storage slot that a block set to zero reads as a known zero from memory and as unknown from disk
  (`Overlay.ZeroSlotForgotten`, `Overlay.PersistedStorage`). The values agree.
- A range of block hashes misses what the disk knows above the newest in-memory block as soon as memory is in range
  (`Overlay.DiskAboveMissed`, `Overlay.RangeReadIs`).
- A pass over a collector whose last buffer has no bytes does not see that buffer (`Etl.EmptyEntryUnseen`,
  `Etl.SortExternally`).
- Records of 2^32 bytes or more do not read back (`E2Store.LongRecordLost`, `E2Store.EntryRoundTrip`), and an index record
  whose count wraps around to its size aborts the reader (`BlockIndexes.WrappedCountAborts`,
  `BlockIndexes.DecoderOutcomes`).
- An export passes over chunks without headers silently (`ExportRange.SilentGap`, `ExportRange.ExportIs`); a chunk with some
  but not all of its headers, or whose last compressed header is under 32 bytes, aborts (`Export.PartialChunkAborts`,
  `Export.ChunkOutcomes`). The total difficulty wraps at 2^256 (`Export.TotalWraps`, `Export.RunningIsSum`).
- The fork id departs from EIP-6122 when a timestamp fork equals the last fork block, or is reached while fork blocks remain
  (`ForkIdLaws.CollisionForgotten`, `ForkIdLaws.EarlyTimestampWaits`, `ForkIdLaws.FollowsEip6122`). The head built for a
  timestamp fork falls short of it when a block fork is scheduled late (`ForkIdLaws.LateBlockFork`, `ForkIdLaws.TimestampSatisfied`).
- More calls than the limit can fall into one period of the rate limiter, up to twice as many (`RateLimits.RateReached`,
  `RateLimits.RateHolds`). A period keeps to the limit, however the run goes on, exactly when it does not begin inside a
  window with calls left (`RateLimits.LimitKept`, `RateLimits.EveryRunKeepsLimit`).
- A block numbered 0 passes the ancestor check with a parent numbered 2^64 - 1 (`Ancestors.WrappedParent`,
  `Ancestors.KeysBelow`).

The doc comment on the block index says offsets are relative to the index record (`crates/era/src/era1_types.rs:49-50`); the
exporter writes absolute positions, and the model follows the exporter. The doc comment on the ancestor check mentions a
limit on the number of headers; the code has none, and neither has the model.

## Model

| member | source | states |
|---|---|---|
| `BlockStates.ComputeAnchor` | crates/chain-state/src/in_memory.rs:591-597 | the walk to the oldest in-memory ancestor ends at the parent of the last state of the chain |
| `BlockStates.ComputeParentStateChain` | crates/chain-state/src/in_memory.rs:652-662 | the state followed by the returned parents is exactly its chain, newest first |
| `BlockStates.LinkedBlocks` | crates/chain-state/src/in_memory.rs:667-677 | the blocks read through from a state are the blocks up to it, newest first |
| `BlockStates.LinkedAnchor` | crates/chain-state/src/in_memory.rs:591-597 | every block of a linked chain has the same anchor: the parent hash of the oldest block and the number before its own, or 0 |
| `BlockStates.LinkedFind` | crates/chain-state/src/in_memory.rs:694-699 | searching the chain by hash or number finds the matching block with its own chain, and nothing only if no block matches |
| `InMemoryState.CanonicalInMemoryState.constructor` | crates/chain-state/src/in_memory.rs:202-204 | a new state is empty and stands for the empty chain |
| `InMemoryState.CanonicalInMemoryState.ClearState` | crates/chain-state/src/in_memory.rs:148-160 | clearing is the clear step of the model: all three structures become empty |
| `InMemoryState.CanonicalInMemoryState.SetPendingBlock` | crates/chain-state/src/in_memory.rs:245-253 | the pending block is linked to the stored entry for its parent hash, and nothing else changes |
| `InMemoryState.CanonicalInMemoryState.UpdateBlocks` | crates/chain-state/src/in_memory.rs:259-295 | removals, then insertions linked to stored parents, and no pending block afterwards |
| `InMemoryState.CanonicalInMemoryState.Append` | crates/chain-state/src/in_memory.rs:277-287 | each new block is linked to the entry stored under its parent hash at that moment |
| `InMemoryState.CanonicalInMemoryState.UpdateChain` | crates/chain-state/src/in_memory.rs:298-307 | a commit or reorg is one step of the model and leaves no pending block |
| `InMemoryState.CanonicalInMemoryState.DrainAbove` | crates/chain-state/src/in_memory.rs:335-344 | lists every block above the height once, sorted by number, ties in any order |
| `InMemoryState.CanonicalInMemoryState.RemovePersistedBlocks` | crates/chain-state/src/in_memory.rs:313-366 | one persistence step: unchanged if the hash is unknown, otherwise the surviving blocks relinked and the pending parent shifted |
| `InMemoryState.CanonicalInMemoryState.GetHeadState` | crates/chain-state/src/in_memory.rs:116-120 | the state under the largest number |
| `InMemoryState.CanonicalInMemoryState.StateProvider` | crates/chain-state/src/in_memory.rs:517-529 | reads go through the whole chain of a known hash, newest first and contiguous, and through nothing for an unknown one |
| `InMemoryModel.UpdateRefines` | crates/chain-state/src/in_memory.rs:259-295 | a commit or reorg on the linked maps does what it does on the plain sequence of blocks |
| `InMemoryModel.PersistRefines` | crates/chain-state/src/in_memory.rs:313-366 | persisting drops exactly the persisted prefix of the sequence, however the sort breaks ties, and keeps the pending block |
| `InMemoryModel.SurvivorsAreSuffix` | crates/chain-state/src/in_memory.rs:335-344 | the drained and sorted blocks are exactly the chain above the persisted height, in order |
| `InMemoryModel.StepRefines` | crates/chain-state/src/in_memory.rs:148-366 | every operation on the maps simulates the same operation on the sequence |
| `InMemoryModel.RunRefines` | crates/chain-state/src/in_memory.rs:148-366 | every memory any run reaches stands for the blocks the same calls give on plain sequences |
| `InMemoryModel.EveryRunConsistent` | crates/chain-state/src/in_memory.rs:44-64 | in every reachable state `numbers` and `blocks` agree one to one and every stored parent, also of the pending block, is the current entry for its hash |
| `InMemoryModel.PendingBlockIs` | crates/chain-state/src/in_memory.rs:245-307 | in every run there is a pending block if and only if one was set and nothing was committed, reorged or cleared since; it is the one that was set last |
| `InMemoryModel.HeadIsLast` | crates/chain-state/src/in_memory.rs:116-120 | the head state is the newest block of the chain with its whole chain |
| `InMemoryModel.CanonicalChainListsMemory` | crates/chain-state/src/in_memory.rs:535-537 | the canonical chain lists each in-memory block once, as stored, and nothing else |
| `InMemoryModel.CanonicalChainDescends` | crates/chain-state/src/in_memory.rs:535-537 | along the canonical chain numbers fall by one and parent hashes match |
| `InMemoryModel.ReorgedChain` | crates/chain-state/src/in_memory.rs:259-307 | after a reorg: the new segment newest first, then the old canonical chain cut exactly where the reorged blocks end |
| `InMemoryModel.LookupsAgree` | crates/chain-state/src/in_memory.rs:99-113 | lookup by hash, lookup by number and the walk from the head give the same answer |
| `InMemoryModel.PersistKeeps` | crates/chain-state/src/in_memory.rs:313-366 | exactly the blocks above the persisted height stay, with the same contents |
| `InMemoryModel.StepContents` | crates/chain-state/src/in_memory.rs:148-366 | after every call exactly the added blocks and those not removed are in memory, the latter unchanged: a reorg removes what it names, a clear everything, persisting what is not above the height |
| `InMemoryModel.AddedIsStored` | crates/chain-state/src/in_memory.rs:277-287 | a committed or reorged-in block is stored under its hash as it was given |
| `InMemoryModel.PersistAnchors` | crates/chain-state/src/in_memory.rs:313-366 | after persisting a block in memory, every remaining block traces back to exactly that number and hash |
| `Overlay.AccountRead` | crates/chain-state/src/memory_overlay.rs:111-119 | an account is what the newest in-memory block that changed it says, also that it is gone, and what the disk says if none did |
| `Overlay.StorageRead` | crates/chain-state/src/memory_overlay.rs:220-232 | a slot is answered by the newest block that wrote it, or with zero by the newest that knows the whole storage, else by the disk |
| `Overlay.CodeRead` | crates/chain-state/src/memory_overlay.rs:236-244 | bytecode comes from the newest block that has it, else from the disk |
| `Overlay.HashRead` | crates/chain-state/src/memory_overlay.rs:70-78 | a block hash comes from the in-memory block of that number, else from the disk |
| `Overlay.SlotWritten` | crates/storage/provider/src/providers/database/provider.rs:1962-2017 | writing a block keeps a written slot exactly if it is not zero, and any other slot exactly if its account was not destroyed |
| `Overlay.SavedAccount` | crates/chain-state/src/memory_overlay.rs:111-119 | an account read through in-memory blocks equals the read from the disk that took those blocks |
| `Overlay.SavedCode` | crates/chain-state/src/memory_overlay.rs:236-244 | the same for bytecode |
| `Overlay.SavedHash` | crates/chain-state/src/memory_overlay.rs:70-78 | the same for block hashes |
| `Overlay.SavedStorage` | crates/storage/provider/src/providers/database/provider.rs:1962-2017 | the disk after writing blocks holds the overlay read of every slot, without zeros |
| `Overlay.PersistedStorage` | crates/chain-state/src/memory_overlay.rs:220-232 | storage reads before and after persistence agree as values; as optional values exactly when the answer is not a zero of a removed block |
| `Overlay.PersistSplits` | crates/chain-state/src/in_memory.rs:313-366 | a remaining block's old chain is its new chain followed by the removed blocks |
| `Overlay.PersistInvisible` | crates/chain-state/src/memory_overlay.rs:70-244 | for every block still in memory, account, code, block-hash and storage reads are the same before and after persistence |
| `Overlay.EveryPersistInvisible` | crates/chain-state/src/in_memory.rs:313-366 | the same for every persistence call of every run |
| `Overlay.PendingSplits` | crates/chain-state/src/in_memory.rs:358-363 | the pending block's old chain is its relinked chain followed by the removed blocks, if and only if its parent stays in memory, is the newest removed block, or nothing is removed |
| `Overlay.PendingInvisible` | crates/chain-state/src/in_memory.rs:358-363 | then all reads through the pending block are the same before and after persistence |
| `Overlay.ZeroSlotForgotten` | crates/storage/provider/src/providers/database/provider.rs:2014-2016 | clearing a slot of a live account reads as a known zero before persistence and as unknown after it |
| `Overlay.MemoryHash` | crates/chain-state/src/memory_overlay.rs:70-78 | on a contiguous overlay the hash scan finds the block of that number exactly when it is in memory |
| `Overlay.CanonicalHashesRange` | crates/chain-state/src/memory_overlay.rs:80-107 | the loop over the blocks computes the range read: the hashes on disk below the earliest block in range, then those in memory, ascending |
| `Overlay.RangeReadIs` | crates/chain-state/src/memory_overlay.rs:80-107 | the range read equals the number-by-number read, if and only if not both a block in memory is in range and the disk knows numbers in range above the newest block in memory |
| `Overlay.DiskAboveMissed` | crates/chain-state/src/memory_overlay.rs:96-106 | a block on disk right above the only block in memory is left out of a range over both |
| `Overlay.ProviderNewestFirst` | crates/chain-state/src/in_memory.rs:517-529 | the overlay of every provider of a reachable state is contiguous |
| `DiskRuns.RunSound` | crates/storage/provider/src/providers/database/provider.rs:257-309 | along every run with its disk, unwound or not, the disk keeps no zeros and the blocks in memory stay executed on top of it |
| `DiskRuns.KeepsState` | crates/chain-state/src/in_memory.rs:259-307 | a commit or reorg leaves the whole chain of every block it keeps as it was |
| `DiskRuns.ReadsStay` | crates/chain-state/src/in_memory.rs:313-366 | in every run, also one whose disk is unwound when a reorg reaches below memory, every read through a block over the disk of the moment gives the same answer for as long as that block stays in memory |
| `DiskRuns.WrittenEarly` | crates/storage/provider/src/providers/database/provider.rs:257-309 | writing blocks to disk before they leave memory changes no read through them |
| `Etl.LexIs` | crates/etl/src/lib.rs:135-135 | the order of keys: one is a prefix of the other, or the first byte that differs is smaller |
| `Etl.EntryBytes` | crates/etl/src/lib.rs:238-246 | an entry in a file: length of the key and of the value, most significant byte first in eight bytes each, then key and value |
| `Etl.FileSize` | crates/etl/src/lib.rs:230-252 | a spilled file has the bytes of all its keys and values and sixteen more for each entry |
| `Etl.ParseOutcomes` | crates/etl/src/lib.rs:257-279 | a read is short if and only if the two lengths or what they announce are not all there |
| `Etl.ParseEncoded` | crates/etl/src/lib.rs:230-279 | an encoded entry parses back, with the cursor right after it |
| `Etl.NewFile` | crates/etl/src/lib.rs:230-252 | a new file holds exactly the buffered entries |
| `Etl.ReadNext` | crates/etl/src/lib.rs:257-279 | returns and consumes the first entry or reports the end; an error exactly on a short read, which leaves the count |
| `Etl.PopTop` | crates/etl/src/lib.rs:176-176 | the heap gives out the least entry: keys compared byte by byte, then values, and among equal ones the highest file number |
| `Etl.TopIsLeast` | crates/etl/src/lib.rs:203-216 | the least head of sorted runs is, by key, below everything not yet given out |
| `Etl.MergeStep` | crates/etl/src/lib.rs:203-216 | replacing the top by the next entry of its file keeps the heap the heads of all unfinished runs and takes exactly that entry out |
| `Etl.MergeNext` | crates/etl/src/lib.rs:203-216 | gives out a least remaining entry or, only when nothing remains, nothing |
| `Etl.EtlIter.constructor` | crates/etl/src/lib.rs:159-167 | the heap starts with the head of every file, and everything is still to come |
| `Etl.EtlIter.Next` | crates/etl/src/lib.rs:203-216 | each call removes one least remaining entry |
| `Etl.Collector.Clear` | crates/etl/src/lib.rs:93-100 | an empty collector |
| `Etl.Collector.Flush` | crates/etl/src/lib.rs:133-143 | the buffer becomes one more sorted file with the same entries |
| `Etl.Collector.Insert` | crates/etl/src/lib.rs:103-114 | adds the entry and spills exactly when the bytes of all buffered keys and values exceed the capacity; byte count and length stay exact |
| `Etl.Collector.Iter` | crates/etl/src/lib.rs:153-167 | the pass sees everything except a buffer none of whose keys or values has a byte |
| `Etl.Drain` | crates/etl/src/lib.rs:203-216 | a full pass gives everything that remained with keys rising byte by byte |
| `Etl.SortExternally` | crates/etl/src/lib.rs:103-216 | for every input and capacity the keys of one pass rise byte by byte; it is the inserted multiset, and as long as the length, if and only if the last buffer has a byte |
| `Etl.NonEmptySeen` | crates/etl/src/lib.rs:103-158 | when every entry has a byte the pass sees all |
| `Etl.EmptyEntryUnseen` | crates/etl/src/lib.rs:155-157 | an entry without key or value bytes is lost to the pass |
| `Bytes.LeDigit` | crates/era/src/e2s_types.rs:186-200 | byte `i` of a little-endian word is the value divided by 256 to the power `i`, modulo 256 |
| `Bytes.BeDigit` | crates/era/src/execution_types.rs:428-440 | byte `i` of a big-endian word of `n` bytes is the value divided by 256 to the power `n - 1 - i`, modulo 256 |
| `E2Store.ReadOutcomes` | crates/era/src/e2s_types.rs:72-148 | every outcome of reading a record in terms of the input bytes: too short, reserved bytes not zero, data cut off, or kind and data with the length in bytes 2 to 5 |
| `E2Store.EntryRoundTrip` | crates/era/src/e2s_types.rs:128-156 | a written record reads back, positioned after it, if and only if its data is under 2^32 bytes |
| `E2Store.LongRecordLost` | crates/era/src/e2s_types.rs:152-156 | a record of 2^32 bytes does not read back |
| `E2Store.EntryReencode` | crates/era/src/e2s_types.rs:72-148 | whatever reads as a record is the encoding of that record |
| `E2Store.EntriesRoundTrip` | crates/era/src/e2s_file.rs:40-51 | written records read back; fewer than 8 trailing bytes are ignored |
| `E2Store.EntriesReencode` | crates/era/src/e2s_file.rs:40-51 | an accepted file is the encoding of the records read from it and a short tail |
| `E2Store.E2StoreReader.ReadNextEntry` | crates/era/src/e2s_file.rs:35-37 | the record at the cursor, which moves past it |
| `E2Store.E2StoreReader.ReadVersion` | crates/era/src/e2s_file.rs:23-32 | rewinds and accepts a first record exactly if the file begins with the bytes 0x65 0x32 |
| `E2Store.E2StoreReader.ReadEntries` | crates/era/src/e2s_file.rs:40-51 | all records of the file, whatever the cursor was |
| `E2Store.E2StoreWriter.WriteVersion` | crates/era/src/e2s_file.rs:79-88 | the version is written once, first, as the bytes 65 32 00 00 00 00 00 00 |
| `E2Store.E2StoreWriter.WriteEntry` | crates/era/src/e2s_file.rs:92-99 | the output is the encoding of one version and all records in order |
| `BlockIndexes.IndexRoundTrip` | crates/era/src/e2s_types.rs:186-259 | every index survives encoding |
| `BlockIndexes.IndexReencode` | crates/era/src/e2s_types.rs:203-259 | every accepted index record is the encoding of the index read from it |
| `BlockIndexes.IndexBytes` | crates/era/src/e2s_types.rs:186-200 | where every byte of an index record is: starting number, one word per offset in two's complement, and their count, least significant byte first |
| `BlockIndexes.DecoderOutcomes` | crates/era/src/e2s_types.rs:203-259 | accepted if and only if the count is what the record has room for; aborts if and only if the count is 2^61 or more and is that modulo 2^61; refused otherwise |
| `BlockIndexes.WrappedCountAborts` | crates/era/src/e2s_types.rs:229-245 | a 16-byte record with a count of 2^63 aborts |
| `BlockIndexes.WriteIndex` | crates/era/src/e2s_types.rs:186-200 | start, offsets and count as 64-bit words in order |
| `BlockIndexes.ReadIndex` | crates/era/src/e2s_types.rs:203-259 | the loop over the offsets reads what the decoder is specified to read, with every error case |
| `Era1.AssemblesIff` | crates/era/src/era1_file.rs:129-250 | a stream assembles if and only if it has equally many records of kinds 3, 4, 5 and 6, one of kind 7 and one index, those of kinds 6 and 7 have 32 bytes, and the index has the size its count asks for |
| `Era1.PushRefuses` | crates/era/src/era1_file.rs:129-157 | a record is refused exactly when it makes the stream ill-formed |
| `Era1.StepIn` | crates/era/src/era1_file.rs:123-172 | after every record one queue is empty, and each tuple given out pairs components of the same rank |
| `Era1.Accept` | crates/era/src/era1_file.rs:129-170 | queueing one record and giving out a complete tuple keeps the queues in step, and fails only on an ill-formed stream |
| `Era1.BlockTupleIterator.NextResult` | crates/era/src/era1_file.rs:123-172 | the next tuple, the end exactly at the end of the stream, or an error only on an unreadable stream |
| `Era1.EvenQueues` | crates/era/src/era1_file.rs:205-228 | at the end the queues are equally long exactly when the stream has equally many of each component |
| `Era1.Finish` | crates/era/src/era1_file.rs:205-250 | the final checks accept exactly the streams that assemble |
| `Era1.ReadAndAssemble` | crates/era/src/era1_file.rs:197-250 | succeeds exactly on files that start with a version and assemble, so only if they begin with 0x65 0x32, and returns the group they assemble to |
| `Era1Layout.RecordLies` | crates/era/src/e2s_types.rs:128-156 | a record lies where the records before it end: two kind bytes, four length bytes, two zeros, then the data |
| `Era1Layout.FileFront` | crates/era/src/era1_file.rs:291-320 | the file of every accepted group begins 65 32 00 00 00 00 00 00, and each block follows as records of kinds 3, 4, 5 and 6 with its header, body, receipts and difficulty, at the byte that the sizes before it add up to |
| `Era1Layout.FileBack` | crates/era/src/era1_file.rs:291-320 | then come the accumulator as a record of kind 7 and the index as a record of kind 0x66 0x32, which ends the file |
| `Era1Layout.TooManyBlocks` | crates/era/src/era1_file.rs:291-300 | a group is refused if and only if it has more than 8192 blocks, and then only the eight version bytes are written |
| `Era1RoundTrip.GroupAssembles` | crates/era/src/era1_file.rs:197-250 | the records of a group without recognised kinds among its other entries assemble to that group |
| `Era1RoundTrip.AssemblyUnique` | crates/era/src/era1_file.rs:197-250 | a stream assembles to at most one group |
| `Era1RoundTrip.WriteThenRead` | crates/era/src/era1_file.rs:197-320 | writing and reading back gives the same group if and only if no other entry is of a recognised kind; the blocks lie in the bytes as laid out; over 8192 blocks is refused, leaving only the version |
| `Era1Writer.EveryCallSequence` | crates/era/src/era1_file.rs:280-400 | after any calls, refused ones included, the output is empty or version, whole tuples, optional accumulator, optional index |
| `Era1Writer.CallMatches` | crates/era/src/era1_file.rs:330-400 | one more call keeps that layout, and a refused one changes nothing |
| `Era1Writer.RefusedIff` | crates/era/src/era1_file.rs:330-400 | a block or an accumulator is refused if and only if a call for an accumulator or an index came before, an index if and only if a call for an index did, and nothing else ever |
| `Era1Writer.AcceptedAre` | crates/era/src/era1_file.rs:330-400 | what is accepted: the blocks before the first accumulator or index, the first accumulator if no index precedes it, and the first index |
| `Era1Writer.OutputParses` | crates/era/src/era1_file.rs:280-400 | the bytes parse back into exactly that layout |
| `Era1Writer.FreshFile` | crates/era/src/era1_file.rs:291-320 | a fresh writer puts out the version and exactly the group's records |
| `Era1Writer.Writer.PutVersion` | crates/era/src/era1_file.rs:280-288 | the version goes out once |
| `Era1Writer.Writer.PutBlock` | crates/era/src/era1_file.rs:330-363 | the four records of a block, or a refusal after accumulator or index |
| `Era1Writer.Writer.PutBlockIndex` | crates/era/src/era1_file.rs:366-380 | at most one index |
| `Era1Writer.Writer.PutAccumulator` | crates/era/src/era1_file.rs:383-400 | at most one accumulator, never after the index |
| `Era1Writer.Writer.PutFile` | crates/era/src/era1_file.rs:291-320 | a whole group, stopping at the first refusal |
| `Export.RunningIsSum` | crates/era-utils/src/export.rs:297-297 | the running total is the start plus all difficulties modulo 2^256, equal to the sum if and only if that is below 2^256 |
| `Export.TotalWraps` | crates/era-utils/src/export.rs:297-297 | adding one to the largest word gives zero |
| `Export.AdvanceReaches` | crates/era-utils/src/export.rs:156-195 | the loop over headers goes through exactly when every header is the expected one with body and receipts in the database, and then blocks, offsets, position and total are right |
| `Export.PutBlocks` | crates/era-utils/src/export.rs:161-209 | the writing loop does what the model of the loop says, to the writer too |
| `Export.OffsetPoints` | crates/era-utils/src/export.rs:178-192 | the records after others start at the byte where those end |
| `Export.OffsetsDoPoint` | crates/era-utils/src/export.rs:178-192 | parsing at absolute byte `offsets[i]` gives block i's four records |
| `Export.ExportChunk` | crates/era-utils/src/export.rs:136-225 | one chunk: no file without headers, an abort when the last header is missing, otherwise the bytes of one complete file |
| `Export.ChunkIs` | crates/era-utils/src/export.rs:136-225 | a chunk that goes through has no headers or all of them, and its file is good: compressed headers, the bodies and receipts of their numbers, totals, offsets, an index that begins at the first block, and accumulator |
| `Export.ChunkOutcomes` | crates/era-utils/src/export.rs:136-225 | an error if and only if something could not be read; an abort if and only if some but not all headers are there or the last is under 32 bytes; otherwise it goes through |
| `Export.PartialChunkAborts` | crates/era-utils/src/export.rs:171-213 | exporting blocks 0 and 1 from a database that has only block 0 aborts, while exporting block 0 alone goes through |
| `ExportRange.ExportBlocks` | crates/era-utils/src/export.rs:81-236 | the whole export: validation, range, starting total, chunk loop, and the bytes of every file |
| `ExportRange.ExportIs` | crates/era-utils/src/export.rs:115-236 | the files are good, in order, disjoint and within the range, with the total carried over; they cover the range without a gap if and only if no chunk was empty |
| `ExportRange.ExportedBlocks` | crates/era-utils/src/export.rs:156-195 | in every file of every successful export, block `i` has the compressed header `i`, and the body and receipts that the database has under that number; the index begins at the number of the first block |
| `ExportRange.BlockAtOffset` | crates/era-utils/src/export.rs:178-209 | the four records of every exported block lie at the byte recorded for it in the index |
| `ExportRange.FileEnds` | crates/era-utils/src/export.rs:210-225 | accumulator and index follow the last block and end the file |
| `ExportRange.ConfigRefused` | crates/era-utils/src/export.rs:59-77 | a configuration is refused if and only if it asks for 0 or more than 8192 blocks per file |
| `ExportRange.SilentGap` | crates/era-utils/src/export.rs:210-225 | chunks without headers are passed over without an error |
| `ExportRange.TotalAt` | crates/era-utils/src/export.rs:115-195 | the total of every block adds up all headers exported before it, in whatever file they are |
| `ExportRange.ExportedTotals` | crates/era-utils/src/export.rs:115-195 | over a database whose totals add up, and without an empty chunk, every exported block carries the database's own total difficulty |
| `ExportRange.RangeEnds` | crates/era-utils/src/export.rs:240-271 | the last block is the configured one, or, beyond the reported head, exactly the number of the last header that the database gives from the head on, or the head if it gives none |
| `ExportRange.FileReads` | crates/era/src/era1_file.rs:197-250 | a good file reads back as exactly its group |
| `ExportRange.ExportReads` | crates/era-utils/src/export.rs:81-236 | every file of a successful export reads back as exactly the exported group |
| `ExportRange.ExportThenRead` | crates/era-utils/src/export.rs:81-236 | exporting a range and reading every output gives the groups of the files, in order |
| `ForkIds.ComputeForkId` | crates/chainspec/src/spec.rs:492-545 | both loops with their early returns compute the fold of the block keys and then of the timestamp keys |
| `ForkIds.ForkIdIs` | crates/chainspec/src/spec.rs:492-545 | on a sorted schedule: passed blocks ascending without repeats, then, if none is ahead, passed timestamps, except one equal to the last block |
| `ForkIds.BlocksAre` | crates/chainspec/src/spec.rs:503-521 | the block keys are exactly the numbers of block forks and the known blocks of the merge |
| `ForkIds.TimesAre` | crates/chainspec/src/spec.rs:526-544 | the timestamp keys are exactly the timestamps of forks after genesis |
| `ForkIdLaws.FollowsEip6122` | crates/chainspec/src/spec.rs:492-545 | the fork id is the one of EIP-6122 if and only if no timestamp fork is reached, or all block forks are passed and the first timestamp is not the last fork block |
| `ForkIdLaws.CollisionForgotten` | crates/chainspec/src/spec.rs:531-535 | a timestamp fork equal to the last fork block is left out of the hash |
| `ForkIdLaws.EarlyTimestampWaits` | crates/chainspec/src/spec.rs:514-519 | a timestamp fork reached while a fork block remains is left out of the hash |
| `ForkIdLaws.BlockForkAhead` | crates/chainspec/src/spec.rs:503-521 | while fork blocks remain, the fork id changes exactly when the announced block is reached |
| `ForkIdLaws.AtBlockFork` | crates/chainspec/src/spec.rs:503-521 | at the announced block the hash grows by exactly that block, if and only if more fork blocks remain or no folded timestamp is already reached |
| `ForkIdLaws.TimeForkAhead` | crates/chainspec/src/spec.rs:526-544 | after the last fork block, the fork id changes exactly when the announced timestamp is reached, and never once nothing is announced |
| `ForkIdLaws.AtTimeFork` | crates/chainspec/src/spec.rs:526-544 | at the announced timestamp the hash grows by exactly it, or not at all if it equals the last fork block |
| `ForkIdLaws.NothingAhead` | crates/chainspec/src/spec.rs:544-544 | nothing is announced if and only if every fork is passed |
| `ForkIdLaws.AnnouncesNext` | crates/chainspec/src/spec.rs:503-544 | announced is the least fork block not passed; if all are, the least fork timestamp not passed; else 0 |
| `ForkIdLaws.ScanLastBlockFork` | crates/chainspec/src/spec.rs:580-606 | the peeking loop computes the recursive scan |
| `ForkIdLaws.ScanStops` | crates/chainspec/src/spec.rs:580-606 | the scan finds the first fork that is a merge with a block, or a merge or timestamp fork right after a block fork, and takes the block of the merge, else of that block fork |
| `ForkIdLaws.ScanFindsNothing` | crates/chainspec/src/spec.rs:580-606 | and nothing if there is no such fork |
| `ForkIdLaws.SatisfyActivates` | crates/chainspec/src/spec.rs:548-567 | the head built for a fork reaches what the fork asks for and no more, including the total difficulty of the merge |
| `ForkIdLaws.HardforkNext` | crates/chainspec/src/spec.rs:443-449 | the fork id of a fork announces the least fork that the head built for it has not passed |
| `ForkIdLaws.BlockSatisfied` | crates/chainspec/src/spec.rs:548-567 | the head built for a fork with a block has folded exactly the forks up to it |
| `ForkIdLaws.TimestampSatisfied` | crates/chainspec/src/spec.rs:548-567 | the head built for a timestamp fork has folded exactly the forks up to it, if and only if the scanned block passes all block forks and no reached timestamp equals the last of them |
| `ForkIdLaws.ShapedSatisfied` | crates/chainspec/src/spec.rs:443-449 | on block forks, then the merge, then timestamps, every fork with a block or timestamp is satisfied |
| `ForkIdLaws.LateBlockFork` | crates/chainspec/src/spec.rs:580-606 | a block fork scheduled behind a timestamp fork makes the built head fall short |
| `ForkIdLaws.LatestAnnouncesNothing` | crates/chainspec/src/spec.rs:468-470 | the latest fork id announces nothing if and only if the head built for the last fork passes all forks |
| `ForkIdLaws.ShapedLatest` | crates/chainspec/src/spec.rs:468-470 | on block forks, then at most one merge, then timestamps, the latest fork id announces nothing, if and only if the schedule does not end with a merge without a block or all block forks are at genesis |
| `RateLimits.RateLimit.constructor` | crates/tokio-util/src/ratelimit.rs:23-28 | a new limiter is ready with an already ended window |
| `RateLimits.RateLimit.PollReady` | crates/tokio-util/src/ratelimit.rs:36-52 | answers ready exactly if the limiter is ready afterwards, and not ready exactly if it was limited and its sleep is not over; a new window opens once the sleep is over |
| `RateLimits.RateLimit.Tick` | crates/tokio-util/src/ratelimit.rs:64-86 | an ended window is replaced first; the last call of a window limits until its end |
| `RateLimits.StepAccounted` | crates/tokio-util/src/ratelimit.rs:36-86 | from any state on, every step keeps the account: calls made and still allowed fit into what was left at the start and the windows opened since, a period apart |
| `RateLimits.MostHolds` | crates/tokio-util/src/ratelimit.rs:36-86 | however a run goes on from a given state, the next `k` periods have at most the calls left in the current window and one burst for every window that can open |
| `RateLimits.MostReached` | crates/tokio-util/src/ratelimit.rs:36-86 | and a run that spends every window at once makes exactly that many |
| `RateLimits.LimitKept` | crates/tokio-util/src/ratelimit.rs:36-86 | `k` periods from a given moment on keep to `k * max(limit, 1)` calls in every continuation, if and only if `k` is 0 or the moment is not inside a window with calls left |
| `RateLimits.RunPossible` | crates/tokio-util/src/ratelimit.rs:23-86 | every state of every run has at most one burst left, in a window that ends within a period |
| `RateLimits.EveryRunKeepsLimit` | crates/tokio-util/src/ratelimit.rs:23-86 | the same if-and-only-if at every moment of every run from a new limiter |
| `RateLimits.RateHolds` | crates/tokio-util/src/ratelimit.rs:23-86 | in every run with a monotone clock, every interval of `k` periods has at most `(k + 1) * max(limit, 1)` calls; `k * max(limit, 1)` if a period is one clock unit, none if `k` is 0 |
| `RateLimits.RateReached` | crates/tokio-util/src/ratelimit.rs:23-86 | for every rate with a positive period and every `k`, some run makes exactly that many |
| `RateLimits.NoPanic` | crates/tokio-util/src/ratelimit.rs:36-86 | a caller who ticks only after a poll that answered ready, with no tick in between, never runs into the panic, in any run |
| `RateLimits.NotReadyMeans` | crates/tokio-util/src/ratelimit.rs:36-86 | in every run a poll answers not ready only when all calls of a window have been made and that window has not ended |
| `Ancestors.SortByNumber` | crates/stateless/src/validation.rs:176-176 | sorted by number, same headers |
| `Ancestors.ComputeAncestorHashes` | crates/stateless/src/validation.rs:269-295 | the loop from the newest header down computes the recursive walk |
| `Ancestors.CheckAncestors` | crates/stateless/src/validation.rs:164-187 | decoding, sorting, chain check and missing parent, in that order of errors |
| `Ancestors.WalkIs` | crates/stateless/src/validation.rs:269-295 | the walk succeeds exactly on chains that link to the block, and collects exactly their numbers and hashes |
| `Ancestors.AnyOrder` | crates/stateless/src/validation.rs:164-187 | the result does not depend on the order of the witness headers |
| `Ancestors.AcceptedIs` | crates/stateless/src/validation.rs:164-187 | accepted exactly when everything decodes into a nonempty chain below the block; parent and hashes are those of the chain |
| `Ancestors.Rejections` | crates/stateless/src/validation.rs:164-187 | which error a refused witness gives: undecodable headers first, then a broken chain; a missing ancestor exactly for an empty witness |
| `Ancestors.KeysBelow` | crates/stateless/src/validation.rs:269-295 | the collected numbers are exactly the k below the block, if and only if the block is not numbered 0 |
| `Ancestors.WrappedParent` | crates/stateless/src/validation.rs:286-286 | a block numbered 0 is accepted with the largest number as its parent |
| `Ancestors.AcceptedUnique` | crates/stateless/src/validation.rs:164-187 | when hashes identify headers, two accepted witnesses of the same size hold the same chain and give the same result |

## Left out

- Trie roots, proofs and witnesses of the overlay, sparse tries and state-root computation: foreign code and hashing.
- Metrics, watch and broadcast channels, safe and finalized headers, notifications: plumbing around the modelled state.
- Transaction lookups on the in-memory chain: thin wrappers around the block lookups that are modelled.
- The keccak, RLP, snappy and CRC32 functions: values they produce are opaque here.
- DiskRuns.ReadsStay: reads fall back to the disk of the moment and not to the history tables, which are not modelled.
- Disk tables other than plain accounts, plain storage, bytecode and canonical hashes: not read by the modelled reads.
- I/O errors of temporary files and a second pass over the same collector: iteration consumes the files.
- The heap as an array: the merge uses a set whose least element is taken out, which is what the heap promises its users.
- File names of exported archives, and the file with only a version that an empty chunk leaves behind: not part of the
  result.
- The meaning of the accumulator: the exporter fills it from the bytes of a compressed header, so no claim about a hash tree
  root is made.
- Importing archives back into the database: it decodes another encoding of the body than the exporter writes.
- Fork filters and the validation of remote fork ids: code of another library.
- ForkIdLaws.BlockSatisfied: does not cover a merge fork without a known block, because the built head is then numbered 0.
- Proof-of-authority consensus and peer registries of the repository: they accept everything or hold one-line state.
