# STRAKS: a verified model

A Dafny model of the parts of the STRAKS node (a Bitcoin Core derivative) whose correctness is hard to see from the code,
with proofs for all inputs, all runs or all reachable states. `dafny verify dfyconfig.toml` checks the project.

Code that changes state step by step is modelled by classes and methods with loops, each proved against a function on
values; the promises of the code are then proved about those functions.

- Coins: a stack of `CCoinsViewCache` layers refines one flat map (`CoinsView`, `CoinsRuns`, `CoinsViewCache`), and the
  stored form of `CCoins` (`CoinsRecord`, `CoinsCodec`, `ScriptCompressor`, `AmountCodec`, `VarInt`).
- The address manager `CAddrMan`: invariant over all runs (`AddrManModel`, `AddrManMoves`, `AddrManSpec`, `AddrManAdd`,
  `AddrManList`, `AddrMan`), its own checker (`AddrManCheck`), its stored form (`AddrManStore`, `AddrManSaved`,
  `AddrManSerialize`, `AddrManTwice`, `AddrManShared`).
- The script check queue as a state machine over all interleavings (`CheckQueue`).
- Block assembly (`Mempool`, `PackageTotals`, `BlockModel`, `Refusals`, `BlockAssembler`).
- Partial Merkle trees (`MerkleModel`, `MerkleProofs`, `MerkleBlock`).
- 256-bit arithmetic and compact targets (`Limbs`, `LimbShifts`, `ArithUint256`, `CompactModel`, `Compact`).
- The block tree: skip pointers, chain and locators (`SkipHeight`, `SkipBound`, `Chain`).
- Compact block reconstruction, BIP 152 (`CompactBlock`, `IndexCodec`).
- The rolling Bloom filter (`RollingBloom`), Base58 (`Digits`, `Base58`), the cuckoo cache (`CuckooModel`, `CuckooCache`).

Hashes, clocks, random draws, scores and the elliptic curve are parameters. Where a result needs it, a hash is injective
(Merkle nodes, short ids) and the curve gives a full key back from its compressed form.

## Findings

Properties that a reader of the code or its comments would expect and that do not hold as stated, each with its input
and the exact condition under which it does hold.

- Flag bits of a partial Merkle tree are documented as at most 2N-1 for N hashes (src/merkleblock.h:49). Any odd number of
  at least three transactions with the last one matched needs more (`DocumentedBitBoundFails`). The bound holds iff no
  single right-edge child lies above a match, and 2N-1 plus the height always suffices (`TreeSize`). The documented size
  of 10 + ceil(32.25*N) bytes rests on that bound and on length prefixes of 1 to 3 bytes. A block of 1012 transactions, all
  matched, takes 32648 bytes against 32647 (`SizeOf1012`), and so do larger ones (`DocumentedSizeFails`); `SizeGuarantee` is the exact condition.
- A stored coin record does not always come back. A script of 10001 bytes is read as OP_RETURN (`OverlongIsLost`). Version
  and height are written as signed numbers, and version -1 is read as 127 (`NegativeIsLost`). A record comes back iff neither
  is negative and no script is over-long (`RestoredIff`). `ClearUnspendable` establishes the part about scripts
  (`ClearedLasts`). Versions are not constrained by consensus, and src/validation.cpp:1878-1882 works around the loss by
  trusting the version of the block over the stored one.
- `x *= x` on 256-bit numbers gives zero, because the product is built in place of the cleared operand
  (`MultiplyAssign`); with any other object as operand it is the product.
- The differential index list of a block transactions request can be read as a list that is not increasing, because the
  16-bit offset wraps: 65535, 5 (`WrappedOffset`). It is increasing iff all differences but the last add up to at most
  65535 (`ReadIsIncreasing`).
- `Flush` into another cache forgets the best block of a cache that holds none of its own, for instance an untouched cache
  over one whose hash was set (`FlushForgets`). It is kept iff the base is a database, the cache holds a hash, the base holds
  none, or the base's is that of what lies below it (`FlushBestBlock`); asking for it first is enough (`AskedThenFlushed`).
- `CAddrMan::Clear` leaves `mapInfo` and `mapAddr` filled, so a manager with one entry is inconsistent afterwards
  (`ClearBreaks`); it is consistent iff both were empty (`ClearedIsConsistent`).
- A stored form of the address manager that names an address twice can load into an inconsistent manager, for instance one
  that names it in both lists (`InBothLists`). It loads into a consistent one iff, before the last pass, entries that share an
  address are all new ones without a slot (`ConsistentIff`). On the stored form itself: tried entries that are the first with
  their slot must share their address with nobody, and so must new ones when the stored slots are unusable
  (`ConsistentWithoutRows`); when they are usable it is enough that entries named in a row do not (`ConsistentWithRows`).
- Package totals drift when fees have been modified. An entry of `mapModifiedTx` loses the modified fee of the ancestor that
  inserts it (src/miner.cpp:436) and the unmodified fee of every later one (src/miner.h:133). With a delta of -1000 on the second of two
  parents, a child that pays 200 for 200 bytes stands at -800 (`FeeDrifts`), and selection ends there although the child
  pays the minimum and was never refused (`PaidChildEndsSelection`). The total is exact iff the deltas of the included ancestors
  other than the inserting one add up to zero (`FeeExactIff`); without deltas an early end is right (`UnpaidIsRight`).
- `Good_` at time 0 and `Attempt_` at time -1 break the time part of `Check_` (`ClockAtZero`). `Good_` keeps it iff the clock
  is past zero or the service is unknown (`GoodTimes`), `Attempt_` iff the clock is not negative or the service is unknown
  (`AttemptTimes`).
- A fresh cuckoo cache is found to contain the default element. An element is found iff an ever-kept slot holds it, or it is
  the default element and one of its positions was never kept (`FoundMeans`).
- The comment at src/cuckoocache.h:396 says the first exchange uses the first position; the code uses the second, and the
  model follows the code.

## Model

| member | source | states |
|---|---|---|
| `CoinsRuns.CachesAreTransparent` | src/coins.cpp:72-259 | every permitted run of reads, modifications, uncaching, flushes, new and dropped layers and best-block calls, on any number of caches over any database, throws nothing, keeps the FRESH and DIRTY flags truthful and shows exactly the coins of one flat map given the same edits |
| `CoinsRuns.StepRefines` | src/coins.cpp:72-259 | one operation on a stack of any depth changes each layer as the flat reference changes, and is defined whenever the caller keeps to one modifier at a time and to BIP 30 |
| `CoinsRuns.RunRefines` | src/coins.cpp:72-259 | the same for whole runs, layer by layer |
| `CoinsRuns.FlushAgrees` | src/coins.cpp:188-250 | after a flush the layer below shows what the flushed one showed |
| `CoinsView.FetchKeeps` | src/coins.cpp:72-97 | pulling an answer up through the layers changes no reader's answer and no flag's meaning |
| `CoinsView.OpenModifyKeeps` | src/coins.cpp:99-118 | opening a modifier is invisible to readers and leaves flags that are true of the layer below |
| `CoinsView.WriteEntryKeeps` | src/coins.cpp:188-243 | one written entry: the reader of the parent sees the child's coins, and the parent's flags stay true of what lies below |
| `CoinsView.FlushKeeps` | src/coins.cpp:188-250 | writing a well-flagged child into its base reaches neither `logic_error`; child and base then show the child's old view; nothing below the base changes |
| `CoinsView.FlushBestBlock` | src/coins.cpp:178-186 | the best block survives a flush iff the base is a database, the cache holds a hash of its own, the base holds none, or what lies below the base has the same one |
| `CoinsView.FlushForgets` | src/coins.cpp:178-250 | an untouched cache over one whose best block was set loses it |
| `CoinsRuns.NewCoinsNeedsBip30` | src/coins.cpp:134-153 | `ModifyNewCoins` throws or leaves a truthful FRESH flag iff the transaction is a coinbase, its id has no live coins, or this very cache has an entry for it |
| `CoinsView.FetchBestKeeps` | src/coins.cpp:178-182 | asking for the best block, which stores the answer in every layer asked, changes neither the answer nor any coin nor any flag |
| `CoinsView.AskedThenFlushed` | src/coins.cpp:178-250 | a cache that was asked for its best block first never loses it in a flush |
| `CoinsViewCache.CoinsDb.BatchWrite` | src/txdb.cpp:49-75 | dirty entries are written in any order with one result: live ones stored, pruned ones erased, the rest untouched |
| `CoinsViewCache.CoinsCache.OverDb` | src/coins.cpp:61 | a new cache over a database shows the database |
| `CoinsViewCache.CoinsCache.Over` | src/coins.cpp:61 | a new cache over a cache shows that cache |
| `CoinsViewCache.CoinsCache.GetCoins` | src/coins.cpp:72-97 | the recursive fetch through all layers below answers like the stack as a value and leaves exactly the pulled-up entries |
| `CoinsViewCache.CoinsCache.GetBestBlock` | src/coins.cpp:178-182 | returns the first hash set on the way down and stores it in every layer passed |
| `CoinsViewCache.CoinsCache.ModifyCoins` | src/coins.cpp:99-118 | leaves the entry its modifier writes to, DIRTY, and FRESH iff the base has nothing live |
| `CoinsViewCache.CoinsCache.ModifyNewCoins` | src/coins.cpp:134-153 | throws exactly on a live entry, dirty or not, for a transaction that is no coinbase, and otherwise opens the emptied entry |
| `CoinsViewCache.CoinsCache.WriteOne` | src/coins.cpp:191-236 | merges one child entry, all nine flag combinations, and throws exactly where the source does |
| `CoinsViewCache.CoinsCache.WriteAll` | src/coins.cpp:190-241 | the merging loop, entries in any order: throws iff some entry would, and otherwise gives one merged map |
| `CoinsViewCache.CoinsCache.BatchWrite` | src/coins.cpp:188-243 | the loop and the best block together |
| `CoinsViewCache.CoinsCache.Flush` | src/coins.cpp:245-250 | empties this cache into its base, whichever kind that is |
| `CoinsViewCache.CoinsCache.Uncache` | src/coins.cpp:252-259 | forgets an entry only if it is clean |
| `CoinsViewCache.CoinsModifier.Edit` | src/coins.cpp:317-321 | a write through the modifier reaches exactly its entry |
| `CoinsViewCache.CoinsModifier.Close` | src/coins.cpp:322-334 | cleans up the record, erases it if it is fresh and pruned, and frees the cache for the next modifier |
| `CoinsRecord.Cleaned` | src/coins.h:115-121 | dropping spent outputs at the end keeps exactly the available outputs |
| `CoinsRecord.Cleanup` | src/coins.h:115-121 | the pop-back loop computes that record |
| `CoinsRecord.Spend` | src/coins.cpp:35-43 | exactly one output stops being available, and only if it was |
| `CoinsCodec.ReadCoinsWritten` | src/coins.h:158-219 | for every clean record that is not pruned, reading the written bytes from anywhere in a stream stops right behind them and gives the record, except that over-long scripts come back shortened and a negative version or height comes back as its low seven bits |
| `CoinsCodec.RestoredIff` | src/coins.h:158-219 | the record itself comes back iff version and height are not negative, every spent output is empty and every other script has at most 10000 bytes |
| `CoinsCodec.NegativeIsLost` | src/coins.h:162-214 | the record of a transaction with version -1 comes back with version 127 |
| `CoinsCodec.OverlongIsLost` | src/compressor.h:82-86 | the record with one script of 10001 zero bytes does not come back |
| `CoinsCodec.ClearedLasts` | src/coins.h:123-129 | every output left by `ClearUnspendable` comes back as it was |
| `CoinsCodec.CalcMaskSize` | src/coins.cpp:17-33 | the mask ends at its last non-zero byte, and the non-zero bytes are counted |
| `CoinsCodec.HeaderCodeOk` | src/coins.h:159-166 | the assertion in `Serialize` holds for every record that is not pruned |
| `CoinsCodec.HeaderDecodes` | src/coins.h:166-199 | the header code gives back the coinbase flag, the first two availabilities and the number of non-zero mask bytes |
| `CoinsCodec.ReadsMask` | src/coins.h:199-210 | the number of non-zero bytes alone tells the reader where the mask ends |
| `CoinsCodec.MaskCovers` | src/coins.cpp:17-33 | every output of a clean record lies under the first two flags and the mask |
| `CoinsCodec.Serialize` | src/coins.h:158-184 | the writing loops produce the stored form, for negative versions too |
| `CoinsCodec.MaskByteOf` | src/coins.h:171-178 | one mask byte, bit by bit |
| `CoinsCodec.WriteMask` | src/coins.h:171-178 | the mask loop |
| `CoinsCodec.WriteOuts` | src/coins.h:179-183 | the output loop skips spent outputs |
| `CoinsCodec.UnserializeMask` | src/coins.h:200-210 | the mask loop reads until enough non-zero bytes were seen, and fails where the stream ends |
| `CoinsCodec.UnserializeOuts` | src/coins.h:211-216 | the output loop, with spent outputs filled in |
| `CoinsCodec.Unserialize` | src/coins.h:187-219 | the whole reader on any bytes |
| `ScriptCompressor.ReadScriptWritten` | src/compressor.h:59-88 | a script in any of the six short forms or in the plain form is read back, shortened to OP_RETURN iff over-long, and the reader stops right behind it |
| `ScriptCompressor.ExpandPayload` | src/compressor.cpp:12-131 | decompressing what was kept of a pay-to-key-hash, pay-to-script-hash or pay-to-key script rebuilds the script |
| `ScriptCompressor.Compress` | src/compressor.cpp:48-77 | recognises exactly the scripts with a short form and fills its buffer with kind and payload |
| `ScriptCompressor.Decompress` | src/compressor.cpp:88-131 | fills the script buffer for each kind; an impossible key leaves an empty script |
| `ScriptCompressor.SerializeScript` | src/compressor.h:59-70 | short form if there is one, otherwise size plus six and the bytes |
| `ScriptCompressor.UnserializeScript` | src/compressor.h:72-88 | the reader on any bytes, with the over-long branch |
| `ScriptCompressor.ClearUnspendable` | src/coins.h:123-129 | nulls exactly the outputs whose script starts with OP_RETURN or is over-long, then cleans up |
| `AmountCodec.DecompressCompressed` | src/compressor.cpp:142-185 | decompression inverts compression for every amount |
| `AmountCodec.CompressDecompressed` | src/compressor.cpp:142-185 | compression inverts decompression for every number: the code is a bijection on naturals |
| `AmountCodec.CompressedBound` | src/compressor.cpp:142-159 | compression at most multiplies by ten, so amounts up to MAX_MONEY stay within 64 bits |
| `AmountCodec.CompressAmount` | src/compressor.cpp:142-159 | the loop on 64-bit numbers computes the code modulo 2^64, which is the code up to MAX_MONEY |
| `AmountCodec.CutIsLost` | src/compressor.cpp:142-185 | a 64-bit amount comes back from its code cut to 64 bits iff nothing was cut |
| `AmountCodec.DecompressAmount` | src/compressor.cpp:161-185 | the loop computes the inverse |
| `VarInt.ReadWritten` | src/serialize.h:272-347 | reading a written number gives it back and stops right behind it |
| `VarInt.ShortEnough` | src/serialize.h:318-334 | a number of k bits never needs more bytes than the buffer has |
| `VarInt.ReadIntWritten` | src/serialize.h:318-347 | a signed number comes back iff it is not negative, and otherwise as its low seven bits |
| `VarInt.Write` | src/serialize.h:318-334 | the backwards-filling loop stays inside its buffer and writes base 128; a negative number takes one byte |
| `VarInt.Read` | src/serialize.h:335-347 | the reading loop on any bytes |
| `AddrMan.RunAll` | src/addrman.cpp:81-313 | every run of the public operations from an empty manager keeps the whole invariant, equals a description of the run without ids, counts or random order, and keeps the recorded times valid when the clock is past zero |
| `AddrManCheck.CheckedRun` | src/addrman.cpp:385-459 | `Check_` returns 0 after every such run |
| `AddrManCheck.Check_` | src/addrman.cpp:385-459 | returns 0 exactly when the entries, both tables, the counters and the key pass |
| `AddrManCheck.ConsistentIsChecked` | src/addrman.cpp:385-459 | a manager satisfying the invariant passes all of it |
| `AddrManCheck.CheckedIsConsistent` | src/addrman.cpp:385-459 | a manager that passes satisfies the invariant, if its ids are in range and no address leads nowhere, which `Check_` does not look at |
| `AddrManCheck.EveryPosition` | src/addrman.cpp:390-412 | equal numbers and every entry at its own position make the random order a permutation of the entries |
| `AddrManCheck.CheckEntry` | src/addrman.cpp:393-418 | codes -1 to -6, -8 and -14 |
| `AddrManCheck.CheckEntries` | src/addrman.cpp:393-418 | the entry loop, in any order, collects the tried set and the new counts |
| `AddrManCheck.CheckTried` | src/addrman.cpp:424-436 | codes -11, -17 and -18: passes iff every occupied tried slot is its occupant's own |
| `AddrManCheck.CheckNew` | src/addrman.cpp:438-449 | codes -12 and -19: passes iff every occupied new slot fits its occupant and no entry has more slots than its count; nothing is left iff the counts are exact |
| `AddrMan.AddrMan.constructor` | src/addrman.h:451-477 | an empty manager satisfies the invariant |
| `AddrMan.AddrMan.Create` | src/addrman.cpp:81-91 | indexes a new entry everywhere |
| `AddrMan.AddrMan.SwapRandom` | src/addrman.cpp:93-111 | swaps two places of the random order and both back-references |
| `AddrMan.AddrMan.Delete` | src/addrman.cpp:113-125 | removes an entry without slots from every index |
| `AddrMan.AddrMan.ClearNew` | src/addrman.cpp:127-140 | empties a slot and forgets an entry that held only that one |
| `AddrMan.AddrMan.MakeTried` | src/addrman.cpp:142-188 | leaves all new slots, sends the occupant of the tried slot back to its new slot and takes it; both assertions hold |
| `AddrMan.AddrMan.FindBucket` | src/addrman.cpp:219-234 | the search from a random bucket always finds one: the exit with no bucket found is unreachable |
| `AddrMan.AddrMan.Good_` | src/addrman.cpp:190-240 | keeps the invariant and does what its id-free description says |
| `AddrMan.AddrMan.Add_` | src/addrman.cpp:242-313 | keeps the invariant, tells whether the address is new, and does what its id-free description says, for both clock readings and every random draw |
| `AddrMan.AddrMan.Attempt_` | src/addrman.cpp:315-335 | keeps the invariant; changes only the times and attempts of exactly that service |
| `AddrMan.AddrMan.Connected_` | src/addrman.cpp:483-501 | keeps the invariant; refreshes the time only after the update interval |
| `AddrMan.AddrMan.SetServices_` | src/addrman.cpp:503-519 | keeps the invariant; changes only the service bits of exactly that service |
| `AddrMan.AddrMan.GetAddr_` | src/addrman.cpp:462-481 | the partial shuffle keeps the invariant and returns distinct known addresses, none terrible at every reading of the clock, as many as allowed or all that are terrible at none |
| `AddrManMoves.MakeTriedKeeps` | src/addrman.cpp:142-188 | moving an entry to the tried table keeps everything consistent, whichever entries it displaces on the way |
| `AddrManMoves.DisplaceKeeps` | src/addrman.cpp:158-180 | the occupant of a tried slot goes back to its new slot and what it clears there leaves nothing dangling |
| `AddrManModel.ClearKeeps` | src/addrman.cpp:127-140 | clearing a slot keeps the invariant and forgets an address iff it was its last slot |
| `AddrManModel.DeleteKeeps` | src/addrman.cpp:113-125 | deletion keeps the random order, the address index and the counters exact |
| `AddrManAdd.PlaceKeeps` | src/addrman.cpp:290-311 | taking, overwriting or giving up the slot the source selects keeps the invariant in all cases |
| `AddrManAdd.HeardKeeps` | src/addrman.cpp:251-283 | hearing of a known address updates time and services and decides about a further slot as the description says |
| `AddrManList.SizeIsExact` | src/addrman.cpp:390-391 | the random order has one place per entry (code -7) |
| `AddrManList.PickedComplete` | src/addrman.cpp:462-481 | a full pass over the random order lists every address that is terrible at no reading of the clock |
| `AddrManList.GoodTimes` | src/addrman.cpp:190-211 | `Good_` keeps the time part of `Check_` iff its clock is past zero or the service is unknown |
| `AddrManList.AttemptTimes` | src/addrman.cpp:315-335 | `Attempt_` keeps it iff its clock is not negative or the service is unknown |
| `AddrManList.AddTimes` | src/addrman.cpp:242-313 | `Add_` always keeps it |
| `AddrManList.ClockAtZero` | src/addrman.cpp:190-335 | a known service marked good at time 0, or attempted at time -1, breaks it |
| `AddrManSerialize.Reload` | src/addrman.h:296-449 | written and read into a new manager: the same addresses in the same new and tried slots, hence the same reference counts, and the same counters; only the times of the last attempts are gone |
| `AddrManSaved.RoundTrip` | src/addrman.h:296-449 | for every consistent manager the stored form is accepted and loads into a consistent one with nothing lost to collisions |
| `AddrManStore.LoadedIsConsistent` | src/addrman.h:346-449 | any stored form that names each address once, whatever its counts, collisions, bucket count and indexes, loads into a consistent manager described without ids |
| `AddrManTwice.ConsistentIff` | src/addrman.h:346-449 | any stored form at all loads into a consistent manager iff entries sharing an address are all new ones left without a slot before the last pass |
| `AddrManShared.ConsistentWithoutRows` | src/addrman.h:375-449 | on the stored form, when its slots are unusable: consistent iff no tried entry that is the first with its slot shares its address with a new one or another such one, and no new entry that is the first with its slot shares its address with another |
| `AddrManShared.ConsistentWithRows` | src/addrman.h:375-449 | when they are usable, the part about tried entries is needed, and it suffices together with no entry named in a row sharing its address |
| `AddrManTwice.InBothLists` | src/addrman.h:375-449 | an address in both lists, with the stored slots unusable, loads into an inconsistent manager |
| `AddrManTwice.PruneLike` | src/addrman.h:433-443 | the last pass deletes the same entries, and erases every address one of them had, whoever else has it |
| `AddrManStore.PruneAll` | src/addrman.h:433-443 | the last pass leaves exactly the addresses that hold a slot, and restores the invariant |
| `AddrManSaved.SavedIsAccepted` | src/addrman.h:365-373 | the counts written never exceed the limits the reader checks |
| `AddrManSaved.ListedCount` | src/addrman.h:311-327 | exactly nNew and nTried entries are written, so neither assertion of `Serialize` fires |
| `AddrManSaved.RowsRead` | src/addrman.h:415-431 | reading the rows restores every new slot: none is taken early and no entry meets its limit of eight |
| `AddrManSaved.TableCapacity` | src/addrman.h:365-373 | a table holds at most as many ids as it has places |
| `AddrManSaved.CountsRestored` | src/addrman.h:346-449 | the counters follow from the addresses and slots alone |
| `AddrManSerialize.Serialize` | src/addrman.h:296-343 | the writing loops produce the stored form, with as many entries as announced |
| `AddrManSerialize.WriteNews` | src/addrman.h:309-319 | the new list in id order, and the index each entry is written under |
| `AddrManSerialize.WriteRow` | src/addrman.h:329-342 | one bucket as indexes into the new list |
| `AddrManSerialize.Unserialize` | src/addrman.h:346-449 | on any stream whose counts are not negative: throws exactly on a wrong key size or excessive counts, and otherwise builds the loaded manager |
| `AddrManSerialize.ReadNews` | src/addrman.h:375-392 | the first loop, with the fallback placement when stored slots cannot be used |
| `AddrManSerialize.ReadTrieds` | src/addrman.h:394-413 | the second loop, with collisions lost and the count corrected |
| `AddrManSerialize.ReadRows` | src/addrman.h:415-431 | the third loop skips unusable rows and indexes |
| `AddrManSerialize.PruneEntries` | src/addrman.h:433-443 | the deleting loop |
| `AddrManSerialize.Clear` | src/addrman.h:451-471 | forgets tables, random order and counters, and neither index |
| `AddrManSerialize.ClearedIsConsistent` | src/addrman.h:451-471 | so a cleared manager is consistent iff there was nothing to forget |
| `AddrManSerialize.ClearBreaks` | src/addrman.h:451-471 | a manager with one tried entry is consistent before and not after |
| `CheckQueue.CountersAreExact` | src/checkqueue.h:69-158 | in every reachable state nTodo is queued plus in-flight checks, nIdle and nTotal count the threads, and no check is lost or duplicated |
| `CheckQueue.WaitVerdict` | src/checkqueue.h:69-143 | in every interleaving `Wait` returns only with nothing queued or in flight, and returns true iff every check added since the last `Wait` passes, in which case each was run once |
| `CheckQueue.WaitResets` | src/checkqueue.h:92-100 | returning leaves the queue ready for the next controller |
| `CheckQueue.NoLostWakeup` | src/checkqueue.h:80-104 | a blocked master that was not notified waits for a worker that is working |
| `CheckQueue.IdleAtStart` | src/checkqueue.h:164-191 | the assertion of the controller holds whenever nothing was added since the last `Wait` |
| `CheckQueue.RunKeeps` | src/checkqueue.h:69-158 | the invariant holds over every run of one master and any number of workers |
| `CheckQueue.StepKeeps` | src/checkqueue.h:69-158 | every step of every thread, spurious wake-ups included, keeps it |
| `CheckQueue.BatchSize` | src/checkqueue.h:105-110 | a batch is never empty and never larger than the queue |
| `BlockAssembler.BlockAssembler.SelectTransactions` | src/miner.cpp:486-696 | priority and package selection together, for every order of scores and priorities: no transaction twice, every in-pool parent before its child, exact weight, sigop and size counters below their limits. If the walk over the pool ends, every transaction left out was refused on top of some prefix of the block, where with its missing ancestors it exceeded a limit or one of them was not final or had a witness. Otherwise more than 1000 transactions were refused since the last addition and the block is nearly full, or the next candidate is named, with the totals the table or the pool has for it, and its fee total is below the minimum for its size total; and everything the walk has passed is in the block, in the table or refused |
| `BlockModel.FinishedBlock` | src/miner.cpp:394-418 | those guarantees spelled out on the list of transactions |
| `BlockAssembler.BlockAssembler.AddPackageTxs` | src/miner.cpp:486-614 | package selection terminates, keeps those guarantees and ends for one of those reasons; the assertion that a chosen modified entry is not in the block holds |
| `BlockAssembler.BlockAssembler.Round` | src/miner.cpp:505-613 | every round adds a package, uses up an entry or stops for one of the two reasons, and loses track of no transaction |
| `BlockAssembler.BlockAssembler.Choose` | src/miner.cpp:516-553 | whichever of the two candidates scores higher, it is outside the block, its totals are those of the table or else of the pool, and they cover what it still needs |
| `BlockAssembler.BlockAssembler.Consider` | src/miner.cpp:555-612 | a package that fails is set aside without changing the block, and unless it was refused before it really does not go on top of the block |
| `BlockAssembler.BlockAssembler.Include` | src/miner.cpp:596-612 | a package whose totals fit is added whole, in order, within every limit |
| `BlockAssembler.BlockAssembler.UpdatePackagesForAdded` | src/miner.cpp:420-446 | after the update every modified entry again covers its missing ancestors, and has the size, fee and sigop totals that its history gives |
| `BlockAssembler.BlockAssembler.SortForBlock` | src/miner.cpp:465-474 | sorts a package by ancestor count, which puts parents before children |
| `BlockAssembler.BlockAssembler.TestPackageTransactions` | src/miner.cpp:321-338 | witness and size tests over the package, in any order |
| `BlockAssembler.BlockAssembler.AddToBlock` | src/miner.cpp:394-418 | appends one transaction and its measures |
| `BlockAssembler.BlockAssembler.IsStillDependent` | src/miner.cpp:282-291 | true iff some in-pool parent is missing from the block |
| `BlockAssembler.BlockAssembler.TestForBlock` | src/miner.cpp:340-392 | a transaction that passes keeps every limit |
| `BlockAssembler.BlockAssembler.AddPriorityTxs` | src/miner.cpp:616-696 | priority selection terminates and keeps the guarantees |
| `BlockAssembler.BlockAssembler.TryPriority` | src/miner.cpp:649-695 | one turn of the priority queue adds, defers or drops |
| `BlockModel.Requeue` | src/miner.cpp:682-692 | children waiting for an added transaction are queued once each |
| `PackageTotals.UpdateCovers` | src/miner.cpp:420-446 | subtracting added ancestors once each never takes an entry below its true remaining total |
| `PackageTotals.PoolCovers` | src/miner.h:127-139 | the totals cached in the pool cover every state of the block |
| `Refusals.UpdateRecorded` | src/miner.cpp:420-446 | an entry always has the sums over the ancestors not taken off yet, and a fee that is off by the deltas of all ancestors taken off but the one that inserted it; entries never refused have had all included ancestors taken off |
| `Refusals.FeeExactIff` | src/miner.h:127-139 | such an entry has exact size and sigop totals, and an exact fee total iff the fee deltas of the included ancestors other than the inserting one add up to zero |
| `Refusals.CandidateTotals` | src/miner.cpp:516-553 | the same for whatever selection may consider next |
| `Refusals.UnpaidIsRight` | src/miner.cpp:555-558 | without fee deltas, ending at a package never refused means that what it still needs pays less than the minimum |
| `Refusals.FeeDrifts` | src/miner.cpp:433-441 | with a delta of -1000 on the second of two parents, the entry of a child that pays 200 says -800 once both are included |
| `Refusals.PaidChildEndsSelection` | src/miner.cpp:555-558 | so selection ends there, at a package never refused that pays the minimum |
| `Refusals.AllPassed` | src/miner.cpp:502-613 | at the end of the pool with an empty table, everything not in the block was refused |
| `Refusals.NotTriedYet` | src/miner.cpp:560-573 | no candidate is too big twice between two additions, so the failures counted are as many transactions |
| `Refusals.TestsRefuse` | src/miner.cpp:306-338 | a package that fails either test with exact size and sigop totals exceeds a limit on top of the block, or has a member that may not be in it |
| `Refusals.RefusedOne` | src/miner.cpp:555-594 | setting a refused candidate aside loses track of no transaction |
| `Refusals.AddedTracked` | src/miner.cpp:596-612 | nor does adding a package: what was refused stays refused at an earlier state of the longer block |
| `BlockModel.PackageFits` | src/miner.cpp:306-338 | if the totals fit, every prefix of the sorted package fits |
| `MerkleBlock.ExtractIsSound` | src/merkleblock.cpp:63-183 | for arbitrary bits and hashes: if the extracted root is the true one, every reported pair is the entry of the list at that index |
| `MerkleProofs.NodeIsSound` | src/merkleblock.cpp:98-134 | the same for every subtree |
| `MerkleProofs.BothRight` | src/merkleblock.cpp:98-134 | a node with the true hash had two true children |
| `MerkleBlock.RoundTrip` | src/merkleblock.cpp:80-183 | for distinct txids and every mask, extracting what was built, with any padding of the bits, gives the true root and exactly the matched txids and indexes in order |
| `MerkleBlock.Transfer` | src/merkleblock.h:90-106 | the same through building, packing, unpacking and extracting as the code does it |
| `MerkleProofs.Reads` | src/merkleblock.cpp:80-134 | extraction of a subtree consumes exactly what building it produced |
| `MerkleProofs.MatchedMeans` | src/merkleblock.cpp:80-134 | every matched index is listed once, ascending, with its txid |
| `MerkleBlock.TreeSize` | src/merkleblock.h:36-50 | at most one hash per transaction and 1 + matches * height; 2N-1 bits plus one for every single child entered, at most the height of them, and at most 2N-1 iff no single child lies above a match |
| `MerkleBlock.DocumentedBitBoundFails` | src/merkleblock.h:36-50 | any odd number of transactions, at least three, with the last one matched needs more than 2N-1 bits |
| `MerkleBlock.SizeGuarantee` | src/merkleblock.h:31-50 | the size in bytes is at most the documented 10 + ceil(32.25*N) iff the single children entered are fewer than the bits that rounding and short length prefixes leave over |
| `MerkleBlock.DocumentedSizeFails` | src/merkleblock.h:31-50 | a multiple of four, at least 1012, of transactions, all matched, with two single children exceeds it |
| `MerkleBlock.SinglesOf1012` | src/merkleblock.h:31-50 | 1012 transactions give a tree of height 10 with exactly two |
| `MerkleBlock.SizeOf1012` | src/merkleblock.h:31-50 | they take 32648 bytes where 32647 are documented |
| `MerkleProofs.BitCount` | src/merkleblock.h:36-50 | the exact number of bits of every subtree |
| `MerkleProofs.HashBound` | src/merkleblock.h:36-50 | the exact shape behind the bound on hashes |
| `MerkleBlock.HeightIsLog` | src/merkleblock.cpp:141-144 | the height is the least whose power of two reaches the number of transactions |
| `MerkleBlock.PackBits` | src/merkleblock.h:101-106 | packs eight flags to a byte, lowest bit first |
| `MerkleBlock.UnpackBits` | src/merkleblock.h:94-100 | unpacks every bit |
| `MerkleBlock.UnpackPacked` | src/merkleblock.h:94-106 | unpacking gives the flags back, padded with false |
| `MerkleBlock.PartialMerkleTree.constructor` | src/merkleblock.cpp:136-148 | builds the encoding of the whole tree |
| `MerkleBlock.PartialMerkleTree.TraverseAndBuild` | src/merkleblock.cpp:80-96 | appends the encoding of one subtree |
| `MerkleBlock.PartialMerkleTree.TraverseAndExtract` | src/merkleblock.cpp:98-134 | reads one subtree from arbitrary data without leaving it |
| `MerkleBlock.PartialMerkleTree.ExtractMatches` | src/merkleblock.cpp:152-183 | all six rejections and the padding check |
| `ArithUint256.BaseUint.AddAssign` | src/arith_uint256.h:140-150 | limb addition with carries is addition modulo 2^256, also when adding a number to itself |
| `ArithUint256.BaseUint.SubtractAssign` | src/arith_uint256.h:152-156 | subtraction modulo 2^256 |
| `ArithUint256.BaseUint.Negate` | src/arith_uint256.h:82-89 | two's complement |
| `ArithUint256.BaseUint.Increment` | src/arith_uint256.h:178-185 | adds one modulo 2^256 |
| `ArithUint256.BaseUint.MultiplyWord` | src/arith_uint256.cpp:57-67 | product with a word modulo 2^256, no 64-bit overflow on the way |
| `ArithUint256.BaseUint.MultiplyAssign` | src/arith_uint256.cpp:69-83 | schoolbook product modulo 2^256, no 64-bit overflow on the way; zero when the operand is the number itself |
| `ArithUint256.BaseUint.ShiftLeftAssign` | src/arith_uint256.cpp:23-38 | product with a power of two modulo 2^256, for every shift |
| `ArithUint256.BaseUint.ShiftRightAssign` | src/arith_uint256.cpp:40-55 | floor quotient by a power of two, for every shift |
| `ArithUint256.BaseUint.CompareTo` | src/arith_uint256.cpp:111-121 | integer order |
| `ArithUint256.BaseUint.Bits` | src/arith_uint256.cpp:173-186 | the number of bits of the value |
| `ArithUint256.BaseUint.DivideAssign` | src/arith_uint256.cpp:85-109 | fails exactly on zero, otherwise shift-subtract division gives the floor quotient |
| `ArithUint256.BaseUint.LongDivide` | src/arith_uint256.cpp:97-106 | the division loop keeps quotient times divisor plus remainder |
| `LimbShifts.LeftShift` | src/arith_uint256.cpp:23-38 | word and bit shifts of limbs are one multiplication |
| `LimbShifts.RightShift` | src/arith_uint256.cpp:40-55 | word and bit shifts of limbs are one division |
| `Compact.SetCompact` | src/arith_uint256.cpp:206-224 | decodes modulo 2^256; the flags are set exactly for negative and for too large values |
| `CompactModel.OverflowIsExact` | src/arith_uint256.cpp:218-222 | the three-way overflow test holds iff the true value reaches 2^256 |
| `Compact.GetCompact` | src/arith_uint256.cpp:226-247 | encodes every value, with the mantissa shifted when its sign bit would be set |
| `CompactModel.EncodedIsValid` | src/arith_uint256.cpp:206-247 | an encoded value is never negative and never overflows |
| `CompactModel.DecodeIsClose` | src/arith_uint256.cpp:206-247 | decoding an encoded x gives y <= x, and x - y < y / 2^15 unless x is zero |
| `CompactModel.EncodeAgain` | src/arith_uint256.cpp:206-247 | encoding the decoded value gives the same word |
| `Compact.GetBlockProof` | src/chain.cpp:122-135 | floor(2^256 / (target + 1)) for every valid target, otherwise zero |
| `Compact.ProofFormula` | src/chain.cpp:128-133 | the formula with the complement equals that quotient |
| `Chain.BlockIndex.GetAncestor` | src/chain.cpp:85-109 | jumping over skip pointers gives the block that following parents gives, and once every block has its pointer the number of rounds depends on the two heights alone |
| `SkipBound.LinksBound` | src/chain.cpp:72-109 | that number is at most 2k(k+1) for going back less than 2^k blocks |
| `SkipBound.WithinLevel` | src/chain.cpp:85-109 | while the distance has k bits, a link uses up one-bits of the height or passes the one multiple of 2^k in between |
| `SkipBound.DeclinedStep` | src/chain.cpp:93-101 | declining a skip for the better one of the parent costs two links and uses up two bits |
| `Chain.BlockIndex.BuildSkip` | src/chain.cpp:116-120 | sets the skip pointer to the ancestor at the skip height |
| `Chain.AddToBlockIndex` | src/validation.cpp:3143-3176 | adding a block keeps all skip pointers right and leaves none missing that was not |
| `Chain.AncestorOfAncestor` | src/chain.cpp:85-109 | ancestors of ancestors are ancestors |
| `SkipHeight.SkipGoesBack` | src/chain.cpp:72-83 | a skip always goes back |
| `SkipHeight.ClearsLowestOne` | src/chain.cpp:72 | n & (n - 1) clears the lowest one bit |
| `Chain.Chain.SetTip` | src/chain.cpp:13-23 | with its early stop, leaves the whole ancestry of the new tip and nothing above it |
| `Chain.ChainIsAncestry` | src/chain.h:447-463 | every entry of the chain is the ancestor of every later one |
| `Chain.Chain.FindFork` | src/chain.cpp:53-62 | returns a common block, and no common block is higher |
| `Chain.Chain.GetLocator` | src/chain.cpp:25-51 | lists ancestors at the exponentially spaced heights |
| `Chain.LocatorLength` | src/chain.cpp:25-51 | strictly descending, from the start to genesis, at most 12 + k entries with 2^k >= height |
| `SkipHeight.LocatorIsShort` | src/chain.cpp:25-51 | the height reaches zero after 11 + k steps |
| `CompactBlock.Exchange` | src/blockencodings.cpp:20-199 | compact form, own pool, request and fill: succeeds iff the bucket heuristic does not give up, no transaction repeats and the coinbase is not null, and then rebuilds the identical block |
| `CompactBlock.Reconstructs` | src/blockencodings.cpp:50-199 | after any accepted initialisation from the block's own form, filling in what is missing gives the block back |
| `CompactBlock.OwnSlots` | src/blockencodings.cpp:82-170 | with injective short ids every filled slot holds the block's own transaction |
| `CompactBlock.PartiallyDownloadedBlock.InitData` | src/blockencodings.cpp:50-170 | invalid exactly on a null header, no transactions or bad prefilled entries; failed exactly on a crowded bucket or a repeated short id; otherwise the slots hold what their short ids allow and the counter is exact |
| `CompactBlock.PartiallyDownloadedBlock.PlacePrefilled` | src/blockencodings.cpp:60-76 | accepts exactly valid index lists and fills exactly their positions |
| `CompactBlock.PartiallyDownloadedBlock.AssignSlots` | src/blockencodings.cpp:82-100 | short id i gets the i-th empty slot, and no index leaves the list |
| `CompactBlock.PartiallyDownloadedBlock.ScanKnown` | src/blockencodings.cpp:106-165 | a second match empties a slot for good, and the counter stays the number of filled slots |
| `CompactBlock.OfferKeeps` | src/blockencodings.cpp:110-165 | one offered transaction keeps that |
| `CompactBlock.AssignedSize` | src/blockencodings.cpp:103-104 | the size test finds exactly the repeated short ids |
| `CompactBlock.PartiallyDownloadedBlock.FillBlock` | src/blockencodings.cpp:178-210 | too few transactions are invalid, keep the header and leave the slots moved out up to the first that found none; too many are invalid; otherwise the slots and the list interleave in order |
| `CompactBlock.FillsIn` | src/blockencodings.cpp:178-199 | interleaving right slots with the right missing transactions is the block |
| `CompactBlock.MakeCompact` | src/blockencodings.cpp:20-30 | coinbase prefilled, short ids of the rest |
| `IndexCodec.ReadWritten` | src/blockencodings.h:38-68 | a list of 16-bit indexes survives writing and reading iff it is strictly increasing |
| `IndexCodec.ReadIsIncreasing` | src/blockencodings.h:55-61 | accepted differences give strictly increasing indexes iff all but the last add up to at most 65535 |
| `IndexCodec.WrappedOffset` | src/blockencodings.h:55-61 | differences 65535, 5 are accepted and give 65535, 5 |
| `IndexCodec.ReadIndexes` | src/blockencodings.h:42-61 | the two reading loops compute the sums with a 16-bit offset, or fail |
| `IndexCodec.WriteIndexes` | src/blockencodings.h:62-67 | the writing loop |
| `RollingBloom.RollingBloomFilter.Contains` | src/bloom.cpp:285-297 | true iff every cell of the key was touched within the window; so for each of the last nElements keys inserted |
| `RollingBloom.RollingBloomFilter.Insert` | src/bloom.cpp:249-277 | after every insertion each cell shows the generation of the last key that touched it, if that is still remembered |
| `RollingBloom.RollingBloomFilter.Wipe` | src/bloom.cpp:257-265 | the word-parallel mask clears exactly the cells tagged with the reused generation |
| `RollingBloom.WipedTag` | src/bloom.cpp:257-265 | the same for one cell |
| `RollingBloom.TagsTell` | src/bloom.cpp:285-297 | non-zero tags at all positions are exactly coverage by the window |
| `RollingBloom.WindowIsWide` | src/bloom.h:113-114 | the window holds more than nElements keys once that many were inserted, and at most three generations |
| `RollingBloom.LastInWindow` | src/bloom.h:113-114 | the last nElements keys lie in the window |
| `RollingBloom.RollingBloomFilter.Reset` | src/bloom.cpp:305-313 | forgets everything |
| `Base58.DecodeEncoded` | src/base58.cpp:21-109 | decoding inverts encoding for every byte string, leading zeros included |
| `Base58.EncodeDecoded` | src/base58.cpp:21-109 | encoding inverts decoding for every valid string without spaces |
| `Base58.EncodeBase58` | src/base58.cpp:71-109 | the digit loop never overflows its buffer and gives the base 58 digits |
| `Base58.DecodeBase58` | src/base58.cpp:21-69 | accepts exactly one word of digits between spaces and gives its bytes; the carry assertion holds at every length |
| `Base58.MultiplyAdd` | src/base58.cpp:43-50 | the inner loop multiplies the buffer and adds, with no carry left |
| `Base58.EncodeRoom` | src/base58.cpp:81 | 138/100 plus one digits suffice at every length |
| `Base58.DecodeRoom` | src/base58.cpp:34 | 733/1000 plus one bytes suffice at every length |
| `Base58.EncodeBase58Check` | src/base58.cpp:121-128 | the string decodes to data and checksum |
| `Base58.DecodeBase58Check` | src/base58.cpp:130-145 | accepts iff the string decodes to some data followed by its checksum, and returns that data |
| `Base58.CheckedRoundTrip` | src/base58.cpp:121-145 | checked decoding inverts checked encoding |
| `CuckooModel.InsertKeeps` | src/cuckoocache.h:368-416 | every insertion, of the default element too, keeps each kept element at one of its own positions; a found element is refreshed, otherwise one item leaves the table and at most one kept element is lost |
| `CuckooModel.SettleLosesOne` | src/cuckoocache.h:382-416 | a kept element is lost only when no free slot was met, and then it is the last one displaced |
| `CuckooModel.SettleConserves` | src/cuckoocache.h:382-416 | the table gains the element and loses exactly one item |
| `CuckooModel.SettleDropsFree` | src/cuckoocache.h:382-391 | otherwise the item that left came from a discardable slot |
| `CuckooModel.SettleCounts` | src/cuckoocache.h:382-416 | an insertion adds at most one kept slot, in its own epoch |
| `CuckooModel.FoundMeans` | src/cuckoocache.h:443-453 | looking at eight positions finds exactly the elements in ever-kept slots, and the default element also where a slot was never kept |
| `CuckooModel.EpochCheckKeeps` | src/cuckoocache.h:264-296 | ageing drops no recent element and bounds both epochs |
| `CuckooModel.LoadIsBounded` | src/cuckoocache.h:264-296 | from 32 slots on the load stays below 96 percent |
| `CuckooModel.FreshContainsDefault` | src/cuckoocache.h:315-333 | a fresh table is found to contain the default element and no other |
| `CuckooCache.Cache.Insert` | src/cuckoocache.h:368-416 | the loops over table, flags and epochs compute that insertion |
| `CuckooCache.Cache.Contains` | src/cuckoocache.h:443-453 | membership in the sense above; an erasing hit marks the first of the eight positions that holds the element and changes nothing else |
| `CuckooCache.Cache.EpochCheck` | src/cuckoocache.h:264-296 | the two scans compute the ageing and the next counter |
| `CuckooCache.Cache.Relocate` | src/cuckoocache.h:382-416 | the bounded loop computes the outcome of all its turns |
| `CuckooCache.Cache.constructor` | src/cuckoocache.h:315-333 | a fresh table of a power of two slots |
| `CuckooCache.BitPackedFlags.BitSet` | src/cuckoocache.h:92-95 | sets one flag and no other |
| `CuckooCache.BitPackedFlags.BitUnset` | src/cuckoocache.h:103-106 | clears one flag and no other |
| `CuckooCache.BitPackedFlags.BitIsSet` | src/cuckoocache.h:113-116 | reads one flag |

## Left out

- AddrManSerialize.Unserialize: only into a manager that never held an entry, because `Clear` leaves old entries behind; and no negative counts, which the source accepts and keeps as counters.
- AddrManCheck.Check_: the entry that looking up a missing address inserts into `mapAddr` while checking.
- CompactBlock.PartiallyDownloadedBlock.InitData: at most 65535 transactions, beyond which 16-bit indexes wrap; the count of extra transactions used is a statistic and not modelled.
- CompactBlock.Exchange: the same bound on the number of transactions.
- AddrManStore.LoadedIsConsistent: a stored form that names an address twice is left to ConsistentIff, which needs no such condition.
- AddrManShared.ConsistentWithRows: sufficient and necessary conditions that differ; which row entries find their slot taken is said only by ConsistentIff.
- CompactBlock.PartiallyDownloadedBlock.FillBlock: the verdict of `CheckBlock` is a parameter.
- CoinsCodec.Unserialize: numbers read from arbitrary bytes are unbounded, where the source wraps at 32 or 64 bits; nothing that was written reaches that.
- VarInt.Read: the same.
- ScriptCompressor.UnserializeScript: the same.
- AmountCodec.DecompressAmount: the same.
- CoinsCodec.Serialize: amounts up to MAX_MONEY, the number of outputs and the script sizes below 2^31, as a valid chain guarantees; version and height are any signed 32-bit numbers.
- Base58.DecodeBase58: a string with an embedded NUL is rejected, where the `std::string` overload stops at it.
- Chain.Chain.GetLocator: the step width is unbounded; a 32-bit step would need more than 2^31 blocks to wrap.
- RollingBloom.RollingBloomFilter.constructor: the number of hash functions and cells are parameters; the source computes them with floating point.
- CuckooCache.Cache.constructor: the depth limit is a parameter; the source takes a floating-point logarithm.
- BlockAssembler.BlockAssembler.SelectTransactions: scores and priorities are not modelled, and every order they could give is allowed, so nothing says that later candidates would pay even less; the minimum fee for a size is a parameter.
- The stream of the address manager is a list of numbers and entries, not bytes.
- `cachedCoinsUsage`, a memory statistic of the coin caches.
- `Select_` and `GetChance`, which draw addresses with floating-point weights.
- The shutdown flag of the check queue, which no code sets.
- `SetBackend` and the pass-through views.
- Pushing a new cache while a modifier is open on the one below.
- Hexadecimal, floating-point and bitwise operators of `base_uint`.
- The non-rolling Bloom filter, wallet, network, RPC and masternode code: plumbing around foreign cryptography, clocks and sockets.
