# bOPRF set intersection: a verified model

This project models the private set intersection stack of the bOPRF library and several of the algorithms beneath it, and
proves what they compute. `dafny verify dfyconfig.toml` checks everything.

The two parties of the intersection, the receiver and the sender, build 128 Naor-Pinkas base OTs with threads, stretch
them with the IKNP extension to 512 OTs, stretch those to one OPRF row per hash bin and stash slot, place their items by
cuckoo and simple hashing, exchange corrections and masks, and the receiver records the matches.

How the files fit together:

- `Bits`, `Encodings`, `Prng`, `Transpose`, `Eklundh`: memory as bits and what the bits stand for, the counter-mode
  generator, the two in-place bit transposes.
- `NaorPinkas`, `NaorPinkasThreads`, `Iknp`, `BaseSsot`, `Ssot`: oblivious transfer, bottom up.
- `Cuckoo`, `SimpleHash`, `BinSize`, `Params`, `ItemHash`: where items go, and the sizes both parties derive.
- `Oprf`, `MaskIndex`, `PsiReceiver`, `PsiSender`, `Psi`, `MaskClash`: the online phase, its correctness, and what that
  asks of the hash and the OPRF values.
- `Channels`, `Processes`, `Session`, `Histories`, `Parties`, `EndToEnd`: two parties over FIFO channels under every
  schedule, up to the theorem about the whole stack, `EndToEnd.EverySessionIntersects`.
- `Modular`, `SquareRoot`, `ShanksEnd`, `Limbs`, `Montgomery`, `Modp`, `MiraclAdd`, `Arith`: modular square roots and
  when their search ends, multi-limb Montgomery arithmetic, the residue layer above it, and signed addition of big numbers.
- `MpscQueue`, `Strands`: the lock-free queue and the per-socket strands with length-prefixed framing.
- `AesSbox`, `AesLog`, `AesAffine`, `Aes`, `AesModes`, `Fips197`, `Feedback`: the block cipher with its equivalent inverse,
  the tables behind it, its feedback modes, and all of it as the standards write it.

Loops and objects of the sources are methods and classes here, each proved against a specification function; what the
sources promise is proved about those functions. SHA-1, the cipher under the generator and the elliptic-curve group are
parameters: any functions, the group with its laws and exact export and import of points. Threads, strands and parties are
step machines, and the theorems about them hold for every interleaving.

Conditions the code depends on appear by name: `Psi.NoMishap` (distinct sender items, a stash that fits its maximum, no two
receiver masks of one hash function with equal first 64 bits, no equal masks of different items), `MaskClash.Apart` (from
which the last two follow), `SimpleHash.NoOverflow`,
`Parties.PairsDiffer` (`check` throws on an OT with two equal values),
`BinSize.Monotone`, `Montgomery.ZpData.Constants`.

Where the code does less than its surroundings suggest:

- `sqrRootMod` runs for ever for p = 1 mod 4 on a non-residue, a non-zero multiple of p or a negative a, and so on some
  numbers that have a root: `ShanksEnd.ReturnsExactly` has the exact condition, `ShanksEnd.EndlessInputs` such inputs.
- `Zp_Data::init` copies R2 and R3 with the limb count of R; the exact condition is proved, and a modulus that breaks it.
- `to_modp` of an int below -p wraps for a one-limb modulus; the exact condition is proved, and `Modp.WrappedInput` is such an input.
- `mStash.resize` silently cuts an over-full stash; which items are then missed is proved, and `Cuckoo.OverfullStash` is
  such a table.
- The hashing seed of the peer is received asynchronously and never waited for; no message depends on it, and the scripts
  take it together with the next message.

## Model

| member | source | states |
|---|---|---|
| EndToEnd.EverySessionIntersects | bOPRFlib/PSI/BopPsiReceiver.cpp:46-376 | In every schedule of a session of two honest parties over FIFO channels, from the base OTs on: where nobody can move, both parties are through, no message is left unread, the check of the base OTs has passed, and what the receiver has recorded is its set of common items, each once. It asks for distinct sender items, no overflowing simple-hash bin, no OT with two equal values, a stash that fits and no mask clash. |
| EndToEnd.EverySessionExact | bOPRFlib/PSI/BopPsiReceiver.cpp:46-376 | The same from conditions on the OPRF values and the hash alone, as in MaskClash.IntersectionFromDigests. |
| EndToEnd.EveryScheduleDelivers | bOPRFlib/PSI/BopPsiSender.cpp:24-264 | Whatever the schedule, a session in which no OT has two equal values and that can go no further is finished, and each party has received exactly the message list that the protocol functions of both parties determine. |
| EndToEnd.ThreadsMakeTheKeys | bOPRFlib/OT/Base/naor-pinkas.cpp:27-333 | The key buffer and base OT values of that session are those computed by any number of threads on each side in any interleaving of them. |
| EndToEnd.ChecksPass | bOPRFlib/OT/BaseSSOT.cpp:117-161 | The receiving half of `check`, which the intersection's sender runs, passes on the messages of every honest session. |
| EndToEnd.FollowShapes | bOPRFlib/PSI/BopPsiReceiver.cpp:46-98 | The messages of both parties have the size and order of the session script, whatever has been received so far. |
| EndToEnd.StoryExplains | bOPRFlib/PSI/BopPsiSender.cpp:72-264 | Each message of the story is what its sender makes of the messages it has taken by then: batches alone suffice for the bucket buffers, all corrections for the stash buffers. |
| Histories.AllTold | bOPRFlib/Network/BtIOService.cpp:97-372 | Over FIFO channels the messages exchanged do not depend on the schedule: any pair of message lists in which each message is made of what was taken before is what every finished schedule has delivered. |
| Histories.RunTells | bOPRFlib/Network/BtIOService.cpp:97-372 | In every reachable state what a party has taken followed by what waits for it is exactly what the peer has sent. |
| Parties.Parties.RunIsValid | bOPRFlib/OT/BaseSSOT.cpp:40-88 | The base OTs make the 512 correlated seeds of the extension right, for any secrets, choices and sizes. |
| Parties.Parties.ReadsPoints | bOPRFlib/OT/Base/naor-pinkas.cpp:100-109 | The receiver reads back the two points the sender exported. |
| Parties.Parties.ReadsKeys | bOPRFlib/OT/Base/naor-pinkas.cpp:283-300 | From the key buffer the sender derives exactly the base OT pairs of the run. |
| Session.EverySessionCompletes | bOPRFlib/PSI/BopPsiReceiver.cpp:46-98 | Every session of scripts of these sizes runs to one final state under every schedule, no longer than one fixed bound, with no wrong size met, no party waiting for ever and nothing left unread. |
| Session.SomeRun | bOPRFlib/PSI/BopPsiSender.cpp:24-64 | A lock-step schedule that runs a whole session from init to the last stash buffer. |
| Processes.Diamond | bOPRFlib/Network/BtChannel.cpp:34-131 | Steps of different parties commute: FIFO channels between two deterministic parties. |
| Processes.Confluent | bOPRFlib/Network/BtChannel.cpp:34-131 | If one schedule ends in a final state, every schedule can be continued to it, and has no more steps. |
| Processes.NoDeadlock | bOPRFlib/Network/BtChannel.cpp:133-153 | Where neither party can move, that final state is reached. |
| Psi.IntersectionExact | bOPRFlib/PSI/BopPsiReceiver.cpp:192-372 | For any run with distinct sender items, a fitting stash and no mask clash, the recorded indices are those of the common items, each exactly once, and no others; MaskClash derives the absence of clashes. |
| MaskClash.IntersectionFromDigests | bOPRFlib/PSI/BopPsiReceiver.cpp:192-372 | The recorded indices are exactly those of the common items when the sender's items are distinct, the stash fits, the sender's OPRF value of an item differs from the row of any other item of the receiver in the codeword bytes that are hashed, so do the rows of bins under one hash function, and no two different strings that this run hashes have digests that agree in the first 8 bytes (or in a whole shorter mask). |
| MaskClash.NoFalseMatchFrom | bOPRFlib/PSI/BopPsiReceiver.cpp:223-231 | If no two different strings hashed have the same mask and the values are apart, masks of different items are never found equal. |
| MaskClash.DistinctKeysFrom | bOPRFlib/PSI/BopPsiReceiver.cpp:229-234 | If they already differ in the bytes the index is keyed by, no two bins of one hash function share a key. |
| MaskClash.OwnBinValue | bOPRFlib/PSI/BopPsiSender.cpp:174-186 | In its own bin an item's value agrees with the receiver's row in the bytes hashed if and only if the two items' codes agree in every bit of them that the sender's choices select. |
| Psi.RecordsIntersection | bOPRFlib/PSI/BopPsiReceiver.cpp:192-372 | With any stash size: index j is recorded once when item j is common and was not cut off by the final stash resize, and never otherwise. |
| Psi.LookupExact | bOPRFlib/PSI/BopPsiReceiver.cpp:248-301 | Looking up the sender's mask of item i under hash function h finds j exactly when the items are equal and j sits in a bin under h; one entry at most. |
| Psi.BucketCount | bOPRFlib/PSI/BopPsiReceiver.cpp:249-301 | A whole permuted bucket buffer adds j once when j is common and located under its hash function, and not at all otherwise. |
| Psi.StashCount | bOPRFlib/PSI/BopPsiReceiver.cpp:344-372 | A stash buffer adds the slot's item once when the sender has it, and nothing otherwise. |
| Psi.FoundCount | bOPRFlib/PSI/BopPsiReceiver.cpp:248-372 | Over all buffers an item is recorded once for each place it has in the table, when it is common. |
| Psi.DroppedCount | bOPRFlib/PSI/CuckooHasher.cpp:105 | The stash resize loses exactly the items of the slots it cuts. |
| Psi.CommonItemMask | bOPRFlib/PSI/BopPsiSender.cpp:174-186 | For a common item the sender's mask of a bin equals the receiver's own mask of that bin. |
| Psi.CommonStashMask | bOPRFlib/PSI/BopPsiSender.cpp:238-250 | The same for a stash slot. |
| Psi.IndexHolds | bOPRFlib/PSI/BopPsiReceiver.cpp:224-234 | With distinct 64-bit keys every bin's mask is found under its own key, with its item. |
| Psi.IndexEntry | bOPRFlib/PSI/BopPsiReceiver.cpp:234 | Every index entry comes from a bin of that hash function and holds that bin's mask and item. |
| Psi.FirstBinKept | bOPRFlib/PSI/BopPsiReceiver.cpp:234 | Also when keys clash, the index holds for each key the first bin that has it, and no other; a key no bin has is not there. |
| Psi.RowSent | bOPRFlib/PSI/BopPsiReceiver.cpp:211-240 | Bit by bit, the row the sender reads for a bin is the sum of the item's code and both OPRF rows of the bin, or the dummy drawn for an empty one. |
| Psi.StashRowSent | bOPRFlib/PSI/BopPsiReceiver.cpp:311-337 | The same for a stash slot. |
| Psi.BatchAt | bOPRFlib/PSI/BopPsiReceiver.cpp:192-196 | The bins go out in ceil(n / 4096) messages of 4096 rows, the last with what is left. |
| Psi.CodeIs | bOPRFlib/PSI/BopPsiReceiver.cpp:145-163 | Block k of an item's code is the item encrypted under the key of value k + 2^64 k. |
| Psi.SizesUsed | bOPRFlib/PSI/BopPsiReceiver.cpp:139-140 | Both parties hash as many bytes as the larger set asks for, and compare masks of one size. |
| Psi.SizesAgree | bOPRFlib/PSI/BopPsiReceiver.cpp:254-259 | Every message of an honest run has the size its receiver checks, on both sides. |
| Psi.BatchesReadBack | bOPRFlib/PSI/BopPsiSender.cpp:151-165 | The correction batches have the sizes the sender checks and read back, bin by bin, as the receiver's rows. |
| Psi.RecordsOwnIndices | bOPRFlib/PSI/BopPsiReceiver.cpp:279-365 | Nothing but indices of the receiver's own items is ever recorded. |
| Psi.Run.PartiesLinked | bOPRFlib/PSI/BopPsiSender.cpp:80-142 | Two parties that start from the same functions and set sizes derive equal sizes, correlated rows, equal codewords and equal bins for equal items. |
| MaskIndex.FindMatch | bOPRFlib/PSI/BopPsiReceiver.cpp:264-300 | The 64-bit-prefix search and the full scan, in any order of the entries, both return the match of the whole mask. |
| MaskIndex.FullScanAgrees | bOPRFlib/PSI/BopPsiReceiver.cpp:286-300 | An entry whose mask starts with a given mask can only sit under that mask's own 64-bit key. |
| MaskIndex.EmplaceKeepsKeys | bOPRFlib/PSI/BopPsiReceiver.cpp:229-234 | `emplace`, which drops a second mask with the same key, keeps every entry under its own mask's prefix. |
| Oprf.EvalCollapses | bOPRFlib/PSI/BopPsiSender.cpp:181 | q ^ ((c ^ C) & s) collapses to t0 for the corrections the receiver makes from C, for every s. |
| Oprf.EvalOnOther | bOPRFlib/PSI/BopPsiSender.cpp:181 | For any two codes the value differs from t0 exactly in the bits where the codes differ and s is set. |
| Oprf.BinInputIs | bOPRFlib/PSI/BopPsiReceiver.cpp:223-226 | What is hashed for a bin is the 64-bit number of the hash function and then, bit for bit, the first codewordSize bytes of the value. |
| Oprf.BinInputSame | bOPRFlib/PSI/BopPsiSender.cpp:183-185 | Two such strings are equal if and only if the hash functions are and the values agree in those bytes. |
| Oprf.BinMaskClash | bOPRFlib/PSI/BopPsiSender.cpp:183-186 | Two masks of bins are prefixes of the digests of two strings that are equal if and only if the hash functions are and the values agree in the bytes hashed: any other equality of masks is a clash of the hash. |
| Oprf.StashMaskClash | bOPRFlib/PSI/BopPsiSender.cpp:245-250 | The same for stash masks. |
| Encodings.RowPrefixSame | bOPRFlib/PSI/BopPsiReceiver.cpp:329 | The same for the string hashed for a stash slot, which has no number. |
| Oprf.KeySame | bOPRFlib/PSI/BopPsiReceiver.cpp:229-234 | Two masks have the same index key if and only if they agree in their first 8 bytes, or altogether when they are shorter. |
| Oprf.MaskBit | bOPRFlib/PSI/BopPsiSender.cpp:189-190 | Bit k of mask i stands at bit 8 maskSize i + k of the buffer. |
| Oprf.RowBit | bOPRFlib/PSI/BopPsiReceiver.cpp:199-201 | Bit k of block b of row i stands at bit 512 i + 128 b + k of the message. |
| Oprf.MaskAtFlat | bOPRFlib/PSI/BopPsiReceiver.cpp:261-283 | The i-th mask read at offset i * maskSize of a buffer is the i-th mask written. |
| Oprf.UnflatFlatRows | bOPRFlib/PSI/BopPsiReceiver.cpp:199-201 | Rows written to a message read back as the same rows. |
| ItemHash.HashItems | bOPRFlib/PSI/BopPsiReceiver.cpp:156-164 | The batched AES hashing loop computes the four fixed-key hashes of every item, for any number of items. |
| ItemHash.ItemHashIs | bOPRFlib/PSI/BopPsiReceiver.cpp:145-163 | Hash block k of an item is its encryption under the key that holds the number k in both halves. |
| ItemHash.SameItemSameHashes | bOPRFlib/PSI/BopPsiSender.cpp:100-107 | Equal items have equal hashes in both parties. |
| PsiReceiver.BinStep | bOPRFlib/PSI/BopPsiReceiver.cpp:204-242 | One bin: the correction row (or dummy) and the index entry, as the protocol function says. |
| PsiReceiver.SendCorrections | bOPRFlib/PSI/BopPsiReceiver.cpp:192-245 | The pipelined bin loop sends the batches of correction rows in order and leaves the three indices of all bins. |
| PsiReceiver.SendStash | bOPRFlib/PSI/BopPsiReceiver.cpp:304-340 | The stash loop sends one message of all slots' rows and keeps each occupied slot's own mask. |
| PsiReceiver.SearchBuffer | bOPRFlib/PSI/BopPsiReceiver.cpp:263-300 | One buffer of masks yields its matches in buffer order. |
| PsiReceiver.View.MatchesInOrder | bOPRFlib/PSI/BopPsiReceiver.cpp:263-300 | The matches of the first masks of a buffer are recorded before those of the later ones. |
| PsiReceiver.PsiReceiver.ReceiveBuckets | bOPRFlib/PSI/BopPsiReceiver.cpp:249-301 | Three bucket buffers: an exception exactly on a wrong size, else all their matches appended to mIntersection. |
| PsiReceiver.PsiReceiver.ReceiveStash | bOPRFlib/PSI/BopPsiReceiver.cpp:343-372 | The stash buffers: a size is checked only for an occupied slot, whose matches are appended. |
| PsiReceiver.PsiReceiver.Online | bOPRFlib/PSI/BopPsiReceiver.cpp:192-372 | The message part of sendInput: what is sent, what is consumed and what is recorded, or the exception, exactly when a size is wrong. |
| PsiReceiver.PsiReceiver.SendInput | bOPRFlib/PSI/BopPsiReceiver.cpp:115-376 | sendInput: hashing, cuckoo insertion and the online phase; the exception on a wrong number of items changes nothing. |
| PsiSender.EvalMask | bOPRFlib/PSI/BopPsiSender.cpp:176-186 | The OPRF evaluation and hash of one item against a bin's correction. |
| PsiSender.StoreBin | bOPRFlib/PSI/BopPsiSender.cpp:168-196 | One bin: each of its items' masks goes to the next permuted slot of the buffer of its hash function. |
| PsiSender.ScatterFills | bOPRFlib/PSI/BopPsiSender.cpp:130-142 | Writing along a permutation writes every slot exactly once and each value stays where it was put. |
| PsiSender.View.EveryItemHasSlot | bOPRFlib/PSI/BopPsiSender.cpp:189-194 | Every item has a slot of each bucket buffer that holds its mask, the one the buffer's permutation gives the item's turn. |
| PsiSender.View.EverySlotHasItem | bOPRFlib/PSI/BopPsiSender.cpp:189-194 | The slots of a bucket buffer hold the masks of all items, one each: none written twice, none left clear. |
| PsiSender.View.EveryStashSlotHasItem | bOPRFlib/PSI/BopPsiSender.cpp:229-254 | The same for every stash buffer: the slot at which its permutation puts an item holds the item's mask. |
| PsiSender.PsiSender.Buckets | bOPRFlib/PSI/BopPsiSender.cpp:151-197 | The pipelined loop over received batches fills the three permuted buffers, or throws exactly on a wrong size. |
| PsiSender.StashBuffer | bOPRFlib/PSI/BopPsiSender.cpp:225-254 | One stash buffer holds every item's mask at its permuted place. |
| PsiSender.PsiSender.Online | bOPRFlib/PSI/BopPsiSender.cpp:151-263 | The message part of sendInput: what is consumed and sent, or the exception exactly on a wrong size. |
| PsiSender.PsiSender.SendInput | bOPRFlib/PSI/BopPsiSender.cpp:72-264 | sendInput: it succeeds exactly when the item count is right, no bin overflows and all sizes fit, and then sends what the protocol functions say. |
| Cuckoo.CuckooHasher.InsertItem | bOPRFlib/PSI/CuckooHasher.cpp:60-95 | The recursive insertion in place is the insertion chain of the specification, tries counted. |
| Cuckoo.OneEviction | bOPRFlib/PSI/CuckooHasher.cpp:76-87 | When the bin of an item holds item j under hash function g and the bin of j under (g + 1) mod 3 is free, there is one eviction: j moves there, and the stash stays as it was. |
| Cuckoo.EvictionsAdvance | bOPRFlib/PSI/CuckooHasher.cpp:76-87 | In every chain each eviction takes one item on to its next hash function: the hash numbers of all stored items add up to the old sum, plus that of the new item, plus the evictions, modulo 3. |
| Cuckoo.StashLast | bOPRFlib/PSI/CuckooHasher.cpp:73-94 | The stash grows only after exactly as many evictions as the limit leaves, by one item at its end. |
| Cuckoo.FreeFirst | bOPRFlib/PSI/CuckooHasher.cpp:96-104 | An item whose first bin is free goes there, under hash function 0, and moves nothing. |
| Cuckoo.TwoItems | bOPRFlib/PSI/CuckooHasher.cpp:60-106 | Two items with one first bin both find a bin, and the stash stays empty. |
| Cuckoo.AddrValue | bOPRFlib/PSI/CuckooHasher.cpp:64-66 | The address of a hash block of value v is v mod 2^64, mod the bin count. |
| Cuckoo.CuckooHasher.InsertItems | bOPRFlib/PSI/CuckooHasher.cpp:96-106 | All items inserted in order, then the stash cut or padded to its maximum. |
| Cuckoo.InsertConserves | bOPRFlib/PSI/CuckooHasher.cpp:60-95 | An insertion chain adds one occurrence of its item and changes no other count, through every eviction. |
| Cuckoo.InsertBounded | bOPRFlib/PSI/CuckooHasher.cpp:76-88 | An eviction chain ends within mCuckooSize evictions. |
| Cuckoo.InsertPlaces | bOPRFlib/PSI/CuckooHasher.cpp:66-89 | Every occupied bin keeps an item at the address of the hash function recorded with it, with h < 3. |
| Cuckoo.BuiltHoldsEachOnce | bOPRFlib/PSI/CuckooHasher.cpp:96-106 | After insertItems each index 0..n-1 is stored exactly once in bins and stash; and after the resize too, when the stash fits. |
| Cuckoo.ResizeKeeps | bOPRFlib/PSI/CuckooHasher.cpp:105 | A resize to at least the stash's size keeps every count. |
| Cuckoo.ResizeDrops | bOPRFlib/PSI/CuckooHasher.cpp:105 | An over-full stash loses the item of its first cut slot. |
| Cuckoo.OverfullStash | bOPRFlib/PSI/CuckooHasher.cpp:96-106 | Fifteen items whose three addresses are all one bin, in 18 bins: the stash grows to 14 slots, over the 12 the sources allow for 15 items, and the resize loses items. |
| Cuckoo.CollidingItems | bOPRFlib/PSI/CuckooHasher.cpp:60-95 | k items with one common address leave exactly k - 1 of them in the stash. |
| SimpleHash.SimpleHasher.InsertItems | bOPRFlib/PSI/SimpleHasher.cpp:63-93 | All 3n placements in order, or the matrix's exception exactly when some bin overflows its row. |
| SimpleHash.PlacedOnce | bOPRFlib/PSI/SimpleHasher.cpp:77-90 | The pair (item i, hash j) is in the bin its hash names, once, and in no other. |
| SimpleHash.AllPlacedOnce | bOPRFlib/PSI/SimpleHasher.cpp:72-91 | Over all bins each pair of an item and a hash function occurs exactly once. |
| SimpleHash.SizesSum | bOPRFlib/PSI/SimpleHasher.cpp:84-88 | The bin sizes sum to the number of placements. |
| SimpleHash.SelectedIsPermutation | bOPRFlib/PSI/BopPsiSender.cpp:168-195 | Walking all bins, the items met under one hash function are a permutation of all items. |
| SimpleHash.OverflowIsFinal | bOPRFlib/PSI/SimpleHasher.cpp:84-87 | Once a full bin is hit again, the final lists overflow: the early exception is not spurious. |
| BinSize.GetBinSize | bOPRFlib/Common/Defines.cpp:202-236 | For any overflow estimate that is monotone in the bin size and passes at numBalls: the search ends, step never reaches 0, and the result is the least passing size strictly above max(1, numBalls / numBins). |
| Params.MaskSizeRange | bOPRFlib/Common/Defines.cpp:277-280 | For set sizes whose product fits 64 bits a mask has 5 to 13 bytes, so it fits a block and the 20-byte digest. |
| Params.MaskSizeLeast | bOPRFlib/Common/Defines.cpp:277-280 | A mask has the fewest whole bytes that hold 40 bits beyond the integer part of the binary logarithm of the number of pairs. |
| Params.SizesByThreshold | bOPRFlib/Common/Defines.cpp:129-143 | Stashes have 12, 6, 4, 3 or 2 slots and codewords 53 to 56 bytes, with the steps at 2^12, 2^16, 2^20 and (stashes) 2^24 items. |
| Iknp.IknpReceiver.SetBaseOts | bOPRFlib/OT/IknpOtExtReceiver4k.cpp:11-24 | Sets both generators of every base OT, or throws exactly on a wrong count. |
| Iknp.IknpReceiver.Extend | bOPRFlib/OT/IknpOtExtReceiver4k.cpp:27-116 | For a choice vector of any size, cut or padded to 512 bits: sends the four column buffers of those choices and leaves the hashed rows; nothing without choices or base OTs. |
| Iknp.IknpSender.SetBaseOts | bOPRFlib/OT/IknpOtExtSender4k.cpp:13-24 | Sets the generators and choice bits, or throws exactly on a wrong count. |
| Iknp.IknpSender.Extend | bOPRFlib/OT/IknpOtExtSender4k.cpp:27-99 | Consumes four column buffers and leaves the pairs of hashed rows. |
| Iknp.RowCorrelation | bOPRFlib/OT/IknpOtExtSender4k.cpp:56-71 | Row r of q is row r of t0, plus delta exactly when choice bit r is set. |
| Iknp.FourBlocksCorrect | bOPRFlib/OT/IknpOtExtReceiver4k.cpp:61-115 | For all seeds, base choices and 512 choice bits, the receiver's message (b, r) is the sender's message (b, r) at choice bit 128 b + r. |
| Iknp.ReceivedMessage | bOPRFlib/OT/IknpOtExtReceiver4k.cpp:68-112 | The receiver's message (b, r) is the first 16 digest bytes of the row whose bit c is bit r of block b of the keystream of its seed (c, 0). |
| Iknp.SentPair | bOPRFlib/OT/IknpOtExtSender4k.cpp:59-95 | The sender's pair (b, r) holds those of the row whose bit c is bit r of block b of its seed c, plus bit r of the column received where its base choice c is set, and of that row plus all base choices. |
| Iknp.SentBit | bOPRFlib/OT/IknpOtExtReceiver4k.cpp:68-83 | Bit (c, r) of the buffer sent for block b is the sum of the bits of both seeds and the choice bit 128 b + r. |
| Ssot.SsotReceiver.Extend | bOPRFlib/OT/SSOTReceiver.cpp:29-83 | Both rows of every OT up to input_size, also in a partial last block; nothing beyond is written. |
| Ssot.SsotSender.Extend | bOPRFlib/OT/SSOTSender.cpp:31-81 | The rows of the chosen seeds up to input_size; nothing beyond is written. |
| Ssot.RowsCorrelated | bOPRFlib/OT/SSOTSender.cpp:57-81 | For every row, q = t0 ^ ((t0 ^ t1) & s). |
| Ssot.SeedRowAt | bOPRFlib/OT/SSOTSender.cpp:57-81 | Bit 128 b + c of row i is bit i of the keystream of seed 128 b + c. |
| Prng.Prng.SetSeed | bOPRFlib/Crypto/PRNG.cpp:31-46 | SetSeed restarts the keystream of the new seed whatever state the generator was in. |
| Prng.Prng.GetU8s | bOPRFlib/Crypto/PRNG.cpp:114-138 | A request of any length yields the next bytes of one contiguous counter-mode keystream, across refills. |
| Prng.Prng.GetBlock | bOPRFlib/Crypto/PRNG.cpp:102-107 | On a block boundary get_block yields the next block of the keystream. |
| Prng.Prng.RefillBuffer | bOPRFlib/Crypto/PRNG.cpp:141-168 | A refill encrypts the next 64 values of the 64-bit counter. |
| Prng.BufferSlice | bOPRFlib/Crypto/PRNG.cpp:123-136 | Any byte range of a refilled buffer is the keystream at that offset. |
| Prng.KeyBitsSplit | bOPRFlib/Crypto/PRNG.cpp:121-137 | The keystream of two requests is the keystream of their concatenation. |
| Prng.KeyBitsBlock | bOPRFlib/Crypto/PRNG.cpp:102-107 | Block n of the keystream is its bits 128 n to 128 n + 127. |
| Prng.KeyBlockPlain | bOPRFlib/Crypto/PRNG.cpp:146-158 | Block n of the keystream is the encryption of the block of value n modulo 2^64. |
| Prng.KeyBlocksDiffer | bOPRFlib/Crypto/PRNG.cpp:146-158 | Under a cipher that maps different plaintexts to different blocks, two blocks of a keystream are equal if and only if their numbers are equal modulo 2^64. |
| Encodings.BinaryValue | bOPRFlib/Crypto/PRNG.cpp:152 | A counter written to len bits stands for itself modulo 2^len, low bit first. |
| Prng.GenBank.GetBlock | bOPRFlib/OT/SSOTSender.cpp:62-66 | Generator after generator, each call yields the next block of its own seed's keystream. |
| Transpose.SseTranspose128 | bOPRFlib/OT/Base/Tools.cpp:354-371 | The matrix is transposed in place. |
| Transpose.LoadSubSquare | bOPRFlib/OT/Base/Tools.cpp:306-319 | The two registers hold the two byte columns of the 16 by 16 square. |
| Transpose.TransposeSubSquare | bOPRFlib/OT/Base/Tools.cpp:324-339 | Eight steps of movemask and shift write the transposed square, and nothing outside it. |
| Transpose.SquareWritten | bOPRFlib/OT/Base/Tools.cpp:358-370 | Writing the square loaded from (y, x) at (x, y) transposes one more square and disturbs none that is done. |
| Eklundh.EklundhTranspose128 | bOPRFlib/OT/Base/Tools.cpp:166-269 | The matrix is transposed in place. |
| Eklundh.RoundSwaps | bOPRFlib/OT/Base/Tools.cpp:187-268 | After each round one more bit is swapped between the row and the column index of every entry. |
| Eklundh.StepExchanges | bOPRFlib/OT/Base/Tools.cpp:196-263 | A step of the inner loop exchanges the off-diagonal column groups of two rows, in the shifted and in the 64-wide case. |
| Eklundh.MaskIsStripe | bOPRFlib/OT/Base/Tools.cpp:168-176 | Each mask constant keeps exactly the columns whose index bit of the round is clear. |
| Eklundh.TransposesAgree | bOPRFlib/OT/Base/Tools.cpp:166-371 | Both transposes leave the same matrix on every input. |
| NaorPinkas.Secrets.KeysAgree | bOPRFlib/OT/Base/naor-pinkas.cpp:117-173 | The receiver's message is the sender's at the choice bit, in any abelian group with exact point import. |
| NaorPinkas.Secrets.OwnIs | bOPRFlib/OT/Base/naor-pinkas.cpp:161-173 | The receiver's message i is the first 16 digest bytes of the 64-bit number i and the bytes of (g^alpha)^k_i. |
| NaorPinkas.Secrets.PairIs | bOPRFlib/OT/Base/naor-pinkas.cpp:292-321 | The sender's values i are those of the number i and the bytes of k = PK0^alpha, and of i and c1^alpha / k; the strings hashed are equal only if the bytes of these points are. |
| NaorPinkas.Secrets.BytesDiffer | bOPRFlib/OT/Base/naor-pinkas.cpp:310 | Different points have different bytes. |
| NaorPinkas.FirstPowers | bOPRFlib/OT/Base/naor-pinkas.cpp:162 | a^0 = 1 and a^1 = a, from which PowAdd gives every power. |
| NaorPinkas.PowAdd | bOPRFlib/OT/Base/naor-pinkas.cpp:162 | a^(j + k) = a^j a^k. |
| NaorPinkas.PowSwap | bOPRFlib/OT/Base/naor-pinkas.cpp:160-162 | (g^a)^k = (g^k)^a. |
| NaorPinkas.QuotientPower | bOPRFlib/OT/Base/naor-pinkas.cpp:309 | c^k / (c / x)^k = x^k. |
| NaorPinkasThreads.BaseOtsCorrect | bOPRFlib/OT/Base/naor-pinkas.cpp:27-333 | For any message count, thread counts and schedule, when both parties have returned each receiver message is the sender's at the chosen bit. |
| NaorPinkasThreads.KeysSentComplete | bOPRFlib/OT/Base/naor-pinkas.cpp:137-196 | In every schedule the key buffer goes out complete, after every thread counted down, and is never written again. |
| NaorPinkasThreads.NeverStuck | bOPRFlib/OT/Base/naor-pinkas.cpp:194-199 | Until both parties have returned some thread can go on: no schedule gets stuck. |
| NaorPinkasThreads.RunLength | bOPRFlib/OT/Base/naor-pinkas.cpp:27-333 | No schedule of n messages, T receiver and S sender threads has more than 2 + 3 T + 2 n + 2 n S steps, and one has that many exactly when both parties have returned; with NeverStuck, every schedule ends there. |
| NaorPinkasThreads.StepWorks | bOPRFlib/OT/Base/naor-pinkas.cpp:120-190 | Every step of any thread adds one to the work done: none undoes or repeats another's. |
| NaorPinkasThreads.AllWritten | bOPRFlib/OT/Base/naor-pinkas.cpp:278-323 | At the end every message of both sides is written; the sender threads' repeated writes agree. |
| NaorPinkasThreads.Job.Owner | bOPRFlib/OT/Base/naor-pinkas.cpp:66-67 | The ranges t n / T .. (t + 1) n / T partition the messages. |
| NaorPinkasThreads.StepKeeps | bOPRFlib/OT/Base/naor-pinkas.cpp:139-140 | Every step of every thread keeps the books of the buffer, the countdown and the promise. |
| BaseSsot.ExecCorrect | bOPRFlib/OT/BaseSSOT.cpp:40-88 | The 128 base OTs stretched by the IKNP extension give 512 right OTs, roles swapped in between. |
| BaseSsot.SeedsAre | bOPRFlib/OT/BaseSSOT.cpp:40-88 | Seed 128 b + r of each side is the digest of its own row r of block b, bit for bit from the base seeds and the columns. |
| BaseSsot.BaseFromThreads | bOPRFlib/OT/BaseSSOT.cpp:70-84 | Any finished schedule of the threaded base OTs leaves 128 right base OTs. |
| BaseSsot.CheckSender | bOPRFlib/OT/BaseSSOT.cpp:125-136 | The sending half sends both values of every OT; it throws exactly when some pair is equal, having sent the pairs before the first such one. |
| BaseSsot.CheckReceiver | bOPRFlib/OT/BaseSSOT.cpp:138-157 | The receiving half throws exactly when some value is not the chosen one. |
| BaseSsot.CheckPasses | bOPRFlib/OT/BaseSSOT.cpp:117-161 | On right OTs the receiving half passes. |
| SquareRoot.SqrRootMod | bOPRFlib/OT/Base/Math/bigint.cpp:6-66 | On the inputs on which the code returns (`ShanksEnd.ReturnsExactly`) it gives a root: for p = 3 mod 4 exactly when a has one, for p = 1 mod 4 for a = 0 and for every positive a that passes Euler's criterion. |
| SquareRoot.OnePower | bOPRFlib/OT/Base/Math/bigint.cpp:10-14 | For p = 3 mod 4, a^((p+1)/4) is a square root of a if and only if a has one. |
| SquareRoot.FindNonResidue | bOPRFlib/OT/Base/Math/bigint.cpp:21-26 | The search ends at a generator value with Legendre symbol -1. |
| SquareRoot.SplitEven | bOPRFlib/OT/Base/Math/bigint.cpp:27-33 | p - 1 = 2^e q with q odd and e >= 1. |
| SquareRoot.ShanksStarts | bOPRFlib/OT/Base/Math/bigint.cpp:34-41 | The start values satisfy x^2 = a b, y^(2^(r-1)) = -1 and b^(2^(r-1)) = 1 modulo p. |
| SquareRoot.OrderExponent | bOPRFlib/OT/Base/Math/bigint.cpp:44-50 | The inner loop finds the first m >= 1 with b^(2^m) = 1, and m < r. |
| SquareRoot.ShanksPass | bOPRFlib/OT/Base/Math/bigint.cpp:43-62 | Each pass keeps the three congruences, strictly lowers r, and is a pass in the sense of the run relation on signed variables. |
| SquareRoot.ShanksKeeps | bOPRFlib/OT/Base/Math/bigint.cpp:51-61 | The algebra of one pass: new x, y, b satisfy the invariant with exponent m. |
| SquareRoot.ShanksLoop | bOPRFlib/OT/Base/Math/bigint.cpp:43-63 | The loop ends with a square root of a, after passes that lead from its start values to b = 1 with that x. |
| SquareRoot.ResidueSymbol | bOPRFlib/OT/Base/Math/bigint.cpp:25 | A residue prime to p has Legendre symbol 1 (Euler's criterion, from Fermat's theorem). |
| ShanksEnd.EndsExactly | bOPRFlib/OT/Base/Math/bigint.cpp:34-62 | For any odd prime p, non-residue n and a != 0, some number of passes over signed variables, with the C++ remainder and an inner search that may find no m, leads from the start values to b = 1 if and only if a > 0 and a^((p-1)/2) = 1 modulo p. |
| ShanksEnd.ReturnsExactly | bOPRFlib/OT/Base/Math/bigint.cpp:6-66 | sqrRootMod as a whole returns if and only if a = 0, or p = 3 mod 4, or a > 0 and a^((p-1)/2) = 1 modulo p. |
| ShanksEnd.ResidueReturns | bOPRFlib/OT/Base/Math/bigint.cpp:6-66 | On a number that has a square root it returns if and only if a = 0, or p = 3 mod 4, or a is positive and no multiple of p. |
| ShanksEnd.EndlessInputs | bOPRFlib/OT/Base/Math/bigint.cpp:34-62 | Modulo 5 it never returns on 2, on -1 and on 5, the last two of which have square roots; 2 is a non-residue the search may have found. |
| ShanksEnd.GoodRun | bOPRFlib/OT/Base/Math/bigint.cpp:43-63 | From any state of the loop invariant there is a run to b = 1 that keeps it, so x ends as a root of a. |
| ShanksEnd.EndlessKept | bOPRFlib/OT/Base/Math/bigint.cpp:43-62 | From a state with b <= 0, or one in which b has order exactly 2^r, no run of any length reaches b = 1. |
| ShanksEnd.StuckOrder | bOPRFlib/OT/Base/Math/bigint.cpp:44-50 | On a non-residue the only m the inner search can find is r itself. |
| ShanksEnd.NonResidueStarts | bOPRFlib/OT/Base/Math/bigint.cpp:34-41 | A positive non-residue enters the loop with b of order exactly 2^r. |
| ShanksEnd.NegativeStarts | bOPRFlib/OT/Base/Math/bigint.cpp:40 | A negative a enters the loop with b <= 0. |
| ShanksEnd.MultipleHasNoPass | bOPRFlib/OT/Base/Math/bigint.cpp:46-50 | On a positive multiple of p not even the first pass comes to an end. |
| ShanksEnd.EulerCases | bOPRFlib/OT/Base/Math/bigint.cpp:25 | Euler's criterion: a^((p-1)/2) is 0 exactly on multiples of p, and else 1 or p - 1. |
| Modular.Fermat | bOPRFlib/OT/Base/Math/bigint.cpp:24-26 | Fermat's little theorem, on which mpz_legendre's contract rests. |
| Modular.RootsOfOne | bOPRFlib/OT/Base/Math/bigint.cpp:43-62 | Modulo a prime 1 has only the square roots 1 and -1, which makes the order argument of the loop work. |
| Modular.Euclid | bOPRFlib/OT/Base/Math/bigint.cpp:43-62 | Euclid's lemma. |
| Montgomery.ZpData.MontMult | bOPRFlib/OT/Base/Math/Zp_Data.cpp:61-86 | For any limb count, any t-limb x and any y < p: z < p and z 2^(64t) = x y modulo p, also when z is x or y; the abort exactly on an operand with a limb too many. |
| Montgomery.ZpData.NextPass | bOPRFlib/OT/Base/Math/Zp_Data.cpp:69-75 | Every partial sum stays below y + p < 2p, with the running equation, and its carries fit one limb. |
| Montgomery.ZpData.FirstPass | bOPRFlib/OT/Base/Math/Zp_Data.cpp:66-68 | The first pass does the same over an uncleared buffer. |
| Montgomery.CarriesFit | bOPRFlib/OT/Base/Math/Zp_Data.cpp:73-74 | The two carries of a pass add up to at most 1, so the wrapped limb addition is exact. |
| Montgomery.LowLimbCancels | bOPRFlib/OT/Base/Math/Zp_Data.cpp:71 | The factor u makes the low limb of the sum vanish. |
| Montgomery.ZpData.Reduce | bOPRFlib/OT/Base/Math/Zp_Data.cpp:78-85 | One conditional subtraction brings a sum below 2p below p. |
| Montgomery.ZpData.InitModulus | bOPRFlib/OT/Base/Math/Zp_Data.cpp:8-24 | init sets p, t and pi with pi p_0 = -1 modulo 2^64, or throws exactly when there are too many limbs. |
| Montgomery.ZpData.InitConstants | bOPRFlib/OT/Base/Math/Zp_Data.cpp:26-31 | R2 and R3 come out right if and only if they have no more limbs than R and the memory behind them is clear. |
| Montgomery.TruncatedConstant | bOPRFlib/OT/Base/Math/Zp_Data.cpp:29 | An odd two-limb modulus whose R has one limb while R^2 mod p has two, so that init cuts R2. |
| Limbs.AddMul1 | bOPRFlib/OT/Base/Math/Zp_Data.cpp:68-74 | Multiply-and-add over limbs with its carry, contents outside unchanged. |
| Limbs.CopyExact | bOPRFlib/OT/Base/Math/Zp_Data.cpp:29-31 | A copy of `size` limbs of a number is exact if and only if no limb is cut and the limbs read beyond the number are zero. |
| Limbs.Cmp | bOPRFlib/OT/Base/Math/Zp_Data.cpp:78 | Comparison from the top limb decides the order of the numbers. |
| Modp.Add | bOPRFlib/OT/Base/Math/modp.cpp:27-34 | Adds residues modulo p, in either representation, aliasing allowed. |
| Modp.Sub | bOPRFlib/OT/Base/Math/modp.cpp:36-41 | Subtracts residues modulo p. |
| Modp.Negate | bOPRFlib/OT/Base/Math/modp.cpp:43-47 | Negates a residue, zero included. |
| Modp.Mul | bOPRFlib/OT/Base/Math/modp.cpp:186-213 | Multiplies residues in the Montgomery and the plain representation alike; squaring is the case x = y. |
| Modp.Power | bOPRFlib/OT/Base/Math/modp.cpp:240-271 | Powers of a residue for every exponent from 0 on; the exception exactly on a negative one. |
| Modp.PowerStep | bOPRFlib/OT/Base/Math/modp.cpp:247-252 | One square-and-multiply step keeps accumulator times base to the exponent. |
| Modp.ToModp | bOPRFlib/OT/Base/Math/modp.cpp:171-182 | to_modp represents x mod p for every integer x. |
| Modp.ToBigint | bOPRFlib/OT/Base/Math/modp.cpp:116-140 | to_bigint returns the residue represented, so to_bigint after to_modp is reduction modulo p. |
| Modp.ToModpInt | bOPRFlib/OT/Base/Math/modp.cpp:143-168 | to_modp of an int is right if and only if p has more than one limb or x >= -p: below that the one-limb sum wraps. |
| Modp.WrappedInput | bOPRFlib/OT/Base/Math/modp.cpp:153-156 | With p = 3 the one-limb sum turns -4 into 0, and not into 2. |
| Modp.AssignOne | bOPRFlib/OT/Base/Math/modp.cpp:81-92 | assignOne represents 1 in both representations. |
| Modp.IsZero | bOPRFlib/OT/Base/Math/modp.cpp:64-71 | isZero holds exactly for the stored value 0. |
| Modp.Rep.SumMeaning | bOPRFlib/OT/Base/Math/modp.cpp:27-34 | A reduced sum of stored numbers stands for the sum of what they stand for. |
| Modp.Rep.DifferenceMeaning | bOPRFlib/OT/Base/Math/modp.cpp:36-41 | The same for differences. |
| Modp.Rep.ProductMeaning | bOPRFlib/OT/Base/Math/modp.cpp:186-213 | A Montgomery product of stored numbers stands for the product. |
| Modp.Rep.CancelRadix | bOPRFlib/OT/Base/Math/modp.cpp:166 | Modulo an odd p the factor 2^(64t) can be cancelled, so a stored number stands for one residue only. |
| MiraclAdd.Add | thirdparty/linux/miracl/miracl/source/mrarth0.c:263-275 | add: z = x + y exactly, for every length, sign pair and aliasing, or the overflow error exactly when nib words do not hold it; other operands keep value and sign; nothing happens with an error pending. |
| MiraclAdd.Subtract | thirdparty/linux/miracl/miracl/source/mrarth0.c:277-289 | subtract: the same for x - y. |
| MiraclAdd.Select | thirdparty/linux/miracl/miracl/source/mrarth0.c:200-261 | mr_select: x + d y through the four sign cases, signs restored. |
| MiraclAdd.Padd | thirdparty/linux/miracl/miracl/source/mrarth0.c:42-138 | mr_padd: the sum of magnitudes with its exact length, in full-width and small-base mode, aliased or not, or the overflow error. |
| MiraclAdd.Psub | thirdparty/linux/miracl/miracl/source/mrarth0.c:140-198 | mr_psub: the difference, or the error exactly when it would be negative. |
| MiraclAdd.Miracl.AddColumn | thirdparty/linux/miracl/miracl/source/mrarth0.c:76-89 | The full-width carry recovered by comparison, keeping the old carry on equality, is the true carry; likewise in small-base mode. |
| MiraclAdd.Miracl.SubColumn | thirdparty/linux/miracl/miracl/source/mrarth0.c:165-195 | The same for the borrow. |
| MiraclAdd.KeepOnEqual | thirdparty/linux/miracl/miracl/source/mrarth0.c:79-80 | When the wrapped sum equals a digit the carry may have been 0 or 1, so it must be kept. |
| MiraclAdd.OverflowExact | thirdparty/linux/miracl/miracl/source/mrarth0.c:71-98 | The overflow test fires exactly when the sum does not fit nib digits. |
| MiraclAdd.Compare | thirdparty/linux/miracl/miracl/source/mrcore.c:1757-1779 | mr_compare on magnitudes gives the order of the numbers. |
| MiraclAdd.LeadingZeros | thirdparty/linux/miracl/miracl/source/mrcore.c:1497-1507 | mr_lzero trims to the exact length. |
| MiraclAdd.Copy | thirdparty/linux/miracl/miracl/source/mrcore.c:1644-1673 | copy reproduces words, length and sign. |
| MpscQueue.EveryRun | bOPRFlib/Common/mpsc_queue.h:56-83 | In every interleaving of any number of producers with one consumer: the dequeued values are a prefix of the head-exchange order, no enabled step touches a freed node, and dequeue finds nothing only when nothing is left or the next producer still owes its link. |
| MpscQueue.AlwaysSafe | bOPRFlib/Common/mpsc_queue.h:65-81 | In a chained state no producer can store into a node that dequeue has deleted, and no node is deleted twice. |
| MpscQueue.StepKeeps | bOPRFlib/Common/mpsc_queue.h:56-83 | Every atomic step of every thread keeps the chain from tail to head, with each missing link owed by one producer. |
| MpscQueue.Queue.Enqueue | bOPRFlib/Common/mpsc_queue.h:56-66 | enqueue appends its value to the exchange order and leaves its node linked. |
| MpscQueue.Queue.Dequeue | bOPRFlib/Common/mpsc_queue.h:68-83 | dequeue yields the next value in exchange order and frees the old tail, or false exactly when the next link is missing. |
| MpscQueue.Queue.Destroy | bOPRFlib/Common/mpsc_queue.h:48-54 | With no enqueue under way the destructor yields the remaining values in order and frees every node exactly once. |
| Strands.EveryRun | bOPRFlib/Network/BtIOService.cpp:97-372 | For every interleaving of posts, completions and strand callbacks: the k-th receive gets the k-th message, of the size it was asked for; the operation at the front of the receive queue is the next one asked for; a receive fails only on a message of another size; a queue is non-empty exactly when an operation is in flight or awaits its pop; mOutstandingSendData is the unwritten queued size; a close is fulfilled only after every operation asked for before it. |
| Strands.Delivered | bOPRFlib/Network/BtIOService.cpp:97-372 | Progress: where nothing but a new call can happen, either the next message has another size than its receive expects, and that receive has failed, or as many messages are delivered as were both sent and asked for, in order; so matched calls are delivered completely, as the FIFO channels of the two-party theorems have it. |
| Strands.StepKeeps | bOPRFlib/Network/BtIOService.cpp:293-372 | Every step keeps the books of both queues and of the byte stream. |
| Strands.ServeKeeps | bOPRFlib/Network/BtIOService.cpp:97-208 | Every step keeps the tie between the receives asked for, those still queued, and the messages delivered. |
| Strands.FirstBody | bOPRFlib/Network/BtIOService.cpp:167-203 | A header and as many bytes as it says are the first message of the stream, and what follows are the frames of the others. |
| Strands.FirstHeader | bOPRFlib/Network/BtIOService.cpp:107-117 | The first four bytes of a stream of frames are the length of its first message. |
| Strands.HeaderReadsBack | bOPRFlib/Network/BtChannel.cpp:41-42 | A length below 2^32 survives the 4-byte header. |
| Strands.LowByteFirst | bOPRFlib/Network/BtChannel.cpp:41-42 | The header's bytes count 1, 256, 2^16 and 2^24. |
| Strands.UnsentStep | bOPRFlib/Network/BtIOService.cpp:220-275 | What each sender step does to the bytes still to be written: a post adds one frame, a write takes a prefix, nothing else changes them. |
| Strands.SendSideKeeps | bOPRFlib/Network/BtIOService.cpp:331-364 | The sender strand's queue, flight and counter stay consistent under each of its steps. |
| Strands.RecvSideKeeps | bOPRFlib/Network/BtIOService.cpp:311-329 | The same for the receive strand. |
| Aes.DecryptEncrypt | thirdparty/linux/miracl/miracl/source/mraes.c:652-814 | Decryption under the reversed, inversely mixed key schedule undoes encryption, for any number of rounds and any round keys (sections 5.1 and 5.3.5 of FIPS 197). |
| Fips197.CipherIs | thirdparty/linux/miracl/miracl/source/mraes.c:652-732 | For any number of rounds the cipher runs through states given byte by byte as in section 5.1 of FIPS 197: the first round key added; rows moved, substituted, multiplied by the matrix of 2, 3, 1, 1 and the round key added; and without the matrix in the last round. |
| Fips197.UnpackAt | thirdparty/linux/miracl/miracl/source/mraes.c:727-731 | And the state goes back into it the same way. |
| Fips197.PackAt | thirdparty/linux/miracl/miracl/source/mraes.c:657-661 | The buffer fills the state column by column. |
| Aes.DecAfterIs | thirdparty/linux/miracl/miracl/source/mraes.c:749-788 | After i rounds decryption stands where encryption stood, substituted, nr - 1 - i rounds in. |
| Aes.EncRoundIs | thirdparty/linux/miracl/miracl/source/mraes.c:667-706 | The table look-ups of an encryption round are SubBytes, ShiftRows, MixColumns and AddRoundKey. |
| Aes.DecRoundIs | thirdparty/linux/miracl/miracl/source/mraes.c:749-788 | The look-ups of a decryption round are the inverse substitution, shift and mixing, and the round key. |
| Aes.InvMixMix | thirdparty/linux/miracl/miracl/source/mraes.c:560-575 | InvMixCol undoes the mixing of ftable. |
| Aes.InvMixLinear | thirdparty/linux/miracl/miracl/source/mraes.c:560-575 | InvMixCol is linear, which is why mixed round keys work. |
| Aes.InvMixColIs | thirdparty/linux/miracl/miracl/source/mraes.c:552-575 | The four rotated dot products of InvMixCol are the rows of the inverse matrix. |
| AesSbox.SubInverse | thirdparty/linux/miracl/miracl/source/mraes.c:541-550 | The table rbsub undoes the table fbsub on all 256 bytes. |
| AesAffine.SubIsAffine | thirdparty/linux/miracl/miracl/source/mraes.c:105-138 | On every byte fbsub is the affine map of section 5.1.1 of FIPS 197 of the inverse in GF(2^8), 0 for 0. |
| AesLog.TableMulIsBmul | thirdparty/linux/miracl/miracl/source/mraes.c:535-539 | The look-ups in the tables of logarithms and powers multiply in GF(2^8) modulo x^8 + x^4 + x^3 + x + 1, for all pairs of bytes. |
| AesLog.PowersMultiply | thirdparty/linux/miracl/miracl/source/mraes.c:537 | The product of the i-th and the j-th power of 3 is entry (i + j) % 255 of ptab. |
| AesLog.NextPower | thirdparty/linux/miracl/miracl/source/mraes.c:69-85 | Each entry of ptab is 3 times the one before it. |
| AesLog.PowerOfLog | thirdparty/linux/miracl/miracl/source/mraes.c:69-103 | ptab undoes ltab on every byte but 0. |
| AesLog.TimesThree | thirdparty/linux/miracl/miracl/source/mraes.c:535-539 | Multiplying by 3 y is multiplying by y and then by 3. |
| AesModes.StepUndone | thirdparty/linux/miracl/miracl/source/mraes.c:816-950 | In every supported mode aes_decrypt gives back the buffer aes_encrypt changed, with the same register and return value (sections 6.2 and 6.3 of NIST SP 800-38A for CBC and CFB). |
| AesModes.StreamUndone | thirdparty/linux/miracl/miracl/source/mraes.c:816-950 | The same over any sequence of buffers: both registers end equal. |
| Feedback.CbcChain | thirdparty/linux/miracl/miracl/source/mraes.c:830-834 | Over a stream, each CBC block is the cipher of the buffer plus the block before, the first plus the vector (section 6.2 of NIST SP 800-38A). |
| Feedback.CfbChain | thirdparty/linux/miracl/miracl/source/mraes.c:836-849 | Each CFB byte is the buffer's plus that of the cipher of the last 16 bytes of vector and ciphertext so far (section 6.3). |
| Feedback.OfbChain | thirdparty/linux/miracl/miracl/source/mraes.c:851-860 | Each OFB byte is the buffer's plus that of the cipher applied i + 1 times to the vector (section 6.4). |
| Feedback.PcfbStep | thirdparty/linux/miracl/miracl/source/mraes.c:862-874 | PCFB as CFB, but what enters the register has the last cipher bytes added once more. |
| Feedback.FellOffPlain | thirdparty/linux/miracl/miracl/source/mraes.c:840 | The value returned ends with the last byte that left the register, after what the bytes before it give. |
| Feedback.FellOffNegative | thirdparty/linux/miracl/miracl/source/mraes.c:840 | A byte from 128 on is sign-extended: it sets all bits above it, and the bytes before it are lost. |
| Feedback.RestKept | thirdparty/linux/miracl/miracl/source/mraes.c:816-880 | A call leaves the bytes behind those it works on as they are. |
| Feedback.ModeSizes | thirdparty/linux/miracl/miracl/source/mraes.c:825-865 | Thirteen modes exist, for 16 bytes (ECB, CBC), 1, 2 or 4 (CFB, PCFB) and 1 to 16 (OFB). |
| AesModes.AesContext.Init | thirdparty/linux/miracl/miracl/source/mraes.c:596-650 | aes_init: false exactly on an unsupported key length; else the expanded key, its reversed, inversely mixed schedule, and the register with the initial vector, or clear where there is none or the mode is ECB. |
| AesModes.AesContext.ExpandKey | thirdparty/linux/miracl/miracl/source/mraes.c:616-637 | The expansion loop computes the key words for 4, 6 and 8 word keys. |
| AesModes.BlockWord | thirdparty/linux/miracl/miracl/source/mraes.c:621-636 | Word i of block k of the expanded key, in each of the three cases. |
| Fips197.ScheduleByte | thirdparty/linux/miracl/miracl/source/mraes.c:621-637 | Section 5.2 of FIPS 197, byte by byte for every derived word: byte r of word p is that of word p - nk plus that of word p - 1; rotated, substituted and with x^(p/nk - 1) added for p = 0 mod nk; substituted for p = 4 mod nk when nk > 6. |
| Fips197.KeyBytes | thirdparty/linux/miracl/miracl/source/mraes.c:616-620 | Byte r of word i of the key is byte 4 i + r of the key array. |
| Fips197.AppendixA1 | thirdparty/linux/miracl/miracl/source/mraes.c:621-637 | The first word derived from the key of appendix A.1 is a0fafe17. |
| AesModes.AesContext.ReverseKey | thirdparty/linux/miracl/miracl/source/mraes.c:641-647 | The decryption schedule is the encryption schedule backwards, inversely mixed but for its ends. |
| AesModes.AesContext.EcbEncrypt | thirdparty/linux/miracl/miracl/source/mraes.c:652-732 | Encrypts 16 bytes of the buffer in place; the rest is untouched. |
| AesModes.AesContext.EcbDecrypt | thirdparty/linux/miracl/miracl/source/mraes.c:734-814 | Decrypts 16 bytes of the buffer in place. |
| AesModes.AesContext.Encrypt | thirdparty/linux/miracl/miracl/source/mraes.c:816-880 | aes_encrypt: buffer, register and return value in every mode. |
| AesModes.AesContext.Decrypt | thirdparty/linux/miracl/miracl/source/mraes.c:882-950 | aes_decrypt: the same. |
| AesModes.PackUnpack | thirdparty/linux/miracl/miracl/source/mraes.c:508-519 | Packing the unpacked bytes gives the words back. |

## Left out

- The seeded PRNG constructor, which leaves mBlockIdx unset; the generators of the OT extensions are seeded with SetSeed, which is modelled.
- What std::shuffle and the generators draw: permutations, dummy rows, exponents and choice bits are parameters, so all theorems hold for any of them.
- `getBinOverflowProb` and the factor 1.2: the estimate is an arbitrary function that is monotone at the threshold, the bin count a parameter common to both parties; no floating point is modelled.
- Processes.Confluent: takes a channel as a queue of whole messages; Strands.EveryRun and Strands.Delivered prove that of one direction of a socket, without composing the two models step by step.
- Session.EverySessionCompletes: covers sessions in which init runs the base OTs, because the sender sets mSSOtChoice only then, and exceptions over sizes only; EndToEnd.ChecksPass and Parties.PairsDiffer are about the contents that check compares.
- EndToEnd.EverySessionIntersects: leaves out sessions in which a simple-hash bin overflows, where the sender throws before it sends a mask; PsiSender.PsiSender.SendInput states that case.
- SquareRoot.SqrRootMod: asks for the inputs on which the code returns, because a method here must terminate; ShanksEnd.ReturnsExactly proves that there are no others.
- SquareRoot.FindNonResidue: takes the random generator as any function with a non-residue among its values; that such a value comes up is not proved.
- PsiReceiver.PsiReceiver.SendInput: finds the messages it receives in an inbox filled beforehand; that this loses nothing is what the theorems on schedules show.
- PsiSender.PsiSender.SendInput: counts slots without the 32-bit limit of idxPermuteDone.
- Params.MaskSizeRange: takes the product of the set sizes as a 64-bit number and its logarithm as exact.
- Limits of the machine integers that count items, bins and messages, except where a row above names one.
- A second sendInput on the same objects: mIntersection is not cleared between calls.
- Privacy, obliviousness, randomness quality and the probability of a clash.
- SHA-1, the AES-NI instructions, elliptic-curve arithmetic, and the mpz and mpn routines beyond the limb loops in Limbs: taken by their meaning.
- MpscQueue.EveryRun: assumes sequentially consistent memory, not the acquire and release orders of the code.
- MpscQueue.Queue.Enqueue: runs undisturbed; the interleavings are the subject of the step machine.
- Strands.EveryRun: leaves out I/O errors and messages of no bytes or of 2^32 and more, on which the code throws or truncates.
- Several strands on one socket service and the worker threads behind them, the resolver, acceptor and endpoint names.
- NaorPinkasThreads.BaseOtsCorrect: treats thread creation and joining as steps without failure.
- The tables ftable and rtable are modelled by the formulas they tabulate; fbsub, rbsub, ptab and ltab are modelled entry by entry.
- MiraclAdd.Add: asks for operands with equal room for words, as mirvar allocates them, and leaves out the MR_FLASH number type and the call-trace macros.
- Modp.Mul: models the plain product by multiplication and remainder, not by the loops of mpn_mul_n and mpn_tdiv_qr.
- `Inv` of modp, gfmul128 and gfred128, nroot, wake, PvwBaseOT, DMC, BitVector beyond bit access, logging, timers and streams.
