# Verified core of the Terminos node, wallet and miner

This project models, in Dafny, the parts of the Terminos blockchain whose correctness
cannot be settled by examples, and proves what they keep over every input and every run:

* the bech32 address stack: checksum, bit regrouping, printer and parser, and addresses
  with integrated data (`BitOps`, `Bech32Checksum`, `ConvertBits`, `Bech32Text`,
  `Bech32Errors`, `Bech32Vector`, `Address`);
* the energy ledger of time-locked freeze records (`Energy`);
* the miner's in-place work buffer against the header the node rebuilds (`Miner`) and the
  block header's binary form (`BlockHeader`);
* the wallet's search for a common block after a chain reorganisation (`Resync`);
* the asset ledger of a running contract (`ContractLedger`);
* the ordered, bounded scheduler of futures (`Scheduler`);
* the reader and writer every binary format is built on (`Codec`, `Unicode`) and the recursive data
  format (`DataFormat`, `DataLimits`, `DataCanonical`, `DataProgram`);
* the Merkle builder, the keyed queue and the difficulty target (`Merkle`, `Queue`,
  `Extraction`, `Difficulty`).

Code that mutates objects or runs loops is modelled by classes and methods, each proved to
compute a specification function; the theorems are about those functions. Where a
property one would expect does not hold of the code, a lemma shows a concrete case and
another proves exactly when it does hold:

* `unfreeze_tos` edits the partly spent record by an index that the removals before it have
  shifted. `Energy.MatchesExactlyWhenClean` gives the exact requests for which the effect is
  the intended one, `Energy.UnfreezeSoundExactly` the exact requests after which the totals
  are still right, and `Energy.LockedRecordPays` is a ledger built by three freezes on which
  a still locked record is charged.
* The resync search asks for recorded heights strictly below a bound and then lowers that
  bound once more, so it skips neighbours. `Resync.FindsBestExactlyWhen` and
  `Resync.LandsOnBestExactlyWhen` give the exact conditions under which the greatest agreeing
  height is found, `Resync.BestIsMissed` a whole call that deletes it.
* Address texts are not canonical: `Address.TrailingByteExample` and
  `Address.RepeatedKeyExample` are two texts each of one address, and
  `Address.PrintedExactlyWhenTight` says which accepted texts are ones that `as_string` prints.
* Merkle roots of lists of different lengths may coincide without any hash collision, as in
  `Merkle.ThreeListsOneRoot`; `Merkle.SameRootExactly` says, for any two lists, when they do.
* A caller of the queue's `extract_if` that stops early may leave the queue inconsistent, as in
  `Queue.StopAfterOne`; `Queue.Queue.ExtractIf` and `Extraction.DecidedByCounts` say when,
  from the contents, the predicate and the number taken, and `Extraction.OrderDecides` proves
  that in the one remaining case it depends on the iteration order of the hash map.

The results to read first are `Bech32Checksum.ChecksumIsUnique` and `BurstIsDetected`,
`ConvertBits.Run` and `NarrowThenWiden`, `Bech32Text.EncodeThenDecode`,
`Address.PrintedExactlyWhenTight` and `TypoIsRejected`, `Energy.MatchesExactlyWhenClean` and
`RunSoundExactly`, `Miner.MinedHeaderIsTheBuffer`, `BlockHeader.ReadsExactlyWhatIsWritten`,
`Resync.FindsBestExactlyWhen`, `ContractLedger.Conservation`, `Scheduler.NoFutureIsMisused`
and `OrderedAndBounded`, `DataCanonical.ReadsExactlyWhatIsWritten`, `Merkle.SameRootExactly`,
`Queue.Queue.ExtractIf` and `Difficulty.MetExactlyUpToOwn`.

The comment on the blob value promises up to 65535 bytes; the reader refuses more than
1024 (common/src/serializer/defaults.rs:298), and the model follows the reader. The comment on
`freeze_tos_for_energy` promises the amount frozen; the function returns the energy gained. Unsigned
arithmetic wraps, as it does in release builds. Hash functions are parameters: every
theorem that mentions one holds for all hash functions.

## Model

| member | source | states |
|---|---|---|
| `Bech32Checksum.FoldGenerators` | common/src/crypto/bech32.rs:49-53 | the inner loop folds in exactly the generators selected by the top five bits |
| `Bech32Checksum.Polymod` | common/src/crypto/bech32.rs:44-56 | the loop is the step-by-step absorption of the values, starting from 1 |
| `Bech32Checksum.HrpExpand` | common/src/crypto/bech32.rs:59-70 | the prefix becomes its high bits, a zero and its low bits |
| `Bech32Checksum.VerifyChecksum` | common/src/crypto/bech32.rs:73-77 | true exactly for words whose final state is 1 |
| `Bech32Checksum.CreateChecksum` | common/src/crypto/bech32.rs:80-93 | the six groups of the specification's checksum |
| `Bech32Checksum.ShiftLinear` | common/src/crypto/bech32.rs:44-57 | the zero-input step is linear over XOR |
| `Bech32Checksum.ShiftInjective` | common/src/crypto/bech32.rs:9-57 | the zero-input step is injective on 30-bit states |
| `Bech32Checksum.AbsorbInjective` | common/src/crypto/bech32.rs:44-57 | different states never meet again, whatever is absorbed |
| `Bech32Checksum.WindowDifference` | common/src/crypto/bech32.rs:44-57 | two windows of at most six symbols leave states whose XOR packs the symbols' differences |
| `Bech32Checksum.ChecksumIsAccepted` | common/src/crypto/bech32.rs:73-93 | for every prefix and data the created checksum is accepted |
| `Bech32Checksum.ChecksumIsUnique` | common/src/crypto/bech32.rs:73-93 | six symbols complete the data to an accepted word if and only if they are the created checksum |
| `Bech32Checksum.BurstIsDetected` | common/src/crypto/bech32.rs:44-77 | any change within six consecutive symbols of an accepted word, at any position and length, is refused |
| `Bech32Checksum.SingleChangeIsDetected` | common/src/crypto/bech32.rs:44-77 | changing any one symbol of an accepted word is refused |
| `Bech32Checksum.LettersAreCovered` | common/src/crypto/bech32.rs:59-77 | prefixes with the same high bits whose low bits differ within six places accept no common word |
| `Bech32Checksum.CasesAreCovered` | common/src/crypto/bech32.rs:59-77 | prefixes with the same low bits whose high bits differ within six places accept no common word |
| `Bech32Checksum.PrefixIsCovered` | common/src/crypto/bech32.rs:59-77 | two different prefixes of the same length, at most six lowercase letters, accept no common word |
| `Bech32Vector.NextIsStep` | common/src/crypto/bech32.rs:44-56 | the step evaluated on bits, generators included, is the step |
| `Bech32Vector.KnownString` | common/src/crypto/bech32.rs:130-201 | the BIP 173 test vector for the prefix "a" without data: it is printed as "a:2uel5l", which is accepted |
| `ConvertBits.Drain` | common/src/crypto/bech32.rs:110-113 | the inner loop cuts the pending bits into groups and keeps the rest |
| `ConvertBits.Feed` | common/src/crypto/bech32.rs:101-114 | one value extends the bit string read so far; no pending bit is lost in the 16-bit accumulator |
| `ConvertBits.Run` | common/src/crypto/bech32.rs:96-127 | the whole loop computes the regrouping of the unbounded bit string, errors included |
| `ConvertBits.Finish` | common/src/crypto/bech32.rs:116-126 | padding, or the two padding errors, as the specification says |
| `ConvertBits.WidenThenNarrow` | common/src/crypto/bech32.rs:96-127 | regrouping to a narrower width with padding and back without is the identity |
| `ConvertBits.NarrowThenWiden` | common/src/crypto/bech32.rs:96-127 | every accepted narrow string is the padded regrouping of its result |
| `ConvertBits.BytesSurvive` | common/src/crypto/bech32.rs:96-127 | every byte string survives 8 to 5 to 8 bits, through symbols below 32 |
| `Bech32Text.CheckHrp` | common/src/crypto/bech32.rs:135-139 | finds the first byte outside 33 to 126, in any Unicode prefix |
| `Bech32Text.RunPrint` | common/src/crypto/bech32.rs:154-160 | the printing loop maps symbols to the character set, or fails as specified |
| `Bech32Text.RunParse` | common/src/crypto/bech32.rs:184-190 | the loop over byte positions looks up characters by number, or fails as specified; the missing-character error never occurs |
| `Bech32Text.RunEncode` | common/src/crypto/bech32.rs:130-164 | `encode` computes the specification for every Unicode prefix, errors included |
| `Bech32Text.RunSplit` | common/src/crypto/bech32.rs:167-190 | case, separator, prefix and symbols of any Unicode string, errors included |
| `Bech32Text.RunDecode` | common/src/crypto/bech32.rs:167-201 | `decode` computes the specification for every Unicode string, errors included, and refuses every one that is not ASCII |
| `Bech32Text.OnlyPlainIsAccepted` | common/src/crypto/bech32.rs:167-201 | whatever the Unicode case tables say, only ASCII strings are accepted, and they by the ASCII specification |
| `Bech32Text.DecodePrinted` | common/src/crypto/bech32.rs:167-201 | a printed word is decoded or refused by its checksum alone |
| `Bech32Text.EncodeThenDecode` | common/src/crypto/bech32.rs:130-201 | for every valid prefix, even one with a separator in it, decoding returns the lowercased prefix and the data |
| `Bech32Text.DecodeThenEncode` | common/src/crypto/bech32.rs:130-201 | an accepted string is what `encode` prints for its parts if and only if it has no uppercase letter |
| `Bech32Text.DecodesExactly` | common/src/crypto/bech32.rs:167-201 | a string is accepted with a prefix and data if and only if it is the printable prefix, the separator and the characters of data and checksum, in one case |
| `Bech32Text.EncodesExactly` | common/src/crypto/bech32.rs:130-164 | encoding succeeds if and only if the prefix is non-empty, printable and in one case and all data are symbols |
| `Bech32Text.FirstBadSymbol` | common/src/crypto/bech32.rs:154-160 | the first value that is no symbol is the one reported |
| `Bech32Text.MixedExactly` | common/src/crypto/bech32.rs:141-143 | mixed case means a capital and a small ASCII letter |
| `Bech32Text.LowerExactly` | common/src/crypto/bech32.rs:145-145 | lowercasing maps each capital to the small letter at its place and leaves the rest |
| `Bech32Text.GlyphsAreTheCharset` | common/src/crypto/bech32.rs:5-7 | the glyphs are the characters of the set in its order |
| `Bech32Text.EncodedBegins` | common/src/crypto/bech32.rs:145-152 | an encoded string begins with the lowercased prefix and the separator |
| `Bech32Errors.NearStringsCoincide` | common/src/crypto/bech32.rs:167-201 | two accepted strings with the same prefix that differ only within six consecutive characters are equal |
| `Address.Compress` | common/src/crypto/address.rs:116-122 | the buffer is the key and the type, maps in some order |
| `Address.RunAsText` | common/src/crypto/address.rs:143-153 | regrouping and encoding the bytes, errors included |
| `Address.ReadKindFrom` | common/src/crypto/address.rs:232-248 | tag, data and the 1024-byte limit, as specified |
| `Address.AsString` | common/src/crypto/address.rs:143-153 | printing succeeds, and parsing the text returns the address if and only if its data fits the format and takes at most 1024 bytes |
| `Address.FromString` | common/src/crypto/address.rs:156-177 | `from_string` computes the specification for every Unicode string, errors included |
| `Address.TextIsTransparent` | common/src/crypto/address.rs:126-177 | parsing a printed text is decompressing the bytes that were printed, on both networks |
| `Address.ReadBackExactlyWhenIntegrable` | common/src/crypto/address.rs:116-177 | the address comes back if and only if it is integrable, whatever the map order and whatever bytes follow |
| `Address.AddressRoundTrip` | common/src/crypto/address.rs:116-177 | the same for exactly the address's own bytes |
| `Address.NearAddressesCoincide` | common/src/crypto/address.rs:156-177 | two accepted texts for one network never differ within only six consecutive characters |
| `Address.TypoIsRejected` | common/src/crypto/address.rs:156-177 | replacing any one character of an accepted string, prefix and separator included, by any other Unicode character is refused |
| `Address.TextBegins` | common/src/crypto/address.rs:143-153 | every printed text begins with "tos:" on the main and "tst:" on the test network |
| `Address.OtherNetworkIsRejected` | common/src/crypto/address.rs:156-177 | an accepted text with its prefix replaced by the other network's is refused |
| `Address.AcceptedIsPrinted` | common/src/crypto/address.rs:143-177 | every accepted text is what is printed for the bytes behind it |
| `Address.AsTextInjective` | common/src/crypto/address.rs:143-153 | different bytes are printed differently, and the bytes can be told from the text |
| `Address.PrintedExactlyWhenTight` | common/src/crypto/address.rs:116-177 | an accepted text is one that `as_string` prints for its address if and only if no byte follows the address and no map level repeats a key |
| `Address.TrailingByteExample` | common/src/crypto/address.rs:126-132 | two different texts of the address with the zero key, one with a zero byte behind it |
| `Address.RepeatedKeyExample` | common/src/api/data.rs:206-214 | two different texts of an address with integrated data, one with a map entry written twice |
| `Energy.EnergyResource.constructor` | common/src/account/energy.rs:174-182 | a new ledger is empty and sound |
| `Energy.EnergyResource.ConsumeEnergy` | common/src/account/energy.rs:185-201 | energy is consumed exactly when available, and used energy then stays within the total |
| `Energy.EnergyResource.FreezeTosForEnergy` | common/src/account/energy.rs:206-221 | the whole new ledger, and the energy gained |
| `Energy.EnergyResource.ResetUsedEnergy` | common/src/account/energy.rs:324-327 | only the used energy and the update height change |
| `Energy.PlanUnfreeze` | common/src/account/energy.rs:240-268 | the planning loop computes the plan of the specification |
| `Energy.EnergyResource.RemoveRecords` | common/src/account/energy.rs:274-277 | removes the marked indices from the back |
| `Energy.EnergyResource.EditRecords` | common/src/account/energy.rs:279-287 | edits by index into the list as it is then; an index past the end is the panic |
| `Energy.EnergyResource.Commit` | common/src/account/energy.rs:270-294 | both passes and the totals after a successful plan |
| `Energy.EnergyResource.UnfreezeTos` | common/src/account/energy.rs:226-295 | the whole new ledger; every error leaves it unchanged |
| `Energy.EnergyResource.GetUnlockableTos` | common/src/account/energy.rs:305-310 | the sum of the unlocked records, modulo 2^64, exact when the frozen coins fit |
| `Energy.ScanShape` | common/src/account/energy.rs:244-268 | only unlocked records are selected, in list order, at most one in part and after all removed ones |
| `Energy.ScanRemaining` | common/src/account/energy.rs:244-268 | planning leaves exactly what the unlocked records cannot cover |
| `Energy.RemoveAllIsWithout` | common/src/account/energy.rs:274-277 | removal from the back removes exactly the marked records |
| `Energy.SpendFollowsPlan` | common/src/account/energy.rs:240-287 | the plan describes the same spending as one pass, oldest unlocked first |
| `Energy.TwoPasses` | common/src/account/energy.rs:270-295 | the outcome of the two passes in terms of the records that survive the first |
| `Energy.MisplacedEdit` | common/src/account/energy.rs:274-287 | with k removals the edit lands k records further on, and panics exactly when there is none |
| `Energy.PlanIsClean` | common/src/account/energy.rs:244-268 | a plan edits nothing, or removes nothing, exactly when the request ends at a record boundary, or inside the first unlocked record |
| `Energy.MatchesExactlyWhenClean` | common/src/account/energy.rs:226-295 | the two passes have the one-pass effect if and only if the request is clean |
| `Energy.SpendTotals` | common/src/account/energy.rs:244-294 | the one-pass effect takes exactly the request from the coins and its energy from the energy, keeping every record whole |
| `Energy.AcceptedExactly` | common/src/account/energy.rs:226-310 | on a sound ledger planning succeeds if and only if the whole-coin request is positive and unlocked; a refusal changes nothing |
| `Energy.CleanUnfreezeIsSound` | common/src/account/energy.rs:226-295 | a clean request succeeds and keeps the ledger sound |
| `Energy.UncleanTotals` | common/src/account/energy.rs:274-294 | after a misplaced edit the coin total is right if and only if the wrong record holds enough, the energy total if and only if the durations agree |
| `Energy.PanicLeaves` | common/src/account/energy.rs:274-287 | a panic leaves the marked records removed and everything else as it was |
| `Energy.UnfreezeSoundExactly` | common/src/account/energy.rs:226-295 | on a sound ledger every unfreeze, refused, successful or panicking, leaves the ledger sound if and only if the request is refused, clean, or lands on a record that can pay and was frozen as long, or panics having removed only empty records |
| `Energy.FreezeSoundExactly` | common/src/account/energy.rs:206-221 | a freeze keeps the ledger sound if and only if its duration is accepted and both totals still fit a `u64` |
| `Energy.FrozenUntil` | common/src/account/energy.rs:98-119 | frozen coins, rounded down to whole ones, count as unlockable exactly from the freeze height plus the duration on |
| `Energy.NoEarlyUnfreeze` | common/src/account/energy.rs:206-272 | until then an unfreeze goes ahead exactly if it would have without the freeze |
| `Energy.WholeIsWhole` | common/src/account/energy.rs:227-228 | requests are rounded down to whole coins |
| `Energy.RunKeepsTimes` | common/src/account/energy.rs:98-119 | in every run each record unlocks its duration after it was frozen |
| `Energy.UsedIsConsumed` | common/src/account/energy.rs:185-201 | in every run the used energy is what was consumed, while available, since the last reset |
| `Energy.LastUpdateIsTouched` | common/src/account/energy.rs:206-327 | in every run the update height is that of the last freeze, reset or successful unfreeze |
| `Energy.StepSoundExactly` | common/src/account/energy.rs:195-328 | a step keeps the ledger sound if and only if it is admissible |
| `Energy.ExampleIsReached` | common/src/account/energy.rs:206-221 | the ledger of the example is built from a new one by three freezes |
| `Energy.LockedRecordPays` | common/src/account/energy.rs:274-287 | on that ledger a request within what is unlocked charges a locked record, and soundness is lost |
| `Energy.RunSoundExactly` | common/src/account/energy.rs:195-328 | a run of freeze, consume, reset and unfreeze keeps totals equal to sums and every record whole throughout if and only if each step is admissible |
| `BlockHeader.ReadSetFrom` | common/src/block/header.rs:237-253 | the loop that fills an index set, refusing duplicates |
| `BlockHeader.ReadStartFrom` | common/src/block/header.rs:225-229 | version, height, timestamp, nonce and extra nonce, errors included |
| `BlockHeader.WriteStartTo` | common/src/block/header.rs:206-210 | appends the bytes before the tips |
| `BlockHeader.WriteHashesTo` | common/src/block/header.rs:211-219 | the writing loops append the hashes in order |
| `BlockHeader.ReadHeaderFrom` | common/src/block/header.rs:224-267 | `read` computes the specification, errors included |
| `BlockHeader.WriteHeaderTo` | common/src/block/header.rs:205-222 | `write` appends exactly the binary form |
| `BlockHeader.ReadEnds` | common/src/block/header.rs:224-283 | an accepted header takes exactly `size()` bytes |
| `BlockHeader.ReadsExactlyWhatIsWritten` | common/src/block/header.rs:204-283 | a header is read at a position if and only if its written form stands there and it is within the limits |
| `BlockHeader.RoundTripsExactlyWithinLimits` | common/src/block/header.rs:204-283 | the written form has `size()` bytes and comes back, whatever follows, if and only if there are at most 3 tips and 65535 transactions |
| `BlockHeader.AcceptedIsCanonical` | common/src/block/header.rs:204-267 | every accepted byte string is exactly what its header is written as |
| `BlockHeader.FieldLayout` | common/src/block/header.rs:205-222 | the place of every field in the binary form |
| `BlockHeader.HashesLayout` | common/src/block/header.rs:212-219 | hashes stand one behind the other, 32 bytes each |
| `Miner.CopyInto` | common/src/block/miner.rs:152-174 | eight bytes written over a part of the buffer, the rest unchanged |
| `Miner.Worker.SetWork` | common/src/block/miner.rs:128-149 | the buffer is the serialization of the new work |
| `Miner.Worker.IncreaseNonce` | common/src/block/miner.rs:152-162 | work and buffer take the step and stay coherent; without work an error |
| `Miner.Worker.SetTimestamp` | common/src/block/miner.rs:165-175 | work and buffer take the step and stay coherent; without work an error |
| `Miner.Worker.TakeWork` | common/src/block/miner.rs:123-125 | hands out the work and forgets it |
| `Miner.Worker.GetBlockHash` | common/src/block/miner.rs:203-208 | the hash is the block hash of every header the work belongs to, once the work is applied |
| `Miner.Worker.GetPowHash` | common/src/block/miner.rs:178-199 | the proof-of-work hash is taken of the work's serialization with the algorithm of the last job |
| `Miner.PatchIsRewrite` | common/src/block/miner.rs:152-174 | patching eight bytes equals serializing the stepped work anew |
| `Miner.BufferIsCoherent` | common/src/block/miner.rs:128-174 | after every run the patched buffer is the serialization of the work |
| `Miner.RunKeepsJob` | common/src/block/miner.rs:151-175 | a run keeps work hash, miner and extra nonce and shows the last timestamp set |
| `Miner.NonceCounts` | common/src/block/miner.rs:266-268 | the nonce counts the increments modulo 2^64 |
| `Miner.FitsExactly` | common/src/block/header.rs:77-192 | applying a work to a header reproduces the work's bytes if and only if it carries that header's work hash |
| `Miner.MinedHeaderIsTheBuffer` | common/src/block/header.rs:77-192 | after every run, the header rebuilt from the taken work serializes to the buffer, with the same block hash and an unchanged work hash |
| `Miner.TemplateRoundTrip` | common/src/block/miner.rs:226-234 | work made from a header belongs to it, and applied at once only resets the nonce |
| `Miner.WorkRoundTrip` | common/src/block/miner.rs:292-328 | a work is read back, zeros standing for a missing miner |
| `Miner.WorkIsCanonical` | common/src/block/miner.rs:309-328 | every 112 bytes are the form of the work they are read as |
| `Miner.NoWorkTwice` | common/src/block/miner.rs:152-174 | before the nonce comes full circle no two points of a job hash the same bytes |
| `Miner.SubmittedWorkIsAccepted` | common/src/block/miner.rs:292-328 | the buffer, sent, read and applied to the template, gives a header that serializes to the buffer |
| `Miner.WorkLayout` | common/src/block/miner.rs:292-303 | the place of every field in the 112 bytes |
| `Miner.WorkHashCovers` | common/src/block/header.rs:115-178 | two headers with the same work hash agree in version, height, tips and transactions, or a hash collision is returned |
| `Miner.BlockHashCovers` | common/src/block/header.rs:162-192 | two headers with the same block hash are equal, or a hash collision is returned |
| `Resync.HighestBelow` | wallet/src/storage/mod.rs:1624-1637 | the highest recorded height strictly below the bound, 0 if there is none |
| `Resync.WalletStorage.GetHighestBelow` | wallet/src/storage/mod.rs:1624-1637 | the scan computes it in any iteration order |
| `Resync.WalletStorage.DeleteChangesAbove` | wallet/src/storage/mod.rs:1586-1601 | exactly the changes above the height go; tells whether there were any |
| `Resync.WalletStorage.SearchBack` | wallet/src/network_handler.rs:813-849 | the search loop terminates and stops where the specification says |
| `Resync.WalletStorage.SearchAndClean` | wallet/src/network_handler.rs:813-873 | on success position and hash are the daemon's at the new height and no change above it remains; an error changes nothing |
| `Resync.WalletStorage.CleanAbove` | wallet/src/network_handler.rs:859-873 | the storage after the clean-up |
| `Resync.WalletStorage.LocateSyncTopoheightAndClean` | wallet/src/network_handler.rs:760-881 | the whole call computes the specification, early exits and errors included |
| `Resync.MatchAgrees` | wallet/src/network_handler.rs:813-849 | a match is a recorded change below the start that agrees with the daemon |
| `Resync.FindsBestExactlyWhen` | wallet/src/network_handler.rs:813-849 | the greatest agreeing change is found if and only if it lies below the start and an even number of recorded heights follows it without a gap |
| `Resync.MissedGoesBelow` | wallet/src/network_handler.rs:813-849 | a search that misses the greatest agreeing change goes on as if started there |
| `Resync.LandsOnBestExactlyWhen` | wallet/src/network_handler.rs:813-857 | the call lands on the greatest agreeing change if and only if the search finds it, or it is the pruning point and some lower height is recorded |
| `Resync.BestIsMissed` | wallet/src/network_handler.rs:760-881 | a whole call, with a consistent daemon, that returns to height 0 and deletes an agreeing change |
| `Resync.CleanUpHolds` | wallet/src/network_handler.rs:851-873 | after the clean-up no change above the new height remains, all up to it are kept, and position and hash are the daemon's |
| `Resync.RecordedHashIsDaemons` | wallet/src/network_handler.rs:851-873 | when the recorded hash at the new height is the daemon's, exactly |
| `Resync.SecondCallStays` | wallet/src/network_handler.rs:760-881 | a second call with the daemon unchanged stays at the same height if and only if that height is the tip, above the pruning point, zero, or above another recorded height |
| `Resync.OutcomeByPosition` | wallet/src/network_handler.rs:777-811 | what the whole call does, by whether the stored position is the tip, still on the chain, above it, or gone |
| `Resync.OutcomeWithoutTop` | wallet/src/network_handler.rs:768-811 | without a stored top hash the search starts from the stored height or 0; another network is an error |
| `Resync.OnlyCleanUpChanges` | wallet/src/network_handler.rs:760-881 | errors and early exits leave the storage unchanged |
| `ContractLedger.MarkUpdated` | common/src/versioned_type.rs:94-104 | a marked state is stored, keeps its topoheight, and is new if and only if it was |
| `ContractLedger.ChainState.GetBalanceFromCache` | common/src/contract/mod.rs:943-956 | a balance is fetched once and then served from the cache |
| `ContractLedger.ChainState.GetBalanceForAsset` | common/src/contract/mod.rs:1062-1074 | the answer and the whole new state |
| `ContractLedger.ChainState.Transfer` | common/src/contract/mod.rs:1076-1134 | the answer and the whole new state, refusals and errors included |
| `ContractLedger.ChainState.Burn` | common/src/contract/mod.rs:1136-1166 | the answer and the whole new state, refusals and errors included |
| `ContractLedger.ExecuteKeeps` | common/src/contract/mod.rs:1062-1166 | every call keeps balances, log and tracker in account |
| `ContractLedger.TransferAcceptedExactly` | common/src/contract/mod.rs:1076-1134 | a transfer is accepted if and only if the address is normal, of the same network, known or paid for, and a positive amount is covered; it then logs and takes exactly itself, and nothing otherwise |
| `ContractLedger.TransferFailsExactly` | common/src/contract/mod.rs:1076-1134 | when a transfer fails, and with which error |
| `ContractLedger.BurnAcceptedExactly` | common/src/contract/mod.rs:1136-1166 | a burn is accepted if and only if a positive amount is covered; it then logs and takes exactly itself |
| `ContractLedger.BalanceIsStartLessSpent` | common/src/contract/mod.rs:1062-1074 | at any point of a run the balance answered is the starting balance less what the log says left |
| `ContractLedger.RunKeeps` | common/src/contract/mod.rs:1062-1166 | so does every run |
| `ContractLedger.Conservation` | common/src/contract/mod.rs:1076-1166 | each asset's start equals its cached balance plus logged transfers and burns |
| `ContractLedger.TrackerIsExact` | common/src/contract/mod.rs:1123-1131 | per-destination totals equal the logged transfers and never overflowed |
| `ContractLedger.MarkedExactlyWhenSpent` | common/src/contract/mod.rs:943-1166 | from any cache, a balance is marked for storage if and only if it was already or has changed, its topoheight kept |
| `ContractLedger.CacheStaysTruthful` | common/src/contract/mod.rs:943-1166 | from any cache in which stored balances have their topoheight and are marked if they differ, every run ends in such a cache |
| `ContractLedger.MarkedExactlyWhenChanged` | common/src/contract/mod.rs:943-1166 | from an empty cache, a balance is marked if and only if it differs from the stored one |
| `Scheduler.Stream.PushBackFuture` | common/src/tokio/scheduler.rs:49-51 | a new slot at the back |
| `Scheduler.Stream.PushFrontFuture` | common/src/tokio/scheduler.rs:45-47 | a new slot at the front |
| `Scheduler.Stream.ChangeN` | common/src/tokio/scheduler.rs:79-91 | the limit changes by one, if there is one |
| `Scheduler.Stream.PollNextItem` | common/src/tokio/scheduler.rs:96-143 | one call computes the specification's step |
| `Scheduler.RunKeeps` | common/src/tokio/scheduler.rs:45-143 | every run keeps slots, scripts and history in agreement |
| `Scheduler.NoFutureIsMisused` | common/src/tokio/scheduler.rs:96-143 | no completed future is polled again; each is yielded at most once, with its own output, and exactly if it left the deque |
| `Scheduler.OnlyFirstSlotsPolled` | common/src/tokio/scheduler.rs:106-128 | a call polls only the first n slots, each unfinished one once and in order |
| `Scheduler.YieldsOnlyFromFront` | common/src/tokio/scheduler.rs:130-142 | an item is yielded exactly when the front is ready after polling, and it is its output |
| `Scheduler.EverySlotWithinTheLimitIsPolled` | common/src/tokio/scheduler.rs:96-142 | one call polls every slot before the limit, all without a limit, and touches no other |
| `Scheduler.EndsExactly` | common/src/tokio/scheduler.rs:97-103 | the stream ends exactly while nothing waits or the limit is 0 |
| `Scheduler.PushedFrontIsNext` | common/src/tokio/scheduler.rs:45-47 | a future pushed to the front is the next to be yielded, at its first poll if it is ready |
| `Scheduler.LimitMovesByOne` | common/src/tokio/scheduler.rs:79-91 | raising the limit lets one more slot be polled, lowering it takes that back |
| `Scheduler.LimitIsSet` | common/src/tokio/scheduler.rs:70-91 | a limit that is set counts at once; lowering a limit of 0 wraps and lifts it |
| `Scheduler.OrderedAndBounded` | common/src/tokio/scheduler.rs:49-143 | with pushes at the back and a constant limit, outputs come in push order and at most n futures are under way |
| `Codec.FromToBE` | common/src/serializer/reader.rs:129-143 | reading a big-endian integer undoes writing it |
| `Codec.ToFromBE` | common/src/serializer/writer.rs:31-46 | writing it undoes reading it |
| `Codec.FirstByteWeighsMost` | common/src/serializer/reader.rs:129-143 | integers are big-endian |
| `Unicode.Utf8Exactly` | common/src/serializer/reader.rs:145-151 | the text check accepts exactly the encodings of strings of characters |
| `Codec.Reader.ReadBytes` | common/src/serializer/reader.rs:81-96 | the cursor advances by what was read and never passes the end |
| `Codec.Reader.ReadU8` | common/src/serializer/reader.rs:120-127 | one byte, or `InvalidSize` at the end |
| `Codec.Reader.ReadInt` | common/src/serializer/reader.rs:129-143 | a big-endian integer of the given width |
| `Codec.Reader.ReadBool` | common/src/serializer/reader.rs:72-79 | 0 or 1, anything else is invalid |
| `Codec.Reader.ReadString` | common/src/serializer/reader.rs:145-156 | a length byte, that many bytes, and the UTF-8 check |
| `Codec.Writer.WriteString` | common/src/serializer/writer.rs:48-52 | the length byte modulo 256 and at most 255 bytes |
| `Codec.Writer.WriteBytes` | common/src/serializer/writer.rs:16-18 | appends the bytes |
| `Codec.Writer.WriteInt` | common/src/serializer/writer.rs:31-45 | appends the big-endian form |
| `DataProgram.ReadElementFrom` | common/src/api/data.rs:195-218 | reading ends on every input without passing the last byte and computes the specification |
| `DataProgram.ReadValueFrom` | common/src/api/data.rs:430-497 | kind and payload, errors included |
| `DataProgram.ReadArrayFrom` | common/src/api/data.rs:198-205 | the loop that reads the items in order |
| `DataProgram.ReadFieldsFrom` | common/src/api/data.rs:206-214 | the loop that fills a map, a repeated key overwriting |
| `DataProgram.ReadBlobFrom` | common/src/serializer/defaults.rs:295-308 | a blob of at most 1024 bytes |
| `DataProgram.WriteElementTo` | common/src/api/data.rs:220-242 | writes some layout of the element, whatever order its maps are visited in |
| `DataProgram.WriteValueTo` | common/src/api/data.rs:499-502 | kind and payload are appended |
| `DataProgram.WritePayloadTo` | common/src/api/data.rs:444-474 | the payload of each kind is appended |
| `DataProgram.WriteArrayTo` | common/src/api/data.rs:226-232 | writes well-formed layouts of the items, in order |
| `DataProgram.WriteFieldsTo` | common/src/api/data.rs:233-240 | writes every entry once, in an arbitrary order |
| `DataFormat.LayoutRoundTrip` | common/src/api/data.rs:191-242 | every layout within the limits is read back from where it stands |
| `DataFormat.RoundTripsExactlyWithinLimits` | common/src/api/data.rs:191-242 | a written layout is read back if and only if it is within the limits |
| `DataFormat.ReadIsWithinLimits` | common/src/api/data.rs:195-218 | whatever is read is within the limits |
| `DataFormat.ValueLayout` | common/src/api/data.rs:430-474 | the kind byte and payload of each of the nine kinds |
| `DataFormat.ElementLayout` | common/src/api/data.rs:220-242 | the tag and count of values, arrays and maps |
| `DataLimits.LastEntryWins` | common/src/api/data.rs:206-214 | of entries with the same key the last one read counts |
| `DataCanonical.LayoutStands` | common/src/api/data.rs:195-242 | the bytes of every accepted layout are exactly what is written for it |
| `DataCanonical.ReadsExactlyWhatIsWritten` | common/src/api/data.rs:191-242 | a layout is read at a position if and only if its written form stands there and it is within the limits, repeated keys or not |
| `DataFormat.SizeIsWritten` | common/src/api/data.rs:244-262 | `size()` is the number of bytes written, in every map order |
| `DataFormat.ElementRoundTrip` | common/src/api/data.rs:191-263 | an element within the limits is read back from any layout, consuming `size()` bytes |
| `DataLimits.ReadBackExactlyWhenFits` | common/src/api/data.rs:191-263 | an element in any map order is read back if and only if it has at most 255 items per level, 255-byte strings and 1024-byte blobs |
| `Merkle.BuildRow` | daemon/src/core/merkle.rs:61-71 | the inner loop computes the row of parents, a last single node paired with itself |
| `Merkle.SmallTrees` | daemon/src/core/merkle.rs:59-76 | the roots of two and three leaves in bytes: left before right, a missing right repeated |
| `Merkle.MerkleBuilder.Build` | daemon/src/core/merkle.rs:59-76 | the loop ends with the root and empties the builder; an empty builder panics |
| `Merkle.MerkleBuilder.Verify` | daemon/src/core/merkle.rs:79-81 | compares with the root and empties the builder |
| `Merkle.RootIsNode` | daemon/src/core/merkle.rs:59-76 | the root found row by row is the recursive one found from the top down |
| `Merkle.RootIsTree` | daemon/src/core/merkle.rs:59-76 | and the root of the complete tree over the filled-up row |
| `Merkle.RowAtSameRoot` | daemon/src/core/merkle.rs:60-73 | every inner row at every height, given as leaves, is shorter and has the same root |
| `Merkle.SameRootExactly` | daemon/src/core/merkle.rs:59-76 | any two lists, of whatever lengths, have the same root if they fill up to the same row at the lower of their heights, and only if they do or two different pairs have the same parent |
| `Merkle.AnyListsCollide` | daemon/src/core/merkle.rs:59-76 | two lists with the same root fill up to the same row, or give two different inputs with the same hash |
| `Merkle.EqualLengthsCollide` | daemon/src/core/merkle.rs:59-81 | two different lists of equal length with the same root give two different inputs with the same hash |
| `Merkle.RepeatedLastSameRoot` | daemon/src/core/merkle.rs:63-68 | repeating the last of an odd number of hashes keeps the root |
| `Merkle.ThreeListsOneRoot` | daemon/src/core/merkle.rs:59-76 | three lists of three different lengths with one root, whatever the hash function |
| `Queue.Queue.Push` | common/src/queue.rs:21-36 | appends the pair if and only if the key is new |
| `Queue.Queue.Pop` | common/src/queue.rs:39-45 | the oldest pair; the handle is always unwrapped |
| `Queue.Queue.RemoveOrderInternal` | common/src/queue.rs:52-55 | takes out the first handle with the key |
| `Queue.Queue.RemoveEntry` | common/src/queue.rs:58-64 | the pair of the key, the rest in order; the handle is always unwrapped |
| `Queue.Queue.Remove` | common/src/queue.rs:67-72 | the value of the key, the rest in order |
| `Queue.Queue.Get` | common/src/queue.rs:75-77 | lookup in the ordered map |
| `Queue.Queue.Peek` | common/src/queue.rs:90-93 | the value of the oldest pair |
| `Queue.Queue.PeekKey` | common/src/queue.rs:102-104 | the key of the oldest pair |
| `Queue.Queue.Clear` | common/src/queue.rs:117-120 | the empty map |
| `Queue.Queue.Visit` | common/src/queue.rs:138-148 | one entry is yielded or put back, without panic, keeping the account of all pairs |
| `Queue.Queue.Drain` | common/src/queue.rs:138-149 | the iterator, driven to its end or to the caller's last item, yields at most that many, keeps that account, and leaves exactly the unvisited entries out of the map |
| `Queue.Queue.ExtractIf` | common/src/queue.rs:134-150 | under any iteration order nothing panics, at most as many as wanted are taken, taken and remaining pairs together are the old ones, and a drained extraction keeps exactly the others in order; the queue stays consistent when nothing or more than matches or everything is asked for, and does not when less than matches or nothing at all is taken |
| `Queue.StopAfterOne` | common/src/queue.rs:134-150 | two matching entries of which the caller takes one: the queue is inconsistent |
| `Extraction.DecidedByCounts` | common/src/queue.rs:134-150 | when the counts alone decide whether entries are left unvisited, and how |
| `Extraction.ThreeKinds` | common/src/queue.rs:134-150 | the only request they do not decide asks for exactly the matches, some but not all entries |
| `Extraction.OrderDecides` | common/src/queue.rs:134-150 | for every such request one iteration order leaves something unvisited and another does not |
| `Extraction.KeepCut` | common/src/queue.rs:138-144 | taking a matching entry out first does not change what is kept |
| `Queue.CutRemoves` | common/src/queue.rs:39-72 | taking a key out of both structures takes its pair out of the map they represent |
| `Queue.CutReleases` | common/src/queue.rs:39-64 | and leaves no reference to its handle |
| `Queue.HeldWhileQueued` | common/src/queue.rs:21-25 | a handle is referred to exactly as long as its key waits in the queue |
| `Queue.TakeStep` | common/src/queue.rs:138-144 | one extracted entry keeps the account of taken, kept and unvisited pairs |
| `Queue.EndExtract` | common/src/queue.rs:134-150 | order and map agree if and only if no entry is left unvisited |
| `Difficulty.MetExactlyUpToOwn` | common/src/difficulty.rs:24-51 | a nonzero hash meets a nonzero difficulty if and only if it is at most the hash's own difficulty |
| `Difficulty.MetExactlyByProduct` | common/src/difficulty.rs:24-45 | a hash meets a difficulty if and only if their product stays below 2 to the power of 256 |
| `Difficulty.Acceptance` | common/src/difficulty.rs:24-51 | a hash meets its own difficulty and every smaller one, the zero hash all, and only zero is an error |

## Left out

- The Unicode case tables: whether a string outside ASCII mixes cases is a parameter.
- ConvertBits.Run: for widths 1 to 8; the program calls it with 8 and 5 only, and a width of 0 does not terminate.
- ConvertBits.Drain: for target widths 1 to 8, as for the whole conversion.
- ConvertBits.Feed: for widths 1 to 8, as for the whole conversion.
- ConvertBits.Finish: for widths 1 to 8, as for the whole conversion.
- Block headers are values: `apply_miner_work` and the setters are functions on them, not updates in place.
- The stateful predicates that `extract_if` admits: the predicate of the model depends on the entry only.
- `get_mut`, `peek_mut`, `get_index` and the iterators of the queue, which only add easy members.
- The scratch pad of the proof-of-work hashes; proof of work is a function of algorithm and bytes.
- The deletion of transactions, the rescan event and the network calls around the resync search; the daemon's answers are fixed during one call.
- Resync errors from the encrypted storage itself, such as a key that does not decrypt.
- Asset creation and minting, gas prices and the virtual machine around contract calls; whether the destination exists and whether gas is left are parameters.
- The waker and pinning of futures; a future is the sequence of its poll answers.
- Reader errors other than `InvalidSize` and `InvalidValue` do not occur in the modelled paths and are not modelled.
- `FreezeDuration` validation, `EnergyLease`, the ledger's own serializer, fee formulas, display functions and JSON forms, which only add easy members.
- `SetN` of the scheduler is a step of the runs; the class has no method for it because it is a plain assignment.
- Stack depth: the recursive reader is not bounded by the depth of the machine stack.
