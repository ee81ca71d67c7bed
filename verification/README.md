# The money-and-state kernel of a Bitcoin SV desktop wallet, modelled and proved

The wallet's back end (`src-tauri/src`) contains six cores that decide which
coins are spent, which scripts lock them, which plans are signed, and how old
wallets are recovered. This project models them in Dafny and proves what they
guarantee on every input, over every run and in every interleaving.

| file | what it models |
|---|---|
| `CoinSelector.dfy` | largest-first selection and the loop that re-estimates the fee until it is stable |
| `CoinChooser.dfy` | coins, the one-pass largest-first fallback, its agreement with the loop |
| `Bnb.dfy` | the Branch-and-Bound search and the selection built on it |
| `Prng.dfy` | the hash-chain generator that orders random selection |
| `RandomSelect.dfy` | bucketed random and privacy selection |
| `Penalties.dfy` | what the penalties of random selection mean for what is spent |
| `TxBuilder.dfy` | `build_unsigned`: all four strategies, fee reconciliation, outputs |
| `Script.dfy` | script pushes, a script parser, script numbers, a stack machine |
| `Multisig.dfy` | the accumulator multisig: locking script, unlocking script, meaning |
| `PlanStore.dfy` | the prepare/sign protocol over the shared, purged plan store |
| `LruCache.dfy` | the byte-bounded cache of raw transactions |
| `GapScan.dfy` | the gap-limit scan of a legacy wallet's addresses |
| `LegacyMnemonic.dfy` | the 1626-word mnemonic: hex to words and back |
| `LegacyKeystore.dfy` | legacy key derivation with and without the secret |
| `Bip39.dfy` | rebuilding entropy from the word indices of a mnemonic |
| `Common.dfy`, `Lists.dfy` | results, machine integers, bytes as numbers; sums, subsets and stable sorting of lists |

Code that works by mutation is modelled by methods with loops, by arrays and by
classes (`Bnb.Search`, `Prng.Generator`, `PlanStore.AppState`,
`LruCache.LruCache`), each tied by its `ensures` to a function or predicate on
values; the theorems are lemmas about those. The plan store is a state machine
whose steps interleave freely, and the methods of `AppState` are proved to perform
its steps.

A subset of a list is a mask, and `Pick(list, mask)` its members; a statement
for every mask is a statement for every subset.

## Where the code and what it sets out to do part

Each of these is proved twice over: the exact condition under which the code does
meet the expectation, and an input on which it does not.

* **Branch-and-Bound never pays with a match.** The search accepts values up to
  `34 * rate` above the payment, but the fee of one input alone is `158 * rate`.
  The strategy succeeds exactly when the search fails and the coins of the fallback
  pay for the outputs too; a search not cut by the round cap fails exactly when no
  subset of the wallet lies in the window (`TxBuilder.BnbPaysIff`). A wallet of two
  coins is refused although largest-first pays
  (`TxBuilder.LargestFirstPaysWhereBnbCannot`).
* **The chooser strategies ignore the bytes of the outputs.** The random strategies
  are always accepted exactly when every choice of keys that may win covers those
  bytes too (`TxBuilder.RandomAlwaysPaysIff`): a key sufficient alone if no other is
  better, several keys that an attempt can find if every key sufficient alone is worse.
  A wallet and a payment for which a possible choice does not
  (`TxBuilder.RandomCanBeRefused`).
* **More coins can be too few for random selection.** Adding a key's coins keeps
  every sufficient choice sufficient exactly when they are worth the fee of their own
  bytes (`RandomSelect.AddingKeepsSufficiencyIff`, `RandomSelect.MoreCanBeTooLittle`).
* **A failed random selection need not mean that no choice of keys suffices.** Some
  shuffles find nothing exactly when neither one key alone nor all together suffice:
  those that take the keys worth least beyond their bytes first
  (`RandomSelect.MayFailIff`). Without keys worth less than their own bytes a failure
  is never mistaken (`RandomSelect.SucceedsIffSomeKeysSuffice`); a wallet with one such
  key on which it can be (`RandomSelect.DustCanHideAFit`).
* **A plan can be signed after it expired.** Expiry is checked before two waits,
  for the database and for the one-time code. Every continuation signs in time
  exactly when those waits are bounded by what was left until the expiry at the check
  (`PlanStore.InTimeIffWaitFits`, `PlanStore.SignatureCanBeLate`).
* **The multisig builder counts list entries, not keys.** The script unlocks
  exactly when enough *different* indices in range sign
  (`Multisig.UnlockThenLock`, `Multisig.RepeatedSignerIsBuiltButRefused`).
* **"m of n" need not mean m different public keys.** If every listed key hash can be
  signed for, it does exactly when m is 1 or the hashes are pairwise distinct
  (`Multisig.ThresholdKeysIff`); an output that lists one key twice lets one signer
  stand for two (`Multisig.RepeatedKeySignsTwice`).
* **Some legacy mnemonics do not survive a round trip.** A list of words does exactly
  when the value of every three words fits 32 bits
  (`LegacyMnemonic.ReencodeIffAllGroupsFit`, `LegacyMnemonic.OversizedGroupExists`).
* **Lookups can break cache inclusion.** One keeps it exactly when it hits both caches
  or neither, or the smaller is empty (`LruCache.LookupKeepsInclusionIff`,
  `LruCache.LookupBreaksInclusion`).
* **A failed query counts as an unused address**, so it can end a scan early. Failures
  hide nothing exactly when every used address that the scan would otherwise visit did
  answer (`GapScan.SameFindsIffUsedAnswered`, `GapScan.FailureHidesAnsweredCoin`).

Further, the first gap of a scan is shorter by one than the later ones
(`GapScan.FirstGapIsShorter`, `GapScan.LaterGapIsTwenty`); the branch of random
selection that falls back to all coins is dead (`RandomSelect.EnoughFundsSucceed`);
and `AlreadySigned` never arises for a stored plan
(`PlanStore.StoredPlansAreUnsigned`).

Where the code disagrees with its own comments the model follows the code: the
purge age is 600 seconds, not the hour that `commands/transactions.rs:351` speaks
of, and a plan leaves the store as soon as a signer asks for it, also when the
signer is then refused (`commands/transactions.rs:356-362`).

## Model

| member | source | states |
|---|---|---|
| CoinSelector.Select | src-tauri/src/core/transaction.rs:125-174 | Takes the shortest prefix, in stably sorted decreasing value, that reaches target plus fee, with exact change; otherwise fails with the exact reason: no UTXOs, insufficient funds, or overflow. |
| Lists.SortDescSorts | src-tauri/src/core/transaction.rs:139-140 | The sort of both selectors orders by decreasing value and loses nothing. |
| Lists.SortDescStable | src-tauri/src/core/transaction.rs:139-140 | It is stable: members of equal value keep the order they came in. |
| CoinSelector.FeeStep | src-tauri/src/core/transaction.rs:197-203 | Every further input costs exactly 148 bytes at the fee rate. |
| CoinSelector.SelectIterating | src-tauri/src/core/transaction.rs:318-336 | The fee loop halts within one round per UTXO, its fees strictly increase, and it lands on the least k whose k largest values pay the target and the fee of k inputs, or fails when no k does. |
| CoinSelector.LargestFirstIsOptimal | src-tauri/src/core/transaction.rs:318-336 | When the loop succeeds, no subset of the UTXOs with fewer members, in any order, pays the target and its own fee. |
| CoinSelector.LoopDecidesSolvability | src-tauri/src/core/transaction.rs:320-336 | On a nonempty list whose sums fit, the loop succeeds exactly when some subset pays the target and its own fee, and its only failure is insufficient funds. |
| CoinChooser.FallbackLargestFirst | src-tauri/src/core/coinchooser.rs:511-547 | One pass finds the shortest prefix in decreasing value that covers payment and input fee, with exact fee and change, and otherwise reports what all coins lack or that they overflow. |
| CoinChooser.CoversIsPays | src-tauri/src/core/transaction.rs:259-266 | UTXOs turned into coins of 148 bytes sort alike, and a prefix covers for the chooser exactly when it pays for the loop with no outputs. |
| CoinChooser.OnePassAgreesWithLoop | src-tauri/src/core/coinchooser.rs:511-547 | On the same coins, with no outputs counted, the fallback and the iterating loop both fail, or return the same coins, fee and change. |
| Bnb.Search.Recurse | src-tauri/src/core/coinchooser.rs:339-411 | Each call gives `current` and `current_value` back as it found them and moves best answer, excess and round counter as the recursive search function says. |
| Bnb.ExploreCounts | src-tauri/src/core/coinchooser.rs:339-356 | The round counter passes neither the cap nor the size of a full binary tree, and the best excess never grows. |
| Bnb.AnswerIsSound | src-tauri/src/core/coinchooser.rs:284-307 | An answer is a strictly increasing list of indices whose values sum to the target plus the reported excess, within the window; the rounds stay within the cap. |
| Bnb.AnswerIsOptimal | src-tauri/src/core/coinchooser.rs:284-307 | If the cap was not reached, every subset of the coins inside the window has at least the excess of the answer, and there is an answer when there is such a subset. |
| Bnb.AnswerIsFirst | src-tauri/src/core/coinchooser.rs:362-411 | Of several equally close subsets an uncut search answers with the first in its order: where it first differs from another, it has the larger coin or ends. |
| Bnb.FewCoinsAreNeverCut | src-tauri/src/core/coinchooser.rs:32-32 | With at most fifteen coins the cap of 100000 rounds cannot be reached, so the answer is always optimal. |
| Bnb.SelectBnb | src-tauri/src/core/coinchooser.rs:274-336 | A match yields its coins with their total and fee and a saturated change; no match yields the result of the fallback; a window beyond 64 bits is an overflow. |
| Bnb.MatchNeverPaysItsFee | src-tauri/src/core/coinchooser.rs:284-336 | No match of the search reaches the target plus the estimated fee of its own inputs, at any positive rate and number of outputs. |
| Prng.RequestSplits | src-tauri/src/core/coinchooser.rs:139-147 | Asking for a + b bytes gives what asking for a and then b gives, and leaves the same state. |
| Prng.RequestsReadOneStream | src-tauri/src/core/coinchooser.rs:139-147 | Any series of requests returns consecutive slices of one stream. |
| Prng.StreamIsChain | src-tauri/src/core/coinchooser.rs:139-147 | That stream is the pool, the state, its hash, the hash of that, and so on. |
| Prng.Generator.GetBytes | src-tauri/src/core/coinchooser.rs:140-147 | The loop returns the bytes and leaves the state that the stream laws speak of. |
| Prng.Randint | src-tauri/src/core/coinchooser.rs:150-160 | The drawn number lies in [start, end). |
| Prng.RandintReads | src-tauri/src/core/coinchooser.rs:150-160 | The number drawn is that of the fewest bytes of the stream whose values cover the range, most significant first, reduced modulo the range; exactly those bytes are consumed. |
| Prng.Generator.Next | src-tauri/src/core/coinchooser.rs:150-160 | For every range for which it ends, the loop draws as many bytes as the range needs and returns that number, with the state after those bytes. |
| Prng.RandintEndsIff | src-tauri/src/core/coinchooser.rs:150-158 | The loop ends exactly when the range is at most 2^56: past that the power of 256 wraps to zero before it reaches the range. |
| Prng.ShufflePermutes | src-tauri/src/core/coinchooser.rs:163-171 | Whatever the generator draws, shuffling permutes. |
| Prng.Generator.Shuffle | src-tauri/src/core/coinchooser.rs:163-171 | The in-place swaps, from the end, compute that permutation and leave the generator after the draws. |
| Prng.ShuffleDraws | src-tauri/src/core/coinchooser.rs:163-171 | A shuffle is the pass of swaps with the numbers the generator draws for the positions from the last down. |
| Prng.ShuffleReachesAll | src-tauri/src/core/coinchooser.rs:163-171 | For every arrangement of a list there are draws that lead to it. |
| Prng.ShuffleIsFair | src-tauri/src/core/coinchooser.rs:163-171 | Of different things, only one series of draws leads to each arrangement. |
| Prng.SeedIgnoresOrder | src-tauri/src/core/coinchooser.rs:114-129 | Permuting the coins does not change the seed. |
| Prng.PrevoutReads | src-tauri/src/core/coinchooser.rs:66-70 | The bytes of an outpoint are the characters of its hash, then four bytes that read as the index, least significant first. |
| Prng.SeedParts | src-tauri/src/core/coinchooser.rs:114-124 | The seed is the bytes of all outpoints, none left out, in lexicographic order. |
| Prng.SameSeedIffSameOutpoints | src-tauri/src/core/coinchooser.rs:114-129 | With hashes of one length two wallets have the same seed exactly when they have the same outpoints. |
| RandomSelect.Bucketize | src-tauri/src/core/coinchooser.rs:555-563 | In some order, one bucket per key, each holding all coins of its key in their order, with exact value and size; no coin is left out. |
| RandomSelect.StripUnneeded | src-tauri/src/core/coinchooser.rs:608-617 | Returns the buckets in increasing value from the first one that cannot be spared, or all of them when each can. |
| RandomSelect.CutIsTight | src-tauri/src/core/coinchooser.rs:608-617 | Stripping a sufficient list leaves a sufficient, nonempty one that fails without its least bucket, unless nothing at all is to be paid. |
| RandomSelect.BucketCandidates | src-tauri/src/core/coinchooser.rs:566-605 | For a given order of the buckets and generator the list is determined: the buckets sufficient alone, in order, then what the attempts find on the orders that the min(100, 10(n-1)+1) successive shuffles of that generator draw, each the stripped shortest sufficient beginning, if there is one. |
| RandomSelect.SinglesInOrder | src-tauri/src/core/coinchooser.rs:577-582 | The first part of the list goes through the buckets in order and has each one that suffices alone. |
| RandomSelect.FoundInOrder | src-tauri/src/core/coinchooser.rs:587-603 | The second part goes through the attempts in order and has what each one finds. |
| RandomSelect.AttemptTakesShortest | src-tauri/src/core/coinchooser.rs:588-602 | An attempt takes the shortest beginning of its order that suffices, and strips it to increasing value from the first bucket that cannot be spared; it finds nothing exactly when no beginning suffices. |
| RandomSelect.RoundsAre | src-tauri/src/core/coinchooser.rs:585-585 | One attempt for one bucket, ten more for each further one, a hundred for more than ten. |
| RandomSelect.DrawnOrdersAreShuffles | src-tauri/src/core/coinchooser.rs:586-588 | Each order is the one before it shuffled by the next numbers the generator draws, the first one the buckets as they came. |
| RandomSelect.CandidatesAreTight | src-tauri/src/core/coinchooser.rs:566-605 | Whatever orders are drawn, every candidate is a sub-multiset of the buckets in increasing value, sufficient, and insufficient without its least bucket unless nothing is to be paid; each bucket sufficient alone is one; if all buckets together suffice there is one. |
| RandomSelect.AddingKeepsSufficiencyIff | src-tauri/src/core/coinchooser.rs:427-432 | Adding the coins of a key keeps every sufficient choice of other keys sufficient, for every target, exactly when they are worth the fee of their own bytes. |
| RandomSelect.MoreCanBeTooLittle | src-tauri/src/core/coinchooser.rs:427-432 | Two buckets, one of them worth less than its bytes, of which the other alone suffices and both together do not. |
| RandomSelect.PickWinner | src-tauri/src/core/coinchooser.rs:454-474 | The winner is the first candidate of least penalty. What that means in keys and satoshis is the subject of the rows of `Penalties`. |
| RandomSelect.AssembleResult | src-tauri/src/core/coinchooser.rs:479-509 | All coins of the buckets, in order, with exact fee and change, or the exact shortfall. |
| RandomSelect.SelectRandom | src-tauri/src/core/coinchooser.rs:415-475 | In whatever order the buckets come, the orders drawn and so the candidates are those the seed of the coins determines for it; the result is the first candidate of least penalty with exact fee and change, or the shortfall of all buckets when there is none. |
| Penalties.LeastBadWins | src-tauri/src/core/coinchooser.rs:454-474 | Under Privacy the result is the first candidate for which the number of keys after the first, plus, when what is left exceeds three halves of the payment, its excess in units of that bound and 10000 satoshis and one for every 500000000 satoshis left, is least; no wallet reaches the saturation. |
| Penalties.ModestKeyKeepsChangeModest | src-tauri/src/core/coinchooser.rs:624-638 | If one key can pay alone and leaves at most three halves of the payment, Privacy spends one key, which leaves at most that, or exceeds it by less than the bound and 10000 satoshis and leaves less than 500000000 satoshis. |
| Penalties.FewestKeysWin | src-tauri/src/core/coinchooser.rs:619-622 | Under RandomSubset no candidate has fewer keys than what is spent. |
| RandomSelect.SelectionTakesWholeKeys | src-tauri/src/core/coinchooser.rs:415-475 | Each key's coins are taken all or none, no coin twice, and what they bring is target plus input fee plus change. |
| RandomSelect.SelectionIsTight | src-tauri/src/core/coinchooser.rs:415-475 | Without its least valuable key the selection would not cover target and fee, unless both are zero. |
| RandomSelect.EnoughFundsSucceed | src-tauri/src/core/coinchooser.rs:437-452 | If all coins together cover target and fee, there is a candidate and the selection succeeds; so the branch that falls back to all buckets is dead. |
| RandomSelect.OneKeyIfPossible | src-tauri/src/core/coinchooser.rs:620-622 | If one key can pay alone, the random strategy spends exactly one key. |
| RandomSelect.SucceedsIffSomeKeysSuffice | src-tauri/src/core/coinchooser.rs:415-475 | If the coins of every key are worth the fee of their bytes, the selection succeeds exactly when some choice of keys suffices. |
| RandomSelect.MayFailIff | src-tauri/src/core/coinchooser.rs:434-452 | For the buckets in any order, there are shuffles for the attempts that leave no candidate exactly when neither one key alone nor all keys together cover target and fee; and exactly then some run fails. |
| RandomSelect.DustCanHideAFit | src-tauri/src/core/coinchooser.rs:434-452 | A wallet of three keys of which two together suffice and for which some shuffles find nothing, so that the selection refuses it. |
| RandomSelect.WinnerMayWin | src-tauri/src/core/coinchooser.rs:454-474 | What is selected is a key sufficient alone that no other such key beats, or several keys that an attempt finds on some order and whose penalty is less than that of every key sufficient alone. |
| RandomSelect.MayWinIsResult | src-tauri/src/core/coinchooser.rs:454-474 | Conversely every such choice of keys is the result for some order of the buckets and some shuffles. |
| TxBuilder.MapBackIsExact | src-tauri/src/core/transaction.rs:353-371 | With distinct outpoints the coins map back to exactly the UTXOs they came from, none twice. |
| TxBuilder.LookupKeepsLast | src-tauri/src/core/transaction.rs:353-357 | Of UTXOs with one outpoint the table holds the last. |
| TxBuilder.SelectByChooser | src-tauri/src/core/transaction.rs:337-402 | The chosen coins mapped back, the fee recomputed with the outputs, the change what is left; a shortfall and every chooser error become the error the code reports. |
| TxBuilder.AcceptedIffChangeCoversOutputs | src-tauri/src/core/transaction.rs:373-393 | A chooser selection passes the fee check exactly when its change covers the bytes of the outputs. |
| TxBuilder.BnbMatchIsAlwaysRefused | src-tauri/src/core/transaction.rs:387-392 | At a positive rate a search that finds a match always ends in insufficient funds. |
| TxBuilder.SubsetInWindowDefeatsBnb | src-tauri/src/core/transaction.rs:387-392 | One subset inside the window is enough for that, unless the round cap cut the search. |
| TxBuilder.BnbPaysIff | src-tauri/src/core/transaction.rs:337-393 | At a positive rate Branch-and-Bound succeeds exactly when its search finds nothing and the least number of largest coins that pay without outputs pay with them too. With no subset of the UTXOs in the window the second half alone decides; an uncut search finds nothing exactly when there is no such subset. |
| TxBuilder.RandomAlwaysPaysIff | src-tauri/src/core/transaction.rs:373-393 | Whatever the order of the buckets and the draws, what a random strategy chooses is accepted, exactly when every choice of keys that may win covers the outputs too. |
| TxBuilder.RandomCanBeRefused | src-tauri/src/core/transaction.rs:373-393 | A wallet and payment for which a choice that may win is refused while the default strategy always pays. |
| TxBuilder.RandomSpendsWholeKeys | src-tauri/src/core/transaction.rs:337-371 | With a random strategy, of two UTXOs of one key the transaction spends both or neither. |
| TxBuilder.LargestFirstPaysWhereBnbCannot | src-tauri/src/core/transaction.rs:318-393 | A wallet of two coins on which Branch-and-Bound always ends in insufficient funds and the default strategy always pays. |
| TxBuilder.Assemble | src-tauri/src/core/transaction.rs:406-454 | One input for each selected UTXO, its outpoint, in order; for each payment an output of its amount under the script of its own address, in order; then the data output with no satoshis; then the change under the script of the change address, exactly when some is left and there is an address; no other output. Fails exactly when an address it needs does not decode. |
| TxBuilder.BuildUnsigned | src-tauri/src/core/transaction.rs:279-455 | A zero payment is refused; otherwise the result is the transaction built from what the strategy selects, or the error of the step that failed. A transaction returned pays every payment to its own address, carries the data and the change as asked and nothing else, and conserves value. |
| TxBuilder.BuiltTransactionConserves | src-tauri/src/core/transaction.rs:279-455 | For all four strategies: the inputs are some of the UTXOs, none twice; their sum is payments plus fee plus change; the fee is the rate times 10 bytes, 148 for each input and 34 for each output, and for a change output allowed for that had nothing to carry; inputs minus outputs is the fee, plus the change when there is no change address. |
| Script.DecodeEncode | src-tauri/src/core/multisig.rs:79-108 | Decoding a script number inverts encoding, for every integer. |
| Script.EncodeIsMinimal | src-tauri/src/core/multisig.rs:79-108 | The payload obeys the interpreter's minimal-encoding rule. |
| Script.EncodingReads | src-tauri/src/core/multisig.rs:79-94 | The top bit of the last byte is the sign, and the rest is the magnitude, least significant byte first. |
| Script.PushMinimalSigned | src-tauri/src/core/multisig.rs:79-108 | The byte loop and the edit of the last byte produce the length-prefixed encoding of every 64-bit number. |
| Script.BuildPushInt | src-tauri/src/core/multisig.rs:64-76 | One opcode for -1 to 16, the length-prefixed encoding otherwise. |
| Script.ParsePushInt | src-tauri/src/core/multisig.rs:64-108 | A pushed 64-bit number parses back to one push, whose payload is minimal and decodes to the number. |
| Script.ParsePushItem | src-tauri/src/core/multisig.rs:117-138 | Data below 4 GiB, pushed with any of the four length headers, parses back to itself. |
| Script.PushItemIsShortestIff | src-tauri/src/core/multisig.rs:117-138 | No script that pushes the same data and nothing else is shorter, exactly when the data is not a single byte with an opcode of its own. |
| Script.PushesParseBack | src-tauri/src/core/multisig.rs:64-138 | Any concatenation of pushed numbers and items parses back to them, in order. |
| Multisig.NewOutput | src-tauri/src/core/multisig.rs:280-291 | Accepts exactly the thresholds from 1 to the number of keys. |
| Multisig.ToScriptBytes | src-tauri/src/core/multisig.rs:304-337 | The loop over the keys emits prologue, one block per key hash, and threshold comparison. |
| Multisig.LockLayout | src-tauri/src/core/multisig.rs:304-337 | The script byte for byte: 00 6b, for every key 63 76 a9 14, its hash, 88 ad 6c 8b 6b 68, and at the end 6c, the threshold, a2. |
| Multisig.ParseLock | src-tauri/src/core/multisig.rs:304-337 | The emitted bytes parse, to the operations intended, for every number of keys and every threshold. |
| Multisig.LockMeans | src-tauri/src/core/multisig.rs:304-337 | From any main stack the script fails, or consumes what its keys check and leaves whether the counted signatures reach the threshold, with an empty alt stack. |
| Multisig.AcceptanceNeedsThresholdSigners | src-tauri/src/core/multisig.rs:304-337 | Soundness: if the script accepts, from any main stack, at least m different key indices each had a signature on it valid under a public key of that key's hash. |
| Multisig.AcceptanceNeedsThresholdKeys | src-tauri/src/core/multisig.rs:304-337 | With pairwise distinct key hashes, acceptance needs at least m different public keys, each of a listed hash and with a valid signature on the stack. |
| Multisig.ThresholdKeysIff | src-tauri/src/core/multisig.rs:304-337 | If every listed key hash can be signed for, every stack the script accepts has used at least m different public keys exactly when m is 1 or the key hashes are pairwise distinct. |
| Multisig.RepeatedKeySignsTwice | src-tauri/src/core/multisig.rs:280-291 | `new` accepts one key listed twice, and one signature then satisfies a threshold of two. |
| Multisig.BuildUnlockingScript | src-tauri/src/core/multisig.rs:393-429 | Succeeds exactly when the list is long enough and every signing key in range has its signature and public key; emits the pushes from the last key to the first; otherwise reports the last incomplete key, its signature before its public key. |
| Multisig.UnlockPushes | src-tauri/src/core/multisig.rs:405-427 | The unlocking script parses and leaves the first key's items on top. |
| Multisig.UnlockThenLock | src-tauri/src/core/multisig.rs:393-428 | Unlocking, then locking, leaves one flag and an empty alt stack; the flag is true exactly when the distinct signers in range reach the threshold. |
| Multisig.DistinctSignersUnlock | src-tauri/src/core/multisig.rs:393-428 | Completeness: distinct, in-range signers with valid signatures leave exactly true. |
| Multisig.RepeatedSignerIsBuiltButRefused | src-tauri/src/core/multisig.rs:398-404 | A 2-of-2 spend naming one key twice passes the builder's threshold check and leaves false. |
| PlanStore.AppState.StorePlan | src-tauri/src/commands/transactions.rs:306-317 | Performs, in every world over this store, the insert step of a session that stamped the plan; the plan can then be taken for exactly 600 seconds. |
| PlanStore.AppState.TakePlan | src-tauri/src/commands/transactions.rs:352-362 | Performs the fetch step of a session signing this id: the purged store without the plan, and the plan in the session's hands, or neither. |
| PlanStore.AppState.Sign | src-tauri/src/commands/transactions.rs:346-405 | An uninterrupted signing command leaves the store, and makes exactly the signature, that its steps make in every world over this store; it returns the plan, or the error of the first check that fails: not there or purged after 600 seconds, another wallet, expired, signed, code not valid. |
| PlanStore.RunKeepsInv | src-tauri/src/commands/transactions.rs:557-603 | Every interleaving of prepare, sign and wallet-switch steps keeps each plan id in at most one place, and every plan as it was issued. |
| PlanStore.SignaturesAreSafe | src-tauri/src/commands/transactions.rs:346-405 | In every interleaving a plan id yields at most one signature; the plan signed is the one stored under that id, for the wallet the signer captured, and it had not expired when checked. |
| PlanStore.StoredPlansAreUnsigned | src-tauri/src/core/transaction.rs:468-488 | Every stored plan is unsigned and is the plan issued under its id; what that plan is, `PlanStore.IssuedPlansArePrepared` says. |
| PlanStore.IssuedPlansArePrepared | src-tauri/src/core/transaction.rs:456-488 | In every interleaving a plan issued under an id goes back to one preparation: a session captured the active wallet, then built a plan of that wallet and of the content given, created at that time and expiring 300 seconds later, then issued it, with no other step of its own in between. |
| PlanStore.SignedPlansArePrepared | src-tauri/src/commands/transactions.rs:346-405 | So does the plan of every signature, and the wallet captured is the signer's. |
| PlanStore.PreparedIsSigned | src-tauri/src/commands/transactions.rs:306-405 | From every reachable world, a session that builds, stamps and stores, followed by another of the same wallet that fetches, checks and signs, yields the signature of exactly that content, wallet, creation time and expiry. |
| PlanStore.SignedIdsAreSpent | src-tauri/src/commands/transactions.rs:352-362 | A signed id is neither in the store nor held by any command. |
| PlanStore.PurgedPlansHaveExpired | src-tauri/src/state.rs:29-33 | A plan the 600 s purge drops is past its 300 s expiry, then and at every later time, so a signer would refuse it anyway. |
| PlanStore.UnexpiredPlanIsSigned | src-tauri/src/commands/transactions.rs:346-405 | Liveness: from every reachable state an uninterrupted signer of an unexpired plan of its wallet produces the signature. |
| PlanStore.InTimeIffWaitFits | src-tauri/src/commands/transactions.rs:371-404 | For a signer holding a plan that passes the check now, every continuation that lasts at most `wait` signs in time exactly when `wait` is no more than what is left until the expiry. |
| PlanStore.SignatureCanBeLate | src-tauri/src/commands/transactions.rs:371-404 | A run in which a plan that expired at 300 is signed at 1000. |
| LruCache.LruCache.IndexOf | src-tauri/src/db/cache.rs:209-211 | The position of an entry of that key, or none exactly when there is no such entry. |
| LruCache.LruCache.Set | src-tauri/src/db/cache.rs:214-230 | Replaces, appends, evicts; keys stay distinct and the byte count exact. |
| LruCache.LruCache.Get | src-tauri/src/db/cache.rs:233-241 | Answers with the stored data and moves the entry to the end, changing nothing else. |
| LruCache.LruCache.Remove | src-tauri/src/db/cache.rs:244-249 | Takes the one entry out, and its bytes off the count without saturating; `LruCache.LastOperation` says what stays. |
| LruCache.LruCache.SetMaxSize | src-tauri/src/db/cache.rs:267-273 | Sets the limit and evicts down to it, to nothing if need be. |
| LruCache.LruCache.ClearAll | src-tauri/src/db/cache.rs:486-492 | Empties the index and the count. |
| LruCache.EvictIsMinimal | src-tauri/src/db/cache.rs:225-229 | Eviction drops the shortest least-recently-used prefix that suffices. |
| LruCache.LastOperation | src-tauri/src/db/cache.rs:214-273 | What each operation of any run leaves: removing takes out one entry and keeps the rest in order; a lookup moves one to the end; setting takes out the old entry, appends the new one and drops the shortest least-recently-used part that the limit demands; a new limit drops likewise. |
| LruCache.RemoveAndGetKeepOthers | src-tauri/src/db/cache.rs:233-249 | After any operations, removing or looking up one key changes the answer for no other. |
| LruCache.NothingIsLostWithoutNeed | src-tauri/src/db/cache.rs:214-273 | If at every moment the bytes of all that was set and not removed fit the limit in force, every lookup answers as the unbounded map does. |
| LruCache.AlwaysBounded | src-tauri/src/db/cache.rs:214-273 | After any operations keys are distinct and the size is within the limit or there is exactly one entry. |
| LruCache.JustSetIsLast | src-tauri/src/db/cache.rs:214-230 | The key just set is present with its data and most recent, whatever its size. |
| LruCache.LookupIsLastSetOrNothing | src-tauri/src/db/cache.rs:233-241 | After any operations a lookup answers with what an unbounded map would answer, or not at all. |
| LruCache.AlwaysInOrderOfUse | src-tauri/src/db/cache.rs:214-249 | After any operations the entries stand in the order of their last use. |
| LruCache.SmallerIsSuffixOfLarger | src-tauri/src/db/cache.rs:214-249 | Fed the same sets and removals, a cache with a smaller limit always holds a suffix of what a larger one holds. |
| LruCache.LookupKeepsInclusionIff | src-tauri/src/db/cache.rs:233-241 | A lookup keeps that inclusion exactly when it hits both caches or neither, or the smaller is empty. |
| LruCache.LookupBreaksInclusion | src-tauri/src/db/cache.rs:214-241 | Two one-byte entries set and the older looked up, with limits 1 and 2: the smaller cache ends as no suffix of the larger. |
| GapScan.Collect | src-tauri/src/commands/restore.rs:280-297 | Every output of the address is recorded once and added to the total, or the total overflows. |
| GapScan.ScanChain | src-tauri/src/commands/restore.rs:227-318 | A chain visits the indices from 0 to the one where the gap rule or the cap stops it, each once, and adds exactly what those addresses hold; or it aborts at the first address that cannot be derived or overflows the total, with that reason. |
| GapScan.Scan | src-tauri/src/commands/restore.rs:220-332 | Succeeds exactly when every key derives, the sum fits and some query answered; reports both chains, the exact sum, and successes plus failures equal to addresses scanned. Otherwise the error is that of the receiving chain, or if that goes on, of the change chain, or that no query answered. |
| GapScan.FailureIsUnique | src-tauri/src/commands/restore.rs:227-292 | A chain fails at one address for one reason, and only if some key does not derive or the sum does not fit. |
| GapScan.FoundOnceInOrder | src-tauri/src/commands/restore.rs:280-297 | The report has the addresses in order and of each exactly the outputs the server listed, in the server's order. |
| GapScan.AnswersCounted | src-tauri/src/commands/restore.rs:273-297 | The successes counted are the addresses that answered. |
| GapScan.VisitedIffWithinGaps | src-tauri/src/commands/restore.rs:300-317 | At most 10000 indices are visited, and one below that exactly when the first used index before it is below 20 and all later gaps up to it are at most 20. |
| GapScan.FoundIffWithinGaps | src-tauri/src/commands/restore.rs:227-318 | Completeness and its converse: the outputs found are exactly those of the addresses so reached. |
| GapScan.FirstGapIsShorter | src-tauri/src/commands/restore.rs:300-308 | If the first twenty addresses are unused, exactly twenty are visited. |
| GapScan.LaterGapIsTwenty | src-tauri/src/commands/restore.rs:300-308 | After a visited used address the twentieth following one is still visited, and is the last if it and those between are unused. |
| GapScan.FailuresOnlyHide | src-tauri/src/commands/restore.rs:293-308 | A scan in which queries fail finds nothing that the scan of the same server with every query answered does not. |
| GapScan.SameFindsIffUsedAnswered | src-tauri/src/commands/restore.rs:293-308 | On a chain both find the same exactly when every used address that the latter visits did answer. |
| GapScan.FailureHidesAnsweredCoin | src-tauri/src/commands/restore.rs:293-308 | One failed query ends a chain before another address, with a coin, that would have answered; the chain had answers and found nothing. |
| LegacyMnemonic.MnEncode | src-tauri/src/core/legacy_mnemonic.rs:212-239 | Rejects a length not divisible by eight and the first character that is no hex digit; otherwise three words per eight digits. |
| LegacyMnemonic.MnDecode | src-tauri/src/core/legacy_mnemonic.rs:254-276 | Rejects a count not divisible by three; otherwise succeeds exactly when every word is known, and reports the first unknown word; eight digits, or nine, per three words. |
| LegacyMnemonic.GroupDecodes | src-tauri/src/core/legacy_mnemonic.rs:262-274 | Every three words decode to a value below 1626 cubed, so nothing overflows, and that value encodes to the same words. |
| LegacyMnemonic.GroupEncodes | src-tauri/src/core/legacy_mnemonic.rs:228-239 | Every value below 1626 cubed, in particular every 32-bit value, survives encoding and decoding. |
| LegacyMnemonic.GroupSpells | src-tauri/src/core/legacy_mnemonic.rs:228-236 | The three positions are the digits of the value to base 1626, the least first, each but the first offset by the position before it. |
| LegacyMnemonic.EncodedWords | src-tauri/src/core/legacy_mnemonic.rs:225-239 | Words 3i to 3i + 2 of an encoded message are those of the value of its digits 8i to 8i + 7. |
| LegacyMnemonic.DecodedDigits | src-tauri/src/core/legacy_mnemonic.rs:260-274 | Three known words decode to lower-case digits of the value their positions give, eight digits or nine. |
| LegacyMnemonic.DecodeInOrder | src-tauri/src/core/legacy_mnemonic.rs:259-276 | Triples decode one after the other, and the first that fails decides. |
| LegacyMnemonic.ParseConcat | src-tauri/src/core/legacy_mnemonic.rs:229-231 | Of hex digits each counts sixteen times the one after it. |
| LegacyMnemonic.DecodeEncode | src-tauri/src/core/legacy_mnemonic.rs:212-276 | Every hex string of a length divisible by eight encodes, and decodes back to itself in lower case. |
| LegacyMnemonic.ReencodeIffAllGroupsFit | src-tauri/src/core/legacy_mnemonic.rs:212-276 | A list of known words decodes to a text that encodes to the same words exactly when the value of every three words is below 2^32. |
| LegacyMnemonic.OversizedGroupExists | src-tauri/src/core/legacy_mnemonic.rs:273-273 | Three words of the list whose value exceeds 32 bits; they decode, and the text does not encode back to them. |
| LegacyKeystore.SecretFits | src-tauri/src/core/legacy_keystore.rs:42-66 | The stretched secret, a digest read as a number, fits the bytes it is passed on in. |
| LegacyKeystore.MasterSecretIsLast | src-tauri/src/core/legacy_keystore.rs:42-51 | The master secret is the last of the hundred thousand hashes, each of the one before followed by the seed, read most significant byte first. |
| LegacyKeystore.MulReduced | src-tauri/src/core/legacy_keystore.rs:139-142 | Reducing a scalar by the group order does not change its point. |
| LegacyKeystore.PublicAndPrivateAgree | src-tauri/src/core/legacy_keystore.rs:98-147 | In any group with a generator of that order, the key derived from the master public key is the public point of the key derived from the secret, for every change and index and however large the offset. |
| LegacyKeystore.ChildIsOffset | src-tauri/src/core/legacy_keystore.rs:79-142 | A child is the master key offset by the double hash, read as a number, of the decimal index, a colon, the decimal chain, a colon and the master key; the secret is offset by the same, modulo the order. |
| LegacyKeystore.MpkOfSeed | src-tauri/src/core/legacy_keystore.rs:61-71 | From the seed, through all 100000 rounds: 64 bytes that decode to the public point of the stretched secret, or a refusal by the SDK. |
| LegacyKeystore.PrivateKeyOfSeed | src-tauri/src/core/legacy_keystore.rs:129-147 | From the seed, through all 100000 rounds: a reduced scalar whose point is what anyone derives from the master public key of that seed. |
| LegacyKeystore.SequenceDataIsInjective | src-tauri/src/core/legacy_keystore.rs:79-88 | Different master keys, chains or indices hash different bytes. |
| Bip39.SpellBits | src-tauri/src/core/mnemonic.rs:86-91 | The two loops spell the 11 bits of every index, most significant first. |
| Bip39.CountArithmetic | src-tauri/src/core/mnemonic.rs:27-35 | For the five valid word counts the entropy is a whole number of bytes and leaves a checksum of a third as many bits as words. |
| Bip39.RebuildEntropy | src-tauri/src/core/mnemonic.rs:81-97 | The bytes set in place hold exactly the leading 32/33 of the words' bits and no other bit; each byte is the number its eight bits spell, most significant first. |
| Bip39.EntropyIsWordNumber | src-tauri/src/core/mnemonic.rs:81-97 | Read as a number, most significant byte first, the entropy is the number whose digits to base 2048 are the words' indices, shifted right by the checksum bits. |
| Bip39.EntropyGivesWordsBack | src-tauri/src/core/mnemonic.rs:81-97 | Cut into 11-bit groups again, as BIP39 under "Generating the mnemonic" does, the entropy gives back every word but the last, and the bits of the last above its checksum. |

## Left out

Boundaries of the model:

* Machine arithmetic: values and fees are natural numbers bounded by the
  64-bit maximum. Where the code checks for overflow the model has the error;
  where it does not (fee products, sums of values and sizes, output counts) a
  precondition, `TxBuilder.Fits` in the end, says that the result fits.
* Hashes, signature checks, address decoding, the data script and the curve are
  parameters: arbitrary total functions, with digests of 32 and 20 bytes and the
  group laws where those matter. `ripemd160` and the SDK are not modelled.
* The legacy word list is a parameter with three properties of the built-in one:
  1626 words, none twice, all in lower case.
* A signed 64-bit key id is an unbounded integer; strings of hashes and
  addresses are opaque.
* Script execution has no limits on size, operation count or operand length, and
  accepts any truthy value for a conditional, as Bitcoin SV after Genesis does.
* The chooser strategies need distinct outpoints for conservation; with repeated
  ones the builder's table keeps the last UTXO (`TxBuilder.LookupKeepsLast`).
* The scan's server gives one answer per address, the same for the whole scan.

Members stated with a bound the code does not spell out:

- Prng.Generator.Next: does not cover ranges above 2^56, for which the code's loop does not end (`Prng.RandintEndsIff`).
- Script.ParsePushItem: does not cover data of 4 GiB or more, whose length the code truncates to 32 bits.
- RandomSelect.SelectRandom: does not cover an empty list with a zero target, which `select` answers itself (`core/coinchooser.rs:262-264`). The amount it reports as needed leaves the base fee out, as in the code.
- RandomSelect.AddingKeepsSufficiencyIff: the choice that fails is one coin that just pays for a transaction of its own, so that value, 158 times the fee rate, must fit 64 bits.
- RandomSelect.MayFailIff: speaks of any permutations as the shuffles, not of which of them the hash of a given seed produces.
- RandomSelect.MayWinIsResult: likewise.
- TxBuilder.RandomAlwaysPaysIff: likewise.
- TxBuilder.BnbPaysIff: for a search that reached the round cap while a subset lies in the window, the condition is the search's own failure, which depends on the order in which it proceeds; up to fifteen UTXOs never reach the cap (`Bnb.FewCoinsAreNeverCut`).
- Multisig.ThresholdKeysIff: counts the public keys that the script's checks consume; other keys on the stack below them do not matter.
- LegacyKeystore.PublicAndPrivateAgree: takes the master key as bytes; the hex text around it, and a child scalar of zero (which the SDK would refuse as a private key), are not modelled.

Not modelled, because it is plumbing, or straightforward beside the rest:

* `TransactionCache` around the LRU index: metadata map, flag filters, heights.
* `decode_legacy_seed`, `is_legacy_seed`, address text; characters beyond ASCII in a hex message.
* `validate_mnemonic` beyond its word counts, and the seed derivation after the entropy.
* `MultisigSigner`, which has one local key.
* The database, the one-time code, the broadcast: their outcome is a step that may fail.
* The sweep transaction after the scan; graphical interface, network clients, QR codes, payment URIs, label synchronisation.
