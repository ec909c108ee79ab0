# A verified model of the RGB Lightning node

This project models six pieces of the node that keep state across retries, crashes and replays, or that encode
something which has to come back unchanged, and proves what they promise.

- **Sweeping closed channels** (`SweepColoring`, `Sweep`, `SweepReplies`, `SweepRuns`, `SweepPasses`, `LostCache`). A
  spend attempt looks in the cache of signed transactions, then among the stored receipts of prepared sweeps, and only
  then prepares a new transaction. The receipt is stored before signing and the cache before the transaction is handed
  out; a reconciliation removes receipts once they are confirmed and consumed. `SweepRuns` takes all of this as a
  state machine with failed writes, crashes, restarts and a reconciliation that can be interrupted between consuming
  and removing; `SweepPasses` shows that a whole pass is a sequence of its steps; `LostCache` adds restarts at which
  the stored cache does not decode and counts as empty.
- **Linked-asset swap host** (`SwapHost`, `SwapRuns`, `SwapTerms`, `LostSwaps`, `MapTotal`). Authorisations reserve
  liquidity with saturating arithmetic and two timeouts; intercepted payments redeem them; forwarded payments move
  channel balances. A restart may find that the stored map of swaps does not decode and start with an empty one.
- **Asynchronous payments** (`Merkle`, `BatchCommitment`, `OrderLedger`, `AsyncOrders`, `OrderRequests`,
  `InvoiceCache`). The Merkle tree, the signed batch bytes, the ledger of payment hashes with its replay rules, and
  the invoice-request cache. The digest is uninterpreted: soundness and binding hand back a collision when they fail.
- **Payment bookkeeping** (`PaymentIndex`, `PaymentBook`, `PaymentHistory`, `LostPayments`, `FinalizePayment`,
  `FinalizeRecords`). The backfill and stamping of payment indices over two maps that are written one after the other
  and may turn out not to decode, and the settling of pending RGB amounts.
- **Remote-first store** (`RemoteStore`). Operations as interleaved steps, with a lock for each key, retries with
  capped delays, and shutdown.
- **Codecs** (`Text`, `SwapString`, `Backup`). Hexadecimal, decimal and big-endian encodings, the printed swap offer,
  and the chunked encryption of a backup over an abstract cipher.

Objects that the node updates in place are classes (`RgbOutputSpender`, `TakerSwaps`, `ChannelAmounts`,
`AsyncOrderRecord`, `AsyncOrderState`, `RequestInvoiceCache`, `PaymentRecords`, `RgbStore`). Each of their methods is
proved equal to a function on values. The theorems over runs are about those functions; the reconciliation, which a
run takes in finer steps, is tied to them by `SweepPasses.PassIsSteps`. What the main operations compute is also
stated without those functions, exactly, on the stored records, the texts and the requests alone: in `SweepReplies`,
`SwapTerms`, `OrderRequests`, `PaymentHistory` and `FinalizeRecords`, and beside the definitions in the other modules.
The clock, the wallet, the chain, the signer, the order in which hash maps are walked, and the outcome of every store
call are inputs. A write that reports an error may or may not have been applied.

## What turned out to have a condition

- After a restart that loses the cache of signed sweeps, an attempt can hand out a transaction in conflict with one
  handed out before if and only if the receipt of that one is no longer stored (`LostCacheExact`); a run that does so
  is built in `LostCacheConflicts`. Over every run a conflict comes only after a receipt on those inputs was consumed
  (`NoConflictBeforeConsumed`), and never while the cache is kept (`NoConflictingSweep`).
- A sweep numbers its RGB outputs from 0 even when extra outputs come first: the number is the place of the output if
  and only if there are no extra outputs (`NumberIsPlace`, `ExtraOutputShifts`). The assigned amount is the exact sum
  if and only if the sum fits 64 bits (`InRangeIsExact`, `SumWraps`); that is in builds without overflow checks, the
  others stop at the addition.
- Two payments are handed on for one hash with different intercept ids only if a restart lost the map of swaps between
  them (`OneRedemptionForEachHash`, `LostMapRedeemsTwice`). In any reachable state another id can be handed on for a
  hash, after at most an authorisation, if and only if the hash has no entry in memory or one that is open to that id
  (`RedeemableExactly`), and so for a payment already handed on if and only if its entry is no longer there
  (`RedeemedExactly`).
- What reserves nothing any more, timed out, closed or lost, stays so over every step exactly unless a restart brings
  back a live stored copy or the hash is granted anew (`DeadUnlessRevived`, `ClosedSwapRevived`). A reservation that
  has timed out is never live again unless its hash is authorised anew, which takes a lost map (`TimedOutStaysOut`).
- Payment indices stay unique in memory and in whatever decodes of the store (`IndicesStayUnique`). In the whole
  store, after a start at which maps did not decode, they stay unique until the next start if and only if both maps
  were written again or no stored map holds an index at or above the counter (`StoreUniqueExactly`,
  `LostMapRepeatsIndex`).
- Orders are kept in memory only. A request accepted before a restart is accepted right after it if and only if its
  batch starts at index 1 (`ReplayAfterRestart`).
- A forwarded payment keeps the node's holdings if and only if both balance updates are made or neither is, or it is
  for nothing (`SettlingConserves`); after a store error between the two, the replay takes the amount out a second
  time (`ReplayAfterErrorLoses`).
- The receiver and sender passes over a payment's pending records commute if and only if every non-swap record among
  them is for amount zero (`PassesCommute`, `PlainRecordDoesNotCommute`).
- When finalising a payment fails half way, for whatever reason and in either namespace, a retry settles a channel
  once if and only if no record for it had been applied and left in place, or only for amount zero
  (`RetrySettlesOnce`, `RetrySettlesTwice`).
- A stop of the remote-first store bounds operations submitted later if some operation was listening when it was
  signalled, or an earlier stop was heard (`LateOperationsAreCapped`); otherwise every number of attempts is reached
  by some run (`LateOperationGoesOn`), because the watch channel drops a value that is sent while nobody subscribes.
- An invoice request reads the clock before it waits for the lock. An answer, in whatever spelling it is asked for, is
  replaced only by a call that had read a time at or after its expiry (`AnswerHoldsUntilExpiry`); a call served later
  can be given the new answer although its own time is earlier (`StaleTimeGetsNewAnswer`).
- Decrypting a backup gives the file back if and only if the reads of the file at its chunk boundaries filled the
  buffer (`DecryptUndoesEncrypt`, `ShortReadTruncates`): a short read ends the encryption loop early. A short read
  while decrypting is always noticed, with a cipher that opens no beginning of a sealed chunk
  (`DecryptSucceedsExactly`).
- The Merkle root binds a list of hashes only together with its length: repeating the last leaf of an odd list keeps
  it (`RootIgnoresRepeatedLast`). Batches of any lengths have the same root if and only if they fill up to the same
  full tree, unless the digest collides (`SameRoot`), and the proofs that are accepted are exactly those made for the
  places of that tree (`VerifyExact`).
- The hexadecimal decoder checks and then ignores a single trailing digit: exactly the texts of 64 or 65 digits are
  payment hashes (`PaymentHashAccepted`), and two of them are the same hash if and only if their first 64 digits agree
  up to case (`PaymentHashSpellings`).

## Model

| member | source | states |
|---|---|---|
| SweepRuns.NoConflictingSweep | src/ldk.rs:3872-4219 | over every run of attempts, reconciliations, failed writes, crashes and restarts in which the stored cache decodes, once a coloured sweep has been handed out every later transaction, coloured or not, is the same one or spends none of its inputs |
| LostCache.NoConflictBeforeConsumed | src/ldk.rs:5924-5928 | over every run, restarts whose cache does not decode included, and with hashes that fix inputs: the same transaction, or other inputs, or a receipt that spends one of those inputs has already been consumed and its transaction confirmed |
| LostCache.LostCacheExact | src/ldk.rs:5924-5928 | with an empty cache some attempt can conflict with a transaction iff no stored receipt is for it |
| LostCache.LostCacheConflicts | src/ldk.rs:5924-5928 | a run in which a sweep is handed out, confirmed, consumed and removed, the cache is lost, and a second coloured transaction on the same inputs is handed out |
| LostCache.EqualHashesConflict | src/ldk.rs:3881-3888 | a run with two lost caches and one hash for two sets of inputs, in which a conflict comes with nothing consumed |
| LostCache.StepKeepsInvLoss | src/ldk.rs:3872-4219 | every step, a lost cache included, keeps: each cached or handed-out coloured transaction has its receipt stored or a receipt on its inputs consumed, receipts are pairwise disjoint, and handouts are apart or touched |
| LostCache.AttemptKnown | src/ldk.rs:3872-4219 | whatever an attempt caches or hands out coloured was cached before or has its receipt stored; anything else it hands out spends nothing a stored receipt does |
| SweepRuns.HandsOutWhatWasAsked | src/ldk.rs:3881-3914 | if the descriptor hash fixes the inputs, every transaction handed out in a run, lost caches included, spends exactly the requested outputs, and every stored receipt the outputs of its own descriptors |
| SweepRuns.ReceiptsStayApart | src/rgb_sweep.rs:63-108 | in every reachable state the stored receipts have pairwise disjoint inputs, with no assumption about hashes |
| SweepRuns.NoReceiptLostUnconsumed | src/rgb_sweep.rs:115-150 | over every run that keeps the cache, from any state to any later one, a receipt stays in the store unchanged until it has itself been consumed, although a reconciliation removes it later than it judged it |
| SweepRuns.NoReceiptLost | src/rgb_sweep.rs:115-150 | over every run, lost caches included, a receipt stays in the store unchanged until a receipt on the very same inputs has been consumed |
| SweepPasses.PassIsSteps | src/rgb_sweep.rs:115-150 | a whole pass is a sequence of the consuming and removing steps of a run, with the receipts and the consumed ones that the method leaves |
| SweepRuns.StepKeepsInv | src/ldk.rs:3884-4052 | every step that does not lose the cache keeps: cached transactions are pairwise equal or disjoint, every coloured sweep handed out is in the stored cache and in memory, and no conflict is in the log |
| SweepRuns.StepKeepsOwn | src/ldk.rs:3881-3914 | with hashes that fix inputs, every step keeps caches, receipts and handouts on their own inputs |
| SweepRuns.StepKeepsDoomed | src/rgb_sweep.rs:115-150 | while the cache is kept, a key about to be removed holds nothing unconsumed and nothing else can be stored under it |
| SweepRuns.AttemptOutcome | src/ldk.rs:3872-4219 | an attempt either leaves the caches and returns a cached transaction or one on untouched inputs, or adds one transaction to the stored cache, and hands it out only if that write succeeded |
| SweepRuns.NoReceiptOverlaps | src/rgb_sweep.rs:63-108 | when the search reports no receipt, every stored receipt spends other inputs |
| SweepRuns.ScanMatches | src/rgb_sweep.rs:63-108 | a receipt found for reuse is a stored one and spends exactly the requested inputs |
| SweepRuns.NothingCached | src/ldk.rs:3893-3903 | a miss in the cache means no cached transaction spends any of the inputs, a hit spends exactly them |
| Sweep.FindPreparedSweep | src/rgb_sweep.rs:63-108 | the loop over keys computes the scan: refused on a partial overlap, a second match, or nothing matching while something is unreadable |
| Sweep.RgbOutputSpender.TrySpendSpendableOutputs | src/ldk.rs:3872-4105 | cache by hash, cache by inputs, receipts, new preparation, in that order, with the whole new state; what that is in each case is stated by the `SweepReplies` rows |
| SweepReplies.GivenExactly | src/ldk.rs:3872-4105 | an attempt gives a transaction iff the hash is cached; or the first cached transaction touching the inputs spends exactly them; or nothing is cached, one readable receipt spends some of the inputs and it spends exactly them, and signing and the cache write work; or nothing is cached, every listed receipt is readable and spends other inputs, and the plan is plain, or coloured with the receipt write, signing and the cache write working |
| SweepReplies.AnswersFromCache | src/ldk.rs:3884-3903 | a cached hash gives its transaction; otherwise the first cached transaction touching the inputs is given if it spends exactly them, and is an error if not; nothing changes |
| SweepReplies.AnswersFromReceipt | src/ldk.rs:4107-4219 | the one receipt on the inputs is signed: its transaction with the signature is cached, in memory and in the store, and given; without a signature or with a failed write it is an error, and what the store has then |
| SweepReplies.AnswersFromPlan | src/ldk.rs:4040-4105 | a plain plan is given with the state unchanged; a coloured one is signed, cached and given once its receipt is stored under the hash; no plan, and a failed receipt write, are errors |
| SweepReplies.AnswersWithError | src/ldk.rs:3904-3914 | a listing that fails, receipts that clash, and an unreadable receipt with none that matches, are errors and change nothing |
| SweepReplies.SameInputsSameSweep | src/ldk.rs:3893-3903 | over every run that keeps the cache, whoever asks for the inputs of a cached transaction, under whatever hash, gets that transaction |
| SweepReplies.CachedFirst | src/ldk.rs:3893-3903 | the first cached transaction that touches the inputs decides: found if it spends exactly them, an overlap if not |
| SweepReplies.ScanUpTo | src/rgb_sweep.rs:63-108 | the scan conflicts iff some readable receipt spends some of the inputs but not exactly them, or two spend some; otherwise it has the one that matches, and whether one is unreadable |
| Sweep.RgbOutputSpender.FindCached | src/ldk.rs:3893-3903 | the loop over the cache finds the first transaction on exactly these inputs, or the first overlap |
| Sweep.RgbOutputSpender.FinishPreparedRgbSweep | src/ldk.rs:4107-4219 | sign, cache, write the cache, return; a failed write takes the transaction out of memory again |
| Sweep.RgbOutputSpender.ReconcilePreparedSweeps | src/rgb_sweep.rs:115-150 | a receipt is dropped exactly when, where the pass comes to it, it is readable, confirmed, consumed and removed, whatever is met at other keys, and otherwise kept as it is |
| Sweep.PassIsPointwise | src/rgb_sweep.rs:115-150 | a receipt fares in a pass as it would if it were the only one |
| Sweep.DroppedExactly | src/rgb_sweep.rs:115-150 | a whole pass drops a receipt iff at some place of the listing it is readable, found confirmed and consumed, and removed; it consumes no other batches and leaves the rest as they are |
| SweepColoring.ColourSweep | src/ldk.rs:3916-4052 | fails iff the record of some output does not decode, or has outputs but not this one, or gives it an amount that has no witness or no script; vanilla iff every output has no record, an empty one or amount 0; numbers are exactly 0 to k-1 in the order the contracts are first met, each carried contract is assigned what the records of its outputs sum to, and outputs follow the numbers |
| SweepColoring.ResolvedAsRecorded | src/ldk.rs:3857-3990 | what an output is resolved to is what the stored record of its transaction says: sweepable iff not defective, plain iff it carries nothing, and otherwise that contract and amount |
| SweepColoring.ColourOne | src/ldk.rs:3943-4038 | one output adds to its contract and opens a new output the first time the contract is met, keeping numbering, amounts and places |
| SweepColoring.NumberIsPlace | src/ldk.rs:3916-4052 | the output pushed for a contract comes after the extra outputs; its number is its place iff there are none |
| SweepColoring.ExtraOutputShifts | src/ldk.rs:3916-4038 | with one extra output the only contract is numbered 0, where the extra output is |
| SweepColoring.InRangeIsExact | src/ldk.rs:3857-3869 | the assigned amount is the exact sum iff the sum fits 64 bits |
| SweepColoring.SumWraps | src/ldk.rs:4028-4033 | two amounts of one contract whose sum wraps around are assigned too little |
| SwapRuns.ReservedWithinBalance | src/ldk.rs:1328-1353 | in every reachable state, lost maps included, the exact sum reserved of a contract, in memory and in the store, is at most the largest balance an authorisation saw |
| SwapRuns.OneRedemptionForEachHash | src/ldk.rs:3673-3782 | over every run two payments handed on for one hash have the same intercept id, or a restart lost the map of swaps between them |
| SwapRuns.HandedOnAsAuthorised | src/ldk.rs:3673-3782 | over every run each payment handed on is from the peer of its entry, comes in on a channel of the asset and in the amount the entry takes, goes out on a channel of the asset and in the amount the entry gives, and keeps its msat; since the last loss its entry is there, pending on it or closed |
| SwapTerms.HandedOnForARequest | src/ldk.rs:3673-3782 | over every run each payment handed on redeems an earlier request of the run: same hash and peer, the amount of the linked asset in and of the asset out, intercepted no later than the time asked for, a day at most, after a request that the balance then covered |
| SwapTerms.EntriesWereGranted | src/ldk.rs:1355-1495 | over every run every entry, in memory or in the store, has the terms of an earlier request for its hash that was not refused |
| SwapTerms.HandedOnExactly | src/ldk.rs:3601-3783 | a payment is handed on iff it is a swap payment on two known channels, for an entry that waits or is pending on it, from its peer, no later than its expiry, on its terms with either side bitcoin or not, and the entry is written; otherwise nothing changes, or the entry is closed as expired or as failed |
| SwapTerms.PendingWhileHandedOn | src/ldk.rs:3769-3783 | while it is handed on the entry is pending on it since now, in memory and in the store, and closed as failed if it cannot be forwarded |
| SwapTerms.GrantedExactly | src/ldk.rs:1355-1495 | a request is granted iff amount and time are positive, the assets are linked, the hash is not in use, what is reserved plus the amount is within the balance, and the write works; exactly its entry is added, with its terms and its last second |
| SwapTerms.RefusedFor | src/ldk.rs:1355-1495 | the error names the first thing wrong, and a request refused before the write changes nothing |
| SwapTerms.ReservedFor | src/ldk.rs:1328-1353 | a waiting entry reserves what it gives through its expiry, a pending one for 86400 seconds after it was taken up, a closed one nothing |
| SwapTerms.ListedExactly | src/routes.rs:2960-2975 | a listing closes exactly the waiting entries past their expiry, as expired, and the entries pending for more than a day, as failed |
| SwapTerms.SettledSucceeds | src/ldk.rs:3253-3288 | a settlement whose updates are made closes the entry as succeeded; one that the store stops leaves every entry |
| LostSwaps.LostMapRedeemsTwice | src/ldk.rs:6433-6442 | a run in which a hash is authorised and redeemed, the map is lost at a restart, and it is authorised and redeemed again with another intercept id |
| LostSwaps.RedeemableExactly | src/ldk.rs:3673-3721 | in every reachable state another id can be handed on for a hash after at most an authorisation iff the hash has no entry in memory or an unexpired one that waits or is pending on another id |
| LostSwaps.RedeemedExactly | src/ldk.rs:3673-3721 | for a payment that was handed on, with no other entry in memory than its own, iff its entry is no longer in memory |
| SwapRuns.TimedOutStaysOut | src/ldk.rs:3690-3721 | over every run a reservation that has timed out in memory is never live again unless its hash is authorised anew; and it stays there, out, unless a restart loses the map |
| SwapRuns.DeadUnlessRevived | src/ldk.rs:563-592 | what reserves nothing does so after a step as well, exactly unless the step is a restart that brings back a live stored copy or a grant of the hash anew |
| SwapRuns.DeadUntilRevived | src/ldk.rs:563-592 | over every run, lost maps included, it is live again only after such a step |
| SwapRuns.NotAnewUnlessLost | src/ldk.rs:1440-1442 | while no restart loses the map an entry stays in memory and its hash is not authorised anew |
| SwapRuns.ClosedSwapRevived | src/ldk.rs:3762-3767 | such a restart exists: a mismatching payment closes the swap, the write fails, the node restarts |
| SwapRuns.StepBehind | src/ldk.rs:550-592 | every step keeps: each entry in memory has a stored copy, which while the entry is not closed reserves at no time more than it |
| SwapRuns.PendingTightens | src/ldk.rs:550-561 | because the authorisation cap equals the pending timeout, handling a payment that meets its expiry reserves nothing that was not reserved |
| SwapRuns.StepKeepsInv | src/ldk.rs:3601-3783 | every authorisation, interception, listing, settlement, failed write and restart, one that loses the map included, keeps the reservation bound, the terms, and one intercept id for each hash since the last loss |
| SwapRuns.SettlingConserves | src/ldk.rs:3234-3285 | the total over all channels stays iff both updates are made or neither is, or the amount is zero |
| SwapRuns.ReplayAfterErrorLoses | src/ldk.rs:3234-3285 | an error between the two updates, followed by the replay, loses exactly the amount |
| SwapRuns.HoldingsConserved | src/ldk.rs:3234-3285 | over every run in which each settlement makes both updates or neither, holdings stay what they were, replays included |
| SwapRuns.HoldingsAccounted | src/ldk.rs:3234-3285 | over every run holdings change by exactly what the settlements brought in less what they took out |
| SwapRuns.GainsNothing | src/ldk.rs:3234-3285 | a settlement of a reachable state gains nothing iff it makes both updates or neither, or is for nothing |
| SwapRuns.UpdatesMove | src/ldk.rs:1676-1701 | the total changes by what comes in less what goes out, for the channels that have RGB data |
| SwapRuns.UpdatesAt | src/ldk.rs:3253-3282 | a channel loses the outgoing amount iff it is the next one and that update is made, gains the incoming amount iff it is the previous one and that update is made, both if it is both, and is otherwise unchanged |
| SwapRuns.ChannelAccounted | src/ldk.rs:3253-3282 | over every run each channel holds what it held at the start, plus what the settlements put into it, less what they took out of it |
| SwapRuns.ChannelAmounts.PaymentForwarded | src/ldk.rs:3234-3285 | the next channel loses the outgoing amount, then the previous one gains the incoming amount, each channel on its own and no other, stopping at the first store error |
| SwapHost.ReservedOutboundRgbAmount | src/ldk.rs:1328-1353 | the saturating fold, in any order, is the exact sum capped at the largest 64-bit number |
| SwapHost.ReservedPut | src/ldk.rs:1328-1353 | replacing one entry changes the exact sum by the difference of the two reservations |
| SwapHost.TakerSwaps.AuthorizeSwap | src/ldk.rs:1355-1495 | refuses in the order of the source, with saturating arithmetic equal to the exact test; a failed write is taken back in memory |
| SwapHost.TakerSwaps.HtlcIntercepted | src/ldk.rs:3601-3783 | the whole new state for every branch, and whether the payment was handed on; which branch that is, is stated by `SwapTerms.HandedOnExactly` |
| SwapHost.TakerSwaps.UpdateTakerSwapStatus | src/ldk.rs:563-576 | the entry with the new status and its times, in memory and as written |
| Merkle.VerifySound | src/apay_merkle.rs:105-114 | whatever proof is accepted for a leaf against the root of a batch, that leaf is in the batch and the proof is as long as the tree is high, or two preimages collide and are returned |
| Merkle.VerifyExact | src/apay_merkle.rs:105-114 | a proof is accepted iff, for some place of the full tree with the same root, the leaf is there and the proof is the one made for that place, or a collision is returned |
| Merkle.ClimbStaysInTree | src/apay_merkle.rs:105-114 | climbing from a leaf hash to any node of the tree, along any elements, starts at one of its leaves and is as long as the node is high, or a collision is returned |
| Merkle.ProofComplete | src/apay_merkle.rs:76-103 | the proof made for any index of any nonempty list leads from that leaf to the root |
| Merkle.ProofLength | src/apay_merkle.rs:76-103 | the length of a proof is the least k with at most 2^k leaves |
| Merkle.RootBinding | src/apay_merkle.rs:67-74 | lists of the same length with the same root are equal, or a collision is returned |
| Merkle.RootIgnoresRepeatedLast | src/apay_merkle.rs:51-74 | under every digest, repeating the last leaf of any odd list longer than one keeps the root |
| Merkle.SameRoot | src/apay_merkle.rs:51-74 | batches of any lengths have the same root iff they fill up to the same full tree, or a collision is returned |
| Merkle.PaddedRoot | src/apay_merkle.rs:51-74 | filling every odd level up with a copy of its last subtree keeps the root |
| Merkle.LeafPreimageInjective | src/apay_merkle.rs:27-41 | the leaf bytes determine recipient, batch, index and payment hash |
| Merkle.LeafLayout | src/apay_merkle.rs:27-41 | the bytes hashed for a leaf: 0, the tag, recipient, batch id, index in big-endian order, payment hash, at their places |
| Merkle.NodeLayout | src/apay_merkle.rs:43-49 | the bytes hashed for a node: 1, left, right |
| Merkle.LeafIsNotNode | src/apay_merkle.rs:27-49 | no leaf encoding is a node encoding |
| Merkle.NextLevel | src/apay_merkle.rs:51-65 | the loop pairs neighbours and pairs an odd last node with itself |
| Merkle.Root | src/apay_merkle.rs:67-74 | the loop over levels ends at the root |
| Merkle.Proof | src/apay_merkle.rs:76-103 | the loop collects the sibling and side at every level |
| Merkle.Verify | src/apay_merkle.rs:105-114 | accepts exactly when climbing along the proof ends at the expected root |
| BatchCommitment.BatchBinding | src/async_order.rs:162-203 | equal signed bytes mean the same recipient, host, id, size, times and list of indices and hashes, or a collision is returned |
| BatchCommitment.CommitBytesInjective | src/async_order.rs:184-203 | the signed bytes determine every field |
| BatchCommitment.CommitLayout | src/async_order.rs:184-203 | the signed bytes: tag, recipient, host, batch id, root, and size and the two times in big-endian order, at their places |
| BatchCommitment.BatchIdBinding | src/async_order.rs:151-160 | equal batch ids mean the same recipient and first index, or two preimages whose digests agree in the 16 bytes kept are returned |
| BatchCommitment.BatchIdLayout | src/async_order.rs:151-160 | the bytes hashed for a batch id: tag, recipient, first index in big-endian order |
| BatchCommitment.EntriesParsed | src/async_order.rs:162-182 | a list parses iff every payment hash does, and each entry has the index and hash of its place |
| BatchCommitment.RequestedExactly | src/async_order.rs:237-273 | which of the four input errors applies, iff it does; otherwise the batch has these keys, times, and each index and hash in its place |
| BatchCommitment.BatchRoot | src/async_order.rs:162-182 | an empty list and an unparsable hash are refused, otherwise the root over the leaves of the batch |
| BatchCommitment.BuildBatchCommitment | src/async_order.rs:237-273 | the first of the five errors that applies, in order; otherwise the signature is over the bytes of that very batch, and the hexadecimal fields decode to its host, id and root |
| BatchCommitment.DecodeHexFixed | src/async_order.rs:118-149 | the loop over pairs of digits decodes exactly the trimmed texts of twice the length that are all hexadecimal |
| OrderLedger.MergeMeaning | src/async_order.rs:1433-1492 | a batch is accepted iff it repeats recorded entries or carries on where the ledger ends; the first changes nothing, the second adds just its entries |
| OrderLedger.ReplayIsAccepted | src/async_order.rs:1433-1492 | a recorded batch is accepted again and changes nothing |
| OrderLedger.AcceptedBatch | src/async_order.rs:1433-1492 | an accepted batch repeats recorded entries or carries on |
| OrderLedger.LedgerHighest | src/async_order.rs:1421-1431 | in a ledger of n entries the highest index is n and the next one n + 1 |
| OrderLedger.ParseHashBatch | src/async_order.rs:1557-1579 | the loop parses every hash and checks consecutive indices with the saturating test |
| OrderLedger.BatchParsed | src/async_order.rs:1557-1579 | a batch parses iff every hash does and each index is one more than the one before it, or both are the greatest |
| OrderLedger.ParsedItem | src/async_order.rs:1557-1579 | each item has its index and its hash in the one lower-case spelling |
| OrderLedger.ScanBatch | src/async_order.rs:1438-1465 | finds the first conflict, and otherwise whether known and missing indices were seen |
| OrderLedger.FirstConflictExactly | src/async_order.rs:1438-1465 | no conflict iff no item repeats a hash of the batch, has a taken index or a hash held elsewhere; otherwise the first item that does decides: index conflict iff its index is taken and it repeats nothing, hash conflict if not |
| OrderLedger.CountMissingItems | src/async_order.rs:1467-1470 | counts the indices the ledger does not have |
| OrderLedger.AsyncOrderRecord.MergeHashes | src/async_order.rs:1433-1492 | accepted or refused as the ledger rules say; a refusal leaves the hashes as they were |
| AsyncOrders.EveryReachableLedger | src/async_order.rs:1062-1090 | in every reachable state each ledger has indices exactly 1 to n, n at most 200, distinct hashes, and order ids are distinct across peers |
| AsyncOrders.EntriesNeverChange | src/async_order.rs:1062-1090 | no later request changes or removes an entry or an order |
| AsyncOrders.RejectedChangesNoHash | src/async_order.rs:1062-1090 | a rejected request changes no peer's hashes |
| AsyncOrders.AcceptedReplaysForever | src/async_order.rs:1062-1090 | a request accepted once is accepted at any later time until the node restarts, and then changes nothing |
| AsyncOrders.ReplayAfterRestart | src/async_order.rs:830-857 | right after a restart, which begins with no orders, it is accepted iff its batch starts at index 1 |
| AsyncOrders.AcceptedExactly | src/async_order.rs:1062-1090 | in every state reached since a start a request is accepted iff it is well formed, an order is open or can be opened, and its batch repeats recorded entries or carries on |
| OrderRequests.RequestAcceptedExactly | src/async_order.rs:1062-1090 | the same on the request as sent and the hashes its texts stand for: version 1, 1 to 200 hashes that parse, indices that count up, an order open or ids left, and every index already there with that very hash, or a batch that starts one past the end, fits, and has only new and distinct hashes |
| OrderRequests.AcceptedInAnySpelling | src/async_order.rs:1062-1090 | a request accepted once is accepted in any spelling of its hashes at any later time until the node restarts, and then changes nothing |
| OrderRequests.RefusedExactly | src/async_order.rs:1181-1195 | which of the two errors a request gets before any state is looked at, iff it does |
| OrderRequests.ReachableLower | src/async_order.rs:1557-1579 | in every reachable state the ledgers hold hashes in their one lower-case spelling |
| OrderRequests.OpenedExactly | src/async_order.rs:1070-1090 | a well-formed request opens an order with the next id for a peer that has none, also if its batch is then refused, and nothing else does |
| OrderRequests.OrderIdsCountUp | src/async_order.rs:1075-1083 | in every reachable state the order ids are 1 to the number of orders |
| AsyncOrders.SnapshotMeaning | src/async_order.rs:1494-1504 | the reply counts exactly the entries of the ledger and names its order |
| AsyncOrders.AsyncOrderState.RecordAsyncOrderNew | src/async_order.rs:1062-1090 | the whole new state and the reply, for every outcome |
| AsyncOrders.AsyncOrderState.OpenOrder | src/async_order.rs:1062-1084 | opens an order with the next id for a peer that has none, unless the ids are used up |
| AsyncOrders.AsyncOrderState.MergeIntoOrder | src/async_order.rs:1085-1090 | merges into the order of this peer and no other |
| InvoiceCache.AnswerHoldsUntilExpiry | src/async_order.rs:1020-1060 | over every run of requests as they are sent, whatever times they had read and however they are spelled, until some accepted request from the peer for the same payment hash had read a time at or after the expiry of an answer, one with the same index, hashes and other fields gets that answer and any other is refused; a different answer means there was such a request |
| InvoiceCache.NewAnswerAfterExpiry | src/async_order.rs:1020-1060 | when no request in between had read a later time, the one that gets a new answer is itself at or after the expiry |
| InvoiceCache.StaleTimeGetsNewAnswer | src/async_order.rs:1033-1043 | otherwise a call can be given the new answer although its own time is before the expiry of the old one |
| InvoiceCache.AnswerIsStored | src/async_order.rs:1020-1060 | after an answer the entry holds it with the canonical parameters, and is the live one or a new one with the requested lifetime |
| InvoiceCache.EntryStaysOverRun | src/async_order.rs:1033-1058 | an entry stays as it is until a call on its key comes that had read a time at or after its expiry |
| InvoiceCache.CanonicalizeIdempotent | src/async_order.rs:429-451 | canonical parameters are their own canonical form |
| InvoiceCache.SameFormSameRequest | src/async_order.rs:429-451 | accepted parameters have the same canonical form iff the index values, payment hashes, description bytes and all other fields are equal, and the same canonical payment hash iff the parsed ones are equal |
| InvoiceCache.SameKeySamePayment | src/async_order.rs:1020-1060 | accepted requests share a key of the cache iff they are from one peer and for one payment hash |
| InvoiceCache.AcceptedExactly | src/async_order.rs:429-440 | parameters are accepted iff index, payment hash and description hash parse; the error names the first that does not |
| InvoiceCache.DescriptionHashAccepted | src/async_order.rs:438-439 | exactly 64 hexadecimal digits, with white space around them, are a description hash |
| InvoiceCache.AnsweredExactly | src/async_order.rs:1020-1060 | a request is answered iff it equals the one of a live entry, or there is none and the provider answers with an expiry in range; only the entry of its key changes, and an expired one never stays |
| InvoiceCache.RequestInvoiceCache.ReceiveRequestInvoice | src/async_order.rs:1020-1060 | the whole new cache and the reply, for every outcome, on the parameters as they are sent |
| PaymentBook.IndicesStayUnique | src/ldk.rs:6316-6403 | over every run of startups, maps that do not decode, stamps, failed staged writes and crashes between the two backfill writes, no index is there twice in memory or in what decodes of the store, and the counter stays above all |
| LostPayments.StoreStaysUnique | src/ldk.rs:6316-6403 | over every run at whose starts no map that does not decode holds an index above all that do, no index is there twice anywhere in the store |
| LostPayments.StoreUniqueExactly | src/ldk.rs:6316-6403 | after a completed start no index comes to be twice in the store before the next one iff something was missing, so that both maps were written, or no stored map holds an index at or above the counter |
| LostPayments.LostMapRepeatsIndex | src/ldk.rs:6319-6323 | an inbound map with index 1 does not decode, nothing is missing, and the next outbound payment is stored with index 1 |
| PaymentBook.BackfillKeepsUnique | src/ldk.rs:6344-6403 | a completed backfill, and one that stopped between its two writes, leaves indices unique |
| PaymentBook.BackfillFollowsOrder | src/ldk.rs:6344-6403 | new indices are above all old ones and follow creation time and key across both maps |
| PaymentBook.CounterAboveAll | src/ldk.rs:6344-6403 | the counter is above every index |
| PaymentHistory.BackfillByTimeAndKey | src/ldk.rs:6363-6393 | records without an index are numbered by creation time and then key, in one sequence over both maps, an inbound one before an outbound one that agrees on both |
| PaymentHistory.BackfillOnlyIndexes | src/ldk.rs:6376-6393 | the backfill changes nothing but missing indices, and leaves none missing |
| PaymentHistory.BackfillHasNoGaps | src/ldk.rs:6376-6403 | every number past the old indices and below the counter is used |
| PaymentHistory.CounterIsNext | src/ldk.rs:6344-6403 | the counter is one past the greatest index after the backfill, or 1 if there is none |
| PaymentHistory.RecordStays | src/ldk.rs:6316-6403 | over every later run, crashes, failed writes and interrupted backfills included, a stored record keeps its creation time and index, in the store and in memory, while nothing replaces it and its map decodes |
| PaymentHistory.RecordedIndexStays | src/ldk.rs:493-642 | so a payment that was recorded and written keeps the index it was given then |
| PaymentHistory.InboundStored | src/ldk.rs:493-517 | a new inbound payment has its details and the next index, in memory and as written; a staged one that cannot be written is not there, its index used up; nothing else changes |
| PaymentHistory.OutboundStored | src/ldk.rs:625-642 | the same for an outbound one, refused while one under its key has not failed |
| PaymentHistory.ChangeKeepsIndex | src/ldk.rs:769-819 | a change of a known payment sets status and details and leaves its creation time and index |
| PaymentBook.StepKeepsInv | src/ldk.rs:493-642 | every step keeps indices unique in each pair of maps a crash can leave, and below the counter |
| PaymentBook.PaymentRecords.StartNode | src/ldk.rs:6316-6403 | maps that do not decode count as empty; backfill, the two writes if anything was missing, and the counter, with a stop before or between the writes |
| PaymentBook.PaymentRecords.AddInboundPayment | src/ldk.rs:614-623 | stamps, replaces in memory and writes |
| PaymentBook.PaymentRecords.AddOutboundPayment | src/ldk.rs:625-642 | refuses a key whose payment has not failed, otherwise stamps, replaces and writes |
| PaymentBook.PaymentRecords.UpsertInboundPayment | src/ldk.rs:769-819 | changes a known record without touching its index, stamps a new one |
| PaymentBook.PaymentRecords.PersistStagedInboundPayment | src/ldk.rs:493-517 | writes first and replaces in memory only if that succeeded; the index is used up either way |
| PaymentIndex.Backfill | src/ldk.rs:6344-6403 | whatever order the maps are walked in, the result is a function of the records alone |
| PaymentIndex.SortStable | src/ldk.rs:6363-6374 | sorting by creation time and key puts the collected records in strict order and keeps all of them |
| PaymentIndex.RankIsPlace | src/ldk.rs:6363-6393 | the place of a record in the sorted list is the number of missing records before it |
| PaymentIndex.AssignIndices | src/ldk.rs:6376-6393 | the loop gives each missing record the greatest index plus one plus its rank |
| PaymentIndex.AssignOne | src/ldk.rs:6377-6392 | one round gives the next index to the next missing record, in whichever map it is |
| FinalizePayment.FinalizeMovesWhatIsDue | src/ldk.rs:1703-1787 | each channel's local amount changes by exactly the total of its matching pending records in both namespaces, and local plus remote stays |
| FinalizeRecords.ChannelSettled | src/ldk.rs:1730-1763 | a channel receives or pays exactly the amounts of the readable records under its 64-character id, the hash and the suffix, in both namespaces, that are not a swap record of the other side |
| FinalizeRecords.RecordsLeft | src/ldk.rs:1765-1785 | a pass removes exactly the records it applied, and a marker iff something was applied and no other key of the payment is left in its namespace |
| FinalizePayment.FinalizeTwice | src/ldk.rs:1703-1787 | finalising twice is finalising once |
| FinalizePayment.OtherKeysUntouched | src/ldk.rs:1722-1729 | keys without this payment's suffix are left alone in both namespaces |
| FinalizePayment.OtherHashHasOtherKeys | src/ldk.rs:1708-1729 | no key of another payment hash has this payment's suffix |
| FinalizePayment.PassesCommute | src/ldk.rs:1703-1787 | the two passes commute iff every non-swap record either could settle is for amount zero |
| FinalizePayment.PlainRecordDoesNotCommute | src/ldk.rs:1740-1757 | one plain record of amount one is added or taken out depending on which pass comes first |
| FinalizePayment.BothPassesMove | src/ldk.rs:1746-1757 | what both passes together change on a channel: each swap record once, on its own side |
| FinalizePayment.BothPassesClear | src/ldk.rs:1765-1779 | what is left after both passes does not depend on their order |
| FinalizePayment.BothPassesLeaveNothing | src/ldk.rs:1703-1787 | after both passes nothing that could be settled is left |
| FinalizePayment.RetrySettlesOnce | src/ldk.rs:1703-1787 | however far an attempt got, whatever failed and in whichever namespace, a retry settles a channel once iff no record for it had been applied and left in place, or only for amount zero |
| FinalizePayment.RetryMoves | src/ldk.rs:1703-1787 | the retry settles as one attempt would have, and once more for each record applied and left in place |
| FinalizePayment.RetrySettlesTwice | src/ldk.rs:1730-1767 | whenever something is due for a channel, in either namespace, an attempt that stops right after applying it makes the retry apply it again |
| FinalizePayment.NothingStuck | src/ldk.rs:1765-1779 | with every removal working the method's result is that of the fault-free operation |
| FinalizePayment.ApplyNamespace | src/ldk.rs:1719-1763 | the loop over keys applies every matching record once, and stops at a record or a channel that cannot be read, with nothing removed |
| FinalizePayment.SettleNamespace | src/ldk.rs:1712-1768 | one round: list, apply, remove what was applied as far as it can be removed |
| FinalizePayment.RgbStore.FinalizeRgbChannelPayment | src/ldk.rs:1703-1787 | with failing listings, reads and removals: what has been applied and removed, nothing else changed but markers, success exactly when every listing and read worked, and the whole new state then |
| RemoteStore.AcknowledgedIsHeldRemotely | src/async_kv_store.rs:153-232 | over every interleaving, when an operation comes to be acknowledged the remote store holds its result, and goes on holding it until another on that key takes effect there |
| RemoteStore.AcknowledgedHasSucceeded | src/async_kv_store.rs:84-232 | over every run an acknowledged operation was submitted with that key and value and then succeeded remotely |
| RemoteStore.FailedForAReason | src/async_kv_store.rs:84-124 | over every run an operation fails only after a permanent error or once shutdown has been heard |
| RemoteStore.DevelopsInStep | src/async_kv_store.rs:84-232 | a step ends an operation well iff it mirrors it, badly iff it is a permanent error, a transient one after shutdown, or giving up; key and value stay |
| RemoteStore.RemoteChange | src/async_kv_store.rs:153-232 | the remote store changes only by an attempt that takes effect, and by exactly its write or removal |
| RemoteStore.LocalChange | src/async_kv_store.rs:153-232 | the local store changes only by mirroring, and by exactly its write or removal |
| RemoteStore.LocalValueIsRead | src/async_kv_store.rs:127-151 | a read gives the local value if there is one, otherwise the remote one |
| RemoteStore.FreeKeysAgree | src/async_kv_store.rs:127-232 | if the stores agreed at first, no mirror write failed and failed attempts applied nothing, they agree on every key whose lock is free, and reads return the remote value |
| RemoteStore.OneHolderForEachKey | src/async_kv_store.rs:48-55 | at most one operation on a key is between taking and releasing its lock |
| RemoteStore.AtMostOneMoreAttempt | src/async_kv_store.rs:59-61 | after a stop each operation submitted before it starts at most one more remote attempt if it was waiting or sleeping, and none otherwise |
| RemoteStore.LateOperationsAreCapped | src/async_kv_store.rs:59-61 | over every run, if some operation was listening at a stop or an earlier one was heard, every operation submitted after it starts at most one remote attempt |
| RemoteStore.LateOperationGoesOn | src/async_kv_store.rs:59-61 | if none was listening, every number of attempts of an operation submitted after the stop is reached by some run |
| RemoteStore.RetryTransient | src/async_kv_store.rs:84-124 | the loop sleeps the delays of the schedule after exactly the transient failures, and ends with the first other outcome or when shutdown is noticed |
| RemoteStore.DelaysGrowToTheCap | src/async_kv_store.rs:13-16 | delays never decrease and stay between half a second and ten seconds |
| RemoteStore.DelayIs | src/async_kv_store.rs:84-124 | the delay after the n-th failure is the lesser of 500 * 2^(n-1) and 10000 milliseconds |
| RemoteStore.DelaysOverRun | src/async_kv_store.rs:84-124 | in every reachable state an operation sleeping after its n-th failure sleeps the lesser of 500 * 2^(n-1) and 10000 milliseconds |
| RemoteStore.StepKeepsInv | src/async_kv_store.rs:84-232 | every step keeps locks and holders in agreement, and what is about to be mirrored in the remote store |
| Backup.DecryptUndoesEncrypt | src/backup.rs:302-382 | with full reads at its own chunk boundaries decryption gives back the bytes before the first short read of the file, and so the file iff the reads at the file's chunk boundaries filled the buffer |
| Backup.DecryptSucceedsExactly | src/backup.rs:357-379 | with a cipher that opens no beginning of a sealed chunk, decryption succeeds iff its reads at the chunk boundaries filled the buffer |
| Backup.ShortReadTruncates | src/backup.rs:317-337 | a file of two whole chunks whose first read gives 100 bytes comes back as those 100 bytes |
| Backup.BackupRoundTrip | src/backup.rs:302-382 | with full reads at the chunk boundaries and no counter overflow the round trip succeeds for every file, the empty one and whole chunks included |
| Backup.EncryptedLength | src/backup.rs:317-337 | encryption succeeds iff len / 239 is below 2^32, and the length is len + 16 (len / 239 + 1) |
| Backup.CiphertextChunks | src/backup.rs:302-343 | with full reads the i-th 255 bytes are bytes 239 i to 239 (i + 1) sealed at position i, and the rest is what is left sealed as the last |
| Backup.EncryptFile | src/backup.rs:302-343 | the read loop: a full buffer is encrypted as a chunk, a shorter one as the last |
| Backup.DecryptFile | src/backup.rs:345-382 | the read loop: a full buffer is decrypted as a chunk, a shorter one as the last, an empty one ends it |
| SwapString.ParsePrinted | src/swap.rs:120-211 | parsing a printed offer gives it back iff it is valid, and otherwise the error of the first rule it breaks |
| SwapString.ReparsePrinted | src/swap.rs:120-211 | whatever text parses, the result is valid, and printing and parsing it again gives the same offer |
| SwapString.ParsedExactly | src/swap.rs:144-211 | a text parses to an offer iff it has six parts that stand for its fields and the offer is valid; which error it gives otherwise |
| SwapString.PrintedLayout | src/swap.rs:120-139 | the printed form, field by field |
| SwapString.SplitExactly | src/swap.rs:145-155 | the parts of a text have no slash in them and give the text when joined with slashes |
| Text.HexStrToVec | src/utils.rs:688-707 | the loop decodes two digits a byte, refuses any other character, and drops a trailing digit |
| Text.HexRoundTrip | src/utils.rs:668-707 | a byte string is printed in two lower-case digits a byte, and decoding that gives it back |
| Text.NibbleExactly | src/utils.rs:694-699 | exactly the sixteen digits in either case are accepted, with their values |
| Text.PaymentHashAccepted | src/utils.rs:928-936 | exactly the texts of 64 or 65 hexadecimal digits are payment hashes |
| Text.PaymentHashSpellings | src/utils.rs:688-707 | two spellings are the same payment hash iff their first 64 digits agree up to case |
| Text.TrailingDigitIgnored | src/utils.rs:688-707 | every payment hash with any digit added is still that payment hash |
| Text.DecRoundTrip | src/swap.rs:144-211 | parsing a printed 64-bit number gives it back |
| Text.NumberSpellings | src/swap.rs:165-169 | any number of leading zeros and one plus sign do not change the number, and a number that does not fit is refused |
| Text.NotANumber | src/swap.rs:165-169 | the empty text, a lone sign and any other character are refused |
| Text.Trimmed | src/async_order.rs:127-145 | trimming takes away exactly the white space around a text |
| Text.HexFixedExactly | src/async_order.rs:127-149 | exactly 2 n hexadecimal digits, with white space around them, are accepted, for the bytes they stand for |
| Text.Be64RoundTrip | src/async_order.rs:184-203 | the eight bytes, most significant first, stand for the number |

## Left out

- Startup, chain backends, peers, gossip, HTTP routes, command line, authentication and bindings: plumbing around libraries.
- rgb-lib, the Lightning library, signers, bincode and real cryptography: abstract. A signer does not change the unsigned transaction, a planned sweep spends exactly the requested outputs, and only coloured transactions carry an RGB commitment.
- A cache of sweeps or a map of swaps that did not decode may decode at a later restart here, which is more than can happen; a store error when they are read stops the node.
- The map of blinded sweep recipients (`sweep_recipients`) and the failing of a batch whose receipt could not be stored: they decide which script is used and what the wallet shows, not which inputs are spent.
- Vanilla sweeps are not recorded by the node: nothing is claimed about one handed out before the first coloured sweep of its inputs.
- SweepRuns.HandsOutWhatWasAsked: takes as a hypothesis that equal descriptor hashes mean equal inputs and that requests are not empty, because the source hashes to 64 bits.
- LostCache.NoConflictBeforeConsumed: the same hypothesis, without which it is false (`LostCache.EqualHashesConflict`): a batch under an equal hash overwrites the receipt that is left.
- SweepRuns.NoReceiptLost: the same hypothesis.
- SweepRuns.NoReceiptLostUnconsumed: the same hypothesis.
- Swaps entered through the taker API, which overwrites an entry with the same hash (src/ldk.rs:544-548): the swap runs start from authorisations, which refuse a hash that is there.
- SwapRuns.OneRedemptionForEachHash: swaps with a bitcoin leg are modelled in the handler, but value is only accounted for between two assets.
- SwapRuns.StepKeepsInv: a listing reads and closes an entry in one step, while the source closes it from a snapshot; closing an entry at any time keeps the invariant, so nothing is gained by the finer steps.
- SwapRuns.ChannelAmounts.PaymentForwarded: the clearing of pending markers before the updates is not part of it, and amounts are unbounded integers because `update_rgb_channel_amount` is not in this repository.
- FinalizePayment.FinalizeMovesWhatIsDue: balances are unbounded integers, for the same reason.
- A failed `unwrap` on a store write stops its handler here; a poisoned mutex and the panics that follow are not modelled.
- Payment index and order counters do not wrap around at 2^64 in `PaymentBook`; `AsyncOrders` models the exhaustion of order ids.
- Other updates of inbound payment records (claiming, failing) change the same fields as `UpsertInboundPayment` and no index.
- The local-only mode of the remote-first store, listing, routing between stores, futures dropped half way, and remote attempts that take effect after they were reported as failed.
- The remote-first store is modelled on values as interleaved steps rather than as an object, because its operations suspend at every await; only its retry loop is a method.
- Trimming of Unicode white space other than the ASCII kinds, and the limit of the monotonic clock type, which is an input of `InvoiceCache`.
- `apay_attest_bytes`: domain and user name are joined without a separator, so no injectivity holds.
- Atomic intents of the local store, the fence of the remote one, mnemonic and JSON-RPC envelopes, funding events and virtual channels.
