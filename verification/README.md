# Verification model of the Aspira clearing engine, audit chain and money flow

This project models, in Dafny, the parts of Aspira Pay that move money or keep evidence of it, and proves
what they promise. `dafny verify dfyconfig.toml` checks everything.

**The C++ clearing engine.** `Ledger.dfy` has the balance operations with their 64-bit overflow guards and
cached aggregates, as functions and as a mutable store. `EngineSpec.dfy` has the command handlers and whole
runs, `CommandOutcomes.dfy` when a command succeeds, `Accounting.dfy` the books of a run, `Engine.dfy` duplicate suppression and the core loop.
`Decimal.dfy` and `SnapshotText.dfy` print and parse snapshots, `WalFormat.dfy` and `Wal.dfy` frame records in
a file, `Recovery.dfy` puts the three together, and `CrashReplay.dfy` connects the bytes to the live engine.
`DedupEviction.dfy` tells which streams of commands can be executed twice. `SpscProtocol.dfy` is the lock-free
ring as interleaved atomic steps, `Rings.dfy` its two buffers as objects, `Bits.dfy` the masks. `FeeEngine.dfy`
is the fee schedule.

**The Go audit chain.** `Merkle.dfy` has the tree, its proofs and their verifier over any hash function,
`MerkleCounts.dfy` what a root says about repeated leaves.
`AuditChain.dfy` has concurrent flushes as a state machine with failures at every database call, what an audit
query answers in any reachable state, and one uninterrupted flush as an object. `ChainHistory.dfy` has what a
block hash commits to and the order of what is recorded.

**The Go money flow.** `Accounts.dfy` has the guarded updates, the orchestrator's interleavings and the
repository. `PaymentStatus.dfy` has the transition table, `Saga.dfy` the eight-step payment saga with its
compensations and every pattern of failures, `Settlement.dfy` the journal. `FxRates.dfy` has the conversions and
`Luhn.dfy` the card check digit.

The source's stateful objects are classes here, and each of their methods is tied to a function of the old
state; the theorems are about those functions, so that they hold for every input, run or interleaving.

## What the code does that its documentation does not say

Each of these is proved, with the exact condition where there is one.

- Replaying the logged commands reproduces a run if and only if no receiver credit overflows
  (`EngineSpec.ReplayFidelity`); that branch raises settled money that no log accounts for
  (`Accounting.ConservedExactly`). Recovery itself replays nothing: it restores the last snapshot
  (`Recovery.CrashRecovery`), although a comment and the architecture speak of replay. What is recovered is
  what the bytes hold: as written, `read_all` uses the stream that the log opened for appending only
  (engine-cpp/src/WAL.cpp:112), from which nothing can be read.
- The empty snapshot of an engine without accounts makes everything logged after it unreadable
  (`Recovery.EmptySnapshotHidesTheRest`). A record whose payload is torn swallows what is appended after
  reopening: it ends the reading, or the mixed bytes are returned as a record; `WalFormat.AppendAfterTear` says
  exactly when.
- A record's header carries the sequence id of the command logged before it, and a reopened log reports 0 as
  its last sequence id (`WalStore.Wal.WriteEntry`, `WalStore.Wal.constructor`).
- The guard of the snapshot parser drops a line exactly if it has no bar or four; a line that lost two fields
  is accepted with wrong values (`SnapshotText.GuardSkips`, `SnapshotText.TruncatedLineAccepted`).
- An audit query confirms an event exactly if its batch had at least two events (`AuditChain.AuditConfirms`),
  and a payment's trail counts as intact exactly if its blocks are adjacent
  (`AuditChain.TrailVerifiedExactly`).
- The proof verifier does not check the proof's length: with a proof shorter by n, exactly the nodes of the
  n-th level pass as leaves (`Merkle.InnerNodesPass`, `Merkle.LevelSoundness`), and with a longer one exactly
  what leads to a leaf (`Merkle.LongProofsPass`, `Merkle.LongProofSoundness`).
- A root determines how often a leaf occurs exactly if the number of leaves is a power of two
  (`MerkleCounts.RootDeterminesMultiplicity`, `MerkleCounts.RootForgetsMultiplicity`).
- Nothing refuses negative total debits; commits and releases can fail exactly if the frozen balance at the
  start does not cover them (`Orchestrator.NeverFailsExactly`).
- A request whose hash was evicted is executed again. The executions are counted exactly
  (`DedupSpec.OncePerRequestExactly`), and which streams it can happen to is decided by the stream alone
  (`DedupEviction.ForgetsExactly`).
- A round trip through two rates can gain, exactly if the rounded rates multiply to more than one
  (`FxRates.RoundTripExactly`, `FxRates.RoundTripCanGain`).
- Splitting a payment can lower its fee, under the default schedule too (`FeeSpec.SplittingPaysExactly`,
  `FeeSpec.SplittingCanPay`).
- The journal records the balances of sender, fee account and receiver with the payment counted twice
  (`Saga.Runner.RecordedTwice`).
- A payment whose fee is zero can never be settled: the ledger table refuses amounts of zero
  (`Settlement.JournalInsertable`).
- A payment from CREATED can fail with the money moved. Without failures of the database it does so exactly
  if the sender has the money, but the receiver can get no account or the journal cannot be stored
  (`Saga.Runner.OutcomeForeseen`): an order worth less than 100 dollar units has no fee
  and so always fails then (`FxRates.FreeExactly`, `Saga.Runner.FeelessFails`). Its
  refund lowers no account (`Saga.RefundTakesNothing`), and its release can take another payment's hold
  (`Saga.Runner.RefusedReceiver`).
- The Luhn digit starts doubling one place too far left, unlike Annex B of ISO/IEC 7812-1; a swap of the last
  two digits is never detected (`Luhn.SwapDetectedExactly`, `Luhn.DiffersFromStandard`).
- The comment on `UpdatePaymentStatus` describes an update conditioned on the current status; the code
  conditions it on the list of all permitted source states (`PaymentStatus.UpdateStatus`).

## Model

| member | source | states |
|---|---|---|
| LedgerSpec.FreezeMoves | engine-cpp/src/Ledger.cpp:40-66 | For a non-negative amount, a freeze moves exactly the amount from available to frozen on that account and nowhere else, or fails and changes nothing; it succeeds if and only if the account exists, has the money, and frozen does not overflow |
| LedgerSpec.UnfreezeMoves | engine-cpp/src/Ledger.cpp:68-91 | The same for unfreeze: the exact success condition, the exact movement back, no effect otherwise |
| LedgerSpec.DebitMoves | engine-cpp/src/Ledger.cpp:93-117 | The same for debit, from frozen to settled |
| LedgerSpec.CreditMoves | engine-cpp/src/Ledger.cpp:119-143 | A credit of any sign adds to available, creating an absent account, and fails exactly on overflow |
| LedgerSpec.MovedSums | engine-cpp/src/Ledger.cpp:203-213 | A movement on one account is the movement of the whole ledger's column sums |
| LedgerSpec.RefusalCodes | engine-cpp/src/Ledger.cpp:40-143 | Why each operation refuses: no account, too little money, or overflow, each exactly then |
| LedgerSpec.Stamped | engine-cpp/src/Ledger.cpp:59-62 | A successful operation stamps the account with its time and counts the version up by one, modulo 2^64; a created account starts at 0 |
| LedgerSpec.OpenedOnce | engine-cpp/src/Ledger.cpp:17-26 | An account has the money of its first opening and nothing else; opening it again changes nothing |
| LedgerSpec.TotalsPreserved | engine-cpp/include/engine/Ledger.h:91-93 | No operation, whatever its amount and outcome, parts the cached aggregates from the sums over the map, modulo 2^64 |
| LedgerStore.AddOverflow | engine-cpp/include/engine/Ledger.h:24-29 | The guard reports overflow exactly if the mathematical sum leaves 64 bits, and otherwise yields that sum; it never computes an out-of-range value itself |
| LedgerStore.Recompute | engine-cpp/src/Ledger.cpp:207-213 | The loop over the accounts, in any order, computes the sums of frozen and settled modulo 2^64 |
| LedgerStore.Store.InitAccount | engine-cpp/src/Ledger.cpp:17-26 | Creates only an absent account |
| LedgerStore.Store.Freeze | engine-cpp/src/Ledger.cpp:40-66 | The update in place refines the ledger function whose meaning FreezeMoves and TotalsPreserved state |
| LedgerStore.Store.Unfreeze | engine-cpp/src/Ledger.cpp:68-91 | Refines the ledger function behind UnfreezeMoves |
| LedgerStore.Store.Debit | engine-cpp/src/Ledger.cpp:93-117 | Refines the ledger function behind DebitMoves |
| LedgerStore.Store.Credit | engine-cpp/src/Ledger.cpp:119-143 | Refines the ledger function behind CreditMoves |
| LedgerStore.Store.Restore | engine-cpp/src/Ledger.cpp:203-214 | Leaves exactly the given accounts, with both aggregates equal to their sums |
| EngineSpec.OperationsRespectSame | engine-cpp/src/Ledger.cpp:40-143 | The four operations neither read timestamps nor depend on them |
| EngineSpec.ProcessRespectsSame | engine-cpp/src/Engine.cpp:232-343 | A command takes the same branch and yields the same code and the same ledger on ledgers that differ only in timestamps |
| EngineSpec.UnloggedStep | engine-cpp/src/Engine.cpp:258-343 | A command that is not logged leaves the ledger as it was, unless it takes the receiver-overflow branch; then it always changes it |
| EngineSpec.ReplayFidelity | engine-cpp/src/Engine.cpp:232-343 | Re-executing the logged commands reproduces every prefix of a run, in all fields but timestamps, if and only if the run never takes the receiver-overflow branch |
| CommandOutcomes.CommandSucceedsExactly | engine-cpp/src/Engine.cpp:232-343 | The code of every well-formed command, told from the balances before it without the ledger operations; it is logged if and only if that code is OK |
| CommandOutcomes.FreezeOverflow | engine-cpp/src/Engine.cpp:258-265 | The freeze handler refuses a total that overflows, and exactly succeeds for the others if the money is there |
| CommandOutcomes.UndonePosts | engine-cpp/src/Engine.cpp:289-296 | The receiver-overflow branch, account by account |
| Accounting.LoggedCommandPosts | engine-cpp/src/Engine.cpp:258-343 | A logged well-formed command changes every account by exactly its posting, the fee included unless its credit overflows; sender, receiver and fee account may coincide or be new |
| Accounting.RunInvariants | engine-cpp/src/Engine.cpp:186-220 | No run parts the aggregates from the map, and no run of well-formed commands makes any balance negative, overflow branches included |
| Accounting.UndoneSums | engine-cpp/src/Engine.cpp:289-296 | What the receiver-overflow branch does: the total comes back as available money, if that fits, and yet stays settled |
| Accounting.StepSums | engine-cpp/src/Engine.cpp:258-343 | What one command does to the ledger's sums in every branch |
| Accounting.RunConserves | engine-cpp/src/Engine.cpp:186-343 | Over any run of well-formed commands, available plus frozen grows by target minus source per logged execution and by source plus fee per logged refund, settled by source plus fee per logged execution, except for exactly what the overflow branches lost and raised |
| Accounting.LeaksAddUp | engine-cpp/src/Engine.cpp:289-305 | Losses never offset each other: they sum to zero if and only if no leaking branch was taken |
| Accounting.ConservedExactly | engine-cpp/src/Engine.cpp:186-343 | The log alone accounts for the ledger's sums if and only if no fee credit overflowed and no receiver credit of a payment that costs anything |
| DedupSpec.DedupTransparent | engine-cpp/src/Engine.cpp:186-220 | With at most the maximum number of distinct non-zero hashes, the deduplicating engine ends with the ledger and log of a bare engine given the stream without its later repeats |
| DedupSpec.EvictsExactly | engine-cpp/src/Engine.cpp:395-417 | A run evicts if and only if it carries more distinct non-zero hashes than the maximum |
| DedupSpec.CountersAndCache | engine-cpp/src/Engine.cpp:192-219 | Evictions included, the cache never exceeds its maximum, processed, rejected and duplicated add up to the commands dequeued, and each processed command is logged once |
| DedupSpec.RecordedCodes | engine-cpp/src/Engine.cpp:412-415 | Every cached code is the one that some command with that hash got |
| DedupSpec.EvictedRequestRunsAgain | engine-cpp/src/Engine.cpp:400-410 | In any run, a step that repeats a hash which is no longer cached comes after an eviction, and processes the command again |
| DedupSpec.OncePerRequestExactly | engine-cpp/src/Engine.cpp:186-220 | In every run, evictions included, the commands executed are the first of each request plus exactly the forgotten repeats; without a forgotten repeat, ledger and log are those of the stream without its repeats |
| DedupEviction.ForgetsExactly | engine-cpp/src/Engine.cpp:384-417 | Some choice of evicted keys makes a run of a stream execute a request again if and only if the stream repeats a hash that was there before a full step, that is, a new hash when the distinct ones are the maximum or exceed it by whole tenths |
| DedupEviction.LostAtFullStep | engine-cpp/src/Engine.cpp:395-417 | In every valid run that has forgotten nothing so far, a hash seen but no longer cached was there before some full step |
| DedupEviction.OneTooMany | engine-cpp/src/Engine.cpp:400-410 | Such a stream: one distinct hash more than the cache holds, and the first one again |
| DedupSpec.RunCoreConcat | engine-cpp/src/Engine.cpp:176-223 | Runs compose over batches, however the queue was split |
| EngineCore.Engine.HandleExecute | engine-cpp/src/Engine.cpp:278-310 | The handler performs the execution the run model gives, in all four branches, and logs exactly then |
| EngineCore.Engine.HandleFreeze | engine-cpp/src/Engine.cpp:258-276 | Likewise for freezing, its overflow check included |
| EngineCore.Engine.HandleRelease | engine-cpp/src/Engine.cpp:312-323 | Likewise for releasing |
| EngineCore.Engine.HandleRefund | engine-cpp/src/Engine.cpp:325-337 | Likewise for refunding |
| EngineCore.Engine.ProcessCommand | engine-cpp/src/Engine.cpp:232-242 | Dispatch performs the command's outcome; an unknown type changes nothing |
| EngineCore.Engine.RecordDedupResult | engine-cpp/src/Engine.cpp:395-417 | A tenth of a full cache is erased, whichever keys come first, before the new result is recorded |
| EngineCore.Engine.ProcessOne | engine-cpp/src/Engine.cpp:186-220 | One turn of the loop is one step of the run model, with valid evictions |
| EngineCore.Engine.ProcessBatch | engine-cpp/src/Engine.cpp:177-220 | One batch is a valid run of the model, so every theorem about runs applies to it |
| Decimal.SignedRoundTrip | engine-cpp/src/Engine.cpp:509-512 | `stoll` reads back every printed 64-bit integer, negatives included, whatever non-digit follows |
| Decimal.UnsignedRoundTrip | engine-cpp/src/Engine.cpp:508-513 | `stoull` reads a printed integer back modulo 2^64, whatever non-digit follows |
| Decimal.PrintedForm | engine-cpp/src/Engine.cpp:435-440 | Numbers are printed as digits without a leading zero, after a minus sign if negative |
| Decimal.SpacesAre | engine-cpp/src/Engine.cpp:508-513 | The white space that the conversions skip: the six characters of the C locale |
| Decimal.Accepted | engine-cpp/src/Engine.cpp:508-513 | The conversions accept white space, at most one sign and digits, whatever non-digit follows |
| Decimal.Refused | engine-cpp/src/Engine.cpp:508-513 | They refuse text without a digit there |
| Decimal.Ranges | engine-cpp/src/Engine.cpp:508-513 | And values outside their types, exactly |
| SnapshotText.Print | engine-cpp/src/Engine.cpp:431-441 | The printer writes one line per account, each exactly once, in some order, and its text parses back to exactly the same accounts |
| SnapshotText.Parse | engine-cpp/src/Engine.cpp:495-515 | The line loop computes the parse of the whole text, skipped lines and failed conversions included |
| SnapshotText.LineRoundTrip | engine-cpp/src/Engine.cpp:500-514 | A printed line parses to the account it was printed from |
| SnapshotText.LineIs | engine-cpp/src/Engine.cpp:435-440 | The line as written: id, available, frozen, settled, version and time, with bars between |
| SnapshotText.LinesRejoin | engine-cpp/src/Engine.cpp:498 | Splitting into lines loses nothing but one newline at the very end |
| SnapshotText.SnapshotRoundTrip | engine-cpp/src/Engine.cpp:431-515 | Parsing the printed accounts, in any iteration order, gives back exactly the same map |
| SnapshotText.GuardSkips | engine-cpp/src/Engine.cpp:500-505 | The guard drops a line if and only if it has no bar or exactly four |
| SnapshotText.TruncatedLineAccepted | engine-cpp/src/Engine.cpp:500-514 | A line without its last two fields is accepted, with the id as version and the available balance as time |
| WalFormat.HeaderRoundTrip | engine-cpp/include/engine/Types.h:206-212 | Reading the 32 header bytes gives back the five fields |
| WalFormat.HeaderSays | engine-cpp/src/WAL.cpp:151-168 | The first 32 bytes of a written record say its sequence id, type, payload size, time and checksum, and the payload follows |
| WalFormat.WordSample | engine-cpp/src/WAL.cpp:167 | Words are little-endian |
| WalFormat.ReadPrefix | engine-cpp/src/WAL.cpp:209-257 | Readable records are read in full, and reading goes on with whatever follows |
| WalFormat.CrashPrefix | engine-cpp/src/WAL.cpp:209-257 | Cut the bytes anywhere: exactly the records wholly before the cut are read back |
| WalFormat.FlushedSurvive | engine-cpp/src/WAL.cpp:147-189 | A cut after the flushed bytes leaves every flushed record readable |
| WalFormat.CorruptionStops | engine-cpp/src/WAL.cpp:234-248 | A payload that no longer matches its non-zero checksum ends the reading just before it, whatever follows |
| WalFormat.AppendAfterTear | engine-cpp/src/WAL.cpp:110-116 | For any payload torn at any byte, with or without a checksum: nothing appended to the reopened log is ever read if and only if it does not complete the payload, or a checksum was stored and the mixed payload does not have it; otherwise the mixed payload is returned as a record |
| WalFormat.UnreadableLost | engine-cpp/src/WAL.cpp:222-226 | A record whose payload is empty or over 100 MiB is never read back as written |
| WalFormat.ReadBackExactly | engine-cpp/src/WAL.cpp:147-257 | A log is read back in full if and only if every payload has 1 byte to 100 MiB |
| WalStore.Wal.constructor | engine-cpp/src/WAL.cpp:110-116 | Opening keeps the file's bytes and starts the last sequence id at 0 |
| WalStore.Wal.WriteEntry | engine-cpp/src/WAL.cpp:147-180 | Appends exactly one encoded record under the previous sequence id, and keeps the flush policy's promise |
| WalStore.Wal.LogCommand | engine-cpp/src/WAL.cpp:124-129 | The record carries the sequence id of the command logged before |
| WalStore.Wal.LogEvent | engine-cpp/src/WAL.cpp:131-141 | Likewise for events |
| WalStore.Wal.WriteSnapshot | engine-cpp/src/WAL.cpp:143-145 | Appends a snapshot record and leaves the last sequence id alone |
| WalStore.Wal.Flush | engine-cpp/src/WAL.cpp:182-189 | Afterwards all bytes written so far are flushed and none are counted as buffered |
| WalStore.Wal.ReadEntries | engine-cpp/src/WAL.cpp:209-257 | The read loop computes the reader function that the crash theorems are about |
| WalStore.BoundedLoss | engine-cpp/src/WAL.cpp:147-189 | However a crash cuts the unflushed bytes, all records survive under the every-record policy, and all but fewer than a batch of the last ones under the batch policy |
| Recovery.RestoreFromWal | engine-cpp/src/Engine.cpp:473-538 | Restart leaves the ledger that going through the readable entries in order gives; the sequence is the log's in-memory one |
| Recovery.CrashRecovery | engine-cpp/src/Engine.cpp:473-538 | Write any commands, events and snapshots, cut the bytes anywhere, restart: the ledger is exactly that of the last snapshot wholly before the cut, aggregates recomputed |
| Recovery.EmptySnapshotHidesTheRest | engine-cpp/src/Engine.cpp:431-443 | After the snapshot of a ledger without accounts, nothing logged later is ever recovered |
| CrashReplay.RecoverAndReplay | engine-cpp/src/Engine.cpp:431-521 | A run with snapshots between its commands that avoids the receiver-overflow branch, its log cut at any byte: recovery yields exactly the live ledger at the last snapshot wholly before the cut, and replaying the commands logged after it reaches the live ledger at the last record before the cut, in all fields but timestamps |
| Bits.MaskIsModulo | engine-cpp/include/engine/CommandQueue.h:51-53 | Masking with a power of two less one is the remainder, for every index |
| SpscProtocol.SlotIs | engine-cpp/include/engine/CommandQueue.h:51-53 | So the slot of an index is its remainder by the capacity |
| Bits.PowerTest | engine-cpp/src/CommandQueue.cpp:16 | `n & (n - 1)` is zero exactly for the powers of two |
| Bits.RoundUp | engine-cpp/src/CommandQueue.cpp:12-22 | The shift loop yields the least power of two that is at least the capacity asked for |
| SpscProtocol.Safety | engine-cpp/src/CommandQueue.cpp:24-54 | In every interleaving of the two sides' atomic steps, the delivered items are a prefix of the accepted ones, in order, and every offered item is accepted, refused or under way |
| SpscProtocol.NextKeepsInv | engine-cpp/include/engine/EventRingBuffer.h:33-66 | Every single load, slot access and index store keeps the ring's invariant |
| SpscProtocol.WriteHitsNoLiveSlot | engine-cpp/src/CommandQueue.cpp:33-34 | The producer's write hits no slot that is accepted and not yet taken |
| SpscProtocol.RefusalExact | engine-cpp/src/CommandQueue.cpp:28-31 | A refusal is decided if and only if the observed indices are exactly one capacity apart, and it writes nothing |
| SpscProtocol.LoadSeesFullRing | engine-cpp/src/CommandQueue.cpp:26-31 | The producer observes a full ring if and only if the ring is full at the moment of that load |
| SpscProtocol.AcceptedIsForever | engine-cpp/src/CommandQueue.cpp:36-53 | No step ever retracts an accepted or a delivered item |
| SpscProtocol.EnqueuedAlone | engine-cpp/src/CommandQueue.cpp:24-39 | What an uninterrupted enqueue does, refused or not |
| SpscProtocol.DequeuedAlone | engine-cpp/src/CommandQueue.cpp:41-54 | An uninterrupted dequeue delivers the oldest accepted item that was not delivered |
| Rings.CommandQueue.constructor | engine-cpp/src/CommandQueue.cpp:12-22 | A new queue is empty and its capacity is a power of two not below the one asked for; asked for none, it has none and refuses everything |
| Rings.CommandQueue.Enqueue | engine-cpp/src/CommandQueue.cpp:24-39 | Appends to the queue's contents exactly if it is not full; the array ends as the protocol's slots |
| Rings.CommandQueue.Dequeue | engine-cpp/src/CommandQueue.cpp:41-54 | Takes the first of the contents, and nothing exactly if they are empty |
| Rings.CommandQueue.DequeueBatch | engine-cpp/src/CommandQueue.cpp:56-67 | Takes the first of the contents in order, as many as there are or as were asked for |
| Rings.CommandQueue.Drain | engine-cpp/src/CommandQueue.cpp:69-79 | Takes all of the contents in order |
| Rings.EventRingBuffer.Enqueue | engine-cpp/include/engine/EventRingBuffer.h:33-45 | Appends exactly if not full, and otherwise counts one dropped event |
| Rings.EventRingBuffer.DequeueBatch | engine-cpp/include/engine/EventRingBuffer.h:49-66 | Moves out the first of the contents in order, although the slots it leaves hold anything |
| Merkle.MerkleRoot | backend-go/pkg/crypto/hash.go:52-78 | The loops compute the recursive root |
| Merkle.OrderIsBytewise | backend-go/pkg/crypto/hash.go:66 | Strings are ordered by the first byte in which they differ, a proper prefix being smaller |
| Merkle.SmallerFirst | backend-go/pkg/crypto/hash.go:64-69 | A node hashes its two children with the smaller one first |
| Merkle.NodesOfLevel | backend-go/pkg/crypto/hash.go:60-76 | The next level has one node for each two neighbours, and hashes an odd last one with itself |
| Merkle.SmallRoots | backend-go/pkg/crypto/hash.go:52-78 | The roots of no, one, two and three leaves |
| Merkle.ClimbLevel | backend-go/pkg/crypto/hash.go:91-116 | One level of the proof loop records exactly the sibling of the node on the path, an odd last node being its own |
| Merkle.MerkleProof | backend-go/pkg/crypto/hash.go:81-118 | The loops compute the recursive proof, and none for an index outside the list |
| Merkle.VerifyMerkleProof | backend-go/pkg/crypto/hash.go:121-147 | The verdict does not depend on the leaf index, only on folding the proof |
| Merkle.Completeness | backend-go/pkg/crypto/hash.go:81-147 | Every generated proof leads from its leaf to the root and is as long as the tree is high, odd levels included |
| Merkle.HeightIsLog | backend-go/pkg/crypto/hash.go:60-76 | That height is the base-2 logarithm of the number of leaves, rounded up |
| Merkle.Soundness | backend-go/pkg/crypto/hash.go:121-147 | A proof of full height that leads to the root shows that its leaf is in the list, or two strings hashed on the way collide |
| Merkle.RootDeterminesLeaves | backend-go/pkg/crypto/hash.go:52-78 | Lists of equal height with equal roots have the same set of leaves, or two strings hashed on the way collide |
| MerkleCounts.RootDeterminesMultiplicity | backend-go/pkg/crypto/hash.go:52-78 | Lists of a power of two of leaves with equal roots have the same multiset of leaves, or two strings hashed on the way collide |
| MerkleCounts.RootForgetsMultiplicity | backend-go/pkg/crypto/hash.go:52-78 | For every number of leaves that is no power of two, any hash and any two leaves: two lists of that length with equal roots in which the leaves occur differently often |
| Merkle.InnerNodesPass | backend-go/pkg/crypto/hash.go:121-147 | In every tree, every node of the n-th level passes as a leaf, with a proof shorter than the tree is high by n |
| Merkle.LevelSoundness | backend-go/pkg/crypto/hash.go:121-147 | And nothing else does: a string that passes with such a proof is in the n-th level, or two strings hashed on the way collide |
| Merkle.LongProofSoundness | backend-go/pkg/crypto/hash.go:121-147 | A longer proof that passes first leads to a leaf, or two strings hashed on the way collide |
| Merkle.LongProofsPass | backend-go/pkg/crypto/hash.go:121-147 | Whatever leads to a leaf passes with that leaf's proof appended |
| AuditChain.ChainSafety | backend-go/internal/service/chain_svc.go:145-295 | In every interleaving of flushes that may fail at any database call: pending, in-flight and recorded events are together exactly the multiset enqueued, a failed call having had no effect; heights are contiguous, each block names its predecessor's hash and its own hash is that of its contents; every recorded row names its block's batch, and its proof leads to the block's root |
| ChainHistory.HashCommitsToBlock | backend-go/pkg/crypto/hash.go:199-202 | Equal block hashes mean equal previous hash, root, batch and count, or two different texts hash to it |
| ChainHistory.HashCommitsToHistory | backend-go/internal/service/chain_svc.go:217-220 | Two chains with the same hash at one height have the same contents at every height below, or the texts of two blocks of equal height collide |
| ChainHistory.RecordedInOrder | backend-go/internal/service/chain_svc.go:177-194 | With one flush at a time, what is recorded, in flight and pending is the sequence enqueued, in order, whatever fails |
| ChainHistory.AuditSound | backend-go/internal/service/chain_svc.go:329-352 | For any stored blocks, an accepted audit with a proof of the tree's height shows that the event is a leaf, or a collision, and that the stored predecessor is linked |
| ChainHistory.AuditComplete | backend-go/internal/service/chain_svc.go:329-352 | A genuine proof of two leaves or more is refused only for a stored predecessor with another hash |
| AuditChain.NextConserves | backend-go/internal/service/chain_svc.go:177-194 | No single step of any flush loses or duplicates an event |
| AuditChain.NextKeepsOk | backend-go/internal/service/chain_svc.go:211-282 | Two flushes that read the same latest block cannot both insert: every step keeps the chain linked |
| AuditChain.HistoryGrows | backend-go/internal/repository/chain_repo.go:18-28 | Blocks and rows are never changed or removed |
| AuditChain.AuditRow | backend-go/internal/service/chain_svc.go:320-352 | The Merkle and linkage part of an audit, for any recomputed leaf index |
| AuditChain.AuditConfirms | backend-go/internal/service/chain_svc.go:329-352 | In every reachable state an audit confirms a recorded row if and only if its batch had at least two events |
| AuditChain.VerifyChainIntegrity | backend-go/internal/service/chain_svc.go:553-560 | Accepts exactly the lists in which each block names the hash of the one before |
| AuditChain.TrailVerifiedExactly | backend-go/internal/service/chain_svc.go:523-549 | On an intact chain with distinct hashes a payment's trail is accepted if and only if its blocks have adjacent heights |
| ChainService.FlushedIs | backend-go/internal/service/chain_svc.go:177-295 | What a flush that nothing interrupts leaves, for a failure at each of its calls or none |
| ChainService.Service.EnqueueEvent | backend-go/internal/service/chain_svc.go:145-154 | Appends the event and asks for a flush exactly from the batch size on |
| ChainService.Service.FlushBatch | backend-go/internal/service/chain_svc.go:177-194 | The object's flush is the protocol's steps up to the failing call, re-queued events in front |
| ChainService.Service.CommitBatch | backend-go/internal/service/chain_svc.go:197-295 | A block is stored exactly if the first two calls succeed, rows exactly if all do |
| Accounts.UnfreezeUndoesFreeze | backend-go/internal/repository/account_repo.go:81-116 | Unfreezing what was just frozen restores the table exactly |
| Orchestrator.Safety | backend-go/internal/service/orchestrator_svc.go:28-95 | In every interleaving of any number of transactions, with any amounts: frozen is its base plus the outstanding reservations, the three balances together change only by credits, a refused transaction or one that fails to execute and is released has no net effect, a successful one moved exactly its total to settled, and without negative amounts available never goes negative |
| Orchestrator.NeverFailsExactly | backend-go/internal/service/orchestrator_svc.go:37-79 | No interleaving lets a commit or a release fail if and only if, for each transaction, the frozen balance at the start covers the negative amounts of all others |
| Orchestrator.NonNegativeNeverFails | backend-go/internal/service/orchestrator_svc.go:37-79 | Without negative amounts, no commit and no release ever fails |
| Orchestrator.NextKeepsInv | backend-go/internal/service/orchestrator_svc.go:55-79 | Every single reserve, execute, release, commit or credit keeps that |
| Orchestrator.StepsAreUpdates | backend-go/internal/service/orchestrator_svc.go:28-51 | Its reserve, release and commit are the guarded updates of the account's row |
| Orchestrator.NegativeDebitBreaksCommit | backend-go/internal/service/orchestrator_svc.go:55-79 | A reachable run in which one negative total debit, which nothing refuses, makes another transaction's commit fail after its business logic ran |
| AccountStore.Repository.FreezeFunds | backend-go/internal/repository/account_repo.go:81-97 | The guarded update moves the amount or reports failure and changes nothing |
| AccountStore.Repository.UnfreezeFunds | backend-go/internal/repository/account_repo.go:100-116 | Likewise back |
| AccountStore.Repository.DebitAccount | backend-go/internal/repository/account_repo.go:119-135 | Likewise from frozen to settled |
| AccountStore.Repository.CreditAccount | backend-go/internal/repository/account_repo.go:138-146 | Adds to available; a missing account is no error and changes nothing |
| AccountStore.Repository.AddAvailableBalance | backend-go/internal/repository/account_repo.go:149-164 | Adds to available; a missing account is an error |
| AccountStore.Repository.ExecuteTransaction | backend-go/internal/service/orchestrator_svc.go:55-95 | One whole transaction: exactly which outcome for which failures, and what each leaves |
| PaymentStatus.CanTransition | backend-go/internal/domain/payment/model.go:87-98 | For every table, answers exactly whether it lists the target under the source |
| PaymentStatus.SourcesOf | backend-go/internal/repository/payment_repo.go:107-115 | The inverted list holds exactly the states that the table lets change |
| PaymentStatus.UpdateStatus | backend-go/internal/repository/payment_repo.go:106-150 | For every table, the update changes the stored status exactly when the transition is listed |
| PaymentStatus.Milestones | backend-go/internal/domain/payment/model.go:60-84 | A history passed the six milestones its last state requires, at increasing positions |
| PaymentStatus.ClosedOnlyAfterSettlement | backend-go/internal/domain/payment/model.go:60-84 | Over histories of any length, CLOSED is reached only after the six stages before it, in order |
| PaymentStatus.RefundedOnlyAfterClosed | backend-go/internal/domain/payment/model.go:72-73 | A payment is refunded only after it was closed |
| PaymentStatus.TerminalVersusStuck | backend-go/internal/domain/payment/model.go:39-46 | "Terminal" and "no way out" agree except for exactly three states |
| PaymentStatus.InvertedTable | backend-go/internal/domain/payment/model.go:60-84 | The table read backwards, state by state: nothing else is permitted, and all of it is |
| PaymentStatus.ReachableExactly | backend-go/internal/domain/payment/model.go:60-84 | Every state can be reached from CREATED, REFUNDED included, except for two legacy ones |
| Settlement.CheckBalance | backend-go/internal/domain/ledger/model.go:119-135 | Accepts exactly the lists whose net is zero modulo 2^64 in every currency |
| Settlement.JournalBalances | backend-go/internal/service/settlement_svc.go:83-175 | The eight entries net to zero in every currency, for every order, one currency on both sides included |
| Settlement.JournalMoves | backend-go/internal/service/settlement_svc.go:83-175 | The net of every account in every currency, as a sum over its roles: sender, receiver, fee, source and target exchange |
| Settlement.JournalPairs | backend-go/internal/service/settlement_svc.go:83-175 | The entries in order: four pairs of a debit and a credit of one amount, and their accounts |
| Settlement.SettlementReplays | backend-go/internal/service/settlement_svc.go:96-141 | The settlement account's recorded balances follow from each other and end where they began |
| Settlement.ReversalCancels | backend-go/internal/service/payment_svc.go:419-439 | Appending the reversals of any entries makes every account's net zero in every currency |
| Settlement.AppendKeepsBalanced | backend-go/internal/service/payment_svc.go:419-439 | Neither a journal nor the reversals of all entries unbalance a balanced list, in any currency |
| Settlement.BuildReversals | backend-go/internal/service/payment_svc.go:425-437 | The loop builds one reversal per entry, in order |
| Settlement.JournalInsertable | migrations/005_init_ledger.sql:12 | A journal can be stored if and only if source, target and fee are all positive |
| Saga.IsStatusAtOrAfter | backend-go/internal/service/payment_svc.go:326-340 | Compares positions in the normal flow, every state outside it counting as before it |
| Saga.PaidMoves | backend-go/internal/service/payment_svc.go:361-394 | Freezing and paying moves source plus fee, target and fee, account by account, whichever of the accounts coincide |
| Saga.Runner.ExecuteFreeze | backend-go/internal/service/payment_svc.go:344-354 | Takes the hold, or fails and changes no account; without database failures it succeeds exactly if the sender can pay |
| Saga.Runner.ExecuteEngineOp | backend-go/internal/service/payment_svc.go:361-394 | Success pays all three parties; a failure before the debit changes no account, one after it keeps the sender debited |
| Saga.Runner.SettlePayment | backend-go/internal/service/settlement_svc.go:27-188 | Inserts exactly the journal of that moment, once, keeping the payment's entries balanced; without database failures it succeeds exactly if the system accounts exist and all amounts are positive |
| Saga.Runner.RecordedBalances | backend-go/internal/service/settlement_svc.go:42-175 | The balances recorded for sender, fee account and receiver differ from the stored ones by exactly the total, the fee and the target |
| Saga.Runner.JournalRecordsMoves | backend-go/internal/service/settlement_svc.go:83-175 | For every account that is not an exchange account, the journal's net is what the payment took from its available money |
| Saga.Runner.RecordedTwice | backend-go/internal/service/settlement_svc.go:42-175 | After a payment between three different accounts, the recorded balances are those before the payment with every amount counted twice |
| Saga.Runner.ExecuteRelease | backend-go/internal/service/payment_svc.go:396-402 | Without database failures, returns exactly the sender's hold, and succeeds exactly if that much is frozen |
| Saga.Runner.ExecuteRefund | backend-go/internal/service/payment_svc.go:404-417 | The whole new table: the sender is credited again, and of the receiver's and the fee account's frozen money as much is settled, if there is enough; nobody's settled balance is lowered |
| Saga.RefundOnlyGives | backend-go/internal/service/payment_svc.go:404-417 | Where receiver and fee account have not that much frozen, a refund changes the sender's available balance only |
| Saga.RefundMoves | backend-go/internal/service/payment_svc.go:404-417 | What a refund moves in each balance of each account, whichever of the three coincide |
| Saga.RefundTakesNothing | backend-go/internal/service/payment_svc.go:404-417 | In every table, a refund lowers no account: the sender's three balances together grow by the total, those of no other account change |
| Saga.Runner.CompensateSettlement | backend-go/internal/service/payment_svc.go:419-439 | Appends exactly the reversals, once, and keeps the entries balanced |
| Saga.Runner.CompensateInReverse | backend-go/internal/service/payment_svc.go:309-324 | Every completed step that has a compensation is compensated once, last first; without database failures the accounts end as those compensations, one after the other, leave them |
| Saga.CompensationsDue | backend-go/internal/service/payment_svc.go:218-240 | Which compensations are due after any number of completed steps |
| Saga.Runner.RunSaga | backend-go/internal/service/payment_svc.go:203-280 | For every order, stored status and pattern of failures: the statuses written are a path in the table; the payment's ledger entries stay balanced in every currency; a payment resumed after its execution is not debited again; a failed step ends in FAILED with its compensations run once each in reverse; a run from CREATED restores all balances unless the sender was debited, and then the debit stays; a closed payment moved exactly its amounts and has its eight entries; without database failures it closes if and only if sender, receiver and system accounts were ready, debits the sender if and only if the money was there, and leaves exactly the stated table |
| Saga.Runner.RestoredIffNotDebited | backend-go/internal/service/payment_svc.go:396-417 | After a run from CREATED whose compensations met no database failure, whatever else failed, the accounts are what they were if and only if the sender was not debited |
| Saga.Runner.OutcomeForeseen | backend-go/internal/service/payment_svc.go:203-280 | Told before the run, without database failures: the accounts end as they began if and only if the sender's money is not there; the payment fails with the money moved if and only if it is there but the receiver can get no account or the journal cannot be stored; and the final table is given in every case |
| Saga.Runner.FeelessFails | backend-go/internal/service/settlement_svc.go:130-150 | Any order without a fee whose sender has the money fails with the money moved |
| Saga.Runner.RefusedReceiver | backend-go/internal/service/payment_svc.go:376-402 | After a refused receiver the sender's total is settled, and the release takes another hold of that size out of the account's frozen money, if there is one |
| Saga.Runner.UnstoredJournal | backend-go/internal/service/payment_svc.go:396-417 | After a journal that cannot be stored every account holds what the payment gave it, and the sender the total once more; each balance is that after the refund, less any hold released |
| FxRates.QuoteClose | backend-go/internal/service/fx_svc.go:93-110 | A quote, of any amount, differs from the exact product by less than one unit plus the amount's magnitude times half of the twelfth decimal |
| FxRates.QuotedFee | backend-go/internal/service/fx_svc.go:112-115 | A quote's fee is within one unit of one percent of the amount's dollar value, and not above it |
| FxRates.QuotesGiven | backend-go/internal/service/fx_svc.go:178-191 | Which quotes there are: one currency at rate 1, or two known ones; an unknown one converts to nothing |
| FxRates.RoundTripNeverGains | backend-go/internal/service/fx_svc.go:178-202 | Quoting there and back never returns more, for any amount, negative ones included, while the rounding of both rates is worth less than one unit |
| FxRates.RoundTripExactly | backend-go/internal/service/fx_svc.go:178-202 | No amount from zero up ever gains on a round trip if and only if the two rounded rates multiply to at most one |
| FxRates.RoundTripCanGain | backend-go/internal/service/fx_svc.go:200-201 | With rates 3 and 2, an amount that comes back as one more |
| FxRates.FreeExactly | backend-go/internal/service/fx_svc.go:112-115 | A quote has no fee exactly if the amount is worth less than 100 dollar units |
| FxRates.UsdRoundTrip | backend-go/internal/service/fx_svc.go:133-154 | Converting to dollars and back loses less than one dollar's worth plus one unit and never gains |
| FeeSpec.FeeWithinBounds | engine-cpp/src/FeeEngine.cpp:89-104 | The fee lies between the floor and the cap |
| FeeSpec.FeeFormula | engine-cpp/src/FeeEngine.cpp:78-104 | A sensible rule's fee: fixed part and basis points, at least the floor, at most the cap |
| FeeSpec.RiskMarkup | engine-cpp/src/FeeEngine.cpp:78-85 | A risk score adds nothing below 40, 10 basis points below 80 and 50 from there on |
| FeeSpec.DefaultFees | engine-cpp/src/FeeEngine.cpp:17-61 | What the default rules and the conservative one charge |
| FeeSpec.CashFees | engine-cpp/src/FeeEngine.cpp:35-42 | What a cash withdrawal costs, and exactly from where to where the floor and the cap hold |
| FeeSpec.NegativeAmounts | engine-cpp/src/FeeEngine.cpp:86-90 | The variable part of a negative amount is the positive one's, negated |
| FeeSpec.FeeMonotone | engine-cpp/src/FeeEngine.cpp:66-114 | A larger amount or a higher risk score never lowers the fee |
| FeeSpec.SplittingNeverPays | engine-cpp/src/FeeEngine.cpp:66-114 | With a fixed part of at least one unit, splitting an amount never lowers the total fee |
| FeeSpec.SplittingCanPay | engine-cpp/src/FeeEngine.cpp:17-24 | Under the default schedule it does: at a high risk score, two payments of 100 are free where one of 200 is not |
| FeeSpec.SplittingPaysExactly | engine-cpp/src/FeeEngine.cpp:66-114 | Splitting lowers the total fee if and only if the rule has no fixed part, the two remainders together make a unit, neither part is under the floor and their sum is under the cap |
| FeeEngine.Engine.constructor | engine-cpp/src/FeeEngine.cpp:13-64 | Loads the six default rules, which all satisfy what the bounds assume |
| FeeEngine.Engine.Calculate | engine-cpp/src/FeeEngine.cpp:66-114 | The fee is the specified one for the scenario's rule; an unknown scenario gets the conservative rule from then on; fixed part, variable part and basis points are reported, and a fee is marked as capped exactly if the cap lowered it |
| FeeEngine.Engine.SetRule | engine-cpp/src/FeeEngine.cpp:122-124 | Replaces the rule of one scenario and no other |
| Luhn.LuhnCheckDigit | backend-go/pkg/card/luhn.go:13-30 | For any bytes, the loop computes the digit that brings the weighted sum to a multiple of ten |
| Luhn.ValidateLuhn | backend-go/pkg/card/luhn.go:33-40 | Accepts exactly the texts of two bytes or more whose last byte is the digit of the rest |
| Luhn.ValidMeans | backend-go/pkg/card/luhn.go:33-40 | For a text that ends in a digit, validity is one congruence: the weighted sum plus the last digit is a multiple of ten |
| Luhn.SumByPositions | backend-go/pkg/card/luhn.go:13-27 | The weighted sum has nothing in it but the digits, doubled at every other position from the last |
| Luhn.KnownDigits | backend-go/pkg/card/luhn.go:13-30 | For the body 18 the standard's digit is 2, and the code's is 0 |
| Luhn.AppendValidates | backend-go/pkg/card/luhn.go:13-40 | Appending the computed digit to any non-empty text validates |
| Luhn.SingleChangeDetected | backend-go/pkg/card/luhn.go:33-40 | Every change of one digit of a valid number is rejected, at any length |
| Luhn.SwapDetectedExactly | backend-go/pkg/card/luhn.go:33-40 | A swap of neighbours goes unnoticed if and only if they are equal, are 0 and 9, or are the last two digits |
| Luhn.DiffersFromStandard | backend-go/pkg/card/luhn.go:13-30 | The code's digit is that of Annex B of ISO/IEC 7812-1 if and only if the alternating sum of what doubling adds to each digit is a multiple of ten, at any length; for one digit, exactly for 0 and 9 |
| Luhn.SumsDiffer | backend-go/pkg/card/luhn.go:13-30 | Doubling the other half of the digits changes the weighted sum by that alternating sum |
| Luhn.GenerateTestPan | backend-go/pkg/card/luhn.go:48-65 | The number has the requested length and prefix, then the random digits given, and validates |

## Left out

- Several producers on one command queue: a comment calls it multi-producer, but `enqueue` loads and stores the index without a compare-and-swap. Indices are unbounded here, so their 64-bit wrap is not modelled.
- WalStore.BoundedLoss: stated for a log that started empty; what a torn payload in an existing file does to later records is `WalFormat.AppendAfterTear`.
- WalFormat.AppendAfterTear: a tear inside the 32-byte header is not covered; what is appended then becomes part of a header, and what that says depends on the bytes.
- WalStore.Wal.Flush: the bytes handed to the file, not what the device keeps; fsync, stream open modes (the log is opened for appending only, while `read_all` reads from the same stream) and the flush timer are not modelled.
- WalFormat: a checksum is any function of the payload; the body of the hash is not part of this model, and neither is the byte image of a command, which the log takes as a string.
- CrashReplay.RecoverAndReplay: for snapshots between commands, at any moments; a snapshot that falls between two ledger calls of one command is left out. The bytes of a command are any function of it, as nothing reads them back.
- EngineSpec.ReplayFidelity: the events a command emits, metrics, latencies and the assignment of sequence numbers are left out; account ids are given as numbers, and the fee account's id is a field of the command.
- Accounting.RunConserves: for commands without negative amounts whose source plus fee fits 64 bits, which nothing in the engine enforces; signed overflow of a sum or a difference, undefined in C++, wraps in the model.
- Ledger locks, the string-keyed wrappers of the ledger, and stopping the engine while its threads run.
- Merkle.Soundness: for digests of a fixed length, as SHA-256 (FIPS 180-4) has; hash and signatures are not modelled, so the signature check of an audit is left out, as it also depends on the time of insertion.
- AuditChain.ChainSafety: a database call that fails has had no effect. If the acknowledgement of a commit is lost instead, its events are queued again and recorded twice.
- AuditChain.TrailVerifiedExactly: assumes that block hashes are distinct; a collision of SHA-256 is outside the model.
- The chain's retry queue and resubmission, submit log, ledger root hash, and `BlockHash`, which nothing calls.
- AccountStore.Repository: each update is one atomic step; a database error, overflow of a BIGINT column included, is a parameter.
- Orchestrator.Safety: activity feed and balance snapshots are left out; credits to the account are not negative.
- Saga.Runner.RunSaga: receivers' new account ids are a parameter and are not those of system accounts; notifications, webhooks and chain recording are ignored as their errors are; two sagas for one payment at once are not modelled.
- Saga.Runner.CompensateSettlement: entry ids are not kept; that they are numbered per payment and unique is modelled by inserting a journal only into an empty list, and reversals only after the journal alone.
- Settlement.SettlementReplays: for a total that fits 64 bits and for customers that do not own the settlement account; what the other recorded balances are is `Saga.Runner.RecordedBalances`. Currency codes are taken in lower case, and opening and closing batches is left out.
- FxRates.RoundTripNeverGains: a sufficient condition for one amount; the exact one, over all amounts, is `FxRates.RoundTripExactly`.
- FxRates.QuoteClose: rates are positive reals; their text form, the live-rate fetch, and quotes beyond 64 bits are left out.
- FeeSpec.FeeMonotone: for rules with nothing negative and a floor not above the cap, and amounts whose fee fits 64 bits.
- FeeEngine.Engine.Calculate: the result's always-zero risk field is left out.
- Luhn.SingleChangeDetected: for digit strings, like the other statements about detection; bytes other than digits are computed with as the source does, but no promise is made about them.
- Decimal.SignedRoundTrip: locale and the skipped white space beyond the C locale's are left out.
- `engine-cpp/tests/test_engine.cpp` calls an interface of the ledger that no longer exists; the sources are followed.
- Web pages, HTTP handlers, authentication, messaging, configuration, card lifecycle, transfer stubs, reconciliation counts, risk thresholds, KYC: plumbing, or easy members only.
