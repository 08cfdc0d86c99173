# Trusted sequencer: a verified model

The sequencer takes Ethereum blocks, applies their transactions to its own account store, groups
the transactions into batches of 128, and commits to each batch: a SHA-256 Merkle root over the
transactions, a Keccak trie root over the accounts, a batch hash over both, and a commitment over
the batch hash and the batch's metadata. Batches form a hash chain in a database and are submitted,
proved and marked verified.

This project models that core in Dafny 4.11 and proves what it promises. `dafny verify
dfyconfig.toml` checks everything.

| file | what it holds |
|---|---|
| `Bytes.dfy`, `Hex.dfy`, `Rlp.dfy` | byte strings, digests as arbitrary functions to 32 bytes, decimal numbers, hex, RLP with its decoder |
| `Accounts.dfy` | account records, the flattening of storage, the bytes the trie stores |
| `StorageOrder.dfy`, `StringOrder.dfy` | what the order of the storage iteration changes; the order of addresses |
| `TrieSpec.dfy`, `Trie.dfy`, `TrieBinding.dfy`, `AccountTrie.dfy` | the root hash as a function of a map; the heap trie that computes it; what the root commits to, for self-delimiting values and for account records |
| `StateRoot.dfy` | the state root of an account map, and when the accounts determine it |
| `Merkle.dfy`, `Commitment.dfy` | the Merkle loop and the tree of RFC 6962; batch hash, commitment, data availability payload |
| `Formats.dfy` | the stored and hashed bytes as a reader finds them |
| `BatchStore.dfy` | database keys and records, the latest-batch scan |
| `Pipeline.dfy`, `PipelineInvariant.dfy`, `PipelineTheorems.dfy` | producer, channel and batcher as interleaved steps; what every step keeps; what holds in every reachable state |
| `PipelineRecords.dfy` | each field of a batch record, and the call of CreateBatch it comes from |
| `PipelineRestart.dfy`, `PipelineRuns.dfy`, `PipelineLives.dfy` | what a restart brings back; runs that batch everything; two lives of the process, one started on the database of the other |
| `BatchIdentity.dfy`, `SharedStore.dfy`, `LedgerBatches.dfy` | what a batch made on an account snapshot commits to; the account store beside the pipeline; the ledger behind the state root of a closed batch |
| `Sequencer.dfy` | the code of both goroutines on the account store, proved to be runs of the transition system |
| `Ledger.dfy`, `Processor.dfy`, `LedgerTheorems.dfy`, `LedgerLaws.dfy` | what a transaction, a reward and the genesis do to the store; the code that does it; whole runs; the same account by account, in amounts |
| `Pool.dfy` | the transaction pool |

How it is modelled:

- A hash function is any function to 32 bytes. Binding theorems therefore end in "or a collision is
  among the strings that were hashed" (for the trie also "or a preimage of 32 zero bytes"): nothing
  is assumed about SHA-256 or Keccak.
- The trie is a class over heap nodes and takes keys of any length. A ghost map from paths to nodes
  states that the nodes form a tree without sharing; every insertion is proved to leave each hash
  field equal to the specified hash of its subtree, but for nodes below a leaf, which the code does
  not visit and the root does not depend on.
- The pipeline is a transition system. Every put, send, receive and program-counter change is a
  step of its own, the producer's and the batcher's steps interleave freely, and fetch errors,
  timeouts, prover failures and the outcomes of external calls are nondeterministic.
  `Sequencer.dfy` holds the variables and the code of the loops: a turn of the batcher's loop with
  the producer's steps anywhere in between, and a block of the producer with the batcher's turns in
  between, are proved to be runs, so what holds of reachable states holds of the variables. The
  account store is the one the processor's code writes and `CreateBatch` reads.
- The Merkle root, taken over any texts, could confuse a text of 64 bytes with an inner node
  (`LengthMatters`). The texts the producer makes are the hex of signed transactions, which are longer
  (`SignedTextIsLong`), and for lists without 64-byte texts the root binds, whatever their lengths
  (`RootBindsLists`).
- `uint64` wrap-around is explicit: nonces and batch gas are modulo 2^64. Other amounts are `big.Int`
  in the source and unbounded here.
- JSON is a round trip for database records. The metadata JSON that is hashed is spelled out; how the
  namespace is quoted is a parameter.

Points where the code departs from what it seems to intend are kept as they are. For each there is the
exact effect or condition, and an input or a reachable state on which the intent fails:

- the unused gas is given to the sender on top of charging only the used gas (`DebitLaw`,
  `LedgerIdentity`; `UnusedGasIsPaidOut`);
- a type-2 transaction is priced at fee cap plus tip cap (`PriceIsEffective`; `TipChargedOnTop`);
- fetched code is never stored (`CodeOverRuns`, `InstalledCodeIsFetched`; `FetchedCodeIsLost`);
- the state root depends on the order of the storage iteration once an account has two slots with
  different entries (`OneListExactly`, `OneRecordMapExactly`; `TwoRoots`, `TwoSlotsShow`), which no
  account of a store that comes from a genesis ever has (`OneRootPerStore`);
- state roots are not chained between batches (`ClosedRoots`, `ChainedExactly`, `NeverChained`;
  `RootsNotChainedExample`);
- a restart is transparent only under the condition of `RestartIsTransparent`, and keeps every
  transaction to one batch only under that of `RestartIsExactlyOnce` (lost in `RestartExample`, taken
  twice in `TakenTwiceExample`), and likewise every transaction to one application to the account store
  (`StoreAcrossRestart`);
- a restart can reopen the number of a verified record, which is then overwritten
  (`VerifiedAcrossRestart`; `ClosedBatchRemade`);
- transactions queued for a retry are dropped with the rest of the pool (`TxPool.Pass`, `RunConserves`;
  `FailingPass`).

## Model

| member | source | states |
|---|---|---|
| Bytes.FromDigitsOfDigits | batch/batch.go:92-96 | Reading the minimal big-endian digits of a number (big.Int.Bytes, decimal) gives the number back |
| Bytes.DigitsOfFromDigits | batch/batch.go:92-96 | Digits without a leading zero are the minimal digits of the number they denote, so the notation is a bijection |
| Bytes.DecimalDelimited | batch/batch.go:359-369 | A decimal number followed by a non-digit is read back uniquely, number and remainder |
| Hex.DecodeEncode | batch/batch.go:321-334 | hex.DecodeString undoes hex.EncodeToString without error |
| Hex.EncodeDecode | state/spt.go:118-124 | On lower-case hex of even length decoding succeeds and encoding returns the input |
| Hex.DecodeAfter | state/spt.go:118-124 | Decoding goes on behind hex text with what follows, its error included |
| Hex.DecodeStops | state/spt.go:118-124 | It stops with an error at a single character and at a pair that is no byte, and keeps what it has read |
| Hex.TrimHex | batch/batch.go:318-319 | TrimPrefix "0x" removes exactly an added prefix and never touches the hex of a root |
| Formats.HexInWords | batch/batch.go:334 | Hex text is two digits of 0123456789abcdef for each byte, the high half first |
| Rlp.DecodeEncode | state/spt.go:151 | The decoder returns the encoded item and stops exactly at the end of the encoding, whatever follows |
| Rlp.EncodeDecode | state/spt.go:151 | Whatever decodes is the canonical encoding of the item read: one encoding per item |
| Rlp.DecodeEncodeAll | batch/batch.go:230-231 | A separator-free concatenation of encodings parses back to exactly its list of items |
| Rlp.PrefixFree | state/spt.go:151 | No encoding is a proper prefix of another; equal extended encodings have equal items and remainders |
| Formats.RlpInBytes | state/spt.go:151 | Encodings written out: single bytes, short strings, and lengths 55, 56 and 1024 on both sides of the long form |
| Accounts.AccountToValue | state/spt.go:126-152 | The two nested map iterations produce the RLP record of the account for some order of contracts and slots, each exactly once; a negative balance is refused |
| Accounts.RecordPrefixFree | state/spt.go:126-152 | The stored bytes determine balance, nonce, code and storage list, and no record's bytes begin another's |
| Formats.ValueReadsAs | state/spt.go:126-152 | Whatever order the storage is gone through in, the stored bytes decode to a list of exactly four items: balance and nonce as numbers without leading zeros, the code, and a list holding one pair of contract ":" slot and value for every slot |
| Formats.LeafReadsAs | state/spt.go:161-185 | So do the bytes at every account's leaf of the trie behind a state root |
| TrieSpec.OrderOfInsertsIrrelevant | state/spt.go:171-182 | Any permutation of insertions with distinct keys stores the same map |
| TrieSpec.InsertedLookup | state/spt.go:65-93 | After insertions with distinct keys a key holds its inserted value, and keys not inserted keep theirs |
| TrieSpec.HiddenKeysDoNotCount | state/spt.go:101-110 | The recursion stops at leaves: keys that continue another stored key do not count, the root is that of the other keys alone |
| TrieSpec.SlotsInOrder | state/spt.go:48-56 | Where the children are no leaves, the hashed text has 256 slots of 32 bytes, the one at 32 b being the hash of child b, or zeros where there is none |
| TrieSpec.RootOfOne | state/spt.go:43-62 | The root over one key b of one byte is the digest of 32 b zeros, the value, and zeros for the other children |
| Trie.SPTNode.ComputeHash | state/spt.go:43-62 | A leaf hashes to its value, an inner node to the digest of its 256 slots, each the child's current hash or 32 zero bytes |
| Trie.SPT.UpdateNodeHash | state/spt.go:101-110 | From arbitrary stale inner hashes, the recursion ends with every hash in the subtree as specified, but below leaves, whatever order the children are visited in; only hash fields change |
| Trie.SPT.UpdateHashes | state/spt.go:96-98 | Rehashing once restores the whole tree's invariant, however many insertions its inner hashes lag behind |
| Trie.SPT.Insert | state/spt.go:65-77 | For any key the stored map gains or overwrites exactly that key, and the tree stays an unshared tree with leaves at the stored keys and every hash not below a leaf equal to the specified hash of its subtree |
| Trie.SPT.Get | state/spt.go:80-93 | Get agrees with the stored map on every key, present or absent |
| Trie.InsertAll | state/spt.go:172-182 | A sequence of insertions stores the map that the same sequence of map updates gives |
| Trie.OneRoot | state/spt.go:172-182 | Insertions with distinct keys end in one root hash, in whatever order, and whether the hashes are recomputed after each of them or once at the end |
| Trie.SPT.HashCoherence | state/spt.go:43-62 | In every valid tree a leaf's hash is its value, and an inner node's that is not below a leaf is the digest of the slots its children's current hash fields fill |
| Trie.SPT.PathsArePrefixes | state/spt.go:65-73 | The nodes are exactly the prefixes of the stored keys |
| Trie.SPT.GetRootHash | state/spt.go:113-115 | The root text is the hex of a function of the stored map alone; nothing for an empty tree |
| Trie.RootDependsOnContentsOnly | state/spt.go:161-185 | Two trees storing the same map have the same root hash, whatever the order and number of insertions |
| TrieBinding.SlotParse | state/spt.go:48-56 | The slots of a node split in one way: digests by their width, leaf slots because values do not start with a zero byte and none is a proper prefix of another |
| TrieBinding.NodeBinding | state/spt.go:101-110 | Equal node hashes at one path mean equal maps below it, unless a collision or zero preimage is among the strings hashed |
| TrieBinding.RootBinding | state/spt.go:43-110 | Equal root hashes mean equal stored maps of self-delimiting values (empty maps included), or a collision or a preimage of 32 zero bytes is among the strings hashed |
| AccountTrie.RecordsAreSelfDelimiting | state/spt.go:126-152 | The trie's leaf values, RLP account records, are such values |
| AccountTrie.RecordsBinding | state/spt.go:126-185 | Equal root hashes mean the same account records under the same keys, or a hash failure is exhibited |
| StateRoot.CanonicalKey | state/spt.go:118-124 | A store address has a 20-byte key that determines it |
| StateRoot.CalculateStateHash | state/spt.go:161-185 | For any address texts, in sorted order, the result is the hex root over exactly the records of the accounts, the last one with each key; empty just when there are no accounts or one cannot be encoded |
| StorageOrder.OneListExactly | state/spt.go:135-141 | All iteration orders over a storage map give one list of entries if and only if all its slots flatten to one and the same entry |
| StateRoot.OneRecordMapExactly | state/spt.go:135-141 | The records behind the root are a function of the accounts if and only if that holds of the storage of every account in the trie |
| StateRoot.StorageOrderShows | state/spt.go:135-141 | Two storage iteration orders give the same stored bytes exactly when they give the same list of entries |
| StateRoot.TwoRoots | state/spt.go:135-184 | Where it does not hold there are two iterations of the same accounts with different roots, or a hash failure is exhibited |
| StateRoot.TwoSlotsShow | state/spt.go:135-141 | It fails wherever a contract has two slots |
| StateRoot.RootCommitsToAccounts | state/spt.go:161-185 | Equal root texts mean the same addresses with the same balance, nonce, code and hashed storage list, or a hash failure is exhibited |
| StateRoot.SameSlots | state/spt.go:137-141 | Where contract names have no colon the same hashed storage list means the same value in every slot |
| Merkle.LevelKeepsTree | batch/batch.go:440-452 | One round, with an odd last digest passed on unchanged, leaves the RFC 6962 tree root where it is |
| Merkle.SplitIsPowerOfTwo | batch/batch.go:440-452 | The split point of the reference tree is a power of two |
| Merkle.SplitIsLargest | batch/batch.go:440-452 | It is the largest power of two below n, as section 2.1 of RFC 6962 asks |
| Merkle.ComputeMerkleRoot | batch/batch.go:431-454 | For every list the loop returns the section 2.1 tree of RFC 6962 (no prefix bytes) over the transaction digests, "0x0" for none, in exactly ceil(log2 n) rounds |
| Merkle.MerkleBinding | batch/batch.go:431-454 | Lists with equal roots are equal, or a collision is among the strings hashed, or their lengths differ and a transaction of one is the text of an inner node of the other |
| Merkle.RootBindsLists | batch/batch.go:431-454 | So the root binds lists of all lengths as long as no transaction text has 64 bytes |
| Merkle.LengthMatters | batch/batch.go:440-452 | With texts of that length it does not: for any two lengths there are lists with the same root |
| Formats.SmallTrees | batch/batch.go:431-454 | The roots of no, one, two and three transactions, written out in digests |
| Formats.MetadataReads | batch/batch.go:49-53 | A reader of JSON objects finds in the metadata text exactly three members, in this order: total_gas_used with the gas, timestamp with the time, rollup_namespace with the quoted namespace (a quoted string begins with a quotation mark) |
| Formats.CommitmentInWords | batch/batch.go:317-355 | The batch hash is the digest of transaction tree before state root, the commitment the digest of that digest before the metadata text, both in hex after "0x" |
| Formats.ErrorsInWords | batch/batch.go:321-350 | The result is "0x0" exactly when an input is no hex |
| Formats.ZerosInBytes | batch/batch.go:361-363 | The hash before the first batch is "0x" and 64 zeros, and an empty slot is 32 zero bytes |
| Formats.ConstantsInWords | batch/batch.go:122-146 | A batch has 128 transactions, and so has the channel room |
| Commitment.MetadataJsonInjective | batch/batch.go:338-343 | The metadata JSON determines gas, timestamp and namespace |
| Commitment.BatchHashValue | batch/batch.go:317-335 | On the roots the sequencer makes, no error branch is taken and the batch hash is the digest of tree root followed by state root |
| Commitment.CommitmentValue | batch/batch.go:338-355 | Likewise the commitment is the digest of batch hash followed by metadata JSON |
| Commitment.CommitmentBinding | batch/batch.go:365-385 | Equal commitments, over as many transactions or over texts none of which has 64 bytes, mean the same transactions, account records and metadata, or a SHA-256 collision, Keccak collision or Keccak zero preimage is exhibited |
| Commitment.SignedTextIsLong | batch/batch.go:230-231 | The hex of a signed transaction, legacy or typed, with 32 bytes in its signature words has more than 64 characters |
| Commitment.PayloadParses | batch/batch.go:388 | The joined hex sent to the data availability layer parses back to exactly the transaction list |
| BatchStore.KeyTexts | batch/batch.go:359-369 | The key strings are batch_N, batch_N_hash, state_N, proof_N, last_block and partial_batch |
| BatchStore.KeysDistinct | batch/batch.go:359-369 | All key strings are pairwise different and injective in N |
| BatchStore.GetPut | batch/batch.go:469-482 | A write shows under its own key and under no other |
| BatchStore.LatestBatch | proxy/proxy.go:804-820 | The scan stops on every database, at the end of the gap-free numbers from 1; where the saved numbers are 1 to n it returns n |
| Pipeline.FreshIsEmpty | batch/batch.go:84-119 | On an empty database processing starts at block 1 and batch 1 with empty buffers |
| PipelineInvariant.Lag | batch/batch.go:122-148 | In every state satisfying the invariant, processed transactions lead received ones by 0 to 129 |
| PipelineInvariant.BatchMadeIsRight | batch/batch.go:358-428 | CreateBatch makes the batch its number calls for: the buffered transactions, their gas sum, last timestamp, hash, commitment, and pointer to the stored hash of the batch before |
| PipelineInvariant.ClosingIsRight | batch/batch.go:169-178 | Closing makes the submitted and verified batch, stored with hash and proof, the last closed one, and its stored hash the next batch's previous hash |
| PipelineInvariant.InvKept | batch/batch.go:126-294 | Every step of either goroutine keeps the whole invariant |
| PipelineInvariant.RunInv | batch/batch.go:126-294 | The invariant holds after every run, in every interleaving |
| PipelineTheorems.ExactlyOnceInOrder | batch/batch.go:126-294 | In every reachable state the loaded and sent transactions, in block order, are cut exactly into the closed batches, the buffers and the channel; what was sent is a prefix of the blocks' transactions |
| PipelineTheorems.BuffersAligned | batch/batch.go:131-136 | The four buffers are the columns of one list of at most 128 transactions, with its gas sum as a uint64 and the last timestamp |
| PipelineTheorems.AttemptsAreRight | batch/batch.go:146-148 | Every batch ever made holds its own 128 transactions of the stream, and its account snapshot is 0 to 129 transactions ahead |
| PipelineTheorems.ClosedLag | batch/batch.go:146-178 | Every closed batch is one of those made, with both flags set, so its snapshot too is 0 to 129 transactions ahead |
| PipelineTheorems.GasIsExact | batch/batch.go:135 | The gas recorded in a closed batch is the true sum over its 128 transactions exactly when that fits in a uint64 |
| PipelineRecords.ClosedColumns | batch/batch.go:131-134 | Element by element, transactions, traces, sender balances and recipient balances of a closed batch are those fields of its own 128 transactions of the stream |
| PipelineRecords.ClosedMetadata | batch/batch.go:382 | Its metadata are their gas sum as a uint64, the time of the last of them, and the namespace |
| PipelineRecords.TimestampStays | batch/batch.go:136-178 | At all times the timestamp is that of the last transaction taken, also after its batch was closed |
| PipelineRecords.EachAttemptItsCall | batch/batch.go:405-426 | In every run the attempts are, one for one and in order, the calls of CreateBatch, and each carries the receipt, field by field, and the state root of its call |
| PipelineRecords.ClosedReceipt | batch/batch.go:148-178 | A closed batch is the last attempt at its number, and carries the receipt and state root of that call, of none that was not proved |
| PipelineRecords.StoredReceipt | batch/batch.go:405-482 | From an empty database a batch stored under N is an attempt at N with the receipt and state root of its call |
| PipelineRecords.SavedPartial | batch/batch.go:182-193 | The saved partial batch has the buffers, the number, gas, time and namespace and nothing else; an empty buffer saves nothing |
| PipelineRecords.LoadedNumber | batch/batch.go:90-98 | The stored block number is read back if it is below 2^63; otherwise, and where none is stored, it is 1 |
| PipelineTheorems.FreshLag | batch/batch.go:372-376 | From an empty database every batch stored under N is one of those made, and its snapshot was taken with 128 N transactions received and at most 129 more processed |
| PipelineTheorems.RetriesAgree | batch/batch.go:157-160 | All attempts at one batch number agree in transactions, traces, balances, metadata and previous hash |
| PipelineTheorems.HashChain | batch/batch.go:359-363 | Closed batches are numbered consecutively, each points back to the stored hash of the one before, and each is submitted, verified and stored with its hash and proof |
| PipelineTheorems.FreshChain | batch/batch.go:359-363 | From an empty database batch 1 points back to the zero hash, and batch N to what batch_(N-1)_hash holds |
| PipelineTheorems.VerifiedWasSubmitted | batch/batch.go:154-171 | Every stored record is under its own number, and verified only if submitted |
| PipelineTheorems.VerifiedIsFinal | batch/batch.go:170-173 | Once verified, a record is never overwritten, over every further run of the process |
| PipelineTheorems.RootsAreNotChained | batch/batch.go:369-370 | The first batch's previous root is the genesis root and every later one's is empty, so it is the current root of the closed batch before exactly when that is empty |
| PipelineTheorems.ClosedRoots | batch/batch.go:369-370 | The same of every closed batch |
| PipelineTheorems.SavedNumbersHaveNoGap | batch/batch.go:469-482 | In every state reachable from an empty database the saved batch numbers are exactly 1 to N |
| PipelineTheorems.LatestBatchOf | proxy/proxy.go:804-820 | So the scan returns the highest saved number there, and 0 exactly when nothing was saved |
| PipelineRestart.RestartBringsBack | batch/batch.go:84-119 | At the batcher's loop head, with the channel empty and the producer between blocks, the exact state after a restart: the one lost while 1 to 127 transactions are buffered or nothing has happened; else the first 127 transactions of the full buffer, or of the batch just closed under its old number |
| PipelineRestart.RestartIsTransparent | batch/batch.go:84-119 | So a restart there restores the lost state exactly when the buffer holds 1 to 127 transactions or nothing has happened yet |
| PipelineRestart.RestartKeepsPrefix | batch/batch.go:84-119 | Stopped at any reachable state, the restarted process has a prefix of the transactions taken, all but the last two at most, in closed batches and buffer, and goes on with a block that is not ahead of the producer's |
| PipelineRestart.PartialIsPartial | batch/batch.go:182-193 | The saved partial batch always holds 1 to 127 transactions |
| PipelineRuns.BlocksCanBeBatched | batch/batch.go:126-294 | From an empty database, for any blocks, there is a run after which everything is sent and taken, every full 128 transactions are a closed batch, and the rest is buffered |
| PipelineRuns.RootsNotChainedExample | batch/batch.go:369-370 | A reachable state whose second closed batch has an empty previous root where the first one's root is any given text |
| PipelineRuns.RestartExample | batch/batch.go:84-119 | A reachable state on which a restart loses a transaction for good: the blocks fill their batches exactly |
| PipelineLives.SecondStarts | batch/batch.go:84-119 | Stopped at any reachable state, the process started again on its database starts as every process does, with the kept rows in its buffer |
| PipelineLives.RestartIsExactlyOnce | batch/batch.go:84-293 | At the end of every run of the second process between two blocks, the earlier batches and its own stream hold each transaction of the blocks so far once and in order if and only if what was kept ends where the block begins that it went on with; otherwise exactly the transactions in between are lost, or taken twice |
| PipelineLives.TakenTwiceExample | batch/batch.go:84-293 | A stop inside a block, after which the second process comes to the end of the block with its first transaction taken twice |
| PipelineLives.VerifiedAcrossRestart | batch/batch.go:103-173 | Wherever the process stops, a verified record survives every run of the second process if and only if its number is below the resumed one; under the resumed number some run overwrites it, as long as a transaction is to come |
| PipelineLives.ClosedBatchRemade | batch/batch.go:103-152 | After a restart on an empty buffer the next transaction makes a batch under the closed number, with 127 of its transactions, and its unverified record overwrites the verified one |
| BatchIdentity.CommitmentIdentifiesBatch | batch/batch.go:358-428 | Two created batches with equal commitments, over as many transactions or over texts none of which has 64 bytes, have the same transactions, the same metadata and the same accounts in their snapshots, or a hash failure is exhibited |
| LedgerBatches.ClosedOnLedger | batch/batch.go:233-376 | The state root of the closed batch N is that of the ledger after P transactions, at least as many as the batches up to N hold and at most 129 more |
| LedgerBatches.StoreIsGood | state/processor.go:94-222 | From a genesis with well-formed addresses and no negative balance every such ledger has 20-byte keys, no negative balance, no code and no storage |
| LedgerBatches.ChainedExactly | batch/batch.go:369-376 | A previous root is the current root of the closed batch before if and only if the snapshot of that one was empty or held a negative balance |
| LedgerBatches.NeverChained | batch/batch.go:369-376 | From a genesis with any account in it, it never is |
| LedgerBatches.StoreAcrossRestart | batch/batch.go:84-293 | Across a restart at any reachable state each transaction is applied to the account store once if and only if nothing was processed after the stored block number; otherwise exactly the transactions processed since are applied twice |
| LedgerBatches.StoreGoesOn | state/state.go:51-57 | The store two processes leave one after the other is the ledger after both lists of transactions |
| LedgerBatches.EqualCommitmentsEqualLedgers | batch/batch.go:365-376 | Closed batches of any two runs with equal commitments have the same transactions and metadata, and the ledgers they were made on are equal, or a hash failure is exhibited |
| Sequencer.Sequencer.CreateBatch | batch/batch.go:358-428 | The computed batch is the one of the create step, for the receipt of the data availability layer and the state root of the account store, and carries state root, batch hash and commitment of exactly its transactions, account records and metadata; its root is empty just when the store is empty or has a negative balance |
| Sequencer.Receipt | batch/batch.go:395-409 | The receipt has the block hash, transaction hash and commitment that were answered, the commitment "0x0" after an error, and the name of the client |
| Sequencer.Sequencer.BatcherTurn | batch/batch.go:126-194 | One turn of the loop, with the producer's steps at any point and any outcome of timer and prover, goes on with a run back to the loop head and keeps the invariant and the account store; a transaction that waits is received unless the timer fires; from a buffer then full exactly one batch is made, under the current number and with the receipt of this turn, and from any other none; it is closed just when the prover succeeds, and the buffer stays otherwise |
| Sequencer.Sequencer.ProducerBlock | batch/batch.go:227-293 | One block, with the batcher's turns before each send, goes on with a run; it ends with the block sent in full and in order and the next number stored, or stuck on a full channel, which it never is when the block fits into it |
| Sequencer.ProcessBlocks | batch/batch.go:82-194 | From the loading code on, after any number of turns, the variables are in a reachable state: what was loaded and sent is cut exactly into closed batches, buffer and channel; the account store is the ledger after the transactions processed, and every batch was made on the store after exactly those processed by then |
| Processor.EVMState.GetAccount | state/state.go:32-49 | A missing account reads as an empty one |
| Processor.EVMState.SaveAccount | state/state.go:51-57 | The account is stored under the lower-case address, and reads the same in every letter case; no other changes |
| Processor.EVMState.CreateAccount | state/state.go:104-111 | The account is replaced by one with the given balance, nonce 0, no code and no storage |
| Processor.EVMState.UpdateAccount | state/state.go:124-132 | Balance and nonce are set, code and storage stay |
| Processor.EVMState.SetStorage | state/state.go:135-145 | One slot of one contract in one account is set |
| Processor.EVMState.GetAllAccounts | state/state.go:74-91 | The iteration collects exactly the store |
| LedgerLaws.OneAccount | state/state.go:32-57 | Spellings of an address that differ in the case of letters only read and write one account; any two others have accounts of their own |
| LedgerLaws.DecodeEitherCase | state/spt.go:118-124 | Reading an address as bytes does not depend on the case of its letters |
| Processor.Processor.ProcessTransaction | state/processor.go:94-222 | Applied just when there are a transaction, a block number, a sender and a receipt within the gas limit and the sender's balance covers value and used gas at the price of the kind; otherwise the first failing check is returned and the store stays; an applied one changes every account as `EachAccount` says |
| LedgerLaws.OutcomeIs | state/processor.go:94-141 | The outcome is the first check that fails, in their order, or acceptance when none does |
| LedgerLaws.WhichApply | state/processor.go:109-141 | Of the requests that pass the others, those are applied that leave the sender's balance less value and gas used times price not negative |
| LedgerLaws.EachAccount | state/processor.go:143-218 | The account at every address after an applied transaction, in amounts: the sender charged and its nonce moved on; the recipient credited, with the fetched slots stored, or begun anew with the value, as is the contract at the address made from sender and nonce; everybody else as before |
| LedgerLaws.OthersUntouched | state/processor.go:143-218 | Nobody but sender and recipient, or new contract, sees a transaction |
| LedgerLaws.AddressesAfter | state/processor.go:154-218 | Exactly their addresses are in the store afterwards, beside those that were |
| LedgerLaws.FullGasCharge | state/processor.go:114-144 | Where all gas is used, a sender loses the value and gas limit times gas price, or for type 2 gas limit times fee cap plus tip |
| Processor.Processor.CreateContract | state/processor.go:159-187 | Whatever slots are stored first, the branch ends with a bare account of the transferred value at the target |
| Processor.Processor.Credit | state/processor.go:188-218 | The call branch credits the recipient, or creates it when it has neither balance nor nonce |
| Processor.Processor.ProcessBlockRewards | state/processor.go:224-283 | The loop leaves the store the ledger gives for the reward, and refuses an empty block number or signer |
| LedgerLaws.OnlySignerGains | state/processor.go:225-279 | Of all accounts only the signer's balance changes, and nothing without block number or signer |
| LedgerLaws.NothingGained | state/processor.go:239-244 | Transactions without a receipt give the signer nothing |
| LedgerLaws.GainOfOne | state/processor.go:246-268 | One transaction with a receipt gives gas used times tip for type 2; for others gain plus gas used times base fee is gas used times price, and nothing when the price is below the base fee |
| LedgerLaws.GainAddsUp | state/processor.go:239-269 | What two parts of a block give adds up |
| Processor.Processor.SeedGenesis | state/processor.go:63-77 | Every allocated address gets a bare account with a balance allocated to it, whatever the iteration order; the rest is kept |
| LedgerLaws.SeededAccount | state/processor.go:63-77 | An allocation seeds the account at its address, written with "0x" or without and in any letter case, with exactly its balance, and no other account |
| LedgerTheorems.TotalStep | state/processor.go:143-218 | One event changes the total balance by what it mints less what it overwrites, self-transfers and new recipients included |
| LedgerTheorems.LedgerIdentity | state/processor.go:94-283 | Over every run the total is the initial one plus (gasLimit - 2 gasUsed) gasPrice per applied transaction and the block fees, less the balances contract creations overwrote |
| LedgerLaws.MintedInAmounts | state/processor.go:114-152 | What an event mints: the unused gas less the used gas at the price of the kind of transaction, or the signer's gain |
| LedgerTheorems.FreshLedgerIdentity | state/processor.go:159-187 | When contract creations find their targets unused, nothing is subtracted |
| LedgerTheorems.SupplyFromGenesis | state/processor.go:63-283 | From genesis the total balance is then at all times the allocation plus what was minted |
| LedgerTheorems.RunNonNegative | state/processor.go:139-152 | No balance ever becomes negative |
| LedgerTheorems.DebitLaw | state/processor.go:137-187 | The exact balance of the sender of any applied transaction: value and used gas less, unused gas more; so it pays exactly value and used gas if and only if all gas was used or the price is zero; a creation at its own address leaves it the value |
| LedgerTheorems.UnusedGasIsPaidOut | state/processor.go:143-152 | A transfer after which the sender keeps 8 where it should keep 4, and the total balance has grown from 10 to 12 |
| LedgerTheorems.TipChargedOnTop | state/processor.go:114-122 | A type-2 transfer whose sender pays 4 where the effective price of EIP-1559 asks for 2 |
| LedgerTheorems.FetchedCodeIsLost | state/processor.go:171-187 | A creation for which code is fetched, and the stored account has none |
| LedgerTheorems.NonceCounts | state/processor.go:145-196 | An account no creation overwrites has, modulo 2^64, its initial nonce plus the number of its applied transactions |
| LedgerTheorems.CodeOverRuns | state/processor.go:94-283 | Over every run, whatever is fetched, an account has the code it began with, or none from the moment a creation or a first credit makes it anew |
| LedgerTheorems.InstalledCodeIsFetched | state/processor.go:172-217 | The recipient ends up with the code fetched for it if and only if that is empty, when it is made anew, or the code it had, when not |
| LedgerTheorems.RunBare | state/processor.go:168-217 | From a store without code and storage none ever arrives |
| LedgerTheorems.RunCanonical | state/state.go:51-57 | Store addresses keep the form that gives 20-byte trie keys |
| LedgerTheorems.OneRootPerStore | state/spt.go:135-141 | At every transaction boundary of every run from genesis the records behind the state root are determined by the store |
| LedgerTheorems.GenesisSupply | state/processor.go:63-77 | With distinct addresses the genesis supply is the sum of the allocation |
| Pool.TxPool.AddTx | pool/pool.go:29-33 | The text is appended |
| Pool.Sort | pool/pool.go:57-59 | The result is a permutation in non-increasing gas limit |
| Pool.TxPool.Pass | pool/pool.go:38-73 | A pass attempts a permutation of exactly the decodable transactions in non-increasing gas limit and leaves the pool empty; exactly the refused ones are in it afterwards if and only if none was refused |
| Pool.AttemptsInWords | pool/pool.go:46-59 | A pass attempts each transaction that decodes as often as it is in the pool, with its own gas limit, and never a smaller gas limit before a greater |
| Pool.TxPool.SendAll | pool/pool.go:61-71 | The sending loop appends exactly the refused transactions, in order, for a retry |
| Pool.FailingPass | pool/pool.go:61-72 | A pass whose only transaction is refused and not kept |
| Pool.RunConserves | pool/pool.go:29-74 | Over any interleaving of additions and passes, attempted, dropped and pending occurrences are exactly those added, so nothing is retried |

## Left out

- StateRoot.RootCommitsToAccounts: requires addresses of the form "0x" and 40 hex digits, which `RunCanonical` keeps for stores built from such addresses; two malformed addresses can share a key, and then the root cannot tell them apart.
- TrieBinding.RootBinding: requires keys of one length, as accounts have; in a tree with keys of different lengths a leaf value and a digest can stand in the same slot.
- Formats.ValueReadsAs: takes the record to encode to fewer than 2^64 bytes, as any Go slice does.
- AccountTrie.RecordsBinding: records are taken to encode to fewer than 2^64 bytes, as any Go slice does.
- Sequencer.Sequencer.ProducerBlock: the batcher's turns in between are whole turns; its single steps between those of the producer are covered by `BatcherTurn`, where the producer moves step by step.
- Sequencer.Sequencer.CreateBatch: the account store is read at one moment; the single writes of a transaction processed at that moment are not split.
- Processor.Processor.ProcessTransaction: store reads and writes succeed, and the gas used that the node reports is not negative.
- Processor.Processor.ProcessBlockRewards: has no branch for a nil base fee, because `eth.HexToBigInt` (eth/rpc.go:142-149) returns a number for every text.
- LedgerBatches.EqualCommitmentsEqualLedgers: takes the records of the snapshots to encode to fewer than 2^64 bytes, and the quoting of JSON to tell the two namespaces apart.
- Formats.MetadataReads: takes the quoted namespace to begin with a quotation mark, as JSON strings do; the reader returns it as it stands.
- LedgerTheorems.RunCanonical: takes the addresses of senders, recipients, signers and new contracts to be well formed.
- SHA-256, Keccak, signature recovery, contract address derivation, gzip and LevelDB: parameters or plain maps; nothing is assumed of them.
- The Ethereum, prover, junction and data availability clients: their answers are nondeterministic inputs, their retry loops are not modelled.
- The letter-case checksum of address texts: addresses are compared after lower-casing, as the store does.
- The genesis file, the extra data of the signer and the signer account: `LoadGenesis` is modelled by its account-seeding loop; the signer account is in fact never created, because reading a missing account is no error.
- Decoding of `last_block` values of 2^63 and more in later arithmetic: loading treats them as 1, as the code does, and the block counter is otherwise unbounded.
- `ComputeStateRoots`, which nothing calls, and `convertToBatchStruct`, which fills the prover's input with copies of the transaction texts as placeholders.
- The JSON-RPC server, web sockets, command line and configuration: only the latest-batch scan of the proxy is modelled.
