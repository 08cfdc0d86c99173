/** What the pipeline guarantees in every reachable state. */
module PipelineTheorems {
  import opened Bytes
  import opened BatchStore
  import opened Commitment
  import opened Pipeline
  import opened PipelineInvariant

  /** `t` is reachable: some start, some interleaving. */
  ghost predicate Reachable(cfg: Config, s: State, actions: seq<Action>, t: State) {
    Started(s) && Run(cfg, s, actions, t)
  }

  lemma ReachableInv(cfg: Config, s: State, actions: seq<Action>, t: State)
    requires Reachable(cfg, s, actions, t)
    ensures Inv(cfg, t)
    ensures t.hist.initial == s.hist.initial && t.hist.start == s.lastBlock
    ensures t.hist.base == s.batchNo && t.hist.firstPrev == PrevFor(s.db, s.batchNo)
  {
    hide Inv;
    StartedInv(cfg, s);
    RunInv(cfg, s, actions, t);
  }

  // ---- Exactly once, in order -------------------------------------------------------------

  ghost function Stream(t: State): seq<TxData> {
    t.hist.initial + t.hist.sent
  }

  /** The loaded transactions and then those sent, cut into batches of 128, then the buffers,
      then the channel: every one is in exactly one place, in order. What was sent is a prefix
      of the blocks' transactions from the start block on, in block order. */
  lemma ExactlyOnceInOrder(cfg: Config, s: State, actions: seq<Action>, t: State)
    requires Reachable(cfg, s, actions, t)
    ensures var n, b := BATCH_SIZE * |t.hist.closed|, |t.buffers.txns|;
      && |Stream(t)| == n + b + |t.chan|
      && (forall i :: 0 <= i < |t.hist.closed| ==>
        Describes(cfg, t.hist.closed[i], Stream(t)[BATCH_SIZE * i..BATCH_SIZE * i + BATCH_SIZE]))
      && t.buffers == BuffersOf(Stream(t)[n..n + b])
      && t.chan == Stream(t)[n + b..]
    ensures t.hist.sent <= BlocksFrom(cfg.chain, s.lastBlock, t.lastBlock + 1)
  {
    hide Describes, BuffersOf, AttemptsInv, CurrentInv, ClosedInv, PartialInv, LastBlockInv, Run, Started, SumGas;
    ReachableInv(cfg, s, actions, t);
    StreamParts(t);
    forall i | 0 <= i < |t.hist.closed|
      ensures Describes(cfg, t.hist.closed[i], Stream(t)[BATCH_SIZE * i..BATCH_SIZE * i + BATCH_SIZE])
    {
      ClosedRowsOf(cfg, t, i);
    }
    SentIsPrefix(cfg, t);
  }

  lemma StreamParts(t: State)
    requires StreamInv(t)
    ensures var n, b := |t.hist.closedRows|, |t.hist.buffered|;
      && |Stream(t)| == n + b + |t.chan|
      && Stream(t)[n..n + b] == t.hist.buffered
      && Stream(t)[n + b..] == t.chan
      && Stream(t) == Taken(t) + t.chan
  {
  }

  lemma ClosedRowsOf(cfg: Config, t: State, i: nat)
    requires StreamInv(t) && ClosedInv(cfg, t) && i < |t.hist.closed|
    ensures BATCH_SIZE * i + BATCH_SIZE <= |Stream(t)|
    ensures Describes(cfg, t.hist.closed[i], Stream(t)[BATCH_SIZE * i..BATCH_SIZE * i + BATCH_SIZE])
  {
    hide Describes, Get, Stream, RowsOf;
    assert ClosedBatchInv(cfg, t, i);
    RowsInStream(t, t.hist.closed[i].batchNo);
  }

  lemma SentIsPrefix(cfg: Config, t: State)
    requires ProducerInv(cfg, t)
    ensures t.hist.sent <= BlocksFrom(cfg.chain, t.hist.start, t.lastBlock + 1)
  {
    var all := BlocksFrom(cfg.chain, t.hist.start, t.lastBlock);
    assert BlocksFrom(cfg.chain, t.hist.start, t.lastBlock + 1) == all + cfg.chain(t.lastBlock);
    assert all <= all + cfg.chain(t.lastBlock);
  }

  /** The four buffers are the columns of one list of at most 128 transactions, the gas total
      is its sum as a uint64, and the timestamp is the last one's. */
  lemma BuffersAligned(cfg: Config, s: State, actions: seq<Action>, t: State)
    requires Reachable(cfg, s, actions, t)
    ensures exists rows: seq<TxData> :: InBuffers(t, rows)
  {
    hide Run, Started, BuffersOf, SumGas;
    ReachableInv(cfg, s, actions, t);
    assert InBuffers(t, t.hist.buffered);
  }

  ghost predicate InBuffers(t: State, rows: seq<TxData>) {
    && |rows| <= BATCH_SIZE && t.buffers == BuffersOf(rows) && t.totalGas == SumGas(rows) % UINT64
    && (rows != [] ==> t.timestamp == rows[|rows| - 1].time)
  }

  // ---- Attempts ---------------------------------------------------------------------------

  /** Every batch ever made holds its 128 transactions of the stream, and the account snapshot
      behind it is 0 to 129 transactions ahead of the last of them. */
  lemma AttemptsAreRight(cfg: Config, s: State, actions: seq<Action>, t: State, a: Attempt)
    requires Reachable(cfg, s, actions, t) && a in t.hist.attempts
    ensures var first := BATCH_SIZE * (a.batch.batchNo - s.batchNo);
      && 0 <= first && first + BATCH_SIZE <= |Stream(t)|
      && Describes(cfg, a.batch, Stream(t)[first..first + BATCH_SIZE])
      && a.received == first + BATCH_SIZE - |s.hist.initial|
      && a.received <= a.processed <= a.received + CAPACITY + 1
  {
    hide Describes, Run, Started, Stream;
    ReachableInv(cfg, s, actions, t);
    AttemptInStream(cfg, t, a);
  }

  lemma AttemptInStream(cfg: Config, t: State, a: Attempt)
    requires AttemptsInv(cfg, t) && StreamInv(t) && a in t.hist.attempts
    ensures var first := BATCH_SIZE * (a.batch.batchNo - t.hist.base);
      && 0 <= first && first + BATCH_SIZE <= |Stream(t)|
      && Describes(cfg, a.batch, Stream(t)[first..first + BATCH_SIZE])
      && a.received == first + BATCH_SIZE - |t.hist.initial|
      && a.received <= a.processed <= a.received + CAPACITY + 1
  {
    hide Describes, Stream, RowsOf, HasRows, StreamInv;
    assert RightBatch(cfg, t, a.batch) && LagBounded(t, a);
    RowsInStream(t, a.batch.batchNo);
  }

  lemma RowsInStream(t: State, n: nat)
    requires StreamInv(t) && HasRows(t, n)
    ensures var first := BATCH_SIZE * (n - t.hist.base);
      && 0 <= first && first + BATCH_SIZE <= |Stream(t)|
      && RowsOf(t, n) == Stream(t)[first..first + BATCH_SIZE]
  {
    StreamParts(t);
    hide Stream;
  }

  /** All attempts at one batch number, however often the prover failed in between, agree in
      their transactions, traces, balances, metadata and previous hash. */
  lemma RetriesAgree(cfg: Config, s: State, actions: seq<Action>, t: State, a: Attempt, b: Attempt)
    requires Reachable(cfg, s, actions, t)
    requires a in t.hist.attempts && b in t.hist.attempts && a.batch.batchNo == b.batch.batchNo
    ensures a.batch.transactions == b.batch.transactions && a.batch.executionTraces == b.batch.executionTraces
    ensures a.batch.fromBalances == b.batch.fromBalances && a.batch.toBalances == b.batch.toBalances
    ensures a.batch.metadata == b.batch.metadata && a.batch.prevMerkleHash == b.batch.prevMerkleHash
  {
    hide RightBatch, LagBounded, Run, Started, CurrentInv, ClosedInv, PartialInv, LastBlockInv, ProducerInv, StreamInv,
      BufferInv;
    ReachableInv(cfg, s, actions, t);
    assert RightBatch(cfg, t, a.batch) && RightBatch(cfg, t, b.batch);
    SameNumberSameBatch(cfg, t, a.batch, b.batch);
  }

  lemma SameNumberSameBatch(cfg: Config, t: State, b: Batch, c: Batch)
    requires RightBatch(cfg, t, b) && RightBatch(cfg, t, c) && b.batchNo == c.batchNo
    ensures b.transactions == c.transactions && b.executionTraces == c.executionTraces
    ensures b.fromBalances == c.fromBalances && b.toBalances == c.toBalances
    ensures b.metadata == c.metadata && b.prevMerkleHash == c.prevMerkleHash
  {
    hide BuffersOf, SumGas, ComputeBatchHash, ComputeBatchCommitment, RowsOf, HasRows, PrevHash;
  }

  /** Every closed batch is one of the attempts, with its flags set. So the bound on the lag is
      one on the batches that are kept. */
  lemma ClosedLag(cfg: Config, s: State, actions: seq<Action>, t: State, i: nat) returns (a: Attempt)
    requires Reachable(cfg, s, actions, t) && i < |t.hist.closed|
    ensures a in t.hist.attempts && t.hist.closed[i] == a.batch.(submitted := true, verified := true)
    ensures a.received == BATCH_SIZE * (i + 1) - |s.hist.initial|
    ensures a.received <= a.processed <= a.received + CAPACITY + 1
  {
    hide Describes, CurrentInv, PartialInv, LastBlockInv, Run, Started, ProducerInv, StreamInv, BufferInv, HasRows, Get;
    ReachableInv(cfg, s, actions, t);
    var b := t.hist.closed[i];
    assert ClosedBatchInv(cfg, t, i) && FromAttempt(t, b);
    a :| a in t.hist.attempts && b == a.batch.(submitted := b.submitted, verified := b.verified);
    assert LagBounded(t, a);
  }

  /** The gas recorded in a closed batch is the true sum over its transactions exactly when that
      fits in a uint64. */
  lemma GasIsExact(cfg: Config, s: State, actions: seq<Action>, t: State, i: nat)
    requires Reachable(cfg, s, actions, t) && i < |t.hist.closed|
    ensures BATCH_SIZE * i + BATCH_SIZE <= |Stream(t)|
    ensures var sum := SumGas(Stream(t)[BATCH_SIZE * i..BATCH_SIZE * i + BATCH_SIZE]);
      t.hist.closed[i].metadata.totalGasUsed == sum <==> sum < UINT64
  {
    hide Reachable, BuffersOf, SumGas, ComputeBatchHash, ComputeBatchCommitment, Stream;
    ExactlyOnceInOrder(cfg, s, actions, t);
  }

  // ---- The hash chain ---------------------------------------------------------------------

  /** Closed batches are numbered consecutively; each points back to the hash of the one
      before, which is also the hash stored for it, and the first to what the database held at
      the start. Each is submitted and verified, is what the database holds, and has a proof. */
  lemma HashChain(cfg: Config, s: State, actions: seq<Action>, t: State, i: nat)
    requires Reachable(cfg, s, actions, t) && i < |t.hist.closed|
    ensures var b := t.hist.closed[i];
      && b.batchNo == s.batchNo + i
      && b.prevMerkleHash == (if i == 0 then PrevFor(s.db, s.batchNo) else t.hist.closed[i - 1].currentMerkleHash)
      && b.submitted && b.verified
      && Get(t.db, BatchKey(b.batchNo)) == Some(BatchRecord(b))
      && TextAt(t.db, HashKey(b.batchNo)) == b.currentMerkleHash
      && Get(t.db, ProofKey(b.batchNo)) == Some(Proof)
    ensures t.batchNo == s.batchNo + |t.hist.closed|
  {
    hide Describes, AttemptsInv, CurrentInv, PartialInv, LastBlockInv, Run, Started, Get, HasRows;
    ReachableInv(cfg, s, actions, t);
    assert ClosedBatchInv(cfg, t, i);
  }

  // ---- Runs from an empty database --------------------------------------------------------

  /** Every stored batch record is an attempt under its own number, which is at most the current
      one, and verified only after it was submitted; the current number's is verified only while the
      batcher is about to close it. */
  ghost predicate RecordInv(s: State, n: nat) {
    match Get(s.db, BatchKey(n))
    case None => true
    case Some(BatchRecord(b)) =>
      && b.batchNo == n && 1 <= n <= s.batchNo && FromAttempt(s, b)
      && (b.verified ==> b.submitted)
      && (b.verified && n == s.batchNo ==> s.batcher == PuttingHash(Verified) || s.batcher == Saved(Verified))
    case Some(_) => false
  }

  ghost predicate FreshInv(s: State) {
    s.hist.base == 1 && forall n: nat :: RecordInv(s, n)
  }

  lemma FreshKept(cfg: Config, s: State, a: Action)
    requires Enabled(cfg, s, a) && Inv(cfg, s) && FreshInv(s)
    ensures FreshInv(Next(cfg, s, a))
  {
    hide RightBatch, Get, Put, PartialRecord, BatchMade, ProducerInv, StreamInv, AttemptsInv, PartialInv, LastBlockInv,
      ClosedInv;
    hide FromAttempt, CurrentInv, ReceivedCount;
    var t := Next(cfg, s, a);
    forall n: nat
      ensures RecordInv(t, n)
    {
      assert RecordInv(s, n);
      RecordKept(cfg, s, a, n);
    }
  }

  /** What is stored under number `n` stays, but for the record being saved. */
  lemma RecordKept(cfg: Config, s: State, a: Action, n: nat)
    requires Enabled(cfg, s, a) && ControlInv(s) && CurrentInv(cfg, s) && OriginInv(s) && RecordInv(s, n)
    ensures RecordInv(Next(cfg, s, a), n)
  {
    RecordsAfter(cfg, s, a, n);
    AttemptsGrow(cfg, s, a);
    VerifiedAtHand(cfg, s, a);
    hide RightBatch, Get, FromAttempt, Next;
    var t := Next(cfg, s, a);
    match Get(t.db, BatchKey(n))
    case Some(BatchRecord(b)) => OriginStays(s, t, b);
    case _ =>
  }

  /** A verified record at hand is being saved or waits to be closed. */
  lemma VerifiedAtHand(cfg: Config, s: State, a: Action)
    requires Enabled(cfg, s, a)
    ensures var t := Next(cfg, s, a);
      && s.batchNo <= t.batchNo
      && (a.PutRecord? ==> t.batcher == PuttingHash(s.batcher.stage) && t.batchNo == s.batchNo)
      && (s.batcher == PuttingHash(Verified) || s.batcher == Saved(Verified) ==>
            t.batcher == PuttingHash(Verified) || t.batcher == Saved(Verified) || t.batchNo == s.batchNo + 1)
  {
    hide Get, Put, PartialRecord, BatchMade, ReceivedCount;
  }

  lemma RecordsAfter(cfg: Config, s: State, a: Action, n: nat)
    requires Enabled(cfg, s, a)
    ensures Get(Next(cfg, s, a).db, BatchKey(n)) ==
      if a.PutRecord? && n == s.current.batchNo then Some(BatchRecord(s.current)) else Get(s.db, BatchKey(n))
  {
    hide Get, Put, PartialRecord, BatchMade;
    match a
    case StoreLastBlock => GetPut(s.db, LastBlock, Number(Digits(256, s.lastBlock)));
    case PutRecord => GetPut(s.db, BatchKey(s.current.batchNo), BatchRecord(s.current));
    case PutHash => GetPut(s.db, HashKey(s.current.batchNo), Text(s.current.currentMerkleHash));
    case ProveOk => GetPut(s.db, ProofKey(s.batchNo), Proof);
    case SavePartial => GetPut(s.db, PartialBatch, BatchRecord(PartialRecord(cfg, s)));
    case _ =>
  }

  lemma {:induction false} FreshRun(cfg: Config, s: State, actions: seq<Action>, t: State)
    requires Inv(cfg, s) && FreshInv(s) && Run(cfg, s, actions, t)
    ensures Inv(cfg, t) && FreshInv(t)
    decreases |actions|
  {
    hide Inv, FreshInv, Enabled;
    if |actions| == 0 {
    } else {
      InvKept(cfg, s, actions[0]);
      FreshKept(cfg, s, actions[0]);
      FreshRun(cfg, Next(cfg, s, actions[0]), actions[1..], t);
    }
  }

  lemma FreshReachable(cfg: Config, s: State, actions: seq<Action>, t: State)
    requires FreshStart(s) && Run(cfg, s, actions, t)
    ensures Reachable(cfg, s, actions, t) && Inv(cfg, t) && FreshInv(t) && t.hist.firstPrev == GENESIS_HASH
  {
    hide Inv;
    FreshIsEmpty(s);
    ReachableInv(cfg, s, actions, t);
    StartedInv(cfg, s);
    forall n: nat
      ensures RecordInv(s, n)
    {
      assert Get(s.db, BatchKey(n)).None?;
    }
    FreshRun(cfg, s, actions, t);
  }

  lemma FreshLink(cfg: Config, s: State, actions: seq<Action>, t: State, i: nat)
    requires FreshStart(s) && Run(cfg, s, actions, t) && i < |t.hist.closed|
    ensures var b := t.hist.closed[i];
      && b.batchNo == i + 1 && TextAt(t.db, HashKey(i + 1)) == b.currentMerkleHash
      && b.prevMerkleHash == if i == 0 then GENESIS_HASH else t.hist.closed[i - 1].currentMerkleHash
  {
    hide *;
    FreshIsReachable(cfg, s, actions, t);
    HashChain(cfg, s, actions, t, i);
  }

  lemma FreshIsReachable(cfg: Config, s: State, actions: seq<Action>, t: State)
    requires FreshStart(s) && Run(cfg, s, actions, t)
    ensures Reachable(cfg, s, actions, t) && s.batchNo == 1 && PrevFor(s.db, s.batchNo) == GENESIS_HASH
  {
    FreshIsEmpty(s);
  }

  /** From an empty database the first batch has number 1 and points back to the zero hash, and
      batch N to the hash of the one before, which is also the one stored for it. */
  lemma FreshChain(cfg: Config, s: State, actions: seq<Action>, t: State, i: nat)
    requires FreshStart(s) && Run(cfg, s, actions, t) && i < |t.hist.closed|
    ensures t.hist.closed[i].batchNo == i + 1
    ensures t.hist.closed[0].prevMerkleHash == GENESIS_HASH
    ensures i > 0 ==> t.hist.closed[i].prevMerkleHash == t.hist.closed[i - 1].currentMerkleHash
    ensures i > 0 ==> t.hist.closed[i].prevMerkleHash == TextAt(t.db, HashKey(i))
  {
    hide *;
    FreshLink(cfg, s, actions, t, i);
    FreshLink(cfg, s, actions, t, 0);
    if i > 0 {
      FreshLink(cfg, s, actions, t, i - 1);
    }
  }

  /** From an empty database, every batch stored under number N is one of the attempts, with some
      flags set since. Its snapshot was taken with 128 N transactions received, and with as many
      to 129 more processed. */
  lemma FreshLag(cfg: Config, s: State, actions: seq<Action>, t: State, n: nat, b: Batch) returns (a: Attempt)
    requires FreshStart(s) && Run(cfg, s, actions, t) && Get(t.db, BatchKey(n)) == Some(BatchRecord(b))
    ensures a in t.hist.attempts && b == a.batch.(submitted := b.submitted, verified := b.verified)
    ensures a.received == BATCH_SIZE * n
    ensures a.received <= a.processed <= a.received + 129
  {
    FreshIsEmpty(s);
    hide Inv, Run, Describes, FreshStart, Get, Stream;
    FreshReachable(cfg, s, actions, t);
    hide Reachable;
    assert RecordInv(t, n);
    a :| a in t.hist.attempts && b == a.batch.(submitted := b.submitted, verified := b.verified);
    AttemptsAreRight(cfg, s, actions, t, a);
  }

  /** Verified implies submitted, for every record in the database. */
  lemma VerifiedWasSubmitted(cfg: Config, s: State, actions: seq<Action>, t: State, n: nat, b: Batch)
    requires FreshStart(s) && Run(cfg, s, actions, t) && Get(t.db, BatchKey(n)) == Some(BatchRecord(b))
    ensures b.batchNo == n && (b.verified ==> b.submitted)
  {
    hide Inv, Run, Started;
    FreshReachable(cfg, s, actions, t);
    assert RecordInv(t, n);
  }

  /** No later step overwrites a verified record. */
  lemma VerifiedIsFinalStep(cfg: Config, t: State, a: Action, n: nat, b: Batch)
    requires Inv(cfg, t) && FreshInv(t) && Enabled(cfg, t, a)
    requires Get(t.db, BatchKey(n)) == Some(BatchRecord(b)) && b.verified
    ensures Get(Next(cfg, t, a).db, BatchKey(n)) == Some(BatchRecord(b))
  {
    hide RightBatch, Get, Next, ProducerInv, StreamInv, AttemptsInv, PartialInv, LastBlockInv, ClosedInv, OriginInv,
      FromAttempt;
    assert RecordInv(t, n);
    RecordsAfter(cfg, t, a, n);
  }

  lemma {:induction false} VerifiedStays(cfg: Config, t: State, actions: seq<Action>, u: State, n: nat, b: Batch)
    requires Inv(cfg, t) && FreshInv(t) && Run(cfg, t, actions, u)
    requires Get(t.db, BatchKey(n)) == Some(BatchRecord(b)) && b.verified
    ensures Get(u.db, BatchKey(n)) == Some(BatchRecord(b))
    decreases |actions|
  {
    hide Inv, FreshInv, Enabled, Get;
    if |actions| == 0 {
    } else {
      VerifiedIsFinalStep(cfg, t, actions[0], n, b);
      InvKept(cfg, t, actions[0]);
      FreshKept(cfg, t, actions[0]);
      VerifiedStays(cfg, Next(cfg, t, actions[0]), actions[1..], u, n, b);
    }
  }

  /** Finality: in a run from an empty database, a record that is verified at some point stays
      as it is for ever. */
  lemma VerifiedIsFinal(cfg: Config, s: State, before: seq<Action>, t: State, after: seq<Action>, u: State, n: nat,
      b: Batch)
    requires FreshStart(s) && Run(cfg, s, before, t) && Run(cfg, t, after, u)
    requires Get(t.db, BatchKey(n)) == Some(BatchRecord(b)) && b.verified
    ensures Get(u.db, BatchKey(n)) == Some(BatchRecord(b))
  {
    hide Inv, FreshInv, Run, Get, FreshStart;
    FreshReachable(cfg, s, before, t);
    VerifiedStays(cfg, t, after, u, n, b);
  }

  /** The previous root of batch `n`: the genesis root for the first, nothing for the others. */
  ghost predicate RootBefore(genesis: GoString, b: Batch) {
    b.previousStateRoot == if b.batchNo == 1 then genesis else []
  }

  /** State roots are stored under state_0 only, and every batch has read its previous root from
      the key before its own number. */
  ghost predicate PreviousRootInv(s: State, genesis: GoString) {
    && (forall n: nat :: TextAt(s.db, StateKey(n)) == if n == 0 then genesis else [])
    && (forall a :: a in s.hist.attempts ==> RootBefore(genesis, a.batch))
    && (forall b :: b in s.hist.closed ==> RootBefore(genesis, b))
    && (Saving(s) ==> RootBefore(genesis, s.current))
  }

  /** No state root is ever stored. */
  lemma StateKeysStay(cfg: Config, s: State, a: Action)
    requires Enabled(cfg, s, a)
    ensures forall n :: TextAt(Next(cfg, s, a).db, StateKey(n)) == TextAt(s.db, StateKey(n))
  {
    hide Get, Put, PartialRecord, BatchMade;
    match a
    case StoreLastBlock => GetPut(s.db, LastBlock, Number(Digits(256, s.lastBlock)));
    case PutRecord => GetPut(s.db, BatchKey(s.current.batchNo), BatchRecord(s.current));
    case PutHash => GetPut(s.db, HashKey(s.current.batchNo), Text(s.current.currentMerkleHash));
    case ProveOk => GetPut(s.db, ProofKey(s.batchNo), Proof);
    case SavePartial => GetPut(s.db, PartialBatch, BatchRecord(PartialRecord(cfg, s)));
    case _ =>
  }

  lemma PreviousRootKept(cfg: Config, s: State, a: Action, genesis: GoString)
    requires Enabled(cfg, s, a) && PreviousRootInv(s, genesis)
    ensures PreviousRootInv(Next(cfg, s, a), genesis)
  {
    hide Get, Put, PartialRecord, PrevFor, ComputeBatchHash, ComputeBatchCommitment, BatchMade, ReceivedCount;
    StateKeysStay(cfg, s, a);
    if a.CreateBatch? {
      MadeRootBefore(cfg, s, a.stateRoot, a.da, genesis);
    }
  }

  lemma MadeRootBefore(cfg: Config, s: State, stateRoot: GoString, da: DaReceipt, genesis: GoString)
    requires Enabled(cfg, s, CreateBatch(stateRoot, da)) && PreviousRootInv(s, genesis)
    ensures RootBefore(genesis, BatchMade(cfg, s, stateRoot, da))
  {
    hide TextAt, PrevFor, ComputeBatchHash, ComputeBatchCommitment;
  }

  lemma {:induction false} PreviousRootRun(cfg: Config, s: State, actions: seq<Action>, t: State, genesis: GoString)
    requires PreviousRootInv(s, genesis) && Run(cfg, s, actions, t)
    ensures PreviousRootInv(t, genesis)
    decreases |actions|
  {
    hide PreviousRootInv, Enabled, TextAt;
    if |actions| == 0 {
    } else {
      PreviousRootKept(cfg, s, actions[0], genesis);
      PreviousRootRun(cfg, Next(cfg, s, actions[0]), actions[1..], t, genesis);
    }
  }

  /** State roots are not chained: the first batch has the genesis root as its previous root,
      and every later one the empty string. So that is the current root of the closed batch
      before it exactly when that root is empty. */
  lemma RootsAreNotChained(cfg: Config, s: State, actions: seq<Action>, t: State, a: Attempt)
    requires FreshStart(s) && Run(cfg, s, actions, t) && a in t.hist.attempts
    ensures a.batch.batchNo == 1 ==> a.batch.previousStateRoot == TextAt(s.db, StateKey(0))
    ensures a.batch.batchNo > 1 ==>
      && a.batch.previousStateRoot == []
      && a.batch.batchNo - 2 < |t.hist.closed|
      && var before := t.hist.closed[a.batch.batchNo - 2];
         before.batchNo == a.batch.batchNo - 1
           && (before.currentStateRoot == a.batch.previousStateRoot <==> before.currentStateRoot == [])
  {
    FreshIsEmpty(s);
    FreshRootsInv(s);
    hide Run, FreshStart, Get, Describes, HasRows, LagBounded, ProducerInv, StreamInv, CurrentInv, PartialInv,
      LastBlockInv, RecordInv;
    FreshReachable(cfg, s, actions, t);
    ReachableInv(cfg, s, actions, t);
    PreviousRootRun(cfg, s, actions, t, TextAt(s.db, StateKey(0)));
    assert RightBatch(cfg, t, a.batch);
    if a.batch.batchNo > 1 {
      assert ClosedBatchInv(cfg, t, a.batch.batchNo - 2);
    }
  }

  /** The same of the closed batches. */
  lemma ClosedRoots(cfg: Config, s: State, actions: seq<Action>, t: State, i: nat)
    requires FreshStart(s) && Run(cfg, s, actions, t) && i < |t.hist.closed|
    ensures t.hist.closed[i].previousStateRoot == if i == 0 then TextAt(s.db, StateKey(0)) else []
  {
    FreshRootsInv(s);
    hide Run, FreshStart, Get, TextAt;
    FreshChain(cfg, s, actions, t, i);
    PreviousRootRun(cfg, s, actions, t, TextAt(s.db, StateKey(0)));
    assert RootBefore(TextAt(s.db, StateKey(0)), t.hist.closed[i]);
  }

  lemma FreshRootsInv(s: State)
    requires FreshStart(s)
    ensures PreviousRootInv(s, TextAt(s.db, StateKey(0)))
  {
    hide Get, BuffersOf;
    assert s.hist.attempts == [];
  }

  // ---- The latest-batch scan --------------------------------------------------------------

  /** The saved numbers are an initial interval, so the scan of the proxy returns the highest,
      or 0 just when nothing was saved. */
  lemma SavedNumbersHaveNoGap(cfg: Config, s: State, actions: seq<Action>, t: State) returns (n: nat)
    requires FreshStart(s) && Run(cfg, s, actions, t)
    ensures SavedUpTo(t.db, n) && t.batchNo - 1 <= n <= t.batchNo
  {
    hide Run, Started, RightBatch, AttemptsInv, CurrentInv, PartialInv, LastBlockInv, Get, ProducerInv, StreamInv;
    FreshReachable(cfg, s, actions, t);
    n := if Get(t.db, BatchKey(t.batchNo)).Some? then t.batchNo else t.batchNo - 1;
    forall k: nat
      ensures Get(t.db, BatchKey(k)).Some? <==> 1 <= k <= n
    {
      assert RecordInv(t, k);
      if 1 <= k < t.batchNo {
        assert ClosedBatchInv(cfg, t, k - 1);
      }
    }
  }

  /** The scan on the database of a reachable state. */
  method LatestBatchOf(cfg: Config, ghost s: State, ghost actions: seq<Action>, t: State) returns (latest: nat)
    requires FreshStart(s) && Run(cfg, s, actions, t)
    ensures SavedUpTo(t.db, latest)
    ensures latest == 0 <==> forall k: nat :: Get(t.db, BatchKey(k)).None?
  {
    hide Run, Started;
    ghost var n := SavedNumbersHaveNoGap(cfg, s, actions, t);
    latest := LatestBatch(t.db);
    assert n == 0 || Get(t.db, BatchKey(n)).Some?;
  }
}
