/** What every step of the pipeline keeps. */
module PipelineInvariant {
  import opened Bytes
  import opened BatchStore
  import opened Commitment
  import opened Pipeline
  import Merkle

  // ---- The stream of transactions ---------------------------------------------------------

  /** The transactions of blocks `start` to `end - 1`, in block order. */
  ghost function BlocksFrom(chain: nat -> seq<TxData>, start: nat, end: nat): seq<TxData> {
    if end <= start then [] else BlocksFrom(chain, start, end - 1) + chain(end - 1)
  }

  /** What the producer has sent so far, given where it is. */
  ghost function Produced(cfg: Config, s: State): seq<TxData> {
    BlocksFrom(cfg.chain, s.hist.start, s.lastBlock) +
    (if s.producer.InBlock? && s.producer.next <= |cfg.chain(s.lastBlock)|
     then cfg.chain(s.lastBlock)[..s.producer.next] else [])
  }

  ghost predicate ProducerInv(cfg: Config, s: State) {
    && s.hist.start <= s.lastBlock
    && (s.producer.InBlock? ==> s.producer.next + (if s.producer.processed then 1 else 0) <= |cfg.chain(s.lastBlock)|)
    && (s.producer == StoringBlock ==> s.hist.start < s.lastBlock)
    && s.hist.sent == Produced(cfg, s)
    && s.hist.processed == |s.hist.sent| + (if s.producer.InBlock? && s.producer.processed then 1 else 0)
  }

  /** Closed batches, buffer and channel, in this order, hold the loaded buffer and then
      everything sent: nothing lost, repeated or reordered. */
  ghost predicate StreamInv(s: State) {
    && s.hist.closedRows + s.hist.buffered + s.chan == s.hist.initial + s.hist.sent
    && |s.chan| <= CAPACITY
  }

  // ---- The buffers ------------------------------------------------------------------------

  ghost predicate BufferInv(s: State) {
    && |s.hist.buffered| <= BATCH_SIZE
    && s.buffers == BuffersOf(s.hist.buffered)
    && s.totalGas == SumGas(s.hist.buffered) % UINT64
    && (s.hist.buffered != [] ==> s.timestamp == s.hist.buffered[|s.hist.buffered| - 1].time)
  }

  ghost predicate Saving(s: State) {
    s.batcher.PuttingRecord? || s.batcher.PuttingHash? || s.batcher.Saved?
  }

  ghost predicate ControlInv(s: State) {
    && (Saving(s) ==> |s.hist.buffered| == BATCH_SIZE && s.current.batchNo == s.batchNo)
    && (s.batcher == PuttingPartial ==> |s.hist.buffered| < BATCH_SIZE)
    && s.batchNo == s.hist.base + |s.hist.closed|
    && |s.hist.closedRows| == BATCH_SIZE * |s.hist.closed|
  }

  // ---- The batches ------------------------------------------------------------------------

  /** All transactions taken from the channel or loaded, in order. */
  ghost function Taken(s: State): seq<TxData> {
    s.hist.closedRows + s.hist.buffered
  }

  /** The 128 transactions of batch `n`. */
  ghost predicate HasRows(s: State, n: nat) {
    s.hist.base <= n && BATCH_SIZE * (n - s.hist.base + 1) <= |Taken(s)|
  }

  ghost function RowsOf(s: State, n: nat): (rows: seq<TxData>)
    requires HasRows(s, n)
    ensures |rows| == BATCH_SIZE
  {
    Taken(s)[BATCH_SIZE * (n - s.hist.base)..BATCH_SIZE * (n - s.hist.base) + BATCH_SIZE]
  }

  /** The hash the batch after the first `i` closed ones has to point back to. */
  ghost function PrevHash(s: State, i: nat): GoString {
    if i == 0 || i > |s.hist.closed| then s.hist.firstPrev else s.hist.closed[i - 1].currentMerkleHash
  }

  /** A batch holds exactly these transactions, in order, with their gas sum (as a uint64) and
      the last one's time, and hashes and commits to them. */
  ghost predicate Describes(cfg: Config, b: Batch, rows: seq<TxData>) {
    && |rows| == BATCH_SIZE
    && Buffers(b.transactions, b.executionTraces, b.fromBalances, b.toBalances) == BuffersOf(rows)
    && b.metadata == Metadata(SumGas(rows) % UINT64, rows[BATCH_SIZE - 1].time, cfg.namespace)
    && b.currentMerkleHash == ComputeBatchHash(cfg.sha, Merkle.MerkleRoot(cfg.sha, b.transactions), b.currentStateRoot)
    && b.commitment == ComputeBatchCommitment(cfg.sha, cfg.quote, b.currentMerkleHash, b.metadata)
  }

  /** Batch `b` is what number `b.batchNo` has to be, apart from its account snapshot and its
      data availability receipt. */
  ghost predicate RightBatch(cfg: Config, s: State, b: Batch) {
    && HasRows(s, b.batchNo)
    && b.batchNo <= s.hist.base + |s.hist.closed|
    && Describes(cfg, b, RowsOf(s, b.batchNo))
    && b.prevMerkleHash == PrevHash(s, b.batchNo - s.hist.base)
  }

  /** The snapshot of an attempt is at most 129 transactions ahead of what the batch holds. */
  ghost predicate LagBounded(s: State, a: Attempt) {
    && HasRows(s, a.batch.batchNo)
    && a.received == BATCH_SIZE * (a.batch.batchNo - s.hist.base + 1) - |s.hist.initial|
    && a.received <= a.processed <= a.received + CAPACITY + 1
  }

  ghost predicate AttemptsInv(cfg: Config, s: State) {
    forall a :: a in s.hist.attempts ==> RightBatch(cfg, s, a.batch) && LagBounded(s, a)
  }

  /** The batch being saved, by its progress. */
  ghost predicate CurrentInv(cfg: Config, s: State) {
    Saving(s) ==> RightBatch(cfg, s, s.current) && Progress(s)
  }

  /** Its flags, and what the database holds of it. */
  ghost predicate Progress(s: State)
    requires Saving(s)
  {
    && s.current.submitted == (s.batcher.stage != Created)
    && s.current.verified == (s.batcher.stage == Verified)
    && (!s.batcher.PuttingRecord? ==> Get(s.db, BatchKey(s.batchNo)) == Some(BatchRecord(s.current)))
    && (s.batcher.Saved? ==> Get(s.db, HashKey(s.batchNo)) == Some(Text(s.current.currentMerkleHash)))
    && (s.batcher.stage == Verified ==> Get(s.db, ProofKey(s.batchNo)) == Some(Proof))
  }

  /** The closed batch at index `i` has number base + i, is submitted and verified, and is
      what the database holds under its number, with its hash and its proof. */
  ghost predicate ClosedBatchInv(cfg: Config, s: State, i: nat)
    requires i < |s.hist.closed|
  {
    var b := s.hist.closed[i];
    && b.batchNo == s.hist.base + i
    && RightBatch(cfg, s, b)
    && b.submitted && b.verified
    && Get(s.db, BatchKey(s.hist.base + i)) == Some(BatchRecord(b))
    && Get(s.db, HashKey(s.hist.base + i)) == Some(Text(b.currentMerkleHash))
    && Get(s.db, ProofKey(s.hist.base + i)) == Some(Proof)
  }

  ghost predicate ClosedInv(cfg: Config, s: State) {
    && (forall i :: 0 <= i < |s.hist.closed| ==> ClosedBatchInv(cfg, s, i))
    && PrevFor(s.db, s.batchNo) == PrevHash(s, |s.hist.closed|)
  }

  /** The batch is one that CreateBatch made, but for the two flags set since. */
  ghost predicate FromAttempt(s: State, b: Batch) {
    exists a :: a in s.hist.attempts && b == a.batch.(submitted := b.submitted, verified := b.verified)
  }

  ghost predicate OriginInv(s: State) {
    && (Saving(s) ==> FromAttempt(s, s.current))
    && (forall b :: b in s.hist.closed ==> FromAttempt(s, b))
  }

  // ---- What a restart finds ---------------------------------------------------------------

  /** The saved partial batch holds these transactions, 1 to 127 of them, under this number. */
  ghost predicate PartialHolds(db: Db, rows: seq<TxData>, n: int) {
    var p := LoadedPartial(db);
    && 0 < |rows| < BATCH_SIZE
    && p.Some?
    && p.value.batchNo == n
    && BuffersOf(rows) ==
       Buffers(p.value.transactions, p.value.executionTraces, p.value.fromBalances, p.value.toBalances)
    && p.value.metadata.totalGasUsed == SumGas(rows) % UINT64
    && p.value.metadata.timestamp == rows[|rows| - 1].time
  }

  /** The first `j` buffered transactions are saved. With none saved since the last batch was
      closed, its first 127 still are; and with none closed either, nothing has been taken but
      perhaps one transaction that is about to be saved. */
  ghost predicate SavedAt(s: State, j: nat) {
    var n := |s.hist.closedRows|;
    if j > 0 then
      j <= |s.hist.buffered| && PartialHolds(s.db, s.hist.buffered[..j], s.batchNo)
    else if s.hist.closed != [] then
      n >= BATCH_SIZE && PartialHolds(s.db, s.hist.closedRows[n - BATCH_SIZE..n - 1], s.batchNo - 1)
    else
      && LoadedPartial(s.db).None? && s.hist.initial == [] && s.batchNo == 1
      && (s.hist.buffered == [] ==> s.timestamp == 0)
  }

  /** Everything buffered is saved, but for the last transaction of a full buffer, and for one
      just received. */
  ghost predicate PartialInv(s: State) {
    var k := |s.hist.buffered|;
    if k == BATCH_SIZE then SavedAt(s, k - 1)
    else SavedAt(s, k) || (k > 0 && s.batcher != Collecting && SavedAt(s, k - 1))
  }

  /** The stored block number is the producer's, but for the moment before it is stored. */
  ghost predicate LastBlockInv(s: State) {
    s.lastBlock < INT64_LIMIT ==>
      LoadedLastBlock(s.db) == if s.producer == StoringBlock then s.lastBlock - 1 else s.lastBlock
  }

  /** Everything above at once. */
  ghost predicate Inv(cfg: Config, s: State) {
    && ProducerInv(cfg, s) && StreamInv(s) && BufferInv(s) && ControlInv(s)
    && AttemptsInv(cfg, s) && CurrentInv(cfg, s) && ClosedInv(cfg, s)
    && OriginInv(s) && PartialInv(s) && LastBlockInv(s)
  }

  // ---- It holds at the start --------------------------------------------------------------

  lemma StartedInv(cfg: Config, s: State)
    requires Started(s)
    ensures Inv(cfg, s)
  {
    assert s.hist.closedRows + s.hist.buffered + s.chan == s.hist.initial + s.hist.sent;
    assert Produced(cfg, s) == [];
    assert |s.buffers.txns| == |s.hist.initial|;
    var k := |s.hist.initial|;
    assert s.hist.buffered[..k] == s.hist.initial;
    assert SavedAt(s, k);
  }

  // ---- Every step keeps it ----------------------------------------------------------------

  lemma ProducerKept(cfg: Config, s: State, a: Action)
    requires Enabled(cfg, s, a) && ProducerInv(cfg, s)
    ensures ProducerInv(cfg, Next(cfg, s, a))
  {
    hide Get, Put, BatchMade, PartialRecord;
    var block := cfg.chain(s.lastBlock);
    if a.Send? {
      var i := s.producer.next;
      assert block[..i + 1] == block[..i] + [block[i]];
      ConcatAssociative(BlocksFrom(cfg.chain, s.hist.start, s.lastBlock), block[..i], [block[i]]);
    } else if a.EndBlock? {
      assert block[..s.producer.next] == block;
      var t := Next(cfg, s, a);
      assert Produced(cfg, t) == BlocksFrom(cfg.chain, s.hist.start, s.lastBlock + 1);
    } else if a.BeginBlock? {
      assert block[..0] == [];
    }
  }

  lemma StreamKept(cfg: Config, s: State, a: Action)
    requires Enabled(cfg, s, a) && StreamInv(s)
    ensures StreamInv(Next(cfg, s, a))
  {
    hide Get, Put, BatchMade, PartialRecord, BuffersOf;
    var h := s.hist;
    if a.Send? {
      var t := [cfg.chain(s.lastBlock)[s.producer.next]];
      ConcatAssociative(h.closedRows + h.buffered, s.chan, t);
      ConcatAssociative(h.initial, h.sent, t);
    } else if a.Receive? {
      assert s.chan == [s.chan[0]] + s.chan[1..];
      ConcatAssociative(h.closedRows + h.buffered, [s.chan[0]], s.chan[1..]);
      ConcatAssociative(h.closedRows, h.buffered, [s.chan[0]]);
    } else if a.CloseBatch? {
      var k := if |h.buffered| < BATCH_SIZE then |h.buffered| else BATCH_SIZE;
      assert h.buffered == h.buffered[..k] + h.buffered[k..];
      ConcatAssociative(h.closedRows, h.buffered[..k], h.buffered[k..]);
    }
  }

  lemma BufferKept(cfg: Config, s: State, a: Action)
    requires Enabled(cfg, s, a) && BufferInv(s)
    ensures BufferInv(Next(cfg, s, a))
  {
    hide Get, Put, BatchMade, PartialRecord, BuffersOf, SumGas, Closed, Received;
    if a.Receive? {
      BufferReceived(s);
    } else if a.CloseBatch? {
      EmptiedBuffers(s);
    }
  }

  lemma BufferReceived(s: State)
    requires BufferInv(s) && |s.chan| > 0 && |s.buffers.txns| < BATCH_SIZE
    ensures BufferInv(Received(s))
  {
    BuffersOfAppended(s.hist.buffered, s.chan[0]);
    SumGasAppended(s.hist.buffered, s.chan[0]);
    assert |s.buffers.txns| == |s.hist.buffered|;
    hide BuffersOf, SumGas;
  }

  lemma EmptiedBuffers(s: State)
    requires BufferInv(s) && AlignedBuffers(s.buffers) && |s.buffers.txns| >= BATCH_SIZE
    ensures Closed(s).hist.buffered == [] && Closed(s).buffers == BuffersOf([])
    ensures Closed(s).hist.closedRows == s.hist.closedRows + s.hist.buffered
    ensures Closed(s).totalGas == SumGas([])
  {
    var b := Closed(s).buffers;
    assert |b.txns| == 0 && |b.traces| == 0 && |b.fromBalances| == 0 && |b.toBalances| == 0;
    assert s.hist.buffered[..BATCH_SIZE] == s.hist.buffered;
  }

  lemma ControlKept(cfg: Config, s: State, a: Action)
    requires Enabled(cfg, s, a) && BufferInv(s) && ControlInv(s)
    ensures ControlInv(Next(cfg, s, a))
  {
    hide Get, Put, PartialRecord;
    if a.CloseBatch? {
      EmptiedBuffers(s);
    }
  }

  // ---- Batches stay what they are ---------------------------------------------------------

  /** From `s` to `t` transactions have only been taken, and batches only been closed. */
  ghost predicate Grows(s: State, t: State) {
    && Taken(s) <= Taken(t)
    && s.hist.closed <= t.hist.closed
    && s.hist.base == t.hist.base && s.hist.firstPrev == t.hist.firstPrev && s.hist.initial == t.hist.initial
  }

  lemma NextGrows(cfg: Config, s: State, a: Action)
    requires Enabled(cfg, s, a) && BufferInv(s)
    ensures Grows(s, Next(cfg, s, a))
  {
    hide Get, Put, BatchMade, PartialRecord;
    if a.Receive? {
      ConcatAssociative(s.hist.closedRows, s.hist.buffered, [s.chan[0]]);
    } else if a.CloseBatch? {
      EmptiedBuffers(s);
      assert s.hist.closedRows + s.hist.buffered + [] == s.hist.closedRows + s.hist.buffered;
    }
  }

  lemma RightBatchStays(cfg: Config, s: State, t: State, b: Batch)
    requires Grows(s, t) && RightBatch(cfg, s, b)
    ensures RightBatch(cfg, t, b)
  {
    hide Describes, Taken;
    assert RowsOf(s, b.batchNo) == RowsOf(t, b.batchNo);
  }

  lemma RowsOfBuffered(s: State)
    requires BufferInv(s) && ControlInv(s) && |s.hist.buffered| == BATCH_SIZE
    ensures HasRows(s, s.batchNo) && RowsOf(s, s.batchNo) == s.hist.buffered
  {
  }

  /** CreateBatch makes the right batch. */
  lemma BatchMadeIsRight(cfg: Config, s: State, stateRoot: GoString, da: DaReceipt)
    requires BufferInv(s) && ControlInv(s) && ClosedInv(cfg, s) && |s.hist.buffered| == BATCH_SIZE
    ensures RightBatch(cfg, s, BatchMade(cfg, s, stateRoot, da))
  {
    hide Get, ComputeBatchHash, ComputeBatchCommitment, Merkle.MerkleRoot, PrevFor, ClosedBatchInv, SumGas;
    RowsOfBuffered(s);
    var b := s.buffers;
    assert b.txns[..BATCH_SIZE] == b.txns && b.traces[..BATCH_SIZE] == b.traces;
    assert b.fromBalances[..BATCH_SIZE] == b.fromBalances && b.toBalances[..BATCH_SIZE] == b.toBalances;
  }

  lemma FullBuffer(cfg: Config, s: State, a: Action)
    requires Enabled(cfg, s, a) && BufferInv(s) && a.CreateBatch?
    ensures |s.hist.buffered| == BATCH_SIZE
  {
  }

  /** At any moment, between 0 and 129 transactions have been processed but not received. */
  lemma Lag(cfg: Config, s: State)
    requires ProducerInv(cfg, s) && StreamInv(s)
    ensures ReceivedCount(s) <= s.hist.processed <= ReceivedCount(s) + CAPACITY + 1
  {
    assert |s.hist.closedRows + s.hist.buffered + s.chan| == |s.hist.initial + s.hist.sent|;
  }

  lemma AttemptsKept(cfg: Config, s: State, a: Action)
    requires Enabled(cfg, s, a) && Inv(cfg, s)
    ensures AttemptsInv(cfg, Next(cfg, s, a))
  {
    hide RightBatch, Get, Put, PartialRecord, BatchMade, ClosedInv, ProducerInv, StreamInv, CurrentInv, PartialInv,
      LastBlockInv;
    var t := Next(cfg, s, a);
    NextGrows(cfg, s, a);
    forall x | x in s.hist.attempts
      ensures RightBatch(cfg, t, x.batch) && LagBounded(t, x)
    {
      RightBatchStays(cfg, s, t, x.batch);
    }
    if a.CreateBatch? {
      FullBuffer(cfg, s, a);
      BatchMadeIsRight(cfg, s, a.stateRoot, a.da);
      RightBatchStays(cfg, s, t, BatchMade(cfg, s, a.stateRoot, a.da));
      Lag(cfg, s);
      RowsOfBuffered(s);
      NewAttempt(cfg, s, a);
    }
  }

  lemma NewAttempt(cfg: Config, s: State, a: Action)
    requires Enabled(cfg, s, a) && a.CreateBatch?
    requires BufferInv(s) && ControlInv(s) && |s.hist.buffered| == BATCH_SIZE
    requires ReceivedCount(s) <= s.hist.processed <= ReceivedCount(s) + CAPACITY + 1
    ensures var t := Next(cfg, s, a);
      && t.hist.attempts ==
         s.hist.attempts + [Attempt(BatchMade(cfg, s, a.stateRoot, a.da), ReceivedCount(s), s.hist.processed)]
      && LagBounded(t, Attempt(BatchMade(cfg, s, a.stateRoot, a.da), ReceivedCount(s), s.hist.processed))
  {
    hide Get, Put, PartialRecord;
    RowsOfBuffered(s);
  }

  lemma CurrentKept(cfg: Config, s: State, a: Action)
    requires Enabled(cfg, s, a) && Inv(cfg, s)
    ensures CurrentInv(cfg, Next(cfg, s, a))
  {
    CurrentStillRight(cfg, s, a);
    ProgressKept(cfg, s, a);
    hide Inv, Enabled, Next, RightBatch, Progress, Saving;
  }

  lemma CurrentStillRight(cfg: Config, s: State, a: Action)
    requires Enabled(cfg, s, a) && BufferInv(s) && ControlInv(s) && ClosedInv(cfg, s) && CurrentInv(cfg, s)
    ensures var t := Next(cfg, s, a); Saving(t) ==> RightBatch(cfg, t, t.current)
  {
    hide RightBatch, Get, Put, PartialRecord, BatchMade, ClosedInv, Progress;
    var t := Next(cfg, s, a);
    NextGrows(cfg, s, a);
    if a.CreateBatch? {
      FullBuffer(cfg, s, a);
      BatchMadeIsRight(cfg, s, a.stateRoot, a.da);
      MadeUnsaved(cfg, s, a);
      RightBatchStays(cfg, s, t, t.current);
    } else if Saving(t) {
      RightBatchStays(cfg, s, t, s.current);
      StampingKeepsRight(cfg, t, s.current, t.current);
    }
  }

  lemma ProgressKept(cfg: Config, s: State, a: Action)
    requires Enabled(cfg, s, a) && ControlInv(s) && (Saving(s) ==> Progress(s))
    ensures var t := Next(cfg, s, a); Saving(t) ==> Progress(t)
  {
    hide Get, Put, PartialRecord, BatchMade;
    match a
    case CreateBatch(_, _) => MadeUnsaved(cfg, s, a);
    case StoreLastBlock => GetPut(s.db, LastBlock, Number(Digits(256, s.lastBlock)));
    case PutRecord => GetPut(s.db, BatchKey(s.current.batchNo), BatchRecord(s.current));
    case PutHash => GetPut(s.db, HashKey(s.current.batchNo), Text(s.current.currentMerkleHash));
    case ProveOk => GetPut(s.db, ProofKey(s.batchNo), Proof);
    case _ =>
  }

  lemma MadeUnsaved(cfg: Config, s: State, a: Action)
    requires Enabled(cfg, s, a) && a.CreateBatch?
    ensures var t := Next(cfg, s, a); t.batcher == PuttingRecord(Created) && !t.current.submitted && !t.current.verified
    ensures Next(cfg, s, a).current == BatchMade(cfg, s, a.stateRoot, a.da)
  {
    hide Get, Put, PartialRecord;
  }

  /** Setting the flags Submitted and Verified changes nothing else. */
  lemma StampingKeepsRight(cfg: Config, s: State, b: Batch, c: Batch)
    requires RightBatch(cfg, s, b)
    requires c == b || c == b.(submitted := true) || c == b.(verified := true)
    ensures RightBatch(cfg, s, c)
  {
    hide HasRows, RowsOf, ComputeBatchHash, ComputeBatchCommitment, BuffersOf, SumGas;
  }

  /** Nothing is written under the number of a closed batch. */
  lemma ClosedKeysStay(cfg: Config, s: State, a: Action, n: nat)
    requires Enabled(cfg, s, a) && ControlInv(s) && n < s.batchNo
    ensures var t := Next(cfg, s, a);
      && Get(t.db, BatchKey(n)) == Get(s.db, BatchKey(n))
      && Get(t.db, HashKey(n)) == Get(s.db, HashKey(n))
      && Get(t.db, ProofKey(n)) == Get(s.db, ProofKey(n))
  {
    hide Get, Put, PartialRecord, BatchMade;
    match a
    case StoreLastBlock => GetPut(s.db, LastBlock, Number(Digits(256, s.lastBlock)));
    case PutRecord => GetPut(s.db, BatchKey(s.current.batchNo), BatchRecord(s.current));
    case PutHash => GetPut(s.db, HashKey(s.current.batchNo), Text(s.current.currentMerkleHash));
    case ProveOk => GetPut(s.db, ProofKey(s.batchNo), Proof);
    case SavePartial => GetPut(s.db, PartialBatch, BatchRecord(PartialRecord(cfg, s)));
    case _ =>
  }

  lemma ClosedStays(cfg: Config, s: State, a: Action)
    requires Enabled(cfg, s, a) && Inv(cfg, s)
    ensures var t := Next(cfg, s, a);
      forall i :: 0 <= i < |s.hist.closed| ==> i < |t.hist.closed| && ClosedBatchInv(cfg, t, i)
  {
    hide CurrentInv, BufferInv, ProducerInv, StreamInv, AttemptsInv, PartialInv, LastBlockInv;
    hide RightBatch, Get, PrevFor, Next, Enabled;
    var t := Next(cfg, s, a);
    NextGrows(cfg, s, a);
    forall i | 0 <= i < |s.hist.closed|
      ensures i < |t.hist.closed| && ClosedBatchInv(cfg, t, i)
    {
      assert ClosedBatchInv(cfg, s, i);
      RightBatchStays(cfg, s, t, s.hist.closed[i]);
      ClosedKeysStay(cfg, s, a, s.hist.base + i);
    }
  }

  lemma PrevStays(cfg: Config, s: State, a: Action)
    requires Enabled(cfg, s, a) && ControlInv(s) && ClosedInv(cfg, s) && !a.CloseBatch?
    ensures var t := Next(cfg, s, a); PrevFor(t.db, t.batchNo) == PrevHash(t, |t.hist.closed|)
  {
    hide ControlInv, ClosedBatchInv, Get, Put, PartialRecord, BatchMade;
    ClosedKeysStay(cfg, s, a, s.batchNo - 1);
  }

  /** Closing makes the verified batch the last closed one, and its stored hash the one the next
      batch points back to. */
  lemma ClosingIsRight(cfg: Config, s: State)
    requires Enabled(cfg, s, CloseBatch) && BufferInv(s) && ControlInv(s) && CurrentInv(cfg, s)
    ensures var t := Next(cfg, s, CloseBatch);
      && t.hist.closed == s.hist.closed + [s.current]
      && ClosedBatchInv(cfg, t, |s.hist.closed|)
      && PrevFor(t.db, t.batchNo) == PrevHash(t, |t.hist.closed|)
  {
    hide RightBatch, Get, Put, ProducerInv, StreamInv, AttemptsInv, ClosedInv, PartialInv, LastBlockInv;
    NextGrows(cfg, s, CloseBatch);
    RightBatchStays(cfg, s, Next(cfg, s, CloseBatch), s.current);
  }

  lemma ClosedKept(cfg: Config, s: State, a: Action)
    requires Enabled(cfg, s, a) && Inv(cfg, s)
    ensures ClosedInv(cfg, Next(cfg, s, a))
  {
    hide ClosedBatchInv, BufferInv, ControlInv, CurrentInv, ProducerInv, StreamInv, AttemptsInv, PartialInv,
      LastBlockInv;
    hide PrevFor, PrevHash, Get, Put, PartialRecord, BatchMade;
    ClosedStays(cfg, s, a);
    if a.CloseBatch? {
      ClosingIsRight(cfg, s);
    } else {
      PrevStays(cfg, s, a);
    }
  }

  lemma OriginStays(s: State, t: State, b: Batch)
    requires s.hist.attempts <= t.hist.attempts && FromAttempt(s, b)
    ensures FromAttempt(t, b)
    ensures FromAttempt(t, b.(submitted := true)) && FromAttempt(t, b.(verified := true))
  {
    var a :| a in s.hist.attempts && b == a.batch.(submitted := b.submitted, verified := b.verified);
    assert a in t.hist.attempts;
  }

  lemma AttemptsGrow(cfg: Config, s: State, a: Action)
    requires Enabled(cfg, s, a)
    ensures s.hist.attempts <= Next(cfg, s, a).hist.attempts
    ensures a.CreateBatch? ==> FromAttempt(Next(cfg, s, a), Next(cfg, s, a).current)
  {
    hide Get, Put, BatchMade, PartialRecord, ReceivedCount;
    if a.CreateBatch? {
      var x := Attempt(BatchMade(cfg, s, a.stateRoot, a.da), ReceivedCount(s), s.hist.processed);
      assert x in Next(cfg, s, a).hist.attempts;
    }
  }

  /** Only the batch at hand is ever closed, and only its flags change while it is saved. */
  lemma BatchesAfter(cfg: Config, s: State, a: Action)
    requires Enabled(cfg, s, a)
    ensures var t := Next(cfg, s, a);
      && (t.hist.closed == s.hist.closed || (Saving(s) && t.hist.closed == s.hist.closed + [s.current]))
      && (Saving(t) && !a.CreateBatch? ==>
            && Saving(s)
            && (|| t.current == s.current
                || t.current == s.current.(submitted := true)
                || t.current == s.current.(verified := true)))
  {
    hide Get, Put, BatchMade, PartialRecord, ReceivedCount;
  }

  lemma OriginKept(cfg: Config, s: State, a: Action)
    requires Enabled(cfg, s, a) && OriginInv(s)
    ensures OriginInv(Next(cfg, s, a))
  {
    AttemptsGrow(cfg, s, a);
    BatchesAfter(cfg, s, a);
    hide FromAttempt, Enabled, Next, Saving;
    var t := Next(cfg, s, a);
    forall b | b in s.hist.closed
      ensures FromAttempt(t, b)
    {
      OriginStays(s, t, b);
    }
    if Saving(s) {
      OriginStays(s, t, s.current);
    }
  }

  /** Writes under other keys leave the saved partial batch alone. */
  lemma PartialStays(cfg: Config, s: State, a: Action)
    requires Enabled(cfg, s, a) && !a.SavePartial?
    ensures LoadedPartial(Next(cfg, s, a).db) == LoadedPartial(s.db)
  {
    hide Get, Put, BatchMade, PartialRecord;
    match a
    case StoreLastBlock => GetPut(s.db, LastBlock, Number(Digits(256, s.lastBlock)));
    case PutRecord => GetPut(s.db, BatchKey(s.current.batchNo), BatchRecord(s.current));
    case PutHash => GetPut(s.db, HashKey(s.current.batchNo), Text(s.current.currentMerkleHash));
    case ProveOk => GetPut(s.db, ProofKey(s.batchNo), Proof);
    case _ =>
  }

  lemma PartialKept(cfg: Config, s: State, a: Action)
    requires Enabled(cfg, s, a) && BufferInv(s) && ControlInv(s) && PartialInv(s)
    ensures PartialInv(Next(cfg, s, a))
  {
    hide BuffersOf, SumGas, LoadedPartial, PartialHolds, BatchMade, PartialRecord, Put;
    match a
    case Receive => ReceivedUnsaved(cfg, s);
    case CloseBatch => ClosedLeavesPartial(cfg, s);
    case SavePartial => BufferSaved(cfg, s);
    case _ =>
      PartialStays(cfg, s, a);
      SameSaved(s, Next(cfg, s, a));
  }

  /** What is saved is read off the partial batch and the transactions taken. */
  lemma SameSaved(s: State, t: State)
    requires LoadedPartial(t.db) == LoadedPartial(s.db)
    requires t.hist.closedRows == s.hist.closedRows && t.hist.buffered == s.hist.buffered && t.batchNo == s.batchNo
    requires t.hist.closed == s.hist.closed && t.hist.initial == s.hist.initial && t.timestamp == s.timestamp
    ensures forall j :: SavedAt(t, j) == SavedAt(s, j)
  {
    hide BuffersOf, SumGas, LoadedPartial;
  }

  lemma ReceivedUnsaved(cfg: Config, s: State)
    requires Enabled(cfg, s, Receive) && BufferInv(s) && PartialInv(s)
    ensures PartialInv(Next(cfg, s, Receive))
  {
    hide BuffersOf, SumGas, LoadedPartial;
    var t := Next(cfg, s, Receive);
    var k := |s.hist.buffered|;
    assert |s.buffers.txns| == k;
    assert t.hist.buffered[..k] == s.hist.buffered == s.hist.buffered[..k];
    assert SavedAt(s, k) && SavedAt(t, k);
  }

  lemma ClosedLeavesPartial(cfg: Config, s: State)
    requires Enabled(cfg, s, CloseBatch) && BufferInv(s) && PartialInv(s)
    ensures PartialInv(Next(cfg, s, CloseBatch))
  {
    hide BuffersOf, SumGas, LoadedPartial;
    EmptiedBuffers(s);
    var t := Next(cfg, s, CloseBatch);
    var n := |t.hist.closedRows|;
    assert |s.buffers.txns| == |s.hist.buffered|;
    assert t.hist.closedRows[n - BATCH_SIZE..n - 1] == s.hist.buffered[..BATCH_SIZE - 1];
    assert SavedAt(t, 0);
  }

  lemma BufferSaved(cfg: Config, s: State)
    requires Enabled(cfg, s, SavePartial) && BufferInv(s) && ControlInv(s) && PartialInv(s)
    ensures PartialInv(Next(cfg, s, SavePartial))
  {
    var t := Next(cfg, s, SavePartial);
    var k := |s.hist.buffered|;
    assert |s.buffers.txns| == k && s.hist.buffered[..k] == s.hist.buffered;
    LoadedIsSaved(s.db, PartialRecord(cfg, s));
    hide BuffersOf, SumGas, Put, LoadedPartial;
    assert SavedAt(t, k);
  }

  lemma LoadedIsSaved(db: Db, p: Batch)
    ensures LoadedPartial(Put(db, PartialBatch, BatchRecord(p))) == Some(p)
  {
    hide Get, Put;
    GetPut(db, PartialBatch, BatchRecord(p));
  }

  lemma LastBlockKept(cfg: Config, s: State, a: Action)
    requires Enabled(cfg, s, a) && LastBlockInv(s)
    ensures LastBlockInv(Next(cfg, s, a))
  {
    hide Get, Put, BatchMade, PartialRecord, Digits, FromDigits;
    match a
    case StoreLastBlock =>
      GetPut(s.db, LastBlock, Number(Digits(256, s.lastBlock)));
      FromDigitsOfDigits(256, s.lastBlock);
    case PutRecord => GetPut(s.db, BatchKey(s.current.batchNo), BatchRecord(s.current));
    case PutHash => GetPut(s.db, HashKey(s.current.batchNo), Text(s.current.currentMerkleHash));
    case ProveOk => GetPut(s.db, ProofKey(s.batchNo), Proof);
    case SavePartial => GetPut(s.db, PartialBatch, BatchRecord(PartialRecord(cfg, s)));
    case _ =>
  }

  lemma InvKept(cfg: Config, s: State, a: Action)
    requires Enabled(cfg, s, a) && Inv(cfg, s)
    ensures Inv(cfg, Next(cfg, s, a))
  {
    ProducerKept(cfg, s, a);
    StreamKept(cfg, s, a);
    BufferKept(cfg, s, a);
    ControlKept(cfg, s, a);
    AttemptsKept(cfg, s, a);
    CurrentKept(cfg, s, a);
    ClosedKept(cfg, s, a);
    OriginKept(cfg, s, a);
    PartialKept(cfg, s, a);
    LastBlockKept(cfg, s, a);
  }

  /** So it holds in every reachable state, whatever the interleaving. */
  lemma {:induction false} RunInv(cfg: Config, s: State, actions: seq<Action>, t: State)
    requires Inv(cfg, s) && Run(cfg, s, actions, t)
    ensures Inv(cfg, t) && t.hist.initial == s.hist.initial && t.hist.start == s.hist.start
      && t.hist.base == s.hist.base
    ensures t.hist.firstPrev == s.hist.firstPrev
    decreases |actions|
  {
    hide Inv, Enabled;
    if |actions| == 0 {
    } else {
      InvKept(cfg, s, actions[0]);
      KeepsOrigin(cfg, s, actions[0]);
      RunInv(cfg, Next(cfg, s, actions[0]), actions[1..], t);
    }
  }

  lemma KeepsOrigin(cfg: Config, s: State, a: Action)
    requires Enabled(cfg, s, a)
    ensures var t := Next(cfg, s, a);
      && t.hist.initial == s.hist.initial && t.hist.start == s.hist.start
      && t.hist.base == s.hist.base && t.hist.firstPrev == s.hist.firstPrev
  {
    hide Get, Put, BatchMade, PartialRecord;
  }
}
