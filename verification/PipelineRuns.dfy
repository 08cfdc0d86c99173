/** Runs there are: everything the blocks hold can be batched, closed and verified. */
module PipelineRuns {
  import opened Bytes
  import opened BatchStore
  import opened Commitment
  import opened Pipeline
  import opened PipelineInvariant
  import opened PipelineTheorems
  import opened PipelineRestart

  /** The batcher waits for the producer, which is about to process transaction `i`. */
  ghost predicate Waiting(cfg: Config, s: State, i: nat) {
    && s.batcher == Collecting && s.chan == [] && s.producer == InBlock(i, false) && i <= |cfg.chain(s.lastBlock)|
    && AlignedBuffers(s.buffers) && |s.buffers.txns| < BATCH_SIZE
  }

  /** From `s` to `t` only batches with this state root have been closed. */
  ghost predicate Closes(s: State, t: State, root: GoString) {
    && s.hist.closed <= t.hist.closed
    && (forall i :: |s.hist.closed| <= i < |t.hist.closed| ==> t.hist.closed[i].currentStateRoot == root)
  }

  /** A transaction is processed, sent and received. */
  lemma OneDelivered(cfg: Config, s: State, i: nat, root: GoString) returns (actions: seq<Action>, t: State)
    requires Waiting(cfg, s, i) && i < |cfg.chain(s.lastBlock)|
    ensures Run(cfg, s, actions, t)
    ensures t.batcher == Checking && t.chan == [] && t.producer == InBlock(i + 1, false) && t.lastBlock == s.lastBlock
    ensures AlignedBuffers(t.buffers) && t.buffers == Appended(s.buffers, cfg.chain(s.lastBlock)[i])
    ensures t.batchNo == s.batchNo && Closes(s, t, root)
  {
    hide Get, Put, BatchMade, PartialRecord, Run;
    var a := Next(cfg, s, ProcessTx);
    var b := Next(cfg, a, Send);
    t := Next(cfg, b, Receive);
    EmptyRun(cfg, s);
    RunThen(cfg, s, [], s, ProcessTx);
    RunThen(cfg, s, [] + [ProcessTx], a, Send);
    RunThen(cfg, s, [] + [ProcessTx] + [Send], b, Receive);
    actions := [] + [ProcessTx] + [Send] + [Receive];
  }

  lemma EmptyRun(cfg: Config, s: State)
    ensures Run(cfg, s, [], s)
  {
  }

  /** One more step at the end of a run, which leaves the producer and the channel alone. */
  ghost predicate Beside(s: State, t: State, root: GoString) {
    t.producer == s.producer && t.chan == s.chan && t.lastBlock == s.lastBlock && Closes(s, t, root)
  }

  /** A buffer that is not full is saved as it is. */
  lemma PartSaved(cfg: Config, s: State, root: GoString) returns (actions: seq<Action>, t: State)
    requires s.batcher == Checking && |s.buffers.txns| < BATCH_SIZE
    ensures Run(cfg, s, actions, t) && t.batcher == Collecting && t.buffers == s.buffers && Beside(s, t, root)
  {
    hide Get, Put, BatchMade, PartialRecord, Run;
    var a := Next(cfg, s, NotFull);
    t := Next(cfg, a, SavePartial);
    EmptyRun(cfg, s);
    RunThen(cfg, s, [], s, NotFull);
    RunThen(cfg, s, [] + [NotFull], a, SavePartial);
    actions := [] + [NotFull] + [SavePartial];
  }

  /** SaveBatch: the record and the hash. */
  lemma RecordSaved(cfg: Config, s: State, before: seq<Action>, t: State) returns (actions: seq<Action>, u: State)
    requires Run(cfg, s, before, t) && t.batcher.PuttingRecord?
    ensures Run(cfg, s, actions, u) && u == t.(batcher := Saved(t.batcher.stage), db := u.db)
  {
    hide Get, Put, BatchMade, PartialRecord, Run;
    var a := Next(cfg, t, PutRecord);
    u := Next(cfg, a, PutHash);
    RunThen(cfg, s, before, t, PutRecord);
    RunThen(cfg, s, before + [PutRecord], a, PutHash);
    actions := before + [PutRecord] + [PutHash];
  }

  /** Submission or proof, and the record saved again. */
  lemma StageSaved(cfg: Config, s: State, before: seq<Action>, t: State, a: Action)
    returns (actions: seq<Action>, u: State)
    requires Run(cfg, s, before, t) && Enabled(cfg, t, a) && (a == SubmitMetadata || a == ProveOk)
    ensures Run(cfg, s, actions, u) && u.batcher == Saved(if a.ProveOk? then Verified else Submitted)
    ensures u == t.(batcher := u.batcher, current := u.current, db := u.db)
    ensures u.current.currentStateRoot == t.current.currentStateRoot
  {
    hide Get, Put, BatchMade, PartialRecord, Run;
    RunThen(cfg, s, before, t, a);
    actions, u := RecordSaved(cfg, s, before + [a], Next(cfg, t, a));
  }

  /** From `s` to `t` a batch with this state root has come to this stage. */
  ghost predicate Brought(s: State, t: State, batcher: Batcher, root: GoString) {
    && t.current.currentStateRoot == root
    && t == s.(batcher := batcher, current := t.current, db := t.db, hist := s.hist.(attempts := t.hist.attempts))
  }

  lemma BatchCreated(cfg: Config, s: State, root: GoString, da: DaReceipt)
    requires s.batcher == Checking && |s.buffers.txns| == BATCH_SIZE && AlignedBuffers(s.buffers)
    ensures Enabled(cfg, s, CreateBatch(root, da))
    ensures Brought(s, Next(cfg, s, CreateBatch(root, da)), PuttingRecord(Created), root)
  {
    hide Get, Put, ComputeBatchHash, ComputeBatchCommitment, PrevFor, TextAt, ReceivedCount;
  }

  lemma BatchSaved(cfg: Config, s: State, root: GoString, da: DaReceipt) returns (actions: seq<Action>, t: State)
    requires s.batcher == Checking && |s.buffers.txns| == BATCH_SIZE && AlignedBuffers(s.buffers)
    ensures Run(cfg, s, actions, t) && Brought(s, t, Saved(Created), root)
  {
    var a := CreateBatch(root, da);
    BatchCreated(cfg, s, root, da);
    var made := Next(cfg, s, a);
    EmptyRun(cfg, s);
    hide Run, Next, Enabled;
    RunThen(cfg, s, [], s, a);
    actions, t := RecordSaved(cfg, s, [] + [a], made);
  }

  lemma BatchSubmitted(cfg: Config, s: State, root: GoString, da: DaReceipt) returns (actions: seq<Action>, t: State)
    requires s.batcher == Checking && |s.buffers.txns| == BATCH_SIZE && AlignedBuffers(s.buffers)
    ensures Run(cfg, s, actions, t) && Brought(s, t, Saved(Submitted), root)
  {
    hide Run, Next, AlignedBuffers;
    var before, u := BatchSaved(cfg, s, root, da);
    actions, t := StageSaved(cfg, s, before, u, SubmitMetadata);
  }

  lemma BatchVerified(cfg: Config, s: State, root: GoString, da: DaReceipt) returns (actions: seq<Action>, t: State)
    requires s.batcher == Checking && |s.buffers.txns| == BATCH_SIZE && AlignedBuffers(s.buffers)
    ensures Run(cfg, s, actions, t) && Brought(s, t, Saved(Verified), root)
  {
    hide Run, Next, AlignedBuffers;
    var before, u := BatchSubmitted(cfg, s, root, da);
    actions, t := StageSaved(cfg, s, before, u, ProveOk);
  }

  /** A full buffer becomes a batch that is saved, submitted, proved and closed. */
  lemma BatchClosed(cfg: Config, s: State, root: GoString, da: DaReceipt) returns (actions: seq<Action>, t: State)
    requires s.batcher == Checking && |s.buffers.txns| == BATCH_SIZE && AlignedBuffers(s.buffers)
    ensures Run(cfg, s, actions, t) && t.batcher == Collecting && AlignedBuffers(t.buffers) && t.buffers.txns == []
    ensures Beside(s, t, root) && |t.hist.closed| == |s.hist.closed| + 1
  {
    hide Get, Put, PartialRecord, BatchMade, Run;
    var before, v := BatchVerified(cfg, s, root, da);
    RunThen(cfg, s, before, v, CloseBatch);
    var closed := Next(cfg, v, CloseBatch);
    RunThen(cfg, s, before + [CloseBatch], closed, SavePartial);
    t := Next(cfg, closed, SavePartial);
    actions := before + [CloseBatch] + [SavePartial];
  }

  /** One transaction is taken, and the batch closed that it fills. */
  lemma OneTaken(cfg: Config, s: State, i: nat, root: GoString, da: DaReceipt) returns (actions: seq<Action>, t: State)
    requires Waiting(cfg, s, i) && i < |cfg.chain(s.lastBlock)|
    ensures Run(cfg, s, actions, t) && Waiting(cfg, t, i + 1) && t.lastBlock == s.lastBlock && Closes(s, t, root)
  {
    hide Run;
    var before, a := OneDelivered(cfg, s, i, root);
    var after;
    if |a.buffers.txns| == BATCH_SIZE {
      after, t := BatchClosed(cfg, a, root, da);
    } else {
      after, t := PartSaved(cfg, a, root);
    }
    RunConcat(cfg, s, before, a, after, t);
    actions := before + after;
  }

  /** The rest of a block is taken. */
  lemma {:induction false} RestTaken(cfg: Config, s: State, i: nat, root: GoString, da: DaReceipt)
    returns (actions: seq<Action>, t: State)
    requires Waiting(cfg, s, i)
    ensures Run(cfg, s, actions, t) && Waiting(cfg, t, |cfg.chain(t.lastBlock)|) && t.lastBlock == s.lastBlock
      && Closes(s, t, root)
    decreases |cfg.chain(s.lastBlock)| - i
  {
    if i == |cfg.chain(s.lastBlock)| {
      actions, t := [], s;
    } else {
      hide Run, Waiting;
      var before, a := OneTaken(cfg, s, i, root, da);
      var after;
      after, t := RestTaken(cfg, a, i + 1, root, da);
      RunConcat(cfg, s, before, a, after, t);
      actions := before + after;
    }
  }

  /** The batcher waits, and the producer is between blocks. */
  predicate Idle(s: State) {
    && s.batcher == Collecting && s.chan == [] && s.producer == Fetching
    && AlignedBuffers(s.buffers) && |s.buffers.txns| < BATCH_SIZE
  }

  lemma BlockTaken(cfg: Config, s: State, root: GoString, da: DaReceipt) returns (actions: seq<Action>, t: State)
    requires Idle(s)
    ensures Run(cfg, s, actions, t) && Idle(t) && t.lastBlock == s.lastBlock + 1 && Closes(s, t, root)
  {
    hide Get, Put, BatchMade, PartialRecord, Run;
    EmptyRun(cfg, s);
    RunThen(cfg, s, [], s, BeginBlock);
    var begun := Next(cfg, s, BeginBlock);
    var middle, a := RestTaken(cfg, begun, 0, root, da);
    RunConcat(cfg, s, [] + [BeginBlock], begun, middle, a);
    RunThen(cfg, s, [] + [BeginBlock] + middle, a, EndBlock);
    var ended := Next(cfg, a, EndBlock);
    RunThen(cfg, s, [] + [BeginBlock] + middle + [EndBlock], ended, StoreLastBlock);
    t := Next(cfg, ended, StoreLastBlock);
    actions := [] + [BeginBlock] + middle + [EndBlock] + [StoreLastBlock];
  }

  lemma {:induction false} BlocksTaken(cfg: Config, s: State, end: nat, root: GoString, da: DaReceipt)
    returns (actions: seq<Action>, t: State)
    requires Idle(s) && s.lastBlock <= end
    ensures Run(cfg, s, actions, t) && Idle(t) && t.lastBlock == end && Closes(s, t, root)
    decreases end - s.lastBlock
  {
    if s.lastBlock == end {
      actions, t := [], s;
    } else {
      hide Run, Idle;
      var before, a := BlockTaken(cfg, s, root, da);
      var after;
      after, t := BlocksTaken(cfg, a, end, root, da);
      RunConcat(cfg, s, before, a, after, t);
      actions := before + after;
    }
  }

  /** Nothing is on the way, so everything sent is in closed batches or in the buffer. */
  lemma WhenIdle(cfg: Config, t: State)
    requires ProducerInv(cfg, t) && StreamInv(t) && BufferInv(t) && ControlInv(t) && Idle(t)
    ensures t.hist.sent == BlocksFrom(cfg.chain, t.hist.start, t.lastBlock)
    ensures |t.hist.closed| == |Stream(t)| / BATCH_SIZE && |t.buffers.txns| == |Stream(t)| % BATCH_SIZE
  {
    hide BlocksFrom, SumGas, BuffersOf;
    StreamParts(t);
    hide Stream, StreamInv;
  }

  /** Everything can be batched: from an empty database there is, for any blocks, a run after
      which all their transactions have been sent and taken, every full 128 of them are a closed
      batch with the state root `root`, and the rest is in the buffer. */
  lemma BlocksCanBeBatched(cfg: Config, s: State, end: nat, root: GoString, da: DaReceipt)
    returns (actions: seq<Action>, t: State)
    requires FreshStart(s) && 1 <= end < INT64_LIMIT
    ensures Run(cfg, s, actions, t) && AtRest(t) && t.lastBlock == end
    ensures Stream(t) == BlocksFrom(cfg.chain, 1, end)
    ensures |t.hist.closed| == |Stream(t)| / BATCH_SIZE && |t.buffers.txns| == |Stream(t)| % BATCH_SIZE
    ensures forall i :: 0 <= i < |t.hist.closed| ==> t.hist.closed[i].currentStateRoot == root
  {
    FreshIsEmpty(s);
    actions, t := BlocksTaken(cfg, s, end, root, da);
    hide Run, FreshStart, BuffersOf, Started, BlocksFrom, AttemptsInv, CurrentInv, ClosedInv, PartialInv, LastBlockInv,
      FreshInv;
    FreshReachable(cfg, s, actions, t);
    ReachableInv(cfg, s, actions, t);
    hide ProducerInv, StreamInv, BufferInv, ControlInv;
    WhenIdle(cfg, t);
    assert [] + t.hist.sent == t.hist.sent;
  }

  // ---- Promises that fail, at reachable states --------------------------------------------

  /** Two batches from an empty database, the second with an empty previous root where the first
      one's root is `root`. */
  lemma RootsNotChainedExample(cfg: Config, s: State, end: nat, root: GoString, da: DaReceipt)
    returns (actions: seq<Action>, t: State)
    requires FreshStart(s) && 1 <= end < INT64_LIMIT && |BlocksFrom(cfg.chain, 1, end)| >= 2 * BATCH_SIZE
    ensures Run(cfg, s, actions, t) && |t.hist.closed| >= 2
    ensures t.hist.closed[0].currentStateRoot == root && t.hist.closed[1].previousStateRoot == []
  {
    actions, t := BlocksCanBeBatched(cfg, s, end, root, da);
    hide Run, FreshStart, BlocksFrom, Stream;
    ClosedRoots(cfg, s, actions, t, 1);
  }

  /** A restart that loses a transaction for good: the blocks up to `end` fill their batches
      exactly, the last transaction is forgotten, and its block is not read again. */
  lemma RestartExample(cfg: Config, s: State, end: nat, root: GoString, da: DaReceipt)
    returns (actions: seq<Action>, t: State)
    requires FreshStart(s) && 1 <= end < INT64_LIMIT
    requires BlocksFrom(cfg.chain, 1, end) != [] && |BlocksFrom(cfg.chain, 1, end)| % BATCH_SIZE == 0
    ensures Run(cfg, s, actions, t) && AtRest(t) && |t.buffers.txns| == 0 && Stream(t) != [] && Restarted(t) != t
    ensures Kept(t) == |Stream(t)| - 1 && Settled(cfg, t) == |Stream(t)|
  {
    FreshIsEmpty(s);
    actions, t := BlocksCanBeBatched(cfg, s, end, root, da);
    hide Run, Started, BlocksFrom, Stream, LoadedPartial, LoadedLastBlock, Inv, FreshInv, SumGas;
    FreshReachable(cfg, s, actions, t);
    hide FreshStart, Reachable;
    ReachableInv(cfg, s, actions, t);
    RestartBringsBack(cfg, s, actions, t);
    HashChain(cfg, s, actions, t, 0);
  }

  /** The next transaction fills the buffer, and the batch made of it is stored. */
  lemma Remade(cfg: Config, u: State, root: GoString, da: DaReceipt) returns (actions: seq<Action>, v: State)
    requires u.batcher == Collecting && u.producer == Fetching && u.chan == [] && |cfg.chain(u.lastBlock)| > 0
    requires AlignedBuffers(u.buffers) && |u.buffers.txns| == BATCH_SIZE - 1
    ensures Run(cfg, u, actions, v)
    ensures Get(v.db, BatchKey(u.batchNo)) == Some(BatchRecord(v.current)) && !v.current.verified
    ensures v.current.transactions == u.buffers.txns + [cfg.chain(u.lastBlock)[0].txHex]
  {
    hide Get, Put, PartialRecord, Run, ComputeBatchHash, ComputeBatchCommitment, PrevFor, TextAt, ReceivedCount;
    EmptyRun(cfg, u);
    RunThen(cfg, u, [], u, BeginBlock);
    var begun := Next(cfg, u, BeginBlock);
    var more, full := OneDelivered(cfg, begun, 0, root);
    RunConcat(cfg, u, [] + [BeginBlock], begun, more, full);
    actions := [] + [BeginBlock] + more;
    assert full.buffers.txns[..BATCH_SIZE] == full.buffers.txns;
    actions, v := MadeAndStored(cfg, u, actions, full, root, da);
  }

  lemma MadeAndStored(cfg: Config, s: State, before: seq<Action>, t: State, root: GoString, da: DaReceipt)
    returns (actions: seq<Action>, v: State)
    requires Run(cfg, s, before, t)
    requires t.batcher == Checking && |t.buffers.txns| == BATCH_SIZE && AlignedBuffers(t.buffers)
    ensures Run(cfg, s, actions, v)
    ensures Get(v.db, BatchKey(t.batchNo)) == Some(BatchRecord(v.current)) && !v.current.verified
    ensures v.current.transactions == t.buffers.txns[..BATCH_SIZE]
  {
    hide Get, Put, PartialRecord, Run, ComputeBatchHash, ComputeBatchCommitment, PrevFor, TextAt, ReceivedCount;
    var made := Next(cfg, t, CreateBatch(root, da));
    RunThen(cfg, s, before, t, CreateBatch(root, da));
    GetPut(made.db, BatchKey(made.current.batchNo), BatchRecord(made.current));
    RunThen(cfg, s, before + [CreateBatch(root, da)], made, PutRecord);
    v := Next(cfg, made, PutRecord);
    actions := before + [CreateBatch(root, da)] + [PutRecord];
  }
}
