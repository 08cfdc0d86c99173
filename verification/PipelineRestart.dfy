/** What a restart finds, and what it does to what had been promised. */
module PipelineRestart {
  import opened Bytes
  import opened BatchStore
  import opened Pipeline
  import opened PipelineInvariant
  import opened PipelineTheorems

  /** The batcher is at the head of its loop with nothing in the channel, and the producer is
      between blocks. */
  predicate AtRest(t: State) {
    t.batcher == Collecting && t.chan == [] && t.producer == Fetching && t.lastBlock < INT64_LIMIT
  }

  /** The number a restart resumes with: the current one while transactions are buffered, and
      that of the batch just closed when there are none. */
  function ResumedNumber(t: State): int {
    if |t.buffers.txns| == 0 then t.batchNo - 1 else t.batchNo
  }

  /** The first 127 transactions of the batch of that number. */
  ghost function ResumedRows(t: State): seq<TxData>
    requires HasRows(t, ResumedNumber(t))
  {
    RowsOf(t, ResumedNumber(t))[..BATCH_SIZE - 1]
  }

  /** Everything a restart at rest brings back. While the buffer holds 1 to 127 transactions, or
      nothing has happened yet, that is exactly the state lost. A full buffer, which waits for
      the prover, loses its last transaction; and an empty one is filled again with the first
      127 transactions of the batch just closed, under its number. */
  lemma RestartBringsBack(cfg: Config, s: State, actions: seq<Action>, t: State)
    requires Reachable(cfg, s, actions, t) && AtRest(t)
    ensures Stream(t) == [] || 0 < |t.buffers.txns| < BATCH_SIZE ==> Restarted(t) == t
    ensures Stream(t) != [] && !(0 < |t.buffers.txns| < BATCH_SIZE) ==>
      && HasRows(t, ResumedNumber(t))
      && var rows := ResumedRows(t);
         Restarted(t) == t.(batchNo := ResumedNumber(t), buffers := BuffersOf(rows),
                            totalGas := SumGas(rows) % UINT64, timestamp := rows[BATCH_SIZE - 2].time)
  {
    hide Run, Started, LoadedPartial, BuffersOf, SumGas, AttemptsInv, CurrentInv, ClosedInv, ProducerInv;
    ReachableInv(cfg, s, actions, t);
    assert |t.hist.buffered| == |t.buffers.txns|;
    StreamParts(t);
    hide StreamInv, Stream;
    if t.hist.buffered == [] && t.hist.closed == [] {
      NothingTaken(t);
    } else if 0 < |t.hist.buffered| < BATCH_SIZE {
      BufferLoaded(t);
    } else {
      BatchReopened(t);
    }
  }

  lemma NothingTaken(t: State)
    requires BufferInv(t) && ControlInv(t) && PartialInv(t) && LastBlockInv(t) && AtRest(t)
    requires t.hist.buffered == [] && t.hist.closed == []
    ensures Restarted(t) == t && Taken(t) == []
  {
    hide Get, LoadedPartial, LoadedLastBlock;
    assert SavedAt(t, 0);
    var b := t.buffers;
    assert |b.txns| == 0 && |b.traces| == 0 && |b.fromBalances| == 0 && |b.toBalances| == 0;
    assert b == Buffers([], [], [], []);
  }

  lemma BufferLoaded(t: State)
    requires BufferInv(t) && PartialInv(t) && LastBlockInv(t) && AtRest(t)
    requires 0 < |t.hist.buffered| < BATCH_SIZE
    ensures Restarted(t) == t
  {
    hide Get, LoadedPartial, LoadedLastBlock, BuffersOf, SumGas;
    assert t.hist.buffered[..|t.hist.buffered|] == t.hist.buffered;
  }

  lemma BatchReopened(t: State)
    requires BufferInv(t) && ControlInv(t) && PartialInv(t) && LastBlockInv(t) && AtRest(t)
    requires |t.hist.buffered| == BATCH_SIZE || (t.hist.buffered == [] && t.hist.closed != [])
    ensures HasRows(t, ResumedNumber(t))
    ensures var rows := ResumedRows(t);
      Restarted(t) == t.(batchNo := ResumedNumber(t), buffers := BuffersOf(rows),
                         totalGas := SumGas(rows) % UINT64, timestamp := rows[BATCH_SIZE - 2].time)
  {
    hide Get, LoadedPartial, LoadedLastBlock, BuffersOf, SumGas;
    assert |t.hist.buffered| == |t.buffers.txns|;
    var n := |t.hist.closedRows|;
    if t.hist.buffered == [] {
      assert SavedAt(t, 0);
      assert Taken(t) == t.hist.closedRows;
      assert ResumedRows(t) == t.hist.closedRows[n - BATCH_SIZE..n - 1];
    } else {
      assert ResumedRows(t) == t.hist.buffered[..BATCH_SIZE - 1];
    }
  }

  /** So a restart at rest is transparent just when the buffer holds 1 to 127 transactions or
      nothing has happened yet. */
  lemma RestartIsTransparent(cfg: Config, s: State, actions: seq<Action>, t: State)
    requires Reachable(cfg, s, actions, t) && AtRest(t)
    ensures Restarted(t) == t <==> 0 < |t.buffers.txns| < BATCH_SIZE || Stream(t) == []
  {
    hide Reachable, Restarted, Stream;
    RestartBringsBack(cfg, s, actions, t);
    if Stream(t) != [] && !(0 < |t.buffers.txns| < BATCH_SIZE) {
      assert |Restarted(t).buffers.txns| == BATCH_SIZE - 1;
    }
  }

  // ---- A restart at any moment ------------------------------------------------------------

  /** How many transactions of the stream a restart leaves in batches or in the buffer. */
  ghost function Kept(t: State): int {
    BATCH_SIZE * (Restarted(t).batchNo - t.hist.base) + |Restarted(t).buffers.txns|
  }

  /** How many transactions of the stream come before the block it goes on with. */
  ghost function Settled(cfg: Config, t: State): nat {
    |t.hist.initial| + |BlocksFrom(cfg.chain, t.hist.start, Restarted(t).lastBlock)|
  }

  /** A restart finds these transactions in the saved partial batch. */
  ghost predicate Loads(t: State, rows: seq<TxData>) {
    var u := Restarted(t);
    && |rows| < BATCH_SIZE
    && u.buffers == BuffersOf(rows) && u.totalGas == SumGas(rows) % UINT64
    && (rows != [] ==> u.timestamp == rows[|rows| - 1].time)
    && (LoadedPartial(t.db).Some? ==> rows != [] && LoadedPartial(t.db).value.batchNo > 0)
  }

  /** Whenever the process stops, the restarted one goes on with a prefix of the transactions
      taken, which misses the last two at most, and begins a block that is not ahead. */
  lemma RestartKeepsPrefix(cfg: Config, s: State, actions: seq<Action>, t: State) returns (rows: seq<TxData>)
    requires Reachable(cfg, s, actions, t) && t.lastBlock < INT64_LIMIT
    ensures |rows| <= Kept(t) <= |Taken(t)| <= Kept(t) + 2 && |Taken(t)| <= |Stream(t)|
    ensures Loads(t, rows) && rows == Stream(t)[Kept(t) - |rows|..Kept(t)]
    ensures t.hist.start <= Restarted(t).lastBlock <= t.lastBlock
    ensures Settled(cfg, t) <= |Stream(t)|
    ensures Stream(t)[..Settled(cfg, t)] == t.hist.initial + BlocksFrom(cfg.chain, t.hist.start, Restarted(t).lastBlock)
  {
    hide Run, Started, AttemptsInv, CurrentInv, ClosedInv, BufferInv, ControlInv, PartialInv, ProducerInv, StreamInv;
    ReachableInv(cfg, s, actions, t);
    hide *;
    StreamParts(t);
    rows := KeptRows(t);
    SettledOfStream(cfg, t);
    SliceOfHead(Taken(t), t.chan, Kept(t) - |rows|, Kept(t));
  }

  lemma KeptRows(t: State) returns (rows: seq<TxData>)
    requires BufferInv(t) && ControlInv(t) && PartialInv(t)
    ensures Loads(t, rows) && |rows| <= Kept(t) <= |Taken(t)| <= Kept(t) + 2
    ensures rows == Taken(t)[Kept(t) - |rows|..Kept(t)]
  {
    hide LoadedPartial, LoadedLastBlock, SumGas, BuffersOf;
    var j := SavedPart(t);
    if j > 0 {
      rows := t.hist.buffered[..j];
      KeptWhenBuffered(t, j);
    } else if t.hist.closed != [] {
      var n := |t.hist.closedRows|;
      rows := t.hist.closedRows[n - BATCH_SIZE..n - 1];
      KeptWhenClosed(t);
    } else {
      rows := [];
      KeptWhenNothing(t);
    }
  }

  lemma SavedPart(t: State) returns (j: nat)
    requires PartialInv(t) && BufferInv(t)
    ensures SavedAt(t, j) && j <= |t.hist.buffered| <= j + 1 && j < BATCH_SIZE
  {
    hide SavedAt;
    var k := |t.hist.buffered|;
    j := if k < BATCH_SIZE && SavedAt(t, k) then k else k - 1;
  }

  lemma KeptWhenBuffered(t: State, j: nat)
    requires BufferInv(t) && ControlInv(t) && SavedAt(t, j) && 0 < j < BATCH_SIZE
    ensures Loads(t, t.hist.buffered[..j]) && Restarted(t).batchNo == t.batchNo
    ensures Kept(t) == |t.hist.closedRows| + j && t.hist.buffered[..j] == Taken(t)[Kept(t) - j..Kept(t)]
  {
    hide LoadedPartial, LoadedLastBlock, SumGas, BuffersOf;
    assert |BuffersOf(t.hist.buffered[..j]).txns| == j;
    var n := |t.hist.closedRows|;
    assert Taken(t)[n..n + j] == t.hist.buffered[..j];
  }

  lemma KeptWhenClosed(t: State)
    requires BufferInv(t) && ControlInv(t) && SavedAt(t, 0) && t.hist.closed != []
    ensures var n := |t.hist.closedRows|;
      && n >= BATCH_SIZE && Loads(t, t.hist.closedRows[n - BATCH_SIZE..n - 1])
      && Restarted(t).batchNo == t.batchNo - 1 && Kept(t) == n - 1
      && t.hist.closedRows[n - BATCH_SIZE..n - 1] == Taken(t)[n - BATCH_SIZE..n - 1]
  {
    hide LoadedPartial, LoadedLastBlock, SumGas, BuffersOf;
    var n := |t.hist.closedRows|;
    var rows := t.hist.closedRows[n - BATCH_SIZE..n - 1];
    assert |BuffersOf(rows).txns| == BATCH_SIZE - 1;
    assert Taken(t)[n - BATCH_SIZE..n - 1] == rows;
  }

  lemma KeptWhenNothing(t: State)
    requires ControlInv(t) && SavedAt(t, 0) && t.hist.closed == []
    ensures Loads(t, []) && Kept(t) == 0 && Restarted(t).batchNo == t.batchNo
  {
    hide LoadedPartial, LoadedLastBlock;
    var b := BuffersOf([]);
    assert |b.txns| == 0 && |b.traces| == 0 && |b.fromBalances| == 0 && |b.toBalances| == 0;
    assert b == Buffers([], [], [], []);
  }

  lemma SettledOfStream(cfg: Config, t: State)
    requires ProducerInv(cfg, t) && LastBlockInv(t) && t.lastBlock < INT64_LIMIT
    ensures t.hist.start <= Restarted(t).lastBlock <= t.lastBlock
    ensures Settled(cfg, t) <= |Stream(t)|
    ensures Stream(t)[..Settled(cfg, t)] == t.hist.initial + BlocksFrom(cfg.chain, t.hist.start, Restarted(t).lastBlock)
  {
    hide LoadedPartial, LoadedLastBlock;
    var before := BlocksFrom(cfg.chain, t.hist.start, Restarted(t).lastBlock);
    assert before <= t.hist.sent;
    hide BlocksFrom;
    assert t.hist.initial + before <= Stream(t);
  }

  /** The saved partial batch always has 1 to 127 transactions. */
  lemma PartialIsPartial(cfg: Config, s: State, actions: seq<Action>, t: State)
    requires Reachable(cfg, s, actions, t) && LoadedPartial(t.db).Some?
    ensures 1 <= |LoadedPartial(t.db).value.transactions| < BATCH_SIZE
  {
    hide Run, Started, LoadedPartial, SumGas;
    ReachableInv(cfg, s, actions, t);
  }
}
