/** Two lives of the process: it stops at any moment and is started again on its database. */
module PipelineLives {
  import opened Bytes
  import opened BatchStore
  import opened Commitment
  import opened Pipeline
  import opened PipelineInvariant
  import opened PipelineTheorems
  import opened PipelineRestart
  import opened PipelineRuns

  /** The transactions a restart finds in the saved partial batch. */
  ghost function RowsKept(t: State): seq<TxData> {
    var n := |Restarted(t).buffers.txns|;
    if n <= Kept(t) <= |Stream(t)| then Stream(t)[Kept(t) - n..Kept(t)] else []
  }

  /** The state the second process starts in, with a history of its own. */
  ghost function Second(t: State): State {
    var u := Restarted(t);
    u.(hist := History(u.batchNo, PrevFor(u.db, u.batchNo), u.lastBlock, RowsKept(t), [], RowsKept(t), [], [], [], 0))
  }

  /** Wherever the first process stops, the second starts as every process does. */
  lemma SecondStarts(cfg: Config, s: State, actions: seq<Action>, t: State)
    requires Reachable(cfg, s, actions, t) && t.lastBlock < INT64_LIMIT
    ensures Started(Second(t)) && |RowsKept(t)| == |Restarted(t).buffers.txns| <= Kept(t) <= |Stream(t)|
    ensures Loads(t, RowsKept(t))
  {
    hide Reachable, Stream, Kept, Settled, Taken, BlocksFrom;
    var rows := RestartKeepsPrefix(cfg, s, actions, t);
    assert |BuffersOf(rows).txns| == |rows|;
    hide LoadedPartial, LoadedLastBlock, PrevFor, SumGas, BuffersOf;
    assert RowsKept(t) == rows;
    RestartedTwice(t);
  }

  /** Loading again gives the same. */
  lemma RestartedTwice(t: State)
    ensures Restarted(Second(t)) == Second(t)
  {
    hide LoadedPartial, LoadedLastBlock, PrevFor, RowsKept;
  }

  // ---- Exactly once across a restart ------------------------------------------------------

  lemma {:induction false} BlocksJoin(chain: nat -> seq<TxData>, start: nat, middle: nat, end: nat)
    requires start <= middle <= end
    ensures BlocksFrom(chain, start, end) == BlocksFrom(chain, start, middle) + BlocksFrom(chain, middle, end)
    decreases end
  {
    if middle == end {
      assert BlocksFrom(chain, middle, end) == [];
      assert BlocksFrom(chain, start, middle) + [] == BlocksFrom(chain, start, middle);
    } else {
      BlocksJoin(chain, start, middle, end - 1);
      ConcatAssociative(BlocksFrom(chain, start, middle), BlocksFrom(chain, middle, end - 1), chain(end - 1));
    }
  }

  /** What should go into batches up to block `end`. */
  ghost function Intended(cfg: Config, t: State, end: nat): seq<TxData> {
    t.hist.initial + BlocksFrom(cfg.chain, t.hist.start, end)
  }

  /** What does, when the process stops at `t` and the second one comes to `v`: the batches
      before the number it resumes with, and its own stream. */
  ghost function Across(t: State, v: State): seq<TxData>
    requires |RowsKept(t)| <= Kept(t) <= |Stream(t)|
  {
    Stream(t)[..Kept(t) - |RowsKept(t)|] + Stream(v)
  }

  /** Every run of the second process goes on with what was kept and the blocks from the stored
      number on. */
  lemma SecondRun(cfg: Config, s: State, actions: seq<Action>, t: State, after: seq<Action>, v: State)
    requires Reachable(cfg, s, actions, t) && t.lastBlock < INT64_LIMIT
    requires Run(cfg, Second(t), after, v) && v.producer == Fetching
    ensures |RowsKept(t)| <= Kept(t) <= |Stream(t)| && Restarted(t).lastBlock <= v.lastBlock
    ensures Across(t, v) == Stream(t)[..Kept(t)] + BlocksFrom(cfg.chain, Restarted(t).lastBlock, v.lastBlock)
  {
    SecondStarts(cfg, s, actions, t);
    var later := SecondStream(cfg, t, after, v);
    var k, n := Kept(t), |RowsKept(t)|;
    hide Reachable, Restarted, Kept, BlocksFrom, Run, Started, Second;
    assert RowsKept(t) == Stream(t)[k - n..k];
    hide Stream, RowsKept;
    assert Stream(t)[..k] == Stream(t)[..k - n] + Stream(t)[k - n..k];
    ConcatAssociative(Stream(t)[..k - n], Stream(t)[k - n..k], later);
  }

  lemma SecondStream(cfg: Config, t: State, after: seq<Action>, v: State) returns (later: seq<TxData>)
    requires Started(Second(t)) && Run(cfg, Second(t), after, v) && v.producer == Fetching
    ensures Restarted(t).lastBlock <= v.lastBlock
    ensures later == BlocksFrom(cfg.chain, Restarted(t).lastBlock, v.lastBlock) && Stream(v) == RowsKept(t) + later
  {
    hide Run, Started, BlocksFrom, RowsKept, PrevFor, LoadedPartial, LoadedLastBlock;
    hide StreamInv, BufferInv, ControlInv, AttemptsInv, CurrentInv, ClosedInv, PartialInv, LastBlockInv;
    ReachableInv(cfg, Second(t), after, v);
    later := v.hist.sent;
    assert BlocksFrom(cfg.chain, v.hist.start, v.lastBlock) + [] == BlocksFrom(cfg.chain, v.hist.start, v.lastBlock);
  }

  /** Exactly once across a restart: stopped at any reachable state and started again, the
      process has, at the end of every run between two blocks, each transaction of the blocks so
      far once and in order, just when what is kept ends where the block begins that it goes on
      with. Otherwise exactly the transactions in between are lost, or taken twice. */
  lemma RestartIsExactlyOnce(cfg: Config, s: State, actions: seq<Action>, t: State, after: seq<Action>, v: State)
    requires Reachable(cfg, s, actions, t) && t.lastBlock < INT64_LIMIT
    requires Run(cfg, Second(t), after, v) && v.producer == Fetching
    ensures |RowsKept(t)| <= Kept(t) <= |Stream(t)| && Settled(cfg, t) <= |Stream(t)|
    ensures Across(t, v) == Intended(cfg, t, v.lastBlock) <==> Kept(t) == Settled(cfg, t)
    ensures var p, q := Kept(t), Settled(cfg, t);
      exists rest ::
        && (p <= q ==>
              && Intended(cfg, t, v.lastBlock) == Stream(t)[..p] + Stream(t)[p..q] + rest
              && Across(t, v) == Stream(t)[..p] + rest)
        && (q <= p ==>
              && Intended(cfg, t, v.lastBlock) == Stream(t)[..q] + rest
              && Across(t, v) == Stream(t)[..q] + Stream(t)[q..p] + rest)
  {
    SecondRun(cfg, s, actions, t, after, v);
    var rows := RestartKeepsPrefix(cfg, s, actions, t);
    hide Reachable, Restarted, Stream, Kept, Settled, Taken, Run, Second, Loads, RowsKept, Across;
    var p, q, all := Kept(t), Settled(cfg, t), Stream(t);
    var block := Restarted(t).lastBlock;
    var rest := BlocksFrom(cfg.chain, block, v.lastBlock);
    BlocksJoin(cfg.chain, t.hist.start, block, v.lastBlock);
    hide BlocksFrom;
    ConcatAssociative(t.hist.initial, BlocksFrom(cfg.chain, t.hist.start, block), rest);
    assert Intended(cfg, t, v.lastBlock) == all[..q] + rest;
    hide Intended;
    TwoCuts(all, p, q, rest);
  }

  lemma TwoCuts<T>(all: seq<T>, p: nat, q: nat, rest: seq<T>)
    requires p <= |all| && q <= |all|
    ensures all[..p] + rest == all[..q] + rest <==> p == q
    ensures p <= q ==> all[..q] + rest == all[..p] + all[p..q] + rest
    ensures q <= p ==> all[..p] + rest == all[..q] + all[q..p] + rest
  {
    assert |all[..p] + rest| == p + |rest| && |all[..q] + rest| == q + |rest|;
    if p <= q {
      assert all[..q] == all[..p] + all[p..q];
    } else {
      assert all[..p] == all[..q] + all[q..p];
    }
  }

  lemma FirstTaken(cfg: Config, s: State, root: GoString, da: DaReceipt) returns (actions: seq<Action>, t: State)
    requires Idle(s) && |cfg.chain(s.lastBlock)| > 0
    ensures Run(cfg, s, actions, t) && Waiting(cfg, t, 1) && t.lastBlock == s.lastBlock
  {
    hide Get, Put, BatchMade, PartialRecord, Run;
    EmptyRun(cfg, s);
    RunThen(cfg, s, [], s, BeginBlock);
    var begun := Next(cfg, s, BeginBlock);
    var middle;
    middle, t := OneTaken(cfg, begun, 0, root, da);
    RunConcat(cfg, s, [] + [BeginBlock], begun, middle, t);
    actions := [] + [BeginBlock] + middle;
  }

  lemma FirstKept(cfg: Config, s: State, actions: seq<Action>, t: State)
    requires FreshStart(s) && Run(cfg, s, actions, t) && Waiting(cfg, t, 1) && t.lastBlock == 1
    ensures Kept(t) == 1 && Settled(cfg, t) == 0 && |Stream(t)| >= 1 && Stream(t)[..1] == [cfg.chain(1)[0]]
    ensures Restarted(t).lastBlock == 1
  {
    FreshIsEmpty(s);
    hide Run, FreshStart, BuffersOf, SumGas, LoadedPartial, LoadedLastBlock, AttemptsInv, CurrentInv, ClosedInv,
      FreshInv, RecordInv, Started;
    FreshReachable(cfg, s, actions, t);
    ReachableInv(cfg, s, actions, t);
    assert BlocksFrom(cfg.chain, 1, 1) == [];
    assert t.hist.sent == cfg.chain(1)[..1];
    assert |t.hist.closedRows + t.hist.buffered| == 1;
    assert |t.hist.closed| == 0 && |t.hist.buffered| == 1;
    assert SavedAt(t, 1);
    KeptWhenBuffered(t, 1);
  }

  /** A stop inside a block: its first transaction is kept and read again. The second process
      comes to the end of the block having taken it twice. */
  lemma TakenTwiceExample(cfg: Config, s: State, root: GoString, da: DaReceipt)
    returns (actions: seq<Action>, t: State, after: seq<Action>, v: State)
    requires FreshStart(s) && |cfg.chain(1)| > 0
    ensures Run(cfg, s, actions, t) && Run(cfg, Second(t), after, v) && v.producer == Fetching && v.lastBlock == 2
    ensures Kept(t) == 1 && Settled(cfg, t) == 0 && |RowsKept(t)| <= 1 <= |Stream(t)|
    ensures Across(t, v) == [cfg.chain(1)[0]] + cfg.chain(1)
  {
    FreshIsIdle(s);
    hide *;
    actions, t := FirstTaken(cfg, s, root, da);
    FirstKept(cfg, s, actions, t);
    FreshReachable(cfg, s, actions, t);
    after, v := OneBlockMore(cfg, s, actions, t, root, da);
    OneBlock(cfg.chain, 1);
  }

  lemma OneBlock(chain: nat -> seq<TxData>, n: nat)
    ensures BlocksFrom(chain, n, n + 1) == chain(n)
  {
    assert BlocksFrom(chain, n, n) == [] && [] + chain(n) == chain(n);
  }

  lemma FreshIsIdle(s: State)
    requires FreshStart(s)
    ensures Idle(s) && s.lastBlock == 1
  {
    FreshIsEmpty(s);
    StartedIsIdle(s);
  }

  /** The second process can take the block it begins with. */
  lemma OneBlockMore(cfg: Config, s: State, actions: seq<Action>, t: State, root: GoString, da: DaReceipt)
    returns (after: seq<Action>, v: State)
    requires Reachable(cfg, s, actions, t) && t.lastBlock < INT64_LIMIT
    ensures Run(cfg, Second(t), after, v) && v.producer == Fetching && v.lastBlock == Restarted(t).lastBlock + 1
    ensures |RowsKept(t)| <= Kept(t) <= |Stream(t)|
    ensures Across(t, v) == Stream(t)[..Kept(t)] + BlocksFrom(cfg.chain, Restarted(t).lastBlock, v.lastBlock)
  {
    SecondStarts(cfg, s, actions, t);
    StartedIsIdle(Second(t));
    assert Second(t).lastBlock == Restarted(t).lastBlock;
    hide Run, Started, Reachable, Stream, RowsKept, Kept, Second, Restarted, Across;
    after, v := BlocksTaken(cfg, Second(t), Second(t).lastBlock + 1, root, da);
    SecondRun(cfg, s, actions, t, after, v);
  }

  lemma StartedIsIdle(s: State)
    requires Started(s)
    ensures Idle(s)
  {
    hide LoadedPartial, LoadedLastBlock, SumGas, PrevFor;
  }

  // ---- Verified records across a restart --------------------------------------------------

  /** A run writes no record under a number below the one it starts with. */
  lemma {:induction false} LowerRecordsStay(cfg: Config, s: State, actions: seq<Action>, t: State, n: nat)
    requires Inv(cfg, s) && Run(cfg, s, actions, t) && n < s.batchNo
    ensures Get(t.db, BatchKey(n)) == Get(s.db, BatchKey(n))
    decreases |actions|
  {
    if |actions| == 0 {
    } else {
      var a := actions[0];
      InvKept(cfg, s, a);
      LowerStep(cfg, s, a, n);
      hide Inv, Enabled, Next, Get;
      LowerRecordsStay(cfg, Next(cfg, s, a), actions[1..], t, n);
    }
  }

  lemma LowerStep(cfg: Config, s: State, a: Action, n: nat)
    requires ControlInv(s) && Enabled(cfg, s, a) && n < s.batchNo
    ensures Get(Next(cfg, s, a).db, BatchKey(n)) == Get(s.db, BatchKey(n)) && n < Next(cfg, s, a).batchNo
  {
    hide Get, Put, BatchMade, PartialRecord, ReceivedCount;
    ClosedKeysStay(cfg, s, a, n);
  }

  /** A verified record has a number below the resumed one, or it is the resumed one and 127 of
      its transactions are in the buffer again. */
  lemma VerifiedNumber(cfg: Config, s: State, actions: seq<Action>, t: State, n: nat, b: Batch)
    requires FreshStart(s) && Run(cfg, s, actions, t)
    requires Get(t.db, BatchKey(n)) == Some(BatchRecord(b)) && b.verified
    ensures n < Restarted(t).batchNo || (n == Restarted(t).batchNo && |Restarted(t).buffers.txns| == BATCH_SIZE - 1)
  {
    FreshReachable(cfg, s, actions, t);
    assert RecordInv(t, n);
    hide Run, FreshStart, FreshInv, Get, AttemptsInv, CurrentInv, ClosedInv, ProducerInv, StreamInv, LastBlockInv,
      Started;
    hide LoadedPartial, LoadedLastBlock, SumGas, BuffersOf;
    var j := SavedPart(t);
    if j > 0 {
      KeptWhenBuffered(t, j);
      assert |BuffersOf(t.hist.buffered[..j]).txns| == j;
    } else if t.hist.closed != [] {
      KeptWhenClosed(t);
    }
  }

  lemma {:induction false} FirstTransaction(chain: nat -> seq<TxData>, from: nat, m: nat) returns (end: nat)
    requires from <= m && chain(m) != []
    ensures from <= end && chain(end) != [] && BlocksFrom(chain, from, end) == []
    decreases m - from
  {
    if chain(from) != [] {
      end := from;
    } else {
      end := FirstTransaction(chain, from + 1, m);
      BlocksJoin(chain, from, from + 1, end);
      OneBlock(chain, from);
    }
  }

  /** A process that starts with 127 transactions buffered stores a batch with the next one. */
  lemma NextOneStored(cfg: Config, u: State, m: nat, root: GoString, da: DaReceipt)
    returns (actions: seq<Action>, v: State, end: nat)
    requires Started(u) && |u.buffers.txns| == BATCH_SIZE - 1 && u.lastBlock <= m && cfg.chain(m) != []
    ensures u.lastBlock <= end && cfg.chain(end) != [] && BlocksFrom(cfg.chain, u.lastBlock, end) == []
    ensures Run(cfg, u, actions, v)
    ensures Get(v.db, BatchKey(u.batchNo)) == Some(BatchRecord(v.current)) && !v.current.verified
    ensures v.current.transactions == u.buffers.txns + [cfg.chain(end)[0].txHex]
  {
    end := FirstTransaction(cfg.chain, u.lastBlock, m);
    StartedIsIdle(u);
    var before, w := BlocksTaken(cfg, u, end, root, da);
    NothingNew(cfg, u, before, w);
    var after;
    hide Run, Started, BuffersOf, BlocksFrom;
    after, v := Remade(cfg, w, root, da);
    RunConcat(cfg, u, before, w, after, v);
    actions := before + after;
  }

  /** After empty blocks the buffer is as it was. */
  lemma NothingNew(cfg: Config, u: State, actions: seq<Action>, w: State)
    requires Started(u) && Run(cfg, u, actions, w) && Idle(w)
    requires BlocksFrom(cfg.chain, u.lastBlock, w.lastBlock) == []
    ensures w.buffers == u.buffers && w.batchNo == u.batchNo
  {
    hide Run, SumGas, AttemptsInv, CurrentInv, ClosedInv, PartialInv, LastBlockInv, LoadedPartial, LoadedLastBlock,
      PrevFor;
    ReachableInv(cfg, u, actions, w);
    WhenIdle(cfg, w);
    StreamParts(w);
    hide BuffersOf, BlocksFrom;
    assert w.hist.closedRows == [] && w.hist.buffered == u.hist.initial;
  }

  /** Finality across a restart: wherever the process stops, a verified record survives every
      run of the second process just when its number is below the one that resumes. Under the
      resumed number, as long as any transaction is to come, a run overwrites it with a record
      that is not verified. */
  lemma VerifiedAcrossRestart(cfg: Config, s: State, actions: seq<Action>, t: State, n: nat, b: Batch, m: nat)
    requires FreshStart(s) && Run(cfg, s, actions, t) && t.lastBlock < INT64_LIMIT
    requires Get(t.db, BatchKey(n)) == Some(BatchRecord(b)) && b.verified
    requires Restarted(t).lastBlock <= m && cfg.chain(m) != []
    ensures n < Restarted(t).batchNo <==>
      forall after, v :: Run(cfg, Second(t), after, v) ==> Get(v.db, BatchKey(n)) == Some(BatchRecord(b))
  {
    FreshReachable(cfg, s, actions, t);
    VerifiedNumber(cfg, s, actions, t, n, b);
    SecondStarts(cfg, s, actions, t);
    SecondIs(t);
    StartedInv(cfg, Second(t));
    hide *;
    if n < Restarted(t).batchNo {
      forall after, v | Run(cfg, Second(t), after, v)
        ensures Get(v.db, BatchKey(n)) == Some(BatchRecord(b))
      {
        LowerRecordsStay(cfg, Second(t), after, v, n);
      }
    } else {
      var after, v, end := NextOneStored(cfg, Second(t), m, [], DaReceipt([], [], [], []));
      assert Get(v.db, BatchKey(n)) == Some(BatchRecord(v.current));
    }
  }

  lemma SecondIs(t: State)
    ensures var u, r := Second(t), Restarted(t);
      u.db == t.db && u.batchNo == r.batchNo && u.buffers == r.buffers && u.lastBlock == r.lastBlock
  {
    hide LoadedPartial, LoadedLastBlock, PrevFor, RowsKept;
  }

  lemma LastReloaded(cfg: Config, s: State, before: seq<Action>, t: State)
    requires Reachable(cfg, s, before, t) && AtRest(t) && |t.buffers.txns| == 0 && Stream(t) != []
    ensures HasRows(t, t.batchNo - 1)
    ensures Restarted(t).batchNo == t.batchNo - 1 && Restarted(t).lastBlock == t.lastBlock
    ensures Restarted(t).buffers == BuffersOf(RowsOf(t, t.batchNo - 1)[..BATCH_SIZE - 1])
  {
    RestartBringsBack(cfg, s, before, t);
    hide Reachable, Stream, Restarted, HasRows, RowsOf, SumGas, BuffersOf;
  }

  lemma ClosedTexts(cfg: Config, t: State, i: nat)
    requires ClosedInv(cfg, t) && i < |t.hist.closed|
    ensures HasRows(t, t.hist.base + i) && t.hist.closed[i].transactions == BuffersOf(RowsOf(t, t.hist.base + i)).txns
  {
    hide Get, BuffersOf, SumGas, ComputeBatchHash, ComputeBatchCommitment, RowsOf, HasRows, PrevFor, PrevHash;
    assert ClosedBatchInv(cfg, t, i);
  }

  lemma LastClosed(cfg: Config, s: State, actions: seq<Action>, t: State)
    requires Reachable(cfg, s, actions, t) && AtRest(t) && |t.buffers.txns| == 0 && Stream(t) != []
    ensures |t.hist.closed| > 0 && HasRows(t, t.batchNo - 1)
    ensures var last := t.hist.closed[|t.hist.closed| - 1];
      && Get(t.db, BatchKey(t.batchNo - 1)) == Some(BatchRecord(last)) && last.verified
      && last.transactions == BuffersOf(RowsOf(t, t.batchNo - 1)).txns
  {
    hide Run, Started, Get, SumGas, RowsOf, HasRows, AttemptsInv, CurrentInv, ClosedInv, PartialInv, LastBlockInv,
      ProducerInv;
    ReachableInv(cfg, s, actions, t);
    StreamParts(t);
    assert |t.hist.buffered| == 0;
    hide Reachable, Stream, StreamInv, BufferInv, BuffersOf;
    HashChain(cfg, s, actions, t, |t.hist.closed| - 1);
    ClosedTexts(cfg, t, |t.hist.closed| - 1);
  }

  lemma TextsOfPrefix(rows: seq<TxData>, n: nat)
    requires n <= |rows|
    ensures BuffersOf(rows[..n]).txns == BuffersOf(rows).txns[..n]
  {
  }

  /** At rest on an empty buffer the next transaction makes a batch under the number of the one
      just closed: 127 of its transactions and the new one. */
  lemma ClosedBatchRemade(cfg: Config, s: State, before: seq<Action>, t: State, m: nat, root: GoString, da: DaReceipt)
    returns (after: seq<Action>, v: State, end: nat)
    requires Reachable(cfg, s, before, t) && AtRest(t) && |t.buffers.txns| == 0 && Stream(t) != []
    requires t.lastBlock <= m && cfg.chain(m) != []
    ensures |t.hist.closed| > 0 && Run(cfg, Second(t), after, v) && t.lastBlock <= end && cfg.chain(end) != []
    ensures var last := t.hist.closed[|t.hist.closed| - 1];
      && Get(t.db, BatchKey(t.batchNo - 1)) == Some(BatchRecord(last)) && last.verified
        && |last.transactions| == BATCH_SIZE
      && Get(v.db, BatchKey(t.batchNo - 1)) == Some(BatchRecord(v.current)) && !v.current.verified
      && v.current.transactions == last.transactions[..BATCH_SIZE - 1] + [cfg.chain(end)[0].txHex]
  {
    hide BuffersOf, RowsOf, HasRows, Stream, Reachable, Get, Started, LoadedPartial;
    LastClosed(cfg, s, before, t);
    LastReloaded(cfg, s, before, t);
    SecondStarts(cfg, s, before, t);
    SecondIs(t);
    TextsOfPrefix(RowsOf(t, t.batchNo - 1), BATCH_SIZE - 1);
    hide *;
    after, v, end := NextOneStored(cfg, Second(t), m, root, da);
  }
}
