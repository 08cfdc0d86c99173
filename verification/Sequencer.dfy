/** The code of ProcessBlocks and the variables and the account store it works on, proved to run
    as the transition system says: every turn of the batcher's loop, with the producer's steps
    anywhere in between, and every block of the producer, is a run. */
module Sequencer {
  import opened Bytes
  import opened Accounts
  import opened BatchStore
  import opened Commitment
  import opened BatchIdentity
  import opened Pipeline
  import opened PipelineInvariant
  import opened SharedStore
  import PipelineRecords
  import PipelineTheorems
  import Hex
  import Ledger
  import Merkle
  import Processor
  import StateRoot
  import AccountTrie

  /** What is not up to the code during one turn of the batcher's loop: whether the timer of the
      select fires first, the answers of the data availability layer and of the prover, and how
      many steps the producer takes before each action of the batcher. */
  datatype World = World(timeout: bool, answer: DaAnswer, proved: bool, steps: nat -> nat)

  datatype DaClient = CelestiaClient | AvailClient | OtherClient

  /** What SubmitToDA returns, from which client, and whether with an error. */
  datatype DaAnswer = DaAnswer(
    client: DaClient, blockHash: GoString, txHash: GoString, commitment: GoString, failed: bool)

  /** The receipt of a batch: what the data availability layer answered, with the commitment "0x0"
      where it failed, and the name of the client. */
  ghost predicate IsReceipt(da: DaReceipt, answer: DaAnswer) {
    && da.blockHash == answer.blockHash && da.txHash == answer.txHash
    && da.commitment == (if answer.failed then Ascii("0x0") else answer.commitment)
    && da.provider == match answer.client
                      case CelestiaClient => Ascii("Celestia")
                      case AvailClient => Ascii("Avail")
                      case OtherClient => Ascii("Unknown")
  }

  method Receipt(answer: DaAnswer) returns (da: DaReceipt)
    ensures IsReceipt(da, answer)
  {
    hide Ascii;
    var daType := match answer.client
      case CelestiaClient => Ascii("Celestia")
      case AvailClient => Ascii("Avail")
      case OtherClient => Ascii("Unknown");
    var daCommitment := answer.commitment;
    if answer.failed {
      daCommitment := Ascii("0x0");
    }
    da := DaReceipt(daType, daCommitment, answer.blockHash, answer.txHash);
  }

  class Sequencer {
    const cfg: Config
    const keccak: HashFn
    /** The virtual machine, with the account store. */
    const processor: Processor.Processor
    /** The store at the start. */
    ghost const origin: Origin

    var db: Db
    var lastBlock: nat
    var producer: Producer
    var txChan: seq<TxData>
    var batchNo: BatchNumber
    var txBuffer: seq<GoString>
    var traceBuffer: seq<GoString>
    var fromBalanceBuffer: seq<GoString>
    var toBalanceBuffer: seq<GoString>
    var totalGas: uint64
    var timestamp: int
    var batch: Batch

    ghost predicate Matches(s: State)
      reads this
    {
      && db == s.db && lastBlock == s.lastBlock && producer == s.producer && txChan == s.chan && batchNo == s.batchNo
      && Buffers(txBuffer, traceBuffer, fromBalanceBuffer, toBalanceBuffer) == s.buffers
      && totalGas == s.totalGas && timestamp == s.timestamp && batch == s.current
    }

    /** The variables and the account store are where this run leads. */
    ghost predicate Reached(s: State, actions: seq<Action>, t: State)
      reads this, processor.state
    {
      && processor.create == origin.create && Matches(t)
      && RunOn(cfg, keccak, origin, s, actions, t, processor.state.db)
    }

    /** The head of ProcessBlocks: load last_block and the partial batch. */
    constructor (cfg: Config, keccak: HashFn, processor: Processor.Processor, db: Db, batch: Batch, ghost s: State)
      requires s.db == db && s.current == batch
      ensures this.cfg == cfg && this.keccak == keccak && this.processor == processor
      ensures origin == Origin(processor.create, processor.state.db) && Matches(Restarted(s))
    {
      this.cfg, this.keccak, this.processor := cfg, keccak, processor;
      origin := Origin(processor.create, processor.state.db);
      this.db, this.batch, producer, txChan := db, batch, Fetching, [];
      lastBlock := 1;
      match Get(db, LastBlock) {
        case Some(Number(bytes)) =>
          var blockNum := FromDigits(256, bytes);
          if blockNum < INT64_LIMIT {
            lastBlock := blockNum;
          }
        case _ =>
      }
      batchNo := 1;
      match Get(db, PartialBatch) {
        case Some(BatchRecord(p)) =>
          if p.batchNo > 0 {
            batchNo := p.batchNo;
          }
          txBuffer, traceBuffer := p.transactions, p.executionTraces;
          fromBalanceBuffer, toBalanceBuffer := p.fromBalances, p.toBalances;
          totalGas, timestamp := p.metadata.totalGasUsed, p.metadata.timestamp;
        case _ =>
          txBuffer, traceBuffer, fromBalanceBuffer, toBalanceBuffer := [], [], [], [];
          totalGas, timestamp := 0, 0;
      }
    }

    // ---- The producer's statements ----------------------------------------------------------

    method BeginBlock(ghost s: State)
      requires Matches(s) && Enabled(cfg, s, Pipeline.BeginBlock)
      modifies this`producer
      ensures Matches(Next(cfg, s, Pipeline.BeginBlock))
    {
      producer := InBlock(0, false);
    }

    /** The transaction is applied to the account store, its outcome dropped. */
    method ProcessTx(ghost s: State)
      requires Matches(s) && Enabled(cfg, s, Pipeline.ProcessTx)
      modifies this`producer, processor.state
      ensures Matches(Next(cfg, s, Pipeline.ProcessTx))
      ensures processor.state.db ==
        Ledger.Processed(processor.create, old(processor.state.db), cfg.request(s.lastBlock, s.producer.next))
    {
      var outcome := processor.ProcessTransaction(cfg.request(lastBlock, producer.next));
      hide Ledger.Processed;
      producer := InBlock(producer.next, true);
    }

    /** The producer hands a processed transaction over. */
    method Send(t: TxData, ghost s: State)
      requires Matches(s) && Enabled(cfg, s, Pipeline.Send) && t == cfg.chain(s.lastBlock)[s.producer.next]
      modifies this`txChan, this`producer
      ensures Matches(Next(cfg, s, Pipeline.Send))
    {
      txChan := txChan + [t];
      producer := InBlock(producer.next + 1, false);
    }

    method EndBlock(ghost s: State)
      requires Matches(s) && Enabled(cfg, s, Pipeline.EndBlock)
      modifies this`lastBlock, this`producer
      ensures Matches(Next(cfg, s, Pipeline.EndBlock))
    {
      lastBlock := lastBlock + 1;
      producer := StoringBlock;
    }

    method StoreLastBlock(ghost s: State)
      requires Matches(s) && Enabled(cfg, s, Pipeline.StoreLastBlock)
      modifies this`db, this`producer
      ensures Matches(Next(cfg, s, Pipeline.StoreLastBlock))
    {
      hide Put, Digits;
      db := Put(db, LastBlock, Number(Digits(256, lastBlock)));
      producer := Fetching;
    }

    // ---- The batcher's statements -----------------------------------------------------------

    method Receive(ghost s: State)
      requires Matches(s) && Enabled(cfg, s, Pipeline.Receive)
      modifies this
      ensures Matches(Next(cfg, s, Pipeline.Receive))
    {
      assert Next(cfg, s, Pipeline.Receive) == Received(s);
      hide Next, Enabled, Get, Put, BatchMade, PartialRecord;
      var tx := txChan[0];
      txChan := txChan[1..];
      txBuffer := txBuffer + [tx.txHex];
      traceBuffer := traceBuffer + [tx.trace];
      fromBalanceBuffer := fromBalanceBuffer + [tx.fromBalance];
      toBalanceBuffer := toBalanceBuffer + [tx.toBalance];
      totalGas := (totalGas + tx.gas) % UINT64;
      timestamp := tx.time;
    }

    /** CreateBatch on the account store as it is: the batch of the transition system, for the
        state root of the store and the receipt of the data availability layer. */
    method CreateBatch(answer: DaAnswer, ghost s: State) returns (root: GoString, da: DaReceipt)
      requires Matches(s) && |txBuffer| >= BATCH_SIZE && s.batcher == Checking && AlignedBuffers(s.buffers)
      modifies this`batch
      ensures IsReceipt(da, answer)
      ensures Enabled(cfg, s, Pipeline.CreateBatch(root, da)) && Matches(Next(cfg, s, Pipeline.CreateBatch(root, da)))
      ensures MadeFrom(cfg, keccak, processor.state.db, BatchMade(cfg, s, root, da))
    {
      hide Get, Put, ComputeBatchHash, ComputeBatchCommitment, Merkle.MerkleRoot, Hex.Encode, AccountTrie.Root;
      hide StateRoot.Represents, StateRoot.SomeNegative, IsReceipt;
      var prevHash := if batchNo == 1 then GENESIS_HASH else TextAt(db, HashKey(batchNo - 1));
      var txns := txBuffer[..BATCH_SIZE];
      var txMerkleRoot, rounds := Merkle.ComputeMerkleRoot(cfg.sha, txns);
      var preStateRoot := TextAt(db, StateKey(batchNo - 1));
      var accounts := processor.state.GetAllAccounts();
      ghost var recs;
      root, recs := StateRoot.CalculateStateHash(keccak, accounts);
      var batchHash := ComputeBatchHash(cfg.sha, txMerkleRoot, root);
      var metadata := Metadata(totalGas, timestamp, cfg.namespace);
      da := Receipt(answer);
      batch := Batch(
        txns, traceBuffer[..BATCH_SIZE], fromBalanceBuffer[..BATCH_SIZE], toBalanceBuffer[..BATCH_SIZE],
        prevHash, batchHash, preStateRoot, root, batchNo,
        metadata, ComputeBatchCommitment(cfg.sha, cfg.quote, batchHash, metadata), da, false, false);
      assert batch == BatchMade(cfg, s, root, da);
      assert !StateRoot.SomeNegative(accounts) ==> CommitsTo(cfg, keccak, batch, recs);
    }

    method SaveRecord(ghost s: State)
      requires Matches(s) && Enabled(cfg, s, PutRecord)
      modifies this`db
      ensures Matches(Next(cfg, s, PutRecord))
    {
      hide Put;
      db := Put(db, BatchKey(batch.batchNo), BatchRecord(batch));
    }

    method SaveHash(ghost s: State)
      requires Matches(s) && Enabled(cfg, s, PutHash)
      modifies this`db
      ensures Matches(Next(cfg, s, PutHash))
    {
      hide Put;
      db := Put(db, HashKey(batch.batchNo), Text(batch.currentMerkleHash));
    }

    /** After the metadata reached the junction chain. */
    method MarkSubmitted(ghost s: State)
      requires Matches(s) && Enabled(cfg, s, SubmitMetadata)
      modifies this`batch
      ensures Matches(Next(cfg, s, SubmitMetadata))
    {
      batch := batch.(submitted := true);
    }

    /** After the prover succeeded and the batch reached the junction chain. */
    method MarkVerified(ghost s: State)
      requires Matches(s) && Enabled(cfg, s, ProveOk)
      modifies this`batch, this`db
      ensures Matches(Next(cfg, s, ProveOk))
    {
      hide Put;
      db := Put(db, ProofKey(batchNo), Proof);
      batch := batch.(verified := true);
    }

    /** The batch number goes up and the buffers move on; the timestamp stays. */
    method Close(ghost s: State)
      requires Matches(s) && Enabled(cfg, s, CloseBatch)
      modifies this
      ensures Matches(Next(cfg, s, CloseBatch))
    {
      assert Next(cfg, s, CloseBatch) == Closed(s);
      hide Next, Enabled, Get, Put, BatchMade, PartialRecord;
      batchNo := batchNo + 1;
      txBuffer := txBuffer[BATCH_SIZE..];
      traceBuffer := traceBuffer[BATCH_SIZE..];
      fromBalanceBuffer := fromBalanceBuffer[BATCH_SIZE..];
      toBalanceBuffer := toBalanceBuffer[BATCH_SIZE..];
      totalGas := 0;
    }

    method SavePartialBatch(ghost s: State)
      requires Matches(s) && Enabled(cfg, s, SavePartial)
      modifies this`db
      ensures Matches(Next(cfg, s, SavePartial))
    {
      hide Put;
      if |txBuffer| > 0 {
        var partial := Batch(
          txBuffer, traceBuffer, fromBalanceBuffer, toBalanceBuffer, [], [], [], [], batchNo,
          Metadata(totalGas, timestamp, cfg.namespace), [], DaReceipt([], [], [], []), false, false);
        db := Put(db, PartialBatch, BatchRecord(partial));
      }
    }

    // ---- The producer between the batcher's actions -----------------------------------------

    /** One step of the producer from where it is; none while the channel is full. */
    method ProducerStep(ghost s: State, ghost before: seq<Action>, ghost m: State)
      returns (ghost actions: seq<Action>, ghost t: State)
      requires Reached(s, before, m)
      modifies this`db, this`lastBlock, this`producer, this`txChan, processor.state
      ensures Reached(s, actions, t) && BatcherKept(m, t)
    {
      hide RunOn, Get, Put, BatchMade, PartialRecord, Ledger.Processed;
      actions, t := before, m;
      ghost var a;
      if producer.Fetching? {
        a := Pipeline.BeginBlock;
        BeginBlock(m);
      } else if producer.StoringBlock? {
        a := Pipeline.StoreLastBlock;
        StoreLastBlock(m);
      } else if producer.next >= |cfg.chain(lastBlock)| && !producer.processed {
        a := Pipeline.EndBlock;
        EndBlock(m);
      } else if !producer.processed {
        RunOnProcess(cfg, keccak, origin, s, before, m, processor.state.db);
        ProcessTx(m);
        actions, t := before + [Pipeline.ProcessTx], Next(cfg, m, Pipeline.ProcessTx);
        return;
      } else if producer.next < |cfg.chain(lastBlock)| && |txChan| < CAPACITY {
        a := Pipeline.Send;
        Send(cfg.chain(lastBlock)[producer.next], m);
      } else {
        return;
      }
      RunOnStep(cfg, keccak, origin, s, before, m, processor.state.db, a);
      actions, t := before + [a], Next(cfg, m, a);
    }

    method ProducerSteps(n: nat, ghost s: State, ghost before: seq<Action>, ghost m: State)
      returns (ghost actions: seq<Action>, ghost t: State)
      requires Reached(s, before, m)
      modifies this`db, this`lastBlock, this`producer, this`txChan, processor.state
      ensures Reached(s, actions, t) && BatcherKept(m, t)
      ensures n == 0 ==> t == m
    {
      hide Reached;
      actions, t := before, m;
      var i := 0;
      while i < n
        invariant 0 <= i <= n
        invariant Reached(s, actions, t) && BatcherKept(m, t)
        invariant i == 0 ==> t == m
      {
        actions, t := ProducerStep(s, actions, t);
        i := i + 1;
      }
    }

    // ---- One turn of the batcher's loop -----------------------------------------------------

    /** The select, if the buffer is not full. */
    method Collect(timeout: bool, ghost s: State, ghost before: seq<Action>, ghost m: State)
      returns (ghost actions: seq<Action>, ghost t: State)
      requires Reached(s, before, m) && m.batcher == Collecting && AlignedBuffers(m.buffers)
      modifies this
      ensures Reached(s, actions, t) && t.batcher == Checking && AlignedBuffers(t.buffers)
      ensures t.batchNo == m.batchNo && t.hist.attempts == m.hist.attempts && SameProducer(m, t)
      ensures t.buffers == if Receives(timeout, m) then Appended(m.buffers, m.chan[0]) else m.buffers
    {
      hide RunOn, Get, Put, BatchMade, PartialRecord;
      ghost var a;
      if |txBuffer| < BATCH_SIZE {
        if !timeout && |txChan| > 0 {
          a := Pipeline.Receive;
          Receive(m);
        } else {
          a := Timeout;
        }
      } else {
        a := SkipCollecting;
      }
      RunOnStep(cfg, keccak, origin, s, before, m, processor.state.db, a);
      actions, t := before + [a], Next(cfg, m, a);
    }

    /** SaveBatch: the record, and then the hash. */
    method SaveBatch(steps: nat -> nat, i: nat, ghost s: State, ghost before: seq<Action>, ghost m: State)
      returns (ghost actions: seq<Action>, ghost t: State)
      requires Reached(s, before, m) && m.batcher.PuttingRecord?
      modifies this`db, this`lastBlock, this`producer, this`txChan, processor.state
      ensures Reached(s, actions, t) && t.batcher == Saved(m.batcher.stage) && SameBatch(m, t)
      ensures Quiet(steps) ==> SameProducer(m, t)
    {
      hide Reached;
      actions, t := RecordSaved(s, before, m);
      actions, t := ProducerSteps(steps(i), s, actions, t);
      actions, t := HashSaved(s, actions, t);
      actions, t := ProducerSteps(steps(i + 1), s, actions, t);
    }

    method RecordSaved(ghost s: State, ghost before: seq<Action>, ghost m: State)
      returns (ghost actions: seq<Action>, ghost t: State)
      requires Reached(s, before, m) && m.batcher.PuttingRecord?
      modifies this`db
      ensures Reached(s, actions, t) && t.batcher == PuttingHash(m.batcher.stage) && SameBatch(m, t)
        && SameProducer(m, t)
    {
      hide RunOn, Next;
      SaveRecord(m);
      Moved(cfg, keccak, origin, s, before, m, processor.state.db, PutRecord);
      actions, t := before + [PutRecord], Next(cfg, m, PutRecord);
    }

    method HashSaved(ghost s: State, ghost before: seq<Action>, ghost m: State)
      returns (ghost actions: seq<Action>, ghost t: State)
      requires Reached(s, before, m) && m.batcher.PuttingHash?
      modifies this`db
      ensures Reached(s, actions, t) && t.batcher == Saved(m.batcher.stage) && SameBatch(m, t) && SameProducer(m, t)
    {
      hide RunOn, Next;
      SaveHash(m);
      Moved(cfg, keccak, origin, s, before, m, processor.state.db, PutHash);
      actions, t := before + [PutHash], Next(cfg, m, PutHash);
    }

    /** From a full buffer to a submitted batch. */
    method MakeBatch(w: World, ghost s: State, ghost before: seq<Action>, ghost m: State)
      returns (ghost actions: seq<Action>, ghost t: State)
      requires Reached(s, before, m) && m.batcher == Checking && |m.buffers.txns| >= BATCH_SIZE
        && AlignedBuffers(m.buffers)
      modifies this, processor.state
      ensures Reached(s, actions, t) && t.batcher == Saved(Submitted) && t.batchNo == m.batchNo
        && t.buffers == m.buffers
      ensures OneAttempt(w.answer, m, t)
      ensures Quiet(w.steps) ==> SameProducer(m, t)
    {
      hide RunOn, Next, IsReceipt;
      actions, t := CreateOne(w.answer, s, before, m);
      actions, t := ProducerSteps(w.steps(1), s, actions, t);
      actions, t := SaveBatch(w.steps, 2, s, actions, t);
      MarkSubmitted(t);
      Moved(cfg, keccak, origin, s, actions, t, processor.state.db, SubmitMetadata);
      actions, t := ProducerSteps(w.steps(4), s, actions + [SubmitMetadata], Next(cfg, t, SubmitMetadata));
      actions, t := SaveBatch(w.steps, 5, s, actions, t);
    }

    method CreateOne(answer: DaAnswer, ghost s: State, ghost before: seq<Action>, ghost m: State)
      returns (ghost actions: seq<Action>, ghost t: State)
      requires Reached(s, before, m) && m.batcher == Checking && |m.buffers.txns| >= BATCH_SIZE
        && AlignedBuffers(m.buffers)
      modifies this`batch
      ensures Reached(s, actions, t) && t.batcher == PuttingRecord(Created) && t.batchNo == m.batchNo
        && t.buffers == m.buffers
      ensures OneAttempt(answer, m, t) && SameProducer(m, t)
    {
      hide RunOn, Get, Put, BatchMade, PartialRecord, MadeFrom, IsReceipt;
      var root, da := CreateBatch(answer, m);
      RunOnCreate(cfg, keccak, origin, s, before, m, processor.state.db, Pipeline.CreateBatch(root, da));
      actions, t := before + [Pipeline.CreateBatch(root, da)], Next(cfg, m, Pipeline.CreateBatch(root, da));
      CreateMakesOne(cfg, m, root, da, answer);
    }

    /** From a proof to a closed batch. */
    method FinishBatch(w: World, ghost s: State, ghost before: seq<Action>, ghost m: State)
      returns (ghost actions: seq<Action>, ghost t: State)
      requires Reached(s, before, m) && m.batcher == Saved(Submitted) && |m.buffers.txns| >= BATCH_SIZE
        && AlignedBuffers(m.buffers)
      modifies this, processor.state
      ensures Reached(s, actions, t) && t.batcher == PuttingPartial && t.batchNo == m.batchNo + 1
      ensures t.buffers.txns == m.buffers.txns[BATCH_SIZE..] && t.hist.attempts == m.hist.attempts
      ensures Quiet(w.steps) ==> SameProducer(m, t)
    {
      hide RunOn, Next;
      MarkVerified(m);
      Moved(cfg, keccak, origin, s, before, m, processor.state.db, ProveOk);
      actions, t := ProducerSteps(w.steps(7), s, before + [ProveOk], Next(cfg, m, ProveOk));
      actions, t := SaveBatch(w.steps, 8, s, actions, t);
      actions, t := CloseOne(s, actions, t);
      actions, t := ProducerSteps(w.steps(10), s, actions, t);
    }

    method CloseOne(ghost s: State, ghost before: seq<Action>, ghost m: State)
      returns (ghost actions: seq<Action>, ghost t: State)
      requires Reached(s, before, m) && m.batcher == Saved(Verified) && |m.buffers.txns| >= BATCH_SIZE
        && AlignedBuffers(m.buffers)
      modifies this
      ensures Reached(s, actions, t) && t.batcher == PuttingPartial && t.batchNo == m.batchNo + 1
      ensures t.buffers.txns == m.buffers.txns[BATCH_SIZE..] && t.hist.attempts == m.hist.attempts && SameProducer(m, t)
    {
      hide RunOn, Get, Put, BatchMade, PartialRecord;
      Close(m);
      RunOnStep(cfg, keccak, origin, s, before, m, processor.state.db, CloseBatch);
      actions, t := before + [CloseBatch], Next(cfg, m, CloseBatch);
    }

    /** A full buffer: back to the loop head at once if the prover fails, and else by way of the
        closed batch and the partial one. */
    method FullTurn(w: World, ghost s: State, ghost before: seq<Action>, ghost m: State)
      returns (ghost actions: seq<Action>, ghost t: State)
      requires Reached(s, before, m) && m.batcher == Checking && |m.buffers.txns| >= BATCH_SIZE
        && AlignedBuffers(m.buffers)
      modifies this, processor.state
      ensures Reached(s, actions, t) && t.batcher == Collecting
      ensures t.batchNo == m.batchNo + (if w.proved then 1 else 0)
      ensures if w.proved then t.buffers.txns == m.buffers.txns[BATCH_SIZE..] else t.buffers == m.buffers
      ensures OneAttempt(w.answer, m, t)
      ensures Quiet(w.steps) ==> SameProducer(m, t)
    {
      hide RunOn, Next, IsReceipt;
      actions, t := MakeBatch(w, s, before, m);
      if !w.proved {
        Moved(cfg, keccak, origin, s, actions, t, processor.state.db, ProveFails);
        actions, t := actions + [ProveFails], Next(cfg, t, ProveFails);
        return;
      }
      actions, t := FinishBatch(w, s, actions, t);
      actions, t := EndTurn(w, s, actions, t);
    }

    method EndTurn(w: World, ghost s: State, ghost before: seq<Action>, ghost m: State)
      returns (ghost actions: seq<Action>, ghost t: State)
      requires Reached(s, before, m) && m.batcher == PuttingPartial
      modifies this, processor.state
      ensures Reached(s, actions, t) && t.batcher == Collecting && SameBatch(m, t)
      ensures Quiet(w.steps) ==> SameProducer(m, t)
    {
      hide RunOn, Next;
      actions, t := ProducerSteps(w.steps(11), s, before, m);
      SavePartialBatch(t);
      Moved(cfg, keccak, origin, s, actions, t, processor.state.db, SavePartial);
      actions, t := actions + [SavePartial], Next(cfg, t, SavePartial);
    }

    /** A buffer that is not full: only the partial batch is saved. */
    method PartTurn(w: World, ghost s: State, ghost before: seq<Action>, ghost m: State)
      returns (ghost actions: seq<Action>, ghost t: State)
      requires Reached(s, before, m) && m.batcher == Checking && |m.buffers.txns| < BATCH_SIZE
      modifies this, processor.state
      ensures Reached(s, actions, t) && t.batcher == Collecting && SameBatch(m, t)
      ensures Quiet(w.steps) ==> SameProducer(m, t)
    {
      hide RunOn;
      Moved(cfg, keccak, origin, s, before, m, processor.state.db, NotFull);
      actions, t := EndTurn(w, s, before + [NotFull], m.(batcher := PuttingPartial));
    }

    /** One turn of the batcher's loop, with the producer's steps at any point in between. It goes
        on with a run that keeps the invariant and the account store, back to the loop head. */
    method BatcherTurn(w: World, ghost s: State, ghost before: seq<Action>, ghost m: State)
      returns (ghost actions: seq<Action>, ghost t: State)
      requires Reached(s, before, m) && m.batcher == Collecting
      modifies this, processor.state
      ensures Reached(s, actions, t) && t.batcher == Collecting
      ensures TurnTaken(w, m, t)
      ensures Quiet(w.steps) ==> SameProducer(m, t)
    {
      hide RunOn, TurnTaken, OneAttempt;
      BuffersBounded(cfg, keccak, origin, s, before, m, processor.state.db);
      ghost var ready, collected;
      actions, ready := ProducerSteps(w.steps(0), s, before, m);
      actions, collected := Collect(w.timeout, s, actions, ready);
      if |txBuffer| >= BATCH_SIZE {
        actions, t := FullTurn(w, s, actions, collected);
      } else {
        actions, t := PartTurn(w, s, actions, collected);
      }
      TurnIs(w, m, ready, collected, t);
    }

    method BatcherTurns(worlds: seq<World>, ghost s: State, ghost before: seq<Action>, ghost m: State)
      returns (ghost actions: seq<Action>, ghost t: State)
      requires Reached(s, before, m) && m.batcher == Collecting
      modifies this, processor.state
      ensures Reached(s, actions, t) && t.batcher == Collecting
      ensures (forall w :: w in worlds ==> Quiet(w.steps)) ==> SameProducer(m, t)
    {
      hide Reached, TurnTaken;
      actions, t := before, m;
      var i := 0;
      while i < |worlds|
        invariant 0 <= i <= |worlds|
        invariant Reached(s, actions, t) && t.batcher == Collecting
        invariant (forall w :: w in worlds ==> Quiet(w.steps)) ==> SameProducer(m, t)
      {
        actions, t := BatcherTurn(worlds[i], s, actions, t);
        i := i + 1;
      }
    }

    // ---- One block of the producer ----------------------------------------------------------

    /** One block of the producer: each transaction is processed and, once the channel has room,
        sent; then the block number is stored. The batcher takes any number of turns before each
        send, and may leave the channel full: the block then stays where it is. It goes on with a
        run, and a finished block has been sent in full and in order. */
    method ProducerBlock(turns: nat -> seq<World>, ghost s: State, ghost before: seq<Action>, ghost m: State)
      returns (done: bool, ghost actions: seq<Action>, ghost t: State)
      requires Reached(s, before, m) && m.batcher == Collecting && m.producer == Fetching
      requires forall i, w :: w in turns(i) ==> Quiet(w.steps)
      modifies this, processor.state
      ensures Reached(s, actions, t) && t.batcher == Collecting
      ensures done ==>
        && t.producer == Fetching && t.lastBlock == m.lastBlock + 1
        && t.hist.sent == m.hist.sent + cfg.chain(m.lastBlock)
      ensures !done ==> t.producer.InBlock? && t.lastBlock == m.lastBlock && |t.chan| == CAPACITY
      ensures |m.chan| + |cfg.chain(m.lastBlock)| <= CAPACITY ==> done
    {
      hide RunOn, Next, Enabled;
      actions, t := StartBlock(s, before, m);
      var n := |cfg.chain(lastBlock)|;
      var i := 0;
      done := true;
      while i < n
        invariant 0 <= i <= n && done
        invariant Reached(s, actions, t) && t.batcher == Collecting
        invariant t.producer == InBlock(i, false) && t.lastBlock == m.lastBlock && |t.chan| <= |m.chan| + i
      {
        done, actions, t := OneTransaction(turns(i), i, s, actions, t);
        if !done {
          return;
        }
        i := i + 1;
      }
      actions, t := FinishBlock(i, s, actions, t);
      SentByBlock(cfg, keccak, origin, s, before, m, old(processor.state.db), actions, t, processor.state.db);
    }

    method StartBlock(ghost s: State, ghost before: seq<Action>, ghost m: State)
      returns (ghost actions: seq<Action>, ghost t: State)
      requires Reached(s, before, m) && m.producer == Fetching
      modifies this`producer
      ensures Reached(s, actions, t) && BatcherKept(m, t)
      ensures t.producer == InBlock(0, false) && t.lastBlock == m.lastBlock && t.chan == m.chan
    {
      hide RunOn, Next;
      BeginBlock(m);
      actions, t := Stepped(cfg, keccak, origin, s, before, m, processor.state.db, Pipeline.BeginBlock);
    }

    /** Process, wait for room, send. */
    method OneTransaction(worlds: seq<World>, i: nat, ghost s: State, ghost before: seq<Action>, ghost m: State)
      returns (sent: bool, ghost actions: seq<Action>, ghost t: State)
      requires Reached(s, before, m) && m.batcher == Collecting
      requires m.producer == InBlock(i, false) && i < |cfg.chain(m.lastBlock)|
      requires forall w :: w in worlds ==> Quiet(w.steps)
      modifies this, processor.state
      ensures Reached(s, actions, t) && t.batcher == Collecting && t.lastBlock == m.lastBlock
      ensures sent ==> t.producer == InBlock(i + 1, false) && |t.chan| <= |m.chan| + 1
      ensures !sent ==> t.producer == InBlock(i, true) && |t.chan| == CAPACITY && CAPACITY <= |m.chan|
    {
      hide RunOn, Next, Quiet, Ledger.Processed;
      RunOnProcess(cfg, keccak, origin, s, before, m, processor.state.db);
      ProcessedInBlock(cfg, m);
      ProcessTx(m);
      actions, t := BatcherTurns(worlds, s, before + [Pipeline.ProcessTx], Next(cfg, m, Pipeline.ProcessTx));
      FullChannel(cfg, keccak, origin, s, actions, t, processor.state.db);
      sent := |txChan| < CAPACITY;
      if sent {
        Send(cfg.chain(lastBlock)[i], t);
        actions, t := Stepped(cfg, keccak, origin, s, actions, t, processor.state.db, Pipeline.Send);
      }
    }

    method FinishBlock(i: nat, ghost s: State, ghost before: seq<Action>, ghost m: State)
      returns (ghost actions: seq<Action>, ghost t: State)
      requires Reached(s, before, m) && m.producer == InBlock(i, false) && i >= |cfg.chain(m.lastBlock)|
      modifies this`db, this`lastBlock, this`producer
      ensures Reached(s, actions, t) && BatcherKept(m, t)
      ensures t.producer == Fetching && t.lastBlock == m.lastBlock + 1
    {
      hide RunOn, Next;
      EndBlock(m);
      actions, t := Stepped(cfg, keccak, origin, s, before, m, processor.state.db, Pipeline.EndBlock);
      StoreLastBlock(t);
      actions, t := Stepped(cfg, keccak, origin, s, actions, t, processor.state.db, Pipeline.StoreLastBlock);
    }
  }

  /** A step of the producer other than processing a transaction. */
  lemma Stepped(cfg: Config, keccak: HashFn, o: Origin, s: State, before: seq<Action>, m: State, store: Ledger.Store,
      a: Action)
    returns (actions: seq<Action>, t: State)
    requires RunOn(cfg, keccak, o, s, before, m, store) && Enabled(cfg, m, a)
    requires a.BeginBlock? || a.Send? || a.EndBlock? || a.StoreLastBlock?
    ensures t == Next(cfg, m, a) && RunOn(cfg, keccak, o, s, actions, t, store) && BatcherKept(m, t)
    ensures t.lastBlock == m.lastBlock + (if a.EndBlock? then 1 else 0)
    ensures |t.chan| == |m.chan| + (if a.Send? then 1 else 0) && m.chan <= t.chan
    ensures t.producer == match a
      case BeginBlock => InBlock(0, false)
      case Send => InBlock(m.producer.next + 1, false)
      case EndBlock => StoringBlock
      case _ => Fetching
  {
    hide RunOn, Get, Put, BatchMade, PartialRecord;
    RunOnStep(cfg, keccak, o, s, before, m, store, a);
    actions, t := before + [a], Next(cfg, m, a);
  }

  lemma ProcessedInBlock(cfg: Config, m: State)
    requires Enabled(cfg, m, ProcessTx)
    ensures var t := Next(cfg, m, ProcessTx);
      && t.producer == InBlock(m.producer.next, true) && t.batcher == m.batcher && t.lastBlock == m.lastBlock
        && t.chan == m.chan
  {
  }

  lemma BuffersBounded(cfg: Config, keccak: HashFn, o: Origin, s: State, before: seq<Action>, m: State,
      store: Ledger.Store)
    requires RunOn(cfg, keccak, o, s, before, m, store)
    ensures AlignedBuffers(m.buffers) && |m.buffers.txns| <= BATCH_SIZE
  {
    hide Run, StoreInv, ProducerInv, StreamInv, ControlInv, AttemptsInv, CurrentInv, ClosedInv, OriginInv, PartialInv,
      LastBlockInv;
  }

  lemma FullChannel(cfg: Config, keccak: HashFn, o: Origin, s: State, actions: seq<Action>, t: State,
      store: Ledger.Store)
    requires RunOn(cfg, keccak, o, s, actions, t, store)
    ensures |t.chan| <= CAPACITY
  {
    hide Run, StoreInv;
  }

  /** Between two blocks, what has been sent is what the blocks hold. */
  lemma SentByBlock(cfg: Config, keccak: HashFn, o: Origin, s: State,
                    before: seq<Action>, m: State, store: Ledger.Store, after: seq<Action>, t: State,
                      later: Ledger.Store)
    requires RunOn(cfg, keccak, o, s, before, m, store) && RunOn(cfg, keccak, o, s, after, t, later)
    requires m.producer == Fetching && t.producer == Fetching && t.lastBlock == m.lastBlock + 1
    ensures t.hist.sent == m.hist.sent + cfg.chain(m.lastBlock)
  {
    hide RunOn;
    RunOnIs(cfg, keccak, o, s, before, m, store);
    RunOnIs(cfg, keccak, o, s, after, t, later);
    hide *;
    RunKeepsOrigin(cfg, s, before, m);
    RunKeepsOrigin(cfg, s, after, t);
    SentBetween(cfg, m, t);
  }

  lemma SentBetween(cfg: Config, m: State, t: State)
    requires Inv(cfg, m) && Inv(cfg, t) && m.producer == Fetching && t.producer == Fetching
    requires t.hist.start == m.hist.start && t.lastBlock == m.lastBlock + 1
    ensures t.hist.sent == m.hist.sent + cfg.chain(m.lastBlock)
  {
    hide StreamInv, BufferInv, ControlInv, AttemptsInv, CurrentInv, ClosedInv, OriginInv, PartialInv, LastBlockInv;
  }

  lemma {:induction false} RunKeepsOrigin(cfg: Config, s: State, actions: seq<Action>, t: State)
    requires Run(cfg, s, actions, t)
    ensures t.hist.start == s.hist.start && t.hist.initial == s.hist.initial && t.hist.base == s.hist.base
    decreases |actions|
  {
    if |actions| == 0 {
    } else {
      KeepsOrigin(cfg, s, actions[0]);
      hide Enabled, Next;
      RunKeepsOrigin(cfg, Next(cfg, s, actions[0]), actions[1..], t);
    }
  }

  // ---- The whole program ------------------------------------------------------------------

  /** ProcessBlocks from its start, for any number of turns of the batcher with the producer in
      between: the variables are always in a reachable state, and the account store is the ledger
      after the transactions processed so far. So what has been sent and loaded is cut exactly
      into the batches closed, the buffers and the channel, and every batch was made on the store
      as it was then. */
  method ProcessBlocks(cfg: Config, keccak: HashFn, processor: Processor.Processor, db: Db, batch: Batch,
                       worlds: seq<World>, ghost s: State)
    returns (q: Sequencer, ghost actions: seq<Action>, ghost t: State)
    requires Started(s) && s.db == db && s.current == batch
    modifies processor.state
    ensures PipelineTheorems.Reachable(cfg, s, actions, t) && q.Matches(t)
    ensures var stream, n := PipelineTheorems.Stream(t), BATCH_SIZE * (q.batchNo - s.batchNo);
      && 0 <= n && |stream| == n + |q.txBuffer| + |q.txChan|
      && q.txBuffer == BuffersOf(stream[n..n + |q.txBuffer|]).txns
      && q.txChan == stream[n + |q.txBuffer|..]
    ensures var o := Origin(processor.create, old(processor.state.db));
      StoreIs(cfg, o, t, processor.state.db) && SnapshotsAre(cfg, keccak, o, t)
  {
    q := new Sequencer(cfg, keccak, processor, db, batch, s);
    RunOnStarts(cfg, keccak, q.origin, s);
    hide RunOn;
    assert q.Reached(s, [], s);
    actions, t := q.BatcherTurns(worlds, s, [], s);
    RunOnIs(cfg, keccak, q.origin, s, actions, t, processor.state.db);
    hide Started, BuffersOf, PipelineTheorems.Stream, Run, StoreIs, SnapshotsAre;
    PipelineTheorems.ExactlyOnceInOrder(cfg, s, actions, t);
    BatchCount(cfg, s, actions, t);
  }

  lemma RunOnIs(cfg: Config, keccak: HashFn, o: Origin, s: State, actions: seq<Action>, t: State, store: Ledger.Store)
    requires RunOn(cfg, keccak, o, s, actions, t, store)
    ensures Run(cfg, s, actions, t) && Inv(cfg, t) && StoreIs(cfg, o, t, store) && SnapshotsAre(cfg, keccak, o, t)
  {
    hide Run, Inv, StoreIs, SnapshotsAre;
  }

  lemma BatchCount(cfg: Config, s: State, actions: seq<Action>, t: State)
    requires PipelineTheorems.Reachable(cfg, s, actions, t)
    ensures t.batchNo - s.batchNo == |t.hist.closed|
  {
    hide Run, Started, Describes, AttemptsInv, CurrentInv, ClosedInv, PartialInv;
    PipelineTheorems.ReachableInv(cfg, s, actions, t);
  }

  /** Where the batcher goes on after an action that leaves its buffers alone. */
  function Onwards(b: Batcher, a: Action): Batcher {
    match a
    case PutRecord => if b.PuttingRecord? then PuttingHash(b.stage) else b
    case PutHash => if b.PuttingHash? then Saved(b.stage) else b
    case SubmitMetadata => PuttingRecord(Submitted)
    case ProveOk => PuttingRecord(Verified)
    case NotFull => PuttingPartial
    case _ => Collecting
  }

  lemma Moved(cfg: Config, keccak: HashFn, o: Origin, s: State, before: seq<Action>, m: State, store: Ledger.Store,
      a: Action)
    requires RunOn(cfg, keccak, o, s, before, m, store) && Enabled(cfg, m, a)
    requires a.PutRecord? || a.PutHash? || a.SubmitMetadata? || a.ProveOk? || a.ProveFails? || a.NotFull?
      || a.SavePartial?
    ensures var t := Next(cfg, m, a);
      && RunOn(cfg, keccak, o, s, before + [a], t, store)
      && t.batcher == Onwards(m.batcher, a) && SameBatch(m, t) && SameProducer(m, t)
      && (a.ProveFails? || a.NotFull? ==> t == m.(batcher := t.batcher))
  {
    hide RunOn, Get, Put, BatchMade, PartialRecord;
    RunOnStep(cfg, keccak, o, s, before, m, store, a);
  }

  /** A transaction waits, the buffer has room, and the timer does not fire first. */
  predicate Receives(timeout: bool, s: State) {
    |s.buffers.txns| < BATCH_SIZE && !timeout && |s.chan| > 0
  }

  /** Between the two states one batch was made, under the current number, with the receipt of
      this answer. */
  ghost predicate OneAttempt(answer: DaAnswer, s: State, t: State) {
    var n := |s.hist.attempts|;
    && |t.hist.attempts| == n + 1 && s.hist.attempts <= t.hist.attempts
    && t.hist.attempts[n].batch.batchNo == s.batchNo
    && IsReceipt(t.hist.attempts[n].batch.da, answer)
  }

  lemma CreateMakesOne(cfg: Config, m: State, root: GoString, da: DaReceipt, answer: DaAnswer)
    requires Enabled(cfg, m, CreateBatch(root, da)) && IsReceipt(da, answer)
    ensures OneAttempt(answer, m, Next(cfg, m, CreateBatch(root, da)))
  {
    hide IsReceipt;
    PipelineRecords.MadeByCall(cfg, m, CreateBatch(root, da));
    hide Next;
    var b := Next(cfg, m, CreateBatch(root, da)).hist.attempts[|m.hist.attempts|].batch;
    assert b.da == da;
  }

  /** What a turn of the batcher's loop comes to. A transaction that waits is received unless the
      timer fires. From a buffer that is then full one batch is made, with the receipt of the turn;
      it is closed just when the prover succeeds, and else the buffer stays for the next turn.
      With fewer than 127 transactions at the start nothing is made. */
  ghost predicate TurnTaken(w: World, s: State, t: State) {
    var k := |s.buffers.txns|;
    && (Receives(w.timeout, s) ==>
          var b := Appended(s.buffers, s.chan[0]);
          Outcome(w, s, b, t))
    && (k == BATCH_SIZE || w.timeout ==> Outcome(w, s, s.buffers, t))
    && (k < BATCH_SIZE - 1 ==> t.batchNo == s.batchNo && t.hist.attempts == s.hist.attempts)
    && (t.batchNo == s.batchNo || (t.batchNo == s.batchNo + 1 && w.proved && t.buffers.txns == []))
    && (t.hist.attempts == s.hist.attempts || OneAttempt(w.answer, s, t))
  }

  /** With these buffers after the select: a batch is made if they are full, and they are closed
      and emptied if it is proved, and kept if not. */
  ghost predicate Outcome(w: World, s: State, b: Buffers, t: State) {
    && (if |b.txns| == BATCH_SIZE && w.proved then t.batchNo == s.batchNo + 1 && t.buffers.txns == []
        else t.batchNo == s.batchNo && t.buffers == b)
    && (if |b.txns| == BATCH_SIZE then OneAttempt(w.answer, s, t) else t.hist.attempts == s.hist.attempts)
  }

  lemma TurnIs(w: World, s: State, ready: State, collected: State, t: State)
    requires |s.buffers.txns| <= BATCH_SIZE && BatcherKept(s, ready)
    requires collected.batchNo == s.batchNo && collected.hist.attempts == s.hist.attempts
    requires collected.buffers == if Receives(w.timeout, ready) then Appended(s.buffers, ready.chan[0]) else s.buffers
    requires if |collected.buffers.txns| >= BATCH_SIZE && w.proved
      then t.batchNo == s.batchNo + 1 && t.buffers.txns == collected.buffers.txns[BATCH_SIZE..]
      else t.batchNo == s.batchNo && t.buffers == collected.buffers
    requires if |collected.buffers.txns| >= BATCH_SIZE then OneAttempt(w.answer, collected, t)
      else t.hist.attempts == s.hist.attempts
    ensures TurnTaken(w, s, t)
  {
    hide IsReceipt;
  }

  ghost predicate SameBatch(m: State, t: State) {
    t.batchNo == m.batchNo && t.buffers == m.buffers && t.hist.attempts == m.hist.attempts
  }

  /** From `m` to `t` only the producer has moved. */
  ghost predicate BatcherKept(m: State, t: State) {
    t.batcher == m.batcher && SameBatch(m, t) && m.chan <= t.chan
  }

  /** From `m` to `t` only the batcher has moved. */
  ghost predicate SameProducer(m: State, t: State) {
    t.producer == m.producer && t.lastBlock == m.lastBlock && |t.chan| <= |m.chan|
  }

  ghost predicate Quiet(steps: nat -> nat) {
    forall i :: steps(i) == 0
  }
}
