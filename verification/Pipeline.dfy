/** ProcessBlocks as a transition system: the block-indexing producer, the channel, and the
    batching consumer, one atomic step at a time and in any interleaving. */
module Pipeline {
  import opened Bytes
  import opened Accounts
  import opened BatchStore
  import opened Commitment
  import Ledger
  import Merkle

  const BATCH_SIZE: nat := 128
  const CAPACITY: nat := 128
  const INT64_LIMIT: nat := 0x8000_0000_0000_0000

  type BatchNumber = n: int | 1 <= n witness 1

  datatype TxData = TxData(
    txHex: GoString, trace: GoString, gas: uint64, time: int, fromBalance: GoString, toBalance: GoString)

  /** What does not change during a run. `chain(n)` is what the producer sends for block `n`, and
      `request(n, i)` what the processor is given for its transaction `i`. */
  datatype Config = Config(
    sha: HashFn, quote: Quote, namespace: GoString, chain: nat -> seq<TxData>, request: (nat, nat) -> Ledger.Request)

  // ---- State ------------------------------------------------------------------------------

  /** Waiting for a block; at transaction `next` of the current block, which has been processed
      but not yet sent or neither; or about to store the block number. */
  datatype Producer = Fetching | InBlock(next: nat, processed: bool) | StoringBlock

  datatype Stage = Created | Submitted | Verified

  /** Where the batching goroutine is in its loop. */
  datatype Batcher =
    | Collecting
    | Checking
    | PuttingRecord(stage: Stage)
    | PuttingHash(stage: Stage)
    | Saved(stage: Stage)
    | PuttingPartial

  /** The four parallel buffers. */
  datatype Buffers = Buffers(
    txns: seq<GoString>, traces: seq<GoString>, fromBalances: seq<GoString>, toBalances: seq<GoString>)

  datatype State = State(
    db: Db,
    lastBlock: nat,
    producer: Producer,
    chan: seq<TxData>,
    batcher: Batcher,
    batchNo: BatchNumber,
    buffers: Buffers,
    totalGas: uint64,
    timestamp: int,
    current: Batch,
    hist: History)

  /** One call of CreateBatch: the batch made, and how many transactions had been received
      from the channel and processed into the account state at that moment. */
  datatype Attempt = Attempt(batch: Batch, received: int, processed: nat)

  /** What has happened since the start; nothing below reads it. */
  datatype History = History(
    base: BatchNumber,
    firstPrev: GoString,
    start: nat,
    initial: seq<TxData>,
    sent: seq<TxData>,
    buffered: seq<TxData>,
    closedRows: seq<TxData>,
    closed: seq<Batch>,
    attempts: seq<Attempt>,
    processed: nat)

  // ---- Columns of a list of transactions --------------------------------------------------

  function BuffersOf(rows: seq<TxData>): (b: Buffers)
    ensures |b.txns| == |b.traces| == |b.fromBalances| == |b.toBalances| == |rows|
  {
    Buffers(
      seq(|rows|, i requires 0 <= i < |rows| => rows[i].txHex),
      seq(|rows|, i requires 0 <= i < |rows| => rows[i].trace),
      seq(|rows|, i requires 0 <= i < |rows| => rows[i].fromBalance),
      seq(|rows|, i requires 0 <= i < |rows| => rows[i].toBalance))
  }

  function Appended(b: Buffers, t: TxData): Buffers {
    Buffers(b.txns + [t.txHex], b.traces + [t.trace], b.fromBalances + [t.fromBalance], b.toBalances + [t.toBalance])
  }

  lemma BuffersOfAppended(rows: seq<TxData>, t: TxData)
    ensures BuffersOf(rows + [t]) == Appended(BuffersOf(rows), t)
  {
    var b, c := BuffersOf(rows + [t]), Appended(BuffersOf(rows), t);
    assert b.txns == c.txns && b.traces == c.traces;
    assert b.fromBalances == c.fromBalances && b.toBalances == c.toBalances;
  }

  function SumGas(rows: seq<TxData>): nat {
    if |rows| == 0 then 0 else SumGas(rows[..|rows| - 1]) + rows[|rows| - 1].gas
  }

  lemma SumGasAppended(rows: seq<TxData>, t: TxData)
    ensures SumGas(rows + [t]) == SumGas(rows) + t.gas
  {
    assert (rows + [t])[..|rows|] == rows;
  }

  // ---- Start and restart ------------------------------------------------------------------

  function LoadedLastBlock(db: Db): nat {
    match Get(db, LastBlock)
    case Some(Number(bytes)) => if FromDigits(256, bytes) < INT64_LIMIT then FromDigits(256, bytes) else 1
    case _ => 1
  }

  function LoadedPartial(db: Db): Option<Batch> {
    match Get(db, PartialBatch)
    case Some(BatchRecord(p)) => Some(p)
    case _ => None
  }

  /** The head of ProcessBlocks: everything volatile is set from the database. */
  function Restarted(s: State): State {
    var p := LoadedPartial(s.db);
    s.(lastBlock := LoadedLastBlock(s.db),
       producer := Fetching,
       chan := [],
       batcher := Collecting,
       batchNo := if p.Some? && p.value.batchNo > 0 then p.value.batchNo else 1,
       buffers := if p.Some?
         then Buffers(p.value.transactions, p.value.executionTraces, p.value.fromBalances, p.value.toBalances)
         else Buffers([], [], [], []),
       totalGas := if p.Some? then p.value.metadata.totalGasUsed else 0,
       timestamp := if p.Some? then p.value.metadata.timestamp else 0)
  }

  const SIXTEEN_ZEROS: GoString := [48, 48, 48, 48, 48, 48, 48, 48, 48, 48, 48, 48, 48, 48, 48, 48]

  /** "0x" and 64 zeros. */
  const GENESIS_HASH: GoString := [48, 120] + SIXTEEN_ZEROS + SIXTEEN_ZEROS + SIXTEEN_ZEROS + SIXTEEN_ZEROS

  function PrevFor(db: Db, batchNo: BatchNumber): GoString {
    if batchNo == 1 then GENESIS_HASH else TextAt(db, HashKey(batchNo - 1))
  }

  // ---- Creating a batch -------------------------------------------------------------------

  /** What CreateBatch returns, given the state root of its account snapshot and the receipt of
      the data availability layer. */
  function BatchMade(cfg: Config, s: State, stateRoot: GoString, da: DaReceipt): Batch
    requires |s.buffers.txns| >= BATCH_SIZE && |s.buffers.traces| >= BATCH_SIZE
    requires |s.buffers.fromBalances| >= BATCH_SIZE && |s.buffers.toBalances| >= BATCH_SIZE
  {
    var txns := s.buffers.txns[..BATCH_SIZE];
    var batchHash := ComputeBatchHash(cfg.sha, Merkle.MerkleRoot(cfg.sha, txns), stateRoot);
    var metadata := Metadata(s.totalGas, s.timestamp, cfg.namespace);
    Batch(
      txns, s.buffers.traces[..BATCH_SIZE], s.buffers.fromBalances[..BATCH_SIZE], s.buffers.toBalances[..BATCH_SIZE],
      PrevFor(s.db, s.batchNo), batchHash, TextAt(s.db, StateKey(s.batchNo - 1)), stateRoot, s.batchNo,
      metadata, ComputeBatchCommitment(cfg.sha, cfg.quote, batchHash, metadata), da, false, false)
  }

  /** The record saved as partial_batch. */
  function PartialRecord(cfg: Config, s: State): Batch {
    Batch(
      s.buffers.txns, s.buffers.traces, s.buffers.fromBalances, s.buffers.toBalances,
      [], [], [], [], s.batchNo, Metadata(s.totalGas, s.timestamp, cfg.namespace), [], DaReceipt([], [], [], []),
      false, false)
  }

  // ---- Steps ------------------------------------------------------------------------------

  datatype Action =
    // the producer
    | FetchFails
    | BeginBlock
    | ProcessTx
    | Send
    | EndBlock
    | StoreLastBlock
    // the batcher
    | Receive
    | Timeout
    | SkipCollecting
    | NotFull
    | CreateBatch(stateRoot: GoString, da: DaReceipt)
    | PutRecord
    | PutHash
    | SubmitMetadata
    | ProveFails
    | ProveOk
    | CloseBatch
    | SavePartial

  predicate AlignedBuffers(b: Buffers) {
    |b.txns| == |b.traces| == |b.fromBalances| == |b.toBalances|
  }

  predicate Enabled(cfg: Config, s: State, a: Action) {
    match a
    case FetchFails => s.producer == Fetching
    case BeginBlock => s.producer == Fetching
    case ProcessTx => s.producer.InBlock? && !s.producer.processed && s.producer.next < |cfg.chain(s.lastBlock)|
    case Send => s.producer.InBlock? && s.producer.processed && s.producer.next < |cfg.chain(s.lastBlock)|
      && |s.chan| < CAPACITY
    case EndBlock => s.producer.InBlock? && !s.producer.processed && s.producer.next >= |cfg.chain(s.lastBlock)|
    case StoreLastBlock => s.producer == StoringBlock
    case Receive => s.batcher == Collecting && |s.buffers.txns| < BATCH_SIZE && |s.chan| > 0
    case Timeout => s.batcher == Collecting && |s.buffers.txns| < BATCH_SIZE
    case SkipCollecting => s.batcher == Collecting && |s.buffers.txns| >= BATCH_SIZE
    case NotFull => s.batcher == Checking && |s.buffers.txns| < BATCH_SIZE
    case CreateBatch(_, _) => s.batcher == Checking && |s.buffers.txns| >= BATCH_SIZE && AlignedBuffers(s.buffers)
    case PutRecord => s.batcher.PuttingRecord?
    case PutHash => s.batcher.PuttingHash?
    case SubmitMetadata => s.batcher == Saved(Created)
    case ProveFails => s.batcher == Saved(Submitted)
    case ProveOk => s.batcher == Saved(Submitted)
    case CloseBatch => s.batcher == Saved(Verified) && |s.buffers.txns| >= BATCH_SIZE && AlignedBuffers(s.buffers)
    case SavePartial => s.batcher == PuttingPartial
  }

  function NextProducer(cfg: Config, s: State, a: Action): State
    requires Enabled(cfg, s, a)
    requires a.BeginBlock? || a.ProcessTx? || a.Send? || a.EndBlock? || a.StoreLastBlock?
  {
    match a
    case BeginBlock => s.(producer := InBlock(0, false))
    case ProcessTx =>
      s.(producer := InBlock(s.producer.next, true), hist := s.hist.(processed := s.hist.processed + 1))
    case Send =>
      var t := cfg.chain(s.lastBlock)[s.producer.next];
      s.(producer := InBlock(s.producer.next + 1, false), chan := s.chan + [t],
         hist := s.hist.(sent := s.hist.sent + [t]))
    case EndBlock => s.(producer := StoringBlock, lastBlock := s.lastBlock + 1)
    case StoreLastBlock =>
      s.(producer := Fetching, db := Put(s.db, LastBlock, Number(Digits(256, s.lastBlock))))
  }

  function Received(s: State): State
    requires |s.chan| > 0
  {
    var t := s.chan[0];
    s.(batcher := Checking, chan := s.chan[1..], buffers := Appended(s.buffers, t),
       totalGas := (s.totalGas + t.gas) % UINT64, timestamp := t.time,
       hist := s.hist.(buffered := s.hist.buffered + [t]))
  }

  function ReceivedCount(s: State): int {
    |s.hist.closedRows| + |s.hist.buffered| - |s.hist.initial|
  }

  function Attempted(s: State, b: Batch): State {
    s.(batcher := PuttingRecord(Created), current := b,
       hist := s.hist.(attempts := s.hist.attempts + [Attempt(b, ReceivedCount(s), s.hist.processed)]))
  }

  function Closed(s: State): State
    requires AlignedBuffers(s.buffers) && |s.buffers.txns| >= BATCH_SIZE
  {
    var k := if |s.hist.buffered| < BATCH_SIZE then |s.hist.buffered| else BATCH_SIZE;
    s.(batcher := PuttingPartial,
       batchNo := s.batchNo + 1,
       buffers := Buffers(s.buffers.txns[BATCH_SIZE..], s.buffers.traces[BATCH_SIZE..],
                          s.buffers.fromBalances[BATCH_SIZE..], s.buffers.toBalances[BATCH_SIZE..]),
       totalGas := 0,
       hist := s.hist.(closed := s.hist.closed + [s.current],
                       closedRows := s.hist.closedRows + s.hist.buffered[..k],
                       buffered := s.hist.buffered[k..]))
  }

  function NextBatcher(cfg: Config, s: State, a: Action): State
    requires Enabled(cfg, s, a)
    requires !(a.FetchFails? || a.BeginBlock? || a.ProcessTx? || a.Send? || a.EndBlock? || a.StoreLastBlock?)
  {
    match a
    case Receive => Received(s)
    case Timeout => s.(batcher := Checking)
    case SkipCollecting => s.(batcher := Checking)
    case NotFull => s.(batcher := PuttingPartial)
    case CreateBatch(stateRoot, da) => Attempted(s, BatchMade(cfg, s, stateRoot, da))
    case PutRecord =>
      s.(batcher := PuttingHash(s.batcher.stage), db := Put(s.db, BatchKey(s.current.batchNo), BatchRecord(s.current)))
    case PutHash =>
      s.(batcher := Saved(s.batcher.stage), db := Put(s.db, HashKey(s.current.batchNo),
        Text(s.current.currentMerkleHash)))
    case SubmitMetadata => s.(batcher := PuttingRecord(Submitted), current := s.current.(submitted := true))
    case ProveFails => s.(batcher := Collecting)
    case ProveOk =>
      s.(batcher := PuttingRecord(Verified), current := s.current.(verified := true),
         db := Put(s.db, ProofKey(s.batchNo), Proof))
    case CloseBatch => Closed(s)
    case SavePartial =>
      s.(batcher := Collecting,
         db := if |s.buffers.txns| > 0 then Put(s.db, PartialBatch, BatchRecord(PartialRecord(cfg, s))) else s.db)
  }

  function Next(cfg: Config, s: State, a: Action): State
    requires Enabled(cfg, s, a)
  {
    if a.FetchFails? then s
    else if a.BeginBlock? || a.ProcessTx? || a.Send? || a.EndBlock? || a.StoreLastBlock? then NextProducer(cfg, s, a)
    else NextBatcher(cfg, s, a)
  }

  /** A run: every action enabled where it is taken. */
  ghost predicate Run(cfg: Config, s: State, actions: seq<Action>, t: State)
    decreases |actions|
  {
    if |actions| == 0 then t == s
    else Enabled(cfg, s, actions[0]) && Run(cfg, Next(cfg, s, actions[0]), actions[1..], t)
  }

  lemma {:induction false} RunThen(cfg: Config, s: State, actions: seq<Action>, t: State, a: Action)
    requires Run(cfg, s, actions, t) && Enabled(cfg, t, a)
    ensures Run(cfg, s, actions + [a], Next(cfg, t, a))
    decreases |actions|
  {
    hide Enabled, Next;
    if |actions| == 0 {
      assert ([] + [a])[1..] == [];
    } else {
      RunThen(cfg, Next(cfg, s, actions[0]), actions[1..], t, a);
      assert (actions + [a])[1..] == actions[1..] + [a];
    }
  }

  lemma {:induction false} RunConcat(cfg: Config, s: State, before: seq<Action>, t: State, after: seq<Action>, u: State)
    requires Run(cfg, s, before, t) && Run(cfg, t, after, u)
    ensures Run(cfg, s, before + after, u)
    decreases |before|
  {
    hide Enabled, Next;
    if |before| == 0 {
      assert [] + after == after;
    } else {
      RunConcat(cfg, Next(cfg, s, before[0]), before[1..], t, after, u);
      assert (before + after)[1..] == before[1..] + after;
    }
  }

  /** The state a process starts in: loaded from its database, with a history that begins here.
      `hist.initial` stands for the transactions of the loaded partial batch. */
  ghost predicate Started(s: State) {
    && s == Restarted(s)
    && s.buffers == BuffersOf(s.hist.initial) && |s.hist.initial| < BATCH_SIZE
    && s.totalGas == SumGas(s.hist.initial) % UINT64
    && (s.hist.initial != [] ==> s.timestamp == s.hist.initial[|s.hist.initial| - 1].time)
    && (LoadedPartial(s.db).Some? ==> s.hist.initial != [] && LoadedPartial(s.db).value.batchNo > 0)
    && s.hist == History(s.batchNo, PrevFor(s.db, s.batchNo), s.lastBlock, s.hist.initial,
                         [], s.hist.initial, [], [], [], 0)
  }

  /** A start on an empty batch database, but for the genesis state root under state_0. */
  ghost predicate FreshStart(s: State) {
    && Started(s)
    && (forall k :: Get(s.db, k).Some? ==> k == StateKey(0))
  }

  lemma FreshIsEmpty(s: State)
    requires FreshStart(s)
    ensures s.hist.initial == [] && s.hist.base == s.batchNo == 1 && s.lastBlock == 1
      && s.buffers == Buffers([], [], [], [])
    ensures s.hist.firstPrev == GENESIS_HASH
  {
    assert Get(s.db, PartialBatch).None? && Get(s.db, LastBlock).None?;
    assert |BuffersOf(s.hist.initial).txns| == 0;
  }
}
