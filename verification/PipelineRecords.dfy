/** What each batch record holds, field by field: its 128 transactions, the receipt and the state
    root of the call of CreateBatch that made it, and the attempt a closed batch comes from. */
module PipelineRecords {
  import opened Bytes
  import opened BatchStore
  import opened Commitment
  import opened Pipeline
  import opened PipelineInvariant
  import opened PipelineTheorems

  // ---- Columns ----------------------------------------------------------------------------

  /** Element by element, the columns of a closed batch are the fields of its transactions. */
  lemma ClosedColumns(cfg: Config, s: State, actions: seq<Action>, t: State, i: nat, k: nat)
    requires Reachable(cfg, s, actions, t) && i < |t.hist.closed| && k < 128
    ensures var b := t.hist.closed[i];
      && |b.transactions| == 128 && |b.executionTraces| == 128 && |b.fromBalances| == 128 && |b.toBalances| == 128
      && 128 * i + 128 <= |Stream(t)|
      && var row := Stream(t)[128 * i + k];
         && b.transactions[k] == row.txHex && b.executionTraces[k] == row.trace
         && b.fromBalances[k] == row.fromBalance && b.toBalances[k] == row.toBalance
  {
    hide Reachable, Stream, ComputeBatchHash, ComputeBatchCommitment, SumGas;
    ExactlyOnceInOrder(cfg, s, actions, t);
    var rows := Stream(t)[128 * i..128 * i + 128];
    assert Describes(cfg, t.hist.closed[i], rows);
    assert BuffersOf(rows).txns[k] == rows[k].txHex && BuffersOf(rows).traces[k] == rows[k].trace;
    assert BuffersOf(rows).fromBalances[k] == rows[k].fromBalance && BuffersOf(rows).toBalances[k] == rows[k].toBalance;
  }

  /** Its metadata are the gas sum, the time of the last transaction and the namespace. */
  lemma ClosedMetadata(cfg: Config, s: State, actions: seq<Action>, t: State, i: nat)
    requires Reachable(cfg, s, actions, t) && i < |t.hist.closed|
    ensures 128 * i + 128 <= |Stream(t)|
    ensures var b := t.hist.closed[i];
      && b.metadata.totalGasUsed == SumGas(Stream(t)[128 * i..128 * i + 128]) % 0x1_0000_0000_0000_0000
      && b.metadata.timestamp == Stream(t)[128 * i + 127].time
      && b.metadata.rollupNamespace == cfg.namespace
  {
    hide Reachable, Stream, ComputeBatchHash, ComputeBatchCommitment, SumGas, BuffersOf;
    ExactlyOnceInOrder(cfg, s, actions, t);
    assert Describes(cfg, t.hist.closed[i], Stream(t)[128 * i..128 * i + 128]);
  }

  lemma {:induction false} SumGasIs(rows: seq<TxData>, t: TxData)
    ensures SumGas([]) == 0 && SumGas([t] + rows) == t.gas + SumGas(rows)
  {
    if |rows| == 0 {
      assert ([t] + rows)[..0] == [];
    } else {
      var init := rows[..|rows| - 1];
      SumGasIs(init, t);
      assert ([t] + rows)[..|rows|] == [t] + init;
    }
  }

  /** The timestamp is that of the last transaction taken, whether a batch was closed since. */
  lemma TimestampStays(cfg: Config, s: State, actions: seq<Action>, t: State)
    requires Started(s) && Run(cfg, s, actions, t) && Taken(t) != []
    ensures t.timestamp == Taken(t)[|Taken(t)| - 1].time
  {
    TimeInRun(cfg, s, actions, t);
  }

  ghost predicate TimeInv(s: State) {
    Taken(s) != [] ==> s.timestamp == Taken(s)[|Taken(s)| - 1].time
  }

  lemma {:induction false} TimeInRun(cfg: Config, s: State, actions: seq<Action>, t: State)
    requires TimeInv(s) && BufferInv(s) && Run(cfg, s, actions, t)
    ensures TimeInv(t)
    decreases |actions|
  {
    if |actions| == 0 {
    } else {
      TimeKept(cfg, s, actions[0]);
      BufferKept(cfg, s, actions[0]);
      hide TimeInv, BufferInv, Enabled, Next;
      TimeInRun(cfg, Next(cfg, s, actions[0]), actions[1..], t);
    }
  }

  lemma TimeKept(cfg: Config, s: State, a: Action)
    requires Enabled(cfg, s, a) && TimeInv(s) && BufferInv(s)
    ensures TimeInv(Next(cfg, s, a))
  {
    TakenAfter(cfg, s, a);
    hide *;
    LastTime(s, Next(cfg, s, a));
  }

  lemma LastTime(s: State, t: State)
    requires TimeInv(s)
    requires (Taken(t) == Taken(s) && t.timestamp == s.timestamp)
          || (s.chan != [] && Taken(t) == Taken(s) + [s.chan[0]] && t.timestamp == s.chan[0].time)
    ensures TimeInv(t)
  {
    hide Taken;
  }

  lemma TakenAfter(cfg: Config, s: State, a: Action)
    requires Enabled(cfg, s, a) && BufferInv(s)
    ensures var t := Next(cfg, s, a);
      if a.Receive? then s.chan != [] && Taken(t) == Taken(s) + [s.chan[0]] && t.timestamp == s.chan[0].time
      else Taken(t) == Taken(s) && t.timestamp == s.timestamp
  {
    hide Get, Put, BatchMade, PartialRecord, SumGas, BuffersOf, Appended, ReceivedCount;
    if a.Receive? {
      ConcatAssociative(s.hist.closedRows, s.hist.buffered, [s.chan[0]]);
    } else if a.CloseBatch? {
      EmptiedBuffers(s);
      assert s.hist.closedRows + s.hist.buffered + [] == s.hist.closedRows + s.hist.buffered;
    }
  }

  // ---- Receipts and roots -----------------------------------------------------------------

  /** The calls of CreateBatch in a run, in order. */
  ghost function Creates(actions: seq<Action>): seq<Action> {
    if |actions| == 0 then []
    else (if actions[0].CreateBatch? then [actions[0]] else []) + Creates(actions[1..])
  }

  /** The batch carries what this call of CreateBatch was given. */
  ghost predicate MadeBy(b: Batch, call: Action) {
    && call.CreateBatch?
    && b.da.provider == call.da.provider && b.da.commitment == call.da.commitment
    && b.da.blockHash == call.da.blockHash && b.da.txHash == call.da.txHash
    && b.currentStateRoot == call.stateRoot
  }

  lemma MadeByCall(cfg: Config, s: State, a: Action)
    requires Enabled(cfg, s, a)
    ensures var t := Next(cfg, s, a);
      if a.CreateBatch? then
        && |t.hist.attempts| == |s.hist.attempts| + 1 && s.hist.attempts <= t.hist.attempts
        && MadeBy(t.hist.attempts[|s.hist.attempts|].batch, a)
        && t.hist.attempts[|s.hist.attempts|].batch.batchNo == s.batchNo
        && t.current == t.hist.attempts[|s.hist.attempts|].batch
        && !t.current.submitted && !t.current.verified
      else t.hist.attempts == s.hist.attempts
  {
    hide Get, Put, PartialRecord, ReceivedCount, ComputeBatchHash, ComputeBatchCommitment, PrevFor, TextAt;
  }

  /** One for one and in order. */
  ghost predicate AllMadeBy(made: seq<Attempt>, calls: seq<Action>) {
    |made| == |calls| && forall k :: 0 <= k < |calls| ==> MadeBy(made[k].batch, calls[k])
  }

  /** In every run the attempts are, one for one and in order, the calls of CreateBatch, and each
      carries the receipt and the state root its call was given. */
  lemma EachAttemptItsCall(cfg: Config, s: State, actions: seq<Action>, t: State)
    requires Started(s) && Run(cfg, s, actions, t)
    ensures AllMadeBy(t.hist.attempts, Creates(actions))
  {
    assert s.hist.attempts == [];
    CallsInRun(cfg, s, actions, t);
    assert t.hist.attempts[0..] == t.hist.attempts;
  }

  lemma {:induction false} CallsInRun(cfg: Config, s: State, actions: seq<Action>, t: State)
    requires Run(cfg, s, actions, t)
    ensures s.hist.attempts <= t.hist.attempts
    ensures AllMadeBy(t.hist.attempts[|s.hist.attempts|..], Creates(actions))
    decreases |actions|
  {
    hide Enabled, Next, MadeBy;
    if |actions| == 0 {
    } else {
      var m := Next(cfg, s, actions[0]);
      MadeByCall(cfg, s, actions[0]);
      CallsInRun(cfg, m, actions[1..], t);
      var n, rest := |s.hist.attempts|, t.hist.attempts[|m.hist.attempts|..];
      if actions[0].CreateBatch? {
        assert t.hist.attempts[n..] == [m.hist.attempts[n]] + rest;
        OneMoreMade(m.hist.attempts[n], actions[0], rest, Creates(actions[1..]));
      } else {
        assert Creates(actions) == Creates(actions[1..]);
      }
    }
  }

  lemma OneMoreMade(a: Attempt, call: Action, made: seq<Attempt>, calls: seq<Action>)
    requires MadeBy(a.batch, call) && AllMadeBy(made, calls)
    ensures AllMadeBy([a] + made, [call] + calls)
  {
    hide MadeBy;
  }

  // ---- The attempt behind a batch ---------------------------------------------------------

  /** The batch is the attempt at index `k`, but for its flags, and the last one at its number. */
  ghost predicate IsLastAttempt(s: State, k: nat, b: Batch) {
    && k < |s.hist.attempts|
    && b == s.hist.attempts[k].batch.(submitted := b.submitted, verified := b.verified)
    && forall l :: k < l < |s.hist.attempts| ==> s.hist.attempts[l].batch.batchNo > b.batchNo
  }

  /** The batch being saved is the last attempt of all, every closed one the last at its number. */
  ghost predicate LastAttempts(s: State) {
    && (Saving(s) ==> |s.hist.attempts| > 0 && IsLastAttempt(s, |s.hist.attempts| - 1, s.current))
    && forall b :: b in s.hist.closed ==> b.batchNo < s.batchNo && exists k: nat :: IsLastAttempt(s, k, b)
  }

  lemma LastAttemptsKept(cfg: Config, s: State, a: Action)
    requires Enabled(cfg, s, a) && ControlInv(s) && LastAttempts(s)
    ensures LastAttempts(Next(cfg, s, a))
  {
    MadeByCall(cfg, s, a);
    BatchesAfter(cfg, s, a);
    NumbersAfter(cfg, s, a);
    hide *;
    StillLast(s, Next(cfg, s, a), a.CreateBatch?);
  }

  /** Nothing but a new attempt at the current number, new flags, and closing the batch at hand. */
  lemma StillLast(s: State, t: State, made: bool)
    requires LastAttempts(s) && (Saving(s) ==> s.current.batchNo == s.batchNo)
    requires s.batchNo <= t.batchNo
    requires if made then
        && |t.hist.attempts| == |s.hist.attempts| + 1 && s.hist.attempts <= t.hist.attempts
        && t.hist.attempts[|s.hist.attempts|].batch == t.current && t.current.batchNo == s.batchNo
      else t.hist.attempts == s.hist.attempts
    requires !made && Saving(t) ==>
      && Saving(s)
      && (|| t.current == s.current
          || t.current == s.current.(submitted := true)
          || t.current == s.current.(verified := true))
    requires || t.hist.closed == s.hist.closed
             || (t.hist.closed == s.hist.closed + [s.current] && Saving(s) && !made && t.batchNo == s.batchNo + 1)
    ensures LastAttempts(t)
  {
    hide Saving;
    forall b | b in t.hist.closed
      ensures b.batchNo < t.batchNo && exists k: nat :: IsLastAttempt(t, k, b)
    {
      if b in s.hist.closed {
        var k: nat :| IsLastAttempt(s, k, b);
        assert IsLastAttempt(t, k, b);
      } else {
        assert IsLastAttempt(t, |t.hist.attempts| - 1, b);
      }
    }
  }

  lemma NumbersAfter(cfg: Config, s: State, a: Action)
    requires Enabled(cfg, s, a)
    ensures var t := Next(cfg, s, a);
      && t.batchNo == s.batchNo + (if a.CloseBatch? then 1 else 0)
      && (a.CloseBatch? ==> t.hist.closed == s.hist.closed + [s.current] && Saving(s) && !Saving(t))
      && (!a.CloseBatch? ==> t.hist.closed == s.hist.closed)
      && (a.CreateBatch? ==> Saving(t))
  {
    hide Get, Put, BatchMade, PartialRecord, ReceivedCount;
  }

  lemma {:induction false} LastAttemptsInRun(cfg: Config, s: State, actions: seq<Action>, t: State)
    requires Inv(cfg, s) && LastAttempts(s) && Run(cfg, s, actions, t)
    ensures LastAttempts(t)
    decreases |actions|
  {
    hide Inv, LastAttempts, Enabled, Next;
    if |actions| == 0 {
    } else {
      LastAttemptsKeptInv(cfg, s, actions[0]);
      InvKept(cfg, s, actions[0]);
      LastAttemptsInRun(cfg, Next(cfg, s, actions[0]), actions[1..], t);
    }
  }

  lemma LastAttemptsKeptInv(cfg: Config, s: State, a: Action)
    requires Enabled(cfg, s, a) && Inv(cfg, s) && LastAttempts(s)
    ensures LastAttempts(Next(cfg, s, a))
  {
    hide Enabled, Next, LastAttempts;
    LastAttemptsKept(cfg, s, a);
  }

  /** A closed batch is the last attempt at its number, with both flags set: so it carries the
      receipt and the state root of the last call of CreateBatch for it, none of an earlier one
      that was not proved. */
  lemma ClosedReceipt(cfg: Config, s: State, actions: seq<Action>, t: State, i: nat) returns (k: nat)
    requires Reachable(cfg, s, actions, t) && i < |t.hist.closed|
    ensures k < |Creates(actions)| == |t.hist.attempts| && IsLastAttempt(t, k, t.hist.closed[i])
    ensures MadeBy(t.hist.closed[i], Creates(actions)[k])
  {
    StartedInv(cfg, s);
    NothingMadeYet(s);
    LastAttemptsInRun(cfg, s, actions, t);
    EachAttemptItsCall(cfg, s, actions, t);
    hide *;
    k := LastOf(t, i);
    CallOf(t.hist.attempts, Creates(actions), k);
    SameFields(t.hist.attempts[k].batch, t.hist.closed[i], Creates(actions)[k]);
  }

  lemma LastOf(t: State, i: nat) returns (k: nat)
    requires LastAttempts(t) && i < |t.hist.closed|
    ensures IsLastAttempt(t, k, t.hist.closed[i]) && k < |t.hist.attempts|
    ensures var b := t.hist.closed[i];
      b == t.hist.attempts[k].batch.(submitted := b.submitted, verified := b.verified)
  {
    k :| IsLastAttempt(t, k, t.hist.closed[i]);
  }

  lemma CallOf(made: seq<Attempt>, calls: seq<Action>, k: nat)
    requires AllMadeBy(made, calls) && k < |made|
    ensures |made| == |calls| && MadeBy(made[k].batch, calls[k])
  {
    hide MadeBy;
  }

  lemma NothingMadeYet(s: State)
    requires Started(s)
    ensures LastAttempts(s)
  {
  }

  /** The flags do not count. */
  lemma SameFields(made: Batch, b: Batch, call: Action)
    requires MadeBy(made, call) && b == made.(submitted := b.submitted, verified := b.verified)
    ensures MadeBy(b, call)
  {
  }

  /** From an empty database every stored batch carries the receipt and the state root of the call
      of CreateBatch that made it, at its number. */
  lemma StoredReceipt(cfg: Config, s: State, actions: seq<Action>, t: State, n: nat, b: Batch) returns (k: nat)
    requires FreshStart(s) && Run(cfg, s, actions, t) && Get(t.db, BatchKey(n)) == Some(BatchRecord(b))
    ensures k < |Creates(actions)| == |t.hist.attempts| && t.hist.attempts[k].batch.batchNo == n
    ensures b == t.hist.attempts[k].batch.(submitted := b.submitted, verified := b.verified)
    ensures MadeBy(b, Creates(actions)[k])
  {
    var a := FreshLag(cfg, s, actions, t, n, b);
    VerifiedWasSubmitted(cfg, s, actions, t, n, b);
    EachAttemptItsCall(cfg, s, actions, t);
    hide *;
    k :| k < |t.hist.attempts| && t.hist.attempts[k] == a;
    CallOf(t.hist.attempts, Creates(actions), k);
    SameFields(t.hist.attempts[k].batch, b, Creates(actions)[k]);
  }

  // ---- What is saved between batches ------------------------------------------------------

  /** The partial batch saved has the buffers, the current number, the running gas and time and
      the namespace, and nothing else; an empty buffer saves nothing. */
  lemma SavedPartial(cfg: Config, s: State)
    requires Enabled(cfg, s, SavePartial)
    ensures s.buffers.txns == [] ==> Next(cfg, s, SavePartial).db == s.db
    ensures s.buffers.txns != [] ==>
      Get(Next(cfg, s, SavePartial).db, PartialBatch) == Some(BatchRecord(Batch(
        s.buffers.txns, s.buffers.traces, s.buffers.fromBalances, s.buffers.toBalances, [], [], [], [], s.batchNo,
        Metadata(s.totalGas, s.timestamp, cfg.namespace), [], DaReceipt([], [], [], []), false, false)))
  {
    hide Get, Put;
    GetPut(s.db, PartialBatch, BatchRecord(PartialRecord(cfg, s)));
  }

  /** The block number is read back as it was stored, if it fits an int64; else, and where none
      was stored, as 1. */
  lemma LoadedNumber(db: Db, n: nat)
    ensures LoadedLastBlock(Put(db, LastBlock, Number(Digits(256, n)))) == if n < 0x8000_0000_0000_0000 then n else 1
    ensures Get(db, LastBlock).None? ==> LoadedLastBlock(db) == 1
  {
    hide Get, Put, Digits, FromDigits;
    GetPut(db, LastBlock, Number(Digits(256, n)));
    FromDigitsOfDigits(256, n);
  }
}
