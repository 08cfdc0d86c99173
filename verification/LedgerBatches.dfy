/** Batches and the ledger: what the state root of a closed batch stands for. */
module LedgerBatches {
  import opened Bytes
  import opened Accounts
  import opened BatchStore
  import opened Commitment
  import opened BatchIdentity
  import opened Pipeline
  import opened PipelineInvariant
  import opened PipelineTheorems
  import opened PipelineRestart
  import opened PipelineLives
  import opened SharedStore
  import opened LedgerTheorems
  import Ledger
  import StateRoot
  import AccountTrie

  // ---- The snapshot behind a closed batch -------------------------------------------------

  /** The batch closed at index `i` was made on the ledger after some number of transactions: at
      least as many as the batches up to it hold, and at most 129 more. */
  lemma ClosedOnLedger(cfg: Config, keccak: HashFn, o: Origin, s: State, actions: seq<Action>, t: State,
      i: nat) returns (p: nat)
    requires Reachable(cfg, s, actions, t) && SnapshotsAre(cfg, keccak, o, t) && i < |t.hist.closed|
    ensures var held := BATCH_SIZE * (i + 1) - |s.hist.initial|;
      held <= p <= held + 129 && p <= |Done(cfg, t)|
    ensures MadeFrom(cfg, keccak, StoreAt(cfg, o, t, p), t.hist.closed[i])
  {
    hide Reachable, Done, StoreAt;
    var a := ClosedLag(cfg, s, actions, t, i);
    p := a.processed;
    hide StateRoot.SomeNegative, StateRoot.Represents, BatchHash, BatchCommitment;
    MadeWithFlags(cfg, keccak, StoreAt(cfg, o, t, p), a.batch);
  }

  lemma MadeWithFlags(cfg: Config, keccak: HashFn, accounts: map<GoString, Account>, b: Batch)
    requires MadeFrom(cfg, keccak, accounts, b)
    ensures MadeFrom(cfg, keccak, accounts, b.(submitted := true, verified := true))
  {
    hide StateRoot.SomeNegative, StateRoot.Represents, BatchHash, BatchCommitment;
    var c := b.(submitted := true, verified := true);
    if !StateRoot.SomeNegative(accounts) {
      var recs :| StateRoot.Represents(accounts, accounts.Keys, recs) && CommitsTo(cfg, keccak, b, recs);
      assert CommitsTo(cfg, keccak, c, recs);
    }
  }

  // ---- Stores that come from a genesis ----------------------------------------------------

  /** The addresses in the requests of the chain, and of the contracts they create, are well
      formed. */
  ghost predicate GoodRequests(cfg: Config, o: Origin) {
    forall n, i :: GoodAddresses(o.create, Transaction(cfg.request(n, i)))
  }

  ghost predicate GoodStore(st: Ledger.Store) {
    StateRoot.AllCanonical(st) && NonNegative(st) && Bare(st)
  }

  lemma GenesisIsGood(alloc: map<GoString, int>, st: Ledger.Store)
    requires Ledger.Seeded(map[], alloc, st)
    requires forall a :: a in alloc ==> alloc[a] >= 0 && StateRoot.Canonical(Ledger.GenesisAddress(a))
    ensures GoodStore(st)
  {
    hide Ledger.GenesisAddress, StateRoot.Canonical;
    GenesisIsBare(alloc, st);
  }

  lemma {:induction false} RequestsOfChain(cfg: Config, start: nat, end: nat, r: Ledger.Request)
    requires r in RequestsFrom(cfg, start, end)
    ensures exists n, i :: r == cfg.request(n, i)
    decreases end
  {
    if r in RequestsFrom(cfg, start, end - 1) {
      RequestsOfChain(cfg, start, end - 1, r);
    } else {
      RequestOfBlock(cfg, end - 1, r);
    }
  }

  lemma RequestOfBlock(cfg: Config, n: nat, r: Ledger.Request)
    requires r in BlockRequests(cfg, n)
    ensures exists m, i :: r == cfg.request(m, i)
  {
    var i :| 0 <= i < |BlockRequests(cfg, n)| && BlockRequests(cfg, n)[i] == r;
    assert r == cfg.request(n, i);
  }

  lemma DoneOfChain(cfg: Config, s: State, r: Ledger.Request)
    requires r in Done(cfg, s)
    ensures exists n, i :: r == cfg.request(n, i)
  {
    if r in RequestsFrom(cfg, s.hist.start, s.lastBlock) {
      RequestsOfChain(cfg, s.hist.start, s.lastBlock, r);
    } else {
      assert r in BlockRequests(cfg, s.lastBlock);
      RequestOfBlock(cfg, s.lastBlock, r);
    }
  }

  /** So every snapshot has canonical addresses, no negative balance, no code and no storage. */
  lemma StoreIsGood(cfg: Config, o: Origin, t: State, p: nat)
    requires GoodStore(o.store) && GoodRequests(cfg, o) && p <= |Done(cfg, t)|
    ensures GoodStore(StoreAt(cfg, o, t, p)) && o.store.Keys <= StoreAt(cfg, o, t, p).Keys
  {
    var es := Events(Done(cfg, t)[..p]);
    hide Done, StateRoot.AllCanonical, NonNegative, Bare, AfterAll, GoodAddresses;
    forall e | e in es
      ensures GoodAddresses(o.create, e)
    {
      var i :| 0 <= i < |es| && es[i] == e;
      DoneOfChain(cfg, t, Done(cfg, t)[i]);
    }
    RunCanonical(o.create, o.store, es);
    RunNonNegative(o.create, o.store, es);
    RunBare(o.create, o.store, es);
    RunKeepsAccounts(o.create, o.store, es);
  }

  // ---- State roots are never chained ------------------------------------------------------

  /** A batch's previous root is the current root of the closed batch before it exactly when the
      snapshot of that one was empty or held a negative balance. */
  lemma ChainedExactly(cfg: Config, keccak: HashFn, o: Origin, s: State, actions: seq<Action>, t: State,
      i: nat) returns (p: nat)
    requires FreshStart(s) && Run(cfg, s, actions, t) && SnapshotsAre(cfg, keccak, o, t) && 0 < i < |t.hist.closed|
    ensures BATCH_SIZE * i <= p <= BATCH_SIZE * i + 129 && p <= |Done(cfg, t)|
    ensures t.hist.closed[i].previousStateRoot == t.hist.closed[i - 1].currentStateRoot <==>
      StoreAt(cfg, o, t, p) == map[] || StateRoot.SomeNegative(StoreAt(cfg, o, t, p))
  {
    hide *;
    FreshIsEmpty(s);
    FreshReachable(cfg, s, actions, t);
    ClosedRoots(cfg, s, actions, t, i);
    p := ClosedOnLedger(cfg, keccak, o, s, actions, t, i - 1);
    EmptyRoot(cfg, keccak, StoreAt(cfg, o, t, p), t.hist.closed[i - 1]);
  }

  lemma EmptyRoot(cfg: Config, keccak: HashFn, accounts: map<GoString, Account>, b: Batch)
    requires MadeFrom(cfg, keccak, accounts, b)
    ensures b.currentStateRoot == [] <==> accounts == map[] || StateRoot.SomeNegative(accounts)
  {
    hide StateRoot.SomeNegative, StateRoot.Represents;
  }

  /** From a genesis with any account in it they never are. */
  lemma NeverChained(cfg: Config, keccak: HashFn, o: Origin, s: State, actions: seq<Action>, t: State, i: nat)
    requires FreshStart(s) && Run(cfg, s, actions, t) && SnapshotsAre(cfg, keccak, o, t) && 0 < i < |t.hist.closed|
    requires GoodStore(o.store) && GoodRequests(cfg, o) && o.store != map[]
    ensures t.hist.closed[i].previousStateRoot != t.hist.closed[i - 1].currentStateRoot
  {
    hide Run, FreshStart, SnapshotsAre, StoreAt, Done, StateRoot.AllCanonical, Bare, GoodRequests;
    var p := ChainedExactly(cfg, keccak, o, s, actions, t, i);
    StoreIsGood(cfg, o, t, p);
    var k :| k in o.store;
    assert k in o.store.Keys;
  }

  // ---- Two runs ---------------------------------------------------------------------------

  /** Bare stores with the same accounts are equal. */
  lemma SameBareStores(a: Ledger.Store, b: Ledger.Store)
    requires Bare(a) && Bare(b) && StateRoot.SameAccounts(a, b)
    ensures a == b
  {
    hide FullIteration, Flatten;
    forall k | k in a
      ensures a[k] == b[k]
    {
    }
  }

  ghost predicate SizedStore(st: Ledger.Store) {
    forall recs :: StateRoot.Represents(st, st.Keys, recs) ==> StateRoot.SizedRecords(recs)
  }

  /** Two runs, of any interleaving, on any chains and from any genesis: closed batches with
      equal commitments have the same transactions and metadata, and the ledgers they were made
      on are equal, or a hash failure is exhibited. */
  lemma EqualCommitmentsEqualLedgers(
      cfg: Config, keccak: HashFn, o: Origin, s: State, actions: seq<Action>, t: State, i: nat,
      cfg': Config, o': Origin, s': State, actions': seq<Action>, t': State, j: nat)
    returns (p: nat, q: nat, x: AccountTrie.Records, y: AccountTrie.Records)
    requires Reachable(cfg, s, actions, t) && SnapshotsAre(cfg, keccak, o, t) && i < |t.hist.closed|
    requires Reachable(cfg', s', actions', t') && SnapshotsAre(cfg', keccak, o', t') && j < |t'.hist.closed|
    requires GoodStore(o.store) && GoodRequests(cfg, o) && GoodStore(o'.store) && GoodRequests(cfg', o')
    requires forall n :: SizedStore(StoreAt(cfg, o, t, n)) && SizedStore(StoreAt(cfg', o', t', n))
    requires cfg.sha == cfg'.sha && cfg.quote == cfg'.quote
    requires cfg.quote(cfg.namespace) == cfg.quote(cfg'.namespace) ==> cfg.namespace == cfg'.namespace
    requires t.hist.closed[i].commitment == t'.hist.closed[j].commitment
    ensures p <= |Done(cfg, t)| && q <= |Done(cfg', t')|
    ensures |t.hist.closed[i].transactions| == |t'.hist.closed[j].transactions| == BATCH_SIZE
    ensures var b, d := t.hist.closed[i], t'.hist.closed[j];
      || (b.transactions == d.transactions && b.metadata == d.metadata
        && StoreAt(cfg, o, t, p) == StoreAt(cfg', o', t', q))
      || HashFailure(cfg, keccak, Content(b.transactions, x, b.metadata), Content(d.transactions, y, d.metadata))
  {
    hide *;
    ClosedIs128(cfg, s, actions, t, i);
    ClosedIs128(cfg', s', actions', t', j);
    p := ClosedOnLedger(cfg, keccak, o, s, actions, t, i);
    q := ClosedOnLedger(cfg', keccak, o', s', actions', t', j);
    StoreIsGood(cfg, o, t, p);
    StoreIsGood(cfg', o', t', q);
    x, y := SameLedger(cfg, keccak, StoreAt(cfg, o, t, p), t.hist.closed[i], cfg', StoreAt(cfg', o', t', q),
      t'.hist.closed[j]);
  }

  lemma ClosedIs128(cfg: Config, s: State, actions: seq<Action>, t: State, i: nat)
    requires Reachable(cfg, s, actions, t) && i < |t.hist.closed|
    ensures |t.hist.closed[i].transactions| == BATCH_SIZE && t.hist.closed[i].metadata.rollupNamespace == cfg.namespace
  {
    hide Reachable, Stream, ComputeBatchHash, ComputeBatchCommitment, SumGas;
    ExactlyOnceInOrder(cfg, s, actions, t);
    assert |BuffersOf(Stream(t)[BATCH_SIZE * i..BATCH_SIZE * i + BATCH_SIZE]).txns| == BATCH_SIZE;
  }

  lemma SameLedger(cfg: Config, keccak: HashFn, a: Ledger.Store, b: Batch, cfg': Config, c: Ledger.Store, d: Batch)
    returns (x: AccountTrie.Records, y: AccountTrie.Records)
    requires MadeFrom(cfg, keccak, a, b) && MadeFrom(cfg', keccak, c, d)
    requires GoodStore(a) && GoodStore(c) && SizedStore(a) && SizedStore(c)
    requires cfg.sha == cfg'.sha && cfg.quote == cfg'.quote && b.commitment == d.commitment
    requires |b.transactions| == |d.transactions| == BATCH_SIZE
    requires var m, n := b.metadata.rollupNamespace, d.metadata.rollupNamespace; cfg.quote(m) == cfg.quote(n) ==> m == n
    ensures || (b.transactions == d.transactions && b.metadata == d.metadata && a == c)
            || HashFailure(cfg, keccak, Content(b.transactions, x, b.metadata), Content(d.transactions, y, d.metadata))
  {
    hide StateRoot.Represents, StateRoot.AllCanonical, StateRoot.SizedRecords, StateRoot.SameAccounts, BatchHash,
      BatchCommitment;
    hide HashFailure, Bare;
    assert MadeFrom(cfg, keccak, c, d);
    x, y := CommitmentIdentifiesBatch(cfg, keccak, a, b, c, d);
    if SameBatchOf(a, b, c, d) {
      SameBareStores(a, c);
    }
  }

  // ---- The store across a restart ---------------------------------------------------------

  lemma {:induction false} RequestsJoin(cfg: Config, start: nat, middle: nat, end: nat)
    requires start <= middle <= end
    ensures RequestsFrom(cfg, start, end) == RequestsFrom(cfg, start, middle) + RequestsFrom(cfg, middle, end)
    decreases end
  {
    if middle == end {
      assert RequestsFrom(cfg, middle, end) == [];
      assert RequestsFrom(cfg, start, middle) + [] == RequestsFrom(cfg, start, middle);
    } else {
      RequestsJoin(cfg, start, middle, end - 1);
      ConcatAssociative(
        RequestsFrom(cfg, start, middle), RequestsFrom(cfg, middle, end - 1), BlockRequests(cfg, end - 1));
    }
  }

  /** How many of the processed transactions come before the block a restart goes on with. */
  ghost function SettledRequests(cfg: Config, t: State): nat {
    |RequestsFrom(cfg, t.hist.start, Restarted(t).lastBlock)|
  }

  /** The account store outlives the process, so the second one applies the transactions of a
      block that was begun again: each is applied once just when the first process stopped with
      nothing processed after the stored block number, and otherwise exactly the transactions
      processed since are applied twice. */
  lemma StoreAcrossRestart(cfg: Config, s: State, actions: seq<Action>, t: State, after: seq<Action>, v: State)
    requires Reachable(cfg, s, actions, t) && t.lastBlock < INT64_LIMIT
    requires Run(cfg, Second(t), after, v) && v.producer == Fetching
    ensures var all, q := RequestsFrom(cfg, t.hist.start, v.lastBlock), SettledRequests(cfg, t);
      && q <= |Done(cfg, t)|
      && (Done(cfg, t) + Done(cfg, v) == all <==> |Done(cfg, t)| == q)
      && exists rest :: all == Done(cfg, t)[..q] + rest && Done(cfg, t) + Done(cfg, v) == Done(cfg, t) + rest
  {
    SettledDone(cfg, s, actions, t);
    SecondDone(cfg, s, actions, t, after, v);
    var block := Restarted(t).lastBlock;
    hide *;
    var p, q := |Done(cfg, t)|, SettledRequests(cfg, t);
    var rest := RequestsFrom(cfg, block, v.lastBlock);
    RequestsJoin(cfg, t.hist.start, block, v.lastBlock);
    TwoCuts(Done(cfg, t), p, q, rest);
    assert Done(cfg, t)[..p] == Done(cfg, t);
  }

  lemma SettledDone(cfg: Config, s: State, actions: seq<Action>, t: State)
    requires Reachable(cfg, s, actions, t) && t.lastBlock < INT64_LIMIT
    ensures SettledRequests(cfg, t) <= |Done(cfg, t)| && t.hist.start <= Restarted(t).lastBlock
    ensures Done(cfg, t)[..SettledRequests(cfg, t)] == RequestsFrom(cfg, t.hist.start, Restarted(t).lastBlock)
  {
    hide Run, Started, AttemptsInv, CurrentInv, ClosedInv, PartialInv, BufferInv, StreamInv, ControlInv, OriginInv;
    hide LoadedPartial, LoadedLastBlock, BlocksFrom, BlockRequests;
    ReachableInv(cfg, s, actions, t);
    var before := RequestsFrom(cfg, t.hist.start, Restarted(t).lastBlock);
    assert before <= RequestsFrom(cfg, t.hist.start, t.lastBlock);
    hide RequestsFrom;
    assert before <= Done(cfg, t);
  }

  lemma SecondDone(cfg: Config, s: State, actions: seq<Action>, t: State, after: seq<Action>, v: State)
    requires Reachable(cfg, s, actions, t) && t.lastBlock < INT64_LIMIT
    requires Run(cfg, Second(t), after, v) && v.producer == Fetching
    ensures Restarted(t).lastBlock <= v.lastBlock
    ensures Done(cfg, v) == RequestsFrom(cfg, Restarted(t).lastBlock, v.lastBlock)
  {
    SecondStarts(cfg, s, actions, t);
    SecondRun(cfg, s, actions, t, after, v);
    hide Reachable, Run, Started, RowsKept, PrevFor, LoadedPartial, LoadedLastBlock, Inv, BlocksFrom, RequestsFrom;
    ReachableInv(cfg, Second(t), after, v);
    assert Done(cfg, v) == RequestsFrom(cfg, v.hist.start, v.lastBlock) + [];
  }

  /** The store the second process leaves is the ledger after both lists of transactions. */
  lemma {:induction false} StoreGoesOn(o: Origin, rs: seq<Ledger.Request>, qs: seq<Ledger.Request>)
    ensures AfterAll(o.create, AfterAll(o.create, o.store, Events(rs)), Events(qs))
      == AfterAll(o.create, o.store, Events(rs + qs))
    decreases |qs|
  {
    if |qs| == 0 {
      assert rs + qs == rs && Events(qs) == [];
    } else {
      var n := |qs| - 1;
      StoreGoesOn(o, rs, qs[..n]);
      hide After;
      assert qs == qs[..n] + [qs[n]];
      assert rs + qs == rs + qs[..n] + [qs[n]];
      assert Events(qs)[..n] == Events(qs[..n]);
      assert Events(rs + qs)[..|rs| + n] == Events(rs + qs[..n]);
    }
  }
}
