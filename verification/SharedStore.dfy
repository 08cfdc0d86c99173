/** The account store that the producer writes and CreateBatch reads: at every moment it is the
    ledger after the transactions processed so far, and every batch was made on it as it then
    was. */
module SharedStore {
  import opened Bytes
  import opened BatchStore
  import opened Commitment
  import opened BatchIdentity
  import opened Pipeline
  import opened PipelineInvariant
  import Ledger
  import LedgerTheorems

  /** The store a process starts with, and how addresses of new contracts are derived. */
  datatype Origin = Origin(create: Ledger.AddressOf, store: Ledger.Store)

  // ---- The transactions processed so far --------------------------------------------------

  function BlockRequests(cfg: Config, n: nat): (rs: seq<Ledger.Request>)
    ensures |rs| == |cfg.chain(n)|
  {
    seq(|cfg.chain(n)|, i requires 0 <= i < |cfg.chain(n)| => cfg.request(n, i))
  }

  ghost function RequestsFrom(cfg: Config, start: nat, end: nat): (rs: seq<Ledger.Request>)
    ensures |rs| == |BlocksFrom(cfg.chain, start, end)|
  {
    if end <= start then [] else RequestsFrom(cfg, start, end - 1) + BlockRequests(cfg, end - 1)
  }

  /** How many transactions of the current block have been processed. */
  function InThisBlock(cfg: Config, s: State): (n: nat)
    ensures n <= |cfg.chain(s.lastBlock)|
  {
    if !s.producer.InBlock? then 0
    else
      var n := s.producer.next + (if s.producer.processed then 1 else 0);
      if n <= |cfg.chain(s.lastBlock)| then n else |cfg.chain(s.lastBlock)|
  }

  ghost function Done(cfg: Config, s: State): seq<Ledger.Request> {
    RequestsFrom(cfg, s.hist.start, s.lastBlock) + BlockRequests(cfg, s.lastBlock)[..InThisBlock(cfg, s)]
  }

  lemma DoneCount(cfg: Config, s: State)
    requires ProducerInv(cfg, s)
    ensures |Done(cfg, s)| == s.hist.processed
  {
    hide BlocksFrom, RequestsFrom, BlockRequests;
  }

  /** Processing a transaction adds its request; every other step leaves the list as it is. */
  lemma DoneGrows(cfg: Config, s: State, a: Action)
    requires Enabled(cfg, s, a) && ProducerInv(cfg, s)
    ensures Done(cfg, Next(cfg, s, a)) ==
      Done(cfg, s) + (if a.ProcessTx? then [cfg.request(s.lastBlock, s.producer.next)] else [])
  {
    hide Get, Put, BatchMade, PartialRecord, BlocksFrom, Produced;
    var t := Next(cfg, s, a);
    var rs := BlockRequests(cfg, s.lastBlock);
    if a.ProcessTx? {
      var i := s.producer.next;
      assert rs[..i + 1] == rs[..i] + [cfg.request(s.lastBlock, i)];
    } else if a.EndBlock? {
      assert rs[..s.producer.next] == rs;
      assert Done(cfg, t) == RequestsFrom(cfg, s.hist.start, s.lastBlock + 1);
    } else {
      hide RequestsFrom, BlockRequests;
      assert t.hist.start == s.hist.start && t.lastBlock == s.lastBlock;
      assert InThisBlock(cfg, t) == InThisBlock(cfg, s);
    }
  }

  // ---- The store --------------------------------------------------------------------------

  function Events(rs: seq<Ledger.Request>): (es: seq<LedgerTheorems.Event>)
    ensures |es| == |rs|
  {
    seq(|rs|, i requires 0 <= i < |rs| => LedgerTheorems.Transaction(rs[i]))
  }

  /** The store after the first `p` transactions. */
  ghost function StoreAt(cfg: Config, o: Origin, s: State, p: nat): Ledger.Store {
    LedgerTheorems.AfterAll(o.create, o.store, Events(if p <= |Done(cfg, s)| then Done(cfg, s)[..p] else Done(cfg, s)))
  }

  /** The store is the ledger after everything processed so far. */
  ghost predicate StoreIs(cfg: Config, o: Origin, s: State, store: Ledger.Store) {
    store == StoreAt(cfg, o, s, |Done(cfg, s)|)
  }

  /** Every attempt was made on the store after exactly the transactions processed by then. */
  ghost predicate SnapshotsAre(cfg: Config, keccak: HashFn, o: Origin, s: State) {
    forall a :: a in s.hist.attempts ==>
      a.processed <= |Done(cfg, s)| && MadeFrom(cfg, keccak, StoreAt(cfg, o, s, a.processed), a.batch)
  }

  lemma OneMoreProcessed(o: Origin, rs: seq<Ledger.Request>, r: Ledger.Request)
    ensures LedgerTheorems.AfterAll(o.create, o.store, Events(rs + [r]))
      == Ledger.Processed(o.create, LedgerTheorems.AfterAll(o.create, o.store, Events(rs)), r)
  {
    hide Ledger.Processed;
    assert Events(rs + [r])[..|rs|] == Events(rs);
  }

  /** Earlier stores are not touched by what is processed later. */
  lemma StoreStays(cfg: Config, o: Origin, s: State, t: State, p: nat)
    requires Done(cfg, s) <= Done(cfg, t) && p <= |Done(cfg, s)|
    ensures StoreAt(cfg, o, t, p) == StoreAt(cfg, o, s, p)
  {
    hide Done, Events, LedgerTheorems.AfterAll;
    assert Done(cfg, t)[..p] == Done(cfg, s)[..p];
  }

  lemma SnapshotsStay(cfg: Config, keccak: HashFn, o: Origin, s: State, t: State)
    requires SnapshotsAre(cfg, keccak, o, s) && Done(cfg, s) <= Done(cfg, t)
    ensures forall a :: a in s.hist.attempts ==>
      a.processed <= |Done(cfg, t)| && MadeFrom(cfg, keccak, StoreAt(cfg, o, t, a.processed), a.batch)
  {
    hide Done, StoreAt, MadeFrom;
    forall a | a in s.hist.attempts
      ensures a.processed <= |Done(cfg, t)| && StoreAt(cfg, o, t, a.processed) == StoreAt(cfg, o, s, a.processed)
    {
      StoreStays(cfg, o, s, t, a.processed);
    }
  }

  /** Both at once. */
  ghost predicate StoreInv(cfg: Config, keccak: HashFn, o: Origin, s: State, store: Ledger.Store) {
    StoreIs(cfg, o, s, store) && SnapshotsAre(cfg, keccak, o, s)
  }

  lemma StoreUntouched(cfg: Config, keccak: HashFn, o: Origin, m: State, t: State, store: Ledger.Store)
    requires StoreInv(cfg, keccak, o, m, store) && Done(cfg, t) == Done(cfg, m) && t.hist.attempts == m.hist.attempts
    ensures StoreInv(cfg, keccak, o, t, store)
  {
    hide Done, StoreAt;
    SnapshotsStay(cfg, keccak, o, m, t);
    StoreStays(cfg, o, m, t, |Done(cfg, m)|);
  }

  lemma StoreMovesOn(cfg: Config, keccak: HashFn, o: Origin, m: State, t: State, store: Ledger.Store, r: Ledger.Request)
    requires StoreInv(cfg, keccak, o, m, store) && Done(cfg, t) == Done(cfg, m) + [r]
      && t.hist.attempts == m.hist.attempts
    ensures StoreInv(cfg, keccak, o, t, Ledger.Processed(o.create, store, r))
  {
    OneMoreProcessed(o, Done(cfg, m), r);
    hide Done, Events, Ledger.Processed, LedgerTheorems.AfterAll;
    assert Done(cfg, m)[..|Done(cfg, m)|] == Done(cfg, m) && Done(cfg, t)[..|Done(cfg, t)|] == Done(cfg, t);
    SnapshotsStay(cfg, keccak, o, m, t);
  }

  lemma BatchOnStore(cfg: Config, keccak: HashFn, o: Origin, m: State, t: State, store: Ledger.Store, a: Attempt)
    requires StoreInv(cfg, keccak, o, m, store) && Done(cfg, t) == Done(cfg, m)
      && t.hist.attempts == m.hist.attempts + [a]
    requires MadeFrom(cfg, keccak, store, a.batch) && a.processed == |Done(cfg, m)|
    ensures StoreInv(cfg, keccak, o, t, store)
  {
    hide Done, StoreAt, MadeFrom;
    SnapshotsStay(cfg, keccak, o, m, t);
    StoreStays(cfg, o, m, t, |Done(cfg, m)|);
  }

  // ---- Runs with the store ----------------------------------------------------------------

  /** A run from `s` to `t` with the store kept beside it. */
  ghost predicate RunOn(cfg: Config, keccak: HashFn, o: Origin, s: State, actions: seq<Action>, t: State,
      store: Ledger.Store) {
    Run(cfg, s, actions, t) && Inv(cfg, t) && StoreInv(cfg, keccak, o, t, store)
  }

  lemma RunOnStarts(cfg: Config, keccak: HashFn, o: Origin, s: State)
    requires Started(s)
    ensures RunOn(cfg, keccak, o, s, [], s, o.store)
  {
    hide Inv;
    StartedInv(cfg, s);
    assert Done(cfg, s) == [];
    assert Events([]) == [];
  }

  /** A step that neither processes a transaction nor makes a batch leaves the store alone. */
  lemma RunOnStep(cfg: Config, keccak: HashFn, o: Origin, s: State, actions: seq<Action>, m: State,
      store: Ledger.Store, a: Action)
    requires RunOn(cfg, keccak, o, s, actions, m, store) && Enabled(cfg, m, a) && !a.ProcessTx? && !a.CreateBatch?
    ensures RunOn(cfg, keccak, o, s, actions + [a], Next(cfg, m, a), store)
  {
    DoneAfter(cfg, m, a);
    AttemptsOnlyMade(cfg, m, a);
    hide Run, Inv, Enabled, Next, StoreInv, Done;
    RunThen(cfg, s, actions, m, a);
    InvKept(cfg, m, a);
    StoreUntouched(cfg, keccak, o, m, Next(cfg, m, a), store);
  }

  lemma DoneAfter(cfg: Config, s: State, a: Action)
    requires Enabled(cfg, s, a) && Inv(cfg, s)
    ensures Done(cfg, Next(cfg, s, a)) ==
      if a.ProcessTx? then Done(cfg, s) + [cfg.request(s.lastBlock, s.producer.next)] else Done(cfg, s)
    ensures |Done(cfg, s)| == s.hist.processed
  {
    DoneGrows(cfg, s, a);
    DoneCount(cfg, s);
    hide Done;
    assert Done(cfg, s) + [] == Done(cfg, s);
  }

  lemma AttemptsOnlyMade(cfg: Config, m: State, a: Action)
    requires Enabled(cfg, m, a)
    ensures var t := Next(cfg, m, a);
      t.hist.attempts == if a.CreateBatch?
        then m.hist.attempts + [Attempt(BatchMade(cfg, m, a.stateRoot, a.da), ReceivedCount(m), m.hist.processed)]
        else m.hist.attempts
  {
    hide Get, Put, BatchMade, PartialRecord, ReceivedCount;
  }

  /** Processing a transaction moves the store on by it. */
  lemma RunOnProcess(cfg: Config, keccak: HashFn, o: Origin, s: State, actions: seq<Action>, m: State,
      store: Ledger.Store)
    requires RunOn(cfg, keccak, o, s, actions, m, store) && Enabled(cfg, m, ProcessTx)
    ensures RunOn(cfg, keccak, o, s, actions + [ProcessTx], Next(cfg, m, ProcessTx),
                  Ledger.Processed(o.create, store, cfg.request(m.lastBlock, m.producer.next)))
  {
    DoneAfter(cfg, m, ProcessTx);
    AttemptsOnlyMade(cfg, m, ProcessTx);
    var r := cfg.request(m.lastBlock, m.producer.next);
    hide Run, Inv, Enabled, Next, StoreInv, Done, Ledger.Processed;
    RunThen(cfg, s, actions, m, ProcessTx);
    InvKept(cfg, m, ProcessTx);
    StoreMovesOn(cfg, keccak, o, m, Next(cfg, m, ProcessTx), store, r);
  }

  /** A batch made on the store is an attempt made on the store after what has been processed. */
  lemma RunOnCreate(cfg: Config, keccak: HashFn, o: Origin, s: State, actions: seq<Action>, m: State,
      store: Ledger.Store, a: Action)
    requires RunOn(cfg, keccak, o, s, actions, m, store) && Enabled(cfg, m, a) && a.CreateBatch?
    requires MadeFrom(cfg, keccak, store, BatchMade(cfg, m, a.stateRoot, a.da))
    ensures RunOn(cfg, keccak, o, s, actions + [a], Next(cfg, m, a), store)
  {
    DoneAfter(cfg, m, a);
    AttemptsOnlyMade(cfg, m, a);
    var made := Attempt(BatchMade(cfg, m, a.stateRoot, a.da), ReceivedCount(m), m.hist.processed);
    hide Run, Inv, Enabled, Next, StoreInv, Done, BatchMade, MadeFrom, ReceivedCount;
    RunThen(cfg, s, actions, m, a);
    InvKept(cfg, m, a);
    BatchOnStore(cfg, keccak, o, m, Next(cfg, m, a), store, made);
  }
}
