/** EVMState and Processor: the code that reads and writes the account store. */
module Processor {
  import opened Bytes
  import opened Accounts
  import opened Ledger
  import opened LedgerLaws
  import opened StorageOrder

  class EVMState {
    var db: Store

    constructor ()
      ensures db == map[]
    {
      db := map[];
    }

    method GetAccount(addr: GoString) returns (acc: Account)
      ensures acc == AccountAt(db, addr)
      ensures acc == if ToLower(addr) in db then db[ToLower(addr)] else Account(0, 0, [], map[])
    {
      var key := ToLower(addr);
      if key in db {
        acc := db[key];
      } else {
        acc := Account(0, 0, [], map[]);
      }
    }

    method SaveAccount(addr: GoString, acc: Account)
      modifies this
      ensures db == Saved(old(db), addr, acc)
      ensures forall b :: AccountAt(db, b) == if SameLetters(addr, b) then acc else AccountAt(old(db), b)
    {
      forall b
        ensures AccountAt(Saved(db, addr, acc), b) == if SameLetters(addr, b) then acc else AccountAt(db, b)
      {
        OneAccount(db, addr, b, acc);
      }
      hide SameLetters;
      db := db[ToLower(addr) := acc];
    }

    method CreateAccount(addr: GoString, initialBalance: int)
      modifies this
      ensures db == Saved(old(db), addr, NewAccount(initialBalance))
      ensures AccountAt(db, addr) == Account(initialBalance, 0, [], map[])
    {
      SaveAccount(addr, Account(initialBalance, 0, [], map[]));
    }

    method UpdateAccount(addr: GoString, balance: int, nonce: uint64)
      modifies this
      ensures db == Updated(old(db), addr, balance, nonce)
      ensures var before := AccountAt(old(db), addr);
        AccountAt(db, addr) == Account(balance, nonce, before.code, before.storage)
    {
      var acc := GetAccount(addr);
      acc := acc.(balance := balance);
      acc := acc.(nonce := nonce);
      SaveAccount(addr, acc);
    }

    method SetStorage(addr: GoString, contractAddr: GoString, key: GoString, value: GoString)
      modifies this
      ensures var acc := AccountAt(old(db), addr);
        db == Saved(old(db), addr, acc.(storage := WithSlots(acc.storage, contractAddr, map[key := value])))
      ensures Stores(AccountAt(old(db), addr).storage, contractAddr, map[key := value], AccountAt(db, addr).storage)
    {
      var acc := GetAccount(addr);
      var storage := acc.storage;
      if contractAddr !in storage {
        storage := storage[contractAddr := map[]];
      }
      storage := storage[contractAddr := storage[contractAddr][key := value]];
      assert key in map[key := value];
      ghost var before := if contractAddr in acc.storage then acc.storage[contractAddr] else map[];
      assert storage[contractAddr] == before + map[key := value];
      assert storage == WithSlots(acc.storage, contractAddr, map[key := value]);
      SlotsStored(acc.storage, contractAddr, map[key := value]);
      SaveAccount(addr, acc.(storage := storage));
    }

    /** GetAllAccounts: the iterator over the store, collected. */
    method GetAllAccounts() returns (accounts: map<GoString, Account>)
      ensures accounts == db
    {
      accounts := map[];
      var rest := db.Keys;
      while rest != {}
        invariant rest <= db.Keys
        invariant accounts.Keys == db.Keys - rest
        invariant forall a :: a in accounts ==> accounts[a] == db[a]
      {
        var addr :| addr in rest;
        accounts := accounts[addr := db[addr]];
        rest := rest - {addr};
      }
    }
  }

  /** SetStorage one slot after another adds up. */
  lemma OneMoreSlot(storage: map<GoString, map<GoString, GoString>>, c: GoString, done: map<GoString, GoString>,
      k: GoString, v: GoString)
    ensures WithSlots(WithSlots(storage, c, done), c, map[k := v]) == WithSlots(storage, c, done[k := v])
  {
    assert k in done[k := v] && k in map[k := v];
    var base := if c in storage then storage[c] else map[];
    assert (base + done) + map[k := v] == base + done[k := v];
    if done == map[] {
      assert base + map[k := v] == base + done[k := v];
    }
  }

  lemma NothingStored(storage: map<GoString, map<GoString, GoString>>, c: GoString)
    ensures WithSlots(storage, c, map[]) == storage
  {
  }

  /** An account saved is read back, and saving again forgets it. */
  lemma SavedAgain(st: Store, addr: GoString)
    ensures forall x :: AccountAt(Saved(st, addr, x), addr) == x
    ensures forall x, y :: Saved(Saved(st, addr, x), addr, y) == Saved(st, addr, y)
  {
    hide ToLower;
  }

  lemma EachAccountAfter(create: AddressOf, st: Store, r: Request, after: Store)
    requires Verdict(st, r) == Applied && after == Processed(create, st, r)
    ensures forall a :: IsAfter(create, st, r, a, AccountAt(after, a))
  {
    forall a
      ensures IsAfter(create, st, r, a, AccountAt(after, a))
    {
      EachAccount(create, st, r, a);
    }
  }

  class Processor {
    const state: EVMState
    const create: AddressOf

    constructor (state: EVMState, create: AddressOf)
      ensures this.state == state && this.create == create
    {
      this.state, this.create := state, create;
    }

    /** The loop that stores fetched slots of a contract under its own address. */
    method SetAllStorage(addr: GoString, slots: map<GoString, GoString>)
      modifies state
      ensures var acc := AccountAt(old(state.db), addr);
        slots != map[] ==> state.db == Saved(old(state.db), addr, acc.(storage := WithSlots(acc.storage, addr, slots)))
      ensures slots == map[] ==> state.db == old(state.db)
    {
      hide Saved, AccountAt, WithSlots;
      var rest := slots.Keys;
      ghost var done: map<GoString, GoString> := map[];
      ghost var acc := AccountAt(state.db, addr);
      while rest != {}
        invariant rest <= slots.Keys && done.Keys == slots.Keys - rest
        invariant forall k :: k in done ==> done[k] == slots[k]
        invariant done == map[] ==> state.db == old(state.db)
        invariant done != map[] ==>
          state.db == Saved(old(state.db), addr, acc.(storage := WithSlots(acc.storage, addr, done)))
      {
        var k :| k in rest;
        NothingStored(acc.storage, addr);
        OneMoreSlot(acc.storage, addr, done, k, slots[k]);
        SavedAgain(old(state.db), addr);
        state.SetStorage(addr, addr, k, slots[k]);
        done := done[k := slots[k]];
        assert k in done;
        rest := rest - {k};
      }
      assert done == slots;
    }

    /** ProcessTransaction. A request is applied just when it has a transaction, a block number, a
        sender and a receipt within the gas limit, and the sender has the value and the used gas
        at the price of its kind; otherwise the first check that fails is returned and the store
        is left alone. */
    method ProcessTransaction(r: Request) returns (outcome: Outcome)
      modifies state
      ensures IsOutcome(old(state.db), r, outcome)
      ensures outcome == Applied <==>
        && r.tx.Some? && r.blockNumber != [] && r.tx.value.sender.Some? && r.remote.gasUsed.Some?
        && r.remote.gasUsed.value <= r.tx.value.gasLimit
        && var tx := r.tx.value;
           var price := if tx.dynamicFee then tx.feeCap + tx.tipCap else tx.gasPrice;
           AccountAt(old(state.db), tx.sender.value).balance - tx.value - r.remote.gasUsed.value * price >= 0
      ensures outcome == Applied ==> forall a :: IsAfter(create, old(state.db), r, a, AccountAt(state.db, a))
      ensures outcome == Verdict(old(state.db), r)
      ensures state.db == Processed(create, old(state.db), r)
      ensures outcome.Rejected? ==> state.db == old(state.db)
    {
      ghost var before := state.db;
      OutcomeIs(before, r, Verdict(before, r));
      hide ToLower, IsAfter, Fails;
      if r.tx.None? {
        return Rejected(NilTransaction);
      }
      var tx := r.tx.value;
      if r.blockNumber == [] {
        return Rejected(NoBlockNumber);
      }
      if tx.sender.None? {
        return Rejected(NoSender);
      }
      var from := tx.sender.value;
      var fromAcc := state.GetAccount(from);
      var gasPrice := if tx.dynamicFee then tx.feeCap + tx.tipCap else tx.gasPrice;
      if r.remote.gasUsed.None? {
        return Rejected(NoReceipt);
      }
      var gasUsed := r.remote.gasUsed.value;
      if gasUsed > tx.gasLimit {
        return Rejected(GasAboveLimit);
      }
      var gasCost := gasUsed * gasPrice;
      var totalCost := tx.value + gasCost;
      if fromAcc.balance < totalCost {
        return Rejected(InsufficientBalance);
      }
      var balance := fromAcc.balance - totalCost;
      var nonce: uint64 := (fromAcc.nonce + 1) % UINT64;
      var refund := tx.gasLimit - gasUsed;
      if refund > 0 {
        refund := refund * gasPrice;
        balance := balance + refund;
      }
      state.UpdateAccount(from, balance, nonce);
      assert state.db == Charged(old(state.db), r);
      assert (nonce + UINT64 - 1) % UINT64 == fromAcc.nonce;
      hide Charged, SenderBalance, Price;
      if tx.to.None? {
        CreateContract(create(from, (nonce + UINT64 - 1) % UINT64), tx, r.remote);
      } else {
        Credit(tx.to.value, tx, r.remote);
      }
      outcome := Applied;
      EachAccountAfter(create, before, r, state.db);
    }

    /** The contract creation branch: slots are stored, and then overwritten with the account. */
    method CreateContract(targetAddr: GoString, tx: Tx, remote: Remote)
      modifies state
      ensures state.db == Saved(old(state.db), targetAddr, NewAccount(tx.value))
    {
      if |tx.data| > 0 && remote.contract.Some? {
        SetAllStorage(targetAddr, remote.contract.value.storage);
      }
      state.CreateAccount(targetAddr, tx.value);
    }

    /** The call and transfer branch. */
    method Credit(to: GoString, tx: Tx, remote: Remote)
      modifies state
      ensures state.db == Credited(old(state.db), tx, to, remote)
    {
      hide ToLower;
      var toAcc := state.GetAccount(to);
      if toAcc.balance == 0 && toAcc.nonce == 0 {
        state.CreateAccount(to, tx.value);
      } else {
        var balance := toAcc.balance + tx.value;
        if |toAcc.code| > 0 && |tx.data| > 0 && remote.contract.Some? {
          toAcc := toAcc.(code := remote.contract.value.code);
          SetAllStorage(to, remote.contract.value.storage);
        }
        state.UpdateAccount(to, balance, toAcc.nonce);
      }
    }

    method ProcessBlockRewards(block: Block, signer: GoString) returns (ok: bool)
      modifies state
      ensures ok <==> block.number != [] && signer != []
      ensures state.db == Rewarded(old(state.db), block, signer)
    {
      if block.number == [] || signer == [] {
        return false;
      }
      var totalPriorityFees := 0;
      var i := 0;
      while i < |block.txs|
        invariant 0 <= i <= |block.txs|
        invariant totalPriorityFees == Fees(block.txs[..i], block.baseFee)
      {
        var t := block.txs[i];
        assert block.txs[..i + 1][..i] == block.txs[..i];
        if t.gasUsed.Some? {
          var gasPrice := if t.tx.dynamicFee then block.baseFee + t.tx.tipCap else t.tx.gasPrice;
          var priorityFee := gasPrice - block.baseFee;
          if priorityFee < 0 {
            priorityFee := 0;
          }
          totalPriorityFees := totalPriorityFees + t.gasUsed.value * priorityFee;
        }
        i := i + 1;
      }
      assert block.txs[..i] == block.txs;
      var signerAcc := state.GetAccount(signer);
      state.UpdateAccount(signer, signerAcc.balance + totalPriorityFees, signerAcc.nonce);
      ok := true;
    }

    /** The account-seeding loop of LoadGenesis. */
    method SeedGenesis(alloc: map<GoString, int>)
      modifies state
      ensures Seeded(old(state.db), alloc, state.db)
    {
      hide ToLower, GenesisAddress;
      ghost var before := state.db;
      var rest := alloc.Keys;
      ghost var done: map<GoString, int> := map[];
      while rest != {}
        invariant rest <= alloc.Keys && done.Keys == alloc.Keys - rest
        invariant forall a :: a in done ==> done[a] == alloc[a]
        invariant Seeded(before, done, state.db)
      {
        var addr :| addr in rest;
        SeededOneMore(before, done, state.db, addr, alloc[addr]);
        GenesisAddressIsLower(addr);
        state.CreateAccount(GenesisAddress(addr), alloc[addr]);
        done := done[addr := alloc[addr]];
        rest := rest - {addr};
      }
      assert done == alloc;
    }
  }

  lemma GenesisAddressIsLower(addr: GoString)
    ensures ToLower(GenesisAddress(addr)) == GenesisAddress(addr)
  {
  }

  lemma SeededOneMore(before: Store, done: map<GoString, int>, st: Store, addr: GoString, balance: int)
    requires Seeded(before, done, st) && addr !in done
    ensures Seeded(before, done[addr := balance], st[GenesisAddress(addr) := NewAccount(balance)])
  {
    hide GenesisAddress;
    var next, after := done[addr := balance], st[GenesisAddress(addr) := NewAccount(balance)];
    forall k | k in after
      ensures || (exists a :: a in next && GenesisAddress(a) == k && after[k] == NewAccount(next[a]))
              || (k in before && after[k] == before[k] && forall a :: a in next ==> GenesisAddress(a) != k)
    {
      if k == GenesisAddress(addr) {
        assert addr in next;
      } else if a :| a in done && GenesisAddress(a) == k && st[k] == NewAccount(done[a]) {
        assert a in next;
      }
    }
  }
}
