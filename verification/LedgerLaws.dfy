/** Which transactions are applied, and what an applied one and a block reward do to each account,
    in amounts. */
module LedgerLaws {
  import opened Bytes
  import opened Accounts
  import opened Ledger
  import opened LedgerTheorems
  import opened StorageOrder
  import Hex

  // ---- Addresses --------------------------------------------------------------------------

  predicate IsUpper(c: byte) {
    65 <= c <= 90
  }

  /** The same text but for the case of letters. */
  ghost predicate SameLetters(a: GoString, b: GoString) {
    && |a| == |b|
    && forall i :: 0 <= i < |a| ==>
         || a[i] == b[i]
         || (IsUpper(a[i]) && b[i] == a[i] + 32)
         || (IsUpper(b[i]) && a[i] == b[i] + 32)
  }

  lemma LettersOnly(a: GoString, b: GoString)
    ensures ToLower(a) == ToLower(b) <==> SameLetters(a, b)
    ensures SameLetters(a, ToLower(a)) && forall i :: 0 <= i < |a| ==> !IsUpper(ToLower(a)[i])
  {
    if ToLower(a) == ToLower(b) {
      forall i | 0 <= i < |a|
        ensures a[i] == b[i] || (IsUpper(a[i]) && b[i] == a[i] + 32) || (IsUpper(b[i]) && a[i] == b[i] + 32)
      {
        assert ToLower(a)[i] == ToLower(b)[i];
      }
    }
  }

  /** Spellings of one address in different letter cases read and write one account, and other
      addresses have accounts of their own. */
  lemma OneAccount(st: Store, a: GoString, b: GoString, acc: Account)
    ensures AccountAt(Saved(st, a, acc), b) == if SameLetters(a, b) then acc else AccountAt(st, b)
  {
    LettersOnly(a, b);
    hide ToLower, SameLetters;
  }

  /** Nor does the case of letters count where an address is read as bytes. */
  lemma {:induction false} DecodeEitherCase(s: GoString)
    ensures Hex.Decode(ToLower(s)) == Hex.Decode(s)
  {
    if |s| < 2 {
    } else {
      DecodeEitherCase(s[2..]);
      assert ToLower(s)[2..] == ToLower(s[2..]);
      assert Hex.ValueOf(ToLower(s)[0]) == Hex.ValueOf(s[0]) && Hex.ValueOf(ToLower(s)[1]) == Hex.ValueOf(s[1]);
    }
  }

  /** "0x" is put in front of an allocated address that does not have it. */
  function Prefixed(addr: GoString): GoString {
    if |addr| >= 2 && [addr[0], addr[1]] == Ascii("0x") then addr else Ascii("0x") + addr
  }

  lemma GenesisAddressIs(addr: GoString)
    ensures SameLetters(GenesisAddress(addr), Prefixed(addr))
    ensures ToLower(GenesisAddress(addr)) == GenesisAddress(addr)
  {
    assert Ascii("0x") == [48, 120];
    LettersOnly(Prefixed(addr), GenesisAddress(addr));
    assert |addr| >= 2 ==> addr[..2] == [addr[0], addr[1]];
  }

  /** An allocation seeds the account at the address, with "0x" or without, in any letter case;
      and no account at an address that is not allocated. */
  lemma SeededAccount(before: Store, alloc: map<GoString, int>, after: Store, a: GoString)
    requires Seeded(before, alloc, after)
    ensures (forall addr :: addr in alloc ==> !SameLetters(a, Prefixed(addr))) ==>
      AccountAt(after, a) == AccountAt(before, a)
    ensures forall addr :: (addr in alloc && SameLetters(a, Prefixed(addr)) && DistinctAddresses(alloc) ==>
                              AccountAt(after, a) == Account(alloc[addr], 0, [], map[]))
  {
    forall addr | addr in alloc
      ensures GenesisAddress(addr) == ToLower(a) <==> SameLetters(a, Prefixed(addr))
    {
      GenesisAddressIs(addr);
      LettersOnly(a, Prefixed(addr));
      LettersOnly(GenesisAddress(addr), Prefixed(addr));
    }
    hide ToLower, SameLetters, GenesisAddress, Prefixed;
  }

  // ---- Which transactions are applied -----------------------------------------------------

  /** Whether a request fails this check, taken by itself. */
  predicate Fails(st: Store, r: Request, check: Reason) {
    match check
    case NilTransaction => r.tx.None?
    case NoBlockNumber => r.blockNumber == []
    case NoSender => r.tx.Some? && r.tx.value.sender.None?
    case NoReceipt => r.remote.gasUsed.None?
    case GasAboveLimit => r.tx.Some? && r.remote.gasUsed.Some? && r.remote.gasUsed.value > r.tx.value.gasLimit
    case InsufficientBalance =>
      && r.tx.Some? && r.tx.value.sender.Some? && r.remote.gasUsed.Some?
      && var tx := r.tx.value;
         var price := if tx.dynamicFee then tx.feeCap + tx.tipCap else tx.gasPrice;
         AccountAt(st, tx.sender.value).balance - tx.value - r.remote.gasUsed.value * price < 0
  }

  /** The order the checks are made in. */
  function Position(check: Reason): nat {
    match check
    case NilTransaction => 1
    case NoBlockNumber => 2
    case NoSender => 3
    case NoReceipt => 4
    case GasAboveLimit => 5
    case InsufficientBalance => 6
  }

  /** The outcome of a request: the first check that fails, or none does. */
  ghost predicate IsOutcome(st: Store, r: Request, outcome: Outcome) {
    match outcome
    case Applied => forall check :: !Fails(st, r, check)
    case Rejected(first) =>
      Fails(st, r, first) && forall check :: Position(check) < Position(first) ==> !Fails(st, r, check)
  }

  lemma OutcomeIs(st: Store, r: Request, outcome: Outcome)
    ensures outcome == Verdict(st, r) <==> IsOutcome(st, r, outcome)
  {
    hide AccountAt;
    forall check
      ensures outcome == Verdict(st, r) && outcome == Applied ==> !Fails(st, r, check)
    {
    }
    assert Verdict(st, r).Rejected? ==> Fails(st, r, Verdict(st, r).reason);
    assert outcome.Rejected? && Verdict(st, r).Rejected? && outcome != Verdict(st, r) ==>
      Position(outcome.reason) < Position(Verdict(st, r).reason) || Position(Verdict(st,
        r).reason) < Position(outcome.reason);
  }

  /** A request with a transaction, a block number, a sender and a receipt within the gas limit is
      applied just when the sender has the value and the used gas at the price of its kind. */
  lemma WhichApply(st: Store, r: Request)
    requires r.tx.Some? && r.blockNumber != [] && r.tx.value.sender.Some? && r.remote.gasUsed.Some?
    requires r.remote.gasUsed.value <= r.tx.value.gasLimit
    ensures var tx := r.tx.value;
      var price := if tx.dynamicFee then tx.feeCap + tx.tipCap else tx.gasPrice;
      Verdict(st, r) == Applied <==>
        AccountAt(st, tx.sender.value).balance - tx.value - r.remote.gasUsed.value * price >= 0
  {
    OutcomeIs(st, r, Applied);
    hide Verdict, AccountAt;
    forall check | check != InsufficientBalance
      ensures !Fails(st, r, check)
    {
    }
    assert (forall check :: !Fails(st, r, check)) <==> !Fails(st, r, InsufficientBalance);
  }

  // ---- What an applied transaction does to each account -----------------------------------

  /** The account at `a` once its transaction has been charged: the sender has lost the value and
      the used gas and been given the unused gas, and its nonce has moved on. */
  ghost function OnceCharged(st: Store, r: Request, a: GoString): Account
    requires r.tx.Some? && r.tx.value.sender.Some? && r.remote.gasUsed.Some?
  {
    var tx, gasUsed, acc := r.tx.value, r.remote.gasUsed.value, AccountAt(st, a);
    var price := if tx.dynamicFee then tx.feeCap + tx.tipCap else tx.gasPrice;
    if !SameLetters(a, tx.sender.value) then acc
    else Account(
      acc.balance - tx.value - gasUsed * price + (tx.gasLimit - gasUsed) * price,
      if acc.nonce == UINT64 - 1 then 0 else acc.nonce + 1,
      acc.code, acc.storage)
  }

  /** The account at `a` after an applied transaction. The recipient, or the new contract, whose
      address is made from the sender's and the sender's nonce, starts anew with the value; a
      recipient that has balance or nonce gains the value, and with code and data the fetched
      slots; everybody else is as charged. */
  ghost predicate IsAfter(create: AddressOf, st: Store, r: Request, a: GoString, after: Account)
    requires r.tx.Some? && r.tx.value.sender.Some? && r.remote.gasUsed.Some?
  {
    var tx, charged := r.tx.value, OnceCharged(st, r, a);
    match tx.to
    case None =>
      after == if SameLetters(a, create(tx.sender.value, AccountAt(st, tx.sender.value).nonce))
        then Account(tx.value, 0, [], map[]) else charged
    case Some(to) =>
      if !SameLetters(a, to) then after == charged
      else if charged.balance == 0 && charged.nonce == 0 then after == Account(tx.value, 0, [], map[])
      else
        && after.balance == charged.balance + tx.value && after.nonce == charged.nonce && after.code == charged.code
        && if charged.code != [] && tx.data != [] && r.remote.contract.Some?
           then Stores(charged.storage, to, r.remote.contract.value.storage, after.storage)
           else after.storage == charged.storage
  }

  /** The storage `after` has these slots of the contract `c`, and otherwise the old ones. */
  ghost predicate Stores(before: Storage, c: GoString, slots: map<GoString, GoString>, after: Storage) {
    forall d, k :: SlotValue(after, d, k) ==
                   if d == c && k in slots then Some(slots[k]) else SlotValue(before, d, k)
  }

  lemma SlotsStored(before: Storage, c: GoString, slots: map<GoString, GoString>)
    ensures Stores(before, c, slots, WithSlots(before, c, slots))
  {
  }

  lemma ChargedIs(st: Store, r: Request, a: GoString)
    requires Verdict(st, r) == Applied
    ensures AccountAt(Charged(st, r), a) == OnceCharged(st, r, a)
  {
    var tx, gasUsed := r.tx.value, r.remote.gasUsed.value;
    LettersOnly(a, tx.sender.value);
    hide ToLower, SameLetters;
    assert SenderBalance(AccountAt(st, tx.sender.value).balance, tx, gasUsed)
      == AccountAt(st, tx.sender.value).balance - tx.value - gasUsed * Price(tx) + (tx.gasLimit - gasUsed) * Price(tx);
  }

  /** The account at every address after an applied transaction. */
  lemma EachAccount(create: AddressOf, st: Store, r: Request, a: GoString)
    requires Verdict(st, r) == Applied
    ensures IsAfter(create, st, r, a, AccountAt(Processed(create, st, r), a))
  {
    ChargedIs(st, r, a);
    var tx, charged := r.tx.value, Charged(st, r);
    match tx.to {
      case None =>
        LettersOnly(a, Target(create, st, r));
      case Some(to) =>
        ChargedIs(st, r, to);
        LettersOnly(a, to);
        if r.remote.contract.Some? {
          SlotsStored(AccountAt(charged, to).storage, to, r.remote.contract.value.storage);
        }
    }
    hide ToLower, SameLetters, OnceCharged, Charged, WithSlots, Stores, Verdict;
    assert AccountAt(charged, a) == OnceCharged(st, r, a);
  }

  /** The accounts in the store: the sender's and the recipient's are there afterwards. */
  lemma AddressesAfter(create: AddressOf, st: Store, r: Request)
    requires Verdict(st, r) == Applied
    ensures Processed(create, st, r).Keys ==
      st.Keys + {ToLower(r.tx.value.sender.value), ToLower(Recipient(create, st, r))}
  {
    hide ToLower, AccountAt, Verdict, WithSlots;
  }

  /** Nobody but the sender and the recipient, or the new contract, sees a transaction. */
  lemma OthersUntouched(create: AddressOf, st: Store, r: Request, a: GoString)
    requires Verdict(st, r) == Applied ==>
      !SameLetters(a, r.tx.value.sender.value) && !SameLetters(a, Recipient(create, st, r))
    ensures AccountAt(Processed(create, st, r), a) == AccountAt(st, a)
  {
    if Verdict(st, r) == Applied {
      EachAccount(create, st, r, a);
    }
    hide Verdict, SameLetters, AccountAt;
  }

  /** The price per unit of gas, as the sender sees it: where all gas is used, a sender that does
      not pay itself loses the value and the gas limit at the price of the kind of transaction. */
  lemma FullGasCharge(create: AddressOf, st: Store, r: Request)
    requires Verdict(st, r) == Applied && r.remote.gasUsed.value == r.tx.value.gasLimit
    requires !SameLetters(r.tx.value.sender.value, Recipient(create, st, r))
    ensures var tx := r.tx.value;
      var before, after := AccountAt(st, tx.sender.value), AccountAt(Processed(create, st, r), tx.sender.value);
      before.balance - after.balance ==
        tx.value + tx.gasLimit * (if tx.dynamicFee then tx.feeCap + tx.tipCap else tx.gasPrice)
  {
    EachAccount(create, st, r, r.tx.value.sender.value);
    hide Verdict, AccountAt, Processed;
    assert SameLetters(r.tx.value.sender.value, r.tx.value.sender.value);
  }

  // ---- What a block reward does to each account -------------------------------------------

  /** How much more the signer has after the reward. */
  ghost function Gain(st: Store, b: Block, signer: GoString): int {
    AccountAt(Rewarded(st, b, signer), signer).balance - AccountAt(st, signer).balance
  }

  /** Only the signer's balance changes. Without a block number or a signer nothing does. */
  lemma OnlySignerGains(st: Store, b: Block, signer: GoString, a: GoString)
    ensures b.number == [] || signer == [] ==> Rewarded(st, b, signer) == st
    ensures var before, after := AccountAt(st, a), AccountAt(Rewarded(st, b, signer), a);
      && after.nonce == before.nonce && after.code == before.code && after.storage == before.storage
      && after.balance == before.balance + (if SameLetters(a, signer) then Gain(st, b, signer) else 0)
  {
    LettersOnly(a, signer);
    hide ToLower, SameLetters, Fees;
  }

  /** Blocks without transactions, and transactions without a receipt, give nothing. */
  lemma NothingGained(st: Store, b: Block, signer: GoString)
    requires forall t :: t in b.txs ==> t.gasUsed.None?
    ensures Gain(st, b, signer) == 0
  {
    NoFees(b.txs, b.baseFee);
    hide ToLower, Fees;
  }

  lemma {:induction false} NoFees(txs: seq<RewardTx>, baseFee: int)
    requires forall t :: t in txs ==> t.gasUsed.None?
    ensures Fees(txs, baseFee) == 0
  {
    if |txs| == 0 {
    } else {
      NoFees(txs[..|txs| - 1], baseFee);
      assert txs[|txs| - 1] in txs;
    }
  }

  /** A block of one transaction with a receipt. A type-2 transaction gives its gas used times its
      tip. An older one whose price is not below the base fee gives the gas used times the price,
      less the gas used times the base fee; one whose price is below gives nothing. */
  lemma GainOfOne(st: Store, b: Block, signer: GoString, t: RewardTx)
    requires b.number != [] && signer != [] && b.txs == [t] && t.gasUsed.Some?
    ensures var gain, used := Gain(st, b, signer), t.gasUsed.value;
      && (t.tx.dynamicFee ==> gain == used * t.tx.tipCap)
      && (!t.tx.dynamicFee && t.tx.gasPrice >= b.baseFee ==> gain + used * b.baseFee == used * t.tx.gasPrice)
      && (!t.tx.dynamicFee && t.tx.gasPrice < b.baseFee ==> gain == 0)
  {
    assert b.txs[..0] == [];
    assert Fees(b.txs, b.baseFee) == t.gasUsed.value * PriorityFee(t.tx, b.baseFee);
    Distribute(t.gasUsed.value, PriorityFee(t.tx, b.baseFee), b.baseFee);
    hide ToLower, Fees;
  }

  /** What the parts of a block give adds up. */
  lemma GainAddsUp(st: Store, b: Block, c: Block, signer: GoString)
    requires c.number == b.number && c.baseFee == b.baseFee
    ensures Gain(st, b.(txs := b.txs + c.txs), signer) == Gain(st, b, signer) + Gain(st, c, signer)
  {
    FeesAddUp(b.txs, c.txs, b.baseFee);
    hide ToLower, Fees;
  }

  lemma {:induction false} FeesAddUp(xs: seq<RewardTx>, ys: seq<RewardTx>, baseFee: int)
    ensures Fees(xs + ys, baseFee) == Fees(xs, baseFee) + Fees(ys, baseFee)
  {
    if |ys| == 0 {
      assert xs + ys == xs;
    } else {
      var init, last := ys[..|ys| - 1], ys[|ys| - 1];
      FeesAddUp(xs, init, baseFee);
      assert (xs + ys)[..|xs + ys| - 1] == xs + init;
    }
  }

  /** What an event adds to the total balance, in amounts: an applied transaction its unused gas
      less its used gas, at its price, and a reward what the signer gains. */
  lemma MintedInAmounts(st: Store, e: Event)
    ensures match e
      case Transaction(r) =>
        if Verdict(st, r) == Applied then
          var tx, used := r.tx.value, r.remote.gasUsed.value;
          var price := if tx.dynamicFee then tx.feeCap + tx.tipCap else tx.gasPrice;
          Minted(st, e) == (tx.gasLimit - used) * price - used * price
        else Minted(st, e) == 0
      case Reward(b, signer) => Minted(st, e) == Gain(st, b, signer)
  {
    match e
    case Transaction(r) =>
      if Verdict(st, r) == Applied {
        var used: int := r.remote.gasUsed.value;
        Distribute(Price(r.tx.value), r.tx.value.gasLimit - used, -used);
      }
      hide ToLower, AccountAt;
    case Reward(b, signer) =>
      hide ToLower, Fees;
  }
}
