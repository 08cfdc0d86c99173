/** What holds of the account store over whole runs. */
module LedgerTheorems {
  import opened Bytes
  import opened Accounts
  import opened Ledger
  import Hex
  import StorageOrder
  import StateRoot
  import AccountTrie

  // ---- Total balance ----------------------------------------------------------------------

  ghost function Total(st: Store): int {
    if st == map[] then 0
    else
      var k :| k in st;
      st[k].balance + Total(st - {k})
  }

  lemma {:induction false} TotalWithout(st: Store, k: GoString)
    requires k in st
    ensures Total(st) == st[k].balance + Total(st - {k})
    decreases |st|
  {
    var c: GoString :| c in st && Total(st) == st[c].balance + Total(st - {c});
    if c != k {
      TotalWithout(st - {c}, k);
      TotalWithout(st - {k}, c);
      assert st - {c} - {k} == st - {k} - {c};
    }
  }

  lemma TotalSaved(st: Store, addr: GoString, acc: Account)
    ensures Total(Saved(st, addr, acc)) == Total(st) - AccountAt(st, addr).balance + acc.balance
  {
    hide ToLower;
    var k := ToLower(addr);
    var after := Saved(st, addr, acc);
    TotalWithout(after, k);
    if k in st {
      TotalWithout(st, k);
      assert after - {k} == st - {k};
    } else {
      assert after - {k} == st;
    }
  }

  // ---- Runs -------------------------------------------------------------------------------

  datatype Event = Transaction(request: Request) | Reward(block: Block, signer: GoString)

  function After(create: AddressOf, st: Store, e: Event): Store {
    match e
    case Transaction(r) => Processed(create, st, r)
    case Reward(b, signer) => Rewarded(st, b, signer)
  }

  function AfterAll(create: AddressOf, st: Store, es: seq<Event>): Store {
    if |es| == 0 then st else After(create, AfterAll(create, st, es[..|es| - 1]), es[|es| - 1])
  }

  function Before(create: AddressOf, st: Store, es: seq<Event>): Store
    requires |es| > 0
  {
    AfterAll(create, st, es[..|es| - 1])
  }

  predicate IsApplied(st: Store, e: Event) {
    e.Transaction? && Verdict(st, e.request) == Applied
  }

  predicate Creates(st: Store, e: Event) {
    IsApplied(st, e) && e.request.tx.value.to.None?
  }

  // ---- The ledger identity ----------------------------------------------------------------

  /** What an event adds to the total: an applied transaction
      (gasLimit - 2 * gasUsed) * gasPrice, a reward its fees. */
  function Minted(st: Store, e: Event): int {
    match e
    case Transaction(r) =>
      if Verdict(st, r) != Applied then 0
      else (r.tx.value.gasLimit - 2 * r.remote.gasUsed.value) * Price(r.tx.value)
    case Reward(b, signer) => if b.number == [] || signer == [] then 0 else Fees(b.txs, b.baseFee)
  }

  /** The balance a contract creation wipes out at its target. */
  function Overwritten(create: AddressOf, st: Store, e: Event): int {
    if Creates(st, e) then AccountAt(Charged(st, e.request), Target(create, st, e.request)).balance else 0
  }

  lemma SenderBalanceIs(balance: int, tx: Tx, gasUsed: nat)
    requires gasUsed <= tx.gasLimit
    ensures SenderBalance(balance, tx, gasUsed) == balance - tx.value + (tx.gasLimit - 2 * gasUsed) * Price(tx)
  {
    var p: int, used: int, rest: int := Price(tx), gasUsed, tx.gasLimit - gasUsed;
    Distribute(p, rest, -used);
    assert (-used) * p == -(used * p);
  }

  lemma TotalStep(create: AddressOf, st: Store, e: Event)
    ensures Total(After(create, st, e)) == Total(st) + Minted(st, e) - Overwritten(create, st, e)
  {
    hide ToLower, Total, Price, SenderBalance, Fees, AccountAt;
    match e
    case Transaction(r) =>
      if Verdict(st, r) == Applied {
        var tx := r.tx.value;
        var acc := AccountAt(st, tx.sender.value);
        SenderBalanceIs(acc.balance, tx, r.remote.gasUsed.value);
        var charged := SenderBalance(acc.balance, tx, r.remote.gasUsed.value);
        TotalSaved(st, tx.sender.value, acc.(balance := charged, nonce := NextNonce(acc.nonce)));
        match tx.to {
          case None => TotalSaved(Charged(st, r), Target(create, st, r), NewAccount(tx.value));
          case Some(to) => TotalCredited(Charged(st, r), tx, to, r.remote);
        }
      }
    case Reward(b, signer) =>
      var acc := AccountAt(st, signer);
      TotalSaved(st, signer, acc.(balance := acc.balance + Fees(b.txs, b.baseFee), nonce := acc.nonce));
  }

  lemma TotalCredited(st: Store, tx: Tx, to: GoString, remote: Remote)
    ensures Total(Credited(st, tx, to, remote)) == Total(st) + tx.value
  {
    hide ToLower, Total, AccountAt, WithSlots;
    var acc := AccountAt(st, to);
    if acc.balance == 0 && acc.nonce == 0 {
      TotalSaved(st, to, NewAccount(tx.value));
    } else {
      var storage := if |acc.code| > 0 && |tx.data| > 0 && remote.contract.Some?
        then WithSlots(acc.storage, to, remote.contract.value.storage) else acc.storage;
      TotalSaved(st, to, acc.(balance := acc.balance + tx.value, storage := storage));
    }
  }

  function MintedAll(create: AddressOf, st: Store, es: seq<Event>): int {
    if |es| == 0 then 0
    else MintedAll(create, st, es[..|es| - 1]) + Minted(Before(create, st, es), es[|es| - 1])
  }

  function OverwrittenAll(create: AddressOf, st: Store, es: seq<Event>): int {
    if |es| == 0 then 0
    else OverwrittenAll(create, st, es[..|es| - 1]) + Overwritten(create, Before(create, st, es), es[|es| - 1])
  }

  /** Over every run, the total balance is the initial one, plus
      (gasLimit - 2 * gasUsed) * gasPrice for every applied transaction and the fees of every
      reward, less what contract creations overwrote. */
  lemma {:induction false} LedgerIdentity(create: AddressOf, st: Store, es: seq<Event>)
    ensures Total(AfterAll(create, st, es)) == Total(st) + MintedAll(create, st, es) - OverwrittenAll(create, st, es)
  {
    hide After, Minted, Overwritten, Total;
    if |es| == 0 {
    } else {
      LedgerIdentity(create, st, es[..|es| - 1]);
      TotalStep(create, Before(create, st, es), es[|es| - 1]);
    }
  }

  /** Every contract creation of the run finds its target unused. */
  ghost predicate FreshTargets(create: AddressOf, st: Store, es: seq<Event>) {
    if |es| == 0 then true
    else
      var before, e := Before(create, st, es), es[|es| - 1];
      && FreshTargets(create, st, es[..|es| - 1])
      && (Creates(before, e) ==> ToLower(Target(create, before, e.request)) !in Charged(before, e.request))
  }

  /** With fresh targets nothing is overwritten. */
  lemma {:induction false} FreshLedgerIdentity(create: AddressOf, st: Store, es: seq<Event>)
    requires FreshTargets(create, st, es)
    ensures Total(AfterAll(create, st, es)) == Total(st) + MintedAll(create, st, es)
  {
    hide Total;
    LedgerIdentity(create, st, es);
    NothingOverwritten(create, st, es);
  }

  lemma {:induction false} NothingOverwritten(create: AddressOf, st: Store, es: seq<Event>)
    requires FreshTargets(create, st, es)
    ensures OverwrittenAll(create, st, es) == 0
  {
    hide After, Charged, Target, ToLower;
    if |es| == 0 {
    } else {
      NothingOverwritten(create, st, es[..|es| - 1]);
    }
  }

  // ---- Balances stay non-negative ---------------------------------------------------------

  ghost predicate NonNegative(st: Store) {
    forall k :: k in st ==> st[k].balance >= 0
  }

  lemma {:induction false} FeesNonNegative(txs: seq<RewardTx>, baseFee: int)
    ensures Fees(txs, baseFee) >= 0
  {
    if |txs| == 0 {
    } else {
      FeesNonNegative(txs[..|txs| - 1], baseFee);
      var last := txs[|txs| - 1];
      if last.gasUsed.Some? {
        MulNonNegative(last.gasUsed.value, PriorityFee(last.tx, baseFee));
      }
    }
  }

  lemma MulNonNegative(a: int, b: int)
    requires a >= 0 && b >= 0
    ensures a * b >= 0
  {
  }

  lemma StepNonNegative(create: AddressOf, st: Store, e: Event)
    requires NonNegative(st)
    ensures NonNegative(After(create, st, e))
  {
    hide ToLower, Price, Fees, WithSlots;
    match e
    case Transaction(r) =>
      if Verdict(st, r) == Applied {
        MulNonNegative(r.tx.value.gasLimit - r.remote.gasUsed.value, Price(r.tx.value));
        assert NonNegative(Charged(st, r));
      }
    case Reward(b, signer) => FeesNonNegative(b.txs, b.baseFee);
  }

  lemma {:induction false} RunNonNegative(create: AddressOf, st: Store, es: seq<Event>)
    requires NonNegative(st)
    ensures NonNegative(AfterAll(create, st, es))
  {
    hide After, NonNegative;
    if |es| == 0 {
    } else {
      RunNonNegative(create, st, es[..|es| - 1]);
      StepNonNegative(create, Before(create, st, es), es[|es| - 1]);
    }
  }

  // ---- The price --------------------------------------------------------------------------

  /** The effective gas price of a type-2 transaction, from the Specification of EIP-1559. */
  function EffectivePrice(tx: Tx, baseFee: nat): nat
    requires baseFee <= tx.feeCap
  {
    baseFee + (if tx.tipCap < tx.feeCap - baseFee then tx.tipCap else tx.feeCap - baseFee)
  }

  /** The price charged is never below the effective one, and equal to it just when there is no
      tip and the fee cap is the base fee. */
  lemma PriceIsEffective(tx: Tx, baseFee: nat)
    requires tx.dynamicFee && baseFee <= tx.feeCap
    ensures Price(tx) >= EffectivePrice(tx, baseFee)
    ensures Price(tx) == EffectivePrice(tx, baseFee) <==> tx.tipCap == 0 && tx.feeCap == baseFee
  {
  }

  // ---- What a sender pays -----------------------------------------------------------------

  /** A sender pays the value, unless to itself, and the gas used, and is given the unused gas on
      top. So the intended law, that it pays the value and exactly the gas used, holds just when
      all gas was used or gas is free. A creation that hits the sender's own address leaves it
      with the value instead. */
  lemma DebitLaw(create: AddressOf, st: Store, r: Request)
    requires Verdict(st, r) == Applied
    ensures var tx, gasUsed := r.tx.value, r.remote.gasUsed.value;
      var from := tx.sender.value;
      var price := if tx.dynamicFee then tx.feeCap + tx.tipCap else tx.gasPrice;
      var before, after := AccountAt(st, from).balance, AccountAt(Processed(create, st, r), from).balance;
      var paid := if tx.to.Some? && ToLower(tx.to.value) == ToLower(from) then 0 else tx.value;
      if tx.to.None? && ToLower(Target(create, st, r)) == ToLower(from) then after == tx.value
      else
        && after == before - paid - gasUsed * price + (tx.gasLimit - gasUsed) * price
        && (after == before - paid - gasUsed * price <==> gasUsed == tx.gasLimit || price == 0)
  {
    var tx, gasUsed := r.tx.value, r.remote.gasUsed.value;
    var p, rest := Price(tx), tx.gasLimit - gasUsed;
    assert p == if tx.dynamicFee then tx.feeCap + tx.tipCap else tx.gasPrice;
    hide ToLower, Price, WithSlots;
    if rest > 0 && p > 0 {
      ProductPositive(rest, p);
    }
  }

  /** An address of 40 equal digits, which every letter case leaves as it is. */
  function SampleAddress(digit: byte): (addr: GoString)
    requires 48 <= digit <= 57
    ensures StateRoot.Canonical(addr) && ToLower(addr) == addr && addr[2] == digit
  {
    var addr := Hex.PREFIX + seq(40, _ => digit);
    assert addr[..2] == Hex.PREFIX;
    assert ToLower(addr) == addr;
    addr
  }

  /** A transfer of 4 that uses 1 of 3 gas at price 2: the sender has 10 and keeps 8, where it
      should keep 4, and the total balance goes from 10 to 12. */
  lemma UnusedGasIsPaidOut(create: AddressOf) returns (st: Store, r: Request)
    ensures Verdict(st, r) == Applied && Total(st) == 10 && Total(Processed(create, st, r)) == 12
    ensures AccountAt(st, r.tx.value.sender.value).balance == 10
    ensures AccountAt(Processed(create, st, r), r.tx.value.sender.value).balance == 8
  {
    var from, to := SampleAddress(49), SampleAddress(50);
    hide ToLower;
    st := map[from := NewAccount(10)];
    r := Request(Some(Tx(Some(from), false, 2, 0, 0, 3, 4, Some(to), [])), [49], Remote(Some(1), None));
    TotalWithout(st, from);
    assert st - {from} == map[];
    TotalStep(create, st, Transaction(r));
  }

  /** A type-2 transfer with fee cap 3 and tip 1 in a block with base fee 1 uses 1 of 1 gas: its
      sender pays 4, where the effective price is 2. */
  lemma TipChargedOnTop(create: AddressOf) returns (st: Store, r: Request)
    ensures Verdict(st, r) == Applied && r.tx.value.dynamicFee && r.tx.value.value == 0
    ensures r.remote.gasUsed == Some(1) && r.tx.value.gasLimit == 1 && r.tx.value.feeCap == 3
      && EffectivePrice(r.tx.value, 1) == 2
    ensures AccountAt(st, r.tx.value.sender.value).balance == 10
    ensures AccountAt(Processed(create, st, r), r.tx.value.sender.value).balance == 6
  {
    var from, to := SampleAddress(49), SampleAddress(50);
    hide ToLower;
    st := map[from := NewAccount(10)];
    r := Request(Some(Tx(Some(from), true, 0, 3, 1, 1, 0, Some(to), [])), [49], Remote(Some(1), None));
    DebitLaw(create, st, r);
  }

  /** A contract creation for which the node answers with code, and the account that is stored
      has none. */
  lemma FetchedCodeIsLost(create: AddressOf) returns (st: Store, r: Request)
    ensures Verdict(st, r) == Applied && r.tx.value.to.None? && r.tx.value.data != []
    ensures r.remote.contract.Some? && r.remote.contract.value.code != []
    ensures AccountAt(Processed(create, st, r), Target(create, st, r)) == NewAccount(0)
  {
    var from := SampleAddress(49);
    hide ToLower;
    st := map[from := NewAccount(10)];
    var answer := Remote(Some(1), Some(Contract(map[], [96])));
    r := Request(Some(Tx(Some(from), false, 2, 0, 0, 1, 0, None, [96])), [49], answer);
  }

  lemma ProductPositive(a: int, b: int)
    requires a > 0 && b > 0
    ensures a * b > 0
  {
  }

  // ---- Nonces -----------------------------------------------------------------------------

  predicate SentBy(st: Store, e: Event, a: GoString) {
    IsApplied(st, e) && ToLower(e.request.tx.value.sender.value) == ToLower(a)
  }

  function AppliedFrom(create: AddressOf, st: Store, es: seq<Event>, a: GoString): nat {
    if |es| == 0 then 0
    else AppliedFrom(create, st, es[..|es| - 1], a) + (if SentBy(Before(create, st, es), es[|es| - 1], a) then 1 else 0)
  }

  predicate IsTarget(create: AddressOf, st: Store, e: Event, a: GoString) {
    Creates(st, e) && ToLower(Target(create, st, e.request)) == ToLower(a)
  }

  predicate NeverTarget(create: AddressOf, st: Store, es: seq<Event>, a: GoString) {
    if |es| == 0 then true
    else NeverTarget(create, st, es[..|es| - 1], a) && !IsTarget(create, Before(create, st, es), es[|es| - 1], a)
  }

  lemma NonceStep(create: AddressOf, st: Store, e: Event, a: GoString)
    requires !IsTarget(create, st, e, a)
    ensures AccountAt(After(create, st, e), a).nonce ==
      if SentBy(st, e, a) then NextNonce(AccountAt(st, a).nonce) else AccountAt(st, a).nonce
  {
    hide ToLower, Price, SenderBalance, Fees, WithSlots;
  }

  /** An account that no contract creation overwrites counts, as a uint64, exactly its applied
      transactions, although crediting an unused account writes nonce 0. */
  lemma {:induction false} NonceCounts(create: AddressOf, st: Store, es: seq<Event>, a: GoString)
    requires NeverTarget(create, st, es, a)
    ensures AccountAt(AfterAll(create, st, es), a).nonce ==
      (AccountAt(st, a).nonce + AppliedFrom(create, st, es, a)) % UINT64
  {
    hide After, AccountAt, IsTarget, SentBy;
    if |es| == 0 {
    } else {
      NonceCounts(create, st, es[..|es| - 1], a);
      NonceStep(create, Before(create, st, es), es[|es| - 1], a);
    }
  }

  // ---- Code and storage never arrive ------------------------------------------------------

  ghost predicate Bare(st: Store) {
    forall k :: k in st ==> st[k].code == [] && st[k].storage == map[]
  }

  /** No event leaves code or storage in the store: a creation overwrites the slots it has just
      stored, and the call path stores slots only where there is code already. */
  lemma StepBare(create: AddressOf, st: Store, e: Event)
    requires Bare(st)
    ensures Bare(After(create, st, e))
  {
    hide ToLower, Price, SenderBalance, Fees, WithSlots;
    match e
    case Transaction(r) =>
      if Verdict(st, r) == Applied {
        assert Bare(Charged(st, r));
      }
    case Reward(_, _) =>
  }

  lemma {:induction false} RunBare(create: AddressOf, st: Store, es: seq<Event>)
    requires Bare(st)
    ensures Bare(AfterAll(create, st, es))
  {
    hide After, Bare;
    if |es| == 0 {
    } else {
      RunBare(create, st, es[..|es| - 1]);
      StepBare(create, Before(create, st, es), es[|es| - 1]);
    }
  }

  /** Whatever the store holds, a processed transaction changes the code of no account but one
      it creates anew, which then has none. */
  lemma CodeIsNeverStored(create: AddressOf, st: Store, r: Request, a: GoString)
    ensures AccountAt(Processed(create, st, r), a).code ==
      if MadeAnew(create, st, r, a) then [] else AccountAt(st, a).code
  {
    hide ToLower, Price, SenderBalance, WithSlots;
  }

  /** The account at `a` is replaced: it is the target of a creation, or the recipient of a
      transfer and has neither balance nor nonce once the sender has been charged. */
  predicate MadeAnew(create: AddressOf, st: Store, r: Request, a: GoString) {
    Verdict(st, r) == Applied && ToLower(a) == ToLower(Recipient(create, st, r)) &&
    (r.tx.value.to.Some? ==>
       AccountAt(Charged(st, r), a).balance == 0 && AccountAt(Charged(st, r), a).nonce == 0)
  }

  function Recipient(create: AddressOf, st: Store, r: Request): GoString
    requires Verdict(st, r) == Applied
  {
    match r.tx.value.to
    case None => Target(create, st, r)
    case Some(to) => to
  }

  /** So the recipient ends up with the code that was fetched for it just when that is empty, if
      it was made anew, or the code it had, if not. */
  lemma InstalledCodeIsFetched(create: AddressOf, st: Store, r: Request)
    requires Verdict(st, r) == Applied && r.remote.contract.Some?
    ensures var to, fetched := Recipient(create, st, r), r.remote.contract.value.code;
      AccountAt(Processed(create, st, r), to).code == fetched <==>
        fetched == if MadeAnew(create, st, r, to) then [] else AccountAt(st, to).code
  {
    CodeIsNeverStored(create, st, r, Recipient(create, st, r));
  }

  /** Some transaction of the run makes the account at `a` anew. */
  ghost predicate EverMadeAnew(create: AddressOf, st: Store, es: seq<Event>, a: GoString) {
    if |es| == 0 then false
    else
      var before, e := Before(create, st, es), es[|es| - 1];
      EverMadeAnew(create, st, es[..|es| - 1], a) || (e.Transaction? && MadeAnew(create, before, e.request, a))
  }

  /** Over every run, whatever code is fetched: an account has the code it began with, or none
      from the moment it is made anew. */
  lemma {:induction false} CodeOverRuns(create: AddressOf, st: Store, es: seq<Event>, a: GoString)
    ensures AccountAt(AfterAll(create, st, es), a).code ==
      if EverMadeAnew(create, st, es, a) then [] else AccountAt(st, a).code
  {
    if |es| == 0 {
    } else {
      CodeOverRuns(create, st, es[..|es| - 1], a);
      var before, e := Before(create, st, es), es[|es| - 1];
      CodeStep(create, before, e, a);
    }
  }

  lemma CodeStep(create: AddressOf, st: Store, e: Event, a: GoString)
    ensures AccountAt(After(create, st, e), a).code ==
      if e.Transaction? && MadeAnew(create, st, e.request, a) then [] else AccountAt(st, a).code
  {
    hide ToLower, Price, SenderBalance, WithSlots, Fees, MadeAnew;
    match e
    case Transaction(r) => CodeIsNeverStored(create, st, r, a);
    case Reward(_, _) =>
  }

  // ---- Addresses keep their form ----------------------------------------------------------

  /** "0x" and 40 hex digits, in either letter case. */
  ghost predicate HexAddress(addr: GoString) {
    StateRoot.Canonical(ToLower(addr))
  }

  ghost predicate GoodAddresses(create: AddressOf, e: Event) {
    && (forall s, n :: HexAddress(create(s, n)))
    && match e
       case Transaction(r) => r.tx.Some? ==>
         (r.tx.value.sender.Some? ==> HexAddress(r.tx.value.sender.value))
           && (r.tx.value.to.Some? ==> HexAddress(r.tx.value.to.value))
       case Reward(_, signer) => HexAddress(signer)
  }

  lemma StepCanonical(create: AddressOf, st: Store, e: Event)
    requires StateRoot.AllCanonical(st) && GoodAddresses(create, e)
    ensures StateRoot.AllCanonical(After(create, st, e))
  {
    hide ToLower, StateRoot.Canonical, Price, SenderBalance, Fees, WithSlots, AccountAt;
    match e
    case Transaction(r) =>
      if Verdict(st, r) == Applied {
        assert HexAddress(r.tx.value.sender.value);
        assert StateRoot.AllCanonical(Charged(st, r));
        assert HexAddress(Target(create, st, r));
      }
    case Reward(_, signer) => assert HexAddress(signer);
  }

  /** So the trie keys of a reachable store all have 20 bytes, as the trie needs. */
  lemma {:induction false} RunCanonical(create: AddressOf, st: Store, es: seq<Event>)
    requires StateRoot.AllCanonical(st) && forall e :: e in es ==> GoodAddresses(create, e)
    ensures StateRoot.AllCanonical(AfterAll(create, st, es))
  {
    hide After, GoodAddresses, StateRoot.AllCanonical;
    if |es| == 0 {
    } else {
      RunCanonical(create, st, es[..|es| - 1]);
      StepCanonical(create, Before(create, st, es), es[|es| - 1]);
    }
  }

  /** No account ever disappears. */
  lemma {:induction false} RunKeepsAccounts(create: AddressOf, st: Store, es: seq<Event>)
    ensures st.Keys <= AfterAll(create, st, es).Keys
  {
    if |es| == 0 {
    } else {
      RunKeepsAccounts(create, st, es[..|es| - 1]);
      StepKeepsAccounts(create, Before(create, st, es), es[|es| - 1]);
    }
  }

  lemma StepKeepsAccounts(create: AddressOf, st: Store, e: Event)
    ensures st.Keys <= After(create, st, e).Keys
  {
    hide ToLower, Price, SenderBalance, Fees, WithSlots, AccountAt;
  }

  // ---- From genesis -----------------------------------------------------------------------

  lemma GenesisIsBare(alloc: map<GoString, int>, st: Store)
    requires Seeded(map[], alloc, st)
    ensures Bare(st)
    ensures (forall a :: a in alloc ==> alloc[a] >= 0) ==> NonNegative(st)
  {
    hide GenesisAddress;
  }

  lemma BareIsOrderFree(st: Store)
    requires Bare(st)
    ensures StateRoot.OrderFree(st)
  {
    forall a | a in st
      ensures StorageOrder.OneEntry(st[a].storage)
    {
    }
  }

  /** At every transaction boundary of every run from genesis, the records behind the state root
      are determined by the store: the unordered iteration over storage has nothing to order. */
  lemma OneRootPerStore(create: AddressOf, alloc: map<GoString, int>, genesis: Store, es: seq<Event>,
                        x: AccountTrie.Records, y: AccountTrie.Records)
    requires Seeded(map[], alloc, genesis)
    requires var st := AfterAll(create, genesis, es);
      StateRoot.Represents(st, st.Keys, x) && StateRoot.Represents(st, st.Keys, y)
    ensures x == y
  {
    hide AfterAll, Seeded, StateRoot.Represents;
    var st := AfterAll(create, genesis, es);
    GenesisIsBare(alloc, genesis);
    RunBare(create, genesis, es);
    BareIsOrderFree(st);
    StateRoot.SameRecords(st, x, y);
  }

  ghost function Allocated(alloc: map<GoString, int>): int {
    if alloc == map[] then 0
    else
      var a :| a in alloc;
      alloc[a] + Allocated(alloc - {a})
  }

  ghost predicate DistinctAddresses(alloc: map<GoString, int>) {
    forall a, b :: a in alloc && b in alloc && GenesisAddress(a) == GenesisAddress(b) ==> a == b
  }

  /** With distinct addresses the genesis supply is the sum of the allocation. */
  lemma {:induction false} GenesisSupply(alloc: map<GoString, int>, st: Store)
    requires Seeded(map[], alloc, st) && DistinctAddresses(alloc)
    ensures Total(st) == Allocated(alloc)
    decreases |alloc|
  {
    hide GenesisAddress, Seeded, DistinctAddresses;
    if alloc == map[] {
      SeededEmpty(st);
    } else {
      var a: GoString :| a in alloc && Allocated(alloc) == alloc[a] + Allocated(alloc - {a});
      var k := GenesisAddress(a);
      SeededLess(alloc, st, a);
      TotalWithout(st, k);
      GenesisSupply(alloc - {a}, st - {k});
    }
  }

  /** From genesis, with contract creations at unused addresses, the total balance is at all
      times the allocation plus what was minted. */
  lemma SupplyFromGenesis(create: AddressOf, alloc: map<GoString, int>, genesis: Store, es: seq<Event>)
    requires Seeded(map[], alloc, genesis) && DistinctAddresses(alloc) && FreshTargets(create, genesis, es)
    ensures Total(AfterAll(create, genesis, es)) == Allocated(alloc) + MintedAll(create, genesis, es)
  {
    hide Total, Seeded, DistinctAddresses, Allocated;
    GenesisSupply(alloc, genesis);
    FreshLedgerIdentity(create, genesis, es);
  }

  lemma SeededEmpty(st: Store)
    requires Seeded(map[], map[], st)
    ensures st == map[]
  {
    assert st.Keys == {};
  }

  lemma SeededLess(alloc: map<GoString, int>, st: Store, a: GoString)
    requires Seeded(map[], alloc, st) && DistinctAddresses(alloc) && a in alloc
    ensures GenesisAddress(a) in st && st[GenesisAddress(a)] == NewAccount(alloc[a])
    ensures Seeded(map[], alloc - {a}, st - {GenesisAddress(a)}) && DistinctAddresses(alloc - {a})
  {
    hide GenesisAddress;
    var k := GenesisAddress(a);
    var less, rest := alloc - {a}, st - {k};
    forall b | b in less
      ensures GenesisAddress(b) in rest
    {
      assert b in alloc && GenesisAddress(b) != k;
    }
    forall j | j in rest
      ensures exists b :: b in less && GenesisAddress(b) == j && rest[j] == NewAccount(less[b])
    {
      var b :| b in alloc && GenesisAddress(b) == j && st[j] == NewAccount(alloc[b]);
      assert b in less;
    }
  }
}
