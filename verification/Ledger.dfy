/** The account store and what one transaction, one block reward and the genesis do to it. */
module Ledger {
  import opened Bytes
  import opened Accounts
  import Hex

  // ---- The store --------------------------------------------------------------------------

  /** strings.ToLower on ASCII. */
  function ToLower(s: GoString): (r: GoString)
    ensures |r| == |s|
  {
    seq(|s|, i requires 0 <= i < |s| => if 65 <= s[i] <= 90 then s[i] + 32 else s[i])
  }

  /** Accounts by lower-case address. */
  type Store = map<GoString, Account>

  function NewAccount(balance: int): Account {
    Account(balance, 0, [], map[])
  }

  /** GetAccount: a missing account reads as an empty one. */
  function AccountAt(st: Store, addr: GoString): Account {
    if ToLower(addr) in st then st[ToLower(addr)] else NewAccount(0)
  }

  function Saved(st: Store, addr: GoString, acc: Account): Store {
    st[ToLower(addr) := acc]
  }

  /** UpdateAccount: code and storage are kept. */
  function Updated(st: Store, addr: GoString, balance: int, nonce: uint64): Store {
    Saved(st, addr, AccountAt(st, addr).(balance := balance, nonce := nonce))
  }

  /** The storage after SetStorage(addr, c, k, v) for every slot. */
  function WithSlots(storage: map<GoString, map<GoString, GoString>>, c: GoString, slots: map<GoString, GoString>)
    : map<GoString, map<GoString, GoString>>
  {
    if slots == map[] then storage
    else storage[c := (if c in storage then storage[c] else map[]) + slots]
  }

  // ---- Transactions -----------------------------------------------------------------------

  /** `sender` is what signature recovery gives, `to` is none for a contract creation. */
  datatype Tx = Tx(
    sender: Option<GoString>, dynamicFee: bool, gasPrice: nat, feeCap: nat, tipCap: nat,
    gasLimit: uint64, value: nat, to: Option<GoString>, data: seq<byte>)

  datatype Contract = Contract(storage: map<GoString, GoString>, code: seq<byte>)

  /** What the Ethereum node answers for a transaction; none stands for an error. */
  datatype Remote = Remote(gasUsed: Option<nat>, contract: Option<Contract>)

  /** crypto.CreateAddress, as lower-case text. */
  type AddressOf = (GoString, uint64) -> GoString

  datatype Reason = NilTransaction | NoBlockNumber | NoSender | NoReceipt | GasAboveLimit | InsufficientBalance

  datatype Outcome = Applied | Rejected(reason: Reason)

  datatype Request = Request(tx: Option<Tx>, blockNumber: GoString, remote: Remote)

  /** A type-2 transaction is charged its fee cap plus its tip cap. */
  function Price(tx: Tx): nat {
    if tx.dynamicFee then tx.feeCap + tx.tipCap else tx.gasPrice
  }

  /** The checks of ProcessTransaction, in their order. */
  function Verdict(st: Store, r: Request): Outcome {
    if r.tx.None? then Rejected(NilTransaction)
    else
      var tx := r.tx.value;
      if r.blockNumber == [] then Rejected(NoBlockNumber)
      else if tx.sender.None? then Rejected(NoSender)
      else if r.remote.gasUsed.None? then Rejected(NoReceipt)
      else if r.remote.gasUsed.value > tx.gasLimit then Rejected(GasAboveLimit)
      else if AccountAt(st, tx.sender.value).balance < tx.value + r.remote.gasUsed.value * Price(tx)
      then Rejected(InsufficientBalance)
      else Applied
  }

  /** The sender pays value and used gas, and is then given the unused gas on top. */
  function SenderBalance(balance: int, tx: Tx, gasUsed: nat): int {
    var charged := balance - (tx.value + gasUsed * Price(tx));
    if tx.gasLimit > gasUsed then charged + (tx.gasLimit - gasUsed) * Price(tx) else charged
  }

  function NextNonce(n: uint64): uint64 {
    (n + 1) % UINT64
  }

  /** The store once the sender has been charged. */
  function Charged(st: Store, r: Request): Store
    requires Verdict(st, r) == Applied
  {
    var from := r.tx.value.sender.value;
    var acc := AccountAt(st, from);
    Updated(st, from, SenderBalance(acc.balance, r.tx.value, r.remote.gasUsed.value), NextNonce(acc.nonce))
  }

  /** Where a contract creation puts its account. */
  function Target(create: AddressOf, st: Store, r: Request): GoString
    requires Verdict(st, r) == Applied
  {
    create(r.tx.value.sender.value, AccountAt(st, r.tx.value.sender.value).nonce)
  }

  /** The credit of a call or transfer. An account with neither balance nor nonce is created
      anew; otherwise fetched slots are stored, the fetched code is not. */
  function Credited(st: Store, tx: Tx, to: GoString, remote: Remote): Store {
    var acc := AccountAt(st, to);
    if acc.balance == 0 && acc.nonce == 0 then Saved(st, to, NewAccount(tx.value))
    else
      var storage := if |acc.code| > 0 && |tx.data| > 0 && remote.contract.Some?
        then WithSlots(acc.storage, to, remote.contract.value.storage) else acc.storage;
      Saved(st, to, acc.(balance := acc.balance + tx.value, storage := storage))
  }

  /** The store after ProcessTransaction. */
  function Processed(create: AddressOf, st: Store, r: Request): Store {
    if Verdict(st, r) != Applied then st
    else
      var tx := r.tx.value;
      match tx.to
      case None => Saved(Charged(st, r), Target(create, st, r), NewAccount(tx.value))
      case Some(to) => Credited(Charged(st, r), tx, to, r.remote)
  }

  // ---- Block rewards ----------------------------------------------------------------------

  /** `gasUsed` is none where the receipt could not be fetched. */
  datatype RewardTx = RewardTx(tx: Tx, gasUsed: Option<nat>)
  datatype Block = Block(number: GoString, baseFee: int, txs: seq<RewardTx>)

  /** The tip of a type-2 transaction, and what an older one bids above the base fee. */
  function PriorityFee(tx: Tx, baseFee: int): (fee: int)
    ensures fee >= 0
    ensures tx.dynamicFee ==> fee == tx.tipCap
    ensures !tx.dynamicFee && tx.gasPrice <= baseFee ==> fee == 0
    ensures !tx.dynamicFee && tx.gasPrice >= baseFee ==> baseFee + fee == tx.gasPrice
  {
    var price := if tx.dynamicFee then baseFee + tx.tipCap else tx.gasPrice;
    if price - baseFee < 0 then 0 else price - baseFee
  }

  function Fees(txs: seq<RewardTx>, baseFee: int): int {
    if |txs| == 0 then 0
    else
      var last := txs[|txs| - 1];
      Fees(txs[..|txs| - 1], baseFee) +
      (if last.gasUsed.None? then 0 else last.gasUsed.value * PriorityFee(last.tx, baseFee))
  }

  function Rewarded(st: Store, b: Block, signer: GoString): Store {
    if b.number == [] || signer == [] then st
    else
      var acc := AccountAt(st, signer);
      Updated(st, signer, acc.balance + Fees(b.txs, b.baseFee), acc.nonce)
  }

  // ---- Genesis ----------------------------------------------------------------------------

  function GenesisAddress(addr: GoString): GoString {
    ToLower(if |addr| >= 2 && addr[..2] == Hex.PREFIX then addr else Hex.PREFIX + addr)
  }

  /** Every allocated address has an account with one of the balances allocated to it, whichever
      order the allocation is gone through; everything else is as before. */
  ghost predicate Seeded(before: Store, alloc: map<GoString, int>, after: Store) {
    && (forall a :: a in alloc ==> GenesisAddress(a) in after)
    && (forall k :: k in after ==>
          || (exists a :: a in alloc && GenesisAddress(a) == k && after[k] == NewAccount(alloc[a]))
          || (k in before && after[k] == before[k] && forall a :: a in alloc ==> GenesisAddress(a) != k))
    && (forall k :: k in before ==> k in after)
  }
}
