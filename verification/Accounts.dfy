/** Account records and the bytes the state trie stores for them. */
module Accounts {
  import opened Bytes
  import Rlp

  type uint64 = n: nat | n < UINT64

  /** types.EVMAccount. A balance is a big.Int, so it may be negative as far as the type goes. */
  datatype Account = Account(
    balance: int,
    nonce: uint64,
    code: seq<byte>,
    storage: map<GoString, map<GoString, GoString>>)

  datatype KeyValue = KeyValue(key: GoString, value: GoString)

  /** The struct handed to the RLP encoder. */
  datatype Record = Record(balance: nat, nonce: uint64, code: seq<byte>, storage: seq<KeyValue>)

  // ---- Flattening the storage map ---------------------------------------------------------

  /** One run of the two nested map iterations: contracts in some order, and the slots of each
      contract in some order. Go leaves both orders open. */
  datatype Visit = Visit(contract: GoString, slots: seq<GoString>)
  type Iteration = seq<Visit>

  ghost predicate Distinct<T>(s: seq<T>) {
    forall i, j :: 0 <= i < j < |s| ==> s[i] != s[j]
  }

  ghost predicate Covers(v: Visit, storage: map<GoString, map<GoString, GoString>>) {
    && v.contract in storage
    && Distinct(v.slots)
    && (forall s :: s in v.slots <==> s in storage[v.contract])
  }

  /** Some contracts of the map, each once and in full. */
  ghost predicate PartialIteration(storage: map<GoString, map<GoString, GoString>>, it: Iteration) {
    && (forall i, j :: 0 <= i < j < |it| ==> it[i].contract != it[j].contract)
    && (forall i :: 0 <= i < |it| ==> Covers(it[i], storage))
  }

  ghost predicate Visited(it: Iteration, c: GoString) {
    exists i :: 0 <= i < |it| && it[i].contract == c
  }

  ghost predicate FullIteration(storage: map<GoString, map<GoString, GoString>>, it: Iteration) {
    && PartialIteration(storage, it)
    && (forall c :: c in storage ==> Visited(it, c))
  }

  const COLON: byte := 58

  /** fmt.Sprintf("%s:%s", contractAddr, k) with its value. */
  function Entry(c: GoString, k: GoString, v: GoString): KeyValue {
    KeyValue(c + [COLON] + k, v)
  }

  function Entries(c: GoString, m: map<GoString, GoString>, slots: seq<GoString>): (r: seq<KeyValue>)
    requires forall s :: s in slots ==> s in m
    ensures |r| == |slots|
  {
    seq(|slots|, i requires 0 <= i < |slots| => assert slots[i] in slots; Entry(c, slots[i], m[slots[i]]))
  }

  ghost function Flatten(storage: map<GoString, map<GoString, GoString>>, it: Iteration): seq<KeyValue>
    requires PartialIteration(storage, it)
  {
    if |it| == 0 then []
    else
      var last := it[|it| - 1];
      Flatten(storage, it[..|it| - 1]) + Entries(last.contract, storage[last.contract], last.slots)
  }

  // ---- RLP of a record --------------------------------------------------------------------

  function KeyValueItem(kv: KeyValue): Rlp.Item {
    Rlp.List([Rlp.Str(kv.key), Rlp.Str(kv.value)])
  }

  function StorageItems(kvs: seq<KeyValue>): (xs: seq<Rlp.Item>)
    ensures |xs| == |kvs|
  {
    seq(|kvs|, i requires 0 <= i < |kvs| => KeyValueItem(kvs[i]))
  }

  /** Numbers are strings of their minimal big-endian bytes. */
  function RecordItem(r: Record): Rlp.Item {
    Rlp.List([
      Rlp.Str(Digits(256, r.balance)),
      Rlp.Str(Digits(256, r.nonce)),
      Rlp.Str(r.code),
      Rlp.List(StorageItems(r.storage))])
  }

  function EncodeRecord(r: Record): (e: seq<byte>)
    ensures |e| > 0 && e[0] >= Rlp.LIST_BASE
  {
    Rlp.Encode(RecordItem(r))
  }

  /** A Go slice is shorter than this. */
  ghost predicate Sized(r: Record) {
    |EncodeRecord(r)| < UINT64
  }

  /** accountToValue: the encoder refuses a negative big.Int. */
  ghost function ValueOf(acc: Account, it: Iteration): (r: Option<seq<byte>>)
    requires PartialIteration(acc.storage, it)
    ensures r.Some? <==> acc.balance >= 0
  {
    if acc.balance < 0 then None else Some(EncodeRecord(RecordOf(acc, it)))
  }

  ghost function RecordOf(acc: Account, it: Iteration): Record
    requires PartialIteration(acc.storage, it) && acc.balance >= 0
  {
    Record(acc.balance, acc.nonce, acc.code, Flatten(acc.storage, it))
  }

  lemma RecordItemInjective(a: Record, b: Record)
    requires RecordItem(a) == RecordItem(b)
    ensures a == b
  {
    var x, y := RecordItem(a).items, RecordItem(b).items;
    assert x[0] == y[0] && x[1] == y[1] && x[2] == y[2] && x[3] == y[3];
    FromDigitsOfDigits(256, a.balance);
    FromDigitsOfDigits(256, b.balance);
    FromDigitsOfDigits(256, a.nonce);
    FromDigitsOfDigits(256, b.nonce);
    StorageItemsInjective(a.storage, b.storage);
  }

  lemma StorageItemsInjective(a: seq<KeyValue>, b: seq<KeyValue>)
    requires StorageItems(a) == StorageItems(b)
    ensures a == b
  {
    var x, y := StorageItems(a), StorageItems(b);
    assert |a| == |b|;
    forall i | 0 <= i < |a|
      ensures a[i] == b[i]
    {
      assert x[i] == y[i];
      var p, q := x[i].items, y[i].items;
      assert p[0] == q[0] && p[1] == q[1];
    }
  }

  /** The stored bytes determine the account record, and no record's bytes begin another's. */
  lemma RecordPrefixFree(a: Record, s: seq<byte>, b: Record, t: seq<byte>)
    requires Sized(a) && Sized(b)
    requires EncodeRecord(a) + s == EncodeRecord(b) + t
    ensures a == b && s == t
  {
    Rlp.PrefixFree(RecordItem(a), s, RecordItem(b), t);
    RecordItemInjective(a, b);
  }

  /** The two nested loops of accountToValue, whatever order the map iterations take. */
  method AccountToValue(acc: Account) returns (r: Option<seq<byte>>)
    ensures r.None? <==> acc.balance < 0
    ensures exists it :: FullIteration(acc.storage, it) && r == ValueOf(acc, it)
  {
    var storage: seq<KeyValue> := [];
    ghost var it: Iteration := [];
    var contracts := acc.storage.Keys;
    assert Flatten(acc.storage, it) == [] && forall c :: !Visited(it, c);
    hide Flatten, PartialIteration, Visited, EncodeRecord;
    while contracts != {}
      invariant contracts <= acc.storage.Keys
      invariant PartialIteration(acc.storage, it)
      invariant forall c :: c in acc.storage ==> (c in contracts <==> !Visited(it, c))
      invariant storage == Flatten(acc.storage, it)
    {
      var c :| c in contracts;
      ghost var slots: seq<GoString>;
      storage, slots := FlattenContract(acc.storage, c, storage);
      IterationGrows(acc.storage, it, c, slots);
      it := it + [Visit(c, slots)];
      contracts := contracts - {c};
    }
    if acc.balance < 0 {
      r := None;
    } else {
      r := Some(EncodeRecord(Record(acc.balance, acc.nonce, acc.code, storage)));
    }
    assert FullIteration(acc.storage, it) && r == ValueOf(acc, it);
  }

  lemma IterationGrows(storage: map<GoString, map<GoString, GoString>>, it: Iteration, c: GoString,
      slots: seq<GoString>)
    requires PartialIteration(storage, it) && !Visited(it, c) && Covers(Visit(c, slots), storage)
    ensures var next := it + [Visit(c, slots)];
      && PartialIteration(storage, next)
      && Flatten(storage, next) == Flatten(storage, it) + Entries(c, storage[c], slots)
      && (forall d :: Visited(next, d) <==> d == c || Visited(it, d))
  {
    hide Covers, Entries;
    var next := it + [Visit(c, slots)];
    assert next[|it|].contract == c && next[..|it|] == it;
    forall d | Visited(it, d)
      ensures Visited(next, d)
    {
      var i :| 0 <= i < |it| && it[i].contract == d;
      assert next[i] == it[i];
    }
  }

  method FlattenContract(storage: map<GoString, map<GoString, GoString>>, c: GoString, prefix: seq<KeyValue>)
    returns (r: seq<KeyValue>, ghost slots: seq<GoString>)
    requires c in storage
    ensures Covers(Visit(c, slots), storage)
    ensures r == prefix + Entries(c, storage[c], slots)
  {
    r, slots := prefix, [];
    var rest := storage[c].Keys;
    while rest != {}
      invariant rest <= storage[c].Keys
      invariant Distinct(slots)
      invariant forall s :: s in slots <==> s in storage[c] && s !in rest
      invariant r == prefix + Entries(c, storage[c], slots)
    {
      var k :| k in rest;
      r := r + [Entry(c, k, storage[c][k])];
      slots := slots + [k];
      rest := rest - {k};
    }
  }
}
