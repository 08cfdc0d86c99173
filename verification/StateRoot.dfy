/** CalculateStateHashSPT: from a map of accounts to the hex root of a fresh trie. */
module StateRoot {
  import opened Bytes
  import opened Accounts
  import opened StorageOrder
  import opened StringOrder
  import opened TrieSpec
  import Hex
  import Trie
  import AccountTrie
  import TrieBinding

  const ADDRESS_SIZE: nat := 20

  /** accountToKey: the bytes the decoder returned, its error dropped. */
  function AddressKey(addr: GoString): seq<byte> {
    Hex.Decode(Hex.Trim0x(addr)).bytes
  }

  /** The form addresses have in the store: "0x" and 40 lower-case hex digits. */
  predicate Canonical(addr: GoString) {
    |addr| == 2 + 2 * ADDRESS_SIZE && addr[..2] == Hex.PREFIX && Hex.LowerHex(addr[2..])
  }

  lemma CanonicalKey(addr: GoString)
    requires Canonical(addr)
    ensures |AddressKey(addr)| == ADDRESS_SIZE
    ensures addr == Hex.PREFIX + Hex.Encode(AddressKey(addr))
  {
    hide Hex.Decode, Hex.Encode;
    Hex.EncodeDecode(addr[2..]);
    assert addr == addr[..2] + addr[2..];
  }

  /** The record an account is stored as, for some order of its storage iteration. */
  ghost predicate RecordFor(acc: Account, r: Record) {
    exists it :: FullIteration(acc.storage, it) && acc.balance >= 0 && r == RecordOf(acc, it)
  }

  /** No greater address in `done` has the same key. Only a malformed one can. */
  ghost predicate Last(done: set<GoString>, a: GoString) {
    forall b :: b in done && AddressKey(b) == AddressKey(a) ==> b == a || Before(b, a)
  }

  /** Under the key of every address in `done`, the record of the last account with that key. */
  ghost predicate Represents(accounts: map<GoString, Account>, done: set<GoString>, recs: AccountTrie.Records) {
    && done <= accounts.Keys
    && (forall a :: a in done ==> AddressKey(a) in recs)
    && (forall k :: k in recs ==>
          exists a :: a in done && AddressKey(a) == k && Last(done, a) && RecordFor(accounts[a], recs[k]))
  }

  ghost predicate AllCanonical(accounts: map<GoString, Account>) {
    forall a :: a in accounts ==> Canonical(a)
  }

  ghost predicate SomeNegative(accounts: map<GoString, Account>) {
    exists a :: a in accounts && accounts[a].balance < 0
  }

  lemma RepresentsNothing(accounts: map<GoString, Account>)
    ensures Represents(accounts, {}, map[]) && AccountTrie.Encoded(map[]) == map[]
  {
    hide AddressKey, RecordFor, EncodeRecord, Last;
  }

  lemma NothingRepresented(accounts: map<GoString, Account>, recs: AccountTrie.Records)
    requires Represents(accounts, accounts.Keys, recs)
    ensures recs == map[] <==> accounts == map[]
  {
    hide AddressKey, RecordFor, Last;
    if accounts != map[] {
      var a :| a in accounts;
      assert AddressKey(a) in recs;
    }
    if recs != map[] {
      var k :| k in recs;
      var a :| a in accounts && AddressKey(a) == k;
    }
  }

  /** The next account takes its key over from earlier ones. */
  lemma RepresentsOneMore(accounts: map<GoString, Account>, done: set<GoString>, recs: AccountTrie.Records,
      a: GoString, r: Record)
    requires Represents(accounts, done, recs) && a in accounts && a !in done && RecordFor(accounts[a], r)
    requires Last(done, a)
    ensures Represents(accounts, done + {a}, recs[AddressKey(a) := r])
    ensures AccountTrie.Encoded(recs[AddressKey(a) := r]) == AccountTrie.Encoded(recs)[AddressKey(a) := EncodeRecord(r)]
  {
    hide AddressKey, RecordFor, EncodeRecord, Last;
    var next := recs[AddressKey(a) := r];
    forall k | k in next
      ensures exists b ::
        b in done + {a} && AddressKey(b) == k && Last(done + {a}, b) && RecordFor(accounts[b], next[k])
    {
      if k == AddressKey(a) {
        LastStays(done, a, a);
        assert a in done + {a};
      } else {
        var b :| b in done && AddressKey(b) == k && Last(done, b) && RecordFor(accounts[b], recs[k]);
        LastStays(done, b, a);
        assert b in done + {a};
      }
    }
  }

  lemma LastStays(done: set<GoString>, b: GoString, a: GoString)
    requires Last(done, b) && (a == b || AddressKey(a) != AddressKey(b))
    ensures Last(done + {a}, b)
  {
    hide AddressKey, Before;
  }

  /** Well-formed addresses have a key each, so every account has its own record. */
  lemma OwnRecord(accounts: map<GoString, Account>, recs: AccountTrie.Records, a: GoString)
    requires AllCanonical(accounts) && Represents(accounts, accounts.Keys, recs) && a in accounts
    ensures AddressKey(a) in recs && RecordFor(accounts[a], recs[AddressKey(a)])
  {
    hide AddressKey, RecordFor, Canonical, Last;
    var b :| b in accounts && AddressKey(b) == AddressKey(a) && RecordFor(accounts[b], recs[AddressKey(a)]);
    CanonicalKey(a);
    CanonicalKey(b);
  }

  method EncodeAccount(acc: Account) returns (value: Option<seq<byte>>, ghost rec: Record)
    ensures value.None? <==> acc.balance < 0
    ensures value.Some? ==> RecordFor(acc, rec) && value.value == EncodeRecord(rec)
  {
    hide EncodeRecord, Flatten;
    value := AccountToValue(acc);
    ghost var it :| FullIteration(acc.storage, it) && value == ValueOf(acc, it);
    rec := if acc.balance < 0 then Record(0, 0, [], []) else RecordOf(acc, it);
  }

  /** CalculateStateHashSPT. An account that cannot be encoded makes the result empty, as an
      empty map does. */
  method CalculateStateHash(keccak: HashFn, accounts: map<GoString, Account>)
    returns (r: GoString, ghost recs: AccountTrie.Records)
    ensures r == [] <==> accounts == map[] || SomeNegative(accounts)
    ensures !SomeNegative(accounts) ==>
      && Represents(accounts, accounts.Keys, recs)
      && r == Hex.Encode(AccountTrie.Root(keccak, recs))
  {
    var spt := new Trie.SPT(keccak);
    var addresses := Sorted(accounts.Keys);
    hide EncodeRecord, RecordFor, AccountTrie.Encoded, RootHash, Hex.Encode, Before, Last;
    var ok;
    ok, recs := InsertAccounts(spt, accounts, addresses);
    if ok {
      r := spt.GetRootHash();
      NothingRepresented(accounts, recs);
      AccountTrie.EmptyRoot(keccak, recs);
    } else {
      r := [];
    }
  }

  /** The accounts are inserted one after another, in the order of their addresses. */
  method InsertAccounts(spt: Trie.SPT, accounts: map<GoString, Account>, addresses: seq<GoString>)
    returns (ok: bool, ghost recs: AccountTrie.Records)
    requires Ascending(addresses) && forall a :: a in addresses <==> a in accounts
    requires spt.Valid() && spt.contents == map[]
    modifies spt, spt.nodes.Values
    ensures spt.Valid() && (ok <==> !SomeNegative(accounts))
    ensures ok ==> Represents(accounts, accounts.Keys, recs) && spt.contents == AccountTrie.Encoded(recs)
  {
    RepresentsNothing(accounts);
    hide Trie.SPT.Valid, AddressKey, EncodeRecord, Represents, RecordFor, AccountTrie.Encoded, Before, Last;
    recs := map[];
    ghost var done: set<GoString> := {};
    var i := 0;
    while i < |addresses|
      invariant 0 <= i <= |addresses|
      invariant done == set a | a in addresses[..i]
      invariant spt.Valid() && fresh(spt.nodes.Values - old(spt.nodes.Values))
      invariant spt.contents == AccountTrie.Encoded(recs)
      invariant Represents(accounts, done, recs)
      invariant forall a :: a in done ==> accounts[a].balance >= 0
    {
      var addr := addresses[i];
      var value, rec := EncodeAccount(accounts[addr]);
      if value.None? {
        return false, recs;
      }
      NextIsLast(addresses, i, done);
      RepresentsOneMore(accounts, done, recs, addr, rec);
      spt.Insert(AddressKey(addr), value.value);
      recs := recs[AddressKey(addr) := rec];
      assert addresses[..i + 1] == addresses[..i] + [addr];
      done := done + {addr};
      i := i + 1;
    }
    assert addresses[..i] == addresses;
    assert done == accounts.Keys;
    ok := true;
  }

  lemma NextIsLast(addresses: seq<GoString>, i: nat, done: set<GoString>)
    requires Ascending(addresses) && i < |addresses| && done == set a | a in addresses[..i]
    ensures addresses[i] !in done && Last(done, addresses[i])
  {
    hide AddressKey, Before;
    forall b | b in done
      ensures b != addresses[i] && Before(b, addresses[i])
    {
      var j :| 0 <= j < i && addresses[j] == b;
      Total(b, addresses[i]);
    }
  }

  // ---- When the result is determined by the accounts --------------------------------------

  /** No account that is in the trie has storage whose iteration order shows. */
  ghost predicate OrderFree(accounts: map<GoString, Account>) {
    forall a :: a in accounts && Last(accounts.Keys, a) ==> OneEntry(accounts[a].storage)
  }

  /** All orders of the iterations give the same records. */
  ghost predicate OneRecordMap(accounts: map<GoString, Account>) {
    forall x, y :: Represents(accounts, accounts.Keys, x) && Represents(accounts, accounts.Keys, y) ==> x == y
  }

  /** The records behind the root are a function of the accounts just when no account has two
      slots that flatten to different entries. */
  lemma OneRecordMapExactly(accounts: map<GoString, Account>)
    requires !SomeNegative(accounts)
    ensures OneRecordMap(accounts) <==> OrderFree(accounts)
  {
    hide Represents, OrderFree;
    if OrderFree(accounts) {
      forall x, y | Represents(accounts, accounts.Keys, x) && Represents(accounts, accounts.Keys, y)
        ensures x == y
      {
        SameRecords(accounts, x, y);
      }
    } else {
      var x, y := TwoRecordMaps(accounts);
    }
  }

  lemma SameRecords(accounts: map<GoString, Account>, x: AccountTrie.Records, y: AccountTrie.Records)
    requires OrderFree(accounts)
    requires Represents(accounts, accounts.Keys, x) && Represents(accounts, accounts.Keys, y)
    ensures x == y
  {
    hide AddressKey, RecordFor, OneEntry, Before;
    forall k | k in x || k in y
      ensures k in x && k in y && x[k] == y[k]
    {
      var c :| c in accounts && AddressKey(c) == k;
      assert k in x && k in y;
      var a :| a in accounts && AddressKey(a) == k && Last(accounts.Keys, a) && RecordFor(accounts[a], x[k]);
      var b :| b in accounts && AddressKey(b) == k && Last(accounts.Keys, b) && RecordFor(accounts[b], y[k]);
      Total(a, b);
      OneRecord(accounts[a], x[k], y[k]);
    }
  }

  lemma OneRecord(acc: Account, r: Record, s: Record)
    requires OneEntry(acc.storage) && RecordFor(acc, r) && RecordFor(acc, s)
    ensures r == s
  {
    hide OneEntry, PartialIteration, Visited, Flatten;
    OneListExactly(acc.storage);
  }

  /** Where the order shows there are two record maps, that differ in one account's list. */
  lemma TwoRecordMaps(accounts: map<GoString, Account>) returns (x: AccountTrie.Records, y: AccountTrie.Records)
    requires !SomeNegative(accounts) && !OrderFree(accounts)
    ensures Represents(accounts, accounts.Keys, x) && Represents(accounts, accounts.Keys, y) && x != y
  {
    hide AddressKey, Represents, OneEntry, PartialIteration, Visited, Flatten, Before;
    var a :| a in accounts && Last(accounts.Keys, a) && !OneEntry(accounts[a].storage);
    var i, j := TwoLists(accounts[a].storage);
    var r, s := RecordOf(accounts[a], i), RecordOf(accounts[a], j);
    assert RecordFor(accounts[a], r) && RecordFor(accounts[a], s);
    var others := SomeRecords(accounts, accounts.Keys - {a});
    assert Last(accounts.Keys - {a}, a);
    RepresentsOneMore(accounts, accounts.Keys - {a}, others, a, r);
    RepresentsOneMore(accounts, accounts.Keys - {a}, others, a, s);
    assert accounts.Keys - {a} + {a} == accounts.Keys;
    x, y := others[AddressKey(a) := r], others[AddressKey(a) := s];
    assert x[AddressKey(a)] == r && y[AddressKey(a)] == s;
  }

  lemma {:induction false} SomeRecords(accounts: map<GoString, Account>, done: set<GoString>)
    returns (recs: AccountTrie.Records)
    requires !SomeNegative(accounts) && done <= accounts.Keys
    ensures Represents(accounts, done, recs)
    decreases done
  {
    hide AddressKey, Represents, PartialIteration, Visited, Flatten, Before;
    if done == {} {
      recs := map[];
      RepresentsNothing(accounts);
    } else {
      var a := Greatest(done);
      var before := SomeRecords(accounts, done - {a});
      var it := SomeFull(accounts[a].storage);
      var r := RecordOf(accounts[a], it);
      assert RecordFor(accounts[a], r);
      RepresentsOneMore(accounts, done - {a}, before, a, r);
      assert done - {a} + {a} == done;
      recs := before[AddressKey(a) := r];
    }
  }

  /** The bytes an account is stored as tell the iteration order: two orders give the same bytes
      only if they give the same list of entries. */
  lemma StorageOrderShows(acc: Account, i: Iteration, j: Iteration)
    requires FullIteration(acc.storage, i) && FullIteration(acc.storage, j) && acc.balance >= 0
    requires Sized(RecordOf(acc, i)) && Sized(RecordOf(acc, j))
    ensures ValueOf(acc, i) == ValueOf(acc, j) <==> Flatten(acc.storage, i) == Flatten(acc.storage, j)
  {
    hide Flatten, Covers;
    if ValueOf(acc, i) == ValueOf(acc, j) {
      assert EncodeRecord(RecordOf(acc, i)) + [] == EncodeRecord(RecordOf(acc, j)) + [];
      RecordPrefixFree(RecordOf(acc, i), [], RecordOf(acc, j), []);
    }
  }

  /** Then the root is no function of the accounts: two iterations give two roots, or a hash
      failure is among the strings hashed for them. */
  lemma TwoRoots(keccak: HashFn, accounts: map<GoString, Account>)
    returns (x: AccountTrie.Records, y: AccountTrie.Records)
    requires AllCanonical(accounts) && !SomeNegative(accounts) && !OrderFree(accounts)
    requires forall recs :: Represents(accounts, accounts.Keys, recs) ==> SizedRecords(recs)
    ensures Represents(accounts, accounts.Keys, x) && Represents(accounts, accounts.Keys, y)
    ensures || AccountTrie.Root(keccak, x) != AccountTrie.Root(keccak, y)
            || CollisionAmong(keccak, AccountTrie.Hashed(keccak, x, ADDRESS_SIZE), AccountTrie.Hashed(keccak, y,
                ADDRESS_SIZE))
            || TrieBinding.ZeroPreimageAmong(keccak, AccountTrie.Hashed(keccak, x,
                ADDRESS_SIZE) + AccountTrie.Hashed(keccak, y, ADDRESS_SIZE))
  {
    hide AllCanonical, Represents, OrderFree, SizedRecords, AccountTrie.Root, AccountTrie.Hashed, CollisionAmong;
    hide TrieBinding.ZeroPreimageAmong, AccountTrie.WellKeyed;
    x, y := TwoRecordMaps(accounts);
    RecordsWellKeyed(accounts, x);
    RecordsWellKeyed(accounts, y);
    if AccountTrie.Root(keccak, x) == AccountTrie.Root(keccak, y) {
      AccountTrie.RecordsBinding(keccak, x, y, ADDRESS_SIZE);
    }
  }

  /** Two slots of one contract are enough. */
  lemma TwoSlotsShow(storage: Storage, c: GoString, k: GoString, l: GoString)
    requires c in storage && k in storage[c] && l in storage[c] && k != l
    ensures !OneEntry(storage)
  {
    var x, y := Entry(c, k, storage[c][k]), Entry(c, l, storage[c][l]);
    assert SlotValue(storage, c, k).Some? && SlotValue(storage, c, l).Some?;
    assert x.key[|c| + 1..] == k && y.key[|c| + 1..] == l;
  }

  // ---- What the root commits to -----------------------------------------------------------

  ghost predicate SizedRecords(recs: AccountTrie.Records) {
    forall k :: k in recs ==> Sized(recs[k])
  }

  lemma RecordsWellKeyed(accounts: map<GoString, Account>, recs: AccountTrie.Records)
    requires AllCanonical(accounts) && Represents(accounts, accounts.Keys, recs) && SizedRecords(recs)
    ensures AccountTrie.WellKeyed(recs, ADDRESS_SIZE)
  {
    hide AddressKey, RecordFor, Canonical, Sized;
    forall k | k in recs
      ensures |k| == ADDRESS_SIZE
    {
      var a :| a in accounts && AddressKey(a) == k;
      CanonicalKey(a);
    }
  }

  /** The same addresses, each with the same balance, nonce and code, and with storage that
      flattens to the same list of entries in the two iterations that were hashed. */
  ghost predicate SameAccounts(a: map<GoString, Account>, b: map<GoString, Account>) {
    && a.Keys == b.Keys
    && forall k :: k in a ==>
         && a[k].balance == b[k].balance && a[k].nonce == b[k].nonce && a[k].code == b[k].code
         && exists i, j :: FullIteration(a[k].storage, i) && FullIteration(b[k].storage, j)
              && Flatten(a[k].storage, i) == Flatten(b[k].storage, j)
  }

  lemma SameRecordsSameAccounts(a: map<GoString, Account>, b: map<GoString, Account>, recs: AccountTrie.Records)
    requires AllCanonical(a) && AllCanonical(b)
    requires Represents(a, a.Keys, recs) && Represents(b, b.Keys, recs)
    ensures SameAccounts(a, b)
  {
    hide AddressKey, Canonical, FullIteration, Flatten;
    forall k | k in a || k in b
      ensures k in a && k in b
    {
      var j :| (if k in a then j in b else j in a) && AddressKey(j) == AddressKey(k);
      CanonicalKey(j);
      CanonicalKey(k);
    }
    forall k | k in a
      ensures AddressKey(k) in recs && RecordFor(a[k], recs[AddressKey(k)]) && RecordFor(b[k], recs[AddressKey(k)])
    {
      OwnRecord(a, recs, k);
      OwnRecord(b, recs, k);
    }
  }

  /** Where contract names have no colon, as addresses do not, that is the same value in every
      slot: the same storage, up to contracts without slots. */
  lemma SameSlots(a: map<GoString, Account>, b: map<GoString, Account>, k: GoString)
    requires SameAccounts(a, b) && k in a && NoColons(a[k].storage) && NoColons(b[k].storage)
    ensures forall c, s :: SlotValue(a[k].storage, c, s) == SlotValue(b[k].storage, c, s)
  {
    hide PartialIteration, Visited, Flatten, SlotValue, NoColons;
    var i, j :| FullIteration(a[k].storage, i) && FullIteration(b[k].storage, j)
      && Flatten(a[k].storage, i) == Flatten(b[k].storage, j);
    ListDeterminesSlots(a[k].storage, i, b[k].storage, j);
  }

  /** Two non-failing results of CalculateStateHash are equal only for the same accounts, or
      with a Keccak collision or a preimage of zero among the strings hashed. */
  lemma RootCommitsToAccounts(keccak: HashFn, a: map<GoString, Account>, x: AccountTrie.Records,
                              b: map<GoString, Account>, y: AccountTrie.Records)
    requires AllCanonical(a) && Represents(a, a.Keys, x) && SizedRecords(x)
    requires AllCanonical(b) && Represents(b, b.Keys, y) && SizedRecords(y)
    requires Hex.Encode(AccountTrie.Root(keccak, x)) == Hex.Encode(AccountTrie.Root(keccak, y))
    ensures || SameAccounts(a, b)
            || CollisionAmong(keccak, AccountTrie.Hashed(keccak, x, ADDRESS_SIZE), AccountTrie.Hashed(keccak, y,
                ADDRESS_SIZE))
            || TrieBinding.ZeroPreimageAmong(keccak, AccountTrie.Hashed(keccak, x,
                ADDRESS_SIZE) + AccountTrie.Hashed(keccak, y, ADDRESS_SIZE))
  {
    hide AllCanonical, Represents, SizedRecords, SameAccounts, AccountTrie.Root, AccountTrie.Hashed, CollisionAmong;
    hide TrieBinding.ZeroPreimageAmong, AccountTrie.WellKeyed, Hex.Encode;
    RecordsWellKeyed(a, x);
    RecordsWellKeyed(b, y);
    Hex.EncodeInjective(AccountTrie.Root(keccak, x), AccountTrie.Root(keccak, y));
    AccountTrie.RecordsBinding(keccak, x, y, ADDRESS_SIZE);
    if x == y {
      SameRecordsSameAccounts(a, b, x);
    }
  }
}
