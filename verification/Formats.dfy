/** The bytes that are stored and hashed, as a reader finds them: constants in words, account
    records through the RLP decoder, metadata through a JSON reader. */
module Formats {
  import opened Bytes
  import opened Accounts
  import opened StorageOrder
  import opened Commitment
  import Hex
  import Merkle
  import Pipeline
  import Rlp
  import AccountTrie
  import StateRoot

  // ---- Constants in words -----------------------------------------------------------------

  lemma ConstantsInWords()
    ensures Hex.PREFIX == Ascii("0x") && Hex.ZERO == Ascii("0x0") && [COLON] == Ascii(":") && [MINUS] == Ascii("-")
    ensures Pipeline.BATCH_SIZE == 128 && Pipeline.CAPACITY == 128
  {
  }

  /** 32 zero bytes, and "0x" with 64 times the digit zero. */
  lemma ZerosInBytes()
    ensures |ZERO_DIGEST| == 32 && forall i :: 0 <= i < 32 ==> ZERO_DIGEST[i] == 0
    ensures |Pipeline.GENESIS_HASH| == 66 && Pipeline.GENESIS_HASH[..2] == Ascii("0x")
    ensures forall i :: 2 <= i < 66 ==> [Pipeline.GENESIS_HASH[i]] == Ascii("0")
  {
    var g := Pipeline.GENESIS_HASH;
    assert g[0] == 48 && g[1] == 120 && forall i :: 2 <= i < 66 ==> g[i] == 48;
  }

  /** Digits come most significant first. */
  lemma BytesOfNumber()
    ensures Digits(256, 0x1_02_03) == [1, 2, 3]
  {
    assert Digits(256, 1) == [1];
    assert Digits(256, 258) == [1, 2];
  }

  lemma DecimalInWords()
    ensures Decimal(120) == Ascii("120") && Decimal(0) == Ascii("0") && SignedDecimal(-5) == Ascii("-5")
  {
    assert Digits(10, 1) == [1];
    assert Digits(10, 12) == [1, 2];
    assert Digits(10, 5) == [5];
  }

  /** Byte by byte, the high half first, in the digits 0 to 9 and a to f. */
  lemma {:induction false} HexInWords(bs: seq<byte>, i: nat)
    requires i < |bs|
    ensures [Hex.Encode(bs)[2 * i]] == [Ascii("0123456789abcdef")[bs[i] / 16]]
    ensures [Hex.Encode(bs)[2 * i + 1]] == [Ascii("0123456789abcdef")[bs[i] % 16]]
  {
    if i > 0 {
      HexInWords(bs[1..], i - 1);
      hide Ascii;
      assert Hex.Encode(bs)[2..] == Hex.Encode(bs[1..]);
    } else {
      DigitInWords(bs[0] / 16);
      DigitInWords(bs[0] % 16);
    }
  }

  lemma DigitInWords(n: byte)
    requires n < 16
    ensures Ascii("0123456789abcdef")[n] == Hex.DigitOf(n)
  {
  }

  /** Encodings that the Ethereum documentation gives for RLP, and both sides of the bound at
      which lengths get a header of their own. */
  lemma RlpInBytes(b: seq<byte>)
    ensures Rlp.Encode(Rlp.Str([])) == [0x80] && Rlp.Encode(Rlp.List([])) == [0xc0]
    ensures Rlp.Encode(Rlp.Str([0x0f])) == [0x0f] && Rlp.Encode(Rlp.Str([0x80])) == [0x81, 0x80]
    ensures Rlp.Encode(Rlp.Str(Ascii("dog"))) == [0x83] + Ascii("dog")
    ensures |b| == 55 ==> Rlp.Encode(Rlp.Str(b)) == [0x80 + 55] + b
    ensures |b| == 56 ==> Rlp.Encode(Rlp.Str(b)) == [0xb8, 56] + b
    ensures |b| == 1024 ==> Rlp.Encode(Rlp.Str(b)) == [0xb9, 4, 0] + b
  {
    assert Digits(256, 56) == [56];
    assert Digits(256, 4) == [4] && Digits(256, 1024) == [4, 0];
    assert Rlp.EncodeAll([]) == [];
    assert |Ascii("dog")| == 3;
  }

  lemma RlpListInBytes()
    ensures Rlp.Encode(Rlp.List([Rlp.Str(Ascii("cat")), Rlp.Str(Ascii("dog"))]))
      == [0xc8, 0x83] + Ascii("cat") + [0x83] + Ascii("dog")
  {
    var cat, dog := Rlp.Str(Ascii("cat")), Rlp.Str(Ascii("dog"));
    var xs := [cat, dog];
    assert Rlp.Encode(cat) == [0x83] + Ascii("cat") && Rlp.Encode(dog) == [0x83] + Ascii("dog");
    assert xs[1..] == [dog] && [dog][1..] == [];
    assert Rlp.EncodeAll([dog]) == Rlp.Encode(dog) + [];
    assert Rlp.EncodeAll(xs) == Rlp.Encode(cat) + Rlp.EncodeAll([dog]);
  }

  // ---- Account records --------------------------------------------------------------------

  /** What the trie stores for one slot: the text contract ":" slot, and the value. */
  function SlotItem(c: GoString, k: GoString, v: GoString): Rlp.Item {
    Rlp.List([Rlp.Str(c + Ascii(":") + k), Rlp.Str(v)])
  }

  /** The items are those of the slots of a storage map, one for each. */
  ghost predicate HoldsSlots(items: seq<Rlp.Item>, storage: Storage) {
    && |items| == |set c, k | c in storage && k in storage[c] :: (c, k)|
    && forall e :: e in items <==> exists c, k :: SlotValue(storage, c, k).Some? && e == SlotItem(c, k, storage[c][k])
  }

  /** The bytes read back, with nothing left over, as a list of the balance, the nonce, the code
      and the slots, in this order; numbers without leading zeros. */
  ghost predicate ReadsAs(v: seq<byte>, acc: Account, balance: seq<byte>, nonce: seq<byte>, slots: seq<Rlp.Item>) {
    && Rlp.Decode(v) ==
       Some(Rlp.Parsed(Rlp.List([Rlp.Str(balance), Rlp.Str(nonce), Rlp.Str(acc.code), Rlp.List(slots)]), []))
    && FromDigits(256, balance) == acc.balance && (|balance| > 0 ==> balance[0] != 0)
    && FromDigits(256, nonce) == acc.nonce && (|nonce| > 0 ==> nonce[0] != 0)
    && HoldsSlots(slots, acc.storage)
  }

  /** So does every value accountToValue can return. */
  lemma ValueReadsAs(acc: Account, it: Iteration) returns (balance: seq<byte>, nonce: seq<byte>, slots: seq<Rlp.Item>)
    requires FullIteration(acc.storage, it) && acc.balance >= 0 && Sized(RecordOf(acc, it))
    ensures ReadsAs(ValueOf(acc, it).value, acc, balance, nonce, slots)
  {
    balance, nonce := Digits(256, acc.balance), Digits(256, acc.nonce);
    slots := StorageItems(Flatten(acc.storage, it));
    FromDigitsOfDigits(256, acc.balance);
    FromDigitsOfDigits(256, acc.nonce);
    ItemsHoldSlots(acc.storage, it);
    var r := RecordOf(acc, it);
    Rlp.DecodeEncode(RecordItem(r), []);
    hide Rlp.Encode, Rlp.Decode, Flatten, HoldsSlots, FullIteration, Digits, FromDigits;
    assert EncodeRecord(r) + [] == EncodeRecord(r);
  }

  /** So does the value of every account in the trie behind a state root. */
  lemma LeafReadsAs(accounts: map<GoString, Account>, recs: AccountTrie.Records, a: GoString)
    returns (balance: seq<byte>, nonce: seq<byte>, slots: seq<Rlp.Item>)
    requires StateRoot.AllCanonical(accounts) && StateRoot.Represents(accounts, accounts.Keys, recs)
    requires StateRoot.SizedRecords(recs) && a in accounts
    ensures StateRoot.AddressKey(a) in AccountTrie.Encoded(recs)
    ensures ReadsAs(AccountTrie.Encoded(recs)[StateRoot.AddressKey(a)], accounts[a], balance, nonce, slots)
  {
    StateRoot.OwnRecord(accounts, recs, a);
    hide StateRoot.Represents, StateRoot.AddressKey, StateRoot.AllCanonical, EncodeRecord, ReadsAs, Flatten;
    var acc, r := accounts[a], recs[StateRoot.AddressKey(a)];
    var it :| FullIteration(acc.storage, it) && acc.balance >= 0 && r == RecordOf(acc, it);
    balance, nonce, slots := ValueReadsAs(acc, it);
    assert ValueOf(acc, it).value == EncodeRecord(r);
  }

  lemma ItemsHoldSlots(storage: Storage, it: Iteration)
    requires FullIteration(storage, it)
    ensures HoldsSlots(StorageItems(Flatten(storage, it)), storage)
  {
    var kvs := Flatten(storage, it);
    var items := StorageItems(kvs);
    ListLength(storage, it);
    assert SlotsVisited(storage, it) == set c, k | c in storage && k in storage[c] :: (c, k);
    hide Flatten, SlotsVisited, PartialIteration, Visited;
    forall e
      ensures e in items <==> exists c, k :: SlotValue(storage, c, k).Some? && e == SlotItem(c, k, storage[c][k])
    {
      ItemOfSlot(storage, it, e);
    }
  }

  lemma ItemOfSlot(storage: Storage, it: Iteration, e: Rlp.Item)
    requires FullIteration(storage, it)
    ensures e in StorageItems(Flatten(storage, it)) <==>
      exists c, k :: SlotValue(storage, c, k).Some? && e == SlotItem(c, k, storage[c][k])
  {
    var kvs := Flatten(storage, it);
    var items := StorageItems(kvs);
    assert Ascii(":") == [COLON];
    hide Flatten, PartialIteration, Visited, Ascii;
    if e in items {
      var n :| 0 <= n < |items| && items[n] == e;
      ListEntries(storage, it, kvs[n]);
      var c, k :| Visited(it, c) && IsEntry(storage, c, k, kvs[n]);
      assert e == SlotItem(c, k, storage[c][k]);
    }
    if c, k :| SlotValue(storage, c, k).Some? && e == SlotItem(c, k, storage[c][k]) {
      var kv := Entry(c, k, storage[c][k]);
      assert IsEntry(storage, c, k, kv) && Visited(it, c);
      ListEntries(storage, it, kv);
      var n :| 0 <= n < |kvs| && kvs[n] == kv;
      assert items[n] == e;
    }
  }

  // ---- Metadata ---------------------------------------------------------------------------

  const QUOTE_MARK: byte := 34
  const COMMA: byte := 44
  const OPEN: byte := 123
  const CLOSE: byte := 125

  /** One member of a JSON object: its name and the text of its value. */
  datatype Member = Member(name: GoString, value: GoString)

  predicate IsNumberByte(b: byte) {
    b == MINUS || IsDecimalDigit(b)
  }

  /** The text up to the first byte that ends it. */
  function UpTo(s: GoString, ends: byte -> bool): (r: GoString)
    ensures r <= s
    ensures forall i :: 0 <= i < |r| ==> !ends(r[i])
    ensures |r| < |s| ==> ends(s[|r|])
  {
    if |s| == 0 || ends(s[0]) then [] else [s[0]] + UpTo(s[1..], ends)
  }

  /** Reads a JSON object of numbers and, as its last member if there is one, a string. */
  function ReadObject(text: GoString): Option<seq<Member>> {
    if |text| < 2 || text[0] != OPEN || text[|text| - 1] != CLOSE then None
    else ReadMembers(text[1..|text| - 1])
  }

  /** A name in quotation marks, a colon, a value; after a number a comma and the next member. */
  function ReadMembers(s: GoString): Option<seq<Member>>
    decreases |s|
  {
    if |s| == 0 || s[0] != QUOTE_MARK then None
    else
      var name := UpTo(s[1..], (b: byte) => b == QUOTE_MARK);
      var n := |name|;
      if |s| < n + 4 || s[n + 2] != COLON then None
      else
        var value := s[n + 3..];
        if !IsNumberByte(value[0]) then Some([Member(name, value)])
        else
          var number := UpTo(value, (b: byte) => !IsNumberByte(b));
          if |number| == |value| then Some([Member(name, number)])
          else if value[|number|] != COMMA then None
          else
            match ReadMembers(value[|number| + 1..])
            case None => None
            case Some(more) => Some([Member(name, number)] + more)
  }

  function ReadNumber(s: GoString): int {
    if |s| > 0 && s[0] == MINUS then -(FromDigits(10, Numerals(s[1..])) as int) else FromDigits(10, Numerals(s))
  }

  lemma {:induction false} UpToEnd(r: GoString, s: GoString, ends: byte -> bool)
    requires forall i :: 0 <= i < |r| ==> !ends(r[i])
    requires |s| == 0 || ends(s[0])
    ensures UpTo(r + s, ends) == r
  {
    if |r| == 0 {
      assert r + s == s;
    } else {
      UpToEnd(r[1..], s, ends);
      assert (r + s)[1..] == r[1..] + s;
    }
  }

  /** The text of a member. */
  function Quoted(name: GoString, value: GoString): GoString {
    [QUOTE_MARK] + (name + ([QUOTE_MARK] + ([COLON] + value)))
  }

  predicate IsName(name: GoString) {
    forall i :: 0 <= i < |name| ==> name[i] != QUOTE_MARK
  }

  lemma NameRead(name: GoString, value: GoString)
    requires IsName(name) && |value| > 0
    ensures var s := Quoted(name, value);
      && s[0] == QUOTE_MARK && UpTo(s[1..], (b: byte) => b == QUOTE_MARK) == name
      && |s| >= |name| + 4 && s[|name| + 2] == COLON && s[|name| + 3..] == value
  {
    var s := Quoted(name, value);
    assert s[1..] == name + ([QUOTE_MARK] + ([COLON] + value));
    UpToEnd(name, [QUOTE_MARK] + ([COLON] + value), (b: byte) => b == QUOTE_MARK);
    assert s[|name| + 1..] == [QUOTE_MARK] + ([COLON] + value);
    assert s[|name| + 3..] == value;
  }

  lemma LastMemberRead(name: GoString, value: GoString)
    requires IsName(name) && |value| > 0 && !IsNumberByte(value[0])
    ensures ReadMembers(Quoted(name, value)) == Some([Member(name, value)])
  {
    NameRead(name, value);
    hide Quoted, UpTo;
  }

  lemma NumberMemberRead(name: GoString, number: GoString, rest: GoString, more: seq<Member>)
    requires IsName(name) && |number| > 0 && forall i :: 0 <= i < |number| ==> IsNumberByte(number[i])
    requires ReadMembers(rest) == Some(more)
    ensures ReadMembers(Quoted(name, number + ([COMMA] + rest))) == Some([Member(name, number)] + more)
  {
    hide Quoted, UpTo;
    var value := number + ([COMMA] + rest);
    NameRead(name, value);
    UpToEnd(number, [COMMA] + rest, (b: byte) => !IsNumberByte(b));
    assert value[|number|] == COMMA && value[|number| + 1..] == rest;
    assert value[0] == number[0];
  }

  lemma SignedDecimalReads(n: int)
    ensures ReadNumber(SignedDecimal(n)) == n
    ensures forall i :: 0 <= i < |SignedDecimal(n)| ==> IsNumberByte(SignedDecimal(n)[i])
  {
    hide Decimal, FromDigits, Numerals;
    if n < 0 {
      DecimalValue(-n);
      assert SignedDecimal(n)[1..] == Decimal(-n);
    } else {
      DecimalValue(n);
      assert IsDecimalDigit(Decimal(n)[0]);
    }
  }

  /** The metadata text is an object of exactly three members, in this order. */
  lemma MetadataReads(quote: Quote, m: Metadata)
    requires var q := quote(m.rollupNamespace); |q| > 0 && q[0] == QUOTE_MARK
    ensures var gas, time := Decimal(m.totalGasUsed), SignedDecimal(m.timestamp);
      && ReadObject(MetadataJson(quote, m)) == Some([
           Member(Ascii("total_gas_used"), gas),
           Member(Ascii("timestamp"), time),
           Member(Ascii("rollup_namespace"), quote(m.rollupNamespace))])
      && ReadNumber(gas) == m.totalGasUsed && ReadNumber(time) == m.timestamp
  {
    var gas, time, ns := Decimal(m.totalGasUsed), SignedDecimal(m.timestamp), quote(m.rollupNamespace);
    var n1, n2, n3 := Ascii("total_gas_used"), Ascii("timestamp"), Ascii("rollup_namespace");
    SignedDecimalReads(m.timestamp);
    SignedDecimalReads(m.totalGasUsed);
    assert SignedDecimal(m.totalGasUsed) == gas && |gas| > 0 && |time| > 0;
    NamesInBytes();
    MetadataText(quote, m);
    assert !IsNumberByte(ns[0]);
    hide *;
    ObjectRead(n1, gas, n2, time, n3, ns);
  }

  lemma ObjectRead(n1: GoString, gas: GoString, n2: GoString, time: GoString, n3: GoString, ns: GoString)
    requires IsName(n1) && IsName(n2) && IsName(n3) && |gas| > 0 && |time| > 0 && |ns| > 0
    requires forall i :: 0 <= i < |gas| ==> IsNumberByte(gas[i])
    requires forall i :: 0 <= i < |time| ==> IsNumberByte(time[i])
    requires !IsNumberByte(ns[0])
    ensures ReadObject([OPEN] + Quoted(n1, gas + ([COMMA] + Quoted(n2, time + ([COMMA] + Quoted(n3, ns))))) + [CLOSE])
      == Some([Member(n1, gas), Member(n2, time), Member(n3, ns)])
  {
    hide *;
    var third := Quoted(n3, ns);
    var second := Quoted(n2, time + ([COMMA] + third));
    LastMemberRead(n3, ns);
    NumberMemberRead(n2, time, third, [Member(n3, ns)]);
    NumberMemberRead(n1, gas, second, [Member(n2, time)] + [Member(n3, ns)]);
    Braced(Quoted(n1, gas + ([COMMA] + second)));
    assert [Member(n1, gas)] + ([Member(n2, time)] + [Member(n3, ns)]) == [Member(n1, gas), Member(n2, time),
        Member(n3, ns)];
  }

  lemma Braced(inner: GoString)
    ensures ReadObject([OPEN] + inner + [CLOSE]) == ReadMembers(inner)
  {
    var text := [OPEN] + inner + [CLOSE];
    assert text[1..|text| - 1] == inner;
    hide ReadMembers;
  }

  /** Two texts written one after the other. */
  lemma AsciiConcat(a: string, b: string)
    ensures Ascii(a + b) == Ascii(a) + Ascii(b)
  {
  }

  /** A mark and a name in quotation marks and a colon. */
  lemma Label(mark: char, name: string)
    ensures Ascii([mark, '"'] + name + ['"', ':'])
      == [mark as int % 256, QUOTE_MARK] + Ascii(name) + [QUOTE_MARK, COLON]
  {
    AsciiConcat([mark, '"'] + name, ['"', ':']);
    AsciiConcat([mark, '"'], name);
    assert Ascii([mark, '"']) == [mark as int % 256, QUOTE_MARK] && Ascii(['"', ':']) == [QUOTE_MARK, COLON];
    hide Ascii;
  }

  lemma NamesInBytes()
    ensures IsName(Ascii("total_gas_used")) && IsName(Ascii("timestamp")) && IsName(Ascii("rollup_namespace"))
  {
  }

  lemma GasLabel()
    ensures Ascii("{\"total_gas_used\":") == [OPEN, QUOTE_MARK] + Ascii("total_gas_used") + [QUOTE_MARK, COLON]
  {
    Label('{', "total_gas_used");
    assert "{\"total_gas_used\":" == ['{', '"'] + "total_gas_used" + ['"', ':'];
  }

  lemma TimeLabel()
    ensures Ascii(",\"timestamp\":") == [COMMA, QUOTE_MARK] + Ascii("timestamp") + [QUOTE_MARK, COLON]
  {
    Label(',', "timestamp");
    assert ",\"timestamp\":" == [',', '"'] + "timestamp" + ['"', ':'];
  }

  lemma NamespaceLabel()
    ensures Ascii(",\"rollup_namespace\":") == [COMMA, QUOTE_MARK] + Ascii("rollup_namespace") + [QUOTE_MARK, COLON]
  {
    Label(',', "rollup_namespace");
    assert ",\"rollup_namespace\":" == [',', '"'] + "rollup_namespace" + ['"', ':'];
  }

  /** A label, a value and the end of the text: a member between a mark and the end. */
  lemma Labelled(mark: byte, name: GoString, value: GoString, end: GoString)
    ensures [mark, QUOTE_MARK] + name + [QUOTE_MARK, COLON] + (value + end) == [mark] + Quoted(name, value) + end
  {
  }

  lemma MetadataText(quote: Quote, m: Metadata)
    ensures MetadataJson(quote, m) ==
      [OPEN] + Quoted(Ascii("total_gas_used"), Decimal(m.totalGasUsed) + ([COMMA] +
               Quoted(Ascii("timestamp"), SignedDecimal(m.timestamp) + ([COMMA] +
               Quoted(Ascii("rollup_namespace"), quote(m.rollupNamespace)))))) + [CLOSE]
  {
    GasLabel();
    TimeLabel();
    NamespaceLabel();
    assert Ascii("}") == [CLOSE];
    var gas, time, ns := Decimal(m.totalGasUsed), SignedDecimal(m.timestamp), quote(m.rollupNamespace);
    var n1, n2, n3 := Ascii("total_gas_used"), Ascii("timestamp"), Ascii("rollup_namespace");
    hide Ascii, Decimal, SignedDecimal, Quoted;
    var third := Quoted(n3, ns);
    Labelled(COMMA, n3, ns, [CLOSE]);
    ConcatAssociative(time, [COMMA] + third, [CLOSE]);
    var second := Quoted(n2, time + ([COMMA] + third));
    Labelled(COMMA, n2, time + ([COMMA] + third), [CLOSE]);
    ConcatAssociative(gas, [COMMA] + second, [CLOSE]);
    Labelled(OPEN, n1, gas + ([COMMA] + second), [CLOSE]);
  }

  // ---- Roots and commitments --------------------------------------------------------------

  /** The Merkle roots of up to three transactions, written out. */
  lemma SmallTrees(h: HashFn, a: GoString, b: GoString, c: GoString)
    ensures Merkle.MerkleRoot(h, []) == Ascii("0x0")
    ensures Merkle.MerkleRoot(h, [a]) == Ascii("0x") + Hex.Encode(h(a))
    ensures Merkle.MerkleRoot(h, [a, b]) == Ascii("0x") + Hex.Encode(h(h(a) + h(b)))
    ensures Merkle.MerkleRoot(h, [a, b, c]) == Ascii("0x") + Hex.Encode(h(h(h(a) + h(b)) + h(c)))
  {
    ConstantsInWords();
    SmallLeaves(h, a, b, c);
    SmallDigests(h, h(a), h(b), h(c));
    hide Hex.Encode, Merkle.LeafDigests, Merkle.Tree, Ascii;
  }

  lemma SmallLeaves(h: HashFn, a: GoString, b: GoString, c: GoString)
    ensures Merkle.LeafDigests(h, [a]) == [h(a)] && Merkle.LeafDigests(h, [a, b]) == [h(a), h(b)]
    ensures Merkle.LeafDigests(h, [a, b, c]) == [h(a), h(b), h(c)]
  {
  }

  lemma SmallDigests(h: HashFn, a: Digest, b: Digest, c: Digest)
    ensures Merkle.Tree(h, [a]) == a && Merkle.Tree(h, [a, b]) == h(a + b)
    ensures Merkle.Tree(h, [a, b, c]) == h(h(a + b) + c)
  {
    assert Merkle.Split(2) == 1 && Merkle.Split(3) == 2;
    var two: seq<Digest>, three: seq<Digest> := [a, b], [a, b, c];
    assert two[..1] == [a] && two[1..] == [b];
    assert three[..2] == two && three[2..] == [c];
    assert Merkle.Tree(h, two) == h(a + b);
  }

  /** The batch hash and the commitment of a batch, written out: the digest of the transaction
      tree before the state root, and the digest of that before the metadata. */
  lemma CommitmentInWords(sha: HashFn, keccak: HashFn, quote: Quote, c: Content)
    requires |c.txns| > 0
    ensures var hash := sha(Merkle.TextTree(sha, c.txns) + StateRootOf(keccak, c));
      && BatchHash(sha, keccak, c) == Ascii("0x") + Hex.Encode(hash)
      && BatchCommitment(sha, keccak, quote, c)
         == Ascii("0x") + Hex.Encode(sha(hash + MetadataJson(quote, c.metadata)))
  {
    ConstantsInWords();
    InputsInWords(sha, keccak, quote, c);
    hide *;
    BatchHashValue(sha, keccak, c);
    CommitmentValue(sha, keccak, quote, c);
  }

  lemma InputsInWords(sha: HashFn, keccak: HashFn, quote: Quote, c: Content)
    requires |c.txns| > 0
    ensures BatchHashInput(sha, keccak, c) == Merkle.TextTree(sha, c.txns) + StateRootOf(keccak, c)
    ensures CommitmentInput(sha, keccak, quote, c) == sha(BatchHashInput(sha, keccak, c)) + MetadataJson(quote,
        c.metadata)
  {
    hide MetadataJson, StateRootOf, Merkle.Tree, Merkle.LeafDigests;
  }

  /** Roots or hashes that are no hex are answered with "0x0", and nothing else is. */
  lemma ErrorsInWords(sha: HashFn, quote: Quote, root: GoString, state: GoString, m: Metadata)
    ensures ComputeBatchHash(sha, root, state) == Ascii("0x0") <==>
      !Hex.Decode(Hex.Trim0x(root)).ok || !Hex.Decode(Hex.Trim0x(state)).ok
    ensures ComputeBatchCommitment(sha, quote, root, m) == Ascii("0x0") <==> !Hex.Decode(Hex.Trim0x(root)).ok
  {
    hide Hex.Encode, Hex.Decode, Hex.Trim0x, MetadataJson;
  }
}
