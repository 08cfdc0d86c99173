/** The batch hash and the batch commitment, and what they bind a batch to. */
module Commitment {
  import opened Bytes
  import opened Accounts
  import Hex
  import Merkle
  import Rlp
  import StateRoot
  import AccountTrie
  import TrieBinding

  /** BatchMetadata. The timestamp is an int64. */
  datatype Metadata = Metadata(totalGasUsed: uint64, timestamp: int, rollupNamespace: GoString)

  /** How encoding/json quotes a string; only its effect on the namespaces at hand matters. */
  type Quote = GoString -> seq<byte>

  const MINUS: byte := 45

  function SignedDecimal(n: int): (s: GoString)
    ensures |s| > 0
  {
    if n < 0 then [MINUS] + Decimal(-n) else Decimal(n)
  }

  /** json.Marshal(metadata) */
  function MetadataJson(quote: Quote, m: Metadata): seq<byte> {
    Ascii("{\"total_gas_used\":") + (Decimal(m.totalGasUsed) + (Ascii(",\"timestamp\":") +
    (SignedDecimal(m.timestamp) + (Ascii(",\"rollup_namespace\":") + (quote(m.rollupNamespace) + Ascii("}"))))))
  }

  /** ComputeBatchHash, its error results included. */
  function ComputeBatchHash(sha: HashFn, txMerkleRoot: GoString, postStateRoot: GoString): GoString {
    var tx := Hex.Decode(Hex.Trim0x(txMerkleRoot));
    var st := Hex.Decode(Hex.Trim0x(postStateRoot));
    if !tx.ok then Hex.ZERO
    else if !st.ok then Hex.ZERO
    else Hex.PREFIX + Hex.Encode(sha(tx.bytes + st.bytes))
  }

  /** ComputeBatchCommitment */
  function ComputeBatchCommitment(sha: HashFn, quote: Quote, batchHash: GoString, m: Metadata): GoString {
    var bh := Hex.Decode(Hex.Trim0x(batchHash));
    if !bh.ok then Hex.ZERO
    else Hex.PREFIX + Hex.Encode(sha(bh.bytes + MetadataJson(quote, m)))
  }

  // ---- Metadata ---------------------------------------------------------------------------

  lemma SignedDecimalDelimited(m: int, x: GoString, n: int, y: GoString)
    requires SignedDecimal(m) + x == SignedDecimal(n) + y
    requires |x| > 0 && !IsDecimalDigit(x[0])
    requires |y| > 0 && !IsDecimalDigit(y[0])
    ensures m == n && x == y
  {
    hide Decimal;
    var a, b := if m < 0 then -m else m, if n < 0 then -n else n;
    assert (SignedDecimal(m) + x)[0] == SignedDecimal(m)[0] && (SignedDecimal(n) + y)[0] == SignedDecimal(n)[0];
    assert IsDecimalDigit(Decimal(a)[0]) && IsDecimalDigit(Decimal(b)[0]);
    if m < 0 {
      ConcatAssociative([MINUS], Decimal(a), x);
      ConcatAssociative([MINUS], Decimal(b), y);
      SplitConcat([MINUS], Decimal(a) + x, [MINUS], Decimal(b) + y);
    }
    DecimalDelimited(a, x, b, y);
  }

  /** The JSON form determines the metadata, as far as quoting tells the namespaces apart. */
  lemma MetadataJsonInjective(quote: Quote, m: Metadata, n: Metadata)
    requires quote(m.rollupNamespace) == quote(n.rollupNamespace) ==> m.rollupNamespace == n.rollupNamespace
    requires MetadataJson(quote, m) == MetadataJson(quote, n)
    ensures m == n
  {
    hide Decimal, SignedDecimal;
    var close := Ascii("}");
    var ns, ns' := quote(m.rollupNamespace), quote(n.rollupNamespace);
    var key3 := Ascii(",\"rollup_namespace\":");
    var t3, t3' := key3 + (ns + close), key3 + (ns' + close);
    var key2 := Ascii(",\"timestamp\":");
    var t2, t2' := key2 + (SignedDecimal(m.timestamp) + t3), key2 + (SignedDecimal(n.timestamp) + t3');
    var key1 := Ascii("{\"total_gas_used\":");
    SplitConcat(key1, Decimal(m.totalGasUsed) + t2, key1, Decimal(n.totalGasUsed) + t2');
    assert t2[0] == 44 && t2'[0] == 44 && t3[0] == 44 && t3'[0] == 44;
    DecimalDelimited(m.totalGasUsed, t2, n.totalGasUsed, t2');
    SplitConcat(key2, SignedDecimal(m.timestamp) + t3, key2, SignedDecimal(n.timestamp) + t3');
    SignedDecimalDelimited(m.timestamp, t3, n.timestamp, t3');
    SplitConcat(key3, ns + close, key3, ns' + close);
    assert |ns| == |ns'|;
    SplitConcat(ns, close, ns', close);
  }

  // ---- What is hashed for a batch ---------------------------------------------------------

  /** What a batch commits to: its transactions, the account records behind its post-state
      root, and its metadata. */
  datatype Content = Content(txns: seq<GoString>, records: AccountTrie.Records, metadata: Metadata)

  ghost function StateRootOf(keccak: HashFn, c: Content): seq<byte> {
    AccountTrie.Root(keccak, c.records)
  }

  ghost function TxTree(sha: HashFn, c: Content): Digest
    requires |c.txns| > 0
  {
    Merkle.Tree(sha, Merkle.LeafDigests(sha, c.txns))
  }

  ghost function BatchHashInput(sha: HashFn, keccak: HashFn, c: Content): seq<byte>
    requires |c.txns| > 0
  {
    Merkle.Join(TxTree(sha, c), StateRootOf(keccak, c))
  }

  ghost function CommitmentInput(sha: HashFn, keccak: HashFn, quote: Quote, c: Content): seq<byte>
    requires |c.txns| > 0
  {
    Merkle.Join(sha(BatchHashInput(sha, keccak, c)), MetadataJson(quote, c.metadata))
  }

  /** Every string SHA-256 is applied to on the way to the commitment. */
  ghost function ShaInputs(sha: HashFn, keccak: HashFn, quote: Quote, c: Content): set<seq<byte>>
    requires |c.txns| > 0
  {
    Merkle.MerkleInputs(sha, c.txns) + {BatchHashInput(sha, keccak, c), CommitmentInput(sha, keccak, quote, c)}
  }

  ghost function KeccakInputs(keccak: HashFn, c: Content): set<seq<byte>> {
    AccountTrie.Hashed(keccak, c.records, StateRoot.ADDRESS_SIZE)
  }

  /** The current Merkle hash and the commitment as CreateBatch computes them. */
  ghost function BatchHash(sha: HashFn, keccak: HashFn, c: Content): GoString {
    ComputeBatchHash(sha, Merkle.MerkleRoot(sha, c.txns), Hex.Encode(StateRootOf(keccak, c)))
  }

  ghost function BatchCommitment(sha: HashFn, keccak: HashFn, quote: Quote, c: Content): GoString {
    ComputeBatchCommitment(sha, quote, BatchHash(sha, keccak, c), c.metadata)
  }

  /** No error branch is taken: the hex that was written is read back. */
  lemma BatchHashValue(sha: HashFn, keccak: HashFn, c: Content)
    requires |c.txns| > 0
    ensures BatchHash(sha, keccak, c) == Hex.PREFIX + Hex.Encode(sha(BatchHashInput(sha, keccak, c)))
  {
    hide Hex.Encode, Hex.Decode, Hex.Trim0x, TxTree, StateRootOf;
    Hex.TrimHex(TxTree(sha, c));
    Hex.TrimHex(StateRootOf(keccak, c));
    Hex.DecodeEncode(TxTree(sha, c));
    Hex.DecodeEncode(StateRootOf(keccak, c));
    MerkleRootValue(sha, c);
  }

  lemma MerkleRootValue(sha: HashFn, c: Content)
    requires |c.txns| > 0
    ensures Merkle.MerkleRoot(sha, c.txns) == Hex.PREFIX + Hex.Encode(TxTree(sha, c))
  {
    hide Hex.Encode, Merkle.Tree;
  }

  lemma CommitmentValue(sha: HashFn, keccak: HashFn, quote: Quote, c: Content)
    requires |c.txns| > 0
    ensures BatchCommitment(sha, keccak, quote, c)
      == Hex.PREFIX + Hex.Encode(sha(CommitmentInput(sha, keccak, quote, c)))
  {
    hide Hex.Encode, Hex.Decode, Hex.Trim0x, BatchHash, BatchHashInput, MetadataJson;
    var d := sha(BatchHashInput(sha, keccak, c));
    BatchHashValue(sha, keccak, c);
    Hex.TrimHex(d);
    Hex.DecodeEncode(d);
  }

  // ---- Binding ----------------------------------------------------------------------------

  ghost predicate ShaSound(sha: HashFn, keccak: HashFn, quote: Quote, a: Content, b: Content)
    requires |a.txns| > 0 && |b.txns| > 0
  {
    !CollisionAmong(sha, ShaInputs(sha, keccak, quote, a), ShaInputs(sha, keccak, quote, b))
  }

  lemma SameDigestSameInput(sha: HashFn, keccak: HashFn, quote: Quote, a: Content, b: Content, x: seq<byte>,
      y: seq<byte>)
    requires |a.txns| > 0 && |b.txns| > 0 && sha(x) == sha(y)
    ensures ShaSound(sha, keccak, quote, a, b) && x in ShaInputs(sha, keccak, quote, a)
      && y in ShaInputs(sha, keccak, quote, b)
      ==> x == y
  {
    hide ShaInputs;
  }

  /** Equal commitments open to equal batch hashes and equal metadata. */
  lemma OpenCommitment(sha: HashFn, keccak: HashFn, quote: Quote, a: Content, b: Content)
    requires |a.txns| > 0 && |b.txns| > 0
    ensures var same := BatchCommitment(sha, keccak, quote, a) == BatchCommitment(sha, keccak, quote, b);
      same && ShaSound(sha, keccak, quote, a, b) ==>
      && BatchHashInput(sha, keccak, a) == BatchHashInput(sha, keccak, b)
      && MetadataJson(quote, a.metadata) == MetadataJson(quote, b.metadata)
  {
    hide BatchCommitment, BatchHashInput, MetadataJson, Hex.Encode, ShaSound, Merkle.MerkleInputs;
    if BatchCommitment(sha, keccak, quote, a) != BatchCommitment(sha, keccak, quote, b) {
      return;
    }
    if !ShaSound(sha, keccak, quote, a, b) {
      return;
    }
    var x, y := CommitmentInput(sha, keccak, quote, a), CommitmentInput(sha, keccak, quote, b);
    CommitmentValue(sha, keccak, quote, a);
    CommitmentValue(sha, keccak, quote, b);
    SplitConcat(Hex.PREFIX, Hex.Encode(sha(x)), Hex.PREFIX, Hex.Encode(sha(y)));
    Hex.EncodeInjective(sha(x), sha(y));
    SameDigestSameInput(sha, keccak, quote, a, b, x, y);
    var p, q := BatchHashInput(sha, keccak, a), BatchHashInput(sha, keccak, b);
    SplitConcat(sha(p), MetadataJson(quote, a.metadata), sha(q), MetadataJson(quote, b.metadata));
    SameDigestSameInput(sha, keccak, quote, a, b, p, q);
  }

  /** The transactions are not confused with inner nodes: as many on both sides, or none with
      the length of a node's text. */
  predicate Tellable(a: Content, b: Content) {
    |a.txns| == |b.txns| || (Merkle.NoNodeSized(a.txns) && Merkle.NoNodeSized(b.txns))
  }

  /** Two batches with the same commitment have the same transactions, the same account records
      and the same metadata; or a SHA-256 collision, a Keccak collision or a Keccak preimage of
      zero stands among the strings hashed. */
  lemma CommitmentBinding(sha: HashFn, keccak: HashFn, quote: Quote, a: Content, b: Content)
    requires |a.txns| > 0 && |b.txns| > 0 && Tellable(a, b)
    requires AccountTrie.WellKeyed(a.records, StateRoot.ADDRESS_SIZE)
    requires AccountTrie.WellKeyed(b.records, StateRoot.ADDRESS_SIZE)
    requires var m, n := a.metadata.rollupNamespace, b.metadata.rollupNamespace; quote(m) == quote(n) ==> m == n
    ensures BatchCommitment(sha, keccak, quote, a) == BatchCommitment(sha, keccak, quote, b) ==>
      || a == b
      || CollisionAmong(sha, ShaInputs(sha, keccak, quote, a), ShaInputs(sha, keccak, quote, b))
      || CollisionAmong(keccak, KeccakInputs(keccak, a), KeccakInputs(keccak, b))
      || TrieBinding.ZeroPreimageAmong(keccak, KeccakInputs(keccak, a) + KeccakInputs(keccak, b))
  {
    hide BatchCommitment, MetadataJson, TxTree, AccountTrie.Root, AccountTrie.Hashed, AccountTrie.WellKeyed;
    hide CollisionAmong, TrieBinding.ZeroPreimageAmong, ShaInputs, Tellable;
    var same := BatchCommitment(sha, keccak, quote, a) == BatchCommitment(sha, keccak, quote, b);
    if same && ShaSound(sha, keccak, quote, a, b) {
      OpenCommitment(sha, keccak, quote, a, b);
      MetadataJsonInjective(quote, a.metadata, b.metadata);
      SplitConcat(TxTree(sha, a), StateRootOf(keccak, a), TxTree(sha, b), StateRootOf(keccak, b));
      SameTransactions(sha, keccak, quote, a, b);
      AccountTrie.RecordsBinding(keccak, a.records, b.records, StateRoot.ADDRESS_SIZE);
    }
  }

  lemma SameTransactions(sha: HashFn, keccak: HashFn, quote: Quote, a: Content, b: Content)
    requires |a.txns| > 0 && |b.txns| > 0 && Tellable(a, b) && ShaSound(sha, keccak, quote, a, b)
    requires TxTree(sha, a) == TxTree(sha, b)
    ensures a.txns == b.txns
  {
    MerkleRootValue(sha, a);
    MerkleRootValue(sha, b);
    hide TxTree, Merkle.MerkleInputs, CollisionAmong, Merkle.MerkleRoot, Merkle.NoNodeSized, Merkle.NodeAsText;
    NoMerkleCollision(sha, keccak, quote, a, b);
    if |a.txns| == |b.txns| {
      Merkle.MerkleBinding(sha, a.txns, b.txns);
    } else {
      Merkle.RootBindsLists(sha, a.txns, b.txns);
    }
  }

  lemma NoMerkleCollision(sha: HashFn, keccak: HashFn, quote: Quote, a: Content, b: Content)
    requires |a.txns| > 0 && |b.txns| > 0 && ShaSound(sha, keccak, quote, a, b)
    ensures !CollisionAmong(sha, Merkle.MerkleInputs(sha, a.txns), Merkle.MerkleInputs(sha, b.txns))
  {
    hide Merkle.MerkleInputs, CollisionAmong, BatchHashInput, CommitmentInput;
    var x, y := ShaInputs(sha, keccak, quote, a), ShaInputs(sha, keccak, quote, b);
    if CollisionAmong(sha, Merkle.MerkleInputs(sha, a.txns), Merkle.MerkleInputs(sha, b.txns)) {
      CollisionAmongMonotone(sha, Merkle.MerkleInputs(sha, a.txns), Merkle.MerkleInputs(sha, b.txns), x, y);
      assert false;
    }
  }

  // ---- The texts the producer makes -------------------------------------------------------

  /** hex.EncodeToString(rlp.EncodeToBytes(tx)) */
  function TextOf(tx: Rlp.Item): GoString {
    Hex.Encode(Rlp.Encode(tx))
  }

  lemma {:induction false} EncodedParts(xs: seq<Rlp.Item>, i: nat, j: nat)
    requires i < j < |xs|
    ensures |Rlp.EncodeAll(xs)| >= |Rlp.Encode(xs[i])| + |Rlp.Encode(xs[j])|
  {
    if i == 0 {
      EncodedPart(xs[1..], j - 1);
    } else {
      EncodedParts(xs[1..], i - 1, j - 1);
    }
  }

  lemma {:induction false} EncodedPart(xs: seq<Rlp.Item>, j: nat)
    requires j < |xs|
    ensures |Rlp.EncodeAll(xs)| >= |Rlp.Encode(xs[j])|
  {
    if j == 0 {
    } else {
      EncodedPart(xs[1..], j - 1);
    }
  }

  /** A signed transaction, legacy or typed, has the two signature words among its fields. With
      32 bytes in them its text is longer than a node's. */
  lemma SignedTextIsLong(fields: seq<Rlp.Item>, i: nat, j: nat, kind: byte)
    requires i < j < |fields| && fields[i].Str? && fields[j].Str?
    requires |fields[i].bytes| + |fields[j].bytes| >= DIGEST_SIZE
    ensures |TextOf(Rlp.List(fields))| > Merkle.NODE_SIZE
    ensures |TextOf(Rlp.Str([kind] + Rlp.Encode(Rlp.List(fields))))| > Merkle.NODE_SIZE
  {
    EncodedParts(fields, i, j);
    StringLength(fields[i].bytes);
    StringLength(fields[j].bytes);
    hide Hex.Encode, Rlp.EncodeAll, Rlp.Header;
  }

  lemma StringLength(b: seq<byte>)
    ensures |Rlp.Encode(Rlp.Str(b))| >= |b|
  {
    hide Rlp.Header;
  }

  // ---- The data availability payload ------------------------------------------------------

  /** strings.Join(txns, "") over the hex forms of RLP items, as the producer makes them. */
  function JoinedHex(txs: seq<Rlp.Item>): GoString {
    if |txs| == 0 then [] else TextOf(txs[0]) + JoinedHex(txs[1..])
  }

  /** The payload has no separators, and still parses back to exactly the transaction list. */
  lemma PayloadParses(txs: seq<Rlp.Item>)
    requires |Rlp.EncodeAll(txs)| < UINT64
    ensures var d := Hex.Decode(JoinedHex(txs)); d.ok && Rlp.DecodeAll(d.bytes) == Some(txs)
  {
    JoinedHexIsHexOfAll(txs);
    Hex.DecodeEncode(Rlp.EncodeAll(txs));
    Rlp.DecodeEncodeAll(txs);
  }

  lemma {:induction false} JoinedHexIsHexOfAll(txs: seq<Rlp.Item>)
    ensures JoinedHex(txs) == Hex.Encode(Rlp.EncodeAll(txs))
  {
    if |txs| == 0 {
    } else {
      JoinedHexIsHexOfAll(txs[1..]);
      Hex.EncodeConcat(Rlp.Encode(txs[0]), Rlp.EncodeAll(txs[1..]));
    }
  }
}
