/** The batch database: the records kept in it and the keys they are kept under. */
module BatchStore {
  import opened Bytes
  import opened Commitment

  // ---- Records ----------------------------------------------------------------------------

  datatype DaReceipt = DaReceipt(provider: GoString, commitment: GoString, blockHash: GoString, txHash: GoString)

  datatype Batch = Batch(
    transactions: seq<GoString>,
    executionTraces: seq<GoString>,
    fromBalances: seq<GoString>,
    toBalances: seq<GoString>,
    prevMerkleHash: GoString,
    currentMerkleHash: GoString,
    previousStateRoot: GoString,
    currentStateRoot: GoString,
    batchNo: nat,
    metadata: Metadata,
    commitment: GoString,
    da: DaReceipt,
    submitted: bool,
    verified: bool)

  /** What is stored: JSON is a round trip, so batches are kept as they are. */
  datatype Value =
    | BatchRecord(batch: Batch)
    | Text(text: GoString)
    | Number(bytes: seq<byte>)
    | Proof

  // ---- Keys -------------------------------------------------------------------------------

  datatype Key =
    | BatchKey(n: nat)
    | HashKey(n: nat)
    | StateKey(n: nat)
    | ProofKey(n: nat)
    | LastBlock
    | PartialBatch

  const BATCH: GoString := [98, 97, 116, 99, 104, 95]
  const HASH: GoString := [95, 104, 97, 115, 104]
  const STATE: GoString := [115, 116, 97, 116, 101, 95]
  const PROOF: GoString := [112, 114, 111, 111, 102, 95]
  const LAST_BLOCK: GoString := [108, 97, 115, 116, 95, 98, 108, 111, 99, 107]
  const PARTIAL_BATCH: GoString := [112, 97, 114, 116, 105, 97, 108, 95, 98, 97, 116, 99, 104]

  /** The key strings the fmt.Sprintf calls make. */
  function Render(k: Key): (s: GoString)
    ensures |s| > 6
  {
    match k
    case BatchKey(n) => BATCH + Decimal(n)
    case HashKey(n) => BATCH + (Decimal(n) + HASH)
    case StateKey(n) => STATE + Decimal(n)
    case ProofKey(n) => PROOF + Decimal(n)
    case LastBlock => LAST_BLOCK
    case PartialBatch => PARTIAL_BATCH
  }

  /** In words. */
  lemma KeyTexts(n: nat)
    ensures Render(BatchKey(n)) == Ascii("batch_") + Decimal(n)
    ensures Render(HashKey(n)) == Ascii("batch_") + Decimal(n) + Ascii("_hash")
    ensures Render(StateKey(n)) == Ascii("state_") + Decimal(n)
    ensures Render(ProofKey(n)) == Ascii("proof_") + Decimal(n)
    ensures Render(LastBlock) == Ascii("last_block") && Render(PartialBatch) == Ascii("partial_batch")
  {
    Words();
    hide Decimal, Ascii;
    ConcatAssociative(BATCH, Decimal(n), HASH);
  }

  lemma Words()
    ensures BATCH == Ascii("batch_") && HASH == Ascii("_hash") && STATE == Ascii("state_")
    ensures PROOF == Ascii("proof_") && LAST_BLOCK == Ascii("last_block") && PARTIAL_BATCH == Ascii("partial_batch")
  {
  }

  function NumberIn(s: GoString): nat {
    FromDigits(10, Numerals(s))
  }

  /** Reads a key string back. */
  function Parse(s: GoString): Key
    requires |s| > 6
  {
    if s[0] == 98 then
      if IsDecimalDigit(s[|s| - 1]) || |s| < 11 then BatchKey(NumberIn(s[6..]))
      else HashKey(NumberIn(s[6..|s| - 5]))
    else if s[0] == 115 then StateKey(NumberIn(s[6..]))
    else if s[0] == 108 then LastBlock
    else if s[1] == 114 then ProofKey(NumberIn(s[6..]))
    else PartialBatch
  }

  lemma ParseRender(k: Key)
    ensures Parse(Render(k)) == k
  {
    hide Decimal, FromDigits;
    var s := Render(k);
    match k
    case HashKey(n) =>
      var d := Decimal(n);
      DecimalValue(n);
      assert s == BATCH + d + HASH;
      assert s[6..|s| - 5] == d;
      assert s[|s| - 1] == HASH[4];
    case BatchKey(n) =>
      DecimalValue(n);
      assert s[6..] == Decimal(n);
      assert s[|s| - 1] == Decimal(n)[|Decimal(n)| - 1];
    case StateKey(n) =>
      DecimalValue(n);
      assert s[6..] == Decimal(n);
    case ProofKey(n) =>
      DecimalValue(n);
      assert s[6..] == Decimal(n);
    case LastBlock =>
    case PartialBatch =>
  }

  /** The key families are pairwise disjoint, and each is injective in its number. */
  lemma KeysDistinct(k: Key, l: Key)
    requires Render(k) == Render(l)
    ensures k == l
  {
    ParseRender(k);
    ParseRender(l);
  }

  // ---- The database -----------------------------------------------------------------------

  type Db = map<GoString, Value>

  function Get(db: Db, k: Key): Option<Value> {
    if Render(k) in db then Some(db[Render(k)]) else None
  }

  function Put(db: Db, k: Key, v: Value): Db {
    db[Render(k) := v]
  }

  /** A write under one key shows under that key and under no other. */
  lemma GetPut(db: Db, k: Key, v: Value)
    ensures forall l :: Get(Put(db, k, v), l) == if l == k then Some(v) else Get(db, l)
  {
    hide Render;
    forall l
      ensures Get(Put(db, k, v), l) == if l == k then Some(v) else Get(db, l)
    {
      if Render(k) == Render(l) {
        KeysDistinct(k, l);
      }
    }
  }

  /** string(bytes) of what is stored; a missing key reads as the empty string. */
  function TextAt(db: Db, k: Key): GoString {
    match Get(db, k)
    case Some(Text(t)) => t
    case _ => []
  }

  // ---- The latest-batch scan --------------------------------------------------------------

  /** The numbers of the saved batches are exactly 1 to `n`. */
  ghost predicate SavedUpTo(db: Db, n: nat) {
    forall k: nat :: Get(db, BatchKey(k)).Some? <==> 1 <= k <= n
  }

  /** getLatestBatch: counts up from 1 to the first missing key; 0 stands for "No batches
      found". It stops on every database, and where the numbers have no gap, at the highest. */
  method LatestBatch(db: Db) returns (latest: nat)
    ensures forall k: nat :: 1 <= k <= latest ==> Get(db, BatchKey(k)).Some?
    ensures Get(db, BatchKey(latest + 1)).None?
    ensures forall n: nat :: SavedUpTo(db, n) ==> latest == n
  {
    hide Render;
    var batchNo := 1;
    ghost var seen: set<GoString> := {};
    while Get(db, BatchKey(batchNo)).Some?
      invariant 1 <= batchNo
      invariant forall k: nat :: 1 <= k < batchNo ==> Get(db, BatchKey(k)).Some?
      invariant seen <= db.Keys && forall s :: s in seen ==> exists k: nat :: k < batchNo && s == Render(BatchKey(k))
      decreases db.Keys - seen
    {
      forall k: nat | k < batchNo
        ensures Render(BatchKey(k)) != Render(BatchKey(batchNo))
      {
        if Render(BatchKey(k)) == Render(BatchKey(batchNo)) {
          KeysDistinct(BatchKey(k), BatchKey(batchNo));
        }
      }
      assert Render(BatchKey(batchNo)) in db.Keys - seen;
      seen := seen + {Render(BatchKey(batchNo))};
      batchNo := batchNo + 1;
    }
    latest := batchNo - 1;
    forall n: nat | SavedUpTo(db, n)
      ensures latest == n
    {
      assert latest >= 1 ==> Get(db, BatchKey(latest)).Some?;
      assert Get(db, BatchKey(latest + 1)).None?;
    }
  }
}
