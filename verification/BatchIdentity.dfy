/** What a batch made on an account snapshot commits to, and what its commitment identifies. */
module BatchIdentity {
  import opened Bytes
  import opened Accounts
  import opened BatchStore
  import opened Commitment
  import opened Pipeline
  import Hex
  import Merkle
  import StateRoot
  import AccountTrie
  import TrieBinding

  /** The batch carries the state root, the batch hash and the commitment of this content. */
  ghost predicate CommitsTo(cfg: Config, keccak: HashFn, b: Batch, recs: AccountTrie.Records) {
    var c := Content(b.transactions, recs, b.metadata);
    && b.currentStateRoot == Hex.Encode(StateRootOf(keccak, c))
    && b.currentMerkleHash == BatchHash(cfg.sha, keccak, c)
    && b.commitment == BatchCommitment(cfg.sha, keccak, cfg.quote, c)
  }

  /** The batch was made on this account snapshot: its root is empty just when there are no
      accounts or one cannot be encoded, and otherwise it commits to their records. */
  ghost predicate MadeFrom(cfg: Config, keccak: HashFn, accounts: map<GoString, Account>, b: Batch) {
    && (b.currentStateRoot == [] <==> accounts == map[] || StateRoot.SomeNegative(accounts))
    && (!StateRoot.SomeNegative(accounts) ==>
          exists recs :: StateRoot.Represents(accounts, accounts.Keys, recs) && CommitsTo(cfg, keccak, b, recs))
  }

  /** What two batches with equal commitments have in common. */
  ghost predicate SameBatchOf(a: map<GoString, Account>, b: Batch, c: map<GoString, Account>, d: Batch) {
    b.transactions == d.transactions && b.metadata == d.metadata && StateRoot.SameAccounts(a, c)
  }

  /** A collision or a preimage of zero among the strings hashed for two contents. */
  ghost predicate HashFailure(cfg: Config, keccak: HashFn, x: Content, y: Content)
    requires |x.txns| > 0 && |y.txns| > 0
  {
    || CollisionAmong(cfg.sha, ShaInputs(cfg.sha, keccak, cfg.quote, x), ShaInputs(cfg.sha, keccak, cfg.quote, y))
    || CollisionAmong(keccak, KeccakInputs(keccak, x), KeccakInputs(keccak, y))
    || TrieBinding.ZeroPreimageAmong(keccak, KeccakInputs(keccak, x) + KeccakInputs(keccak, y))
  }

  /** Two batches made by CreateBatch with equal commitments have the same transactions, the same
      metadata and the same accounts in their snapshots, or a hash failure is exhibited. */
  lemma CommitmentIdentifiesBatch(cfg: Config, keccak: HashFn, a: map<GoString, Account>, b: Batch,
                                  c: map<GoString, Account>, d: Batch)
    returns (x: AccountTrie.Records, y: AccountTrie.Records)
    requires MadeFrom(cfg, keccak, a, b) && StateRoot.AllCanonical(a) && !StateRoot.SomeNegative(a)
    requires MadeFrom(cfg, keccak, c, d) && StateRoot.AllCanonical(c) && !StateRoot.SomeNegative(c)
    requires forall recs :: StateRoot.Represents(a, a.Keys, recs) ==> StateRoot.SizedRecords(recs)
    requires forall recs :: StateRoot.Represents(c, c.Keys, recs) ==> StateRoot.SizedRecords(recs)
    requires |b.transactions| > 0 && |d.transactions| > 0 && b.commitment == d.commitment
    requires || |b.transactions| == |d.transactions|
             || (Merkle.NoNodeSized(b.transactions) && Merkle.NoNodeSized(d.transactions))
    requires var m, n := b.metadata.rollupNamespace, d.metadata.rollupNamespace; cfg.quote(m) == cfg.quote(n) ==> m == n
    ensures StateRoot.Represents(a, a.Keys, x) && StateRoot.Represents(c, c.Keys, y)
    ensures || SameBatchOf(a, b, c, d)
            || HashFailure(cfg, keccak, Content(b.transactions, x, b.metadata), Content(d.transactions, y, d.metadata))
  {
    hide StateRoot.Represents, StateRoot.AllCanonical, StateRoot.SomeNegative, StateRoot.SizedRecords,
      StateRoot.SameAccounts;
    hide BatchHash, BatchCommitment, CollisionAmong, TrieBinding.ZeroPreimageAmong, ShaInputs, KeccakInputs,
      AccountTrie.WellKeyed;
    x :| StateRoot.Represents(a, a.Keys, x) && CommitsTo(cfg, keccak, b, x);
    y :| StateRoot.Represents(c, c.Keys, y) && CommitsTo(cfg, keccak, d, y);
    StateRoot.RecordsWellKeyed(a, x);
    StateRoot.RecordsWellKeyed(c, y);
    var m, n := Content(b.transactions, x, b.metadata), Content(d.transactions, y, d.metadata);
    CommitmentBinding(cfg.sha, keccak, cfg.quote, m, n);
    if x == y {
      StateRoot.SameRecordsSameAccounts(a, c, x);
    }
  }
}
