/** The trie with account records in its leaves: the root commits to the records. */
module AccountTrie {
  import opened Bytes
  import opened TrieSpec
  import opened Accounts
  import TrieBinding

  /** Account records under their address bytes. */
  type Records = map<seq<byte>, Record>

  ghost predicate WellKeyed(a: Records, depth: nat) {
    && (forall k :: k in a ==> |k| == depth)
    && (forall k :: k in a ==> Sized(a[k]))
  }

  /** What the trie stores for a map of records. */
  ghost function Encoded(a: Records): (m: Contents)
    ensures m.Keys == a.Keys
  {
    map k | k in a :: EncodeRecord(a[k])
  }

  ghost function Root(h: HashFn, a: Records): seq<byte> {
    RootHash(h, Encoded(a))
  }

  /** Only the root over no records is empty. */
  lemma EmptyRoot(h: HashFn, a: Records)
    ensures Root(h, a) == [] <==> a == map[]
  {
    hide EncodeRecord, Slots, Prefixes, Height;
    assert Encoded(a).Keys == a.Keys;
    if a != map[] {
      var k :| k in a;
      assert k in Encoded(a) && k in a.Keys;
      assert [] in a ==> |Encoded(a)[[]]| > 0;
    }
  }

  /** The strings hashed on the way to the root. */
  ghost function Hashed(h: HashFn, a: Records, depth: nat): set<seq<byte>> {
    TrieBinding.Hashed(h, Encoded(a), depth)
  }

  /** Encoded records start at 0xc0 or above, and are prefix-free. */
  lemma RecordsAreSelfDelimiting(a: Records, b: Records, depth: nat)
    requires WellKeyed(a, depth) && WellKeyed(b, depth)
    ensures TrieBinding.Comparable(Encoded(a), Encoded(b), depth)
  {
    hide EncodeRecord, Sized;
    var m, n := Encoded(a), Encoded(b);
    forall k, l | k in m && l in n && (m[k] <= n[l] || n[l] <= m[k])
      ensures m[k] == n[l]
    {
      assert Sized(a[k]) && Sized(b[l]);
      if m[k] <= n[l] {
        NoProperPrefix(a[k], b[l]);
      } else {
        NoProperPrefix(b[l], a[k]);
      }
    }
  }

  lemma NoProperPrefix(r: Record, s: Record)
    requires Sized(r) && Sized(s) && EncodeRecord(r) <= EncodeRecord(s)
    ensures r == s
  {
    var x, y := EncodeRecord(r), EncodeRecord(s);
    hide EncodeRecord;
    assert x + y[|x|..] == y + [];
    RecordPrefixFree(r, y[|x|..], s, []);
  }

  lemma EncodedInjective(a: Records, b: Records, depth: nat)
    requires WellKeyed(a, depth) && WellKeyed(b, depth) && Encoded(a) == Encoded(b)
    ensures a == b
  {
    hide EncodeRecord, Sized;
    assert a.Keys == Encoded(a).Keys == b.Keys;
    forall k | k in a
      ensures a[k] == b[k]
    {
      assert Encoded(a)[k] == EncodeRecord(a[k]) && Encoded(b)[k] == EncodeRecord(b[k]);
      assert Sized(a[k]) && Sized(b[k]);
      NoProperPrefix(a[k], b[k]);
    }
  }

  /** Equal roots: equal account records, or a hash failure among the strings hashed. */
  lemma RecordsBinding(h: HashFn, a: Records, b: Records, depth: nat)
    requires 0 < depth && WellKeyed(a, depth) && WellKeyed(b, depth)
    requires Root(h, a) == Root(h, b)
    ensures || a == b
            || CollisionAmong(h, Hashed(h, a, depth), Hashed(h, b, depth))
            || TrieBinding.ZeroPreimageAmong(h, Hashed(h, a, depth) + Hashed(h, b, depth))
  {
    hide Encoded, WellKeyed, RootHash, TrieBinding.Hashed, CollisionAmong, TrieBinding.ZeroPreimageAmong,
      TrieBinding.Comparable;
    RecordsAreSelfDelimiting(a, b, depth);
    TrieBinding.RootBinding(h, Encoded(a), Encoded(b), depth);
    if Encoded(a) == Encoded(b) {
      EncodedInjective(a, b, depth);
    }
  }
}
