/** What the state trie computes, as a function of the map it stores: no nodes, no order. */
module TrieSpec {
  import opened Bytes

  const FANOUT: nat := 256

  /** The stored map. Accounts have keys of one length; the trie itself takes any keys. */
  type Contents = map<seq<byte>, seq<byte>>
  type Path = seq<byte>

  /** The path one level down. */
  function Child(p: Path, b: byte): Path {
    p + [b]
  }

  lemma ChildUnique(p: Path, b: byte, q: Path, c: byte)
    requires Child(p, b) == Child(q, c)
    ensures p == q && b == c
  {
    SplitConcat(p, [b], q, [c]);
  }

  /** All keys have this length. */
  ghost predicate Uniform(m: Contents, depth: nat) {
    forall k :: k in m ==> |k| == depth
  }

  /** The paths that lead to a node: every prefix of every key. */
  ghost function Prefixes(m: Contents): set<Path> {
    set k, i | k in m && 0 <= i <= |k| :: k[..i]
  }

  lemma InPrefixes(m: Contents, path: Path)
    ensures path in Prefixes(m) <==> exists k :: k in m && path <= k
  {
    if path in Prefixes(m) {
      var k, i :| k in m && 0 <= i <= |k| && path == k[..i];
      assert path <= k;
    }
    forall k | k in m && path <= k
      ensures path in Prefixes(m)
    {
      assert path == k[..|path|];
    }
  }

  /** The length of the longest key. */
  ghost function Height(m: Contents): (d: nat)
    ensures forall k :: k in m ==> |k| <= d
    ensures m != map[] ==> exists k :: k in m && |k| == d
    decreases |m|
  {
    if m == map[] then 0
    else
      var k :| k in m;
      var d := Height(m - {k});
      assert forall l :: l in m ==> l == k || l in m - {k};
      if |k| >= d || m - {k} == map[] then |k| else d
  }

  /** The hash field of the node at `path`: the raw value in a leaf, the digest of the 256
      slots elsewhere. No path is longer than `depth`. */
  ghost function NodeHash(h: HashFn, m: Contents, paths: set<Path>, depth: nat, path: Path): seq<byte>
    requires |path| <= depth
    decreases depth - |path|, FANOUT + 1
  {
    if path in m then m[path]
    else if |path| == depth then []
    else h(Slots(h, m, paths, depth, path, 0))
  }

  /** The slots from child `i` on: each child's hash, or 32 zero bytes where there is none. */
  ghost function Slots(h: HashFn, m: Contents, paths: set<Path>, depth: nat, path: Path, i: nat): seq<byte>
    requires |path| < depth && i <= FANOUT
    decreases depth - |path|, FANOUT - i
  {
    if i == FANOUT then []
    else Slot(h, m, paths, depth, path, i) + Slots(h, m, paths, depth, path, i + 1)
  }

  ghost function Slot(h: HashFn, m: Contents, paths: set<Path>, depth: nat, path: Path, b: byte): seq<byte>
    requires |path| < depth
    decreases depth - |path|, 0
  {
    if Child(path, b) in paths then NodeHash(h, m, paths, depth, Child(path, b)) else ZERO_DIGEST
  }

  /** Where all slots are as wide as a digest, byte 32 b on is the hash of child `b`, or zeros. */
  lemma {:induction false} SlotsInOrder(h: HashFn, m: Contents, paths: set<Path>, depth: nat, path: Path, i: nat,
      b: byte)
    requires |path| < depth && i <= b
    requires forall c: byte :: |Slot(h, m, paths, depth, path, c)| == 32
    ensures var text := Slots(h, m, paths, depth, path, i);
      && |text| == 32 * (256 - i)
      && text[32 * (b - i)..32 * (b - i) + 32] ==
         if path + [b] in paths then NodeHash(h, m, paths, depth, path + [b]) else ZERO_DIGEST
    decreases 256 - i
  {
    hide NodeHash, Slots;
    SlotsFirst(h, m, paths, depth, path, i);
    var first, rest := Slot(h, m, paths, depth, path, i), Slots(h, m, paths, depth, path, i + 1);
    if i == 255 {
      assert rest == [] && (first + rest)[0..32] == first;
    } else {
      SlotsInOrder(h, m, paths, depth, path, i + 1, if i < b then b else b + 1);
      SliceBehind(first, rest, if i < b then 32 * (b - i - 1) else 0);
    }
  }

  lemma SlotsFirst(h: HashFn, m: Contents, paths: set<Path>, depth: nat, path: Path, i: nat)
    requires |path| < depth && i < 256
    ensures Slots(h, m, paths, depth, path, i)
      == Slot(h, m, paths, depth, path, i) + Slots(h, m, paths, depth, path, i + 1)
    ensures Slots(h, m, paths, depth, path, 256) == []
  {
    hide Slot;
  }

  lemma SliceBehind(first: seq<byte>, rest: seq<byte>, k: nat)
    requires |first| == 32 && k + 32 <= |rest|
    ensures (first + rest)[32 + k..64 + k] == rest[k..k + 32] && (first + rest)[0..32] == first
  {
  }

  /** The root's hash field. A tree nobody inserted into has a nil hash. */
  ghost function RootHash(h: HashFn, m: Contents): seq<byte> {
    if m == map[] then [] else NodeHash(h, m, Prefixes(m), Height(m), [])
  }

  /** Every key of `m` is shorter than both depths, or as long. */
  ghost predicate Fits(m: Contents, depth: nat) {
    forall k :: k in m ==> |k| <= depth
  }

  /** The depth only has to be large enough. */
  lemma {:induction false} DepthIrrelevant(h: HashFn, m: Contents, d: nat, e: nat, path: Path)
    requires Fits(m, d) && Fits(m, e) && path in Prefixes(m) && |path| <= d && |path| <= e
    ensures NodeHash(h, m, Prefixes(m), d, path) == NodeHash(h, m, Prefixes(m), e, path)
    decreases d - |path|, FANOUT + 1
  {
    if path in m {
    } else {
      InPrefixes(m, path);
      var k :| k in m && path <= k;
      assert |path| == |k| ==> path == k;
      SlotsIrrelevant(h, m, d, e, path, 0);
    }
  }

  lemma {:induction false} SlotsIrrelevant(h: HashFn, m: Contents, d: nat, e: nat, path: Path, i: nat)
    requires Fits(m, d) && Fits(m, e) && |path| < d && |path| < e && i <= FANOUT
    ensures Slots(h, m, Prefixes(m), d, path, i) == Slots(h, m, Prefixes(m), e, path, i)
    decreases d - |path|, FANOUT - i
  {
    hide NodeHash, Prefixes, Fits;
    if i == FANOUT {
    } else {
      if Child(path, i) in Prefixes(m) {
        DepthIrrelevant(h, m, d, e, Child(path, i));
      }
      SlotsIrrelevant(h, m, d, e, path, i + 1);
    }
  }

  lemma RootIsNode(h: HashFn, m: Contents, depth: nat)
    requires m != map[] && Fits(m, depth)
    ensures [] in Prefixes(m) && RootHash(h, m) == NodeHash(h, m, Prefixes(m), depth, [])
  {
    hide Prefixes, NodeHash, Height;
    var k :| k in m;
    assert k in m && [] <= k;
    InPrefixes(m, []);
    DepthIrrelevant(h, m, depth, Height(m), []);
  }

  /** 32 zero bytes for each of `n` children. */
  function Zeros(n: nat): seq<byte> {
    if n == 0 then [] else ZERO_DIGEST + Zeros(n - 1)
  }

  /** The root over one key of one byte, written out: its value stands between the zeros. */
  lemma RootOfOne(h: HashFn, b: byte, v: seq<byte>)
    ensures RootHash(h, map[[b] := v]) == h(Zeros(b) + v + Zeros(255 - b))
  {
    hide *;
    var text := Zeros(b) + v + Zeros(255 - b);
    SlotsOfOne(h, b, v, 0);
    assert Slots(h, map[[b] := v], {[], [b]}, 1, [], 0) == text;
    RootUnfolded(h, b, v);
  }

  lemma RootUnfolded(h: HashFn, b: byte, v: seq<byte>)
    ensures RootHash(h, map[[b] := v]) == h(Slots(h, map[[b] := v], {[], [b]}, 1, [], 0))
  {
    PrefixesOfOne(b, v);
    hide Slots, Prefixes, Height, Zeros;
    var m := map[[b] := v];
    assert [b] in m && [] !in m;
    assert NodeHash(h, m, {[], [b]}, 1, []) == h(Slots(h, m, {[], [b]}, 1, [], 0));
  }

  lemma PrefixesOfOne(b: byte, v: seq<byte>)
    ensures Prefixes(map[[b] := v]) == {[], [b]} && Height(map[[b] := v]) == 1
  {
    var m := map[[b] := v];
    assert [b] in m;
    assert [b][..0] == [] && [b][..1] == [b];
  }

  lemma {:induction false} SlotsOfOne(h: HashFn, b: byte, v: seq<byte>, i: nat)
    requires i <= 256
    ensures Slots(h, map[[b] := v], {[], [b]}, 1, [], i) ==
      if i <= b then Zeros(b - i) + v + Zeros(255 - b) else Zeros(256 - i)
    decreases 256 - i
  {
    if i == 256 {
    } else {
      SlotsOfOne(h, b, v, i + 1);
      var m := map[[b] := v];
      assert Child([], i) == [i] && ([i] in {[], [b]} <==> i == b);
      if i < b {
        ConcatAssociative(ZERO_DIGEST, Zeros(b - i - 1), v);
        ConcatAssociative(ZERO_DIGEST, Zeros(b - i - 1) + v, Zeros(255 - b));
      } else if i == b {
        assert Zeros(0) + v == v;
      }
    }
  }

  // ---- What the root does not see ---------------------------------------------------------

  /** Above this path a key is stored. */
  ghost predicate Hidden(m: Contents, q: Path) {
    exists r :: r in m && r < q
  }

  /** The keys that continue no other stored key. */
  ghost function Visible(m: Contents): Contents {
    map k | k in m && !Hidden(m, k) :: m[k]
  }

  /** Each stored key continues a visible one, or is one. */
  lemma {:induction false} ShortestKey(m: Contents, k: seq<byte>) returns (r: seq<byte>)
    requires k in m
    ensures r in Visible(m) && r <= k
    decreases |k|
  {
    if Hidden(m, k) {
      var q :| q in m && q < k;
      r := ShortestKey(m, q);
    } else {
      r := k;
    }
  }

  lemma VisiblePath(m: Contents, q: Path)
    requires !Hidden(m, q)
    ensures q in Prefixes(m) <==> q in Prefixes(Visible(m))
  {
    InPrefixes(m, q);
    InPrefixes(Visible(m), q);
    hide Prefixes;
    if k :| k in m && q <= k {
      var r := ShortestKey(m, k);
      assert |r| < |q| ==> r < q;
      assert q <= r;
    }
  }

  /** Below a leaf nothing is hashed: the root is that of the visible keys. */
  lemma HiddenKeysDoNotCount(h: HashFn, m: Contents)
    ensures RootHash(h, m) == RootHash(h, Visible(m))
  {
    if m != map[] {
      var k :| k in m;
      var r := ShortestKey(m, k);
      hide NodeHash, Prefixes, RootHash, Height;
      var d := Height(m);
      RootIsNode(h, m, d);
      RootIsNode(h, Visible(m), d);
      SameVisibleNode(h, m, d, []);
    } else {
      assert Visible(m) == map[];
    }
  }

  lemma {:induction false} SameVisibleNode(h: HashFn, m: Contents, depth: nat, path: Path)
    requires |path| <= depth && !Hidden(m, path)
    ensures NodeHash(h, m, Prefixes(m), depth, path) == NodeHash(h, Visible(m), Prefixes(Visible(m)), depth, path)
    decreases depth - |path|, FANOUT + 1
  {
    if path in m || |path| == depth {
    } else {
      SameVisibleSlots(h, m, depth, path, 0);
    }
  }

  lemma {:induction false} SameVisibleSlots(h: HashFn, m: Contents, depth: nat, path: Path, i: nat)
    requires |path| < depth && !Hidden(m, path) && path !in m && i <= FANOUT
    ensures Slots(h, m, Prefixes(m), depth, path, i) == Slots(h, Visible(m), Prefixes(Visible(m)), depth, path, i)
    decreases depth - |path|, FANOUT - i
  {
    hide NodeHash, Prefixes, Visible;
    if i == FANOUT {
    } else {
      ChildVisible(m, path, i);
      VisiblePath(m, Child(path, i));
      SameVisibleNode(h, m, depth, Child(path, i));
      SameVisibleSlots(h, m, depth, path, i + 1);
    }
  }

  /** The children of a visible node that is no leaf are visible. */
  lemma ChildVisible(m: Contents, p: Path, b: byte)
    requires !Hidden(m, p) && p !in m
    ensures !Hidden(m, Child(p, b))
  {
    forall r | r in m && |r| <= |p|
      ensures !(r < Child(p, b))
    {
      assert !(r <= p) by {
        assert r <= p ==> r == p || r < p;
      }
      assert Child(p, b)[..|r|] == p[..|r|];
    }
  }

  /** A proper extension of a path goes through one of its children. */
  lemma PrefixStep(p: Path, q: Path)
    requires p <= q && p != q
    ensures |p| < |q| && Child(p, q[|p|]) <= q
  {
  }

  lemma KeyStep(key: seq<byte>, i: nat)
    requires i < |key|
    ensures Child(key[..i], key[i]) == key[..i + 1]
  {
  }

  // ---- Sequences of insertions ------------------------------------------------------------

  ghost function Inserted(m: Contents, inserts: seq<(seq<byte>, seq<byte>)>): Contents {
    if |inserts| == 0 then m
    else
      var last := inserts[|inserts| - 1];
      Inserted(m, inserts[..|inserts| - 1])[last.0 := last.1]
  }

  ghost predicate DistinctKeys(inserts: seq<(seq<byte>, seq<byte>)>) {
    forall i, j :: 0 <= i < j < |inserts| ==> inserts[i].0 != inserts[j].0
  }

  /** With distinct keys the resulting map is read off the insertions as a set of pairs. */
  lemma {:induction false} InsertedLookup(m: Contents, inserts: seq<(seq<byte>, seq<byte>)>, k: seq<byte>)
    requires DistinctKeys(inserts)
    ensures forall v :: (k, v) in inserts ==> k in Inserted(m, inserts) && Inserted(m, inserts)[k] == v
    ensures (forall v :: (k, v) !in inserts) ==>
      (k in Inserted(m, inserts) <==> k in m) && (k in m ==> Inserted(m, inserts)[k] == m[k])
  {
    if |inserts| == 0 {
    } else {
      var front, last := inserts[..|inserts| - 1], inserts[|inserts| - 1];
      var m' := Inserted(m, front);
      assert Inserted(m, inserts) == m'[last.0 := last.1];
      InsertedLookup(m, front, k);
      hide Inserted;
      assert inserts == front + [last];
      forall v | (k, v) in front
        ensures last.0 != k
      {
        var i :| 0 <= i < |front| && front[i] == (k, v);
        assert inserts[i] == (k, v);
      }
      assert forall v :: (k, v) in inserts <==> (k, v) in front || (k, v) == last;
      if last.0 == k {
        assert (k, last.1) in inserts;
      }
    }
  }

  /** Any reordering of insertions with distinct keys stores the same map. */
  lemma OrderOfInsertsIrrelevant(m: Contents, xs: seq<(seq<byte>, seq<byte>)>, ys: seq<(seq<byte>, seq<byte>)>)
    requires DistinctKeys(xs) && DistinctKeys(ys) && multiset(xs) == multiset(ys)
    ensures Inserted(m, xs) == Inserted(m, ys)
  {
    var a, b := Inserted(m, xs), Inserted(m, ys);
    forall k
      ensures k in a <==> k in b
      ensures k in a ==> a[k] == b[k]
    {
      InsertedLookup(m, xs, k);
      InsertedLookup(m, ys, k);
      forall v
        ensures (k, v) in xs <==> (k, v) in ys
      {
        assert (k, v) in xs <==> (k, v) in multiset(xs);
        assert (k, v) in ys <==> (k, v) in multiset(ys);
      }
    }
  }
}
