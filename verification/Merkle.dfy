/** The transaction Merkle root: a loop that halves a list of digests level by level, and the
    recursive tree of section 2.1 of RFC 6962 (without that RFC's 0x00 and 0x01 prefix bytes)
    that it computes. */
module Merkle {
  import opened Bytes
  import Hex

  // ---- The tree of RFC 6962 ---------------------------------------------------------------

  function Pow2(k: nat): (r: nat)
    ensures r > 0
  {
    if k == 0 then 1 else 2 * Pow2(k - 1)
  }

  /** The largest power of two smaller than `n`. */
  function Split(n: nat): (k: nat)
    requires n >= 2
    ensures 0 < k < n <= 2 * k
  {
    if n == 2 then 1 else 2 * Split((n + 1) / 2)
  }

  lemma {:induction false} SplitIsPowerOfTwo(n: nat) returns (e: nat)
    requires n >= 2
    ensures Split(n) == Pow2(e)
  {
    if n == 2 {
      e := 0;
      assert Pow2(0) == 1;
    } else {
      var d := SplitIsPowerOfTwo((n + 1) / 2);
      e := d + 1;
    }
  }

  lemma {:induction false} SplitIsLargest(n: nat, e: nat)
    requires Pow2(e) < n
    ensures n >= 2 && Pow2(e) <= Split(n)
  {
    if n <= 2 || e == 0 {
    } else {
      SplitIsLargest((n + 1) / 2, e - 1);
    }
  }

  function Join(a: seq<byte>, b: seq<byte>): seq<byte> {
    a + b
  }

  /** MTH(D[n]) over the leaf digests. */
  function Tree(h: HashFn, hs: seq<Digest>): Digest
    requires |hs| > 0
    decreases |hs|
  {
    if |hs| == 1 then hs[0]
    else
      var k := Split(|hs|);
      h(Join(Tree(h, hs[..k]), Tree(h, hs[k..])))
  }

  lemma TreeSplits(h: HashFn, hs: seq<Digest>)
    requires |hs| > 1
    ensures var k := Split(|hs|); Tree(h, hs) == h(Join(Tree(h, hs[..k]), Tree(h, hs[k..])))
  {
  }

  // ---- One round of the loop --------------------------------------------------------------

  /** Neighbours are hashed together; an odd last digest is passed on unchanged. */
  function Level(h: HashFn, hs: seq<Digest>): (r: seq<Digest>)
    ensures |r| == (|hs| + 1) / 2
  {
    if |hs| <= 1 then hs else [h(Join(hs[0], hs[1]))] + Level(h, hs[2..])
  }

  lemma {:induction false} LevelConcat(h: HashFn, a: seq<Digest>, b: seq<Digest>)
    requires |a| % 2 == 0
    ensures Level(h, a + b) == Level(h, a) + Level(h, b)
  {
    if |a| == 0 {
      assert a + b == b;
    } else {
      LevelConcat(h, a[2..], b);
      assert (a + b)[2..] == a[2..] + b;
      LevelFirst(h, a);
      LevelFirst(h, a + b);
      hide Level;
      ConcatAssociative([h(Join(a[0], a[1]))], Level(h, a[2..]), Level(h, b));
    }
  }

  lemma LevelFirst(h: HashFn, hs: seq<Digest>)
    requires |hs| > 1
    ensures Level(h, hs) == [h(Join(hs[0], hs[1]))] + Level(h, hs[2..])
  {
  }

  /** A round of more than two digests is a round of each half of the tree. */
  lemma LevelHalves(h: HashFn, hs: seq<Digest>)
    requires |hs| > 2
    ensures var up := Level(h, hs);
      var m := Split(|up|);
      && Split(|hs|) == 2 * m
      && up[..m] == Level(h, hs[..2 * m]) && up[m..] == Level(h, hs[2 * m..])
  {
    SplitHalves(|hs|);
    hide Split, Level;
    var m := Split((|hs| + 1) / 2);
    LevelOfParts(h, hs[..2 * m], hs[2 * m..], m);
    assert hs == hs[..2 * m] + hs[2 * m..];
  }

  lemma LevelOfParts(h: HashFn, a: seq<Digest>, b: seq<Digest>, m: nat)
    requires |a| == 2 * m
    ensures m <= |Level(h, a + b)|
    ensures Level(h, a + b)[..m] == Level(h, a) && Level(h, a + b)[m..] == Level(h, b)
  {
    hide Level;
    LevelConcat(h, a, b);
    TakeDrop(Level(h, a), Level(h, b));
  }

  lemma SplitHalves(n: nat)
    requires n > 2
    ensures Split(n) == 2 * Split((n + 1) / 2)
  {
  }

  /** A round leaves the root of the tree where it is. */
  lemma {:induction false} LevelKeepsTree(h: HashFn, hs: seq<Digest>)
    requires |hs| > 0
    ensures Tree(h, Level(h, hs)) == Tree(h, hs)
    decreases |hs|
  {
    if |hs| == 1 {
    } else if |hs| == 2 {
      assert Level(h, hs) == [h(Join(hs[0], hs[1]))];
      assert hs[..1] == [hs[0]] && hs[1..] == [hs[1]];
    } else {
      LevelHalves(h, hs);
      TreeSplits(h, hs);
      TreeSplits(h, Level(h, hs));
      hide Tree, Level, Split;
      var k := Split(|hs|);
      LevelKeepsTree(h, hs[..k]);
      LevelKeepsTree(h, hs[k..]);
    }
  }

  // ---- The loop ---------------------------------------------------------------------------

  function LeafDigests(h: HashFn, txns: seq<GoString>): (r: seq<Digest>)
    ensures |r| == |txns|
  {
    seq(|txns|, i requires 0 <= i < |txns| => h(txns[i]))
  }

  /** computeMerkleRoot. `rounds` counts the turns of its outer loop. */
  method ComputeMerkleRoot(h: HashFn, txns: seq<GoString>) returns (root: GoString, ghost rounds: nat)
    ensures root == MerkleRoot(h, txns)
    ensures |txns| > 0 ==> |txns| <= Pow2(rounds)
    ensures rounds > 0 ==> Pow2(rounds - 1) < |txns|
  {
    rounds := 0;
    if |txns| == 0 {
      return Hex.ZERO, 0;
    }
    var hashes: seq<Digest> := [];
    var j := 0;
    while j < |txns|
      invariant 0 <= j == |hashes| <= |txns|
      invariant forall i :: 0 <= i < j ==> hashes[i] == h(txns[i])
    {
      hashes := hashes + [h(txns[j])];
      j := j + 1;
    }
    assert hashes == LeafDigests(h, txns);
    hide Tree, Level, Shrunk, Hex.Encode;
    StartShrinking(|hashes|);
    ghost var leaves := hashes;
    while |hashes| > 1
      invariant |hashes| > 0
      invariant Tree(h, hashes) == Tree(h, leaves)
      invariant Shrunk(|hashes|, Pow2(rounds), |leaves|)
      invariant rounds > 0 ==> Pow2(rounds - 1) < |leaves|
      decreases |hashes|
    {
      var temp := NextLevel(h, hashes);
      LevelKeepsTree(h, hashes);
      Halving(|hashes|, |temp|, Pow2(rounds), |leaves|);
      hashes := temp;
      rounds := rounds + 1;
    }
    DoneShrinking(Pow2(rounds), |leaves|);
    OneLeaf(h, hashes);
    root := Hex.PREFIX + Hex.Encode(hashes[0]);
  }

  lemma OneLeaf(h: HashFn, hs: seq<Digest>)
    requires |hs| == 1
    ensures Tree(h, hs) == hs[0]
  {
  }

  /** `n` digests stand for `total` leaves, up to `p` each. */
  ghost predicate Shrunk(n: nat, p: nat, total: nat) {
    total <= n * p && (n - 1) * p < total
  }

  lemma StartShrinking(n: nat)
    requires n > 0
    ensures Shrunk(n, 1, n)
  {
  }

  lemma DoneShrinking(p: nat, total: nat)
    requires Shrunk(1, p, total)
    ensures total <= p
  {
  }

  lemma Halving(n: nat, m: nat, p: nat, total: nat)
    requires n > 1 && (n == 2 * m || n == 2 * m - 1) && Shrunk(n, p, total)
    ensures p < total && Shrunk(m, 2 * p, total)
  {
    var q := m * p;
    Distribute(m, p, p);
    Distribute(p, m, m);
    Distribute(p, n, -1);
    Distribute(2 * p, m, -1);
    if n == 2 * m - 1 {
      Distribute(p, 2 * m, -1);
    }
    Distribute(p, n - 2, 1);
    assert m * (2 * p) == q + q && 0 <= (n - 2) * p;
  }

  /** The inner loop. */
  method NextLevel(h: HashFn, hashes: seq<Digest>) returns (temp: seq<Digest>)
    ensures temp == Level(h, hashes)
  {
    temp := [];
    var i := 0;
    assert hashes[0..] == hashes;
    while i < |hashes|
      invariant 0 <= i
      invariant i <= |hashes| ==> temp + Level(h, hashes[i..]) == Level(h, hashes)
      invariant i > |hashes| ==> temp == Level(h, hashes)
    {
      ghost var rest := hashes[i..];
      if i + 1 < |hashes| {
        assert rest[2..] == hashes[i + 2..];
        ConcatAssociative(temp, [h(Join(hashes[i], hashes[i + 1]))], Level(h, hashes[i + 2..]));
        temp := temp + [h(Join(hashes[i], hashes[i + 1]))];
      } else {
        assert rest == [hashes[i]];
        temp := temp + [hashes[i]];
      }
      i := i + 2;
    }
    assert temp + [] == temp;
  }

  /** What the loop returns: the tree of RFC 6962 over the SHA-256 digests of the transactions,
      in hex, and "0x0" for no transactions. */
  function MerkleRoot(h: HashFn, txns: seq<GoString>): GoString {
    if |txns| == 0 then Hex.ZERO
    else Hex.PREFIX + Hex.Encode(Tree(h, LeafDigests(h, txns)))
  }

  // ---- Binding ----------------------------------------------------------------------------

  /** The tree over the digests of a transaction list. */
  function TextTree(h: HashFn, txns: seq<GoString>): Digest
    requires |txns| > 0
  {
    Tree(h, LeafDigests(h, txns))
  }

  /** The strings hashed at the inner nodes: two digests each. */
  ghost function NodeTexts(h: HashFn, txns: seq<GoString>): (r: set<seq<byte>>)
    ensures forall x :: x in r ==> |x| == NODE_SIZE
    decreases |txns|
  {
    if |txns| <= 1 then {}
    else
      var k := Split(|txns|);
      NodeTexts(h, txns[..k]) + NodeTexts(h, txns[k..]) + {Join(TextTree(h, txns[..k]), TextTree(h, txns[k..]))}
  }

  const NODE_SIZE: nat := 2 * DIGEST_SIZE

  /** Every string hashed for a transaction list: the transactions and the inner nodes. */
  ghost function MerkleInputs(h: HashFn, txns: seq<GoString>): set<seq<byte>> {
    (set t | t in txns) + NodeTexts(h, txns)
  }

  /** A transaction of one list is the text of an inner node of the other. */
  ghost predicate NodeAsText(h: HashFn, a: seq<GoString>, b: seq<GoString>) {
    exists t :: t in a && t in NodeTexts(h, b)
  }

  /** The lists have different lengths, and a transaction of one is an inner node's text of the
      other. */
  ghost predicate Confused(h: HashFn, a: seq<GoString>, b: seq<GoString>) {
    |a| != |b| && (NodeAsText(h, a, b) || NodeAsText(h, b, a))
  }

  lemma TextTreeSplits(h: HashFn, txns: seq<GoString>)
    requires |txns| > 1
    ensures var k := Split(|txns|);
      && TextTree(h, txns) == h(Join(TextTree(h, txns[..k]), TextTree(h, txns[k..])))
      && MerkleInputs(h, txns[..k]) <= MerkleInputs(h, txns) && MerkleInputs(h, txns[k..]) <= MerkleInputs(h, txns)
      && NodeTexts(h, txns[..k]) <= NodeTexts(h, txns) && NodeTexts(h, txns[k..]) <= NodeTexts(h, txns)
      && Join(TextTree(h, txns[..k]), TextTree(h, txns[k..])) in NodeTexts(h, txns)
  {
    NodeTextsSplit(h, txns);
    hide Tree, Split, NodeTexts, LeafDigests, MerkleInputs;
    var k := Split(|txns|);
    Parts(txns, k);
    var left, right := txns[..k], txns[k..];
    assert |left| + |right| == |txns|;
    TreeOfHalves(h, left, right);
    InputsGrow(h, txns, txns[..k]);
    InputsGrow(h, txns, txns[k..]);
  }

  lemma InputsGrow(h: HashFn, txns: seq<GoString>, part: seq<GoString>)
    requires NodeTexts(h, part) <= NodeTexts(h, txns) && forall t :: t in part ==> t in txns
    ensures MerkleInputs(h, part) <= MerkleInputs(h, txns)
  {
    hide NodeTexts;
  }

  lemma NodeTextsSplit(h: HashFn, txns: seq<GoString>)
    requires |txns| > 1
    ensures var k := Split(|txns|);
      NodeTexts(h, txns) ==
        NodeTexts(h, txns[..k]) + NodeTexts(h, txns[k..]) + {Join(TextTree(h, txns[..k]), TextTree(h, txns[k..]))}
  {
    hide TextTree, Split;
  }

  /** Equal trees: equal lists, a collision, or a node's text among the transactions. */
  lemma {:induction false} TextBinding(h: HashFn, a: seq<GoString>, b: seq<GoString>)
    requires |a| > 0 && |b| > 0 && TextTree(h, a) == TextTree(h, b)
    requires !CollisionAmong(h, MerkleInputs(h, a), MerkleInputs(h, b))
    ensures a == b || Confused(h, a, b)
    decreases |a|
  {
    if |a| == 1 && |b| == 1 {
      SameText(h, a, b);
    } else if |a| == 1 {
      TextTreeSplits(h, b);
      TextIsNode(h, a, b);
    } else if |b| == 1 {
      TextTreeSplits(h, a);
      TextIsNode(h, b, a);
    } else {
      TextTreeSplits(h, a);
      TextTreeSplits(h, b);
      hide TextTree, NodeTexts, MerkleInputs, Split;
      var k, l := Split(|a|), Split(|b|);
      NodesAgree(h, a, b);
      NoCollisionBelow(h, a[..k], a, b[..l], b);
      NoCollisionBelow(h, a[k..], a, b[l..], b);
      TextBinding(h, a[..k], b[..l]);
      TextBinding(h, a[k..], b[l..]);
      HalvesConfused(h, a, k, b, l);
    }
  }

  lemma SameText(h: HashFn, a: seq<GoString>, b: seq<GoString>)
    requires |a| == |b| == 1 && TextTree(h, a) == TextTree(h, b)
    requires !CollisionAmong(h, MerkleInputs(h, a), MerkleInputs(h, b))
    ensures a == b
  {
    assert h(a[0]) == h(b[0]);
    assert a[0] in MerkleInputs(h, a) && b[0] in MerkleInputs(h, b);
  }

  lemma TextIsNode(h: HashFn, one: seq<GoString>, many: seq<GoString>)
    requires |one| == 1 && |many| > 1 && TextTree(h, one) == TextTree(h, many)
    requires var k := Split(|many|);
      var x := Join(TextTree(h, many[..k]), TextTree(h, many[k..]));
      TextTree(h, many) == h(x) && x in NodeTexts(h, many)
    requires || !CollisionAmong(h, MerkleInputs(h, one), MerkleInputs(h, many))
             || !CollisionAmong(h, MerkleInputs(h, many), MerkleInputs(h, one))
    ensures NodeAsText(h, one, many)
  {
    var k := Split(|many|);
    var x := Join(TextTree(h, many[..k]), TextTree(h, many[k..]));
    assert h(one[0]) == TextTree(h, one);
    hide TextTree, NodeTexts, Split;
    assert one[0] in MerkleInputs(h, one) && x in MerkleInputs(h, many);
  }

  lemma NodesAgree(h: HashFn, a: seq<GoString>, b: seq<GoString>)
    requires |a| > 1 && |b| > 1 && TextTree(h, a) == TextTree(h, b)
    requires !CollisionAmong(h, MerkleInputs(h, a), MerkleInputs(h, b))
    ensures var k, l := Split(|a|), Split(|b|);
      TextTree(h, a[..k]) == TextTree(h, b[..l]) && TextTree(h, a[k..]) == TextTree(h, b[l..])
  {
    var k, l := Split(|a|), Split(|b|);
    TextTreeSplits(h, a);
    TextTreeSplits(h, b);
    hide TextTree, NodeTexts, Split;
    var p, q := TextTree(h, a[..k]), TextTree(h, a[k..]);
    var r, s := TextTree(h, b[..l]), TextTree(h, b[l..]);
    assert Join(p, q) in MerkleInputs(h, a) && Join(r, s) in MerkleInputs(h, b);
    assert Join(p, q) == Join(r, s);
    SplitConcat(p, q, r, s);
  }

  lemma NoCollisionBelow(h: HashFn, x: seq<GoString>, a: seq<GoString>, y: seq<GoString>, b: seq<GoString>)
    requires MerkleInputs(h, x) <= MerkleInputs(h, a) && MerkleInputs(h, y) <= MerkleInputs(h, b)
    requires !CollisionAmong(h, MerkleInputs(h, a), MerkleInputs(h, b))
    ensures !CollisionAmong(h, MerkleInputs(h, x), MerkleInputs(h, y))
  {
    hide MerkleInputs;
  }

  lemma HalvesConfused(h: HashFn, a: seq<GoString>, k: nat, b: seq<GoString>, l: nat)
    requires 0 < k < |a| && 0 < l < |b| && (|a| == |b| ==> k == l)
    requires NodeTexts(h, a[..k]) <= NodeTexts(h, a) && NodeTexts(h, a[k..]) <= NodeTexts(h, a)
    requires NodeTexts(h, b[..l]) <= NodeTexts(h, b) && NodeTexts(h, b[l..]) <= NodeTexts(h, b)
    requires a[..k] == b[..l] || Confused(h, a[..k], b[..l])
    requires a[k..] == b[l..] || Confused(h, a[k..], b[l..])
    ensures a == b || Confused(h, a, b)
  {
    hide NodeTexts;
    assert a == a[..k] + a[k..] && b == b[..l] + b[l..];
  }

  /** Equal roots mean equal lists, whatever their lengths, unless a collision is among the
      strings hashed, or the lengths differ and a transaction is an inner node's text. */
  lemma MerkleBinding(h: HashFn, a: seq<GoString>, b: seq<GoString>)
    requires MerkleRoot(h, a) == MerkleRoot(h, b)
    ensures a == b || CollisionAmong(h, MerkleInputs(h, a), MerkleInputs(h, b)) || Confused(h, a, b)
  {
    hide Tree, NodeTexts, Hex.Encode, MerkleInputs, Confused;
    if |a| == 0 || |b| == 0 {
      assert a == [] && b == [];
    } else {
      SplitConcat(Hex.PREFIX, Hex.Encode(TextTree(h, a)), Hex.PREFIX, Hex.Encode(TextTree(h, b)));
      Hex.EncodeInjective(TextTree(h, a), TextTree(h, b));
      if !CollisionAmong(h, MerkleInputs(h, a), MerkleInputs(h, b)) {
        TextBinding(h, a, b);
      }
    }
  }

  /** No transaction has the length of an inner node's text. */
  predicate NoNodeSized(txns: seq<GoString>) {
    forall i :: 0 <= i < |txns| ==> |txns[i]| != NODE_SIZE
  }

  /** So the root binds lists of all lengths, as long as no transaction text has 64 bytes. */
  lemma RootBindsLists(h: HashFn, a: seq<GoString>, b: seq<GoString>)
    requires MerkleRoot(h, a) == MerkleRoot(h, b) && NoNodeSized(a) && NoNodeSized(b)
    ensures a == b || CollisionAmong(h, MerkleInputs(h, a), MerkleInputs(h, b))
  {
    hide MerkleRoot, MerkleInputs, CollisionAmong;
    MerkleBinding(h, a, b);
    forall t | t in a || t in b
      ensures |t| != NODE_SIZE
    {
    }
  }

  /** With texts of that length it does not: for any two lengths there are lists with one root. */
  lemma LengthMatters(h: HashFn, n: nat, m: nat) returns (a: seq<GoString>, b: seq<GoString>)
    requires n > 0 && m > 0
    ensures |a| == n && |b| == m && MerkleRoot(h, a) == MerkleRoot(h, b)
  {
    a, b := SameTree(h, n, m);
    hide Tree;
  }

  lemma {:induction false} SameTree(h: HashFn, n: nat, m: nat) returns (a: seq<GoString>, b: seq<GoString>)
    requires n > 0 && m > 0
    ensures |a| == n && |b| == m && Tree(h, LeafDigests(h, a)) == Tree(h, LeafDigests(h, b))
  {
    if n == m {
      a := seq(n, _ => []);
      b := a;
    } else if n == 1 {
      b := seq(m, _ => []);
      a := OneForMany(h, b);
    } else if m == 1 {
      a := seq(n, _ => []);
      b := OneForMany(h, a);
    } else {
      hide Tree, LeafDigests;
      var a1, b1 := SameTree(h, Split(n), Split(m));
      var a2, b2 := SameTree(h, n - Split(n), m - Split(m));
      a, b := a1 + a2, b1 + b2;
      TreeOfHalves(h, a1, a2);
      TreeOfHalves(h, b1, b2);
    }
  }

  /** The tree over two lists that are split where the tree splits them. */
  lemma TreeOfHalves(h: HashFn, a: seq<GoString>, b: seq<GoString>)
    requires |a| > 0 && |b| > 0 && |a| == Split(|a| + |b|)
    ensures Tree(h, LeafDigests(h, a + b)) == h(Join(Tree(h, LeafDigests(h, a)), Tree(h, LeafDigests(h, b))))
  {
    hide Tree, Split;
    LeavesOfHalves(h, a, b);
    TreeSplits(h, LeafDigests(h, a + b));
  }

  lemma LeavesOfHalves(h: HashFn, a: seq<GoString>, b: seq<GoString>)
    ensures LeafDigests(h, a + b)[..|a|] == LeafDigests(h, a) && LeafDigests(h, a + b)[|a|..] == LeafDigests(h, b)
  {
    var d := LeafDigests(h, a + b);
    assert d[..|a|] == LeafDigests(h, a);
    assert d[|a|..] == LeafDigests(h, b);
  }

  /** The string hashed last for a list, as the only transaction of another. */
  lemma OneForMany(h: HashFn, many: seq<GoString>) returns (one: seq<GoString>)
    requires |many| > 1
    ensures |one| == 1 && Tree(h, LeafDigests(h, one)) == Tree(h, LeafDigests(h, many))
  {
    var k := Split(|many|);
    var d := LeafDigests(h, many);
    TreeSplits(h, d);
    hide Tree, Split;
    one := [Join(Tree(h, d[..k]), Tree(h, d[k..]))];
    OneLeaf(h, LeafDigests(h, one));
  }
}
