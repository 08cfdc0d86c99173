/** The root hash commits to the whole stored map: equal roots mean equal maps, or a collision or
    a preimage of the zero block stands among the strings the two computations hashed. */
module TrieBinding {
  import opened Bytes
  import opened TrieSpec

  /** Leaf values that a parser can tell from 32 zero bytes and from each other: they do not
      start with a zero byte, and none is a proper prefix of one in the other map. */
  ghost predicate SelfDelimiting(a: Contents, b: Contents) {
    && (forall k :: k in a ==> |a[k]| > 0 && a[k][0] != 0)
    && (forall k :: k in b ==> |b[k]| > 0 && b[k][0] != 0)
    && (forall k, l :: k in a && l in b && (a[k] <= b[l] || b[l] <= a[k]) ==> a[k] == b[l])
  }

  ghost predicate Comparable(a: Contents, b: Contents, depth: nat) {
    Uniform(a, depth) && Uniform(b, depth) && SelfDelimiting(a, b)
  }

  lemma ValueParse(a: Contents, b: Contents, k: seq<byte>, s: seq<byte>, l: seq<byte>, t: seq<byte>)
    requires SelfDelimiting(a, b) && k in a && l in b && a[k] + s == b[l] + t
    ensures a[k] == b[l] && s == t
  {
    var x, y := a[k], b[l];
    assert x <= x + s && y <= y + t;
    assert if |x| <= |y| then x <= y else y <= x;
    SplitConcat(x, s, y, t);
  }

  /** The string hashed at an inner node, and all of them. */
  ghost function HashedAt(h: HashFn, a: Contents, depth: nat, p: Path): seq<byte>
    requires |p| < depth
  {
    Slots(h, a, Prefixes(a), depth, p, 0)
  }

  ghost function Hashed(h: HashFn, a: Contents, depth: nat): set<seq<byte>> {
    set p | p in Prefixes(a) && |p| < depth :: HashedAt(h, a, depth, p)
  }

  ghost predicate ZeroPreimageAmong(h: HashFn, xs: set<seq<byte>>) {
    exists x :: x in xs && h(x) == ZERO_DIGEST
  }

  /** Neither kind of hash failure among the strings hashed for `a` and `b`. */
  ghost predicate Sound(h: HashFn, a: Contents, b: Contents, depth: nat) {
    && !CollisionAmong(h, Hashed(h, a, depth), Hashed(h, b, depth))
    && !ZeroPreimageAmong(h, Hashed(h, a, depth) + Hashed(h, b, depth))
  }

  ghost predicate HasPath(a: Contents, p: Path) {
    p in Prefixes(a)
  }

  ghost function SlotOf(h: HashFn, a: Contents, depth: nat, p: Path, c: byte): seq<byte>
    requires |p| < depth
  {
    Slot(h, a, Prefixes(a), depth, p, c)
  }

  ghost function SlotsOf(h: HashFn, a: Contents, depth: nat, p: Path, i: nat): seq<byte>
    requires |p| < depth && i <= FANOUT
  {
    Slots(h, a, Prefixes(a), depth, p, i)
  }

  ghost function HashOf(h: HashFn, a: Contents, depth: nat, p: Path): seq<byte>
    requires |p| <= depth
  {
    NodeHash(h, a, Prefixes(a), depth, p)
  }

  // ---- Unfolding --------------------------------------------------------------------------

  lemma UnfoldSlot(h: HashFn, a: Contents, depth: nat, p: Path, c: byte)
    requires |p| < depth
    ensures SlotOf(h, a, depth, p, c) ==
      if HasPath(a, Child(p, c)) then HashOf(h, a, depth, Child(p, c)) else ZERO_DIGEST
  {
    hide NodeHash, Prefixes;
  }

  lemma UnfoldSlots(h: HashFn, a: Contents, depth: nat, p: Path, i: nat)
    requires |p| < depth && i < FANOUT
    ensures SlotsOf(h, a, depth, p, i) == SlotOf(h, a, depth, p, i) + SlotsOf(h, a, depth, p, i + 1)
  {
    hide NodeHash, Slot, Prefixes;
  }

  lemma UnfoldHash(h: HashFn, a: Contents, depth: nat, p: Path)
    requires |p| <= depth && Uniform(a, depth)
    ensures |p| < depth ==> HashOf(h, a, depth, p) == h(HashedAt(h, a, depth, p))
    ensures |p| == depth && p in a ==> HashOf(h, a, depth, p) == a[p]
  {
    hide Slots, Prefixes;
  }

  lemma HashedHere(h: HashFn, a: Contents, depth: nat, p: Path)
    requires |p| < depth && HasPath(a, p)
    ensures HashedAt(h, a, depth, p) in Hashed(h, a, depth)
  {
    hide HashedAt, Prefixes;
  }

  // ---- One slot ---------------------------------------------------------------------------

  lemma FullPath(a: Contents, depth: nat, p: Path)
    requires Uniform(a, depth) && |p| == depth
    ensures HasPath(a, p) <==> p in a
  {
    InPrefixes(a, p);
    forall k | k in a && p <= k
      ensures k == p
    {
      assert k[..depth] == k;
    }
    if p in a {
      assert p <= p;
    }
  }

  /** Above the leaf parents a slot is a digest; it is zero just when the child is missing. */
  lemma InnerSlot(h: HashFn, a: Contents, depth: nat, p: Path, c: byte)
    requires |p| + 1 < depth && Uniform(a, depth) && !ZeroPreimageAmong(h, Hashed(h, a, depth))
    ensures |SlotOf(h, a, depth, p, c)| == DIGEST_SIZE
    ensures HasPath(a, Child(p, c)) <==> SlotOf(h, a, depth, p, c) != ZERO_DIGEST
  {
    hide SlotOf, HasPath, HashOf, HashedAt, Hashed;
    UnfoldSlot(h, a, depth, p, c);
    if HasPath(a, Child(p, c)) {
      UnfoldHash(h, a, depth, Child(p, c));
      HashedHere(h, a, depth, Child(p, c));
    }
  }

  /** In a leaf parent a slot is a value, which starts with a byte other than zero, or 32 zero
      bytes. */
  lemma LeafSlot(h: HashFn, a: Contents, depth: nat, p: Path, c: byte)
    requires Uniform(a, depth) && |p| + 1 == depth
    requires forall k :: k in a ==> |a[k]| > 0 && a[k][0] != 0
    ensures |SlotOf(h, a, depth, p, c)| > 0
    ensures HasPath(a, Child(p, c)) ==> Child(p, c) in a && SlotOf(h, a, depth, p, c) == a[Child(p, c)]
    ensures !HasPath(a, Child(p, c)) ==> SlotOf(h, a, depth, p, c) == ZERO_DIGEST
    ensures HasPath(a, Child(p, c)) <==> SlotOf(h, a, depth, p, c)[0] != 0
  {
    hide SlotOf, HasPath, HashOf;
    UnfoldSlot(h, a, depth, p, c);
    UnfoldHash(h, a, depth, Child(p, c));
    FullPath(a, depth, Child(p, c));
  }

  /** Slots are uniquely parseable: their concatenation splits in one way. */
  lemma SlotParse(h: HashFn, a: Contents, b: Contents, depth: nat, p: Path, c: byte, s: seq<byte>, t: seq<byte>)
    requires Comparable(a, b, depth) && Sound(h, a, b, depth) && |p| < depth
    requires SlotOf(h, a, depth, p, c) + s == SlotOf(h, b, depth, p, c) + t
    ensures s == t && SlotOf(h, a, depth, p, c) == SlotOf(h, b, depth, p, c)
    ensures HasPath(a, Child(p, c)) <==> HasPath(b, Child(p, c))
  {
    var x, y := SlotOf(h, a, depth, p, c), SlotOf(h, b, depth, p, c);
    if |p| + 1 < depth {
      assert forall z :: z in Hashed(h, a, depth) || z in Hashed(h, b, depth) ==>
        z in Hashed(h, a, depth) + Hashed(h, b, depth);
      InnerSlot(h, a, depth, p, c);
      InnerSlot(h, b, depth, p, c);
      SplitConcat(x, s, y, t);
    } else {
      hide SlotOf, HasPath;
      LeafSlot(h, a, depth, p, c);
      LeafSlot(h, b, depth, p, c);
      assert (x + s)[0] == x[0] && (y + t)[0] == y[0];
      if HasPath(a, Child(p, c)) {
        ValueParse(a, b, Child(p, c), s, Child(p, c), t);
      } else {
        SplitConcat(x, s, y, t);
      }
    }
  }

  /** Equal slot strings agree slot by slot. */
  lemma {:induction false} SlotsParse(h: HashFn, a: Contents, b: Contents, depth: nat, p: Path, i: nat)
    requires Comparable(a, b, depth) && Sound(h, a, b, depth) && |p| < depth && i <= FANOUT
    requires SlotsOf(h, a, depth, p, i) == SlotsOf(h, b, depth, p, i)
    ensures forall c: byte :: i <= c ==>
      && SlotOf(h, a, depth, p, c) == SlotOf(h, b, depth, p, c)
      && (HasPath(a, Child(p, c)) <==> HasPath(b, Child(p, c)))
    decreases FANOUT - i
  {
    hide SlotOf, SlotsOf, HasPath, Sound, Comparable;
    if i == FANOUT {
    } else {
      UnfoldSlots(h, a, depth, p, i);
      UnfoldSlots(h, b, depth, p, i);
      SlotParse(h, a, b, depth, p, i, SlotsOf(h, a, depth, p, i + 1), SlotsOf(h, b, depth, p, i + 1));
      SlotsParse(h, a, b, depth, p, i + 1);
    }
  }

  // ---- The whole tree ---------------------------------------------------------------------

  ghost predicate AgreeBelow(a: Contents, b: Contents, p: Path) {
    forall k :: p <= k ==> (k in a <==> k in b) && (k in a ==> k in b && a[k] == b[k])
  }

  lemma AgreeByChildren(a: Contents, b: Contents, depth: nat, p: Path)
    requires Comparable(a, b, depth) && |p| < depth
    requires forall c: byte :: AgreeBelow(a, b, Child(p, c))
    ensures AgreeBelow(a, b, p)
  {
    forall k | p <= k && (k in a || k in b)
      ensures k in a && k in b && a[k] == b[k]
    {
      PrefixStep(p, k);
      assert AgreeBelow(a, b, Child(p, k[|p|]));
    }
  }

  lemma NothingBelow(a: Contents, b: Contents, p: Path)
    requires !HasPath(a, p) && !HasPath(b, p)
    ensures AgreeBelow(a, b, p)
  {
    InPrefixes(a, p);
    InPrefixes(b, p);
  }

  lemma {:induction false} NodeBinding(h: HashFn, a: Contents, b: Contents, depth: nat, p: Path)
    requires Comparable(a, b, depth) && Sound(h, a, b, depth) && |p| <= depth
    requires HasPath(a, p) && HasPath(b, p)
    requires HashOf(h, a, depth, p) == HashOf(h, b, depth, p)
    ensures AgreeBelow(a, b, p)
    decreases depth - |p|
  {
    hide HasPath, SlotOf, HashOf, Hashed, Uniform, SelfDelimiting, AgreeBelow;
    if |p| == depth {
      LeafBinding(h, a, b, depth, p);
    } else {
      SameSlots(h, a, b, depth, p);
      SlotsParse(h, a, b, depth, p, 0);
      forall c: byte
        ensures AgreeBelow(a, b, Child(p, c))
      {
        UnfoldSlot(h, a, depth, p, c);
        UnfoldSlot(h, b, depth, p, c);
        if HasPath(a, Child(p, c)) {
          NodeBinding(h, a, b, depth, Child(p, c));
        } else {
          NothingBelow(a, b, Child(p, c));
        }
      }
      AgreeByChildren(a, b, depth, p);
    }
  }

  lemma SameSlots(h: HashFn, a: Contents, b: Contents, depth: nat, p: Path)
    requires Uniform(a, depth) && Uniform(b, depth)
    requires Sound(h, a, b, depth) && |p| < depth && HasPath(a, p) && HasPath(b, p)
    requires HashOf(h, a, depth, p) == HashOf(h, b, depth, p)
    ensures SlotsOf(h, a, depth, p, 0) == SlotsOf(h, b, depth, p, 0)
  {
    hide HasPath, HashOf, Hashed;
    UnfoldHash(h, a, depth, p);
    UnfoldHash(h, b, depth, p);
    HashedHere(h, a, depth, p);
    HashedHere(h, b, depth, p);
  }

  lemma LeafBinding(h: HashFn, a: Contents, b: Contents, depth: nat, p: Path)
    requires Comparable(a, b, depth) && |p| == depth
    requires HasPath(a, p) && HasPath(b, p)
    requires HashOf(h, a, depth, p) == HashOf(h, b, depth, p)
    ensures AgreeBelow(a, b, p)
  {
    hide HasPath, HashOf;
    UnfoldHash(h, a, depth, p);
    UnfoldHash(h, b, depth, p);
    FullPath(a, depth, p);
    FullPath(b, depth, p);
    forall k | p <= k && (k in a || k in b)
      ensures k == p
    {
      assert k[..depth] == k;
    }
  }

  /** Equal root hashes: the maps are equal, or the strings hashed hold a collision or
      a preimage of 32 zero bytes. Empty maps are included. */
  lemma RootBinding(h: HashFn, a: Contents, b: Contents, depth: nat)
    requires 0 < depth && Comparable(a, b, depth)
    requires RootHash(h, a) == RootHash(h, b)
    ensures || a == b
            || CollisionAmong(h, Hashed(h, a, depth), Hashed(h, b, depth))
            || ZeroPreimageAmong(h, Hashed(h, a, depth) + Hashed(h, b, depth))
  {
    hide RootHash, Hashed, HasPath, HashOf, Uniform;
    RootOf(h, a, depth);
    RootOf(h, b, depth);
    if Sound(h, a, b, depth) && a != map[] && b != map[] {
      NodeBinding(h, a, b, depth, []);
      forall k
        ensures (k in a <==> k in b) && (k in a ==> a[k] == b[k])
      {
        assert [] <= k;
      }
    }
  }

  lemma RootOf(h: HashFn, a: Contents, depth: nat)
    requires 0 < depth && Uniform(a, depth)
    ensures a == map[] ==> RootHash(h, a) == []
    ensures a != map[] ==> HasPath(a, []) && RootHash(h, a) == HashOf(h, a, depth, [])
    ensures a != map[] ==> |RootHash(h, a)| == DIGEST_SIZE
  {
    hide Prefixes, Slots, Height;
    if a != map[] {
      hide NodeHash;
      RootIsNode(h, a, depth);
      UnfoldHash(h, a, depth, []);
    }
  }
}
