/** The mutable state trie: nodes on the heap, insertion that rehashes the whole tree. */
module Trie {
  import opened Bytes
  import opened TrieSpec
  import Hex

  class SPTNode {
    var Hash: seq<byte>
    var Children: map<byte, SPTNode>
    var Value: seq<byte>
    var IsLeaf: bool

    /** Where in the tree this node is. */
    ghost const path: Path

    constructor (ghost path: Path)
      ensures Hash == [] && Children == map[] && Value == [] && !IsLeaf && this.path == path
    {
      Hash, Children, Value, IsLeaf, this.path := [], map[], [], false, path;
    }

    /** The slots from child `i` on, out of the children's current hash fields. */
    ghost function ChildSlots(i: nat): seq<byte>
      requires i <= FANOUT
      reads this, Children.Values
      decreases FANOUT - i
    {
      if i == FANOUT then [] else ChildSlot(i) + ChildSlots(i + 1)
    }

    ghost function ChildSlot(b: byte): seq<byte>
      reads this, Children.Values
    {
      if b in Children then Children[b].Hash else ZERO_DIGEST
    }

    /** The slots before child `i`, as the loop collects them. */
    ghost function SlotsBefore(i: nat): seq<byte>
      requires i <= FANOUT
      reads this, Children.Values
    {
      if i == 0 then [] else SlotsBefore(i - 1) + ChildSlot(i - 1)
    }

    lemma {:induction false} AllSlots(i: nat)
      requires i <= FANOUT
      ensures SlotsBefore(i) + ChildSlots(i) == ChildSlots(0)
    {
      hide ChildSlot;
      if i == 0 {
        assert [] + ChildSlots(0) == ChildSlots(0);
      } else {
        AllSlots(i - 1);
        ConcatAssociative(SlotsBefore(i - 1), ChildSlot(i - 1), ChildSlots(i));
      }
    }

    method ComputeHash(h: HashFn) returns (r: seq<byte>)
      ensures r == if IsLeaf then Value else h(ChildSlots(0))
    {
      if IsLeaf {
        return Value;
      }
      var buf: seq<byte> := [];
      var i := 0;
      while i < FANOUT
        invariant 0 <= i <= FANOUT
        invariant buf == SlotsBefore(i)
      {
        if i in Children {
          buf := buf + Children[i].Hash;
        } else {
          buf := buf + ZERO_DIGEST;
        }
        i := i + 1;
      }
      AllSlots(FANOUT);
      assert buf + [] == buf;
      r := h(buf);
    }
  }

  class SPT {
    var Root: SPTNode
    const h: HashFn
    /** Every node by the path that leads to it from the root, a bound on these paths, and the
        map stored. */
    ghost var nodes: map<Path, SPTNode>
    ghost var depth: nat
    ghost var contents: Contents

    /** One node per path, no node on two paths. */
    ghost predicate Paths()
      reads this`nodes, this`Root, this`depth
    {
      && [] in nodes && nodes[[]] == Root
      && (forall p :: p in nodes ==> |p| < depth && nodes[p].path == p)
    }

    /** Children exactly at the one-byte extensions. */
    ghost predicate Links()
      reads this`nodes, nodes.Values`Children
    {
      && (forall p: Path, b: byte {:trigger b in nodes[p].Children} :: p in nodes && b in nodes[p].Children ==>
            Child(p, b) in nodes && nodes[p].Children[b] == nodes[Child(p, b)])
      && (forall p: Path, b: byte {:trigger Child(p, b)} :: Child(p, b) in nodes ==>
            p in nodes && b in nodes[p].Children)
    }

    /** The heap graph is a tree without sharing. */
    ghost predicate Shape()
      reads this`nodes, this`Root, this`depth, nodes.Values`Children
    {
      Paths() && Links()
    }

    /** Leaves are the stored keys and hold their values. */
    ghost predicate Stored()
      reads this, nodes.Values`IsLeaf, nodes.Values`Value
    {
      && (forall k :: k in contents ==> k in nodes && nodes[k].IsLeaf && nodes[k].Value == contents[k])
      && (forall p :: p in nodes && nodes[p].IsLeaf ==> p in contents)
    }

    /** The hash field of a leaf is its value. */
    ghost predicate LeafHashes()
      reads this, nodes.Values`Hash
    {
      forall k :: k in contents && k in nodes ==> nodes[k].Hash == contents[k]
    }

    ghost predicate Leaves()
      reads this, nodes.Values`IsLeaf, nodes.Values`Value, nodes.Values`Hash
    {
      Stored() && LeafHashes()
    }

    /** No node without a key in it or below it, the root and perhaps `q` aside. */
    ghost predicate TightBut(q: Path)
      reads this`nodes, this`contents, nodes.Values`Children
    {
      forall p :: p in nodes && p != [] && p != q && p !in contents ==> nodes[p].Children != map[]
    }

    /** Once anything is stored, every hash field is the specified hash of its subtree, but for
        nodes below a leaf. */
    ghost predicate Coherent()
      reads this, nodes.Values`Hash
    {
      contents != map[] ==> UpToDate([])
    }

    ghost predicate Valid()
      reads this, nodes.Values
    {
      && Shape() && Leaves() && TightBut([]) && Coherent()
      && (contents == map[] ==> nodes.Keys == {[]} && Root.Hash == [])
    }

    constructor (h: HashFn)
      ensures Valid() && contents == map[] && this.h == h
      ensures fresh(nodes.Values)
    {
      this.h, depth := h, 1;
      var root := new SPTNode([]);
      Root := root;
      nodes, contents := map[[] := root], map[];
    }

    /** The subtree at a path. */
    ghost function Below(p: Path): set<SPTNode>
      reads this
    {
      set q | q in nodes && p <= q :: nodes[q]
    }

    lemma AncestorsAreNodes(p: Path, q: Path)
      requires Shape() && q in nodes && p <= q
      ensures p in nodes
      decreases |q|
    {
      if p != q {
        var parent := q[..|q| - 1];
        assert q == Child(parent, q[|q| - 1]);
        assert p <= parent;
        AncestorsAreNodes(p, parent);
      }
    }

    /** Once the children are up to date, the slots a node hashes are the specified ones. */
    lemma SlotsUpToDate(p: Path, i: nat)
      requires Shape() && Leaves() && p in nodes && p !in contents && !Hidden(contents, p) && i <= FANOUT
      requires ChildrenUpToDate(p, nodes[p].Children.Keys)
      ensures nodes[p].ChildSlots(i) == Slots(h, contents, nodes.Keys, depth, p, i)
      decreases FANOUT - i
    {
      if i == FANOUT {
      } else {
        ChildVisible(contents, p, i);
        SlotsUpToDate(p, i + 1);
      }
    }

    /** The hash field at a path is the specified hash of the subtree. */
    ghost predicate HashIsRight(p: Path)
      reads this, nodes.Values`Hash
    {
      p in nodes && |p| <= depth && nodes[p].Hash == NodeHash(h, contents, nodes.Keys, depth, p)
    }

    /** All hashes of a subtree are as specified. */
    ghost predicate UpToDate(p: Path)
      reads this, nodes.Values`Hash
    {
      forall q :: q in nodes && p <= q && !Hidden(contents, q) ==> HashIsRight(q)
    }

    /** All hashes under some of the children of a node are as specified. */
    ghost predicate ChildrenUpToDate(p: Path, done: set<byte>)
      reads this, nodes.Values`Hash
    {
      forall q :: q in nodes && p <= q && p != q && q[|p|] in done && !Hidden(contents, q) ==> HashIsRight(q)
    }

    lemma ChildSubtree(p: Path, b: byte)
      ensures Below(Child(p, b)) <= Below(p)
    {
      forall q | q in nodes && Child(p, b) <= q
        ensures p <= q
      {
        assert p <= Child(p, b);
      }
    }

    lemma BelowChild(p: Path, b: byte, q: Path)
      requires Shape() && q in nodes
      ensures nodes[q] in Below(Child(p, b)) <==> p <= q && p != q && q[|p|] == b
    {
      if p <= q && p != q {
        PrefixStep(p, q);
      }
    }

    /** Below a leaf everything is hidden. */
    lemma LeafSubtree(p: Path)
      requires Shape() && Leaves() && p in contents
      ensures UpToDate(p)
    {
      forall q | q in nodes && p <= q && !Hidden(contents, q)
        ensures q == p
      {
        assert p <= q && p != q ==> p < q;
      }
    }

    lemma InnerSubtree(p: Path)
      requires Shape() && p in nodes
      requires HashIsRight(p) && ChildrenUpToDate(p, nodes[p].Children.Keys)
      ensures UpToDate(p)
    {
      forall q | q in nodes && p <= q && q != p && !Hidden(contents, q)
        ensures HashIsRight(q)
      {
        PrefixStep(p, q);
        AncestorsAreNodes(Child(p, q[|p|]), q);
      }
    }

    lemma InnerHash(p: Path)
      requires Shape() && Leaves() && p in nodes && p !in contents && !Hidden(contents, p)
      requires ChildrenUpToDate(p, nodes[p].Children.Keys)
      ensures h(nodes[p].ChildSlots(0)) == NodeHash(h, contents, nodes.Keys, depth, p)
    {
      SlotsUpToDate(p, 0);
    }

    /** updateNodeHash: the recursion ends because every call goes one level down a tree of
        bounded height. Children are visited in any order, those of a leaf not at all. */
    method UpdateNodeHash(node: SPTNode, ghost p: Path)
      requires Shape() && Leaves()
      requires p in nodes && nodes[p] == node && !Hidden(contents, p)
      modifies Below(p)`Hash
      ensures Shape() && Leaves()
      ensures UpToDate(p)
      decreases depth - |p|, 2
    {
      if node.IsLeaf {
        LeafSubtree(p);
        return;
      }
      UpdateChildren(node, p);
      Rehash(node, p);
      InnerSubtree(p);
    }

    /** The loop over the children. */
    method UpdateChildren(node: SPTNode, ghost p: Path)
      requires Shape() && Leaves()
      requires p in nodes && nodes[p] == node && p !in contents && !Hidden(contents, p)
      modifies Below(p)`Hash
      ensures Shape() && Leaves()
      ensures ChildrenUpToDate(p, node.Children.Keys)
      decreases depth - |p|, 1
    {
      var rest := node.Children.Keys;
      assert node.Children.Keys - rest == {};
      while rest != {}
        invariant rest <= node.Children.Keys
        invariant Shape() && Leaves()
        invariant ChildrenUpToDate(p, node.Children.Keys - rest)
      {
        var b :| b in rest;
        UpdateChild(node, p, b, node.Children.Keys - rest);
        SetStep(node.Children.Keys, rest, b);
        rest := rest - {b};
      }
      assert node.Children.Keys - rest == node.Children.Keys;
    }

    method UpdateChild(node: SPTNode, ghost p: Path, b: byte, ghost done: set<byte>)
      requires Shape() && Leaves()
      requires p in nodes && nodes[p] == node && p !in contents && !Hidden(contents, p)
      requires b in node.Children && b !in done && ChildrenUpToDate(p, done)
      modifies Below(p)`Hash
      ensures Shape() && Leaves()
      ensures ChildrenUpToDate(p, done + {b})
      decreases depth - |p|, 0
    {
      ChildSubtree(p, b);
      ChildVisible(contents, p, b);
      UpdateNodeHash(node.Children[b], Child(p, b));
      forall q | q in nodes && p <= q && p != q && q[|p|] in done && !Hidden(contents, q)
        ensures HashIsRight(q)
      {
        BelowChild(p, b, q);
        assert old(HashIsRight(q));
      }
      forall q | q in nodes && p <= q && p != q && q[|p|] == b && !Hidden(contents, q)
        ensures HashIsRight(q)
      {
        PrefixStep(p, q);
      }
    }

    /** node.Hash = node.hash() once the children are done. */
    method Rehash(node: SPTNode, ghost p: Path)
      requires Shape() && Leaves()
      requires p in nodes && nodes[p] == node && p !in contents && !Hidden(contents, p)
      requires ChildrenUpToDate(p, node.Children.Keys)
      modifies node`Hash
      ensures Shape() && Leaves()
      ensures HashIsRight(p) && ChildrenUpToDate(p, node.Children.Keys)
    {
      InnerHash(p);
      hide NodeHash, SPTNode.ChildSlots, SPT.Links;
      node.Hash := node.ComputeHash(h);
      forall q | q in nodes && p <= q && p != q && q[|p|] in node.Children.Keys && !Hidden(contents, q)
        ensures HashIsRight(q)
      {
        assert old(HashIsRight(q)) && nodes[q] != node;
      }
    }

    ghost predicate WalkingTo(key: seq<byte>, p: Path)
      reads this, nodes.Values
    {
      && Shape() && Leaves() && TightBut(p)
      && p <= key && |key| < depth
    }

    /** One turn of the loop of Insert: the node for the next key byte, created if missing. */
    method Descend(node: SPTNode, b: byte, ghost p: Path, ghost key: seq<byte>) returns (child: SPTNode)
      requires WalkingTo(key, p) && p in nodes && nodes[p] == node && Child(p, b) <= key
      modifies this`nodes, node`Children
      ensures WalkingTo(key, Child(p, b)) && Child(p, b) in nodes && nodes[Child(p, b)] == child
      ensures fresh(nodes.Values - old(nodes.Values))
    {
      if b !in node.Children {
        Attach(node, b, p);
      } else {
        assert Child(p, b) in nodes;
      }
      child := node.Children[b];
    }

    method Attach(node: SPTNode, b: byte, ghost p: Path)
      requires Shape() && p in nodes && nodes[p] == node && |p| + 1 < depth && b !in node.Children
      modifies this`nodes, node`Children
      ensures Shape() && Child(p, b) !in old(nodes)
      ensures Child(p, b) in nodes && fresh(nodes[Child(p, b)]) && !nodes[Child(p, b)].IsLeaf
      ensures nodes == old(nodes)[Child(p, b) := nodes[Child(p, b)]]
    {
      var n := new SPTNode(Child(p, b));
      node.Children := node.Children[b := n];
      nodes := nodes[Child(p, b) := n];
      forall q: Path, c: byte | Child(q, c) in nodes
        ensures q in nodes && c in nodes[q].Children
      {
        if Child(q, c) == Child(p, b) {
          ChildUnique(q, c, p, b);
        } else {
          assert Child(q, c) in old(nodes);
          assert c in old(nodes[q].Children);
        }
      }
      forall q: Path, c: byte | q in nodes && c in nodes[q].Children
        ensures Child(q, c) in nodes && nodes[q].Children[c] == nodes[Child(q, c)]
      {
        if Child(q, c) == Child(p, b) {
          ChildUnique(q, c, p, b);
        }
      }
    }

    /** The loop of Insert: it follows the key from the root and adds the nodes that are missing. */
    method Walk(key: seq<byte>) returns (current: SPTNode)
      requires WalkingTo(key, [])
      modifies this`nodes, nodes.Values`Children
      ensures WalkingTo(key, key) && key in nodes && nodes[key] == current
      ensures fresh(nodes.Values - old(nodes.Values))
    {
      current := Root;
      var i := 0;
      assert key[..0] == [];
      while i < |key|
        invariant 0 <= i <= |key|
        invariant WalkingTo(key, key[..i])
        invariant key[..i] in nodes && nodes[key[..i]] == current
        invariant fresh(nodes.Values - old(nodes.Values))
      {
        KeyStep(key, i);
        current := Descend(current, key[i], key[..i], key);
        i := i + 1;
      }
      assert key[..i] == key;
    }

    /** The three assignments of Insert after its loop. */
    method SetLeaf(current: SPTNode, key: seq<byte>, value: seq<byte>)
      requires Paths() && Leaves() && key in nodes && nodes[key] == current
      modifies this`contents, current`IsLeaf, current`Value, current`Hash
      ensures contents == old(contents)[key := value]
      ensures Leaves()
    {
      current.IsLeaf := true;
      current.Value := value;
      current.Hash := value;
      contents := contents[key := value];
    }

    method EndWalk(current: SPTNode, key: seq<byte>, value: seq<byte>)
      requires WalkingTo(key, key) && key in nodes && nodes[key] == current
      modifies this`contents, current`IsLeaf, current`Value, current`Hash
      ensures contents == old(contents)[key := value]
      ensures Shape() && Leaves() && TightBut([])
    {
      hide SPT.Links, SPT.Paths, SPT.Leaves;
      SetLeaf(current, key, value);
      assert key in contents;
    }

    /** Insert without its last statement. */
    method Put(key: seq<byte>, value: seq<byte>)
      requires Shape() && Leaves() && TightBut([])
      modifies this, nodes.Values
      ensures contents == old(contents)[key := value] && contents != map[]
      ensures Shape() && Leaves() && TightBut([])
      ensures fresh(nodes.Values - old(nodes.Values))
    {
      Deepen(key);
      hide SPT.Shape, SPT.Leaves, SPT.TightBut, SPT.WalkingTo;
      AddLeaf(key, value);
    }

    method AddLeaf(key: seq<byte>, value: seq<byte>)
      requires WalkingTo(key, [])
      modifies this`nodes, this`contents, nodes.Values
      ensures contents == old(contents)[key := value] && contents != map[]
      ensures Shape() && Leaves() && TightBut([])
      ensures fresh(nodes.Values - old(nodes.Values))
    {
      hide SPT.Shape, SPT.Leaves, SPT.TightBut, SPT.WalkingTo;
      var current := Walk(key);
      EndWalk(current, key, value);
      assert key in contents;
    }

    /** Room for a key. */
    ghost method Deepen(key: seq<byte>)
      requires Shape() && Leaves() && TightBut([])
      modifies this`depth
      ensures WalkingTo(key, [])
    {
      depth := if |key| < depth then depth else |key| + 1;
    }

    /** updateHashes: from hashes that may all be stale. */
    method UpdateHashes()
      requires Shape() && Leaves() && TightBut([]) && contents != map[]
      modifies nodes.Values`Hash
      ensures Valid()
    {
      UpdateNodeHash(Root, []);
    }

    /** Insert: the stored map gains or overwrites one key, and every hash is recomputed. */
    method Insert(key: seq<byte>, value: seq<byte>)
      requires Valid()
      modifies this, nodes.Values
      ensures Valid() && contents == old(contents)[key := value]
      ensures fresh(nodes.Values - old(nodes.Values))
    {
      Put(key, value);
      UpdateHashes();
    }

    method Get(key: seq<byte>) returns (r: Option<seq<byte>>)
      requires Shape() && Stored()
      ensures r == if key in contents then Some(contents[key]) else None
    {
      var current := Root;
      var i := 0;
      assert key[..0] == [];
      while i < |key|
        invariant 0 <= i <= |key|
        invariant key[..i] in nodes && nodes[key[..i]] == current
      {
        KeyStep(key, i);
        if key[i] !in current.Children {
          NotStored(key, i + 1);
          return None;
        }
        current := current.Children[key[i]];
        i := i + 1;
      }
      assert key[..i] == key;
      r := if current.IsLeaf then Some(current.Value) else None;
    }

    lemma NotStored(key: seq<byte>, i: nat)
      requires Shape() && Stored() && i <= |key| && key[..i] !in nodes
      ensures key !in contents
    {
      if key in contents {
        AncestorsAreNodes(key[..i], key);
        assert false;
      }
    }

    /** In or below every node there is a stored key. */
    lemma KeyBelow(p: Path) returns (k: seq<byte>)
      requires Shape() && TightBut([]) && contents != map[] && p in nodes
      ensures k in contents && p <= k
      decreases depth - |p|
    {
      if p in contents {
        k := p;
      } else if p == [] {
        k :| k in contents;
      } else {
        var b :| b in nodes[p].Children;
        k := KeyBelow(Child(p, b));
        assert p <= Child(p, b);
      }
    }

    /** The nodes are exactly the prefixes of the stored keys. */
    lemma PathsArePrefixes()
      requires Valid() && contents != map[]
      ensures nodes.Keys == Prefixes(contents)
    {
      hide Prefixes;
      forall p
        ensures p in nodes <==> p in Prefixes(contents)
      {
        InPrefixes(contents, p);
        if p in nodes {
          var k := KeyBelow(p);
        }
        forall k | k in contents && p <= k
          ensures p in nodes
        {
          AncestorsAreNodes(p, k);
        }
      }
    }

    /** In a valid tree a leaf's hash is its value, and an inner node's is the digest of the 256
        slots its children's hash fields fill, unless it is below a leaf. */
    lemma HashCoherence(p: Path)
      requires Valid() && contents != map[] && p in nodes && !Hidden(contents, p)
      ensures nodes[p].IsLeaf ==> nodes[p].Hash == nodes[p].Value
      ensures !nodes[p].IsLeaf ==> nodes[p].Hash == h(nodes[p].ChildSlots(0))
    {
      assert HashIsRight(p);
      if !nodes[p].IsLeaf {
        InnerHash(p);
      }
    }

    lemma RootHashIs()
      requires Valid()
      ensures Root.Hash == RootHash(h, contents)
    {
      if contents != map[] {
        PathsArePrefixes();
        assert HashIsRight([]);
        hide NodeHash, RootHash, Prefixes;
        RootIsNode(h, contents, depth);
      }
    }

    method GetRootHash() returns (r: GoString)
      requires Valid()
      ensures r == Hex.Encode(RootHash(h, contents))
    {
      RootHashIs();
      r := Hex.Encode(Root.Hash);
    }
  }

  /** Two trees that store the same map have the same root hash, whatever was inserted into
      them in whatever order, and however often keys were overwritten. */
  lemma RootDependsOnContentsOnly(t: SPT, u: SPT)
    requires t.Valid() && u.Valid() && t.h == u.h && t.contents == u.contents
    ensures t.Root.Hash == u.Root.Hash
  {
    t.RootHashIs();
    u.RootHashIs();
  }

  type Inserts = seq<(seq<byte>, seq<byte>)>

  /** A run of insertions. */
  method InsertAll(t: SPT, inserts: Inserts)
    requires t.Valid()
    modifies t, t.nodes.Values
    ensures t.Valid() && t.contents == Inserted(old(t.contents), inserts)
    ensures fresh(t.nodes.Values - old(t.nodes.Values))
  {
    hide SPT.Valid;
    var i := 0;
    assert inserts[..0] == [];
    while i < |inserts|
      invariant 0 <= i <= |inserts|
      invariant t.Valid() && t.contents == Inserted(old(t.contents), inserts[..i])
      invariant fresh(t.nodes.Values - old(t.nodes.Values))
    {
      assert inserts[..i + 1][..i] == inserts[..i];
      t.Insert(inserts[i].0, inserts[i].1);
      i := i + 1;
    }
    assert inserts[..i] == inserts;
  }

  /** The same with all hashes computed once, at the end. */
  method PutAll(t: SPT, inserts: Inserts)
    requires t.Valid()
    modifies t, t.nodes.Values
    ensures t.Valid() && t.contents == Inserted(old(t.contents), inserts)
    ensures fresh(t.nodes.Values - old(t.nodes.Values))
  {
    if inserts != [] {
      PutEach(t, inserts);
      hide SPT.Shape, SPT.Leaves, SPT.TightBut, SPT.Valid, Inserted;
      t.UpdateHashes();
    }
  }

  method PutEach(t: SPT, inserts: Inserts)
    requires t.Shape() && t.Leaves() && t.TightBut([])
    modifies t, t.nodes.Values
    ensures t.Shape() && t.Leaves() && t.TightBut([]) && t.contents == Inserted(old(t.contents), inserts)
    ensures inserts != [] ==> t.contents != map[]
    ensures fresh(t.nodes.Values - old(t.nodes.Values))
  {
    hide SPT.Shape, SPT.Leaves, SPT.TightBut;
    var i := 0;
    assert inserts[..0] == [];
    while i < |inserts|
      invariant 0 <= i <= |inserts|
      invariant t.Shape() && t.Leaves() && t.TightBut([]) && t.contents == Inserted(old(t.contents), inserts[..i])
      invariant i > 0 ==> t.contents != map[]
      invariant fresh(t.nodes.Values - old(t.nodes.Values))
    {
      assert inserts[..i + 1][..i] == inserts[..i];
      t.Put(inserts[i].0, inserts[i].1);
      i := i + 1;
    }
    assert inserts[..i] == inserts;
  }

  /** Insertions with distinct keys give one root, in whatever order, and whether the hashes are
      recomputed after each of them or once for all. */
  method OneRoot(h: HashFn, xs: Inserts, ys: Inserts) returns (t: SPT, u: SPT)
    requires DistinctKeys(xs) && DistinctKeys(ys) && multiset(xs) == multiset(ys)
    ensures t.Valid() && u.Valid() && t.contents == Inserted(map[], xs) && u.contents == Inserted(map[], ys)
    ensures t.Root.Hash == u.Root.Hash
  {
    hide SPT.Valid;
    t := new SPT(h);
    InsertAll(t, xs);
    u := new SPT(h);
    PutAll(u, ys);
    OrderOfInsertsIrrelevant(map[], xs, ys);
    RootDependsOnContentsOnly(t, u);
  }
}
