/** What the order of the storage iteration can change: the list of entries of an account, for
    all the orders Go may take. */
module StorageOrder {
  import opened Bytes
  import opened Accounts

  type Storage = map<GoString, map<GoString, GoString>>

  /** One slot of one contract. */
  function SlotValue(storage: Storage, c: GoString, k: GoString): Option<GoString> {
    if c in storage && k in storage[c] then Some(storage[c][k]) else None
  }

  ghost predicate IsEntry(storage: Storage, c: GoString, k: GoString, e: KeyValue) {
    SlotValue(storage, c, k).Some? && e == Entry(c, k, storage[c][k])
  }

  /** All slots flatten to one and the same entry. */
  ghost predicate OneEntry(storage: Storage) {
    forall c, k, d, l :: SlotValue(storage, c, k).Some? && SlotValue(storage, d, l).Some? ==>
      Entry(c, k, storage[c][k]) == Entry(d, l, storage[d][l])
  }

  /** Every iteration gives the same list. */
  ghost predicate OneList(storage: Storage) {
    forall i, j :: FullIteration(storage, i) && FullIteration(storage, j) ==> Flatten(storage, i) == Flatten(storage, j)
  }

  // ---- What a list holds ------------------------------------------------------------------

  /** The slots an iteration has gone through. */
  ghost function SlotsVisited(storage: Storage, it: Iteration): set<(GoString, GoString)> {
    set c, k | c in storage && Visited(it, c) && k in storage[c] :: (c, k)
  }

  lemma VisitedFront(it: Iteration, c: GoString)
    requires |it| > 0
    ensures Visited(it, c) <==> Visited(it[..|it| - 1], c) || it[|it| - 1].contract == c
  {
    var front := it[..|it| - 1];
    if Visited(front, c) {
      var i :| 0 <= i < |front| && front[i].contract == c;
      assert it[i].contract == c;
    }
    if Visited(it, c) {
      var i :| 0 <= i < |it| && it[i].contract == c;
      assert i < |front| ==> front[i].contract == c;
    }
  }

  lemma {:induction false} DistinctSize<T>(q: seq<T>, s: set<T>)
    requires Distinct(q) && forall x :: x in q <==> x in s
    ensures |q| == |s|
  {
    if |q| == 0 {
      assert s == {};
    } else {
      var n := |q| - 1;
      assert forall x :: x in q[..n] <==> x in s && x != q[n] by {
        assert q == q[..n] + [q[n]];
      }
      DistinctSize(q[..n], s - {q[n]});
    }
  }

  /** The slots of the last contract of an iteration are new. */
  lemma OneContractMore(storage: Storage, it: Iteration)
    requires PartialIteration(storage, it) && |it| > 0
    ensures |SlotsVisited(storage, it)| == |SlotsVisited(storage, it[..|it| - 1])| + |it[|it| - 1].slots|
  {
    var front, last := it[..|it| - 1], it[|it| - 1];
    var c := last.contract;
    assert Covers(last, storage);
    assert !Visited(front, c);
    DistinctSize(last.slots, storage[c].Keys);
    var pairs := set k | k in storage[c].Keys :: (c, k);
    PairsSize(c, storage[c].Keys);
    forall d
      ensures Visited(it, d) <==> Visited(front, d) || d == c
    {
      VisitedFront(it, d);
    }
    hide Visited, Covers, Distinct, PartialIteration;
    assert SlotsVisited(storage, it) == SlotsVisited(storage, front) + pairs;
    assert SlotsVisited(storage, front) !! pairs;
  }

  lemma {:induction false} PairsSize(c: GoString, keys: set<GoString>)
    ensures |set k | k in keys :: (c, k)| == |keys|
  {
    if keys == {} {
      assert (set k | k in keys :: (c, k)) == {};
    } else {
      var x :| x in keys;
      PairsSize(c, keys - {x});
      assert (set k | k in keys :: (c, k)) == (set k | k in keys - {x} :: (c, k)) + {(c, x)};
    }
  }

  /** A list is as long as the number of slots visited. */
  lemma {:induction false} ListLength(storage: Storage, it: Iteration)
    requires PartialIteration(storage, it)
    ensures |Flatten(storage, it)| == |SlotsVisited(storage, it)|
  {
    if |it| == 0 {
      assert SlotsVisited(storage, it) == {};
    } else {
      OneContractMore(storage, it);
      hide SlotsVisited, Covers;
      ListLength(storage, it[..|it| - 1]);
    }
  }

  /** It holds the entries of the slots visited, and no others. */
  lemma {:induction false} ListEntries(storage: Storage, it: Iteration, e: KeyValue)
    requires PartialIteration(storage, it)
    ensures e in Flatten(storage, it) <==> exists c, k :: Visited(it, c) && IsEntry(storage, c, k, e)
  {
    if |it| == 0 {
    } else {
      var front, last := it[..|it| - 1], it[|it| - 1];
      ListEntries(storage, front, e);
      forall c
        ensures Visited(it, c) <==> Visited(front, c) || last.contract == c
      {
        VisitedFront(it, c);
      }
      assert Covers(last, storage);
      hide Visited, PartialIteration;
      EntriesHold(storage, last, e);
    }
  }

  lemma EntriesHold(storage: Storage, v: Visit, e: KeyValue)
    requires Covers(v, storage)
    ensures e in Entries(v.contract, storage[v.contract], v.slots) <==> exists k :: IsEntry(storage, v.contract, k, e)
  {
    var es := Entries(v.contract, storage[v.contract], v.slots);
    if e in es {
      var n :| 0 <= n < |es| && es[n] == e;
      assert v.slots[n] in v.slots;
      assert IsEntry(storage, v.contract, v.slots[n], e);
    }
    if k :| IsEntry(storage, v.contract, k, e) {
      assert k in v.slots;
      var n :| 0 <= n < |v.slots| && v.slots[n] == k;
      assert es[n] == e;
    }
  }

  // ---- Orders there are -------------------------------------------------------------------

  lemma {:induction false} SomeOrder(first: seq<GoString>, rest: set<GoString>) returns (q: seq<GoString>)
    requires Distinct(first) && forall x :: x in first ==> x !in rest
    ensures Distinct(q) && first <= q && forall x :: x in q <==> x in first || x in rest
    decreases rest
  {
    if rest == {} {
      q := first;
    } else {
      var x :| x in rest;
      q := SomeOrder(first + [x], rest - {x});
    }
  }

  /** Whatever has been visited, the iteration can be completed. */
  lemma {:induction false} Completion(storage: Storage, it: Iteration, rest: set<GoString>) returns (full: Iteration)
    requires PartialIteration(storage, it) && rest <= storage.Keys
    requires forall c :: c in storage ==> (c in rest <==> !Visited(it, c))
    ensures FullIteration(storage, full) && Flatten(storage, it) <= Flatten(storage, full)
    decreases rest
  {
    hide Flatten, PartialIteration, Visited;
    if rest == {} {
      full := it;
    } else {
      var c :| c in rest;
      var slots := SomeOrder([], storage[c].Keys);
      IterationGrows(storage, it, c, slots);
      full := Completion(storage, it + [Visit(c, slots)], rest - {c});
    }
  }

  /** Any slot can come first. */
  lemma StartingWith(storage: Storage, c: GoString, k: GoString) returns (it: Iteration)
    requires SlotValue(storage, c, k).Some?
    ensures FullIteration(storage, it)
    ensures |Flatten(storage, it)| > 0 && Flatten(storage, it)[0] == Entry(c, k, storage[c][k])
  {
    var slots := SomeOrder([k], storage[c].Keys - {k});
    assert k == slots[0];
    var first := [Visit(c, slots)];
    var none: Iteration := [];
    IterationGrows(storage, none, c, slots);
    assert none + first == first;
    assert Flatten(storage, none) == [];
    it := Completion(storage, first, storage.Keys - {c});
    assert Flatten(storage, first)[0] == Entry(c, k, storage[c][k]);
  }

  lemma SomeFull(storage: Storage) returns (it: Iteration)
    ensures FullIteration(storage, it)
  {
    it := Completion(storage, [], storage.Keys);
  }

  // ---- When there is one list -------------------------------------------------------------

  /** The order shows just when two slots flatten to different entries. */
  lemma OneListExactly(storage: Storage)
    ensures OneList(storage) <==> OneEntry(storage)
  {
    hide Flatten, PartialIteration, Visited;
    if OneEntry(storage) {
      forall i, j | FullIteration(storage, i) && FullIteration(storage, j)
        ensures Flatten(storage, i) == Flatten(storage, j)
      {
        SameList(storage, i, j);
      }
    } else {
      var i, j := TwoLists(storage);
    }
  }

  lemma TwoLists(storage: Storage) returns (i: Iteration, j: Iteration)
    requires !OneEntry(storage)
    ensures FullIteration(storage, i) && FullIteration(storage, j) && Flatten(storage, i) != Flatten(storage, j)
  {
    hide Flatten, FullIteration;
    var c, k, d, l :| SlotValue(storage, c, k).Some? && SlotValue(storage, d, l).Some? &&
      Entry(c, k, storage[c][k]) != Entry(d, l, storage[d][l]);
    i := StartingWith(storage, c, k);
    j := StartingWith(storage, d, l);
  }

  lemma SameList(storage: Storage, i: Iteration, j: Iteration)
    requires OneEntry(storage) && FullIteration(storage, i) && FullIteration(storage, j)
    ensures Flatten(storage, i) == Flatten(storage, j)
  {
    ListLength(storage, i);
    ListLength(storage, j);
    assert SlotsVisited(storage, i) == SlotsVisited(storage, j);
    var a, b := Flatten(storage, i), Flatten(storage, j);
    hide Flatten, SlotsVisited, FullIteration, Entry;
    forall n | 0 <= n < |a|
      ensures a[n] == b[n]
    {
      ListEntries(storage, i, a[n]);
      ListEntries(storage, j, b[n]);
    }
  }

  // ---- What a list determines -------------------------------------------------------------

  ghost predicate NoColons(storage: Storage) {
    forall c :: c in storage ==> COLON !in c
  }

  lemma EntryInjective(c: GoString, k: GoString, v: GoString, d: GoString, l: GoString, w: GoString)
    requires COLON !in c && COLON !in d && Entry(c, k, v) == Entry(d, l, w)
    ensures c == d && k == l && v == w
  {
    var s := c + [COLON] + k;
    assert s == d + [COLON] + l;
    assert s[|c|] == COLON && s[|d|] == COLON;
    assert forall n :: 0 <= n < |c| ==> s[n] == c[n];
    assert forall n :: 0 <= n < |d| ==> s[n] == d[n];
    SplitConcat(c + [COLON], k, d + [COLON], l);
    SplitConcat(c, [COLON], d, [COLON]);
  }

  /** Where contract names have no colon, as addresses do not, the list determines every slot:
      the storage map up to contracts without slots. */
  lemma ListDeterminesSlots(a: Storage, i: Iteration, b: Storage, j: Iteration)
    requires FullIteration(a, i) && FullIteration(b, j) && Flatten(a, i) == Flatten(b, j)
    requires NoColons(a) && NoColons(b)
    ensures forall c, k :: SlotValue(a, c, k) == SlotValue(b, c, k)
  {
    hide Flatten;
    forall c, k
      ensures SlotValue(a, c, k) == SlotValue(b, c, k)
    {
      SlotInBoth(a, i, b, j, c, k);
      SlotInBoth(b, j, a, i, c, k);
    }
  }

  lemma SlotInBoth(a: Storage, i: Iteration, b: Storage, j: Iteration, c: GoString, k: GoString)
    requires FullIteration(a, i) && FullIteration(b, j) && Flatten(a, i) == Flatten(b, j)
    requires NoColons(a) && NoColons(b)
    ensures SlotValue(a, c, k).Some? ==> SlotValue(b, c, k) == SlotValue(a, c, k)
  {
    hide Flatten, PartialIteration, Visited, Entry;
    if SlotValue(a, c, k).Some? {
      var e := Entry(c, k, a[c][k]);
      assert IsEntry(a, c, k, e) && Visited(i, c);
      ListEntries(a, i, e);
      ListEntries(b, j, e);
      var d, l :| Visited(j, d) && IsEntry(b, d, l, e);
      EntryInjective(c, k, a[c][k], d, l, b[d][l]);
    }
  }
}
