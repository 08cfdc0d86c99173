/** The transaction pool and one locked pass over it. */
module Pool {
  import opened Bytes

  /** What the node says to a transaction that is sent to it. */
  datatype Reply = Accepted | AlreadyKnown | Failed

  /** `gasLimit(tx)` is none for text that does not decode to a transaction. */
  type GasLimitOf = GoString -> Option<nat>

  datatype Sized = Sized(txHex: GoString, gasLimit: nat)

  ghost predicate Decreasing(xs: seq<Sized>) {
    forall i, j :: 0 <= i < j < |xs| ==> xs[i].gasLimit >= xs[j].gasLimit
  }

  /** The transaction texts, with their multiplicities. */
  ghost function Texts(xs: seq<Sized>): multiset<GoString> {
    if |xs| == 0 then multiset{} else Texts(xs[..|xs| - 1]) + multiset{xs[|xs| - 1].txHex}
  }

  /** The transactions of the pool that decode, with their gas limits, and the others. */
  function Decodable(gasLimit: GasLimitOf, txs: seq<GoString>): seq<Sized> {
    if |txs| == 0 then []
    else
      var last := txs[|txs| - 1];
      Decodable(gasLimit, txs[..|txs| - 1]) +
      (match gasLimit(last) case Some(g) => [Sized(last, g)] case None => [])
  }

  ghost function Undecodable(gasLimit: GasLimitOf, txs: seq<GoString>): multiset<GoString> {
    if |txs| == 0 then multiset{}
    else
      var last := txs[|txs| - 1];
      Undecodable(gasLimit, txs[..|txs| - 1]) + (if gasLimit(last).None? then multiset{last} else multiset{})
  }

  /** What a pass attempts: the decodable transactions in some order of non-increasing gas. */
  ghost predicate IsPass(gasLimit: GasLimitOf, txs: seq<GoString>, attempted: seq<Sized>) {
    multiset(attempted) == multiset(Decodable(gasLimit, txs)) && Decreasing(attempted)
  }

  /** The texts of the attempts the node refused, which are put back for a retry. `reply(i)` is
      what it says to the i-th transaction sent. */
  function Refused(attempted: seq<Sized>, reply: nat -> Reply): seq<GoString> {
    if |attempted| == 0 then []
    else
      var n := |attempted| - 1;
      Refused(attempted[..n], reply) + (if reply(n) == Failed then [attempted[n].txHex] else [])
  }

  lemma {:induction false} NoneRefused(attempted: seq<Sized>, reply: nat -> Reply)
    ensures Refused(attempted, reply) == [] <==> forall i :: 0 <= i < |attempted| ==> reply(i) != Failed
  {
    if |attempted| == 0 {
    } else {
      NoneRefused(attempted[..|attempted| - 1], reply);
    }
  }

  // ---- Sorting ----------------------------------------------------------------------------

  /** Puts `x` behind everything with at least its gas limit. */
  method Insert(xs: seq<Sized>, x: Sized) returns (r: seq<Sized>)
    requires Decreasing(xs)
    ensures Decreasing(r) && multiset(r) == multiset(xs) + multiset{x}
  {
    var i := 0;
    while i < |xs| && xs[i].gasLimit >= x.gasLimit
      invariant 0 <= i <= |xs|
      invariant forall j :: 0 <= j < i ==> xs[j].gasLimit >= x.gasLimit
    {
      i := i + 1;
    }
    r := xs[..i] + [x] + xs[i..];
    InsertedMultiset(xs, i, x);
  }

  lemma InsertedMultiset(xs: seq<Sized>, i: nat, x: Sized)
    requires i <= |xs|
    ensures multiset(xs[..i] + [x] + xs[i..]) == multiset(xs) + multiset{x}
  {
    assert xs == xs[..i] + xs[i..];
  }

  /** sort.Slice by falling gas limit: some permutation in that order. */
  method Sort(xs: seq<Sized>) returns (r: seq<Sized>)
    ensures multiset(r) == multiset(xs) && Decreasing(r)
  {
    r := [];
    var i := 0;
    while i < |xs|
      invariant 0 <= i <= |xs|
      invariant Decreasing(r) && multiset(r) == multiset(xs[..i])
    {
      assert xs[..i + 1] == xs[..i] + [xs[i]];
      r := Insert(r, xs[i]);
      i := i + 1;
    }
    assert xs[..i] == xs;
  }

  // ---- The pool ---------------------------------------------------------------------------

  class TxPool {
    var txs: seq<GoString>

    constructor ()
      ensures txs == []
    {
      txs := [];
    }

    method AddTx(txHex: GoString)
      modifies this
      ensures txs == old(txs) + [txHex]
    {
      txs := txs + [txHex];
    }

    /** One locked pass of Process over a non-empty pool. Refused transactions are put back for
        a retry, and then the pool is emptied, them included: so exactly those refused are in
        the pool afterwards just when none was. */
    method Pass(gasLimit: GasLimitOf, reply: nat -> Reply) returns (attempted: seq<Sized>)
      requires txs != []
      modifies this
      ensures IsPass(gasLimit, old(txs), attempted)
      ensures forall i, j :: 0 <= i < j < |attempted| ==> attempted[j].gasLimit <= attempted[i].gasLimit
      ensures txs == []
      ensures multiset(txs) == multiset(Refused(attempted, reply)) <==>
        forall i :: 0 <= i < |attempted| ==> reply(i) != Failed
    {
      var txList: seq<Sized> := [];
      var i := 0;
      while i < |txs|
        invariant 0 <= i <= |txs|
        invariant txList == Decodable(gasLimit, txs[..i])
      {
        assert txs[..i + 1][..i] == txs[..i];
        match gasLimit(txs[i]) {
          case Some(g) => txList := txList + [Sized(txs[i], g)];
          case None =>
        }
        i := i + 1;
      }
      assert txs[..i] == txs;
      attempted := Sort(txList);
      SendAll(attempted, reply);
      txs := txs[..0];
      NoneRefused(attempted, reply);
      assert Refused(attempted, reply) != [] ==> Refused(attempted, reply)[0] in multiset(Refused(attempted, reply));
    }

    /** The sending loop of a pass. */
    method SendAll(attempted: seq<Sized>, reply: nat -> Reply)
      modifies this
      ensures txs == old(txs) + Refused(attempted, reply)
    {
      var k := 0;
      while k < |attempted|
        invariant 0 <= k <= |attempted|
        invariant txs == old(txs) + Refused(attempted[..k], reply)
      {
        assert attempted[..k + 1][..k] == attempted[..k];
        if reply(k) == Failed {
          txs := txs + [attempted[k].txHex];
        }
        k := k + 1;
      }
      assert attempted[..k] == attempted;
    }
  }

  /** A pass that fails: the only transaction is refused, and the pool is empty. */
  method FailingPass(txHex: GoString, gasLimit: GasLimitOf, reply: nat -> Reply)
    returns (pool: TxPool, attempted: seq<Sized>)
    requires gasLimit(txHex).Some? && reply(0) == Failed
    ensures Refused(attempted, reply) == [txHex] && pool.txs == []
  {
    pool := new TxPool();
    pool.AddTx(txHex);
    attempted := pool.Pass(gasLimit, reply);
    OneDecodable(txHex, gasLimit, attempted);
  }

  lemma OneDecodable(txHex: GoString, gasLimit: GasLimitOf, attempted: seq<Sized>)
    requires gasLimit(txHex).Some? && IsPass(gasLimit, [txHex], attempted)
    ensures attempted == [Sized(txHex, gasLimit(txHex).value)]
  {
    var only := Sized(txHex, gasLimit(txHex).value);
    assert Decodable(gasLimit, [txHex]) == [only];
    assert |multiset(attempted)| == |attempted|;
    assert |attempted| == 1 && attempted[0] in multiset(attempted);
  }

  // ---- Conservation -----------------------------------------------------------------------

  lemma {:induction false} DecodableCount(gasLimit: GasLimitOf, txs: seq<GoString>, x: Sized)
    ensures multiset(Decodable(gasLimit, txs))[x] ==
      if gasLimit(x.txHex) == Some(x.gasLimit) then multiset(txs)[x.txHex] else 0
  {
    if |txs| == 0 {
    } else {
      DecodableCount(gasLimit, txs[..|txs| - 1], x);
      LastInMultiset(txs);
    }
  }

  /** A pass attempts every transaction of the pool that decodes, as often as it is there, with
      its own gas limit, none that does not, and no smaller gas limit before a greater one. */
  lemma AttemptsInWords(gasLimit: GasLimitOf, txs: seq<GoString>, attempted: seq<Sized>)
    requires IsPass(gasLimit, txs, attempted)
    ensures forall x :: (multiset(attempted)[x] ==
                         if gasLimit(x.txHex) == Some(x.gasLimit) then multiset(txs)[x.txHex] else 0)
    ensures forall i, j :: 0 <= i < j < |attempted| ==> attempted[j].gasLimit <= attempted[i].gasLimit
  {
    forall x
      ensures multiset(attempted)[x] == if gasLimit(x.txHex) == Some(x.gasLimit) then multiset(txs)[x.txHex] else 0
    {
      DecodableCount(gasLimit, txs, x);
    }
  }

  /** Every pooled transaction is attempted or dropped as undecodable, with its multiplicity. */
  lemma {:induction false} AttemptedOrDropped(gasLimit: GasLimitOf, txs: seq<GoString>)
    ensures multiset(txs) == Texts(Decodable(gasLimit, txs)) + Undecodable(gasLimit, txs)
  {
    if |txs| == 0 {
    } else {
      hide Texts, Decodable, Undecodable;
      AttemptedOrDropped(gasLimit, txs[..|txs| - 1]);
      LastInMultiset(txs);
      OneMorePooled(gasLimit, txs);
    }
  }

  lemma LastInMultiset(txs: seq<GoString>)
    requires |txs| > 0
    ensures multiset(txs) == multiset(txs[..|txs| - 1]) + multiset{txs[|txs| - 1]}
  {
    assert txs == txs[..|txs| - 1] + [txs[|txs| - 1]];
  }

  lemma OneMorePooled(gasLimit: GasLimitOf, txs: seq<GoString>)
    requires |txs| > 0
    ensures var front, last := txs[..|txs| - 1], txs[|txs| - 1];
      Texts(Decodable(gasLimit, txs)) + Undecodable(gasLimit, txs)
        == Texts(Decodable(gasLimit, front)) + Undecodable(gasLimit, front) + multiset{last}
  {
    hide Texts;
    var front, last := txs[..|txs| - 1], txs[|txs| - 1];
    match gasLimit(last) {
      case Some(g) => TextsAppend(Decodable(gasLimit, front), Sized(last, g));
      case None => assert Decodable(gasLimit, front) + [] == Decodable(gasLimit, front);
    }
  }

  /** Sorting does not change which texts are attempted. */
  lemma {:induction false} TextsOfPermutation(xs: seq<Sized>, ys: seq<Sized>)
    requires multiset(xs) == multiset(ys)
    ensures Texts(xs) == Texts(ys)
    decreases |xs|
  {
    assert |multiset(xs)| == |xs| && |multiset(ys)| == |ys|;
    if |xs| == 0 {
    } else {
      var n := |xs| - 1;
      assert xs[n] in multiset(xs);
      var j :| 0 <= j < |ys| && ys[j] == xs[n];
      MultisetWithout(xs, n);
      MultisetWithout(ys, j);
      assert xs[..n] + xs[n + 1..] == xs[..n];
      TextsOfPermutation(xs[..n], ys[..j] + ys[j + 1..]);
      TextsWithout(ys, j);
    }
  }

  lemma MultisetWithout(ys: seq<Sized>, j: nat)
    requires j < |ys|
    ensures multiset(ys[..j] + ys[j + 1..]) == multiset(ys) - multiset{ys[j]}
  {
    assert ys == ys[..j] + [ys[j]] + ys[j + 1..];
  }

  lemma {:induction false} TextsWithout(ys: seq<Sized>, j: nat)
    requires j < |ys|
    ensures Texts(ys) == Texts(ys[..j] + ys[j + 1..]) + multiset{ys[j].txHex}
    decreases |ys|
  {
    var n := |ys| - 1;
    var rest := ys[..j] + ys[j + 1..];
    assert ys == ys[..n] + [ys[n]];
    TextsAppend(ys[..n], ys[n]);
    if j == n {
      assert rest == ys[..n];
    } else {
      hide Texts;
      var front := ys[..n];
      TextsWithout(front, j);
      assert rest == front[..j] + front[j + 1..] + [ys[n]];
      TextsAppend(front[..j] + front[j + 1..], ys[n]);
    }
  }

  lemma TextsAppend(xs: seq<Sized>, x: Sized)
    ensures Texts(xs + [x]) == Texts(xs) + multiset{x.txHex}
  {
    assert (xs + [x])[..|xs|] == xs;
  }

  /** The pool over time: additions and passes in any interleaving, with what has been added,
      attempted and dropped so far. */
  datatype Event = Add(txHex: GoString) | Process(attempted: seq<Sized>)

  datatype History = History(
    pending: seq<GoString>, added: multiset<GoString>, attempted: multiset<GoString>, dropped: multiset<GoString>)

  ghost predicate Happens(gasLimit: GasLimitOf, s: History, e: Event, t: History) {
    match e
    case Add(tx) => t == s.(pending := s.pending + [tx], added := s.added + multiset{tx})
    case Process(attempted) =>
      && s.pending != [] && IsPass(gasLimit, s.pending, attempted)
      && t == s.(pending := [],
                 attempted := s.attempted + Texts(attempted),
                 dropped := s.dropped + Undecodable(gasLimit, s.pending))
  }

  ghost predicate Runs(gasLimit: GasLimitOf, s: History, es: seq<Event>, states: seq<History>, t: History) {
    && |states| == |es| + 1 && states[0] == s && states[|es|] == t
    && forall i :: 0 <= i < |es| ==> Happens(gasLimit, states[i], es[i], states[i + 1])
  }

  ghost predicate Conserved(s: History) {
    s.added == s.attempted + s.dropped + multiset(s.pending)
  }

  lemma StepConserves(gasLimit: GasLimitOf, s: History, e: Event, t: History)
    requires Conserved(s) && Happens(gasLimit, s, e, t)
    ensures Conserved(t)
  {
    match e
    case Add(_) =>
    case Process(attempted) =>
      AttemptedOrDropped(gasLimit, s.pending);
      TextsOfPermutation(attempted, Decodable(gasLimit, s.pending));
  }

  /** Over any run, attempted, dropped and pending together are exactly what was added; so no
      transaction is attempted more often than it was added, whether or not it failed. */
  lemma {:induction false} RunConserves(gasLimit: GasLimitOf, s: History, es: seq<Event>, states: seq<History>,
      t: History)
    requires Conserved(s) && Runs(gasLimit, s, es, states, t)
    ensures Conserved(t) && t.attempted <= t.added
    decreases |es|
  {
    assert Conserved(t) ==> t.attempted <= t.added;
    hide Conserved, Happens;
    if |es| == 0 {
    } else {
      StepConserves(gasLimit, s, es[0], states[1]);
      RunConserves(gasLimit, states[1], es[1..], states[1..], t);
    }
  }
}
