/** The byte order of Go strings, and sort.Strings. */
module StringOrder {
  import opened Bytes

  /** a < b */
  predicate Before(a: GoString, b: GoString) {
    if |b| == 0 then false
    else if |a| == 0 then true
    else a[0] < b[0] || (a[0] == b[0] && Before(a[1..], b[1..]))
  }

  lemma {:induction false} Total(a: GoString, b: GoString)
    ensures a == b || Before(a, b) || Before(b, a)
    ensures !(Before(a, b) && Before(b, a))
    ensures a == b ==> !Before(a, b)
  {
    if |a| == 0 || |b| == 0 {
    } else {
      Total(a[1..], b[1..]);
      assert a == [a[0]] + a[1..] && b == [b[0]] + b[1..];
    }
  }

  lemma {:induction false} Transitive(a: GoString, b: GoString, c: GoString)
    requires Before(a, b) && Before(b, c)
    ensures Before(a, c)
  {
    if |a| == 0 || |b| == 0 || |c| == 0 {
    } else if a[0] == b[0] == c[0] {
      Transitive(a[1..], b[1..], c[1..]);
    }
  }

  ghost predicate Ascending(q: seq<GoString>) {
    forall i, j :: 0 <= i < j < |q| ==> Before(q[i], q[j])
  }

  /** The greatest of some strings. */
  lemma {:induction false} Greatest(s: set<GoString>) returns (a: GoString)
    requires s != {}
    ensures a in s && forall b :: b in s ==> b == a || Before(b, a)
    decreases s
  {
    var c :| c in s;
    if s == {c} {
      a := c;
    } else {
      var d := Greatest(s - {c});
      Total(c, d);
      a := if Before(c, d) then d else c;
      forall b | b in s
        ensures b == a || Before(b, a)
      {
        if b != c && b != d && a == c {
          Transitive(b, d, c);
        }
      }
    }
  }

  /** One more string put in its place. */
  method Placed(q: seq<GoString>, x: GoString) returns (r: seq<GoString>)
    requires Ascending(q) && x !in q
    ensures Ascending(r) && forall y :: y in r <==> y in q || y == x
  {
    var i := 0;
    while i < |q| && Before(q[i], x)
      invariant 0 <= i <= |q|
      invariant forall j :: 0 <= j < i ==> Before(q[j], x)
    {
      i := i + 1;
    }
    forall j | i <= j < |q|
      ensures Before(x, q[j])
    {
      Total(q[i], x);
      if j > i {
        Transitive(x, q[i], q[j]);
      }
    }
    r := q[..i] + [x] + q[i..];
  }

  /** The strings of a set, sorted. */
  method Sorted(s: set<GoString>) returns (q: seq<GoString>)
    ensures Ascending(q) && forall x :: x in q <==> x in s
  {
    q := [];
    var rest := s;
    while rest != {}
      invariant rest <= s && Ascending(q)
      invariant forall x :: x in q <==> x in s && x !in rest
    {
      var x :| x in rest;
      q := Placed(q, x);
      rest := rest - {x};
    }
  }
}
