/** Byte strings, digests, and the positional number notations the sequencer writes. */
module Bytes {

  type byte = b: int | 0 <= b < 256

  /** A Go `string`: any sequence of bytes. */
  type GoString = seq<byte>

  const DIGEST_SIZE: nat := 32

  /** What SHA-256 and Keccak-256 return. */
  type Digest = d: seq<byte> | |d| == DIGEST_SIZE witness seq(DIGEST_SIZE, _ => 0)

  /** A hash function is any total function to digests: nothing is assumed of it. */
  type HashFn = seq<byte> -> Digest

  const ZERO_DIGEST: Digest := [
    0, 0, 0, 0, 0, 0, 0, 0, 0, 0, 0, 0, 0, 0, 0, 0,
    0, 0, 0, 0, 0, 0, 0, 0, 0, 0, 0, 0, 0, 0, 0, 0]

  const UINT64: nat := 0x1_0000_0000_0000_0000

  datatype Option<+T> = None | Some(value: T)

  /** An explicit collision: an input hashed on one side and a different one hashed on the
      other side, with the same digest. */
  ghost predicate CollisionAmong(h: HashFn, left: set<seq<byte>>, right: set<seq<byte>>) {
    exists x, y :: x in left && y in right && x != y && h(x) == h(y)
  }

  lemma CollisionAmongMonotone(h: HashFn, l: set<seq<byte>>, r: set<seq<byte>>, l': set<seq<byte>>, r': set<seq<byte>>)
    requires CollisionAmong(h, l, r) && l <= l' && r <= r'
    ensures CollisionAmong(h, l', r')
  {
    var x, y :| x in l && y in r && x != y && h(x) == h(y);
    assert x in l' && y in r';
  }

  /** Two concatenations with equally long heads agree part by part. */
  lemma SplitConcat<T>(a: seq<T>, b: seq<T>, c: seq<T>, d: seq<T>)
    requires a + b == c + d && |a| == |c|
    ensures a == c && b == d
  {
    assert a == (a + b)[..|a|] && b == (a + b)[|a|..];
    assert c == (c + d)[..|c|] && d == (c + d)[|c|..];
  }

  lemma TakeDrop<T>(a: seq<T>, b: seq<T>)
    ensures (a + b)[..|a|] == a && (a + b)[|a|..] == b
  {
  }

  lemma SliceOfHead<T>(a: seq<T>, b: seq<T>, lo: nat, hi: nat)
    requires lo <= hi <= |a|
    ensures (a + b)[lo..hi] == a[lo..hi]
  {
  }

  lemma Parts<T>(s: seq<T>, k: nat)
    requires k <= |s|
    ensures s == s[..k] + s[k..] && |s[..k]| == k && |s[k..]| == |s| - k
    ensures forall x :: x in s[..k] || x in s[k..] ==> x in s
  {
  }

  lemma ConcatAssociative<T>(a: seq<T>, b: seq<T>, c: seq<T>)
    ensures a + (b + c) == a + b + c
  {
  }

  /** One more element has been taken out of `rest`. */
  lemma SetStep<T>(all: set<T>, rest: set<T>, x: T)
    requires x in rest && rest <= all
    ensures (all - rest) + {x} == all - (rest - {x})
  {
  }

  /** The bytes of an ASCII literal. */
  function Ascii(s: string): (r: GoString)
    ensures |r| == |s|
    ensures forall i :: 0 <= i < |s| ==> r[i] == (s[i] as int) % 256
  {
    seq(|s|, i requires 0 <= i < |s| => (s[i] as int) % 256)
  }

  lemma Distribute(p: int, a: int, b: int)
    ensures (a + b) * p == a * p + b * p && p * (a + b) == p * a + p * b
  {
  }

  // ---- Positional notation ----------------------------------------------------------------

  predicate IsBase(base: nat) {
    base == 10 || base == 256
  }

  /** Minimal big-endian digits of `n`; zero has none. */
  function Digits(base: nat, n: nat): (ds: seq<byte>)
    requires IsBase(base)
    ensures forall i :: 0 <= i < |ds| ==> ds[i] < base
    ensures |ds| > 0 ==> ds[0] != 0
    ensures |ds| == 0 <==> n == 0
  {
    if n == 0 then [] else Digits(base, n / base) + [n % base]
  }

  /** The number that big-endian digits denote. */
  function FromDigits(base: nat, ds: seq<byte>): nat
    requires IsBase(base)
  {
    if |ds| == 0 then 0 else FromDigits(base, ds[..|ds| - 1]) * base + ds[|ds| - 1]
  }

  lemma {:induction false} FromDigitsOfDigits(base: nat, n: nat)
    requires IsBase(base)
    ensures FromDigits(base, Digits(base, n)) == n
  {
    if n == 0 {
    } else {
      FromDigitsOfDigits(base, n / base);
      var ds := Digits(base, n);
      assert ds[..|ds| - 1] == Digits(base, n / base);
    }
  }

  /** Digits without a leading zero are the minimal digits of the number they denote. */
  lemma {:induction false} DigitsOfFromDigits(base: nat, ds: seq<byte>)
    requires IsBase(base)
    requires forall i :: 0 <= i < |ds| ==> ds[i] < base
    requires |ds| > 0 ==> ds[0] != 0
    ensures Digits(base, FromDigits(base, ds)) == ds
  {
    if |ds| == 0 {
    } else {
      var init, last := ds[..|ds| - 1], ds[|ds| - 1];
      DigitsOfFromDigits(base, init);
      var m := FromDigits(base, init);
      DivModUnique(base, m, last);
      if |init| == 0 {
        assert m == 0 && last == ds[0];
      } else {
        assert init[0] == ds[0];
        assert m != 0;
      }
      assert ds == init + [last];
    }
  }

  lemma DivModUnique(base: nat, m: nat, d: nat)
    requires IsBase(base) && d < base
    ensures (m * base + d) / base == m && (m * base + d) % base == d
  {
    if base == 10 {
      assert (m * 10 + d) / 10 == m && (m * 10 + d) % 10 == d;
    } else {
      assert (m * 256 + d) / 256 == m && (m * 256 + d) % 256 == d;
    }
  }

  /** The length of the minimal digits is bounded by any power the number stays below. */
  lemma {:induction false} DigitsLength(n: nat, k: nat)
    requires n < Pow256(k)
    ensures |Digits(256, n)| <= k
  {
    if n == 0 {
    } else {
      DigitsLength(n / 256, k - 1);
    }
  }

  function Pow256(k: nat): nat {
    if k == 0 then 1 else 256 * Pow256(k - 1)
  }

  lemma LengthFitsEightBytes(n: nat)
    requires n < UINT64
    ensures |Digits(256, n)| <= 8
  {
    assert Pow256(8) == UINT64 by {
      assert Pow256(2) == 0x1_0000 && Pow256(4) == 0x1_0000_0000 && Pow256(6) == 0x1_0000_0000_0000;
    }
    DigitsLength(n, 8);
  }

  /** `fmt.Sprintf("%d", n)` and JSON's form of a non-negative number. */
  function Decimal(n: nat): (s: GoString)
    ensures |s| > 0
    ensures forall i :: 0 <= i < |s| ==> IsDecimalDigit(s[i])
  {
    if n == 0 then [48] else
    var ds := Digits(10, n);
    seq(|ds|, i requires 0 <= i < |ds| => ds[i] + 48)
  }

  predicate IsDecimalDigit(b: byte) {
    48 <= b <= 57
  }

  /** Reading a decimal numeral back gives the number. */
  lemma DecimalValue(n: nat)
    ensures FromDigits(10, Numerals(Decimal(n))) == n
  {
    if n == 0 {
      assert Numerals(Decimal(n)) == [0];
    } else {
      assert Numerals(Decimal(n)) == Digits(10, n);
      FromDigitsOfDigits(10, n);
    }
  }

  function Numerals(s: GoString): (ds: seq<byte>) {
    seq(|s|, i requires 0 <= i < |s| => if s[i] < 48 then 0 else s[i] - 48)
  }

  lemma DecimalInjective(m: nat, n: nat)
    requires Decimal(m) == Decimal(n)
    ensures m == n
  {
    DecimalValue(m);
    DecimalValue(n);
  }

  lemma NotShorter(a: GoString, x: GoString, b: GoString, y: GoString)
    requires a + x == b + y
    requires forall i :: 0 <= i < |b| ==> IsDecimalDigit(b[i])
    requires |x| == 0 || !IsDecimalDigit(x[0])
    ensures |b| <= |a|
  {
    var s := a + x;
    assert forall i :: 0 <= i < |b| ==> s[i] == b[i];
    assert |x| > 0 ==> s[|a|] == x[0];
  }

  /** A decimal number is delimited by the first byte that is no digit. */
  lemma DecimalDelimited(m: nat, x: GoString, n: nat, y: GoString)
    requires Decimal(m) + x == Decimal(n) + y
    requires |x| == 0 || !IsDecimalDigit(x[0])
    requires |y| == 0 || !IsDecimalDigit(y[0])
    ensures m == n && x == y
  {
    var a, b := Decimal(m), Decimal(n);
    NotShorter(a, x, b, y);
    NotShorter(b, y, a, x);
    SplitConcat(a, x, b, y);
    DecimalInjective(m, n);
  }
}
