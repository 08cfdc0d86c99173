/** Go's encoding/hex, with the partial result DecodeString returns beside an error. */
module Hex {
  import opened Bytes

  function DigitOf(n: byte): (c: byte)
    requires n < 16
    ensures 48 <= c <= 57 || 97 <= c <= 102
  {
    if n < 10 then 48 + n else 87 + n
  }

  /** Both letter cases are accepted on the way in. */
  function ValueOf(c: byte): (v: Option<byte>)
    ensures v.Some? ==> v.value < 16
  {
    if 48 <= c <= 57 then Some(c - 48)
    else if 97 <= c <= 102 then Some(c - 87)
    else if 65 <= c <= 70 then Some(c - 55)
    else None
  }

  function EncodeByte(b: byte): GoString {
    [DigitOf(b / 16), DigitOf(b % 16)]
  }

  /** hex.EncodeToString */
  function Encode(bs: seq<byte>): (s: GoString)
    ensures |s| == 2 * |bs|
    ensures forall i :: 0 <= i < |s| ==> 48 <= s[i] <= 57 || 97 <= s[i] <= 102
  {
    if |bs| == 0 then [] else EncodeByte(bs[0]) + Encode(bs[1..])
  }

  /** hex.DecodeString: the bytes decoded before the first error, and whether there was none. */
  datatype Decoded = Decoded(bytes: seq<byte>, ok: bool)

  function Decode(s: GoString): Decoded {
    if |s| == 0 then Decoded([], true)
    else if |s| == 1 then Decoded([], false)
    else match (ValueOf(s[0]), ValueOf(s[1]))
      case (Some(hi), Some(lo)) => var rest := Decode(s[2..]); Decoded([16 * hi + lo] + rest.bytes, rest.ok)
      case _ => Decoded([], false)
  }

  lemma {:induction false} DecodeEncode(bs: seq<byte>)
    ensures Decode(Encode(bs)) == Decoded(bs, true)
  {
    if |bs| == 0 {
    } else {
      var s := Encode(bs);
      DecodeEncode(bs[1..]);
      assert s[2..] == Encode(bs[1..]);
      assert bs == [bs[0]] + bs[1..];
    }
  }

  /** Decoding goes on behind hex text. */
  lemma {:induction false} DecodeAfter(bs: seq<byte>, s: GoString)
    ensures Decode(Encode(bs) + s) == Decoded(bs + Decode(s).bytes, Decode(s).ok)
  {
    hide Decode;
    if |bs| == 0 {
      assert Encode(bs) + s == s && bs + Decode(s).bytes == Decode(s).bytes;
    } else {
      DecodeAfter(bs[1..], s);
      DecodeByte(bs[0], Encode(bs[1..]) + s);
      ConcatAssociative(EncodeByte(bs[0]), Encode(bs[1..]), s);
      ConcatAssociative([bs[0]], bs[1..], Decode(s).bytes);
      assert [bs[0]] + bs[1..] == bs;
    }
  }

  lemma DecodeByte(b: byte, s: GoString)
    ensures Decode(EncodeByte(b) + s) == Decoded([b] + Decode(s).bytes, Decode(s).ok)
  {
    DigitValue(b / 16);
    DigitValue(b % 16);
    hide DigitOf, ValueOf;
    var t := EncodeByte(b) + s;
    assert t[0] == DigitOf(b / 16) && t[1] == DigitOf(b % 16) && t[2..] == s;
  }

  lemma DigitValue(n: byte)
    requires n < 16
    ensures ValueOf(DigitOf(n)) == Some(n)
  {
  }

  /** It stops at a single character and at a pair that is no byte, and returns what it has. */
  lemma DecodeStops(s: GoString)
    ensures |s| == 1 ==> Decode(s) == Decoded([], false)
    ensures |s| >= 2 && (!IsHexDigit(s[0]) || !IsHexDigit(s[1])) ==> Decode(s) == Decoded([], false)
  {
  }

  predicate IsHexDigit(c: byte) {
    48 <= c <= 57 || 97 <= c <= 102 || 65 <= c <= 70
  }

  lemma EncodeInjective(a: seq<byte>, b: seq<byte>)
    requires Encode(a) == Encode(b)
    ensures a == b
  {
    DecodeEncode(a);
    DecodeEncode(b);
  }

  /** Lower-case hex digits, the only characters Encode writes. */
  predicate LowerHex(s: GoString) {
    forall i :: 0 <= i < |s| ==> 48 <= s[i] <= 57 || 97 <= s[i] <= 102
  }

  lemma DigitOfValue(c: byte)
    requires 48 <= c <= 57 || 97 <= c <= 102
    ensures ValueOf(c).Some? && DigitOf(ValueOf(c).value) == c
  {
  }

  lemma ByteOfDigits(c: byte, d: byte)
    requires (48 <= c <= 57 || 97 <= c <= 102) && (48 <= d <= 57 || 97 <= d <= 102)
    ensures ValueOf(c).Some? && ValueOf(d).Some? && EncodeByte(16 * ValueOf(c).value + ValueOf(d).value) == [c, d]
  {
    DigitOfValue(c);
    DigitOfValue(d);
    var hi, lo := ValueOf(c).value, ValueOf(d).value;
    assert (16 * hi + lo) / 16 == hi && (16 * hi + lo) % 16 == lo;
  }

  /** On lower-case input of even length decoding succeeds and encoding gives the input back. */
  lemma {:induction false} EncodeDecode(s: GoString)
    requires LowerHex(s) && |s| % 2 == 0
    ensures Decode(s).ok && Encode(Decode(s).bytes) == s && 2 * |Decode(s).bytes| == |s|
  {
    if |s| == 0 {
    } else {
      var t := s[2..];
      assert LowerHex(t);
      EncodeDecode(t);
      ByteOfDigits(s[0], s[1]);
      var b := 16 * ValueOf(s[0]).value + ValueOf(s[1]).value;
      assert Decode(s).bytes == [b] + Decode(t).bytes;
      EncodeFirst(Decode(s).bytes);
      hide Encode, EncodeByte, DigitOf;
      assert Decode(s).bytes[1..] == Decode(t).bytes;
      assert s == [s[0], s[1]] + t;
    }
  }

  /** The first byte is the first two digits. */
  lemma EncodeFirst(bs: seq<byte>)
    requires |bs| > 0
    ensures Encode(bs) == EncodeByte(bs[0]) + Encode(bs[1..])
  {
  }

  lemma {:induction false} EncodeConcat(a: seq<byte>, b: seq<byte>)
    ensures Encode(a + b) == Encode(a) + Encode(b)
  {
    if |a| == 0 {
      assert a + b == b;
    } else {
      EncodeConcat(a[1..], b);
      assert (a + b)[1..] == a[1..] + b;
      EncodeFirst(a);
      EncodeFirst(a + b);
      hide Encode, DigitOf;
      ConcatAssociative(EncodeByte(a[0]), Encode(a[1..]), Encode(b));
    }
  }

  /** "0x" */
  const PREFIX: GoString := [48, 120]

  /** "0x0" */
  const ZERO: GoString := [48, 120, 48]

  /** strings.TrimPrefix(s, "0x") */
  function Trim0x(s: GoString): GoString {
    if |s| >= 2 && s[..2] == PREFIX then s[2..] else s
  }

  /** Hex text holds no 'x', so trimming leaves it alone and removes exactly an added prefix. */
  lemma TrimHex(bs: seq<byte>)
    ensures Trim0x(Encode(bs)) == Encode(bs)
    ensures Trim0x(PREFIX + Encode(bs)) == Encode(bs)
  {
    var s := Encode(bs);
    assert |s| >= 2 ==> s[..2][1] == s[1];
  }
}
