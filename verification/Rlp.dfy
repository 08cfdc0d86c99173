/** Recursive Length Prefix, Appendix B of the Ethereum Yellow Paper, as go-ethereum's rlp
    package writes it: short and long string and list headers with minimal lengths. */
module Rlp {
  import opened Bytes

  datatype Item = Str(bytes: seq<byte>) | List(items: seq<Item>)

  const STRING_BASE: byte := 0x80
  const LIST_BASE: byte := 0xc0

  predicate IsHeaderBase(b: byte) {
    b == STRING_BASE || b == LIST_BASE
  }

  /** The header of an `n`-byte payload. The last branch is for payloads of 2^64 bytes and
      more, which no Go slice has. */
  function Header(first: byte, n: nat): (h: seq<byte>)
    requires IsHeaderBase(first)
    ensures |h| > 0 && first <= h[0]
    ensures first == STRING_BASE ==> h[0] < LIST_BASE
  {
    var be := Digits(256, n);
    if n <= 55 then [first + n]
    else if |be| <= 8 then [first + 55 + |be|] + be
    else [first + 55]
  }

  /** rlp.EncodeToBytes */
  function Encode(x: Item): (e: seq<byte>)
    ensures |e| > 0
    ensures x.List? ==> e[0] >= LIST_BASE
    ensures x.Str? ==> e[0] < LIST_BASE
    decreases x, 1
  {
    match x
    case Str(b) =>
      if |b| == 1 && b[0] < STRING_BASE then b else Header(STRING_BASE, |b|) + b
    case List(xs) =>
      var payload := EncodeAll(xs);
      Header(LIST_BASE, |payload|) + payload
  }

  function EncodeAll(xs: seq<Item>): seq<byte>
    decreases xs, 0
  {
    if |xs| == 0 then [] else Encode(xs[0]) + EncodeAll(xs[1..])
  }

  /** What a parse leaves: the value read and the unread input. */
  datatype Parsed<+T> = Parsed(value: T, rest: seq<byte>)

  /** Reads the header that starts at `s`, whose first byte lies in the 64 values from `first`
      on. Lengths must be minimal, as the package's decoder insists. */
  function ParseHeader(first: byte, s: seq<byte>): (r: Option<Parsed<nat>>)
    requires IsHeaderBase(first)
    requires |s| > 0 && first <= s[0] < first + 64
    ensures r.Some? ==> |r.value.rest| < |s|
  {
    if s[0] - first <= 55 then Some(Parsed(s[0] - first, s[1..]))
    else
      var w := s[0] - first - 55;
      if |s| < 1 + w || s[1] == 0 then None
      else
        var n := FromDigits(256, s[1..1 + w]);
        if n <= 55 then None else Some(Parsed(n, s[1 + w..]))
  }

  /** The first item of the input. */
  function Decode(s: seq<byte>): (r: Option<Parsed<Item>>)
    ensures r.Some? ==> |r.value.rest| < |s|
    decreases |s|, 0
  {
    if |s| == 0 then None
    else if s[0] < STRING_BASE then Some(Parsed(Str(s[..1]), s[1..]))
    else if s[0] < LIST_BASE then
      match ParseHeader(STRING_BASE, s)
      case None => None
      case Some(Parsed(n, t)) =>
        if |t| < n || (n == 1 && t[0] < STRING_BASE) then None
        else Some(Parsed(Str(t[..n]), t[n..]))
    else
      match ParseHeader(LIST_BASE, s)
      case None => None
      case Some(Parsed(n, t)) =>
        if |t| < n then None
        else
          match DecodeAll(t[..n])
          case None => None
          case Some(xs) => Some(Parsed(List(xs), t[n..]))
  }

  /** The whole input as a concatenation of items, with no separators. */
  function DecodeAll(s: seq<byte>): Option<seq<Item>>
    decreases |s|, 1
  {
    if |s| == 0 then Some([])
    else
      match Decode(s)
      case None => None
      case Some(Parsed(x, rest)) =>
        match DecodeAll(rest)
        case None => None
        case Some(xs) => Some([x] + xs)
  }

  lemma ParseOfHeader(first: byte, n: nat, t: seq<byte>)
    requires IsHeaderBase(first) && n < UINT64
    ensures var s := Header(first, n) + t;
      s[0] < first + 64 && ParseHeader(first, s) == Some(Parsed(n, t))
  {
    if n <= 55 {
      assert (Header(first, n) + t)[1..] == t;
    } else {
      ParseOfLongHeader(first, n, Digits(256, n), t);
    }
  }

  lemma ParseOfLongHeader(first: byte, n: nat, be: seq<byte>, t: seq<byte>)
    requires IsHeaderBase(first) && 55 < n < UINT64 && be == Digits(256, n)
    ensures |be| <= 8 && Header(first, n) == [first + 55 + |be|] + be
    ensures ParseHeader(first, Header(first, n) + t) == Some(Parsed(n, t))
  {
    hide Digits, FromDigits;
    LengthFitsEightBytes(n);
    FromDigitsOfDigits(256, n);
    LongHeaderParts(first + 55 + |be|, be, t);
  }

  lemma LongHeaderParts(b: byte, be: seq<byte>, t: seq<byte>)
    requires |be| > 0
    ensures var s := [b] + be + t;
      s[0] == b && s[1] == be[0] && s[1..1 + |be|] == be && s[1 + |be|..] == t
  {
  }

  lemma HeaderOfParse(first: byte, s: seq<byte>)
    requires IsHeaderBase(first)
    requires |s| > 0 && first <= s[0] < first + 64
    requires ParseHeader(first, s).Some?
    ensures var r := ParseHeader(first, s).value;
      Header(first, r.value) + r.rest == s
  {
    if s[0] - first > 55 {
      var w := s[0] - first - 55;
      DigitsOfFromDigits(256, s[1..1 + w]);
      assert s == [s[0]] + s[1..1 + w] + s[1 + w..];
    } else {
      assert s == [s[0]] + s[1..];
    }
  }

  /** Decoding undoes encoding and stops exactly at the end of the encoding, whatever follows. */
  lemma {:induction false} DecodeEncode(x: Item, rest: seq<byte>)
    requires |Encode(x)| < UINT64
    ensures Decode(Encode(x) + rest) == Some(Parsed(x, rest))
    decreases x, 1
  {
    match x
    case Str(b) => DecodeEncodeString(b, rest);
    case List(xs) =>
      DecodeEncodeAll(xs);
      DecodeEncodeList(xs, rest);
  }

  lemma DecodeEncodeString(b: seq<byte>, rest: seq<byte>)
    requires |Encode(Str(b))| < UINT64
    ensures Decode(Encode(Str(b)) + rest) == Some(Parsed(Str(b), rest))
  {
    var s := Encode(Str(b)) + rest;
    if |b| == 1 && b[0] < STRING_BASE {
      assert s[..1] == b && s[1..] == rest;
    } else {
      hide Header, ParseHeader;
      var t := b + rest;
      ParseOfHeader(STRING_BASE, |b|, t);
      ConcatAssociative(Header(STRING_BASE, |b|), b, rest);
      TakeDrop(b, rest);
    }
  }

  lemma DecodeEncodeList(xs: seq<Item>, rest: seq<byte>)
    requires |Encode(List(xs))| < UINT64
    requires DecodeAll(EncodeAll(xs)) == Some(xs)
    ensures Decode(Encode(List(xs)) + rest) == Some(Parsed(List(xs), rest))
  {
    hide Header, ParseHeader, EncodeAll, DecodeAll;
    var p := EncodeAll(xs);
    var t := p + rest;
    var s := Encode(List(xs)) + rest;
    ParseOfHeader(LIST_BASE, |p|, t);
    assert s == Header(LIST_BASE, |p|) + t;
    assert t[..|p|] == p && t[|p|..] == rest;
  }

  /** A concatenation of encodings without separators parses back to exactly its items. */
  lemma {:induction false} DecodeEncodeAll(xs: seq<Item>)
    requires |EncodeAll(xs)| < UINT64
    ensures DecodeAll(EncodeAll(xs)) == Some(xs)
    decreases xs, 0
  {
    if |xs| == 0 {
    } else {
      var e, rest := Encode(xs[0]), EncodeAll(xs[1..]);
      assert EncodeAll(xs) == e + rest && |e| > 0;
      hide Encode, EncodeAll, Decode, DecodeAll;
      DecodeEncode(xs[0], rest);
      DecodeEncodeAll(xs[1..]);
      DecodeAllStep(e + rest, xs[0], rest, xs[1..]);
      assert xs == [xs[0]] + xs[1..];
    }
  }

  lemma DecodeAllStep(s: seq<byte>, x: Item, rest: seq<byte>, xs: seq<Item>)
    requires |s| > 0 && Decode(s) == Some(Parsed(x, rest)) && DecodeAll(rest) == Some(xs)
    ensures DecodeAll(s) == Some([x] + xs)
  {
    hide Decode;
  }

  /** Whatever decodes is the encoding of what it decodes to: there is one encoding per item. */
  lemma {:induction false} EncodeDecode(s: seq<byte>)
    requires Decode(s).Some?
    ensures var r := Decode(s).value; Encode(r.value) + r.rest == s
    decreases |s|, 0
  {
    hide Header, ParseHeader, DecodeAll, EncodeAll;
    if s[0] < STRING_BASE {
      assert s == s[..1] + s[1..];
    } else if s[0] < LIST_BASE {
      HeaderOfParse(STRING_BASE, s);
      var Parsed(n, t) := ParseHeader(STRING_BASE, s).value;
      Rejoin(Header(STRING_BASE, n), t, n, s);
    } else {
      HeaderOfParse(LIST_BASE, s);
      var Parsed(n, t) := ParseHeader(LIST_BASE, s).value;
      Rejoin(Header(LIST_BASE, n), t, n, s);
      EncodeDecodeAll(t[..n]);
    }
  }

  lemma Rejoin(header: seq<byte>, t: seq<byte>, n: nat, s: seq<byte>)
    requires header + t == s && n <= |t|
    ensures header + t[..n] + t[n..] == s
  {
    assert t == t[..n] + t[n..];
  }

  lemma {:induction false} EncodeDecodeAll(s: seq<byte>)
    requires DecodeAll(s).Some?
    ensures EncodeAll(DecodeAll(s).value) == s
    decreases |s|, 1
  {
    if |s| == 0 {
    } else {
      EncodeDecode(s);
      var Parsed(x, rest) := Decode(s).value;
      EncodeDecodeAll(rest);
      var xs := DecodeAll(s).value;
      assert xs[1..] == DecodeAll(rest).value;
    }
  }

  /** No encoding is a proper prefix of another. */
  lemma PrefixFree(x: Item, s: seq<byte>, y: Item, t: seq<byte>)
    requires |Encode(x)| < UINT64 && |Encode(y)| < UINT64
    requires Encode(x) + s == Encode(y) + t
    ensures x == y && s == t
  {
    DecodeEncode(x, s);
    DecodeEncode(y, t);
  }
}
