/** The standard base64 encoding of section 4 of RFC 4648 (alphabet
    A-Z a-z 0-9 + /, with `=` padding), as used for the ciphertext buffer
    at internal/encrypt/encrypt.go:62; the decoder is its inverse. */
module Base64 {
  import opened Wrappers

  type byte = x: int | 0 <= x < 256

  /** A 6-bit group value. */
  type Sextet = x: int | 0 <= x < 64

  const PAD: char := '='

  /** The encoding alphabet (Table 1 of RFC 4648). */
  function Symbol(n: Sextet): (c: char)
    ensures c != PAD
  {
    if n < 26 then ('A' as int + n) as char
    else if n < 52 then ('a' as int + (n - 26)) as char
    else if n < 62 then ('0' as int + (n - 52)) as char
    else if n == 62 then '+'
    else '/'
  }

  /** The inverse of the alphabet; `None` for a character outside it. */
  function SymbolValue(c: char): (r: Option<Sextet>)
    ensures r.Some? ==> Symbol(r.value) == c
  {
    if 'A' <= c <= 'Z' then Some(c as int - 'A' as int)
    else if 'a' <= c <= 'z' then Some(c as int - 'a' as int + 26)
    else if '0' <= c <= '9' then Some(c as int - '0' as int + 52)
    else if c == '+' then Some(62)
    else if c == '/' then Some(63)
    else None
  }

  lemma SymbolValueOfSymbol(n: Sextet)
    ensures SymbolValue(Symbol(n)) == Some(n)
  {
  }

  predicate IsOutputChar(c: char)
  {
    SymbolValue(c).Some? || c == PAD
  }

  /** Three bytes become four symbols. */
  function EncodeTriple(b0: byte, b1: byte, b2: byte): string
  {
    [Symbol(b0 / 4), Symbol((b0 % 4) * 16 + b1 / 16), Symbol((b1 % 16) * 4 + b2 / 64), Symbol(b2 % 64)]
  }

  /** A final group of two bytes: three symbols and one pad. */
  function EncodePair(b0: byte, b1: byte): string
  {
    [Symbol(b0 / 4), Symbol((b0 % 4) * 16 + b1 / 16), Symbol((b1 % 16) * 4), PAD]
  }

  /** A final single byte: two symbols and two pads. */
  function EncodeSingle(b0: byte): string
  {
    [Symbol(b0 / 4), Symbol((b0 % 4) * 16), PAD, PAD]
  }

  /** The padded standard encoding: 4 * ceil(n / 3) characters for n bytes,
      every one from the alphabet or the pad. */
  function Encode(b: seq<byte>): (s: string)
    ensures |s| == 4 * ((|b| + 2) / 3)
    ensures forall i :: 0 <= i < |s| ==> IsOutputChar(s[i])
    decreases |b|
  {
    if |b| == 0 then ""
    else if |b| == 1 then EncodeSingle(b[0])
    else if |b| == 2 then EncodePair(b[0], b[1])
    else
      GroupCountStep(|b|);
      EncodeTriple(b[0], b[1], b[2]) + Encode(b[3..])
  }

  /** One more full group of three bytes is one more group of four symbols. */
  lemma GroupCountStep(n: int)
    requires n >= 3
    ensures (n + 2) / 3 == (n - 3 + 2) / 3 + 1
  {
  }

  /** The three bytes carried by the sextets v0 v1 v2 v3. */
  function Byte0(v0: Sextet, v1: Sextet): byte { v0 as int * 4 + v1 as int / 16 }
  function Byte1(v1: Sextet, v2: Sextet): byte { (v1 as int % 16) * 16 + v2 as int / 4 }
  function Byte2(v2: Sextet, v3: Sextet): byte { (v2 as int % 4) * 64 + v3 as int }

  /** Four unpadded symbols back to three bytes. */
  function DecodeQuad(c0: char, c1: char, c2: char, c3: char): Option<seq<byte>>
  {
    match (SymbolValue(c0), SymbolValue(c1), SymbolValue(c2), SymbolValue(c3))
    case (Some(v0), Some(v1), Some(v2), Some(v3)) =>
      Some([Byte0(v0, v1), Byte1(v1, v2), Byte2(v2, v3)])
    case _ => None
  }

  /** The last group of four characters, which may end in one or two pads. */
  function DecodeLast(c0: char, c1: char, c2: char, c3: char): Option<seq<byte>>
  {
    if c2 == PAD && c3 == PAD then
      match (SymbolValue(c0), SymbolValue(c1))
      case (Some(v0), Some(v1)) => Some([Byte0(v0, v1)])
      case _ => None
    else if c3 == PAD then
      match (SymbolValue(c0), SymbolValue(c1), SymbolValue(c2))
      case (Some(v0), Some(v1), Some(v2)) => Some([Byte0(v0, v1), Byte1(v1, v2)])
      case _ => None
    else DecodeQuad(c0, c1, c2, c3)
  }

  /** Decoding of padded standard base64; `None` for malformed text. */
  function Decode(s: string): Option<seq<byte>>
    decreases |s|
  {
    if s == [] then Some([])
    else if |s| < 4 then None
    else if |s| == 4 then DecodeLast(s[0], s[1], s[2], s[3])
    else
      match DecodeQuad(s[0], s[1], s[2], s[3])
      case None => None
      case Some(head) =>
        match Decode(s[4..])
        case None => None
        case Some(tail) => Some(head + tail)
  }

  /** Splitting a number below 1024 as q * 16 + r, and below 256 as q * 4 + r. */
  lemma SplitBy16(q: int, r: int)
    requires 0 <= q < 64 && 0 <= r < 16
    ensures (q * 16 + r) / 16 == q && (q * 16 + r) % 16 == r
  {
  }

  lemma SplitBy4(q: int, r: int)
    requires 0 <= q < 64 && 0 <= r < 4
    ensures (q * 4 + r) / 4 == q && (q * 4 + r) % 4 == r
  {
  }

  lemma FirstByteBack(b0: byte, b1: byte)
    ensures Byte0(b0 / 4, (b0 % 4) * 16 + b1 / 16) == b0
  {
    SplitBy16(b0 % 4, b1 / 16);
  }

  lemma SecondByteBack(b0: byte, b1: byte, x: int)
    requires 0 <= x < 4
    ensures Byte1((b0 % 4) * 16 + b1 / 16, (b1 % 16) * 4 + x) == b1
  {
    SplitBy16(b0 % 4, b1 / 16);
    SplitBy4(b1 % 16, x);
  }

  lemma ThirdByteBack(b1: byte, b2: byte)
    ensures Byte2((b1 % 16) * 4 + b2 / 64, b2 % 64) == b2
  {
    SplitBy4(b1 % 16, b2 / 64);
  }

  lemma TripleRoundTrip(b0: byte, b1: byte, b2: byte)
    ensures var s := EncodeTriple(b0, b1, b2); DecodeQuad(s[0], s[1], s[2], s[3]) == Some([b0, b1, b2])
  {
    var v0, v1, v2, v3 := b0 / 4, (b0 % 4) * 16 + b1 / 16, (b1 % 16) * 4 + b2 / 64, b2 % 64;
    SymbolValueOfSymbol(v0);
    SymbolValueOfSymbol(v1);
    SymbolValueOfSymbol(v2);
    SymbolValueOfSymbol(v3);
    FirstByteBack(b0, b1);
    SecondByteBack(b0, b1, b2 / 64);
    ThirdByteBack(b1, b2);
  }

  lemma PairRoundTrip(b0: byte, b1: byte)
    ensures var s := EncodePair(b0, b1); DecodeLast(s[0], s[1], s[2], s[3]) == Some([b0, b1])
  {
    var v0, v1, v2 := b0 / 4, (b0 % 4) * 16 + b1 / 16, (b1 % 16) * 4;
    SymbolValueOfSymbol(v0);
    SymbolValueOfSymbol(v1);
    SymbolValueOfSymbol(v2);
    FirstByteBack(b0, b1);
    SecondByteBack(b0, b1, 0);
  }

  lemma SingleRoundTrip(b0: byte)
    ensures var s := EncodeSingle(b0); DecodeLast(s[0], s[1], s[2], s[3]) == Some([b0])
  {
    var v0, v1 := b0 / 4, (b0 % 4) * 16;
    SymbolValueOfSymbol(v0);
    SymbolValueOfSymbol(v1);
    FirstByteBack(b0, 0);
  }

  lemma DecodeOfLastGroup(s: string)
    requires |s| == 4
    ensures Decode(s) == DecodeLast(s[0], s[1], s[2], s[3])
  {
  }

  lemma DecodeOfGroups(head: string, tail: string, h: seq<byte>, t: seq<byte>)
    requires |head| == 4 && |tail| >= 4
    requires DecodeQuad(head[0], head[1], head[2], head[3]) == Some(h)
    requires Decode(tail) == Some(t)
    ensures Decode(head + tail) == Some(h + t)
  {
    var s := head + tail;
    assert s[0] == head[0] && s[1] == head[1] && s[2] == head[2] && s[3] == head[3];
    assert s[4..] == tail;
  }

  lemma RoundTripOne(b: seq<byte>)
    requires |b| == 1
    ensures Decode(Encode(b)) == Some(b)
  {
    SingleRoundTrip(b[0]);
    DecodeOfLastGroup(EncodeSingle(b[0]));
    assert b == [b[0]];
  }

  lemma RoundTripTwo(b: seq<byte>)
    requires |b| == 2
    ensures Decode(Encode(b)) == Some(b)
  {
    PairRoundTrip(b[0], b[1]);
    DecodeOfLastGroup(EncodePair(b[0], b[1]));
    assert b == [b[0], b[1]];
  }

  lemma EncodeStep(b: seq<byte>)
    requires |b| >= 3
    ensures Encode(b) == EncodeTriple(b[0], b[1], b[2]) + Encode(b[3..])
  {
  }

  lemma RoundTripThree(b: seq<byte>)
    requires |b| == 3
    ensures Decode(Encode(b)) == Some(b)
  {
    var head := EncodeTriple(b[0], b[1], b[2]);
    EncodeStep(b);
    assert b[3..] == [];
    assert Encode(b) == head;
    TripleRoundTrip(b[0], b[1], b[2]);
    DecodeOfLastGroup(head);
    assert b == [b[0], b[1], b[2]];
  }

  /** Decoding undoes encoding: the encoding loses nothing. */
  lemma {:induction false} RoundTrip(b: seq<byte>)
    ensures Decode(Encode(b)) == Some(b)
    decreases |b|
  {
    if |b| == 0 {
    } else if |b| == 1 {
      RoundTripOne(b);
    } else if |b| == 2 {
      RoundTripTwo(b);
    } else if |b| == 3 {
      RoundTripThree(b);
    } else {
      RoundTrip(b[3..]);
      RoundTripStep(b);
    }
  }

  lemma EncodeNonEmpty(b: seq<byte>)
    requires |b| > 0
    ensures |Encode(b)| >= 4
  {
    if |b| >= 3 {
      EncodeStep(b);
    }
  }

  /** A full leading group decodes back to its bytes ahead of the rest. */
  lemma RoundTripStep(b: seq<byte>)
    requires |b| > 3 && Decode(Encode(b[3..])) == Some(b[3..])
    ensures Decode(Encode(b)) == Some(b)
  {
    var head, rest := EncodeTriple(b[0], b[1], b[2]), b[3..];
    var tail := Encode(rest);
    EncodeStep(b);
    assert Encode(b) == head + tail;
    EncodeNonEmpty(rest);
    TripleRoundTrip(b[0], b[1], b[2]);
    assert DecodeQuad(head[0], head[1], head[2], head[3]) == Some([b[0], b[1], b[2]]);
    DecodeOfGroups(head, tail, [b[0], b[1], b[2]], rest);
    SplitOffThree(b);
  }

  lemma SplitOffThree<X>(b: seq<X>)
    requires |b| >= 3
    ensures [b[0], b[1], b[2]] + b[3..] == b
  {
  }

  /** Hence distinct byte strings have distinct encodings. */
  lemma EncodeInjective(a: seq<byte>, b: seq<byte>)
    requires Encode(a) == Encode(b)
    ensures a == b
  {
    RoundTrip(a);
    RoundTrip(b);
  }
}
