/** `strToBytes`: a string to its UTF-8 bytes (RFC 3629). A string here is a sequence of
    Unicode scalar values, each encoded in one to four bytes; a decoder that accepts only
    well-formed shortest-form sequences inverts the encoder. */
module Utf8 {
  import opened Options
  import opened Bytes

  /** The bytes of one scalar value: one byte below 0x80, two below 0x800, three below
      0x10000, four above. */
  function EncodeChar(c: char): (bs: seq<bv8>)
    ensures 1 <= |bs| <= 4
  {
    var n := c as int;
    var n1 := n / 64;
    var n2 := n1 / 64;
    if n < 0x80 then
      [Byte(n)]
    else if n < 0x800 then
      [Byte(0xC0 + n1), Byte(0x80 + n % 64)]
    else if n < 0x10000 then
      [Byte(0xE0 + n2), Byte(0x80 + n1 % 64), Byte(0x80 + n % 64)]
    else
      [Byte(0xF0 + n2 / 64), Byte(0x80 + n2 % 64), Byte(0x80 + n1 % 64), Byte(0x80 + n % 64)]
  }

  /** `new TextEncoder().encode(s)`. */
  function Encode(s: string): seq<bv8>
    decreases |s|
  {
    if s == [] then [] else EncodeChar(s[0]) + Encode(s[1..])
  }

  /** A continuation byte, 10xxxxxx, and its six payload bits. */
  predicate IsContinuation(b: bv8) {
    0x80 <= b as int < 0xC0
  }

  function Payload(b: bv8): nat {
    b as nat % 64
  }

  predicate IsScalar(n: int) {
    0 <= n < 0xD800 || 0xE000 <= n < 0x110000
  }

  /** The length of the sequence a lead byte announces; 0 for a byte that cannot lead
      (a continuation byte, 0xC0 and 0xC1, which could only start overlong forms, and
      0xF5 and above, which would exceed U+10FFFF). */
  function SequenceLength(b0: int): (k: nat)
    ensures k <= 4
  {
    if b0 < 0x80 then 1
    else if b0 < 0xC2 then 0
    else if b0 < 0xE0 then 2
    else if b0 < 0xF0 then 3
    else if b0 < 0xF5 then 4
    else 0
  }

  /** The scalar value carried by the first `k` bytes. */
  function SequenceValue(bs: seq<bv8>, k: nat): int
    requires 1 <= k <= 4 && k <= |bs|
  {
    var b0 := bs[0] as int;
    if k == 1 then b0
    else if k == 2 then (b0 - 0xC0) * 64 + Payload(bs[1])
    else if k == 3 then (b0 - 0xE0) * 4096 + Payload(bs[1]) * 64 + Payload(bs[2])
    else (b0 - 0xF0) * 262144 + Payload(bs[1]) * 4096 + Payload(bs[2]) * 64 + Payload(bs[3])
  }

  /** The smallest value a `k`-byte sequence may carry: anything smaller is overlong. */
  function ShortestFrom(k: nat): int {
    if k <= 1 then 0 else if k == 2 then 0x80 else if k == 3 then 0x800 else 0x10000
  }

  /** The scalar value at the front of `bs` and the number of bytes it takes, if `bs` starts
      with a well-formed shortest-form UTF-8 sequence. */
  function DecodeChar(bs: seq<bv8>): (r: Option<(char, nat)>)
    ensures r.Some? ==> 1 <= r.value.1 <= |bs| && r.value.1 <= 4
  {
    if bs == [] then None
    else
      var k := SequenceLength(bs[0] as int);
      if k == 0 || |bs| < k then None
      else if exists i | 1 <= i < k :: !IsContinuation(bs[i]) then None
      else
        var n := SequenceValue(bs, k);
        if n < ShortestFrom(k) || !IsScalar(n) then None else Some((n as char, k))
  }

  /** The string whose encoding is `bs`, if there is one. */
  function Decode(bs: seq<bv8>): Option<string>
    decreases |bs|
  {
    if bs == [] then Some([])
    else
      var (c, k) :- DecodeChar(bs);
      var rest :- Decode(bs[k..]);
      Some([c] + rest)
  }

  /** Decoding the front of `EncodeChar(c) + rest` gives back `c` and its length. */
  lemma DecodeEncodeChar(c: char, rest: seq<bv8>)
    ensures DecodeChar(EncodeChar(c) + rest) == Some((c, |EncodeChar(c)|))
  {
    var n := c as int;
    if n < 0x80 {
    } else if n < 0x800 {
      RoundTwo(c, rest);
    } else if n < 0x10000 {
      RoundThree(c, rest);
    } else {
      RoundFour(c, rest);
    }
  }

  lemma RoundTwo(c: char, rest: seq<bv8>)
    requires 0x80 <= c as int < 0x800
    ensures DecodeChar(EncodeChar(c) + rest) == Some((c, 2))
  {
    var n := c as int;
    var bs := EncodeChar(c) + rest;
    DecodeTwo(bs, n / 64, n % 64);
  }

  lemma RoundThree(c: char, rest: seq<bv8>)
    requires 0x800 <= c as int < 0x10000
    ensures DecodeChar(EncodeChar(c) + rest) == Some((c, 3))
  {
    var n := c as int;
    var bs := EncodeChar(c) + rest;
    var n1 := n / 64;
    DecodeThree(bs, n1 / 64, n1 % 64, n % 64);
  }

  lemma RoundFour(c: char, rest: seq<bv8>)
    requires 0x10000 <= c as int
    ensures DecodeChar(EncodeChar(c) + rest) == Some((c, 4))
  {
    var n := c as int;
    var n1 := n / 64;
    var n2 := n1 / 64;
    var e := EncodeChar(c);
    FourBytes(c);
    SixBitDigits(n, n1, n2);
    var bs := e + rest;
    assert bs[0] == e[0] && bs[1] == e[1] && bs[2] == e[2] && bs[3] == e[3];
    DecodeFour(bs, n2 / 64, n2 % 64, n1 % 64, n % 64, n);
  }

  lemma FourBytes(c: char)
    requires 0x10000 <= c as int
    ensures |EncodeChar(c)| == 4
    ensures EncodeChar(c)[0] as int == 0xF0 + (c as int / 64 / 64) / 64
    ensures EncodeChar(c)[1] as int == 0x80 + (c as int / 64 / 64) % 64
    ensures EncodeChar(c)[2] as int == 0x80 + (c as int / 64) % 64
    ensures EncodeChar(c)[3] as int == 0x80 + c as int % 64
  {
  }

  lemma SixBitDigits(n: int, n1: int, n2: int)
    requires 0 <= n < 0x110000 && n1 == n / 64 && n2 == n1 / 64
    ensures n == (n2 / 64) * 262144 + (n2 % 64) * 4096 + (n1 % 64) * 64 + n % 64
    ensures n2 / 64 < 5
  {
  }

  lemma DecodeTwo(bs: seq<bv8>, a: int, b: int)
    requires 2 <= a < 32 && 0 <= b < 64 && |bs| >= 2
    requires bs[0] as int == 0xC0 + a && bs[1] as int == 0x80 + b
    ensures DecodeChar(bs) == Some(((a * 64 + b) as char, 2))
  {
    ContinuationByte(bs[1], b);
    assert SequenceLength(bs[0] as int) == 2;
    assert SequenceValue(bs, 2) == a * 64 + b;
  }

  lemma DecodeThree(bs: seq<bv8>, a: int, b: int, d: int)
    requires 0 <= a < 16 && 0 <= b < 64 && 0 <= d < 64 && |bs| >= 3
    requires 0x800 <= a * 4096 + b * 64 + d && IsScalar(a * 4096 + b * 64 + d)
    requires bs[0] as int == 0xE0 + a && bs[1] as int == 0x80 + b && bs[2] as int == 0x80 + d
    ensures DecodeChar(bs) == Some(((a * 4096 + b * 64 + d) as char, 3))
  {
    ContinuationByte(bs[1], b);
    ContinuationByte(bs[2], d);
    assert SequenceLength(bs[0] as int) == 3;
    assert SequenceValue(bs, 3) == a * 4096 + b * 64 + d;
  }

  lemma DecodeFour(bs: seq<bv8>, a: int, b: int, d: int, e: int, v: int)
    requires 0 <= a < 5 && 0 <= b < 64 && 0 <= d < 64 && 0 <= e < 64 && |bs| >= 4
    requires v == a * 262144 + b * 4096 + d * 64 + e && 0x10000 <= v < 0x110000
    requires bs[0] as int == 0xF0 + a && bs[1] as int == 0x80 + b
    requires bs[2] as int == 0x80 + d && bs[3] as int == 0x80 + e
    ensures DecodeChar(bs) == Some((v as char, 4))
  {
    ContinuationByte(bs[1], b);
    ContinuationByte(bs[2], d);
    ContinuationByte(bs[3], e);
    assert SequenceLength(bs[0] as int) == 4;
    assert SequenceValue(bs, 4) == v;
  }

  lemma ContinuationByte(x: bv8, b: int)
    requires 0 <= b < 64 && x as int == 0x80 + b
    ensures IsContinuation(x) && Payload(x) == b
  {
  }

  /** Decoding inverts `strToBytes`. */
  lemma {:induction false} DecodeEncode(s: string)
    ensures Decode(Encode(s)) == Some(s)
  {
    if s != [] {
      var e := EncodeChar(s[0]);
      DecodeEncodeChar(s[0], Encode(s[1..]));
      assert (e + Encode(s[1..]))[|e|..] == Encode(s[1..]);
      DecodeEncode(s[1..]);
      assert [s[0]] + s[1..] == s;
    }
  }

  /** On ASCII text the encoding is the code units themselves. */
  predicate IsAscii(s: string) {
    forall i | 0 <= i < |s| :: s[i] as int < 0x80
  }

  lemma {:induction false} AsciiEncode(s: string)
    requires IsAscii(s)
    ensures |Encode(s)| == |s|
    ensures forall i | 0 <= i < |s| :: Encode(s)[i] as int == s[i] as int
  {
    if s != [] {
      assert IsAscii(s[1..]);
      AsciiEncode(s[1..]);
    }
  }

  /** The encoding of a concatenation is the concatenation of the encodings. */
  lemma {:induction false} EncodeAppend(s: string, t: string)
    ensures Encode(s + t) == Encode(s) + Encode(t)
  {
    if s == [] {
      assert s + t == t;
    } else {
      assert (s + t)[0] == s[0] && (s + t)[1..] == s[1..] + t;
      EncodeAppend(s[1..], t);
      assert Encode(s + t) == EncodeChar(s[0]) + (Encode(s[1..]) + Encode(t));
    }
  }
}
