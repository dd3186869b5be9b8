/** Bytes, big-endian lengths and UTF-8 as the source's byte parsers see them. */
module Bytes {
  import opened Common

  type byte = x: int | 0 <= x < 256
  type bytes = seq<byte>

  predicate Continuation(b: byte) {
    0x80 <= b <= 0xBF
  }

  /** The length of the UTF-8 sequence the bytes start with, or 0 when they start with none
      (table 3-7 of the Unicode standard). */
  function SequenceLength(b: bytes): (n: nat)
    ensures n <= 4 && n <= |b|
  {
    if b == [] then 0
    else if b[0] < 0x80 then 1
    else if 0xC2 <= b[0] <= 0xDF then if |b| >= 2 && Continuation(b[1]) then 2 else 0
    else if 0xE0 <= b[0] <= 0xEF then
      if |b| >= 3 && Continuation(b[1]) && Continuation(b[2])
         && (b[0] == 0xE0 ==> b[1] >= 0xA0) && (b[0] == 0xED ==> b[1] <= 0x9F) then 3 else 0
    else if 0xF0 <= b[0] <= 0xF4 then
      if |b| >= 4 && Continuation(b[1]) && Continuation(b[2]) && Continuation(b[3])
         && (b[0] == 0xF0 ==> b[1] >= 0x90) && (b[0] == 0xF4 ==> b[1] <= 0x8F) then 4 else 0
    else 0
  }

  predicate ValidUtf8(b: bytes) {
    b == [] || (var n := SequenceLength(b); n > 0 && ValidUtf8(b[n..]))
  }

  function U16(high: byte, low: byte): (n: nat)
    ensures n < 0x1_0000
  {
    high * 256 + low
  }

  /** The two bytes of a number, which keep only its low 16 bits. */
  function ToU16(n: nat): (b: bytes)
    ensures |b| == 2 && U16(b[0], b[1]) == n % 0x1_0000
  {
    HighLow(n);
    [n / 256 % 256, n % 256]
  }

  lemma HighLow(n: nat)
    ensures n / 256 % 256 * 256 + n % 256 == n % 0x1_0000
  {
  }

  // ---------------------------------------------------------------- text

  function EncodeChar(c: char): (b: bytes)
    ensures 1 <= |b| <= 4
  {
    var n := c as int;
    if n < 0x80 then [n]
    else if n < 0x800 then [0xC0 + n / 64, 0x80 + n % 64]
    else if n < 0x1_0000 then [0xE0 + n / 64 / 64, 0x80 + n / 64 % 64, 0x80 + n % 64]
    else [0xF0 + n / 64 / 64 / 64, 0x80 + n / 64 / 64 % 64, 0x80 + n / 64 % 64, 0x80 + n % 64]
  }

  /** The six bits a continuation byte carries. */
  function Bits(b: byte): int {
    b as int - 0x80
  }

  /** The scalar value of the first sequence. */
  function FirstChar(b: bytes): char
    requires SequenceLength(b) > 0
  {
    var n := SequenceLength(b);
    if n == 1 then b[0] as char
    else if n == 2 then ((b[0] as int - 0xC0) * 64 + Bits(b[1])) as char
    else if n == 3 then ((b[0] as int - 0xE0) * 4096 + Bits(b[1]) * 64 + Bits(b[2])) as char
    else ((b[0] as int - 0xF0) * 262144 + Bits(b[1]) * 4096 + Bits(b[2]) * 64 + Bits(b[3])) as char
  }

  function EncodeUtf8(s: string): bytes {
    if s == "" then [] else EncodeChar(s[0]) + EncodeUtf8(s[1..])
  }

  function DecodeUtf8(b: bytes): (s: Option<string>)
    ensures s.Some? <==> ValidUtf8(b)
  {
    if b == [] then Some("")
    else
      var n := SequenceLength(b);
      if n == 0 then None
      else
        match DecodeUtf8(b[n..])
        case None => None
        case Some(s) => Some([FirstChar(b)] + s)
  }

  lemma CharAlone(c: char)
    ensures SequenceLength(EncodeChar(c)) == |EncodeChar(c)| && FirstChar(EncodeChar(c)) == c
  {
    var n := c as int;
    assert n == n / 64 * 64 + n % 64;
    assert n / 64 == n / 64 / 64 * 64 + n / 64 % 64;
    assert n / 64 / 64 == n / 64 / 64 / 64 * 64 + n / 64 / 64 % 64;
  }

  lemma Longer(b: bytes, rest: bytes)
    requires SequenceLength(b) > 0
    ensures SequenceLength(b + rest) == SequenceLength(b) && FirstChar(b + rest) == FirstChar(b)
  {
  }

  lemma CharReads(c: char, rest: bytes)
    ensures var b := EncodeChar(c) + rest;
      SequenceLength(b) == |EncodeChar(c)| && FirstChar(b) == c && b[|EncodeChar(c)|..] == rest
  {
    CharAlone(c);
    Longer(EncodeChar(c), rest);
  }

  /** Text survives encoding and decoding. */
  lemma {:induction false} Utf8RoundTrip(s: string)
    ensures DecodeUtf8(EncodeUtf8(s)) == Some(s)
    decreases |s|
  {
    if s != "" {
      CharReads(s[0], EncodeUtf8(s[1..]));
      assert s == [s[0]] + s[1..];
      Utf8RoundTrip(s[1..]);
    }
  }

  lemma {:induction false} EncodeJoin(a: string, b: string)
    ensures EncodeUtf8(a + b) == EncodeUtf8(a) + EncodeUtf8(b)
    decreases |a|
  {
    if a == "" {
      assert a + b == b;
    } else {
      assert (a + b)[1..] == a[1..] + b;
      EncodeJoin(a[1..], b);
    }
  }

  lemma AsciiInChar(c: char, x: byte)
    requires x < 0x80
    ensures x in EncodeChar(c) <==> c as int == x
  {
  }

  /** An ASCII byte stands in the encoding exactly when the character stands in the text. */
  lemma {:induction false} AsciiBytes(s: string, c: char)
    requires c as int < 0x80
    ensures c as int in EncodeUtf8(s) <==> c in s
    decreases |s|
  {
    if s != "" {
      AsciiInChar(s[0], c as int);
      AsciiBytes(s[1..], c);
    }
  }

  /** The bytes one replacement character stands for where no sequence begins. */
  function BadLength(b: bytes): (n: nat)
    requires b != []
    ensures 1 <= n <= |b|
  {
    if 0xE0 <= b[0] <= 0xEF then
      if |b| >= 2 && Continuation(b[1]) && (b[0] == 0xE0 ==> b[1] >= 0xA0) && (b[0] == 0xED ==> b[1] <= 0x9F) then 2 else 1
    else if 0xF0 <= b[0] <= 0xF4 then
      if |b| >= 2 && Continuation(b[1]) && (b[0] == 0xF0 ==> b[1] >= 0x90) && (b[0] == 0xF4 ==> b[1] <= 0x8F) then
        if |b| >= 3 && Continuation(b[2]) then 3 else 2
      else 1
    else 1
  }

  /** Text from bytes that may not be text: what cannot be read becomes replacement characters. */
  function LossyUtf8(b: bytes): string
    decreases |b|
  {
    if b == [] then ""
    else
      var n := SequenceLength(b);
      if n > 0 then [FirstChar(b)] + LossyUtf8(b[n..]) else "\U{FFFD}" + LossyUtf8(b[BadLength(b)..])
  }

  /** Nothing is lost of bytes that are text. */
  lemma {:induction false} LossyIsExact(b: bytes)
    requires ValidUtf8(b)
    ensures DecodeUtf8(b) == Some(LossyUtf8(b))
    decreases |b|
  {
    if b != [] {
      LossyIsExact(b[SequenceLength(b)..]);
    }
  }

  lemma Digits64(high: nat, low: nat)
    requires low < 64
    ensures (high * 64 + low) / 64 == high && (high * 64 + low) % 64 == low
  {
  }

  lemma TwoEncoded(b: bytes)
    requires SequenceLength(b) == 2
    ensures EncodeChar(FirstChar(b)) == b[..2]
  {
    Digits64(b[0] as int - 0xC0, Bits(b[1]));
  }

  lemma ThreeEncoded(b: bytes)
    requires SequenceLength(b) == 3
    ensures EncodeChar(FirstChar(b)) == b[..3]
  {
    var first, second, third := b[0] as int - 0xE0, Bits(b[1]), Bits(b[2]);
    Digits64(first * 64 + second, third);
    Digits64(first, second);
    assert first * 4096 + second * 64 + third == (first * 64 + second) * 64 + third;
  }

  lemma FourEncoded(b: bytes)
    requires SequenceLength(b) == 4
    ensures EncodeChar(FirstChar(b)) == b[..4]
  {
    var first, second, third, fourth := b[0] as int - 0xF0, Bits(b[1]), Bits(b[2]), Bits(b[3]);
    Digits64((first * 64 + second) * 64 + third, fourth);
    Digits64(first * 64 + second, third);
    Digits64(first, second);
    assert first * 262144 + second * 4096 + third * 64 + fourth == ((first * 64 + second) * 64 + third) * 64 + fourth;
  }

  lemma FirstEncoded(b: bytes)
    requires SequenceLength(b) > 0
    ensures EncodeChar(FirstChar(b)) == b[..SequenceLength(b)]
  {
    var n := SequenceLength(b);
    if n == 2 {
      TwoEncoded(b);
    } else if n == 3 {
      ThreeEncoded(b);
    } else if n == 4 {
      FourEncoded(b);
    }
  }

  lemma DecodeStep(b: bytes, c: char, n: nat, s: string)
    requires n == SequenceLength(b) > 0 && FirstChar(b) == c && DecodeUtf8(b[n..]) == Some(s)
    ensures DecodeUtf8(b) == Some([c] + s)
  {
  }

  lemma EncodeStep(b: bytes, c: char, n: nat, s: string)
    requires n <= |b| && EncodeChar(c) == b[..n] && EncodeUtf8(s) == b[n..]
    ensures EncodeUtf8([c] + s) == b
  {
    var text := [c] + s;
    assert text[1..] == s;
    assert b == b[..n] + b[n..];
  }

  /** Text is exactly what encoding gives: no other bytes are read as it. */
  lemma {:induction false} DecodedEncodes(b: bytes)
    requires ValidUtf8(b)
    ensures DecodeUtf8(b).Some? && EncodeUtf8(DecodeUtf8(b).value) == b
    decreases |b|
  {
    if b != [] {
      var n := SequenceLength(b);
      var c, rest := FirstChar(b), b[n..];
      FirstEncoded(b);
      DecodedEncodes(rest);
      var s := DecodeUtf8(rest).value;
      DecodeStep(b, c, n, s);
      EncodeStep(b, c, n, s);
    }
  }
}
