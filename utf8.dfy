/**
 * UTF-8, as used by `str.encode("utf8")` and `bytes.decode('utf8')`.
 *
 * Dafny's `char` is a Unicode scalar value, so encoding never fails. Decoding
 * is strict like Python's: truncated sequences, stray continuation bytes,
 * overlong forms, surrogates and values above U+10FFFF are rejected.
 */
module Utf8 {
  import opened Wrappers

  newtype byte = x: int | 0 <= x < 0x100

  type Bytes = seq<byte>

  /** The code points a Dafny `char` can hold. */
  predicate IsScalar(n: int) {
    0 <= n < 0xD800 || 0xE000 <= n < 0x11_0000
  }

  predicate IsContinuation(b: byte) {
    0x80 <= b < 0xC0
  }

  /** The one to four bytes that encode `c`. */
  function EncodeChar(c: char): (b: Bytes)
    ensures 1 <= |b| <= 4
    ensures (c as int < 0x80) <==> |b| == 1
  {
    var n := c as int;
    if n < 0x80 then
      [n as byte]
    else if n < 0x800 then
      [(0xC0 + n / 64) as byte, (0x80 + n % 64) as byte]
    else if n < 0x1_0000 then
      [(0xE0 + n / 4096) as byte, (0x80 + n / 64 % 64) as byte, (0x80 + n % 64) as byte]
    else
      [(0xF0 + n / 262144) as byte, (0x80 + n / 4096 % 64) as byte,
       (0x80 + n / 64 % 64) as byte, (0x80 + n % 64) as byte]
  }

  function Encode(s: string): Bytes {
    if s == [] then [] else EncodeChar(s[0]) + Encode(s[1..])
  }

  /** Decodes the character at the front of `b`, with the number of bytes it takes. */
  function DecodeFirst(b: Bytes): (r: Option<(char, nat)>)
    requires |b| > 0
    ensures r.Some? ==> 1 <= r.value.1 <= |b|
  {
    var b0 := b[0] as int;
    if b0 < 0x80 then
      Some((b0 as char, 1))
    else if 0xC2 <= b0 < 0xE0 then
      if |b| >= 2 && IsContinuation(b[1]) then
        var n := (b0 - 0xC0) * 64 + (b[1] as int - 0x80);
        Some((n as char, 2))
      else None
    else if 0xE0 <= b0 < 0xF0 then
      if |b| >= 3 && IsContinuation(b[1]) && IsContinuation(b[2]) then
        var n := ((b0 - 0xE0) * 64 + (b[1] as int - 0x80)) * 64 + (b[2] as int - 0x80);
        if 0x800 <= n && IsScalar(n) then Some((n as char, 3)) else None
      else None
    else if 0xF0 <= b0 < 0xF5 then
      if |b| >= 4 && IsContinuation(b[1]) && IsContinuation(b[2]) && IsContinuation(b[3]) then
        var n := (((b0 - 0xF0) * 64 + (b[1] as int - 0x80)) * 64 + (b[2] as int - 0x80)) * 64
                 + (b[3] as int - 0x80);
        if 0x1_0000 <= n < 0x11_0000 then Some((n as char, 4)) else None
      else None
    else
      None
  }

  /** `bytes.decode('utf8')`: `None` where Python raises UnicodeDecodeError. */
  function Decode(b: Bytes): Option<string>
    decreases |b|
  {
    if b == [] then Some("")
    else match DecodeFirst(b)
      case None => None
      case Some((c, n)) =>
        match Decode(b[n..])
        case None => None
        case Some(s) => Some([c] + s)
  }

  lemma DecodeFirstOfEncodeChar(c: char, rest: Bytes)
    ensures DecodeFirst(EncodeChar(c) + rest) == Some((c, |EncodeChar(c)|))
  {
    var n := c as int;
    if 0x80 <= n < 0x800 {
      DecodeTwoOfEncodeChar(c, rest);
    } else if 0x800 <= n < 0x1_0000 {
      DecodeThreeOfEncodeChar(c, rest);
    } else if 0x1_0000 <= n {
      DecodeFourOfEncodeChar(c, rest);
    }
  }

  lemma DecodeTwoOfEncodeChar(c: char, rest: Bytes)
    requires 0x80 <= c as int < 0x800
    ensures DecodeFirst(EncodeChar(c) + rest) == Some((c, 2))
  {
    var n := c as int;
    var b := EncodeChar(c) + rest;
    Split64(n / 64, n % 64);
    assert b[0] as int - 0xC0 == n / 64 && b[1] as int - 0x80 == n % 64;
  }

  lemma DecodeThreeOfEncodeChar(c: char, rest: Bytes)
    requires 0x800 <= c as int < 0x1_0000
    ensures DecodeFirst(EncodeChar(c) + rest) == Some((c, 3))
  {
    var n := c as int;
    var b := EncodeChar(c) + rest;
    DivDiv(n);
    assert b[0] as int - 0xE0 == n / 4096;
    assert b[1] as int - 0x80 == n / 64 % 64;
    assert b[2] as int - 0x80 == n % 64;
    assert n / 4096 * 64 + n / 64 % 64 == n / 64;
  }

  lemma DecodeFourOfEncodeChar(c: char, rest: Bytes)
    requires 0x1_0000 <= c as int
    ensures DecodeFirst(EncodeChar(c) + rest) == Some((c, 4))
  {
    var n := c as int;
    var b := EncodeChar(c) + rest;
    DivDiv(n);
    assert b[0] as int - 0xF0 == n / 262144;
    assert b[1] as int - 0x80 == n / 4096 % 64;
    assert b[2] as int - 0x80 == n / 64 % 64;
    assert b[3] as int - 0x80 == n % 64;
    assert n / 262144 * 64 + n / 4096 % 64 == n / 4096;
    assert n / 4096 * 64 + n / 64 % 64 == n / 64;
  }

  /** Decoding undoes encoding: the round trip of a value stored in a shard. */
  lemma {:induction false} DecodeEncode(s: string)
    ensures Decode(Encode(s)) == Some(s)
  {
    if s != [] {
      var e, b := EncodeChar(s[0]), Encode(s);
      assert b == e + Encode(s[1..]);
      DecodeFirstOfEncodeChar(s[0], Encode(s[1..]));
      assert b[|e|..] == Encode(s[1..]);
      DecodeEncode(s[1..]);
      assert [s[0]] + s[1..] == s;
    }
  }

  lemma Split64(q: int, r: int)
    requires 0 <= q && 0 <= r < 64
    ensures (q * 64 + r) / 64 == q && (q * 64 + r) % 64 == r
  {
  }

  lemma DivDiv(n: nat)
    ensures n / 4096 == n / 64 / 64 && n / 262144 == n / 4096 / 64
  {
  }

  lemma EncodeCharOfDecodeFirst(b: Bytes)
    requires |b| > 0 && DecodeFirst(b).Some?
    ensures EncodeChar(DecodeFirst(b).value.0) == b[..DecodeFirst(b).value.1]
  {
    var k := DecodeFirst(b).value.1;
    if k == 2 {
      EncodeCharOfTwo(b);
    } else if k == 3 {
      EncodeCharOfThree(b);
    } else if k == 4 {
      EncodeCharOfFour(b);
    }
  }

  lemma EncodeCharOfTwo(b: Bytes)
    requires |b| > 0 && DecodeFirst(b).Some? && DecodeFirst(b).value.1 == 2
    ensures EncodeChar(DecodeFirst(b).value.0) == b[..2]
  {
    var n := DecodeFirst(b).value.0 as int;
    var x, y := b[0] as int - 0xC0, b[1] as int - 0x80;
    assert n == x * 64 + y;
    Split64(x, y);
  }

  lemma EncodeCharOfThree(b: Bytes)
    requires |b| > 0 && DecodeFirst(b).Some? && DecodeFirst(b).value.1 == 3
    ensures EncodeChar(DecodeFirst(b).value.0) == b[..3]
  {
    var n := DecodeFirst(b).value.0 as int;
    var x, y, z := b[0] as int - 0xE0, b[1] as int - 0x80, b[2] as int - 0x80;
    assert n == (x * 64 + y) * 64 + z;
    Split64(x * 64 + y, z);
    Split64(x, y);
    DivDiv(n);
  }

  lemma EncodeCharOfFour(b: Bytes)
    requires |b| > 0 && DecodeFirst(b).Some? && DecodeFirst(b).value.1 == 4
    ensures EncodeChar(DecodeFirst(b).value.0) == b[..4]
  {
    var n := DecodeFirst(b).value.0 as int;
    var w, x, y, z := b[0] as int - 0xF0, b[1] as int - 0x80, b[2] as int - 0x80, b[3] as int - 0x80;
    assert n == ((w * 64 + x) * 64 + y) * 64 + z;
    Split64((w * 64 + x) * 64 + y, z);
    Split64(w * 64 + x, y);
    Split64(w, x);
    DivDiv(n);
  }

  lemma DecodeUnfold(b: Bytes)
    requires b != [] && Decode(b).Some?
    ensures DecodeFirst(b).Some?
    ensures var k := DecodeFirst(b).value.1;
      Decode(b[k..]).Some? && Decode(b).value == [DecodeFirst(b).value.0] + Decode(b[k..]).value
  {
  }

  lemma EncodeCons(b: Bytes, k: nat, c: char, s: string)
    requires k <= |b| && EncodeChar(c) == b[..k] && Encode(s) == b[k..]
    ensures Encode([c] + s) == b
  {
    assert ([c] + s)[1..] == s;
    assert b == b[..k] + b[k..];
  }

  /** Decoding succeeds only on the exact encoding of what it returns. */
  lemma {:induction false} EncodeDecode(b: Bytes)
    requires Decode(b).Some?
    ensures Encode(Decode(b).value) == b
    decreases |b|
  {
    if b != [] {
      DecodeUnfold(b);
      var c, k := DecodeFirst(b).value.0, DecodeFirst(b).value.1;
      EncodeDecode(b[k..]);
      EncodeCharOfDecodeFirst(b);
      EncodeCons(b, k, c, Decode(b[k..]).value);
    }
  }

  /** Distinct strings have distinct encodings, so a shard keyed by bytes keeps them apart. */
  lemma EncodeInjective(s: string, t: string)
    ensures Encode(s) == Encode(t) ==> s == t
  {
    DecodeEncode(s);
    DecodeEncode(t);
  }
}
