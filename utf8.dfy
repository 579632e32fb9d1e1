/**
 * UTF-8 as Python's `str.encode("utf-8")` and `bytes.decode("utf-8",
 * errors="replace")` do it. Decoding replaces each maximal ill-formed
 * subpart with one U+FFFD, as CPython's decoder does.
 */
module Utf8 {

  newtype byte = x: int | 0 <= x < 256

  const Replacement: char := '�'

  /** The bytes of one character. */
  function EncodeChar(c: char): (bs: seq<byte>)
    ensures 1 <= |bs| <= 4
    ensures (c as int < 0x80) <==> |bs| == 1
  {
    var n := c as int;
    if n < 0x80 then [n as byte]
    else if n < 0x800 then [(0xC0 + n / 64) as byte, (0x80 + n % 64) as byte]
    else if n < 0x10000 then
      [(0xE0 + n / 4096) as byte, (0x80 + (n / 64) % 64) as byte, (0x80 + n % 64) as byte]
    else
      [(0xF0 + n / 0x40000) as byte, (0x80 + (n / 4096) % 64) as byte,
       (0x80 + (n / 64) % 64) as byte, (0x80 + n % 64) as byte]
  }

  function Encode(s: string): (bs: seq<byte>)
    ensures |bs| >= |s|
  {
    if |s| == 0 then [] else EncodeChar(s[0]) + Encode(s[1..])
  }

  predicate IsAscii(s: string)
  {
    forall i :: 0 <= i < |s| ==> s[i] as int < 0x80
  }

  /** An ASCII string encodes to its own code points, one byte each. */
  lemma {:induction false} EncodeAscii(s: string)
    requires IsAscii(s)
    ensures var bs := Encode(s);
      |bs| == |s| && forall i :: 0 <= i < |s| ==> bs[i] as int == s[i] as int
  {
    if |s| > 0 {
      assert IsAscii(s[1..]) by {
        forall i | 0 <= i < |s| - 1 ensures s[1..][i] as int < 0x80 {
          assert s[1..][i] == s[i + 1];
        }
      }
      EncodeAscii(s[1..]);
    }
  }

  predicate IsContinuation(b: byte)
  {
    0x80 <= b <= 0xBF
  }

  /** How many continuation bytes a lead byte announces, or 0 for a byte that starts nothing. */
  function Needed(b: byte): nat
  {
    if 0xC2 <= b <= 0xDF then 1
    else if 0xE0 <= b <= 0xEF then 2
    else if 0xF0 <= b <= 0xF4 then 3
    else 0
  }

  /** The second byte a lead byte admits: narrower after E0, ED, F0 and F4 so that no overlong form, surrogate or code point above U+10FFFF decodes. */
  predicate SecondOk(b0: byte, b1: byte)
  {
    if b0 == 0xE0 then 0xA0 <= b1 <= 0xBF
    else if b0 == 0xED then 0x80 <= b1 <= 0x9F
    else if b0 == 0xF0 then 0x90 <= b1 <= 0xBF
    else if b0 == 0xF4 then 0x80 <= b1 <= 0x8F
    else IsContinuation(b1)
  }

  /** One step of the decoder: the character at the front of `bs` and how many bytes it took. */
  function DecodeOne(bs: seq<byte>): (r: (char, nat))
    requires |bs| > 0
    ensures 1 <= r.1 <= |bs| && r.1 <= 4
  {
    var b0 := bs[0];
    var need := Needed(b0);
    if b0 < 0x80 then ((b0 as int) as char, 1)
    else if need == 0 || |bs| < 2 || !SecondOk(b0, bs[1]) then (Replacement, 1)
    else if need == 1 then
      (((b0 as int - 0xC0) * 64 + (bs[1] as int - 0x80)) as char, 2)
    else if |bs| < 3 || !IsContinuation(bs[2]) then (Replacement, 2)
    else if need == 2 then
      var n := (b0 as int - 0xE0) * 4096 + (bs[1] as int - 0x80) * 64 + (bs[2] as int - 0x80);
      (n as char, 3)
    else if |bs| < 4 || !IsContinuation(bs[3]) then (Replacement, 3)
    else
      var n := (b0 as int - 0xF0) * 0x40000 + (bs[1] as int - 0x80) * 4096
        + (bs[2] as int - 0x80) * 64 + (bs[3] as int - 0x80);
      (n as char, 4)
  }

  /** `bytes.decode("utf-8", errors="replace")`: defined on every byte string. */
  function Decode(bs: seq<byte>): (s: string)
    ensures |s| <= |bs|
    decreases |bs|
  {
    if |bs| == 0 then ""
    else
      var (c, k) := DecodeOne(bs);
      [c] + Decode(bs[k..])
  }

  lemma DecodeTwo(n: int, a: int, b: int, rest: seq<byte>)
    requires 0x80 <= n < 0x800 && n == a * 64 + b && 0 <= b < 64
    ensures DecodeOne([(0xC0 + a) as byte, (0x80 + b) as byte] + rest) == (n as char, 2)
  {
  }

  lemma DecodeThree(n: int, a: int, b: int, d: int, rest: seq<byte>)
    requires 0x800 <= n < 0x10000 && (n < 0xD800 || 0xE000 <= n)
    requires n == a * 4096 + b * 64 + d && 0 <= b < 64 && 0 <= d < 64
    ensures DecodeOne([(0xE0 + a) as byte, (0x80 + b) as byte, (0x80 + d) as byte] + rest) == (n as char, 3)
  {
    assert 0 <= a < 16;
  }

  lemma DecodeFour(n: int, a: int, b: int, d: int, e: int, rest: seq<byte>)
    requires 0x10000 <= n < 0x110000
    requires n == a * 0x40000 + b * 4096 + d * 64 + e && 0 <= b < 64 && 0 <= d < 64 && 0 <= e < 64
    ensures DecodeOne([(0xF0 + a) as byte, (0x80 + b) as byte, (0x80 + d) as byte, (0x80 + e) as byte] + rest)
      == (n as char, 4)
  {
    assert 0 <= a <= 4;
  }

  lemma DivMod64(n: int, q: int, r: int)
    requires 0 <= r < 64 && n == q * 64 + r
    ensures n / 64 == q && n % 64 == r
  {
  }

  lemma DivMod4096(n: int, q: int, r: int)
    requires 0 <= r < 4096 && n == q * 4096 + r
    ensures n / 4096 == q && n % 4096 == r
  {
  }

  lemma RoundTripThree(c: char, rest: seq<byte>)
    requires 0x800 <= c as int < 0x10000
    ensures DecodeOne(EncodeChar(c) + rest) == (c, 3)
  {
    var n := c as int;
    var a, r := n / 4096, n % 4096;
    var b, d := r / 64, r % 64;
    DivMod64(n, a * 64 + b, d);
    DivMod64(a * 64 + b, a, b);
    DecodeThree(n, a, b, d, rest);
  }

  lemma RoundTripFour(c: char, rest: seq<byte>)
    requires 0x10000 <= c as int
    ensures DecodeOne(EncodeChar(c) + rest) == (c, 4)
  {
    var n := c as int;
    var a, r := n / 0x40000, n % 0x40000;
    var b, r' := r / 4096, r % 4096;
    var d, e := r' / 64, r' % 64;
    DivMod4096(n, a * 64 + b, r');
    DivMod64(a * 64 + b, a, b);
    DivMod64(n, a * 4096 + b * 64 + d, e);
    DivMod64(a * 4096 + b * 64 + d, a * 64 + b, d);
    DecodeFour(n, a, b, d, e, rest);
  }

  lemma DecodeOneEncodeChar(c: char, rest: seq<byte>)
    ensures DecodeOne(EncodeChar(c) + rest) == (c, |EncodeChar(c)|)
  {
    var n := c as int;
    if n < 0x80 {
    } else if n < 0x800 {
      DecodeTwo(n, n / 64, n % 64, rest);
    } else if n < 0x10000 {
      RoundTripThree(c, rest);
    } else {
      RoundTripFour(c, rest);
    }
  }

  /** Decoding what was encoded gives the string back. */
  lemma {:induction false} DecodeEncode(s: string)
    ensures Decode(Encode(s)) == s
  {
    if |s| > 0 {
      var e := EncodeChar(s[0]);
      var bs := Encode(s);
      assert bs == e + Encode(s[1..]);
      DecodeOneEncodeChar(s[0], Encode(s[1..]));
      assert bs[|e|..] == Encode(s[1..]);
      DecodeEncode(s[1..]);
      assert s == [s[0]] + s[1..];
    }
  }

  lemma EncodeAppend(a: string, b: string)
    ensures Encode(a + b) == Encode(a) + Encode(b)
  {
    if |a| > 0 {
      assert (a + b)[1..] == a[1..] + b;
      EncodeAppend(a[1..], b);
    } else {
      assert a + b == b;
    }
  }

  /** Encoding never maps two strings to the same bytes. */
  lemma EncodeInjective(s: string, t: string)
    requires Encode(s) == Encode(t)
    ensures s == t
  {
    DecodeEncode(s);
    DecodeEncode(t);
  }
}
