/**
 * UTF-8 encoding of a string, the step `Buffer.from(text)` performs before the
 * bytes are rendered in base64. A Dafny `char` is a Unicode scalar value, so
 * every character has exactly one encoding of one to four bytes.
 */
module Utf8 {
  import opened Basics

  /** Number of bytes an encoded character occupies, read off its first byte. */
  function SequenceLength(lead: byte): (n: nat)
    ensures 1 <= n <= 4
  {
    if lead < 0x80 then 1
    else if lead < 0xE0 then 2
    else if lead < 0xF0 then 3
    else 4
  }

  /** The scalar value carried by the bytes of one encoded character. */
  function ScalarOf(bytes: seq<byte>): int
    requires 1 <= |bytes| <= 4
  {
    var b := seq(|bytes|, i requires 0 <= i < |bytes| => bytes[i] as int);
    if |b| == 1 then b[0]
    else if |b| == 2 then (b[0] - 0xC0) * 64 + (b[1] - 0x80)
    else if |b| == 3 then (b[0] - 0xE0) * 4096 + (b[1] - 0x80) * 64 + (b[2] - 0x80)
    else (b[0] - 0xF0) * 262144 + (b[1] - 0x80) * 4096 + (b[2] - 0x80) * 64 + (b[3] - 0x80)
  }

  /** Two-byte form, for scalar values 0x80 to 0x7FF. */
  function EncodeTwo(n: int): (r: seq<byte>)
    requires 0x80 <= n < 0x800
    ensures |r| == 2 && 0xC0 <= r[0] < 0xE0 && ScalarOf(r) == n
  {
    [0xC0 + n / 64, 0x80 + n % 64]
  }

  /** Three-byte form, for scalar values 0x800 to 0xFFFF. */
  function EncodeThree(n: int): (r: seq<byte>)
    requires 0x800 <= n < 0x10000
    ensures |r| == 3 && 0xE0 <= r[0] < 0xF0 && ScalarOf(r) == n
  {
    var r := [0xE0 + n / 4096, 0x80 + (n / 64) % 64, 0x80 + n % 64];
    assert n / 64 == (n / 4096) * 64 + (n / 64) % 64;
    r
  }

  /** Four-byte form, for scalar values 0x10000 to 0x10FFFF. */
  function EncodeFour(n: int): (r: seq<byte>)
    requires 0x10000 <= n <= 0x10FFFF
    ensures |r| == 4 && 0xF0 <= r[0] && ScalarOf(r) == n
  {
    var r := [0xF0 + n / 262144, 0x80 + (n / 4096) % 64, 0x80 + (n / 64) % 64, 0x80 + n % 64];
    assert n / 4096 == (n / 262144) * 64 + (n / 4096) % 64;
    assert n / 64 == (n / 4096) * 64 + (n / 64) % 64;
    r
  }

  /**
   * The encoding of one character. Its first byte announces its length, and
   * the character can be read back from it: the encoding is self-delimiting
   * and lossless.
   */
  function EncodeChar(c: char): (r: seq<byte>)
    ensures 1 <= |r| <= 4
    ensures |r| == SequenceLength(r[0])
    ensures ScalarOf(r) == c as int
    ensures c as int < 0x80 <==> r == [c as int]
    ensures forall i | 1 <= i < |r| :: 0x80 <= r[i] < 0xC0
    ensures |r| == (if c as int < 0x80 then 1 else if c as int < 0x800 then 2
                    else if c as int < 0x10000 then 3 else 4)
  {
    var n := c as int;
    if n < 0x80 then [n]
    else if n < 0x800 then EncodeTwo(n)
    else if n < 0x10000 then EncodeThree(n)
    else EncodeFour(n)
  }

  /** The UTF-8 encoding of a whole string: the encodings of its characters, in order. */
  function Encode(s: string): (r: seq<byte>)
    ensures |s| <= |r| <= 4 * |s|
    ensures r == [] <==> s == []
  {
    if s == [] then [] else EncodeChar(s[0]) + Encode(s[1..])
  }

  /** A string of ASCII characters encodes to their codes, one byte each. */
  lemma {:induction false} EncodeAscii(s: string)
    requires forall i :: 0 <= i < |s| ==> s[i] as int < 0x80
    ensures |Encode(s)| == |s|
    ensures forall i :: 0 <= i < |s| ==> Encode(s)[i] == s[i] as int
  {
    if s != [] {
      EncodeAscii(s[1..]);
      var e, rest := Encode(s), Encode(s[1..]);
      assert e == [s[0] as int] + rest;
      forall i | 1 <= i < |s| ensures e[i] == s[i] as int {
        assert e[i] == rest[i - 1] && s[i] == s[1..][i - 1];
      }
    }
  }

  /** Distinct strings have distinct encodings. */
  lemma {:induction false} EncodeInjective(s: string, t: string)
    requires Encode(s) == Encode(t)
    ensures s == t
  {
    if s != [] {
      var e, f := EncodeChar(s[0]), EncodeChar(t[0]);
      assert Encode(s) == e + Encode(s[1..]);
      assert Encode(t) == f + Encode(t[1..]);
      assert e[0] == Encode(s)[0] == f[0];
      assert e == Encode(s)[..|e|] == f;
      assert s[0] as int == t[0] as int;
      assert Encode(s[1..]) == Encode(s)[|e|..] == Encode(t[1..]);
      EncodeInjective(s[1..], t[1..]);
      assert s == [s[0]] + s[1..];
      assert t == [t[0]] + t[1..];
    }
  }
}
