/**
 * Base64 with the standard alphabet and `=` padding, as described in section 4
 * of RFC 4648; this is what `Buffer.prototype.toString("base64")` produces.
 * The decoder is the encoder's inverse and serves to show that distinct byte
 * sequences never share an encoding.
 */
module Base64 {
  import opened Basics

  /** A six-bit group. */
  type sextet = x: int | 0 <= x < 64

  /** The character of the base64 alphabet for a six-bit group (Table 1 of RFC 4648). */
  function SextetChar(i: sextet): (c: char)
    ensures IsAlphabetChar(c)
  {
    if i < 26 then ('A' as int + i) as char
    else if i < 52 then ('a' as int + i - 26) as char
    else if i < 62 then ('0' as int + i - 52) as char
    else if i == 62 then '+'
    else '/'
  }

  predicate IsAlphabetChar(c: char) {
    'A' <= c <= 'Z' || 'a' <= c <= 'z' || '0' <= c <= '9' || c == '+' || c == '/'
  }

  /** The six-bit group an alphabet character stands for; `None` for any other character. */
  function SextetOf(c: char): (r: Option<sextet>)
    ensures r.Some? <==> IsAlphabetChar(c)
    ensures r.Some? ==> SextetChar(r.value) == c
  {
    if 'A' <= c <= 'Z' then Some(c as int - 'A' as int)
    else if 'a' <= c <= 'z' then Some(c as int - 'a' as int + 26)
    else if '0' <= c <= '9' then Some(c as int - '0' as int + 52)
    else if c == '+' then Some(62)
    else if c == '/' then Some(63)
    else None
  }

  lemma SextetRoundTrip(i: sextet)
    ensures SextetOf(SextetChar(i)) == Some(i)
  {
  }

  /** Alphabet characters, with `=` allowed only in the last two positions. */
  predicate IsPadded(r: string) {
    forall i :: 0 <= i < |r| ==> IsAlphabetChar(r[i]) || (r[i] == '=' && i >= |r| - 2)
  }

  /** A full group: three bytes become four characters. */
  function EncodeGroup(a: byte, b: byte, c: byte): (r: string)
    ensures |r| == 4 && forall i :: 0 <= i < 4 ==> IsAlphabetChar(r[i])
  {
    [SextetChar(a / 4), SextetChar((a % 4) * 16 + b / 16), SextetChar((b % 16) * 4 + c / 64), SextetChar(c % 64)]
  }

  /** A final group of two bytes: three characters and one `=`. */
  function EncodeTail2(a: byte, b: byte): string {
    [SextetChar(a / 4), SextetChar((a % 4) * 16 + b / 16), SextetChar((b % 16) * 4), '=']
  }

  /** A final group of one byte: two characters and `==`. */
  function EncodeTail1(a: byte): string {
    [SextetChar(a / 4), SextetChar((a % 4) * 16), '=', '=']
  }

  /** The vectors "foo", "fo" and "f" of section 10 of RFC 4648, one per kind of group. */
  lemma GroupVectors()
    ensures EncodeGroup(0x66, 0x6F, 0x6F) == "Zm9v"
    ensures EncodeTail2(0x66, 0x6F) == "Zm8="
    ensures EncodeTail1(0x66) == "Zg=="
  {
  }

  /** The vector "foob" of section 10 of RFC 4648: one full group, then one byte. */
  lemma TextVector()
    ensures Encode([0x66, 0x6F, 0x6F, 0x62]) == "Zm9vYg=="
  {
    var bytes: seq<byte> := [0x66, 0x6F, 0x6F, 0x62];
    assert bytes[3..] == [0x62];
    calc {
      Encode(bytes);
      EncodeGroup(0x66, 0x6F, 0x6F) + Encode([0x62]);
      EncodeGroup(0x66, 0x6F, 0x6F) + EncodeTail1(0x62);
    }
    assert EncodeGroup(0x66, 0x6F, 0x6F) == "Zm9v";
    assert EncodeTail1(0x62) == "Yg==";
  }

  /**
   * The base64 text of a byte sequence: four characters per started group of
   * three bytes, each an alphabet character or a trailing `=`.
   */
  function Encode(bytes: seq<byte>): (r: string)
    ensures |r| == 4 * ((|bytes| + 2) / 3)
    decreases |bytes|
  {
    if |bytes| == 0 then ""
    else if |bytes| == 1 then EncodeTail1(bytes[0])
    else if |bytes| == 2 then EncodeTail2(bytes[0], bytes[1])
    else EncodeGroup(bytes[0], bytes[1], bytes[2]) + Encode(bytes[3..])
  }

  /** Decodes one group of four characters into one, two or three bytes. */
  function DecodeGroup(g: string): (r: Option<seq<byte>>)
    requires |g| == 4
    ensures r.Some? ==> 1 <= |r.value| <= 3
  {
    var s0, s1, s2, s3 := SextetOf(g[0]), SextetOf(g[1]), SextetOf(g[2]), SextetOf(g[3]);
    if s0.None? || s1.None? then None
    else if g[2] == '=' && g[3] == '=' then
      Some([s0.value * 4 + s1.value / 16])
    else if s2.None? then None
    else if g[3] == '=' then
      Some([s0.value * 4 + s1.value / 16, (s1.value % 16) * 16 + s2.value / 4])
    else if s3.None? then None
    else
      Some([s0.value * 4 + s1.value / 16, (s1.value % 16) * 16 + s2.value / 4, (s2.value % 4) * 64 + s3.value])
  }

  /** Decodes padded base64 text; `None` when the text is not of that form. */
  function Decode(s: string): Option<seq<byte>>
    decreases |s|
  {
    if |s| == 0 then Some([])
    else if |s| < 4 then None
    else
      match DecodeGroup(s[..4])
      case None => None
      case Some(g) =>
        if |s| == 4 then Some(g)
        else if |g| < 3 then None
        else
          match Decode(s[4..])
          case None => None
          case Some(rest) => Some(g + rest)
  }

  /** Regrouping six-bit groups into bytes recovers the bytes they were cut from. */
  lemma Regroup(a: byte, b: byte, c: byte)
    ensures (a / 4) * 4 + ((a % 4) * 16 + b / 16) / 16 == a
    ensures (((a % 4) * 16 + b / 16) % 16) * 16 + ((b % 16) * 4 + c / 64) / 4 == b
    ensures (((b % 16) * 4 + c / 64) % 4) * 64 + c % 64 == c
  {
  }

  lemma GroupRoundTrip(a: byte, b: byte, c: byte)
    ensures DecodeGroup(EncodeGroup(a, b, c)) == Some([a, b, c])
  {
    var s0, s1, s2, s3 := a / 4, (a % 4) * 16 + b / 16, (b % 16) * 4 + c / 64, c % 64;
    SextetRoundTrip(s0);
    SextetRoundTrip(s1);
    SextetRoundTrip(s2);
    SextetRoundTrip(s3);
    Regroup(a, b, c);
    var g := EncodeGroup(a, b, c);
    assert g == [SextetChar(s0), SextetChar(s1), SextetChar(s2), SextetChar(s3)];
    assert SextetOf(g[0]) == Some(s0) && SextetOf(g[1]) == Some(s1);
    assert SextetOf(g[2]) == Some(s2) && SextetOf(g[3]) == Some(s3);
    assert g[2] != '=' && g[3] != '=';
  }

  lemma Tail2RoundTrip(a: byte, b: byte)
    ensures DecodeGroup(EncodeTail2(a, b)) == Some([a, b])
  {
    SextetRoundTrip(a / 4);
    SextetRoundTrip((a % 4) * 16 + b / 16);
    SextetRoundTrip((b % 16) * 4);
  }

  lemma Tail1RoundTrip(a: byte)
    ensures DecodeGroup(EncodeTail1(a)) == Some([a])
  {
    SextetRoundTrip(a / 4);
    SextetRoundTrip((a % 4) * 16);
  }

  /** Decoding a text made of a full group followed by more text. */
  lemma DecodeCons(s: string, g: seq<byte>, rest: seq<byte>)
    requires |s| > 4 && DecodeGroup(s[..4]) == Some(g) && |g| == 3
    requires Decode(s[4..]) == Some(rest)
    ensures Decode(s) == Some(g + rest)
  {
  }

  /** Decoding text of exactly one group is decoding that group. */
  lemma DecodeSingle(s: string)
    requires |s| == 4
    ensures Decode(s) == DecodeGroup(s)
  {
    assert s[..4] == s;
  }

  lemma OneRoundTrip(bytes: seq<byte>)
    requires |bytes| == 1
    ensures Decode(Encode(bytes)) == Some(bytes)
  {
    var e := Encode(bytes);
    DecodeSingle(e);
    assert e == EncodeTail1(bytes[0]);
    Tail1RoundTrip(bytes[0]);
    assert bytes == [bytes[0]];
  }

  lemma TwoRoundTrip(bytes: seq<byte>)
    requires |bytes| == 2
    ensures Decode(Encode(bytes)) == Some(bytes)
  {
    var e := Encode(bytes);
    DecodeSingle(e);
    assert e == EncodeTail2(bytes[0], bytes[1]);
    Tail2RoundTrip(bytes[0], bytes[1]);
    assert bytes == [bytes[0], bytes[1]];
  }

  lemma ThreeRoundTrip(bytes: seq<byte>)
    requires |bytes| == 3
    ensures Decode(Encode(bytes)) == Some(bytes)
  {
    var e := Encode(bytes);
    DecodeSingle(e);
    assert e == EncodeGroup(bytes[0], bytes[1], bytes[2]) + Encode(bytes[3..]);
    assert Encode(bytes[3..]) == [];
    assert e == EncodeGroup(bytes[0], bytes[1], bytes[2]);
    GroupRoundTrip(bytes[0], bytes[1], bytes[2]);
    SplitGroup(bytes);
  }

  /** Decoding undoes encoding. */
  lemma {:induction false} RoundTrip(bytes: seq<byte>)
    ensures Decode(Encode(bytes)) == Some(bytes)
    decreases |bytes|
  {
    if |bytes| == 1 {
      OneRoundTrip(bytes);
    } else if |bytes| == 2 {
      TwoRoundTrip(bytes);
    } else if |bytes| == 3 {
      ThreeRoundTrip(bytes);
    } else if |bytes| > 3 {
      RoundTrip(bytes[3..]);
      LongRoundTrip(bytes);
    }
  }

  lemma SplitGroup(bytes: seq<byte>)
    requires |bytes| >= 3
    ensures bytes == [bytes[0], bytes[1], bytes[2]] + bytes[3..]
    ensures |bytes| == 3 ==> bytes == [bytes[0], bytes[1], bytes[2]]
  {
  }

  lemma LongRoundTrip(bytes: seq<byte>)
    requires |bytes| > 3
    requires Decode(Encode(bytes[3..])) == Some(bytes[3..])
    ensures Decode(Encode(bytes)) == Some(bytes)
  {
    var g: seq<byte> := [bytes[0], bytes[1], bytes[2]];
    var head := EncodeGroup(bytes[0], bytes[1], bytes[2]);
    var rest := Encode(bytes[3..]);
    assert |rest| >= 4;
    var s := head + rest;
    assert Encode(bytes) == s;
    assert s[..4] == head;
    assert s[4..] == rest;
    GroupRoundTrip(bytes[0], bytes[1], bytes[2]);
    DecodeCons(s, g, bytes[3..]);
    SplitGroup(bytes);
  }

  /**
   * Every character of an encoding is from the alphabet, except for padding
   * in the last two positions.
   */
  lemma {:induction false} EncodeAlphabet(bytes: seq<byte>)
    ensures IsPadded(Encode(bytes))
    decreases |bytes|
  {
    if |bytes| > 3 {
      EncodeAlphabet(bytes[3..]);
      var head, rest := EncodeGroup(bytes[0], bytes[1], bytes[2]), Encode(bytes[3..]);
      var r := head + rest;
      assert Encode(bytes) == r;
      forall i | 0 <= i < |r|
        ensures IsAlphabetChar(r[i]) || (r[i] == '=' && i >= |r| - 2)
      {
        assert IsPadded(rest);
        if i < 4 {
          assert r[i] == head[i];
        } else {
          assert r[i] == rest[i - 4];
        }
      }
    }
  }

  /** Distinct byte sequences have distinct encodings. */
  lemma EncodeInjective(x: seq<byte>, y: seq<byte>)
    requires Encode(x) == Encode(y)
    ensures x == y
  {
    RoundTrip(x);
    RoundTrip(y);
  }
}
