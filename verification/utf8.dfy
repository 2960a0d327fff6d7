/**
 * UTF-8 as Python's `str.encode('utf-8')` and strict `bytes.decode('utf-8')`
 * use it: a character (a Unicode scalar value) is written as 1 to 4 bytes,
 * and decoding accepts exactly the well-formed byte sequences of the
 * Unicode standard (no overlong forms, no surrogates, nothing past U+10FFFF).
 */
module Utf8 {
  import opened Py

  newtype byte = x: int | 0 <= x < 256

  predicate Cont(b: byte) { 0x80 <= b <= 0xBF }

  /** The bytes of one character. */
  function EncodeChar(c: char): (r: seq<byte>)
    ensures 1 <= |r| <= 4
  {
    var cp := c as int;
    var q1 := cp / 64;
    var q2 := q1 / 64;
    if cp < 0x80 then [cp as byte]
    else if cp < 0x800 then [(0xC0 + q1) as byte, (0x80 + cp % 64) as byte]
    else if cp < 0x10000 then
      [(0xE0 + q2) as byte, (0x80 + q1 % 64) as byte, (0x80 + cp % 64) as byte]
    else
      [(0xF0 + q2 / 64) as byte, (0x80 + q2 % 64) as byte,
       (0x80 + q1 % 64) as byte, (0x80 + cp % 64) as byte]
  }

  /** An ASCII character is its own byte; any other character is written
      with bytes of 0x80 and above only. */
  lemma EncodeCharSpec(c: char)
    ensures (c as int) < 0x80 <==> |EncodeChar(c)| == 1
    ensures (c as int) < 0x80 ==> EncodeChar(c)[0] as int == c as int
    ensures (c as int) >= 0x80 ==> forall i :: 0 <= i < |EncodeChar(c)| ==> EncodeChar(c)[i] >= 0x80
  {
  }

  /** `s.encode('utf-8')`. */
  function Encode(s: string): (r: seq<byte>)
    ensures |r| >= |s|
  {
    if s == [] then [] else EncodeChar(s[0]) + Encode(s[1..])
  }

  /** The range the second byte must lie in after lead byte `b0`. */
  function SecondLo(b0: byte): byte
  {
    if b0 == 0xE0 then 0xA0 else if b0 == 0xF0 then 0x90 else 0x80
  }

  function SecondHi(b0: byte): byte
  {
    if b0 == 0xED then 0x9F else if b0 == 0xF4 then 0x8F else 0xBF
  }

  /** The character at the front of `bs` and its length in bytes, or `None`
      when `bs` does not start with a well-formed character. */
  function DecodeFirst(bs: seq<byte>): (r: Option<(char, nat)>)
    ensures r.Some? ==> 1 <= r.value.1 <= |bs| && r.value.1 <= 4
  {
    if bs == [] then None
    else
      var b0 := bs[0];
      if b0 < 0x80 then Some(((b0 as int) as char, 1))
      else if 0xC2 <= b0 <= 0xDF then
        if |bs| >= 2 && Cont(bs[1]) then
          Some((((b0 as int - 0xC0) * 64 + (bs[1] as int - 0x80)) as char, 2))
        else None
      else if 0xE0 <= b0 <= 0xEF then
        if |bs| >= 3 && SecondLo(b0) <= bs[1] <= SecondHi(b0) && Cont(bs[2]) then
          var cp := (b0 as int - 0xE0) * 4096 + (bs[1] as int - 0x80) * 64 + (bs[2] as int - 0x80);
          Some((cp as char, 3))
        else None
      else if 0xF0 <= b0 <= 0xF4 then
        if |bs| >= 4 && SecondLo(b0) <= bs[1] <= SecondHi(b0) && Cont(bs[2]) && Cont(bs[3]) then
          var cp := (b0 as int - 0xF0) * 262144 + (bs[1] as int - 0x80) * 4096
                    + (bs[2] as int - 0x80) * 64 + (bs[3] as int - 0x80);
          Some((cp as char, 4))
        else None
      else None
  }

  /** Strict `bs.decode('utf-8')`: `None` where Python raises
      UnicodeDecodeError. */
  function Decode(bs: seq<byte>): (r: Option<string>)
    decreases |bs|
  {
    if bs == [] then Some("")
    else match DecodeFirst(bs)
      case None => None
      case Some((c, n)) =>
        match Decode(bs[n..])
        case None => None
        case Some(rest) => Some([c] + rest)
  }

  /** The two-byte case of `DecodeFirstEncodeChar`. */
  lemma DecodeFirstEncode2(c: char, rest: seq<byte>)
    requires 0x80 <= c as int < 0x800
    ensures DecodeFirst(EncodeChar(c) + rest) == Some((c, 2))
  {
    var cp := c as int;
    var bs := EncodeChar(c) + rest;
    assert bs[0] as int == 0xC0 + cp / 64 && bs[1] as int == 0x80 + cp % 64;
    assert (cp / 64) * 64 + cp % 64 == cp;
  }

  /** The three-byte case of `DecodeFirstEncodeChar`. */
  lemma DecodeFirstEncode3(c: char, rest: seq<byte>)
    requires 0x800 <= c as int < 0x10000
    ensures DecodeFirst(EncodeChar(c) + rest) == Some((c, 3))
  {
    var cp := c as int;
    var bs := EncodeChar(c) + rest;
    var q1 := cp / 64;
    var q2 := q1 / 64;
    assert cp == q1 * 64 + cp % 64 && q1 == q2 * 64 + q1 % 64;
    assert bs[0] as int == 0xE0 + q2 && bs[1] as int == 0x80 + q1 % 64 && bs[2] as int == 0x80 + cp % 64;
  }

  /** The four-byte case of `DecodeFirstEncodeChar`. */
  lemma DecodeFirstEncode4(c: char, rest: seq<byte>)
    requires 0x10000 <= c as int
    ensures DecodeFirst(EncodeChar(c) + rest) == Some((c, 4))
  {
    var cp := c as int;
    var bs := EncodeChar(c) + rest;
    var q1 := cp / 64;
    var q2 := q1 / 64;
    var q3 := q2 / 64;
    assert cp == q1 * 64 + cp % 64 && q1 == q2 * 64 + q1 % 64 && q2 == q3 * 64 + q2 % 64;
    assert bs[0] as int == 0xF0 + q3 && bs[1] as int == 0x80 + q2 % 64;
    assert bs[2] as int == 0x80 + q1 % 64 && bs[3] as int == 0x80 + cp % 64;
  }

  /** The character at the front of an encoding is read back whole. */
  lemma DecodeFirstEncodeChar(c: char, rest: seq<byte>)
    ensures DecodeFirst(EncodeChar(c) + rest) == Some((c, |EncodeChar(c)|))
  {
    var cp := c as int;
    if cp < 0x80 {
    } else if cp < 0x800 {
      DecodeFirstEncode2(c, rest);
    } else if cp < 0x10000 {
      DecodeFirstEncode3(c, rest);
    } else {
      DecodeFirstEncode4(c, rest);
    }
  }

  /** Decoding undoes encoding: `s.encode('utf-8').decode('utf-8') == s`. */
  lemma {:induction false} DecodeEncode(s: string)
    ensures Decode(Encode(s)) == Some(s)
  {
    if s != [] {
      var e := EncodeChar(s[0]);
      DecodeFirstEncodeChar(s[0], Encode(s[1..]));
      assert (e + Encode(s[1..]))[|e|..] == Encode(s[1..]);
      DecodeEncode(s[1..]);
      assert Encode(s) == e + Encode(s[1..]);
      assert s == [s[0]] + s[1..];
    }
  }

  /** Only the NUL character encodes to a zero byte. */
  lemma {:induction false} EncodeZero(s: string, i: nat)
    requires i < |Encode(s)| && Encode(s)[i] == 0
    ensures '\0' in s
  {
    var e := EncodeChar(s[0]);
    EncodeCharSpec(s[0]);
    if i < |e| {
      assert e[i] == 0;
    } else {
      assert Encode(s)[i] == Encode(s[1..])[i - |e|];
      EncodeZero(s[1..], i - |e|);
    }
  }

  // ---------------------------------------------------------------------
  // ASCII

  predicate IsAscii(s: string)
  {
    forall i :: 0 <= i < |s| ==> (s[i] as int) < 0x80
  }

  /** The byte string of an ASCII string: one byte per character. */
  function AsciiBytes(s: string): (r: seq<byte>)
    requires IsAscii(s)
    ensures |r| == |s|
    ensures forall i :: 0 <= i < |s| ==> r[i] as int == s[i] as int
  {
    seq(|s|, i requires 0 <= i < |s| => (s[i] as int) as byte)
  }

  /** ASCII text encodes byte for byte. */
  lemma {:induction false} EncodeAscii(s: string)
    requires IsAscii(s)
    ensures Encode(s) == AsciiBytes(s)
  {
    if s != [] {
      EncodeCharSpec(s[0]);
      EncodeAscii(s[1..]);
      assert Encode(s) == EncodeChar(s[0]) + Encode(s[1..]);
      assert AsciiBytes(s) == [AsciiBytes(s)[0]] + AsciiBytes(s[1..]);
    }
  }

  /** Bytes below 0x80 decode one character each. */
  lemma {:induction false} DecodeAscii(bs: seq<byte>)
    requires forall i :: 0 <= i < |bs| ==> bs[i] < 0x80
    ensures Decode(bs).Some?
    ensures |Decode(bs).value| == |bs|
    ensures forall i :: 0 <= i < |bs| ==> Decode(bs).value[i] as int == bs[i] as int
  {
    if bs != [] {
      DecodeAscii(bs[1..]);
    }
  }
}
