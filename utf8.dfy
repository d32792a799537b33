/** Python's `str.encode()` and `bytes.decode()` with the default UTF-8
    codec and strict error handling, as the row codec uses them for text
    columns. */
module Utf8 {
  import opened Base

  predicate IsScalar(cp: int)
  {
    0 <= cp < 0xD800 || 0xE000 <= cp < 0x110000
  }

  predicate IsContinuation(b: byte)
  {
    0x80 <= b < 0xC0
  }

  /** The UTF-8 encoding of one code point. */
  function EncodeChar(c: char): (r: seq<byte>)
    ensures 1 <= |r| <= 4
    ensures (r[0] == 0) == (c == '\0') && (r[|r| - 1] == 0) == (c == '\0')
  {
    var cp := c as int;
    if cp < 0x80 then [cp]
    else if cp < 0x800 then [0xC0 + cp / 64, 0x80 + cp % 64]
    else if cp < 0x10000 then [0xE0 + cp / 4096, 0x80 + (cp / 64) % 64, 0x80 + cp % 64]
    else [0xF0 + cp / 262144, 0x80 + (cp / 4096) % 64, 0x80 + (cp / 64) % 64, 0x80 + cp % 64]
  }

  /** `s.encode()`. */
  function Encode(s: string): seq<byte>
  {
    if s == [] then [] else EncodeChar(s[0]) + Encode(s[1..])
  }

  /** Reads one code point from the front of `bs`: the character and the
      number of bytes it took, or None for an invalid sequence (a stray
      continuation byte, a truncated sequence, an overlong form, a
      surrogate or a value above U+10FFFF). */
  function DecodeChar(bs: seq<byte>): (r: Option<(char, nat)>)
    requires |bs| > 0
    ensures r.Some? ==> 1 <= r.value.1 <= |bs|
  {
    var b0: int := bs[0];
    if b0 < 0x80 then Some((b0 as char, 1))
    else if 0xC0 <= b0 < 0xE0 then
      if |bs| < 2 || !IsContinuation(bs[1]) then None
      else
        var cp := (b0 - 0xC0) * 64 + (bs[1] as int - 0x80);
        if cp < 0x80 then None else Some((cp as char, 2))
    else if 0xE0 <= b0 < 0xF0 then
      if |bs| < 3 || !IsContinuation(bs[1]) || !IsContinuation(bs[2]) then None
      else
        var cp := (b0 - 0xE0) * 4096 + (bs[1] as int - 0x80) * 64 + (bs[2] as int - 0x80);
        if cp < 0x800 || !IsScalar(cp) then None else Some((cp as char, 3))
    else if 0xF0 <= b0 < 0xF8 then
      if |bs| < 4 || !IsContinuation(bs[1]) || !IsContinuation(bs[2]) || !IsContinuation(bs[3]) then None
      else
        var cp := (b0 - 0xF0) * 262144 + (bs[1] as int - 0x80) * 4096 + (bs[2] as int - 0x80) * 64 + (bs[3] as int - 0x80);
        if cp < 0x10000 || !IsScalar(cp) then None else Some((cp as char, 4))
    else None
  }

  /** `bs.decode()`: the decoded text, or UnicodeDecodeError. */
  function Decode(bs: seq<byte>): Result<string>
    decreases |bs|
  {
    if bs == [] then Ok([])
    else match DecodeChar(bs)
      case None => Err(UnicodeDecodeError)
      case Some((c, n)) =>
        match Decode(bs[n..])
        case Err(e) => Err(e)
        case Ok(rest) => Ok([c] + rest)
  }

  lemma DecodeEncodedChar(c: char, rest: seq<byte>)
    ensures DecodeChar(EncodeChar(c) + rest) == Some((c, |EncodeChar(c)|))
  {
    var cp := c as int;
    if cp < 0x80 {
    } else if cp < 0x800 {
      DecodeTwo(c, rest);
    } else if cp < 0x10000 {
      DecodeThree(c, rest);
    } else {
      DecodeFour(c, rest);
    }
  }

  lemma DecodeTwo(c: char, rest: seq<byte>)
    requires 0x80 <= c as int < 0x800
    ensures DecodeChar(EncodeChar(c) + rest) == Some((c, 2))
  {
    var cp := c as int;
    var hi, lo := cp / 64, cp % 64;
    assert hi * 64 + lo == cp;
    var bs := EncodeChar(c) + rest;
    assert bs[0] as int == 0xC0 + hi && bs[1] as int == 0x80 + lo;
  }

  lemma DecodeThree(c: char, rest: seq<byte>)
    requires 0x800 <= c as int < 0x10000
    ensures DecodeChar(EncodeChar(c) + rest) == Some((c, 3))
  {
    var cp := c as int;
    var q := cp / 64;
    var b1, b2, b3 := cp / 4096, q % 64, cp % 64;
    assert q * 64 + b3 == cp;
    assert q / 64 == b1 && b1 * 64 + b2 == q;
    assert b1 * 4096 + b2 * 64 + b3 == cp;
    var bs := EncodeChar(c) + rest;
    assert bs[0] as int == 0xE0 + b1 && bs[1] as int == 0x80 + b2 && bs[2] as int == 0x80 + b3;
  }

  lemma DecodeFour(c: char, rest: seq<byte>)
    requires 0x10000 <= c as int
    ensures DecodeChar(EncodeChar(c) + rest) == Some((c, 4))
  {
    var cp := c as int;
    var q := cp / 64;
    var r := q / 64;
    assert cp / 4096 == r;
    assert r / 64 == cp / 262144;
    var b1, b2, b3, b4 := r / 64, r % 64, q % 64, cp % 64;
    assert q * 64 + b4 == cp;
    assert r * 64 + b3 == q;
    assert b1 * 64 + b2 == r;
    assert b1 * 262144 + b2 * 4096 + b3 * 64 + b4 == cp;
    var bs := EncodeChar(c) + rest;
    assert bs[0] as int == 0xF0 + b1 && bs[1] as int == 0x80 + b2;
    assert bs[2] as int == 0x80 + b3 && bs[3] as int == 0x80 + b4;
  }

  /** Decoding what was encoded gives back the text: UTF-8 round trip. */
  lemma {:induction false} DecodeEncode(s: string)
    ensures Decode(Encode(s)) == Ok(s)
  {
    if s != [] {
      var bs, n := Encode(s), |EncodeChar(s[0])|;
      DecodeEncodedChar(s[0], Encode(s[1..]));
      assert DecodeChar(bs) == Some((s[0], n));
      assert bs[n..] == Encode(s[1..]);
      DecodeEncode(s[1..]);
      assert [s[0]] + s[1..] == s;
    }
  }

  lemma {:induction false} EncodeAppend(a: string, b: string)
    ensures Encode(a + b) == Encode(a) + Encode(b)
  {
    if a != [] {
      assert (a + b)[1..] == a[1..] + b;
      EncodeAppend(a[1..], b);
    } else {
      assert a + b == b;
    }
  }

  /** The encoding starts (ends) with a zero byte exactly when the text
      starts (ends) with U+0000: no other code point produces a zero byte. */
  lemma EncodeEdges(s: string)
    requires s != []
    ensures Encode(s) != []
    ensures (Encode(s)[0] == 0) == (s[0] == '\0')
    ensures (Encode(s)[|Encode(s)| - 1] == 0) == (s[|s| - 1] == '\0')
  {
    var init := s[..|s| - 1];
    assert s == init + [s[|s| - 1]];
    EncodeAppend(init, [s[|s| - 1]]);
    assert Encode([s[|s| - 1]]) == EncodeChar(s[|s| - 1]) + Encode([]);
  }
}
