/** UTF-8, as RFC 3629 defines it: the encoding `String.getBytes(UTF_8)`
    applies to the digest input before it is hashed. A Dafny `char` is a
    Unicode scalar value, so every string here is well formed.

    `Encode` is what the credential derivation uses; `Decode` is the strict
    decoder of the same RFC, there to prove that `Encode` loses nothing. */
module Utf8 {
  import opened Wrappers

  type byte = x: int | 0 <= x < 0x100
  type Bytes = seq<byte>

  /** How many bytes the encoding of `c` takes (section 3 of RFC 3629). */
  function Width(c: char): (n: nat)
    ensures 1 <= n <= 4
    ensures n == 1 <==> c as int < 0x80
  {
    if c as int < 0x80 then 1
    else if c as int < 0x800 then 2
    else if c as int < 0x1_0000 then 3
    else 4
  }

  /** A byte of the form 10xxxxxx, which only ever follows a leading byte. */
  predicate IsContinuation(b: byte) {
    0x80 <= b < 0xC0
  }

  /** The encoding of one scalar value: one leading byte, then `Width(c) - 1`
      continuation bytes carrying six bits each. */
  function EncodeChar(c: char): (r: Bytes)
    ensures |r| == Width(c)
    ensures !IsContinuation(r[0])
    ensures forall i :: 1 <= i < |r| ==> IsContinuation(r[i])
  {
    var v := c as int;
    if v < 0x80 then [v]
    else if v < 0x800 then [0xC0 + v / 0x40, 0x80 + v % 0x40]
    else if v < 0x1_0000 then [0xE0 + v / 0x1000, 0x80 + (v / 0x40) % 0x40, 0x80 + v % 0x40]
    else [0xF0 + v / 0x4_0000, 0x80 + (v / 0x1000) % 0x40, 0x80 + (v / 0x40) % 0x40, 0x80 + v % 0x40]
  }

  /** The encoding of a string: its characters' encodings, in order. */
  function Encode(s: string): (r: Bytes)
    ensures |r| >= |s|
    ensures s == [] <==> r == []
  {
    if s == [] then [] else EncodeChar(s[0]) + Encode(s[1..])
  }

  /** The first character of `bs` and the number of bytes it occupies, or
      `None` when `bs` does not start with a well-formed sequence (a stray
      continuation byte, a truncated sequence, an overlong form, a surrogate
      or a value above U+10FFFF). */
  function DecodeChar(bs: Bytes): (r: Option<(char, nat)>)
    ensures r.Some? ==> 1 <= r.value.1 <= |bs|
    ensures r.Some? ==> r.value.1 == Width(r.value.0)
  {
    if |bs| == 0 then None
    else if bs[0] < 0x80 then Some((bs[0] as char, 1))
    else if 0xC2 <= bs[0] < 0xE0 && 2 <= |bs| && IsContinuation(bs[1]) then
      var v := (bs[0] as int - 0xC0) * 0x40 + (bs[1] as int - 0x80);
      Some((v as char, 2))
    else if 0xE0 <= bs[0] < 0xF0 && 3 <= |bs| && IsContinuation(bs[1]) && IsContinuation(bs[2]) then
      var v := (bs[0] as int - 0xE0) * 0x1000 + (bs[1] as int - 0x80) * 0x40 + (bs[2] as int - 0x80);
      if 0x800 <= v && (v < 0xD800 || 0xE000 <= v) then Some((v as char, 3)) else None
    else if 0xF0 <= bs[0] < 0xF5 && 4 <= |bs| && IsContinuation(bs[1]) && IsContinuation(bs[2]) && IsContinuation(bs[3]) then
      var v := (bs[0] as int - 0xF0) * 0x4_0000 + (bs[1] as int - 0x80) * 0x1000
        + (bs[2] as int - 0x80) * 0x40 + (bs[3] as int - 0x80);
      if 0x1_0000 <= v < 0x11_0000 then Some((v as char, 4)) else None
    else None
  }

  /** The string `bs` encodes, or `None` when `bs` is not well-formed UTF-8. */
  function Decode(bs: Bytes): (r: Option<string>)
    decreases |bs|
  {
    if bs == [] then Some([])
    else match DecodeChar(bs)
      case None => None
      case Some((c, n)) =>
        match Decode(bs[n..])
        case None => None
        case Some(rest) => Some([c] + rest)
  }

  /** Two-byte sequences: U+0080 to U+07FF. */
  lemma DecodeEncodeTwoBytes(c: char, rest: Bytes)
    requires 0x80 <= c as int < 0x800
    ensures DecodeChar(EncodeChar(c) + rest) == Some((c, 2))
  {
    var v := c as int;
    var bs := EncodeChar(c) + rest;
    assert bs[0] == 0xC0 + v / 0x40 && bs[1] == 0x80 + v % 0x40;
  }

  /** Three-byte sequences: U+0800 to U+FFFF, surrogates excluded. */
  lemma DecodeEncodeThreeBytes(c: char, rest: Bytes)
    requires 0x800 <= c as int < 0x1_0000
    ensures DecodeChar(EncodeChar(c) + rest) == Some((c, 3))
  {
    var v := c as int;
    var bs := EncodeChar(c) + rest;
    assert bs[0] == 0xE0 + v / 0x1000 && bs[1] == 0x80 + (v / 0x40) % 0x40 && bs[2] == 0x80 + v % 0x40;
    assert v / 0x1000 == (v / 0x40) / 0x40;
  }

  /** Four-byte sequences: U+10000 to U+10FFFF. */
  lemma DecodeEncodeFourBytes(c: char, rest: Bytes)
    requires 0x1_0000 <= c as int
    ensures DecodeChar(EncodeChar(c) + rest) == Some((c, 4))
  {
    var v := c as int;
    var bs := EncodeChar(c) + rest;
    assert bs[0] == 0xF0 + v / 0x4_0000 && bs[1] == 0x80 + (v / 0x1000) % 0x40;
    assert bs[2] == 0x80 + (v / 0x40) % 0x40 && bs[3] == 0x80 + v % 0x40;
    assert v / 0x1000 == (v / 0x40) / 0x40;
    assert v / 0x4_0000 == (v / 0x1000) / 0x40;
  }

  /** Decoding the encoding of one character, whatever follows it, gives
      that character back and consumes exactly its encoding. */
  lemma DecodeEncodeChar(c: char, rest: Bytes)
    ensures DecodeChar(EncodeChar(c) + rest) == Some((c, Width(c)))
  {
    if c as int < 0x80 {
      assert (EncodeChar(c) + rest)[0] == c as int;
    } else if c as int < 0x800 {
      DecodeEncodeTwoBytes(c, rest);
    } else if c as int < 0x1_0000 {
      DecodeEncodeThreeBytes(c, rest);
    } else {
      DecodeEncodeFourBytes(c, rest);
    }
  }

  /** Decoding undoes encoding. */
  lemma {:induction false} DecodeEncode(s: string)
    ensures Decode(Encode(s)) == Some(s)
  {
    if s != [] {
      var head := EncodeChar(s[0]);
      var bs := Encode(s);
      assert bs == head + Encode(s[1..]);
      DecodeEncodeChar(s[0], Encode(s[1..]));
      assert bs[|head|..] == Encode(s[1..]);
      DecodeEncode(s[1..]);
      assert [s[0]] + s[1..] == s;
    }
  }

  /** Distinct strings have distinct encodings, so hashing the encoding
      distinguishes every pair of distinct strings the hash does. */
  lemma EncodeInjective(a: string, b: string)
    ensures Encode(a) == Encode(b) <==> a == b
  {
    DecodeEncode(a);
    DecodeEncode(b);
  }

  /** The encoding of a concatenation is the concatenation of the encodings. */
  lemma {:induction false} EncodeAppend(a: string, b: string)
    ensures Encode(a + b) == Encode(a) + Encode(b)
  {
    if a != [] {
      assert (a + b)[0] == a[0];
      assert (a + b)[1..] == a[1..] + b;
      EncodeAppend(a[1..], b);
      assert Encode(a + b) == EncodeChar(a[0]) + Encode(a[1..] + b);
    } else {
      assert a + b == b;
    }
  }

  /** A string of ASCII characters encodes to one byte per character, each
      byte being the character's code. */
  lemma {:induction false} EncodeAscii(s: string)
    requires forall i :: 0 <= i < |s| ==> s[i] as int < 0x80
    ensures |Encode(s)| == |s|
    ensures forall i :: 0 <= i < |s| ==> Encode(s)[i] == s[i] as int
  {
    if s != [] {
      EncodeAscii(s[1..]);
    }
  }

  /** U+00E9 (é) takes two bytes. */
  lemma TwoByteVector()
    ensures Encode("\U{E9}") == [0xC3, 0xA9]
  {
  }

  /** U+20AC (the euro sign) takes three bytes. */
  lemma ThreeByteVector()
    ensures Encode("\U{20AC}") == [0xE2, 0x82, 0xAC]
  {
  }

  /** U+1F600 (a face emoji) takes four bytes. */
  lemma FourByteVector()
    ensures Encode("\U{1F600}") == [0xF0, 0x9F, 0x98, 0x80]
  {
  }
}
