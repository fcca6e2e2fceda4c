/** Base64 with the standard alphabet and `=` padding (section 4 of
    RFC 4648), the encoding `DatatypeConverter.printBase64Binary` produces.

    Encoding goes in two steps: the bytes are cut into symbols (six-bit
    values and padding), and each symbol is written as one character.
    `Encode` is what the credential derivation uses; `Decode` is the strict
    decoder of the same section, there to prove that `Encode` loses nothing. */
module Base64 {
  import opened Wrappers
  import opened Utf8

  /** A value that one base64 character carries. */
  type sextet = x: int | 0 <= x < 64

  /** One position of an encoding: six bits of data, or padding. */
  datatype Symbol = Value(bits: sextet) | Pad

  /** The character for `i` in the standard alphabet: A-Z, a-z, 0-9, `+`, `/`. */
  function Digit(i: sextet): (c: char)
    ensures c != '='
  {
    if i < 26 then ('A' as int + i) as char
    else if i < 52 then ('a' as int + (i - 26)) as char
    else if i < 62 then ('0' as int + (i - 52)) as char
    else if i == 62 then '+'
    else '/'
  }

  /** The value of an alphabet character, or `None` for any other character
      (including the padding character `=`). */
  function DigitValue(c: char): (r: Option<sextet>)
    ensures r.Some? ==> Digit(r.value) == c
  {
    if 'A' <= c <= 'Z' then Some(c as int - 'A' as int)
    else if 'a' <= c <= 'z' then Some(c as int - 'a' as int + 26)
    else if '0' <= c <= '9' then Some(c as int - '0' as int + 52)
    else if c == '+' then Some(62)
    else if c == '/' then Some(63)
    else None
  }

  /** The character written for a symbol. */
  function SymbolChar(s: Symbol): char {
    match s
    case Value(v) => Digit(v)
    case Pad => '='
  }

  /** The symbol a character stands for, or `None` for a character that
      may not appear in an encoding. */
  function CharSymbol(c: char): (r: Option<Symbol>)
    ensures r.Some? ==> SymbolChar(r.value) == c
  {
    if c == '=' then Some(Pad)
    else match DigitValue(c)
      case Some(v) => Some(Value(v))
      case None => None
  }

  /** True when `c` may appear in an encoding: an alphabet character or `=`. */
  predicate IsBase64Char(c: char) {
    CharSymbol(c).Some?
  }

  /** The four symbols of one group of one to three bytes: the group's
      bits cut into six-bit values, the last value filled with zero bits,
      and padding up to four symbols. */
  function GroupSymbols(g: Bytes): (r: seq<Symbol>)
    requires 1 <= |g| <= 3
    ensures |r| == 4
  {
    if |g| == 1 then [Value(g[0] / 4), Value((g[0] % 4) * 16), Pad, Pad]
    else if |g| == 2 then [Value(g[0] / 4), Value((g[0] % 4) * 16 + g[1] / 16), Value((g[1] % 16) * 4), Pad]
    else [Value(g[0] / 4), Value((g[0] % 4) * 16 + g[1] / 16), Value((g[1] % 16) * 4 + g[2] / 64), Value(g[2] % 64)]
  }

  /** The symbols for `bs`: the symbols of its groups of three bytes, in
      order, the last group holding whatever one to three bytes remain. */
  function Symbols(bs: Bytes): (r: seq<Symbol>)
    ensures |r| == 4 * ((|bs| + 2) / 3)
    decreases |bs|
  {
    if |bs| == 0 then []
    else if |bs| <= 3 then GroupSymbols(bs)
    else GroupSymbols(bs[..3]) + Symbols(bs[3..])
  }

  /** The base64 text of `bs`. */
  function Encode(bs: Bytes): (r: string)
    ensures |r| == 4 * ((|bs| + 2) / 3)
  {
    var syms := Symbols(bs);
    seq(|syms|, i requires 0 <= i < |syms| => SymbolChar(syms[i]))
  }

  /** The symbols the characters of `s` stand for, or `None` if one of them
      may not appear in an encoding. */
  function ReadSymbols(s: string): (r: Option<seq<Symbol>>)
    ensures r.Some? ==> |r.value| == |s|
  {
    if forall i :: 0 <= i < |s| ==> CharSymbol(s[i]).Some? then
      Some(seq(|s|, i requires 0 <= i < |s| => CharSymbol(s[i]).value))
    else None
  }

  /** The bytes of one group of four symbols, or `None` when it is not
      canonical: padding in the first two positions, or before a value,
      padding in a group that is not the `last` one, or nonzero fill bits. */
  function UngroupSymbols(q: seq<Symbol>, last: bool): (r: Option<Bytes>)
    requires |q| == 4
    ensures r.Some? ==> 1 <= |r.value| <= 3 && (|r.value| < 3 ==> last)
  {
    if q[0].Pad? || q[1].Pad? then None
    else
      var a, b := q[0].bits as int, q[1].bits as int;
      if q[2].Pad? then
        if last && q[3].Pad? && b % 16 == 0 then Some([a * 4 + b / 16]) else None
      else
        var c := q[2].bits as int;
        if q[3].Pad? then
          if last && c % 4 == 0 then Some([a * 4 + b / 16, (b % 16) * 16 + c / 4]) else None
        else
          var d := q[3].bits as int;
          Some([a * 4 + b / 16, (b % 16) * 16 + c / 4, (c % 4) * 64 + d])
  }

  /** The bytes a symbol sequence stands for, or `None` when it is not
      canonical: a length that is not a multiple of four, or a group that
      is not canonical, padding being allowed only in the last group. */
  function Unsymbols(syms: seq<Symbol>): (r: Option<Bytes>)
    decreases |syms|
  {
    if |syms| == 0 then Some([])
    else if |syms| < 4 then None
    else
      match UngroupSymbols(syms[..4], |syms| == 4)
      case None => None
      case Some(g) =>
        match Unsymbols(syms[4..])
        case None => None
        case Some(rest) => Some(g + rest)
  }

  /** The bytes `s` encodes, or `None` when `s` is not a canonical encoding. */
  function Decode(s: string): Option<Bytes> {
    match ReadSymbols(s)
    case None => None
    case Some(syms) => Unsymbols(syms)
  }

  /** Reading back the character written for a symbol gives that symbol. */
  lemma CharSymbolOfSymbolChar(s: Symbol)
    ensures CharSymbol(SymbolChar(s)) == Some(s)
  {
  }

  /** Every character of an encoding is an alphabet character or `=`, and
      reading them back gives the symbols they were written for. */
  lemma ReadSymbolsOfEncode(bs: Bytes)
    ensures forall i :: 0 <= i < |Encode(bs)| ==> IsBase64Char(Encode(bs)[i])
    ensures ReadSymbols(Encode(bs)) == Some(Symbols(bs))
  {
    var syms, s := Symbols(bs), Encode(bs);
    forall i | 0 <= i < |s| ensures CharSymbol(s[i]) == Some(syms[i]) {
      CharSymbolOfSymbolChar(syms[i]);
    }
    assert ReadSymbols(s).value == syms;
  }

  /** A lone final byte, `xx==`, reads back as itself. */
  lemma UngroupOne(g: Bytes)
    requires |g| == 1
    ensures UngroupSymbols(GroupSymbols(g), true) == Some(g)
  {
    var x := g[0];
    assert ((x % 4) * 16) % 16 == 0 && (x / 4) * 4 + ((x % 4) * 16) / 16 == x;
    assert g == [x];
  }

  /** A final pair of bytes, `xxx=`, reads back as itself. */
  lemma UngroupTwo(g: Bytes)
    requires |g| == 2
    ensures UngroupSymbols(GroupSymbols(g), true) == Some(g)
  {
    var x, y := g[0], g[1];
    var a, b, c := x / 4, (x % 4) * 16 + y / 16, (y % 16) * 4;
    assert c % 4 == 0 && a * 4 + b / 16 == x && (b % 16) * 16 + c / 4 == y;
    assert g == [x, y];
  }

  /** A full group of three bytes, `xxxx`, reads back as itself, last or not. */
  lemma UngroupThree(g: Bytes, last: bool)
    requires |g| == 3
    ensures UngroupSymbols(GroupSymbols(g), last) == Some(g)
  {
    var x, y, z := g[0], g[1], g[2];
    var a, b := x / 4, (x % 4) * 16 + y / 16;
    var c, d := (y % 16) * 4 + z / 64, z % 64;
    assert a * 4 + b / 16 == x && (b % 16) * 16 + c / 4 == y && (c % 4) * 64 + d == z;
    assert g == [x, y, z];
  }

  /** Reading back the symbols of one group gives the group; only the last
      group may be short. */
  lemma UngroupGroup(g: Bytes, last: bool)
    requires 1 <= |g| <= 3
    requires |g| < 3 ==> last
    ensures UngroupSymbols(GroupSymbols(g), last) == Some(g)
  {
    if |g| == 1 {
      UngroupOne(g);
    } else if |g| == 2 {
      UngroupTwo(g);
    } else {
      UngroupThree(g, last);
    }
  }

  /** A group followed by more symbols reads back as the group's bytes
      followed by what the rest reads back as. */
  lemma UnsymbolsAppend(head: seq<Symbol>, tail: seq<Symbol>, g: Bytes, rest: Bytes)
    requires |head| == 4
    requires UngroupSymbols(head, tail == []) == Some(g)
    requires Unsymbols(tail) == Some(rest)
    ensures Unsymbols(head + tail) == Some(g + rest)
  {
    var syms := head + tail;
    assert syms[..4] == head && syms[4..] == tail;
  }

  /** Reading the symbols of bytes back gives the bytes. */
  lemma {:induction false} UnsymbolsOfSymbols(bs: Bytes)
    ensures Unsymbols(Symbols(bs)) == Some(bs)
    decreases |bs|
  {
    if 1 <= |bs| <= 3 {
      UngroupGroup(bs, true);
      UnsymbolsAppend(GroupSymbols(bs), [], bs, []);
      assert GroupSymbols(bs) + [] == Symbols(bs) && bs + [] == bs;
    } else if |bs| > 3 {
      UngroupThree(bs[..3], false);
      UnsymbolsOfSymbols(bs[3..]);
      UnsymbolsAppend(GroupSymbols(bs[..3]), Symbols(bs[3..]), bs[..3], bs[3..]);
      assert bs[..3] + bs[3..] == bs;
    }
  }

  /** Decoding undoes encoding. */
  lemma DecodeEncode(bs: Bytes)
    ensures Decode(Encode(bs)) == Some(bs)
  {
    ReadSymbolsOfEncode(bs);
    UnsymbolsOfSymbols(bs);
  }

  /** Distinct byte strings have distinct encodings. */
  lemma EncodeInjective(a: Bytes, b: Bytes)
    ensures Encode(a) == Encode(b) <==> a == b
  {
    DecodeEncode(a);
    DecodeEncode(b);
  }

  /** The symbols of a sequence of `3k + 1` bytes end in two paddings. */
  lemma {:induction false} SymbolsEndInPads(bs: Bytes)
    requires |bs| % 3 == 1
    ensures |Symbols(bs)| >= 4
    ensures Symbols(bs)[|Symbols(bs)| - 2..] == [Pad, Pad]
    decreases |bs|
  {
    var r := Symbols(bs);
    if |bs| > 1 {
      var t := Symbols(bs[3..]);
      SymbolsEndInPads(bs[3..]);
      assert r == GroupSymbols(bs[..3]) + t;
      assert r[|r| - 2..] == t[|t| - 2..];
    }
  }

  /** The encoding of a 16-byte value (an MD5 digest) is 24 characters long
      and ends in the padding `==`, since 16 = 3 * 5 + 1. */
  lemma EncodeSixteen(bs: Bytes)
    requires |bs| == 16
    ensures |Encode(bs)| == 24
    ensures Encode(bs)[22..] == "=="
  {
    SymbolsEndInPads(bs);
    var syms, s := Symbols(bs), Encode(bs);
    assert s[22] == SymbolChar(syms[22]) == '=';
    assert s[23] == SymbolChar(syms[23]) == '=';
  }

  /** The test vectors of section 10 of RFC 4648 for "f", "fo", "foo". */
  lemma OneByteVector()
    ensures Encode([0x66]) == "Zg=="
  {
  }

  lemma TwoBytesVector()
    ensures Encode([0x66, 0x6F]) == "Zm8="
  {
  }

  lemma ThreeBytesVector()
    ensures Encode([0x66, 0x6F, 0x6F]) == "Zm9v"
  {
  }

  /** The vector for "foobar": two full groups. */
  lemma SixBytesVector()
    ensures Encode([0x66, 0x6F, 0x6F, 0x62, 0x61, 0x72]) == "Zm9vYmFy"
  {
  }
}
