/** Base64 as `Convert.ToBase64String` writes it: the alphabet of Table 1
    in section 4 of RFC 4648, each 3-byte group written as 4 characters and
    a final group of 1 or 2 bytes padded with '='. The decoder is the strict
    inverse: it accepts exactly the strings the encoder produces.
    The encoding goes through symbols: 0..63 for the alphabet, 64 for '='. */
module Base64 {
  import opened Wrappers

  /** The symbol of the padding character. */
  const Pad: int := 64

  /** Table 1 of RFC 4648, with the pad character for Pad. */
  function SymbolChar(v: int): char
    requires 0 <= v <= Pad
  {
    if v < 26 then ('A' as int + v) as char
    else if v < 52 then ('a' as int + v - 26) as char
    else if v < 62 then ('0' as int + v - 52) as char
    else if v == 62 then '+'
    else if v == 63 then '/'
    else '='
  }

  /** The symbol of a character, None outside the alphabet and '='. */
  function CharSymbol(c: char): (r: Option<int>)
    ensures r.Some? ==> 0 <= r.value <= Pad
  {
    if 'A' <= c <= 'Z' then Some(c as int - 'A' as int)
    else if 'a' <= c <= 'z' then Some(c as int - 'a' as int + 26)
    else if '0' <= c <= '9' then Some(c as int - '0' as int + 52)
    else if c == '+' then Some(62)
    else if c == '/' then Some(63)
    else if c == '=' then Some(Pad)
    else None
  }

  lemma SymbolCharInverse(v: int)
    requires 0 <= v <= Pad
    ensures CharSymbol(SymbolChar(v)) == Some(v)
  {
  }

  lemma CharSymbolInverse(c: char)
    requires CharSymbol(c).Some?
    ensures SymbolChar(CharSymbol(c).value) == c
  {
  }

  predicate IsSymbols(x: seq<int>)
  {
    forall i :: 0 <= i < |x| ==> 0 <= x[i] <= Pad
  }

  /** The text of a symbol sequence. */
  function Chars(x: seq<int>): (s: string)
    requires IsSymbols(x)
    ensures |s| == |x|
  {
    seq(|x|, i requires 0 <= i < |x| => SymbolChar(x[i]))
  }

  /** The symbols of a text, None when some character is outside the
      alphabet and '='. */
  function Symbols(s: string): (r: Option<seq<int>>)
    ensures r.Some? ==> |r.value| == |s| && IsSymbols(r.value)
  {
    if forall i :: 0 <= i < |s| ==> CharSymbol(s[i]).Some? then
      Some(seq(|s|, i requires 0 <= i < |s| && CharSymbol(s[i]).Some? => CharSymbol(s[i]).value))
    else None
  }

  lemma SymbolsOfChars(x: seq<int>)
    requires IsSymbols(x)
    ensures Symbols(Chars(x)) == Some(x)
  {
    var s := Chars(x);
    forall i | 0 <= i < |s| ensures CharSymbol(s[i]) == Some(x[i]) {
      SymbolCharInverse(x[i]);
    }
    assert Symbols(s).value == x;
  }

  lemma CharsOfSymbols(s: string)
    requires Symbols(s).Some?
    ensures Chars(Symbols(s).value) == s
  {
    forall i | 0 <= i < |s| ensures SymbolChar(Symbols(s).value[i]) == s[i] {
      CharSymbolInverse(s[i]);
    }
  }

  /** The four 6-bit groups of a 24-bit block b0 b1 b2, most significant
      first. */
  function Hi6(b0: int): int { b0 / 4 }
  function Mid6a(b0: int, b1: int): int { (b0 % 4) * 16 + b1 / 16 }
  function Mid6b(b1: int, b2: int): int { (b1 % 16) * 4 + b2 / 64 }
  function Lo6(b2: int): int { b2 % 64 }

  /** The three bytes of a block from its four 6-bit groups. */
  function Byte0(s0: int, s1: int): int { s0 * 4 + s1 / 16 }
  function Byte1(s1: int, s2: int): int { (s1 % 16) * 16 + s2 / 4 }
  function Byte2(s2: int, s3: int): int { (s2 % 4) * 64 + s3 }

  lemma SextetRanges(b0: int, b1: int, b2: int)
    requires 0 <= b0 < 256 && 0 <= b1 < 256 && 0 <= b2 < 256
    ensures 0 <= Hi6(b0) < 64 && 0 <= Mid6a(b0, b1) < 64 && 0 <= Mid6b(b1, b2) < 64 && 0 <= Lo6(b2) < 64
  {
  }

  lemma ByteRanges(s0: int, s1: int, s2: int, s3: int)
    requires 0 <= s0 < 64 && 0 <= s1 < 64 && 0 <= s2 < 64 && 0 <= s3 < 64
    ensures 0 <= Byte0(s0, s1) < 256 && 0 <= Byte1(s1, s2) < 256 && 0 <= Byte2(s2, s3) < 256
  {
  }

  lemma {:induction false} BytesFromSextets(b0: int, b1: int, b2: int)
    requires 0 <= b0 < 256 && 0 <= b1 < 256 && 0 <= b2 < 256
    ensures Byte0(Hi6(b0), Mid6a(b0, b1)) == b0
    ensures Byte1(Mid6a(b0, b1), Mid6b(b1, b2)) == b1
    ensures Byte2(Mid6b(b1, b2), Lo6(b2)) == b2
  {
    assert Mid6a(b0, b1) / 16 == b0 % 4 && Mid6a(b0, b1) % 16 == b1 / 16;
    assert Mid6b(b1, b2) / 4 == b1 % 16 && Mid6b(b1, b2) % 4 == b2 / 64;
  }

  lemma {:induction false} SextetsFromBytes(s0: int, s1: int, s2: int, s3: int)
    requires 0 <= s0 < 64 && 0 <= s1 < 64 && 0 <= s2 < 64 && 0 <= s3 < 64
    ensures Hi6(Byte0(s0, s1)) == s0
    ensures Mid6a(Byte0(s0, s1), Byte1(s1, s2)) == s1
    ensures Mid6b(Byte1(s1, s2), Byte2(s2, s3)) == s2
    ensures Lo6(Byte2(s2, s3)) == s3
  {
    assert Byte0(s0, s1) / 4 == s0 && Byte0(s0, s1) % 4 == s1 / 16;
    assert Byte1(s1, s2) / 16 == s1 % 16 && Byte1(s1, s2) % 16 == s2 / 4;
    assert Byte2(s2, s3) / 64 == s2 % 4 && Byte2(s2, s3) % 64 == s3;
  }

  /** The symbols of a byte sequence: four per started group of three, the
      groups a final 1 or 2 bytes leave unfilled taken as zero bits and the
      missing symbols as Pad. */
  function EncodeSymbols(bytes: seq<byte>): (x: seq<int>)
    ensures IsSymbols(x)
  {
    if |bytes| == 0 then []
    else
      var b0 := bytes[0] as int;
      var b1 := if |bytes| > 1 then bytes[1] as int else 0;
      var b2 := if |bytes| > 2 then bytes[2] as int else 0;
      SextetRanges(b0, b1, b2);
      if |bytes| == 1 then [Hi6(b0), Mid6a(b0, b1), Pad, Pad]
      else if |bytes| == 2 then [Hi6(b0), Mid6a(b0, b1), Mid6b(b1, b2), Pad]
      else [Hi6(b0), Mid6a(b0, b1), Mid6b(b1, b2), Lo6(b2)] + EncodeSymbols(bytes[3..])
  }

  /** The bytes of a symbol sequence, None unless it is made of whole
      groups of four, Pad only as the last one or two symbols of the last
      group, and zero in the bits the padding leaves over. */
  function DecodeSymbols(x: seq<int>): Option<seq<byte>>
    requires IsSymbols(x)
  {
    if |x| == 0 then Some([])
    else if |x| < 4 then None
    else
      var s0, s1, s2, s3 := x[0], x[1], x[2], x[3];
      if s0 == Pad || s1 == Pad then None
      else if |x| == 4 && s2 == Pad && s3 == Pad then
        if s1 % 16 != 0 then None
        else
          ByteRanges(s0, s1, 0, 0);
          Some([Byte0(s0, s1) as byte])
      else if |x| == 4 && s2 != Pad && s3 == Pad then
        if s2 % 4 != 0 then None
        else
          ByteRanges(s0, s1, s2, 0);
          Some([Byte0(s0, s1) as byte, Byte1(s1, s2) as byte])
      else if s2 == Pad || s3 == Pad then None
      else
        ByteRanges(s0, s1, s2, s3);
        match DecodeSymbols(x[4..])
        case None => None
        case Some(rest) =>
          Some([Byte0(s0, s1) as byte, Byte1(s1, s2) as byte, Byte2(s2, s3) as byte] + rest)
  }

  /** `Convert.ToBase64String`. */
  function Encode(bytes: seq<byte>): (s: string)
    ensures forall i :: 0 <= i < |s| ==> CharSymbol(s[i]).Some?
  {
    Chars(EncodeSymbols(bytes))
  }

  /** The inverse of Encode: None for any string Encode does not produce. */
  function Decode(s: string): Option<seq<byte>>
  {
    match Symbols(s)
    case None => None
    case Some(x) => DecodeSymbols(x)
  }

  /** Every started group of three bytes gives four characters. */
  lemma {:induction false} EncodeLength(bytes: seq<byte>)
    ensures |Encode(bytes)| == 4 * ((|bytes| + 2) / 3)
  {
    SymbolsLength(bytes);
  }

  lemma {:induction false} SymbolsLength(bytes: seq<byte>)
    ensures |EncodeSymbols(bytes)| == 4 * ((|bytes| + 2) / 3)
    decreases |bytes|
  {
    if |bytes| >= 3 {
      SymbolsLength(bytes[3..]);
      assert (|bytes| - 3 + 2) / 3 + 1 == (|bytes| + 2) / 3;
    }
  }

  lemma {:induction false} OneByteSymbols(b0: int)
    requires 0 <= b0 < 256
    ensures Mid6a(b0, 0) % 16 == 0 && Byte0(Hi6(b0), Mid6a(b0, 0)) == b0
  {
    assert Mid6a(b0, 0) / 16 == b0 % 4;
  }

  lemma {:induction false} TwoByteSymbols(b0: int, b1: int)
    requires 0 <= b0 < 256 && 0 <= b1 < 256
    ensures Mid6b(b1, 0) % 4 == 0
    ensures Byte0(Hi6(b0), Mid6a(b0, b1)) == b0 && Byte1(Mid6a(b0, b1), Mid6b(b1, 0)) == b1
  {
    assert Mid6a(b0, b1) / 16 == b0 % 4 && Mid6a(b0, b1) % 16 == b1 / 16;
    assert Mid6b(b1, 0) / 4 == b1 % 16;
  }

  lemma {:induction false} OnePadSymbols(s0: int, s1: int)
    requires 0 <= s0 < 64 && 0 <= s1 < 64 && s1 % 16 == 0
    ensures 0 <= Byte0(s0, s1) < 256
    ensures Hi6(Byte0(s0, s1)) == s0 && Mid6a(Byte0(s0, s1), 0) == s1
  {
    assert Byte0(s0, s1) / 4 == s0 && Byte0(s0, s1) % 4 == s1 / 16;
  }

  lemma {:induction false} TwoPadSymbols(s0: int, s1: int, s2: int)
    requires 0 <= s0 < 64 && 0 <= s1 < 64 && 0 <= s2 < 64 && s2 % 4 == 0
    ensures 0 <= Byte0(s0, s1) < 256 && 0 <= Byte1(s1, s2) < 256
    ensures Hi6(Byte0(s0, s1)) == s0 && Mid6a(Byte0(s0, s1), Byte1(s1, s2)) == s1
    ensures Mid6b(Byte1(s1, s2), 0) == s2
  {
    assert Byte0(s0, s1) / 4 == s0 && Byte0(s0, s1) % 4 == s1 / 16;
    assert Byte1(s1, s2) / 16 == s1 % 16 && Byte1(s1, s2) % 16 == s2 / 4;
  }

  lemma {:induction false} DecodeEncodeSymbols(bytes: seq<byte>)
    ensures DecodeSymbols(EncodeSymbols(bytes)) == Some(bytes)
    decreases |bytes|
  {
    if |bytes| == 1 {
      var b0 := bytes[0] as int;
      SextetRanges(b0, 0, 0);
      OneByteSymbols(b0);
      assert EncodeSymbols(bytes) == [Hi6(b0), Mid6a(b0, 0), Pad, Pad];
      assert [bytes[0]] == bytes;
    } else if |bytes| == 2 {
      var b0, b1 := bytes[0] as int, bytes[1] as int;
      SextetRanges(b0, b1, 0);
      TwoByteSymbols(b0, b1);
      assert EncodeSymbols(bytes) == [Hi6(b0), Mid6a(b0, b1), Mid6b(b1, 0), Pad];
      assert [bytes[0], bytes[1]] == bytes;
    } else if |bytes| >= 3 {
      var b0, b1, b2 := bytes[0] as int, bytes[1] as int, bytes[2] as int;
      SextetRanges(b0, b1, b2);
      BytesFromSextets(b0, b1, b2);
      var rest := EncodeSymbols(bytes[3..]);
      assert EncodeSymbols(bytes) == [Hi6(b0), Mid6a(b0, b1), Mid6b(b1, b2), Lo6(b2)] + rest;
      DecodeEncodeSymbols(bytes[3..]);
      assert [bytes[0], bytes[1], bytes[2]] + bytes[3..] == bytes;
    }
  }

  lemma {:induction false} EncodeDecodeSymbols(x: seq<int>)
    requires IsSymbols(x) && DecodeSymbols(x).Some?
    ensures EncodeSymbols(DecodeSymbols(x).value) == x
    decreases |x|
  {
    if |x| > 0 {
      var s0, s1, s2, s3 := x[0], x[1], x[2], x[3];
      if |x| == 4 && s2 == Pad && s3 == Pad {
        OnePadSymbols(s0, s1);
        assert DecodeSymbols(x).value == [Byte0(s0, s1) as byte];
        assert x == [s0, s1, Pad, Pad];
      } else if |x| == 4 && s3 == Pad {
        TwoPadSymbols(s0, s1, s2);
        assert DecodeSymbols(x).value == [Byte0(s0, s1) as byte, Byte1(s1, s2) as byte];
        assert x == [s0, s1, s2, Pad];
      } else {
        ByteRanges(s0, s1, s2, s3);
        SextetsFromBytes(s0, s1, s2, s3);
        assert IsSymbols(x[4..]);
        var rest := DecodeSymbols(x[4..]).value;
        var bytes := [Byte0(s0, s1) as byte, Byte1(s1, s2) as byte, Byte2(s2, s3) as byte] + rest;
        assert DecodeSymbols(x).value == bytes;
        EncodeDecodeSymbols(x[4..]);
        assert bytes[3..] == rest;
        assert x == [s0, s1, s2, s3] + x[4..];
      }
    }
  }

  /** Decoding what was encoded gives the bytes back. */
  lemma DecodeEncode(bytes: seq<byte>)
    ensures Decode(Encode(bytes)) == Some(bytes)
  {
    SymbolsOfChars(EncodeSymbols(bytes));
    DecodeEncodeSymbols(bytes);
  }

  /** Only encodings decode: whatever Decode accepts, Encode gives back. */
  lemma EncodeDecode(s: string)
    requires Decode(s).Some?
    ensures Encode(Decode(s).value) == s
  {
    EncodeDecodeSymbols(Symbols(s).value);
    CharsOfSymbols(s);
  }
}
