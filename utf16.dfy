/** UTF-16 little-endian, as `Encoding.Unicode.GetBytes` writes a string:
    each character becomes one 16-bit code unit, or a surrogate pair for a
    character above U+FFFF, and each code unit two bytes, low byte first.
    The decoder is the strict inverse. */
module Utf16 {
  import opened Wrappers

  predicate IsHighSurrogate(u: int) { 0xD800 <= u < 0xDC00 }
  predicate IsLowSurrogate(u: int) { 0xDC00 <= u < 0xE000 }

  predicate IsUnits(us: seq<int>)
  {
    forall i :: 0 <= i < |us| ==> 0 <= us[i] < 0x1_0000
  }

  /** The code units of one character. */
  function CharUnits(c: char): (us: seq<int>)
    ensures IsUnits(us) && 1 <= |us| <= 2
  {
    var v := c as int;
    if v < 0x1_0000 then [v]
    else [0xD800 + (v - 0x1_0000) / 0x400, 0xDC00 + (v - 0x1_0000) % 0x400]
  }

  /** The code units of a string. */
  function EncodeUnits(s: string): (us: seq<int>)
    ensures IsUnits(us) && |s| <= |us| <= 2 * |s|
  {
    if s == [] then [] else CharUnits(s[0]) + EncodeUnits(s[1..])
  }

  /** The string of a code-unit sequence, None when a surrogate is unpaired. */
  function DecodeUnits(us: seq<int>): Option<string>
    requires IsUnits(us)
  {
    if us == [] then Some([])
    else if IsLowSurrogate(us[0]) then None
    else if IsHighSurrogate(us[0]) then
      if |us| < 2 || !IsLowSurrogate(us[1]) then None
      else
        match DecodeUnits(us[2..])
        case None => None
        case Some(rest) =>
          Some([(0x1_0000 + (us[0] - 0xD800) * 0x400 + (us[1] - 0xDC00)) as char] + rest)
    else
      match DecodeUnits(us[1..])
      case None => None
      case Some(rest) => Some([us[0] as char] + rest)
  }

  /** Two bytes per code unit, low byte first. */
  function UnitBytes(us: seq<int>): (bytes: seq<byte>)
    requires IsUnits(us)
    ensures |bytes| == 2 * |us|
  {
    if us == [] then [] else [(us[0] % 256) as byte, (us[0] / 256) as byte] + UnitBytes(us[1..])
  }

  /** The code units of a byte sequence, None for an odd length. */
  function BytesUnits(bytes: seq<byte>): (r: Option<seq<int>>)
    ensures r.Some? ==> IsUnits(r.value)
  {
    if bytes == [] then Some([])
    else if |bytes| == 1 then None
    else
      match BytesUnits(bytes[2..])
      case None => None
      case Some(rest) => Some([bytes[0] as int + 256 * bytes[1] as int] + rest)
  }

  /** `Encoding.Unicode.GetBytes`. */
  function Encode(s: string): (bytes: seq<byte>)
    ensures |bytes| % 2 == 0 && 2 * |s| <= |bytes| <= 4 * |s|
  {
    UnitBytes(EncodeUnits(s))
  }

  /** The inverse of Encode: None for an odd length or an unpaired
      surrogate. */
  function Decode(bytes: seq<byte>): Option<string>
  {
    match BytesUnits(bytes)
    case None => None
    case Some(us) => DecodeUnits(us)
  }

  lemma {:induction false} CharUnitsRoundTrip(c: char, rest: seq<int>)
    requires IsUnits(rest)
    ensures IsUnits(CharUnits(c) + rest)
    ensures DecodeUnits(CharUnits(c) + rest) ==
      match DecodeUnits(rest)
      case None => None
      case Some(tail) => Some([c] + tail)
  {
    var us := CharUnits(c) + rest;
    var v := c as int;
    if v < 0x1_0000 {
      assert us[1..] == rest;
    } else {
      var hi, lo := 0xD800 + (v - 0x1_0000) / 0x400, 0xDC00 + (v - 0x1_0000) % 0x400;
      assert us[0] == hi && us[1] == lo && us[2..] == rest;
      assert 0x1_0000 + (hi - 0xD800) * 0x400 + (lo - 0xDC00) == v;
    }
  }

  lemma {:induction false} DecodeEncodeUnits(s: string)
    ensures DecodeUnits(EncodeUnits(s)) == Some(s)
  {
    if s != [] {
      DecodeEncodeUnits(s[1..]);
      CharUnitsRoundTrip(s[0], EncodeUnits(s[1..]));
      assert [s[0]] + s[1..] == s;
    }
  }

  lemma PairUnits(hi: int, lo: int)
    requires IsHighSurrogate(hi) && IsLowSurrogate(lo)
    ensures CharUnits((0x1_0000 + (hi - 0xD800) * 0x400 + (lo - 0xDC00)) as char) == [hi, lo]
  {
    var v := 0x1_0000 + (hi - 0xD800) * 0x400 + (lo - 0xDC00);
    assert (v - 0x1_0000) / 0x400 == hi - 0xD800 && (v - 0x1_0000) % 0x400 == lo - 0xDC00;
  }

  lemma {:induction false} EncodeDecodeUnits(us: seq<int>)
    requires IsUnits(us) && DecodeUnits(us).Some?
    ensures EncodeUnits(DecodeUnits(us).value) == us
    decreases |us|
  {
    if us != [] {
      var s := DecodeUnits(us).value;
      if IsHighSurrogate(us[0]) {
        PairUnits(us[0], us[1]);
        assert CharUnits(s[0]) == [us[0], us[1]];
        EncodeDecodeUnits(us[2..]);
        assert s[1..] == DecodeUnits(us[2..]).value;
        assert us == [us[0], us[1]] + us[2..];
      } else {
        assert CharUnits(s[0]) == [us[0]];
        EncodeDecodeUnits(us[1..]);
        assert s[1..] == DecodeUnits(us[1..]).value;
        assert us == [us[0]] + us[1..];
      }
    }
  }

  lemma {:induction false} BytesUnitsRoundTrip(us: seq<int>)
    requires IsUnits(us)
    ensures BytesUnits(UnitBytes(us)) == Some(us)
  {
    if us != [] {
      var bytes := UnitBytes(us);
      BytesUnitsRoundTrip(us[1..]);
      assert bytes[2..] == UnitBytes(us[1..]);
      assert [us[0]] + us[1..] == us;
    }
  }

  lemma {:induction false} UnitBytesRoundTrip(bytes: seq<byte>)
    requires BytesUnits(bytes).Some?
    ensures UnitBytes(BytesUnits(bytes).value) == bytes
  {
    if bytes != [] {
      var us := BytesUnits(bytes).value;
      UnitBytesRoundTrip(bytes[2..]);
      assert us[1..] == BytesUnits(bytes[2..]).value;
      assert bytes == [bytes[0], bytes[1]] + bytes[2..];
    }
  }

  /** Decoding what was encoded gives the string back. */
  lemma DecodeEncode(s: string)
    ensures Decode(Encode(s)) == Some(s)
  {
    BytesUnitsRoundTrip(EncodeUnits(s));
    DecodeEncodeUnits(s);
  }

  /** Only encodings decode: whatever Decode accepts, Encode gives back. */
  lemma EncodeDecode(bytes: seq<byte>)
    requires Decode(bytes).Some?
    ensures Encode(Decode(bytes).value) == bytes
  {
    EncodeDecodeUnits(BytesUnits(bytes).value);
    UnitBytesRoundTrip(bytes);
  }
}
