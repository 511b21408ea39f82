/** Byte-level helpers shared by the wire codec: the big-endian integer
    fields of Python's `struct` module (formats `!H` and `!l`) and the
    hexadecimal text form of `str.decode('hex')` and `binascii.hexlify`. */
module Bytes {
  import opened Wrappers

  type byte = b: int | 0 <= b < 256

  const TwoTo16: nat := 0x1_0000
  const TwoTo31: nat := 0x8000_0000
  const TwoTo32: nat := 0x1_0000_0000

  // ---------------------------------------------------------------------
  // `!H`: unsigned 16-bit, most significant byte first

  /** The field `struct.pack('!H', n)` writes; `n` must fit in 16 bits. */
  function U16(n: nat): (r: seq<byte>)
    requires n < TwoTo16
    ensures |r| == 2 && ReadU16(r) == n
  {
    [n / 256, n % 256]
  }

  /** The value `struct.unpack('!H', b)` reads. */
  function ReadU16(b: seq<byte>): (n: nat)
    requires |b| == 2
    ensures n < TwoTo16
  {
    b[0] as int * 256 + b[1]
  }

  // ---------------------------------------------------------------------
  // `!l`: signed 32-bit two's complement, most significant byte first

  function ReadU32(b: seq<byte>): (n: nat)
    requires |b| == 4
    ensures n < TwoTo32
  {
    b[0] as int * 0x100_0000 + b[1] as int * 0x1_0000 + b[2] as int * 0x100 + b[3]
  }

  /** The value `struct.unpack('!l', b)` reads: negative exactly when the
      top bit of the first byte is set. */
  function ReadI32(b: seq<byte>): (v: int)
    requires |b| == 4
    ensures -(TwoTo31 as int) <= v < TwoTo31
    ensures v < 0 <==> b[0] >= 128
  {
    var u := ReadU32(b);
    if u >= TwoTo31 then u - TwoTo32 else u
  }

  /** The four bytes `struct.pack('!l', v)` writes. */
  function I32(v: int): (r: seq<byte>)
    requires -(TwoTo31 as int) <= v < TwoTo31
    ensures |r| == 4 && ReadI32(r) == v
  {
    var u := if v < 0 then v + TwoTo32 else v;
    var u1 := u / 256;
    var u2 := u1 / 256;
    [u2 / 256, u2 % 256, u1 % 256, u % 256]
  }

  /** Reading four bytes and writing the value back gives the same bytes. */
  lemma I32OfReadI32(b: seq<byte>)
    requires |b| == 4
    ensures I32(ReadI32(b)) == b
  {
    var u := ReadU32(b);
    var v := ReadI32(b);
    assert (if v < 0 then v + TwoTo32 else v) == u;
    var u1 := u / 256;
    var u2 := u1 / 256;
    assert u == (b[0] as int * 0x1_0000 + b[1] as int * 0x100 + b[2]) * 256 + b[3];
    assert u1 == b[0] as int * 0x1_0000 + b[1] as int * 0x100 + b[2] && u % 256 == b[3];
    assert u1 == (b[0] as int * 0x100 + b[1]) * 256 + b[2];
    assert u2 == b[0] as int * 0x100 + b[1] && u1 % 256 == b[2];
    assert u2 / 256 == b[0] && u2 % 256 == b[1];
  }

  // ---------------------------------------------------------------------
  // Hexadecimal text

  const LowerHexDigits: string := "0123456789abcdef"

  predicate IsLowerHexDigit(c: char)
  {
    '0' <= c <= '9' || 'a' <= c <= 'f'
  }

  /** The digit the codec writes for a nibble (lower case, as `hexlify`). */
  function HexDigit(n: nat): (c: char)
    requires n < 16
    ensures IsLowerHexDigit(c)
    ensures HexValue(c) == Some(n)
  {
    LowerHexDigits[n]
  }

  /** The nibble a hexadecimal digit denotes; `str.decode('hex')` accepts
      both cases and rejects everything else. */
  function HexValue(c: char): (r: Option<nat>)
    ensures r.Some? ==> r.value < 16
  {
    if '0' <= c <= '9' then Some(c as int - '0' as int)
    else if 'a' <= c <= 'f' then Some(c as int - 'a' as int + 10)
    else if 'A' <= c <= 'F' then Some(c as int - 'A' as int + 10)
    else None
  }

  /** The digit folded to lower case (`'A'..'F'` become `'a'..'f'`). */
  function LowerDigit(c: char): char
  {
    if 'A' <= c <= 'F' then (c as int - 'A' as int + 'a' as int) as char else c
  }

  function Lower(s: string): (r: string)
    ensures |r| == |s| && forall i :: 0 <= i < |s| ==> r[i] == LowerDigit(s[i])
  {
    seq(|s|, i requires 0 <= i < |s| => LowerDigit(s[i]))
  }

  /** `binascii.hexlify(b)`: two lower-case digits per byte, high nibble first. */
  function HexEncode(b: seq<byte>): (s: string)
    ensures |s| == 2 * |b|
  {
    if b == [] then [] else [HexDigit(b[0] / 16), HexDigit(b[0] % 16)] + HexEncode(b[1..])
  }

  lemma HexEncodeCons(x: byte, rest: seq<byte>)
    ensures HexEncode([x] + rest) == [HexDigit(x / 16), HexDigit(x % 16)] + HexEncode(rest)
  {
    assert ([x] + rest)[1..] == rest;
  }

  /** Byte `i` is written as the characters `2 i` (its high nibble) and
      `2 i + 1` (its low nibble). */
  lemma {:induction false} HexEncodeDigits(b: seq<byte>)
    ensures forall i :: 0 <= i < |b| ==>
      HexEncode(b)[2 * i] == HexDigit(b[i] / 16) && HexEncode(b)[2 * i + 1] == HexDigit(b[i] % 16)
    decreases |b|
  {
    if b != [] {
      var rest := b[1..];
      HexEncodeDigits(rest);
      forall i | 1 <= i < |b|
        ensures HexEncode(b)[2 * i] == HexDigit(b[i] / 16) && HexEncode(b)[2 * i + 1] == HexDigit(b[i] % 16)
      {
        assert rest[i - 1] == b[i];
        assert HexEncode(b)[2 * i] == HexEncode(rest)[2 * (i - 1)];
        assert HexEncode(b)[2 * i + 1] == HexEncode(rest)[2 * (i - 1) + 1];
      }
    }
  }

  /** `s.decode('hex')`: `None` where Python raises `TypeError` (an odd
      length or a character that is not a hexadecimal digit). */
  function HexDecode(s: string): (r: Option<seq<byte>>)
    ensures r.Some? ==> 2 * |r.value| == |s|
    ensures r.Some? && s != [] ==>
      && HexValue(s[0]).Some? && HexValue(s[1]).Some?
      && r.value[0] == HexValue(s[0]).value * 16 + HexValue(s[1]).value
    decreases |s|
  {
    if |s| == 0 then Some([])
    else if |s| == 1 then None
    else
      match (HexValue(s[0]), HexValue(s[1]), HexDecode(s[2..]))
      case (Some(hi), Some(lo), Some(rest)) => Some([hi * 16 + lo] + rest)
      case _ => None
  }

  predicate IsHexText(s: string)
  {
    |s| % 2 == 0 && forall i :: 0 <= i < |s| ==> HexValue(s[i]).Some?
  }

  /** Decoding the digits `hexlify` writes gives back the original bytes. */
  lemma {:induction false} HexRoundTrip(b: seq<byte>)
    ensures HexDecode(HexEncode(b)) == Some(b)
    decreases |b|
  {
    if b != [] {
      var x, rest := b[0], b[1..];
      var hi, lo := x / 16, x % 16;
      assert b == [hi * 16 + lo] + rest;
      HexEncodeCons(x, rest);
      HexRoundTrip(rest);
      var s := HexEncode(b);
      assert s[0] == HexDigit(hi) && s[1] == HexDigit(lo) && s[2..] == HexEncode(rest);
    }
  }

  /** `decode('hex')` succeeds exactly on even-length text made of
      hexadecimal digits. */
  lemma {:induction false} HexDecodeSucceedsIff(s: string)
    ensures HexDecode(s).Some? <==> IsHexText(s)
  {
    if |s| >= 2 {
      HexDecodeSucceedsIff(s[2..]);
      assert forall i :: 2 <= i < |s| ==> s[2..][i - 2] == s[i];
      if IsHexText(s) {
        assert IsHexText(s[2..]);
      }
    } else if |s| == 1 {
      assert !IsHexText(s);
    }
  }

  /** A successful `decode('hex')` yields one byte per two digits, and
      encoding that result gives the text back folded to lower case. */
  lemma {:induction false} HexDecodeThenEncode(s: string)
    requires HexDecode(s).Some?
    ensures 2 * |HexDecode(s).value| == |s|
    ensures HexEncode(HexDecode(s).value) == Lower(s)
    decreases |s|
  {
    if |s| >= 2 {
      var hi, lo := HexValue(s[0]).value, HexValue(s[1]).value;
      var rest := HexDecode(s[2..]).value;
      HexDecodeThenEncode(s[2..]);
      assert HexDecode(s).value == [hi * 16 + lo] + rest;
      HexEncodeCons(hi * 16 + lo, rest);
      assert (hi * 16 + lo) / 16 == hi && (hi * 16 + lo) % 16 == lo;
      DigitOfValue(s[0]);
      DigitOfValue(s[1]);
      LowerCons(s);
    }
  }

  /** The lower-case digit written back for a digit read in either case. */
  lemma DigitOfValue(c: char)
    requires HexValue(c).Some?
    ensures HexDigit(HexValue(c).value) == LowerDigit(c)
  {
  }

  lemma LowerCons(s: string)
    requires |s| >= 2
    ensures Lower(s) == [LowerDigit(s[0]), LowerDigit(s[1])] + Lower(s[2..])
  {
  }

  // ---------------------------------------------------------------------
  // Byte strings made of chunks

  /** The chunks joined in order, as `StringIO.getvalue()` returns what was
      written to it. */
  function Concat(chunks: seq<seq<byte>>): (r: seq<byte>)
    decreases |chunks|
  {
    if chunks == [] then [] else Concat(chunks[..|chunks| - 1]) + chunks[|chunks| - 1]
  }
}
