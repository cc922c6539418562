/** Base16 (section 8 of RFC 4648) as Go's `encoding/hex` decodes it, and
    the lowercase two-digit form that `%02x` prints. */
module Hex {
  import opened Wrappers

  /** A hex digit of either case. */
  predicate IsHexDigit(c: char) {
    '0' <= c <= '9' || 'a' <= c <= 'f' || 'A' <= c <= 'F'
  }

  predicate AllHex(s: string) {
    forall i :: 0 <= i < |s| ==> IsHexDigit(s[i])
  }

  function HexValue(c: char): (v: nat)
    requires IsHexDigit(c)
    ensures v < 16
  {
    if '0' <= c <= '9' then (c as int) - ('0' as int)
    else if 'a' <= c <= 'f' then (c as int) - ('a' as int) + 10
    else (c as int) - ('A' as int) + 10
  }

  /** The lowercase digit for a value below 16. */
  function LowerDigit(v: nat): (c: char)
    requires v < 16
    ensures IsHexDigit(c) && HexValue(c) == v
    ensures !('A' <= c <= 'F')
  {
    if v < 10 then (('0' as int) + v) as char else (('a' as int) + v - 10) as char
  }

  /** Upper-case hex letters to lower case; every other character unchanged. */
  function ToLower(c: char): char {
    if 'A' <= c <= 'F' then ((c as int) - ('A' as int) + ('a' as int)) as char else c
  }

  function LowerAll(s: string): (r: string)
    ensures |r| == |s|
  {
    if |s| == 0 then [] else [ToLower(s[0])] + LowerAll(s[1..])
  }

  /** `%02x` of one byte: two lowercase digits, high nibble first. */
  function EncodeByte(b: Byte): (s: string)
    ensures |s| == 2 && AllHex(s)
    ensures !('A' <= s[0] <= 'F') && !('A' <= s[1] <= 'F')
    ensures 16 * HexValue(s[0]) + HexValue(s[1]) == b
  {
    [LowerDigit(b / 16), LowerDigit(b % 16)]
  }

  /** The lowercase hex encoding of a byte sequence. */
  function Encode(bs: seq<Byte>): (s: string)
    ensures |s| == 2 * |bs|
  {
    if |bs| == 0 then [] else EncodeByte(bs[0]) + Encode(bs[1..])
  }

  /** The first byte of the UTF-8 encoding of `c` (section 3 of RFC 3629).
      `hex.DecodeString` works on the bytes of a Go string, so this is the
      byte it reports for a character that is not a hex digit. */
  function LeadByte(c: char): (b: Byte)
    ensures (c as int) < 0x80 ==> b == c as int
    ensures (c as int) >= 0x80 ==> 0xC0 <= b
  {
    var v := c as int;
    if v < 0x80 then v
    else if v < 0x800 then 0xC0 + v / 0x40
    else if v < 0x1_0000 then 0xE0 + v / 0x1000
    else 0xF0 + v / 0x4_0000
  }

  /** The two errors of `hex.DecodeString`: `InvalidByteError` with the
      offending byte, and `ErrLength`. */
  datatype HexError = InvalidByte(b: Byte) | OddLength

  /** `hex.DecodeString`: pairs of digits, high nibble first. The first
      character that is not a hex digit is reported, by its first byte; a
      length error only when every character is a digit. Hex digits are
      ASCII, so up to the first non-digit, characters and bytes coincide. */
  function Decode(s: string): Result<seq<Byte>, HexError> {
    if |s| == 0 then Ok([])
    else if !IsHexDigit(s[0]) then Err(InvalidByte(LeadByte(s[0])))
    else if |s| == 1 then Err(OddLength)
    else if !IsHexDigit(s[1]) then Err(InvalidByte(LeadByte(s[1])))
    else match Decode(s[2..])
      case Ok(rest) => Ok([16 * HexValue(s[0]) + HexValue(s[1])] + rest)
      case Err(e) => Err(e)
  }

  lemma AllHexTail(s: string)
    requires |s| >= 2 && AllHex(s)
    ensures AllHex(s[2..])
  {
    forall i | 0 <= i < |s| - 2 ensures IsHexDigit(s[2..][i]) {
      assert s[2..][i] == s[i + 2];
    }
  }

  /** Decoding succeeds exactly on even-length strings of hex digits. */
  lemma {:induction false} DecodeOkIff(s: string)
    ensures Decode(s).Ok? <==> |s| % 2 == 0 && AllHex(s)
  {
    if |s| >= 2 {
      DecodeOkIff(s[2..]);
      if AllHex(s) {
        AllHexTail(s);
      }
      if IsHexDigit(s[0]) && IsHexDigit(s[1]) && AllHex(s[2..]) {
        forall i | 0 <= i < |s| ensures IsHexDigit(s[i]) {
          if i >= 2 {
            assert s[i] == s[2..][i - 2];
          }
        }
      }
    }
  }

  /** On success, byte k is the value of characters 2k and 2k+1. */
  lemma {:induction false} DecodeValues(s: string)
    requires |s| % 2 == 0 && AllHex(s)
    ensures Decode(s).Ok?
    ensures |Decode(s).value| == |s| / 2
    ensures forall k :: 0 <= k < |s| / 2 ==>
      Decode(s).value[k] == 16 * HexValue(s[2 * k]) + HexValue(s[2 * k + 1])
  {
    DecodeOkIff(s);
    if |s| >= 2 {
      AllHexTail(s);
      DecodeValues(s[2..]);
      var v := Decode(s).value;
      var rest := Decode(s[2..]).value;
      assert v == [16 * HexValue(s[0]) + HexValue(s[1])] + rest;
      forall k | 1 <= k < |s| / 2
        ensures v[k] == 16 * HexValue(s[2 * k]) + HexValue(s[2 * k + 1])
      {
        assert v[k] == rest[k - 1];
        assert s[2 * k] == s[2..][2 * (k - 1)];
        assert s[2 * k + 1] == s[2..][2 * (k - 1) + 1];
      }
    }
  }

  /** The error reported is the first byte of the first non-hex character:
      the character itself when it is ASCII, a UTF-8 lead byte (0xC0 or
      above) otherwise. */
  lemma {:induction false} DecodeFirstInvalid(s: string, i: nat)
    requires i < |s| && !IsHexDigit(s[i])
    requires forall j :: 0 <= j < i ==> IsHexDigit(s[j])
    ensures Decode(s) == Err(InvalidByte(LeadByte(s[i])))
    ensures (s[i] as int) < 0x80 ==> Decode(s) == Err(InvalidByte(s[i] as int))
    ensures (s[i] as int) >= 0x80 ==> Decode(s).error.b >= 0xC0
  {
    if i >= 2 {
      DecodeFirstInvalid(s[2..], i - 2);
    }
  }

  /** A non-ASCII character is reported by its UTF-8 lead byte: "é"
      (U+00E9, bytes C3 A9) gives 0xC3, "€" (U+20AC, bytes E2 82 AC) 0xE2. */
  lemma NonAsciiReportsLeadByte()
    ensures Decode("\U{e9}") == Err(InvalidByte(0xC3))
    ensures Decode("0\U{20ac}") == Err(InvalidByte(0xE2))
  {
  }

  /** An odd-length string of hex digits fails with the length error. */
  lemma {:induction false} DecodeOddLength(s: string)
    requires |s| % 2 == 1 && AllHex(s)
    ensures Decode(s) == Err(OddLength)
  {
    if |s| >= 2 {
      AllHexTail(s);
      DecodeOddLength(s[2..]);
    }
  }

  /** Decoding the lowercase encoding of any bytes gives them back. */
  lemma {:induction false} DecodeEncode(bs: seq<Byte>)
    ensures Decode(Encode(bs)) == Ok(bs)
  {
    if |bs| > 0 {
      var s := Encode(bs);
      var e := EncodeByte(bs[0]);
      assert s == e + Encode(bs[1..]);
      assert s[0] == e[0] && s[1] == e[1];
      assert s[2..] == Encode(bs[1..]);
      DecodeEncode(bs[1..]);
      assert bs == [bs[0]] + bs[1..];
    }
  }

  /** The value of a digit, printed back, is the digit in lower case. */
  lemma LowerDigitOfValue(c: char)
    requires IsHexDigit(c)
    ensures LowerDigit(HexValue(c)) == ToLower(c)
  {
  }

  /** Re-encoding what was decoded gives the input in lower case. */
  lemma {:induction false} EncodeDecode(s: string)
    requires Decode(s).Ok?
    ensures Encode(Decode(s).value) == LowerAll(s)
  {
    if |s| >= 2 {
      var hi, lo := HexValue(s[0]), HexValue(s[1]);
      var b: Byte := 16 * hi + lo;
      var rest := Decode(s[2..]).value;
      assert Decode(s).value == [b] + rest;
      assert b / 16 == hi && b % 16 == lo;
      LowerDigitOfValue(s[0]);
      LowerDigitOfValue(s[1]);
      assert EncodeByte(b) == [ToLower(s[0]), ToLower(s[1])];
      EncodeDecode(s[2..]);
      assert ([b] + rest)[1..] == rest;
      assert LowerAll(s) == [ToLower(s[0])] + ([ToLower(s[1])] + LowerAll(s[2..]));
    }
  }
}
