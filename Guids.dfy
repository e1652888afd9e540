/**
 * A .NET `System.Guid` as its 16 bytes in the order `Guid.ToByteArray` and
 * `Guid.TryWriteBytes` give them: the first three fields (4, 2 and 2 bytes)
 * little-endian, the last eight bytes as they are. The "D" text form prints
 * the fields most significant byte first, in the textual layout of RFC 4122
 * section 3: 8-4-4-4-12 hexadecimal digits separated by hyphens.
 */
module Guids {
  import opened Wrappers
  import Text

  type Byte = x: int | 0 <= x < 256

  type Guid = b: seq<Byte> | |b| == 16 witness [0, 0, 0, 0, 0, 0, 0, 0, 0, 0, 0, 0, 0, 0, 0, 0]

  const LowerHexDigits := "0123456789abcdef"
  const UpperHexDigits := "0123456789ABCDEF"

  predicate IsHexDigit(c: char)
  {
    '0' <= c <= '9' || 'a' <= c <= 'f' || 'A' <= c <= 'F'
  }

  function HexValue(c: char): (v: int)
    requires IsHexDigit(c)
    ensures 0 <= v < 16
    ensures LowerHexDigits[v] == Text.LowerAscii(c) && UpperHexDigits[v] == Text.UpperAscii(c)
  {
    if c <= '9' then c as int - '0' as int
    else if c <= 'F' then c as int - 'A' as int + 10
    else c as int - 'a' as int + 10
  }

  lemma HexValueOfDigit(v: int)
    requires 0 <= v < 16
    ensures IsHexDigit(LowerHexDigits[v]) && HexValue(LowerHexDigits[v]) == v
    ensures IsHexDigit(UpperHexDigits[v]) && HexValue(UpperHexDigits[v]) == v
  {
  }

  /** Positions of the four hyphens in the "D" form. */
  predicate IsHyphenPosition(i: int)
  {
    i == 8 || i == 13 || i == 18 || i == 23
  }

  /** The byte whose hex digits stand at character position `i` of the "D" form. */
  function ByteAt(i: int): (j: int)
    requires 0 <= i < 36 && !IsHyphenPosition(i)
    ensures 0 <= j < 16
  {
    if i < 8 then 3 - i / 2
    else if i < 13 then 5 - (i - 9) / 2
    else if i < 18 then 7 - (i - 14) / 2
    else if i < 23 then 8 + (i - 19) / 2
    else 10 + (i - 24) / 2
  }

  /** Whether position `i` holds the high (first) digit of its byte. */
  predicate IsHighDigit(i: int)
  {
    if i < 8 then i % 2 == 0
    else if i < 13 then (i - 9) % 2 == 0
    else if i < 18 then (i - 14) % 2 == 0
    else if i < 23 then (i - 19) % 2 == 0
    else (i - 24) % 2 == 0
  }

  /** Position of the high digit of byte `j` in the "D" form. */
  function HighDigitPosition(j: int): (i: int)
    requires 0 <= j < 16
    ensures 0 <= i < 35 && !IsHyphenPosition(i) && !IsHyphenPosition(i + 1)
    ensures ByteAt(i) == j && IsHighDigit(i)
    ensures ByteAt(i + 1) == j && !IsHighDigit(i + 1)
  {
    if j < 4 then 6 - 2 * j
    else if j < 6 then 9 + 2 * (5 - j)
    else if j < 8 then 14 + 2 * (7 - j)
    else if j < 10 then 19 + 2 * (j - 8)
    else 24 + 2 * (j - 10)
  }

  lemma HighDigitPositionOf(i: int)
    requires 0 <= i < 36 && !IsHyphenPosition(i)
    ensures IsHighDigit(i) ==> HighDigitPosition(ByteAt(i)) == i
    ensures !IsHighDigit(i) ==> HighDigitPosition(ByteAt(i)) + 1 == i
  {
  }

  /** `Guid.ToString("D")`: lower-case hex, most significant byte of each field first. */
  function FormatD(g: Guid): (s: string)
    ensures |s| == 36
  {
    seq(36, i requires 0 <= i < 36 =>
      if IsHyphenPosition(i) then '-'
      else if IsHighDigit(i) then LowerHexDigits[g[ByteAt(i)] / 16]
      else LowerHexDigits[g[ByteAt(i)] % 16])
  }

  /** The strings `Guid.TryParseExact(s, "D", ...)` accepts: 8-4-4-4-12 hex digits, in either case. */
  predicate IsFormatD(s: string)
  {
    |s| == 36 && forall i :: 0 <= i < 36 ==> if IsHyphenPosition(i) then s[i] == '-' else IsHexDigit(s[i])
  }

  /** `Guid.TryParseExact(s, "D", out id)`. */
  function ParseD(s: string): Option<Guid>
  {
    if IsFormatD(s) then
      Some(seq(16, j requires 0 <= j < 16 =>
        HexValue(s[HighDigitPosition(j)]) * 16 + HexValue(s[HighDigitPosition(j) + 1])))
    else None
  }

  /** Every GUID's "D" text parses back to the same GUID. */
  lemma ParseFormatD(g: Guid)
    ensures ParseD(FormatD(g)) == Some(g)
  {
    var s := FormatD(g);
    forall i | 0 <= i < 36 && !IsHyphenPosition(i) ensures IsHexDigit(s[i]) {
      HexValueOfDigit(g[ByteAt(i)] / 16);
      HexValueOfDigit(g[ByteAt(i)] % 16);
    }
    assert IsFormatD(s);
    var h := ParseD(s).value;
    forall j | 0 <= j < 16 ensures h[j] == g[j] {
      var p := HighDigitPosition(j);
      HexValueOfDigit(g[j] / 16);
      HexValueOfDigit(g[j] % 16);
    }
    assert h == g;
  }

  /** What a parse accepts is, ignoring the case of its letters, the "D" text of its result. */
  lemma ParsedIsFormatD(s: string, g: Guid)
    requires ParseD(s) == Some(g)
    ensures Text.ToLowerAscii(s) == FormatD(g)
  {
    var f := FormatD(g);
    var l := Text.ToLowerAscii(s);
    forall i | 0 <= i < 36 ensures l[i] == f[i] {
      if !IsHyphenPosition(i) {
        DigitOfParsed(s, g, i);
      }
    }
  }

  lemma DigitOfParsed(s: string, g: Guid, i: int)
    requires ParseD(s) == Some(g)
    requires 0 <= i < 36 && !IsHyphenPosition(i)
    ensures Text.LowerAscii(s[i]) == FormatD(g)[i]
  {
    var j := ByteAt(i);
    HighDigitPositionOf(i);
    var p := HighDigitPosition(j);
    ParsedByte(s, g, j);
    var hi, lo := HexValue(s[p]), HexValue(s[p + 1]);
    SplitByte(hi, lo);
    assert g[j] / 16 == hi && g[j] % 16 == lo;
    var f := FormatD(g);
    if IsHighDigit(i) {
      assert f[i] == LowerHexDigits[g[j] / 16];
    } else {
      assert f[i] == LowerHexDigits[g[j] % 16];
    }
  }

  /** Byte `j` of a parsed GUID is the value of its two hex digits. */
  lemma ParsedByte(s: string, g: Guid, j: int)
    requires ParseD(s) == Some(g)
    requires 0 <= j < 16
    ensures IsHexDigit(s[HighDigitPosition(j)]) && IsHexDigit(s[HighDigitPosition(j) + 1])
    ensures g[j] == HexValue(s[HighDigitPosition(j)]) * 16 + HexValue(s[HighDigitPosition(j) + 1])
  {
  }

  lemma SplitByte(hi: int, lo: int)
    requires 0 <= hi < 16 && 0 <= lo < 16
    ensures (hi * 16 + lo) / 16 == hi && (hi * 16 + lo) % 16 == lo
  {
  }

  /** Every case variant of the "D" text of `g` parses as `g`. */
  lemma FormatDParses(s: string, g: Guid)
    requires Text.ToLowerAscii(s) == FormatD(g)
    ensures ParseD(s) == Some(g)
  {
    var f := FormatD(g);
    forall i | 0 <= i < 36 ensures if IsHyphenPosition(i) then s[i] == '-' else IsHexDigit(s[i]) {
      assert Text.LowerAscii(s[i]) == f[i];
      if !IsHyphenPosition(i) {
        HexValueOfDigit(g[ByteAt(i)] / 16);
        HexValueOfDigit(g[ByteAt(i)] % 16);
      }
    }
    assert IsFormatD(s);
    var h := ParseD(s).value;
    forall j | 0 <= j < 16 ensures h[j] == g[j] {
      var p := HighDigitPosition(j);
      assert Text.LowerAscii(s[p]) == f[p] && Text.LowerAscii(s[p + 1]) == f[p + 1];
      HexValueOfDigit(g[j] / 16);
      HexValueOfDigit(g[j] % 16);
    }
    assert h == g;
  }

  /**
   * A string parses as `g` exactly when, ignoring the case of its letters,
   * it is the "D" text of `g`.
   */
  lemma ParseDExactly(s: string, g: Guid)
    ensures ParseD(s) == Some(g) <==> Text.ToLowerAscii(s) == FormatD(g)
  {
    if ParseD(s) == Some(g) {
      ParsedIsFormatD(s, g);
    }
    if Text.ToLowerAscii(s) == FormatD(g) {
      FormatDParses(s, g);
    }
  }

  /** `bytes[0].ToString("X2")`: the shard directory of an artifact (ContentImporter.GetMostSignificantByteHex). */
  function MostSignificantByteHex(g: Guid): string
  {
    [UpperHexDigits[g[0] / 16], UpperHexDigits[g[0] % 16]]
  }

  /**
   * The shard is two upper-case hex digits that encode `bytes[0]`, the low
   * byte of the first field; in the "D" text those are characters 7 and 8,
   * not the first two.
   */
  lemma ShardDigits(g: Guid)
    ensures var h := MostSignificantByteHex(g);
      |h| == 2 && IsHexDigit(h[0]) && IsHexDigit(h[1]) && !('a' <= h[0] <= 'f') && !('a' <= h[1] <= 'f')
      && HexValue(h[0]) * 16 + HexValue(h[1]) == g[0]
      && h == Text.ToUpperAscii(FormatD(g)[6..8])
  {
    HexValueOfDigit(g[0] / 16);
    HexValueOfDigit(g[0] % 16);
    var f := FormatD(g);
    assert ByteAt(6) == 0 && ByteAt(7) == 0;
    assert f[6] == LowerHexDigits[g[0] / 16] && f[7] == LowerHexDigits[g[0] % 16];
    assert Text.ToUpperAscii(f[6..8]) == [Text.UpperAscii(f[6]), Text.UpperAscii(f[7])];
  }
}
