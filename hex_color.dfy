/** Color(hex:) from WeatherApp/ViewModels/WeatherViewModel.swift, on integer
    channels: the string is trimmed of non-alphanumerics at both ends, the
    leading run of hexadecimal digits is scanned into an integer, and the
    trimmed length chooses between the 12-bit RGB, 24-bit RGB and 32-bit ARGB
    layouts. */
module Colors {
  import opened Wrappers
  import opened Text
  import Weather

  /** A colour as four integer channels; the source divides each by 255. */
  datatype Argb = Argb(alpha: int, red: int, green: int, blue: int)

  predicate InByteRange(c: Argb) {
    && 0 <= c.alpha < 256 && 0 <= c.red < 256
    && 0 <= c.green < 256 && 0 <= c.blue < 256
  }

  /** The channels of a scanned value for a trimmed string of `length`
      characters: `>>` is division by a power of two and `& 0xF`, `& 0xFF`
      are remainders. */
  function Channels(value: nat, length: nat): Option<Argb> {
    if length == 3 then
      Some(Argb(255, (value / 256) * 17, ((value / 16) % 16) * 17, (value % 16) * 17))
    else if length == 6 then
      Some(Argb(255, value / 65536, (value / 256) % 256, value % 256))
    else if length == 8 then
      Some(Argb(value / 16777216, (value / 65536) % 256, (value / 256) % 256, value % 256))
    else
      None
  }

  /** The string the parser works on. */
  function Trimmed(hex: string): string {
    Trim(hex, IsNotAlphanumeric)
  }

  /** The colour `Color(hex:)` builds, or None where it fails. */
  function HexColor(hex: string): Option<Argb> {
    var t := Trimmed(hex);
    Channels(ScannedHexValue(t), |t|)
  }

  // ---------------------------------------------------------------------------
  // The imperative parser

  /** Scanner.scanHexInt64: accumulates the leading hexadecimal digits. */
  method ScanHexInt64(s: string) returns (value: nat)
    ensures value == ScannedHexValue(s)
  {
    value := 0;
    var i := 0;
    while i < |s| && IsHexDigit(s[i])
      invariant 0 <= i <= |s|
      invariant AllHexDigits(s[..i])
      invariant value == HexValue(s[..i])
    {
      assert s[..i + 1][..i] == s[..i];
      value := value * 16 + HexDigitValue(s[i]);
      i := i + 1;
    }
    assert i == HexRun(s);
  }

  /** Color(hex:): trim, scan, then dispatch on the trimmed length. */
  method ColorFromHex(hex: string) returns (c: Option<Argb>)
    ensures c == HexColor(hex)
    ensures c.Some? ==> InByteRange(c.value)
  {
    var trimmed := Trim(hex, IsNotAlphanumeric);
    var scanned := ScanHexInt64(trimmed);
    c := Channels(scanned, |trimmed|);
    HexColorInByteRange(hex);
  }

  // ---------------------------------------------------------------------------
  // Properties

  /** Lengths other than 3, 6 and 8 after trimming give no colour, and those
      three always give one. */
  lemma HexColorLengths(hex: string)
    ensures HexColor(hex).None? <==> |Trimmed(hex)| != 3 && |Trimmed(hex)| != 6 && |Trimmed(hex)| != 8
  {
  }

  lemma {:induction false} Pow16Monotone(j: nat, k: nat)
    requires j <= k
    ensures Pow16(j) <= Pow16(k)
  {
    if j < k {
      Pow16Monotone(j, k - 1);
    }
  }

  /** The scanned value of a string has fewer hexadecimal digits than the string. */
  lemma ScannedBelow(t: string)
    ensures ScannedHexValue(t) < Pow16(|t|)
  {
    var run := t[..HexRun(t)];
    HexValueBound(run);
    Pow16Monotone(|run|, |t|);
  }

  lemma Pow16Values()
    ensures Pow16(2) == 256 && Pow16(3) == 4096
    ensures Pow16(6) == 16777216 && Pow16(8) == 4294967296
  {
    assert Pow16(2) == 256;
    assert Pow16(4) == 65536;
    assert Pow16(6) == 16777216;
  }

  /** Every channel of a parsed colour lies in 0..255. */
  lemma HexColorInByteRange(hex: string)
    ensures HexColor(hex).Some? ==> InByteRange(HexColor(hex).value)
  {
    var t := Trimmed(hex);
    ScannedBelow(t);
    Pow16Values();
    var v := ScannedHexValue(t);
    if |t| == 3 {
      assert v / 256 < 16;
    } else if |t| == 6 {
      assert v / 65536 < 256;
    } else if |t| == 8 {
      assert v / 16777216 < 256;
    }
  }

  /** ASCII hexadecimal digits are alphanumeric, so trimming keeps them. */
  lemma HexDigitsKept(s: string)
    requires |s| >= 1 && IsNotAlphanumeric(s[0]) && AllHexDigits(s[1..])
    ensures Trimmed(s) == s[1..]
  {
    if |s| == 1 {
      TrimEmptyIff(s, IsNotAlphanumeric);
    } else {
      assert IsHexDigit(s[1..][0]) && IsHexDigit(s[1..][|s| - 2]);
      TrimIsSlice(s, IsNotAlphanumeric, 1, |s|);
    }
  }

  lemma HexRunOfAll(t: string)
    requires AllHexDigits(t)
    ensures HexRun(t) == |t| && ScannedHexValue(t) == HexValue(t)
  {
    assert t[..|t|] == t;
  }

  /** The value of three hexadecimal digits. */
  lemma ThreeDigitsValue(t: string)
    requires |t| == 3 && AllHexDigits(t)
    ensures HexValue(t) == HexDigitValue(t[0]) * 256 + HexDigitValue(t[1]) * 16 + HexDigitValue(t[2])
  {
    var one, two := t[..1], t[..2];
    assert AllHexDigits(one) && AllHexDigits(two);
    assert one[..0] == [];
    assert HexValue(one) == HexDigitValue(t[0]);
    assert two[..1] == one;
    assert HexValue(two) == HexDigitValue(t[0]) * 16 + HexDigitValue(t[1]);
    assert t[..2] == two;
  }

  /** The 12-bit layout multiplies each digit by 17. */
  lemma ShortChannels(d0: nat, d1: nat, d2: nat)
    requires d0 < 16 && d1 < 16 && d2 < 16
    ensures Channels(d0 * 256 + d1 * 16 + d2, 3) == Some(Argb(255, 17 * d0, 17 * d1, 17 * d2))
  {
    var v := d0 * 256 + d1 * 16 + d2;
    assert v / 256 == d0;
    assert v / 16 == d0 * 16 + d1;
    assert (d0 * 16 + d1) % 16 == d1;
    assert v % 16 == d2;
  }

  /** A three-digit colour spreads each digit over a whole channel: nibble·17. */
  lemma HexColorShortForm(hex: string)
    requires |Trimmed(hex)| == 3 && AllHexDigits(Trimmed(hex))
    ensures var t := Trimmed(hex);
      HexColor(hex) == Some(Argb(255, 17 * HexDigitValue(t[0]), 17 * HexDigitValue(t[1]), 17 * HexDigitValue(t[2])))
  {
    var t := Trimmed(hex);
    HexRunOfAll(t);
    ThreeDigitsValue(t);
    ShortChannels(HexDigitValue(t[0]), HexDigitValue(t[1]), HexDigitValue(t[2]));
  }

  /** The value of three hexadecimal byte pairs. */
  lemma ThreeBytesValue(x: nat, y: nat, z: nat)
    requires x < 256 && y < 256 && z < 256
    ensures AllHexDigits(HexByte(x) + HexByte(y) + HexByte(z))
    ensures HexValue(HexByte(x) + HexByte(y) + HexByte(z)) == x * 65536 + y * 256 + z
  {
    HexByteRoundTrip(x);
    HexByteRoundTrip(y);
    HexByteRoundTrip(z);
    HexValueAppend(HexByte(x), HexByte(y));
    HexValueAppend(HexByte(x) + HexByte(y), HexByte(z));
    assert Pow16(2) == 256;
  }

  /** The 24-bit layout splits a value back into the bytes it was built from. */
  lemma RgbChannels(r: nat, g: nat, b: nat)
    requires r < 256 && g < 256 && b < 256
    ensures Channels(r * 65536 + g * 256 + b, 6) == Some(Argb(255, r, g, b))
  {
    var v := r * 65536 + g * 256 + b;
    assert v / 65536 == r;
    assert v / 256 == r * 256 + g;
  }

  /** Writing a colour as "#RRGGBB" and parsing it gives the colour back, opaque. */
  lemma HexColorRgbRoundTrip(r: nat, g: nat, b: nat)
    requires r < 256 && g < 256 && b < 256
    ensures HexColor("#" + HexByte(r) + HexByte(g) + HexByte(b)) == Some(Argb(255, r, g, b))
  {
    var digits := HexByte(r) + HexByte(g) + HexByte(b);
    var s := "#" + HexByte(r) + HexByte(g) + HexByte(b);
    ThreeBytesValue(r, g, b);
    assert s == "#" + digits;
    assert s[1..] == digits;
    HexDigitsKept(s);
    HexRunOfAll(digits);
    RgbChannels(r, g, b);
  }

  /** The 32-bit layout splits a value back into the bytes it was built from. */
  lemma ArgbChannels(a: nat, r: nat, g: nat, b: nat)
    requires a < 256 && r < 256 && g < 256 && b < 256
    ensures Channels(a * 16777216 + r * 65536 + g * 256 + b, 8) == Some(Argb(a, r, g, b))
  {
    var v := a * 16777216 + r * 65536 + g * 256 + b;
    assert v / 16777216 == a;
    assert v / 65536 == a * 256 + r;
    assert v / 256 == (a * 256 + r) * 256 + g;
  }

  /** Writing a colour as "#AARRGGBB" and parsing it gives all four channels back. */
  lemma HexColorArgbRoundTrip(a: nat, r: nat, g: nat, b: nat)
    requires a < 256 && r < 256 && g < 256 && b < 256
    ensures HexColor("#" + HexByte(a) + HexByte(r) + HexByte(g) + HexByte(b)) == Some(Argb(a, r, g, b))
  {
    var low := HexByte(r) + HexByte(g) + HexByte(b);
    var digits := HexByte(a) + low;
    var s := "#" + HexByte(a) + HexByte(r) + HexByte(g) + HexByte(b);
    ThreeBytesValue(r, g, b);
    HexByteRoundTrip(a);
    HexValueAppend(HexByte(a), low);
    Pow16Values();
    assert HexValue(digits) == a * 16777216 + r * 65536 + g * 256 + b;
    assert s == "#" + digits;
    assert s[1..] == digits;
    HexDigitsKept(s);
    HexRunOfAll(digits);
    ArgbChannels(a, r, g, b);
  }

  /** "#" and six hexadecimal digits always parse, to an opaque colour. */
  lemma HexColorLiteralParses(s: string)
    requires Weather.IsHexColorLiteral(s)
    ensures HexColor(s).Some? && HexColor(s).value.alpha == 255
  {
    HexDigitsKept(s);
  }

  /** Every theme colour of every category parses. */
  lemma GradientColorsParse(t: Weather.WeatherType)
    ensures forall s :: s in Weather.GradientColors(t) ==> HexColor(s).Some? && HexColor(s).value.alpha == 255
  {
    Weather.GradientColorsWellFormed(t);
    forall s | s in Weather.GradientColors(t) ensures HexColor(s).Some? && HexColor(s).value.alpha == 255 {
      HexColorLiteralParses(s);
    }
  }

  /** The scanner stops at the first non-hexadecimal character, while the
      trimmed length still chooses the layout. */
  lemma HexColorScanStops()
    ensures HexColor("FFG") == Some(Argb(255, 0, 255, 255))
  {
    var t := "FFG";
    assert Trimmed(t) == t by {
      TrimIsSlice(t, IsNotAlphanumeric, 0, 3);
    }
    assert HexRun(t) == 2 by {
      assert HexRun(t[2..]) == 0;
      assert t[1..][1..] == t[2..];
    }
    assert t[..2] == "FF";
    assert HexValue("FF") == 255 by {
      assert "FF"[..1] == "F";
      assert "F"[..0] == [];
    }
  }

  /** A mark and five hexadecimal digits (a digit short of "#RRGGBB") is
      none of the three layouts. */
  lemma HexColorWrongLength(s: string)
    requires |s| == 6 && IsNotAlphanumeric(s[0]) && AllHexDigits(s[1..])
    ensures HexColor(s) == None
  {
    HexDigitsKept(s);
  }
}
