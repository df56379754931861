/** The Foundation string services the core relies on: character classes,
    trimming, lower-casing, and decimal and hexadecimal digits. */
module Text {
  import opened Wrappers

  // ---------------------------------------------------------------------------
  // Character classes

  /** CharacterSet.whitespacesAndNewlines: Unicode space separators, line and
      paragraph separators, tab, U+000A..U+000D and U+0085. */
  predicate IsWhitespaceOrNewline(c: char) {
    c == ' ' || c == '\t' || ('\n' <= c <= '\r') || c == '\U{85}' || c == '\U{A0}'
    || c == '\U{1680}' || ('\U{2000}' <= c <= '\U{200A}') || c == '\U{2028}'
    || c == '\U{2029}' || c == '\U{202F}' || c == '\U{205F}' || c == '\U{3000}'
  }

  /** CharacterSet.alphanumerics, restricted to ASCII letters and digits. */
  predicate IsAlphanumeric(c: char) {
    ('a' <= c <= 'z') || ('A' <= c <= 'Z') || ('0' <= c <= '9')
  }

  predicate IsNotAlphanumeric(c: char) {
    !IsAlphanumeric(c)
  }

  predicate IsDecimalDigit(c: char) {
    '0' <= c <= '9'
  }

  predicate IsHexDigit(c: char) {
    ('0' <= c <= '9') || ('a' <= c <= 'f') || ('A' <= c <= 'F')
  }

  function DecimalDigitValue(c: char): (d: nat)
    requires IsDecimalDigit(c)
    ensures d < 10
  {
    (c - '0') as nat
  }

  function HexDigitValue(c: char): (d: nat)
    requires IsHexDigit(c)
    ensures d < 16
  {
    if '0' <= c <= '9' then (c - '0') as nat
    else if 'a' <= c <= 'f' then (c - 'a') as nat + 10
    else (c - 'A') as nat + 10
  }

  // ---------------------------------------------------------------------------
  // Trimming: String.trimmingCharacters(in:)

  /** The first index from `i` on whose character `strip` does not select. */
  function SkipLeading(s: string, strip: char -> bool, i: nat): (k: nat)
    requires i <= |s|
    ensures i <= k <= |s|
    ensures forall m :: i <= m < k ==> strip(s[m])
    ensures k < |s| ==> !strip(s[k])
    decreases |s| - i
  {
    if i < |s| && strip(s[i]) then SkipLeading(s, strip, i + 1) else i
  }

  /** The end of s[lo..j] once the trailing characters `strip` selects are cut. */
  function SkipTrailing(s: string, strip: char -> bool, lo: nat, j: nat): (k: nat)
    requires lo <= j <= |s|
    ensures lo <= k <= j
    ensures forall m :: k <= m < j ==> strip(s[m])
    ensures lo < k ==> !strip(s[k - 1])
    decreases j
  {
    if lo < j && strip(s[j - 1]) then SkipTrailing(s, strip, lo, j - 1) else j
  }

  /** trimmingCharacters(in:): the characters of the set removed at both ends. */
  function Trim(s: string, strip: char -> bool): string {
    var i := SkipLeading(s, strip, 0);
    s[i..SkipTrailing(s, strip, i, |s|)]
  }

  /** s[i..j] is what is left once the stripped characters are cut from both
      ends: all cut characters are stripped ones and the ends of the slice are not. */
  ghost predicate IsTrimSlice(s: string, strip: char -> bool, i: int, j: int) {
    && 0 <= i <= j <= |s|
    && (forall k :: 0 <= k < i ==> strip(s[k]))
    && (forall k :: j <= k < |s| ==> strip(s[k]))
    && (i < j ==> !strip(s[i]) && !strip(s[j - 1]))
  }

  /** Trimming keeps one contiguous slice of the input, and when anything is
      kept that slice is the only one whose cut-away characters are all
      stripped and whose end characters are not. */
  lemma TrimIsSlice(s: string, strip: char -> bool, i: int, j: int)
    ensures exists i0, j0 :: IsTrimSlice(s, strip, i0, j0) && Trim(s, strip) == s[i0..j0]
    ensures IsTrimSlice(s, strip, i, j) && i < j ==> Trim(s, strip) == s[i..j]
  {
    var i0 := SkipLeading(s, strip, 0);
    var j0 := SkipTrailing(s, strip, i0, |s|);
    assert IsTrimSlice(s, strip, i0, j0);
    if IsTrimSlice(s, strip, i, j) && i < j {
      SameStart(s, strip, i, i0);
      SameEnd(s, strip, j, j0);
    }
  }

  /** Two starts that both follow only stripped characters and sit on a kept
      one (or at the end) coincide. */
  lemma SameStart(s: string, strip: char -> bool, a: int, b: int)
    requires 0 <= a <= |s| && 0 <= b <= |s|
    requires forall k :: 0 <= k < a ==> strip(s[k])
    requires forall k :: 0 <= k < b ==> strip(s[k])
    requires a < |s| ==> !strip(s[a])
    requires b < |s| ==> !strip(s[b])
    ensures a == b
  {
  }

  /** Two ends that both precede only stripped characters and follow a kept
      one coincide. */
  lemma SameEnd(s: string, strip: char -> bool, a: int, b: int)
    requires 0 < a <= |s| && 0 < b <= |s|
    requires forall k :: a <= k < |s| ==> strip(s[k])
    requires forall k :: b <= k < |s| ==> strip(s[k])
    requires !strip(s[a - 1]) && !strip(s[b - 1])
    ensures a == b
  {
  }

  /** Trimming yields the empty string exactly when every character is stripped. */
  lemma TrimEmptyIff(s: string, strip: char -> bool)
    ensures Trim(s, strip) == [] <==> forall k :: 0 <= k < |s| ==> strip(s[k])
  {
    var i := SkipLeading(s, strip, 0);
    var j := SkipTrailing(s, strip, i, |s|);
    if exists k :: 0 <= k < |s| && !strip(s[k]) {
      var k :| 0 <= k < |s| && !strip(s[k]);
      assert i <= k < j;
    } else {
      SameStart(s, strip, i, |s|);
    }
  }

  /** Made of whitespace and line breaks only. */
  predicate IsBlank(s: string) {
    forall k :: 0 <= k < |s| ==> IsWhitespaceOrNewline(s[k])
  }

  /** `trimmingCharacters(in: .whitespacesAndNewlines).isEmpty` is IsBlank. */
  lemma BlankIffTrimsToEmpty(s: string)
    ensures IsBlank(s) <==> Trim(s, IsWhitespaceOrNewline) == []
  {
    TrimEmptyIff(s, IsWhitespaceOrNewline);
  }

  // ---------------------------------------------------------------------------
  // Lower-casing: String.lowercased(), on ASCII letters

  function LowerChar(c: char): (l: char)
    ensures 'A' <= c <= 'Z' ==> l == c - 'A' + 'a'
    ensures !('A' <= c <= 'Z') ==> l == c
  {
    if 'A' <= c <= 'Z' then c - 'A' + 'a' else c
  }

  function UpperChar(c: char): (u: char)
    ensures 'a' <= c <= 'z' ==> u == c - 'a' + 'A'
    ensures !('a' <= c <= 'z') ==> u == c
  {
    if 'a' <= c <= 'z' then c - 'a' + 'A' else c
  }

  function Lowercased(s: string): (r: string)
    ensures |r| == |s|
    ensures forall i :: 0 <= i < |s| ==> r[i] == LowerChar(s[i])
  {
    seq(|s|, i requires 0 <= i < |s| => LowerChar(s[i]))
  }

  function Uppercased(s: string): (r: string)
    ensures |r| == |s|
    ensures forall i :: 0 <= i < |s| ==> r[i] == UpperChar(s[i])
  {
    seq(|s|, i requires 0 <= i < |s| => UpperChar(s[i]))
  }

  /** Lower-casing twice is lower-casing once. */
  lemma LowercasedIdempotent(s: string)
    ensures Lowercased(Lowercased(s)) == Lowercased(s)
  {
    var once := Lowercased(s);
    assert forall i :: 0 <= i < |s| ==> LowerChar(once[i]) == once[i];
  }

  /** Upper-casing first does not change the lower-cased form. */
  lemma LowercasedIgnoresUppercasing(s: string)
    ensures Lowercased(Uppercased(s)) == Lowercased(s)
  {
    var up := Uppercased(s);
    assert forall i :: 0 <= i < |s| ==> LowerChar(up[i]) == LowerChar(s[i]);
  }

  // ---------------------------------------------------------------------------
  // Decimal numerals: string interpolation of an Int

  function DigitChar(d: nat): (c: char)
    requires d < 10
    ensures IsDecimalDigit(c) && DecimalDigitValue(c) == d
  {
    '0' + d as char
  }

  /** The decimal digits of `n`, most significant first, without leading zeros. */
  function DecimalDigits(n: nat): (r: string)
    ensures |r| >= 1
    ensures forall i :: 0 <= i < |r| ==> IsDecimalDigit(r[i])
  {
    if n < 10 then [DigitChar(n)] else DecimalDigits(n / 10) + [DigitChar(n % 10)]
  }

  /** `"\(i)"` for an Int: a minus sign for negative values, then the digits. */
  function FormatInt(i: int): string {
    if i < 0 then "-" + DecimalDigits(-i) else DecimalDigits(i)
  }

  /** The value of a string of decimal digits. */
  function DecimalValue(s: string): nat
    requires forall i :: 0 <= i < |s| ==> IsDecimalDigit(s[i])
  {
    if s == [] then 0 else DecimalValue(s[..|s| - 1]) * 10 + DecimalDigitValue(s[|s| - 1])
  }

  /** Reads an optionally negative decimal numeral; None if it is not one. */
  function ParseInt(s: string): Option<int> {
    if |s| >= 2 && s[0] == '-' && forall i :: 1 <= i < |s| ==> IsDecimalDigit(s[i]) then
      var magnitude: int := DecimalValue(s[1..]);
      Some(-magnitude)
    else if |s| >= 1 && forall i :: 0 <= i < |s| ==> IsDecimalDigit(s[i]) then
      Some(DecimalValue(s))
    else
      None
  }

  lemma {:induction false} DecimalDigitsRoundTrip(n: nat)
    ensures DecimalValue(DecimalDigits(n)) == n
  {
    if n >= 10 {
      DecimalDigitsRoundTrip(n / 10);
      var r := DecimalDigits(n);
      assert r[..|r| - 1] == DecimalDigits(n / 10);
    }
  }

  /** Formatting an Int and reading it back gives the same Int. */
  lemma FormatIntRoundTrip(i: int)
    ensures ParseInt(FormatInt(i)) == Some(i)
  {
    if i < 0 {
      DecimalDigitsRoundTrip(-i);
      assert FormatInt(i)[1..] == DecimalDigits(-i);
    } else {
      DecimalDigitsRoundTrip(i);
    }
  }

  // ---------------------------------------------------------------------------
  // Hexadecimal numerals: Scanner.scanHexInt64

  /** The length of the leading run of hexadecimal digits. */
  function HexRun(s: string): (n: nat)
    ensures n <= |s|
    ensures forall i :: 0 <= i < n ==> IsHexDigit(s[i])
    ensures n < |s| ==> !IsHexDigit(s[n])
  {
    if s != [] && IsHexDigit(s[0]) then 1 + HexRun(s[1..]) else 0
  }

  predicate AllHexDigits(s: string) {
    forall i :: 0 <= i < |s| ==> IsHexDigit(s[i])
  }

  /** The value of a string of hexadecimal digits. */
  function HexValue(s: string): nat
    requires AllHexDigits(s)
  {
    if s == [] then 0 else HexValue(s[..|s| - 1]) * 16 + HexDigitValue(s[|s| - 1])
  }

  function Pow16(k: nat): (p: nat)
    ensures p >= 1
  {
    if k == 0 then 1 else 16 * Pow16(k - 1)
  }

  /** A hexadecimal numeral of k digits is below 16^k. */
  lemma {:induction false} HexValueBound(s: string)
    requires AllHexDigits(s)
    ensures HexValue(s) < Pow16(|s|)
  {
    if s != [] {
      HexValueBound(s[..|s| - 1]);
    }
  }

  lemma AllHexDigitsAppend(a: string, b: string)
    requires AllHexDigits(a) && AllHexDigits(b)
    ensures AllHexDigits(a + b)
  {
    forall i | 0 <= i < |a + b| ensures IsHexDigit((a + b)[i]) {
      if i >= |a| { assert (a + b)[i] == b[i - |a|]; }
    }
  }

  /** One more digit at the end multiplies the value by 16 and adds the digit. */
  lemma HexValueSnoc(s: string, c: char)
    requires AllHexDigits(s) && IsHexDigit(c)
    ensures AllHexDigits(s + [c])
    ensures HexValue(s + [c]) == HexValue(s) * 16 + HexDigitValue(c)
  {
    assert (s + [c])[..|s|] == s;
  }

  /** Splitting a hexadecimal numeral: the head is worth 16^|tail| per unit. */
  lemma {:induction false} HexValueAppend(a: string, b: string)
    requires AllHexDigits(a) && AllHexDigits(b)
    ensures AllHexDigits(a + b)
    ensures HexValue(a + b) == HexValue(a) * Pow16(|b|) + HexValue(b)
  {
    AllHexDigitsAppend(a, b);
    if b == [] {
      assert a + b == a;
    } else {
      var b', c := b[..|b| - 1], b[|b| - 1];
      assert b == b' + [c];
      assert a + b == (a + b') + [c];
      AllHexDigitsAppend(a, b');
      HexValueAppend(a, b');
      HexValueSnoc(a + b', c);
      HexValueSnoc(b', c);
      ShiftDigit(HexValue(a), Pow16(|b'|), HexValue(b'), HexDigitValue(c));
    }
  }

  lemma ShiftDigit(x: nat, p: nat, y: nat, d: nat)
    ensures (x * p + y) * 16 + d == x * (16 * p) + (y * 16 + d)
  {
  }

  /** What scanHexInt64 stores: the value of the leading run of hexadecimal
      digits, or 0 when there is none. */
  function ScannedHexValue(s: string): nat {
    HexValue(s[..HexRun(s)])
  }

  function HexDigitChar(d: nat): (c: char)
    requires d < 16
    ensures IsHexDigit(c) && HexDigitValue(c) == d
  {
    if d < 10 then '0' + d as char else 'A' + (d - 10) as char
  }

  /** Two upper-case hexadecimal digits for a byte. */
  function HexByte(v: nat): (r: string)
    requires v < 256
    ensures |r| == 2 && IsHexDigit(r[0]) && IsHexDigit(r[1])
  {
    [HexDigitChar(v / 16), HexDigitChar(v % 16)]
  }

  lemma HexByteRoundTrip(v: nat)
    requires v < 256
    ensures HexValue(HexByte(v)) == v
  {
    var r := HexByte(v);
    assert r[..1] == [r[0]];
    assert r[..1][..0] == [];
    assert HexValue(r[..1]) == v / 16;
    assert HexValue(r) == (v / 16) * 16 + v % 16;
  }
}
