/** The low-level tint parser: a hex string (3, 4, 6 or 8 digits after an
    optional leading '#') becomes a packed 32-bit value laid out as
    alpha << 24 | red << 16 | green << 8 | blue. Anything else yields 0. */
module HexColor {

  predicate IsHexDigit(c: char) {
    '0' <= c <= '9' || 'a' <= c <= 'f' || 'A' <= c <= 'F'
  }

  /** Reference reading of one hex digit, independent of how the parser computes it. */
  function HexVal(c: char): (n: nat)
    requires IsHexDigit(c)
    ensures n < 16
  {
    if c <= '9' then c as int - '0' as int
    else if c <= 'F' then c as int - 'A' as int + 10
    else c as int - 'a' as int + 10
  }

  /** The text left once a single leading '#' is erased (only when something follows it). */
  function Body(value: string): string {
    if |value| > 1 && value[0] == '#' then value[1..] else value
  }

  /** The inputs this model covers: whenever the body has one of the parsed lengths,
      every character of it is a hex digit. */
  predicate WellFormed(value: string) {
    var d := Body(value);
    (|d| == 3 || |d| == 4 || |d| == 6 || |d| == 8) ==>
      forall i :: 0 <= i < |d| ==> IsHexDigit(d[i])
  }

  // ----- the parser's own arithmetic -----

  /** `toupper` of the C runtime's default locale: only 'a'..'z' change. */
  function ToUpper(c: char): char {
    if 'a' <= c <= 'z' then (c as int - 32) as char else c
  }

  /** The digit rule of the short forms: from 'A' upwards count from 10, below it from '0'. */
  function ParseHexChar(c: char): int {
    if c >= 'A' then c as int - 'A' as int + 10 else c as int - '0' as int
  }

  /** One digit of a short form, as the unsigned `n` of the parser. */
  function ShortDigit(c: char): bv32
    requires IsHexDigit(c)
  {
    ParseHexChar(ToUpper(c)) as bv32
  }

  /** A short-form channel: the digit in both nibbles. */
  function Doubled(c: char): bv32
    requires IsHexDigit(c)
  {
    var n := ShortDigit(c);
    (n << 4) | n
  }

  /** The reference digit value as a 32-bit word. */
  function Digit(c: char): (n: bv32)
    requires IsHexDigit(c)
    ensures n < 16
  {
    HexVal(c) as bv32
  }

  /** `wcstol(tmp, nullptr, 16)` on a two-digit window of hex digits: the first
      digit scaled by the base, plus the second. */
  function PairValue(hi: char, lo: char): (v: bv32)
    requires IsHexDigit(hi) && IsHexDigit(lo)
    ensures v < 256
  {
    Digit(hi) * 16 + Digit(lo)
  }

  /** The final packing, each channel masked to its low byte. */
  function Pack(a: bv32, r: bv32, g: bv32, b: bv32): bv32 {
    ((a & 0xFF) << 24) | ((r & 0xFF) << 16) | ((g & 0xFF) << 8) | (b & 0xFF)
  }

  // ----- channel views of a packed value -----

  function Alpha(c: bv32): bv32 { (c >> 24) & 0xFF }
  function Red(c: bv32): bv32 { (c >> 16) & 0xFF }
  function Green(c: bv32): bv32 { (c >> 8) & 0xFF }
  function Blue(c: bv32): bv32 { c & 0xFF }

  function ParseHexColor(value: string): (c: bv32)
    requires WellFormed(value)
    ensures value == "" || value == "#" ==> c == 0
    ensures var n := |Body(value)|; n != 3 && n != 4 && n != 6 && n != 8 ==> c == 0
  {
    if |value| == 0 then Pack(0, 0, 0, 0)
    else if |value| == 1 && value[0] == '#' then Pack(0, 0, 0, 0)
    else
      var d := Body(value);
      if |d| == 6 || |d| == 8 then
        var a := if |d| == 8 then PairValue(d[6], d[7]) else 0xFF;
        Pack(a, PairValue(d[0], d[1]), PairValue(d[2], d[3]), PairValue(d[4], d[5]))
      else if |d| == 3 || |d| == 4 then
        var a := if |d| == 4 then ShortDigit(d[3]) << 4 else 0xFF;
        Pack(a, Doubled(d[0]), Doubled(d[1]), Doubled(d[2]))
      else
        Pack(0, 0, 0, 0)
  }

  // ----- properties -----

  /** The packed value is determined by its four channels, and each channel of
      Pack is the low byte of the value given for it. */
  lemma PackChannels(a: bv32, r: bv32, g: bv32, b: bv32)
    ensures var c := Pack(a, r, g, b);
      Alpha(c) == a & 0xFF && Red(c) == r & 0xFF && Green(c) == g & 0xFF && Blue(c) == b & 0xFF
    ensures Pack(Alpha(a), Red(a), Green(a), Blue(a)) == a
  {
  }

  /** The short-form digit rule (upper-case, then count from 'A' or from '0')
      agrees with the reference reading of a hex digit, for either case of letter. */
  lemma ParseHexCharAgrees(c: char)
    requires IsHexDigit(c)
    ensures ParseHexChar(ToUpper(c)) == HexVal(c)
    ensures ShortDigit(c) == Digit(c)
  {
  }

  /** Six digits RRGGBB: alpha is 0xFF; eight digits RRGGBBAA: alpha is the last pair. */
  lemma LongForm(value: string)
    requires WellFormed(value)
    requires |Body(value)| == 6 || |Body(value)| == 8
    ensures var c, d := ParseHexColor(value), Body(value);
      Red(c) == Digit(d[0]) * 16 + Digit(d[1]) &&
      Green(c) == Digit(d[2]) * 16 + Digit(d[3]) &&
      Blue(c) == Digit(d[4]) * 16 + Digit(d[5]) &&
      Alpha(c) == if |d| == 8 then Digit(d[6]) * 16 + Digit(d[7]) else 0xFF
  {
    var d := Body(value);
    assert IsHexDigit(d[0]) && IsHexDigit(d[1]) && IsHexDigit(d[2]);
    assert IsHexDigit(d[3]) && IsHexDigit(d[4]) && IsHexDigit(d[5]);
    var a := if |d| == 8 then PairValue(d[6], d[7]) else 0xFF;
    var r, g, b := PairValue(d[0], d[1]), PairValue(d[2], d[3]), PairValue(d[4], d[5]);
    assert ParseHexColor(value) == Pack(a, r, g, b);
    PackChannels(a, r, g, b);
  }

  /** Three digits RGB: each digit fills both nibbles of its channel and alpha is 0xFF;
      a fourth digit gives alpha only in its high nibble. */
  lemma ShortForm(value: string)
    requires WellFormed(value)
    requires |Body(value)| == 3 || |Body(value)| == 4
    ensures var c, d := ParseHexColor(value), Body(value);
      Red(c) == Digit(d[0]) * 17 &&
      Green(c) == Digit(d[1]) * 17 &&
      Blue(c) == Digit(d[2]) * 17 &&
      Alpha(c) == if |d| == 4 then Digit(d[3]) * 16 else 0xFF
  {
    var d := Body(value);
    ParseHexCharAgrees(d[0]);
    ParseHexCharAgrees(d[1]);
    ParseHexCharAgrees(d[2]);
    if |d| == 4 {
      ParseHexCharAgrees(d[3]);
    }
  }

  // ----- worked examples -----

  lemma ExampleLongRed()
    ensures ParseHexColor("#FF0000") == 0xFFFF_0000
  {
  }
  lemma ExampleShortRed()
    ensures ParseHexColor("F00") == 0xFFFF_0000
  {
  }
  lemma ExampleShortAlpha()
    ensures ParseHexColor("F008") == 0x80FF_0000
  {
  }
  lemma ExampleSentinels()
    ensures ParseHexColor("") == 0 && ParseHexColor("#") == 0 && ParseHexColor("##") == 0
  {
  }
  lemma ExampleTransparentBlack()
    ensures ParseHexColor("00000000") == 0
  {
  }
}
