// Colours, fonts and display-list commands shared by the layout engines
// (layout/Layout.kt and Drawable.kt): `getColor` with its table of named
// colours, the font key, the drawing commands, and integer forms of the
// engines' few floating-point steps.

module Layouts {
  import opened Common
  import opened Strings
  import opened Dom

  /** `java.awt.Color`: red, green, blue and alpha. */
  datatype Color = Color(r: int, g: int, b: int, a: int)

  /** An opaque colour, `Color(r, g, b)`. */
  function Rgb(r: int, g: int, b: int): Color { Color(r, g, b, 255) }

  const Black: Color := Rgb(0, 0, 0)
  const Gray: Color := Rgb(128, 128, 128)
  const LightGray: Color := Rgb(192, 192, 192)

  predicate InRange(c: Color) { 0 <= c.r < 256 && 0 <= c.g < 256 && 0 <= c.b < 256 && 0 <= c.a < 256 }

  // ------------------------------------------------------------ hex digits

  predicate IsHexDigit(c: char) { '0' <= c <= '9' || 'a' <= c <= 'f' || 'A' <= c <= 'F' }

  function HexValue(c: char): (r: nat)
    requires IsHexDigit(c)
    ensures r < 16
  {
    if '0' <= c <= '9' then c as int - '0' as int
    else if 'a' <= c <= 'f' then c as int - 'a' as int + 10
    else c as int - 'A' as int + 10
  }

  /** `digitToInt(16)`, for ASCII digits and letters: anything else throws. */
  function DigitToInt16(c: char): (r: Outcome<nat>)
    ensures r.Ok? <==> IsHexDigit(c)
    ensures r.Ok? ==> r.value < 16 && r.value == HexValue(c)
    ensures r.Fail? ==> r.exc == IllegalArgument
  {
    if IsHexDigit(c) then Ok(HexValue(c)) else Fail(IllegalArgument)
  }

  /** The lower-case hex digit of `d`. */
  function HexChar(d: nat): (c: char)
    requires d < 16
    ensures IsHexDigit(c) && HexValue(c) == d
  {
    if d < 10 then ('0' as int + d) as char else ('a' as int + d - 10) as char
  }

  /** A short-form digit stands for itself twice: `d * 16 + d`. */
  function Doubled(d: nat): nat { d * 16 + d }

  /** The byte written as the two hex digits `hi` and `lo`. */
  function Byte(hi: char, lo: char): (n: nat)
    requires IsHexDigit(hi) && IsHexDigit(lo)
    ensures n < 256
  {
    HexValue(hi) * 16 + HexValue(lo)
  }

  /**
   * The `#rrggbb` notation read directly: three bytes, each two hex digits.
   * `DecodeIsHex` shows `Color.decode` reads a seven-character `#` form so.
   */
  function DecodeHex6(value: string): (r: Outcome<Color>)
    requires |value| == 7
    ensures r.Ok? <==> forall i :: 1 <= i < 7 ==> IsHexDigit(value[i])
    ensures r.Fail? ==> r.exc == NumberFormat
  {
    if forall i :: 1 <= i < 7 ==> IsHexDigit(value[i]) then
      Ok(Rgb(Byte(value[1], value[2]), Byte(value[3], value[4]), Byte(value[5], value[6])))
    else Fail(NumberFormat)
  }

  // --------------------------------------------- Integer.decode / Color.decode

  /** `Character.digit(c, radix)` for ASCII digits and letters: -1 when `c` is not a digit of that radix. */
  function Digit(c: char, radix: nat): (d: int)
    ensures -1 <= d < radix
  {
    var v := if '0' <= c <= '9' then c as int - '0' as int
             else if 'a' <= c <= 'z' then c as int - 'a' as int + 10
             else if 'A' <= c <= 'Z' then c as int - 'A' as int + 10
             else -1;
    if v < radix then v else -1
  }

  predicate AllDigits(s: string, radix: nat)
  {
    forall i :: 0 <= i < |s| ==> Digit(s[i], radix) >= 0
  }

  /** The number the digits write in `radix`, most significant first. */
  function DigitsValue(s: string, radix: nat): nat
    requires AllDigits(s, radix)
  {
    ValueOfFirst(s, |s|, radix)
  }

  /** The number the first `k` digits write. */
  function ValueOfFirst(s: string, k: nat, radix: nat): nat
    requires k <= |s| && AllDigits(s, radix)
  {
    if k == 0 then 0 else ValueOfFirst(s, k - 1, radix) * radix + Digit(s[k - 1], radix)
  }

  const MinInt: int := -0x8000_0000
  const MaxInt: int := 0x7FFF_FFFF

  /** `Integer.valueOf(digits, radix)` with the sign `Integer.decode` took off put back. */
  function ParseRadix(digits: string, radix: nat, negative: bool): (r: Outcome<int>)
    ensures r.Ok? ==> MinInt <= r.value <= MaxInt
    ensures r.Fail? ==> r.exc == NumberFormat
  {
    if digits == [] || !AllDigits(digits, radix) then Fail(NumberFormat)
    else
      var n: int := DigitsValue(digits, radix);
      var v := if negative then -n else n;
      if v < MinInt || v > MaxInt then Fail(NumberFormat) else Ok(v)
  }

  /**
   * `Integer.decode(s)`: an optional sign, then `0x`, `0X` or `#` for hex,
   * a leading `0` (with more after it) for octal, decimal otherwise; a sign
   * after the prefix is rejected.
   */
  function IntegerDecode(s: string): (r: Outcome<int>)
    ensures r.Ok? ==> MinInt <= r.value <= MaxInt
    ensures r.Fail? ==> r.exc == NumberFormat
  {
    if s == [] then Fail(NumberFormat)
    else
      var rest := if s[0] == '-' || s[0] == '+' then s[1..] else s;
      var radix := if StartsWith(rest, "0x") || StartsWith(rest, "0X") || StartsWith(rest, "#") then 16
                   else if StartsWith(rest, "0") && |rest| > 1 then 8 else 10;
      var skip := if StartsWith(rest, "0x") || StartsWith(rest, "0X") then 2
                  else if StartsWith(rest, "#") || (StartsWith(rest, "0") && |rest| > 1) then 1 else 0;
      var digits := rest[skip..];
      if StartsWithChar(digits, '-') || StartsWithChar(digits, '+') then Fail(NumberFormat)
      else ParseRadix(digits, radix, s[0] == '-')
  }

  /** `Color.decode(s)`: the decoded number's low three bytes, `(i >> 16) & 0xFF` and so on. */
  function ColorDecode(s: string): (r: Outcome<Color>)
    ensures r.Ok? ==> InRange(r.value) && r.value.a == 255
    ensures r.Fail? ==> r.exc == NumberFormat
  {
    var i :- IntegerDecode(s);
    Ok(Rgb(i / 0x10000 % 0x100, i / 0x100 % 0x100, i % 0x100))
  }

  lemma HexDigitIsDigit(c: char)
    ensures IsHexDigit(c) <==> Digit(c, 16) >= 0
    ensures IsHexDigit(c) ==> Digit(c, 16) == HexValue(c)
  {
  }

  /** Six hex digits are worth their three bytes. */
  lemma {:induction false} SixDigits(d: string)
    requires |d| == 6 && forall i :: 0 <= i < 6 ==> IsHexDigit(d[i])
    ensures AllDigits(d, 16)
    ensures DigitsValue(d, 16) == Byte(d[0], d[1]) * 0x10000 + Byte(d[2], d[3]) * 0x100 + Byte(d[4], d[5])
  {
    forall i | 0 <= i < 6 { HexDigitIsDigit(d[i]); }
    assert ValueOfFirst(d, 1, 16) == HexValue(d[0]);
    assert ValueOfFirst(d, 2, 16) == Byte(d[0], d[1]);
    assert ValueOfFirst(d, 3, 16) == Byte(d[0], d[1]) * 0x10 + HexValue(d[2]);
    assert ValueOfFirst(d, 4, 16) == Byte(d[0], d[1]) * 0x100 + Byte(d[2], d[3]);
    assert ValueOfFirst(d, 5, 16) == Byte(d[0], d[1]) * 0x1000 + Byte(d[2], d[3]) * 0x10 + HexValue(d[4]);
  }

  /** `Integer.decode` of a `#` form: the rest in hex, unless a sign follows the `#`. */
  lemma DecodeHash(s: string)
    requires |s| > 1 && s[0] == '#'
    ensures IntegerDecode(s) == if s[1] == '-' || s[1] == '+' then Fail(NumberFormat) else ParseRadix(s[1..], 16, false)
  {
    assert StartsWith(s, "#");
    assert !StartsWith(s, "0x") && !StartsWith(s, "0X");
  }

  /** Division by 256 is determined by its quotient and remainder. */
  lemma DivMod256(n: int, q: int, m: int)
    requires 0 <= m < 0x100 && n == q * 0x100 + m
    ensures n / 0x100 == q && n % 0x100 == m
  {
  }

  /** Division by 65536 is determined by its quotient and remainder. */
  lemma DivMod65536(n: int, q: int, m: int)
    requires 0 <= m < 0x10000 && n == q * 0x10000 + m
    ensures n / 0x10000 == q
  {
  }

  /** The three bytes of a 24-bit number. */
  lemma ByteSplit(r: nat, g: nat, b: nat)
    requires r < 256 && g < 256 && b < 256
    ensures (r * 0x10000 + g * 0x100 + b) / 0x10000 % 0x100 == r
    ensures (r * 0x10000 + g * 0x100 + b) / 0x100 % 0x100 == g
    ensures (r * 0x10000 + g * 0x100 + b) % 0x100 == b
  {
    var n := r * 0x10000 + g * 0x100 + b;
    DivMod65536(n, r, g * 0x100 + b);
    DivMod256(r, 0, r);
    DivMod256(n, r * 0x100 + g, b);
    DivMod256(r * 0x100 + g, r, g);
  }

  /** `Color.decode` reads a seven-character `#` form as the hex notation `#rrggbb`. */
  lemma {:induction false} DecodeIsHex(value: string)
    requires |value| == 7 && value[0] == '#'
    ensures ColorDecode(value) == DecodeHex6(value)
  {
    var d := value[1..];
    assert d[0] == value[1];
    DecodeHash(value);
    if forall i :: 1 <= i < 7 ==> IsHexDigit(value[i]) {
      SixDigits(d);
      var n := DigitsValue(d, 16);
      var r, g, b := Byte(value[1], value[2]), Byte(value[3], value[4]), Byte(value[5], value[6]);
      assert n == r * 0x10000 + g * 0x100 + b;
      ByteSplit(r, g, b);
    } else {
      var k :| 1 <= k < 7 && !IsHexDigit(value[k]);
      HexDigitIsDigit(value[k]);
      assert d[k - 1] == value[k];
      assert !AllDigits(d, 16);
    }
  }

  /** `htmlColorMap`: names are matched exactly, and every one is lower case. */
  const HtmlColors: map<string, Color> := map[
    "aliceblue" := Rgb(240, 248, 255),
    "antiquewhite" := Rgb(250, 235, 215),
    "aqua" := Rgb(0, 255, 255),
    "aquamarine" := Rgb(127, 255, 212),
    "azure" := Rgb(240, 255, 255),
    "beige" := Rgb(245, 245, 220),
    "bisque" := Rgb(255, 228, 196),
    "black" := Rgb(0, 0, 0),
    "blanchedalmond" := Rgb(255, 235, 205),
    "blue" := Rgb(0, 0, 255),
    "blueviolet" := Rgb(138, 43, 226),
    "brown" := Rgb(165, 42, 42),
    "burlywood" := Rgb(222, 184, 135),
    "cadetblue" := Rgb(95, 158, 160),
    "chartreuse" := Rgb(127, 255, 0),
    "chocolate" := Rgb(210, 105, 30),
    "coral" := Rgb(255, 127, 80),
    "cornflowerblue" := Rgb(100, 149, 237),
    "cornsilk" := Rgb(255, 248, 220),
    "crimson" := Rgb(220, 20, 60),
    "cyan" := Rgb(0, 255, 255),
    "darkblue" := Rgb(0, 0, 139),
    "darkcyan" := Rgb(0, 139, 139),
    "darkgoldenrod" := Rgb(184, 134, 11),
    "darkgray" := Rgb(169, 169, 169),
    "darkgreen" := Rgb(0, 100, 0),
    "darkgrey" := Rgb(169, 169, 169),
    "darkkhaki" := Rgb(189, 183, 107),
    "darkmagenta" := Rgb(139, 0, 139),
    "darkolivegreen" := Rgb(85, 107, 47),
    "darkorange" := Rgb(255, 140, 0),
    "darkorchid" := Rgb(153, 50, 204),
    "darkred" := Rgb(139, 0, 0),
    "darksalmon" := Rgb(233, 150, 122),
    "darkseagreen" := Rgb(143, 188, 143),
    "darkslateblue" := Rgb(72, 61, 139),
    "darkslategray" := Rgb(47, 79, 79),
    "darkslategrey" := Rgb(47, 79, 79),
    "darkturquoise" := Rgb(0, 206, 209),
    "darkviolet" := Rgb(148, 0, 211),
    "deeppink" := Rgb(255, 20, 147),
    "deepskyblue" := Rgb(0, 191, 255),
    "dimgray" := Rgb(105, 105, 105),
    "dimgrey" := Rgb(105, 105, 105),
    "dodgerblue" := Rgb(30, 144, 255),
    "firebrick" := Rgb(178, 34, 34),
    "floralwhite" := Rgb(255, 250, 240),
    "forestgreen" := Rgb(34, 139, 34),
    "fuchsia" := Rgb(255, 0, 255),
    "gainsboro" := Rgb(220, 220, 220),
    "ghostwhite" := Rgb(248, 248, 255),
    "gold" := Rgb(255, 215, 0),
    "goldenrod" := Rgb(218, 165, 32),
    "gray" := Rgb(128, 128, 128),
    "green" := Rgb(0, 128, 0),
    "greenyellow" := Rgb(173, 255, 47),
    "grey" := Rgb(128, 128, 128),
    "honeydew" := Rgb(240, 255, 240),
    "hotpink" := Rgb(255, 105, 180),
    "indianred" := Rgb(205, 92, 92),
    "indigo" := Rgb(75, 0, 130),
    "ivory" := Rgb(255, 255, 240),
    "khaki" := Rgb(240, 230, 140),
    "lavender" := Rgb(230, 230, 250),
    "lavenderblush" := Rgb(255, 240, 245),
    "lawngreen" := Rgb(124, 252, 0),
    "lemonchiffon" := Rgb(255, 250, 205),
    "lightblue" := Rgb(173, 216, 230),
    "lightcoral" := Rgb(240, 128, 128),
    "lightcyan" := Rgb(224, 255, 255),
    "lightgoldenrodyellow" := Rgb(250, 250, 210),
    "lightgray" := Rgb(211, 211, 211),
    "lightgreen" := Rgb(144, 238, 144),
    "lightgrey" := Rgb(211, 211, 211),
    "lightpink" := Rgb(255, 182, 193),
    "lightsalmon" := Rgb(255, 160, 122),
    "lightseagreen" := Rgb(32, 178, 170),
    "lightskyblue" := Rgb(135, 206, 250),
    "lightslategray" := Rgb(119, 136, 153),
    "lightslategrey" := Rgb(119, 136, 153),
    "lightsteelblue" := Rgb(176, 196, 222),
    "lightyellow" := Rgb(255, 255, 224),
    "lime" := Rgb(0, 255, 0),
    "limegreen" := Rgb(50, 205, 50),
    "linen" := Rgb(250, 240, 230),
    "magenta" := Rgb(255, 0, 255),
    "maroon" := Rgb(128, 0, 0),
    "mediumaquamarine" := Rgb(102, 205, 170),
    "mediumblue" := Rgb(0, 0, 205),
    "mediumorchid" := Rgb(186, 85, 211),
    "mediumpurple" := Rgb(147, 112, 219),
    "mediumseagreen" := Rgb(60, 179, 113),
    "mediumslateblue" := Rgb(123, 104, 238),
    "mediumspringgreen" := Rgb(0, 250, 154),
    "mediumturquoise" := Rgb(72, 209, 204),
    "mediumvioletred" := Rgb(199, 21, 133),
    "midnightblue" := Rgb(25, 25, 112),
    "mintcream" := Rgb(245, 255, 250),
    "mistyrose" := Rgb(255, 228, 225),
    "moccasin" := Rgb(255, 228, 181),
    "navajowhite" := Rgb(255, 222, 173),
    "navy" := Rgb(0, 0, 128),
    "oldlace" := Rgb(253, 245, 230),
    "olive" := Rgb(128, 128, 0),
    "olivedrab" := Rgb(107, 142, 35),
    "orange" := Rgb(255, 165, 0),
    "orangered" := Rgb(255, 69, 0),
    "orchid" := Rgb(218, 112, 214),
    "palegoldenrod" := Rgb(238, 232, 170),
    "palegreen" := Rgb(152, 251, 152),
    "paleturquoise" := Rgb(175, 238, 238),
    "palevioletred" := Rgb(219, 112, 147),
    "papayawhip" := Rgb(255, 239, 213),
    "peachpuff" := Rgb(255, 218, 185),
    "peru" := Rgb(205, 133, 63),
    "pink" := Rgb(255, 192, 203),
    "plum" := Rgb(221, 160, 221),
    "powderblue" := Rgb(176, 224, 230),
    "purple" := Rgb(128, 0, 128),
    "red" := Rgb(255, 0, 0),
    "rosybrown" := Rgb(188, 143, 143),
    "royalblue" := Rgb(65, 105, 225),
    "saddlebrown" := Rgb(139, 69, 19),
    "salmon" := Rgb(250, 128, 114),
    "sandybrown" := Rgb(244, 164, 96),
    "seagreen" := Rgb(46, 139, 87),
    "seashell" := Rgb(255, 245, 238),
    "sienna" := Rgb(160, 82, 45),
    "silver" := Rgb(192, 192, 192),
    "skyblue" := Rgb(135, 206, 235),
    "slateblue" := Rgb(106, 90, 205),
    "slategray" := Rgb(112, 128, 144),
    "slategrey" := Rgb(112, 128, 144),
    "snow" := Rgb(255, 250, 250),
    "springgreen" := Rgb(0, 255, 127),
    "steelblue" := Rgb(70, 130, 180),
    "tan" := Rgb(210, 180, 140),
    "teal" := Rgb(0, 128, 128),
    "thatch" := Rgb(255, 99, 71),
    "thistle" := Rgb(216, 191, 216),
    "tomato" := Rgb(255, 99, 71),
    "turquoise" := Rgb(64, 224, 208),
    "violet" := Rgb(238, 130, 238),
    "wheat" := Rgb(245, 222, 179),
    "white" := Rgb(255, 255, 255),
    "whitesmoke" := Rgb(245, 245, 245),
    "yellow" := Rgb(255, 255, 0),
    "yellowgreen" := Rgb(154, 205, 50)
  ]

  /** What `getColor` hands on for a `#` form of another length: up to six characters after the `#`. */
  function Leading6(value: string): (r: string)
    ensures |r| <= 6
  {
    if value == [] then [] else value[1..][..Min(6, |value| - 1)]
  }

  /**
   * `getColor(value)` with the result for `#` forms of lengths other than
   * 4, 5 and 7 given: `#rgb` and `#rgba` double each digit, `#rrggbb` goes
   * to `Color.decode`, and a name is looked up in the table before
   * `Color.decode` gets it.
   */
  function ColorOf(value: string, otherHex: Outcome<Color>): (r: Outcome<Color>)
  {
    if StartsWithChar(value, '#') then HashColor(value, otherHex) else NamedColor(value)
  }

  /** The `#` branch of `getColor`. */
  function HashColor(value: string, otherHex: Outcome<Color>): (r: Outcome<Color>)
    requires StartsWithChar(value, '#')
  {
    if |value| == 4 then
      var r :- DigitToInt16(value[1]);
      var g :- DigitToInt16(value[2]);
      var b :- DigitToInt16(value[3]);
      Ok(Rgb(Doubled(r), Doubled(g), Doubled(b)))
    else if |value| == 5 then
      var r :- DigitToInt16(value[1]);
      var g :- DigitToInt16(value[2]);
      var b :- DigitToInt16(value[3]);
      var a :- DigitToInt16(value[4]);
      Ok(Color(Doubled(r), Doubled(g), Doubled(b), Doubled(a)))
    else if |value| == 7 then ColorDecode(value)
    else otherHex
  }

  /** `htmlColorMap[value] ?: Color.decode(value)` */
  function NamedColor(value: string): (r: Outcome<Color>)
  {
    if value in HtmlColors then Ok(HtmlColors[value]) else ColorDecode(value)
  }

  /** `getColor` as written: the other `#` forms lose their `#`, so `Color.decode` reads them as decimal or octal. */
  function GetColorAsWritten(value: string): Outcome<Color>
  {
    ColorOf(value, ColorDecode(Leading6(value)))
  }

  /** `getColor` with the `#` kept, so the first six digits of a long form are read as hex. */
  function GetColor(value: string): Outcome<Color>
  {
    ColorOf(value, ColorDecode("#" + Leading6(value)))
  }

  /** `#rgb` gives each channel its digit doubled, so `#fff` is white and every channel fits a byte. */
  lemma ShortHex(r: char, g: char, b: char)
    requires IsHexDigit(r) && IsHexDigit(g) && IsHexDigit(b)
    ensures GetColorAsWritten(['#', r, g, b]) == Ok(Rgb(17 * HexValue(r), 17 * HexValue(g), 17 * HexValue(b)))
    ensures InRange(GetColorAsWritten(['#', r, g, b]).value)
  {
    var v := ['#', r, g, b];
    assert StartsWithChar(v, '#') && |v| == 4;
    HashShort(v, ColorDecode(Leading6(v)));
  }

  lemma HashShort(v: string, other: Outcome<Color>)
    requires |v| == 4 && v[0] == '#' && IsHexDigit(v[1]) && IsHexDigit(v[2]) && IsHexDigit(v[3])
    ensures HashColor(v, other) == Ok(Rgb(17 * HexValue(v[1]), 17 * HexValue(v[2]), 17 * HexValue(v[3])))
  {
  }

  /** A short form with a character that is not a hex digit throws. */
  lemma ShortHexRejects(value: string)
    requires |value| == 4 && value[0] == '#' && !(IsHexDigit(value[1]) && IsHexDigit(value[2]) && IsHexDigit(value[3]))
    ensures GetColorAsWritten(value) == Fail(IllegalArgument)
  {
  }

  /** The two hex digits of a byte. */
  function Hex2(n: nat): (s: string)
    requires n < 256
    ensures |s| == 2 && IsHexDigit(s[0]) && IsHexDigit(s[1])
  {
    [HexChar(n / 16), HexChar(n % 16)]
  }

  /** The two digits of `Hex2(n)` read back as a byte give `n`. */
  lemma ByteOfHex2(n: nat)
    requires n < 256
    ensures Byte(Hex2(n)[0], Hex2(n)[1]) == n
  {
    assert HexValue(HexChar(n / 16)) == n / 16;
    assert HexValue(HexChar(n % 16)) == n % 16;
  }

  /** `#` and the hex digits of three bytes, as `Color.decode` reads them, give those bytes. */
  lemma {:induction false} Hex6Decodes(r: nat, g: nat, b: nat)
    requires r < 256 && g < 256 && b < 256
    ensures ColorDecode("#" + Hex2(r) + Hex2(g) + Hex2(b)) == Ok(Rgb(r, g, b))
  {
    var v := "#" + Hex2(r) + Hex2(g) + Hex2(b);
    assert v[1] == Hex2(r)[0] && v[2] == Hex2(r)[1];
    assert v[3] == Hex2(g)[0] && v[4] == Hex2(g)[1];
    assert v[5] == Hex2(b)[0] && v[6] == Hex2(b)[1];
    ByteOfHex2(r);
    ByteOfHex2(g);
    ByteOfHex2(b);
    DecodeIsHex(v);
  }

  /** Writing a colour as `#rrggbb` and reading it back gives the colour. */
  lemma {:induction false} LongHexRoundTrip(r: nat, g: nat, b: nat)
    requires r < 256 && g < 256 && b < 256
    ensures GetColorAsWritten("#" + Hex2(r) + Hex2(g) + Hex2(b)) == Ok(Rgb(r, g, b))
  {
    Hex6Decodes(r, g, b);
  }

  /** The two readings differ only on `#` forms of lengths other than 4, 5 and 7. */
  lemma AsWrittenAgreesOutsideLongHash(value: string)
    requires !StartsWithChar(value, '#') || |value| == 4 || |value| == 5 || |value| == 7
    ensures GetColorAsWritten(value) == GetColor(value)
  {
  }

  /** A `#` form of another length: as written its digits go to `Color.decode` bare, corrected with the `#`. */
  lemma OtherHashLength(value: string)
    requires StartsWithChar(value, '#') && |value| != 4 && |value| != 5 && |value| != 7
    ensures GetColorAsWritten(value) == ColorDecode(Leading6(value))
    ensures GetColor(value) == ColorDecode("#" + Leading6(value))
  {
  }

  /** Without a sign or a radix prefix, `Integer.decode` reads decimal. */
  lemma DecodeDecimal(s: string)
    requires |s| > 0 && s[0] != '-' && s[0] != '+' && s[0] != '0' && s[0] != '#'
    ensures IntegerDecode(s) == ParseRadix(s, 10, false)
  {
    assert !StartsWith(s, "0x") && !StartsWith(s, "0X") && !StartsWith(s, "#") && !StartsWith(s, "0");
  }

  /** `Integer.decode("123456")` is the decimal number. */
  lemma {:induction false} Decimal123456()
    ensures IntegerDecode("123456") == Ok(123456)
  {
    var d := "123456";
    assert d[0] == '1' && d[1] == '2' && d[2] == '3' && d[3] == '4' && d[4] == '5' && d[5] == '6';
    assert AllDigits(d, 10);
    assert ValueOfFirst(d, 1, 10) == 1;
    assert ValueOfFirst(d, 2, 10) == 12;
    assert ValueOfFirst(d, 3, 10) == 123;
    assert ValueOfFirst(d, 4, 10) == 1234;
    assert ValueOfFirst(d, 5, 10) == 12345;
    assert ValueOfFirst(d, 6, 10) == 123456;
    DecodeDecimal(d);
  }

  /** As written, `#rrggbbaa` with hex letters reaches `Color.decode` without its `#` and throws. */
  lemma {:induction false} HexLettersAsWritten()
    ensures GetColorAsWritten("#ff000080") == Fail(NumberFormat)
  {
    var f := "ff0000";
    assert Leading6("#ff000080") == f;
    OtherHashLength("#ff000080");
    assert f[0] == 'f' && Digit('f', 10) == -1;
    assert !AllDigits(f, 10);
    DecodeDecimal(f);
  }

  /** As written, `#12345678` is read as the decimal number 123456, which is `#01e240`. */
  lemma {:induction false} DecimalDigitsAsWritten()
    ensures GetColorAsWritten("#12345678") == Ok(Rgb(1, 226, 64))
  {
    assert Leading6("#12345678") == "123456";
    OtherHashLength("#12345678");
    Decimal123456();
    ByteSplit(1, 226, 64);
  }

  /** With the `#` kept, `#rrggbbaa` gives the colour of its first six digits. */
  lemma {:induction false} EightDigits(r: nat, g: nat, b: nat, a: nat)
    requires r < 256 && g < 256 && b < 256 && a < 256
    ensures GetColor("#" + Hex2(r) + Hex2(g) + Hex2(b) + Hex2(a)) == Ok(Rgb(r, g, b))
  {
    var v := "#" + Hex2(r) + Hex2(g) + Hex2(b) + Hex2(a);
    assert Leading6(v) == Hex2(r) + Hex2(g) + Hex2(b);
    OtherHashLength(v);
    assert "#" + (Hex2(r) + Hex2(g) + Hex2(b)) == "#" + Hex2(r) + Hex2(g) + Hex2(b);
    Hex6Decodes(r, g, b);
  }

  /** The table is matched exactly: `white` is a name, and `White` goes to `Color.decode`, which rejects it. */
  lemma NamesAreCaseSensitive(name: string)
    requires |name| > 0 && 'A' <= name[0] <= 'Z' && name !in HtmlColors
    ensures GetColorAsWritten("white") == Ok(Rgb(255, 255, 255))
    ensures GetColorAsWritten(name) == Fail(NumberFormat)
  {
    DecodeDecimal(name);
  }

  // ------------------------------------------------------------ fonts

  /** `FontKey`: family, size and the `Font` style bits for weight and slant. */
  datatype FontKey = FontKey(family: string, size: int, weight: int, style: int)

  const Plain: int := 0
  const Bold: int := 1
  const Italic: int := 2
  const SansSerif: string := "SansSerif"
  const Monospaced: string := "Monospaced"

  /**
   * What the engines read from a font: `getStringBounds(text).width` and
   * `.height`, and `getLineMetrics(text)`'s ascent, descent and height,
   * each truncated to an `Int`.
   */
  datatype Measure = Measure(
    width: (FontKey, string) -> int,
    height: (FontKey, string) -> int,
    ascent: (FontKey, string) -> int,
    descent: (FontKey, string) -> int,
    lineHeight: (FontKey, string) -> int)

  /**
   * Everything a layout reads from the platform: the metrics above and
   * `getFont(style)`, whose family lookup and `0.75` size scaling are not
   * part of this model.
   */
  datatype Env = Env(m: Measure, fontOf: Style -> FontKey)

  /** The geometry every layout exposes: `x`, `y`, `width` and `height`. */
  datatype Rect = Rect(x: int, y: int, width: int, height: int)

  // ------------------------------------------------------------ drawing

  /** The display-list commands of Drawable.kt. */
  datatype Drawable =
    | DrawText(left: int, top: int, text: string, font: FontKey, color: Color)
    | DrawRect(left: int, top: int, right: int, bottom: int, color: Color)
    | DrawLine(x1: int, y1: int, x2: int, y2: int, color: Color, thickness: int)

  /**
   * `node.style["background-color"]?.let { getColor(it) }` drawn over the
   * whole box: nothing without the property, and the colour's exception
   * when it cannot be read.
   */
  function Background(n: Node, r: Rect): (cmds: Outcome<seq<Drawable>>)
    ensures "background-color" !in n.style ==> cmds == Ok([])
    ensures cmds.Ok? ==> forall i :: 0 <= i < |cmds.value| ==> cmds.value[i].DrawRect?
  {
    if "background-color" in n.style then
      var color :- GetColorAsWritten(n.style["background-color"]);
      Ok([DrawRect(r.x, r.y, r.x + r.width, r.y + r.height, color)])
    else Ok([])
  }

  // ------------------------------------------------------------ arithmetic

  /** `(n / d).toInt()` for a positive `d`: the quotient truncated toward zero. */
  function Trunc(n: int, d: int): (q: int)
    requires d > 0
    ensures n >= 0 ==> q == n / d
    ensures n < 0 ==> q == -((-n) / d)
  {
    if n >= 0 then n / d else -((-n) / d)
  }

  /** `maxOfOrNull { .. } ?: 0` */
  function MaxOrZero(s: seq<int>): (r: int)
    ensures s == [] ==> r == 0
    ensures s != [] ==> (forall i :: 0 <= i < |s| ==> s[i] <= r) && r in s
  {
    if s == [] then 0
    else if |s| == 1 then s[0]
    else Max(s[0], MaxOrZero(s[1..]))
  }

  /** `(cursorY + 1.25 * ascent).toInt()`, the line's baseline. */
  function Baseline(cursorY: int, ascent: int): int
  {
    Trunc(4 * cursorY + 5 * ascent, 4)
  }

  /** `(cursorY + 1.25 * ascent + 1.25 * descent).toInt()`, where the next line starts. */
  function LineBottom(cursorY: int, ascent: int, descent: int): int
  {
    Trunc(4 * cursorY + 5 * ascent + 5 * descent, 4)
  }

  /** A line without words leaves the cursor where it was; a line with metrics that are not negative never moves it up. */
  lemma LineBottomGrows(cursorY: int, ascent: int, descent: int)
    ensures LineBottom(cursorY, 0, 0) == cursorY && Baseline(cursorY, 0) == cursorY
    ensures ascent >= 0 && descent >= 0 ==> LineBottom(cursorY, ascent, descent) >= cursorY
  {
  }
}
