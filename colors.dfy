/**
 * RGBA colours (src/game/ecs/components/Color.ts).
 *
 * Every operation of the source returns a new colour, so a colour is a value.
 * Each channel is an integer in [0, 255]: the constructor floors its argument
 * and clamps it into that range.
 */
module Colors {
  import Seqs
  import opened Wrappers

  type Channel = x: int | 0 <= x <= 255

  datatype Color = Color(r: Channel, g: Channel, b: Channel, a: Channel)

  /** `Math.max(0, Math.min(255, Math.floor(x)))`. */
  function ClampChannel(x: real): (c: Channel)
    ensures x < 0.0 ==> c == 0
    ensures x >= 255.0 ==> c == 255
    ensures 0.0 <= x < 256.0 ==> c == x.Floor
    ensures c as real <= x || x < 0.0
  {
    var f := x.Floor;
    if f < 0 then 0 else if f > 255 then 255 else f
  }

  /** The constructor: every channel floored and clamped. */
  function MakeColor(r: real, g: real, b: real, a: real): (c: Color)
    ensures c.r == ClampChannel(r) && c.g == ClampChannel(g)
    ensures c.b == ClampChannel(b) && c.a == ClampChannel(a)
  {
    Color(ClampChannel(r), ClampChannel(g), ClampChannel(b), ClampChannel(a))
  }

  /** The constructor's defaults are 255 for every channel: opaque white. */
  function DefaultColor(): (c: Color)
    ensures c == White
  {
    MakeColor(255.0, 255.0, 255.0, 255.0)
  }

  const White: Color := Color(255, 255, 255, 255)
  const Black: Color := Color(0, 0, 0, 255)
  const Red: Color := Color(255, 0, 0, 255)
  const Green: Color := Color(0, 255, 0, 255)
  const Blue: Color := Color(0, 0, 255, 255)
  const Yellow: Color := Color(255, 255, 0, 255)
  const Cyan: Color := Color(0, 255, 255, 255)
  const Magenta: Color := Color(255, 0, 255, 255)
  const Transparent: Color := Color(0, 0, 0, 0)

  /** The named colours are what their factories pass to the constructor. */
  lemma NamedColours()
    ensures MakeColor(255.0, 255.0, 255.0, 255.0) == White && MakeColor(0.0, 0.0, 0.0, 255.0) == Black
    ensures MakeColor(255.0, 0.0, 0.0, 255.0) == Red && MakeColor(0.0, 255.0, 0.0, 255.0) == Green
    ensures MakeColor(0.0, 0.0, 255.0, 255.0) == Blue && MakeColor(255.0, 255.0, 0.0, 255.0) == Yellow
    ensures MakeColor(0.0, 255.0, 255.0, 255.0) == Cyan && MakeColor(255.0, 0.0, 255.0, 255.0) == Magenta
    ensures MakeColor(0.0, 0.0, 0.0, 0.0) == Transparent
  {
    ClampChannelOfChannel(0);
    ClampChannelOfChannel(255);
  }

  /** A channel value passes through the constructor unchanged. */
  lemma ClampChannelOfChannel(c: Channel)
    ensures ClampChannel(c as real) == c
  {
  }

  // ----- hexadecimal rendering and parsing -----

  predicate IsHexDigit(ch: char) {
    ('0' <= ch <= '9') || ('a' <= ch <= 'f') || ('A' <= ch <= 'F')
  }

  predicate IsLowerHexDigit(ch: char) {
    ('0' <= ch <= '9') || ('a' <= ch <= 'f')
  }

  /** `toString(16)` of one digit: lower case. */
  function HexDigit(d: nat): (ch: char)
    requires d < 16
    ensures IsLowerHexDigit(ch)
  {
    if d < 10 then (('0' as int) + d) as char else (('a' as int) + d - 10) as char
  }

  /** `parseInt(_, 16)` of one digit, accepting both cases. */
  function HexValue(ch: char): (d: nat)
    requires IsHexDigit(ch)
    ensures d < 16
  {
    if '0' <= ch <= '9' then (ch as int) - ('0' as int)
    else if 'a' <= ch <= 'f' then (ch as int) - ('a' as int) + 10
    else (ch as int) - ('A' as int) + 10
  }

  lemma HexValueOfDigit(d: nat)
    requires d < 16
    ensures HexValue(HexDigit(d)) == d
  {
  }

  /** `n.toString(16).padStart(2, '0')` for a channel: always two lower-case digits. */
  function ChannelToHex(n: Channel): (s: string)
    ensures |s| == 2 && IsLowerHexDigit(s[0]) && IsLowerHexDigit(s[1])
  {
    [HexDigit(n / 16), HexDigit(n % 16)]
  }

  /** `parseInt` of two hex digits. */
  function ParseHexByte(s: string): (n: Channel)
    requires |s| == 2 && IsHexDigit(s[0]) && IsHexDigit(s[1])
  {
    HexValue(s[0]) * 16 + HexValue(s[1])
  }

  lemma ParseChannelToHex(n: Channel)
    ensures ParseHexByte(ChannelToHex(n)) == n
  {
    HexValueOfDigit(n / 16);
    HexValueOfDigit(n % 16);
  }

  /** `toHex`: '#' followed by two lower-case hex digits each for r, g, b and a. */
  function ToHex(c: Color): (s: string)
    ensures |s| == 9 && s[0] == '#'
    ensures forall i :: 1 <= i < 9 ==> IsLowerHexDigit(s[i])
    ensures s[1..3] == ChannelToHex(c.r) && s[3..5] == ChannelToHex(c.g)
    ensures s[5..7] == ChannelToHex(c.b) && s[7..9] == ChannelToHex(c.a)
  {
    "#" + ChannelToHex(c.r) + ChannelToHex(c.g) + ChannelToHex(c.b) + ChannelToHex(c.a)
  }

  /** The part of a hex string that `fromHex` reads is made of hex digits. */
  predicate WellFormedHex(clean: string) {
    |clean| >= 6
    && (forall i :: 0 <= i < 6 ==> IsHexDigit(clean[i]))
    && (|clean| == 8 ==> IsHexDigit(clean[6]) && IsHexDigit(clean[7]))
  }

  /**
   * The white space `parseInt` skips before the number: the ECMAScript
   * WhiteSpace and LineTerminator characters.
   */
  predicate IsJsWhiteSpace(ch: char) {
    var n := ch as int;
    n == 0x09 || n == 0x0A || n == 0x0B || n == 0x0C || n == 0x0D || n == 0x20
    || n == 0xA0 || n == 0x1680 || (0x2000 <= n <= 0x200A) || n == 0x2028 || n == 0x2029
    || n == 0x202F || n == 0x205F || n == 0x3000 || n == 0xFEFF
  }

  /** The number of hex digits `s` starts with. */
  function LeadingHexDigits(s: string): (n: nat)
    ensures n <= |s|
    ensures forall i :: 0 <= i < n ==> IsHexDigit(s[i])
    ensures n < |s| ==> !IsHexDigit(s[n])
  {
    if |s| == 0 || !IsHexDigit(s[0]) then 0 else 1 + LeadingHexDigits(s[1..])
  }

  /** The value of a string of hex digits, most significant first. */
  function HexNumber(s: string): (n: nat)
    requires forall i :: 0 <= i < |s| ==> IsHexDigit(s[i])
    ensures |s| <= 1 ==> n < 16
    ensures |s| <= 2 ==> n < 256
  {
    if |s| == 0 then 0 else HexNumber(s[..|s| - 1]) * 16 + HexValue(s[|s| - 1])
  }

  /** `parseInt` of what follows the sign: an optional "0x" or "0X" prefix, then the longest run of hex digits. */
  function ParseUnsignedHex(s: string): (r: Option<nat>)
    ensures |s| <= 2 && r.Some? ==> r.value < 256
    ensures |s| <= 1 && r.Some? ==> r.value < 16
  {
    var v := if |s| >= 2 && s[0] == '0' && (s[1] == 'x' || s[1] == 'X') then s[2..] else s;
    var k := LeadingHexDigits(v);
    if k == 0 then None else Some(HexNumber(v[..k]))
  }

  /**
   * `parseInt(s, 16)`: leading white space is skipped, then one '+' or '-',
   * then a "0x" or "0X" prefix; the longest run of hex digits that follows is
   * the magnitude. Without a digit there the result is NaN, here `None`.
   */
  function ParseIntHex(s: string): (r: Option<int>)
    ensures |s| <= 2 && r.Some? ==> -15 <= r.value <= 255
  {
    if |s| > 0 && IsJsWhiteSpace(s[0]) then ParseIntHex(s[1..])
    else if |s| > 0 && s[0] == '-' then
      match ParseUnsignedHex(s[1..])
      case None => None
      case Some(m) => Some(-(m as int))
    else if |s| > 0 && s[0] == '+' then
      match ParseUnsignedHex(s[1..])
      case None => None
      case Some(m) => Some(m as int)
    else
      match ParseUnsignedHex(s)
      case None => None
      case Some(m) => Some(m as int)
  }

  /** A string without any hex digit is NaN. */
  lemma {:induction false} ParseIntHexNoDigit(s: string)
    requires forall i :: 0 <= i < |s| ==> !IsHexDigit(s[i])
    ensures ParseIntHex(s) == None
  {
    if |s| > 0 && IsJsWhiteSpace(s[0]) {
      ParseIntHexNoDigit(s[1..]);
    } else {
      var t := if |s| > 0 && (s[0] == '-' || s[0] == '+') then s[1..] else s;
      if |t| > 0 {
        assert t[0] == s[|s| - |t|];
      }
    }
  }

  lemma LeadingHexDigitsOfByte(s: string)
    requires |s| == 2 && IsHexDigit(s[0]) && IsHexDigit(s[1])
    ensures LeadingHexDigits(s) == 2
  {
    assert s[1..][1..] == [];
  }

  lemma HexNumberOfByte(s: string)
    requires |s| == 2 && IsHexDigit(s[0]) && IsHexDigit(s[1])
    ensures HexNumber(s) == ParseHexByte(s)
  {
    assert s[..1] == [s[0]] && [s[0]][..0] == [];
  }

  /** Two hex digits are read as one byte. */
  lemma ParseIntHexByte(s: string)
    requires |s| == 2 && IsHexDigit(s[0]) && IsHexDigit(s[1])
    ensures ParseIntHex(s) == Some(ParseHexByte(s))
  {
    LeadingHexDigitsOfByte(s);
    HexNumberOfByte(s);
    assert s[..2] == s;
  }

  lemma ParseUnsignedHexOneDigit(s: string)
    requires |s| >= 1 && IsHexDigit(s[0]) && s[0] != '0' && (|s| == 1 || !IsHexDigit(s[1]))
    ensures ParseUnsignedHex(s) == Some(HexValue(s[0]))
  {
    assert LeadingHexDigits(s[1..]) == 0;
    var d := s[..1];
    assert d == [s[0]] && d[..0] == [];
    assert HexNumber(d) == HexValue(s[0]);
  }

  /** After a '-' sign the magnitude is negated. */
  lemma ParseIntHexNegative(s: string)
    requires |s| >= 1 && s[0] == '-' && ParseUnsignedHex(s[1..]).Some?
    ensures ParseIntHex(s) == Some(-(ParseUnsignedHex(s[1..]).value as int))
  {
    assert !IsJsWhiteSpace(s[0]);
  }

  /** A digit other than '0' followed by a non-digit is read alone. */
  lemma ParseIntHexDigitPrefix(s: string)
    requires |s| >= 1 && IsHexDigit(s[0]) && s[0] != '0' && (|s| == 1 || !IsHexDigit(s[1]))
    ensures ParseIntHex(s) == Some(HexValue(s[0]))
  {
    assert !IsJsWhiteSpace(s[0]) && s[0] != '-' && s[0] != '+';
    ParseUnsignedHexOneDigit(s);
  }

  /** `substring(i, j)` with both ends clamped to the length (here `i <= j`). */
  function Substring(s: string, i: nat, j: nat): (t: string)
    requires i <= j
    ensures j <= |s| ==> t == s[i..j]
    ensures |s| <= i ==> t == []
  {
    var a := if i < |s| then i else |s|;
    var b := if j < |s| then j else |s|;
    s[a..b]
  }

  /**
   * `fromHex`: the first '#' is removed; r, g and b are `parseInt(_, 16)` of
   * the characters at 0-1, 2-3 and 4-5, and alpha of those at 6-7 when
   * exactly eight characters remain (otherwise 255); each then goes through
   * the constructor's floor and clamp. A group on which `parseInt` yields
   * NaN gives `None`.
   */
  function FromHex(hex: string): (r: Option<Color>)
    ensures var clean := Seqs.RemoveFirst(hex, '#');
      r.Some? <==> (ParseIntHex(Substring(clean, 0, 2)).Some? && ParseIntHex(Substring(clean, 2, 4)).Some?
        && ParseIntHex(Substring(clean, 4, 6)).Some? && (|clean| == 8 ==> ParseIntHex(clean[6..8]).Some?))
    ensures var clean := Seqs.RemoveFirst(hex, '#');
      r.Some? ==> (r.value.r == ClampChannel(ParseIntHex(Substring(clean, 0, 2)).value as real)
        && r.value.g == ClampChannel(ParseIntHex(Substring(clean, 2, 4)).value as real)
        && r.value.b == ClampChannel(ParseIntHex(Substring(clean, 4, 6)).value as real))
    ensures var clean := Seqs.RemoveFirst(hex, '#');
      r.Some? && |clean| != 8 ==> r.value.a == 255
    ensures var clean := Seqs.RemoveFirst(hex, '#');
      r.Some? && |clean| == 8 ==> r.value.a == ClampChannel(ParseIntHex(clean[6..8]).value as real)
  {
    var clean := Seqs.RemoveFirst(hex, '#');
    var pr, pg, pb := ParseIntHex(Substring(clean, 0, 2)), ParseIntHex(Substring(clean, 2, 4)), ParseIntHex(Substring(clean, 4, 6));
    var pa := if |clean| == 8 then ParseIntHex(clean[6..8]) else Some(255);
    if pr.None? || pg.None? || pb.None? || pa.None? then None
    else Some(MakeColor(pr.value as real, pg.value as real, pb.value as real, pa.value as real))
  }

  /** On well-formed hex every group is read as the byte its two digits denote. */
  lemma FromHexWellFormed(hex: string)
    requires WellFormedHex(Seqs.RemoveFirst(hex, '#'))
    ensures var clean := Seqs.RemoveFirst(hex, '#');
      FromHex(hex).Some?
      && FromHex(hex).value.r == ParseHexByte(clean[0..2]) && FromHex(hex).value.g == ParseHexByte(clean[2..4])
      && FromHex(hex).value.b == ParseHexByte(clean[4..6])
      && (|clean| == 8 ==> FromHex(hex).value.a == ParseHexByte(clean[6..8]))
  {
    var clean := Seqs.RemoveFirst(hex, '#');
    var r, g, b := clean[0..2], clean[2..4], clean[4..6];
    assert Substring(clean, 0, 2) == r && Substring(clean, 2, 4) == g && Substring(clean, 4, 6) == b;
    ParseIntHexByte(r);
    ParseIntHexByte(g);
    ParseIntHexByte(b);
    ClampChannelOfChannel(ParseHexByte(r));
    ClampChannelOfChannel(ParseHexByte(g));
    ClampChannelOfChannel(ParseHexByte(b));
    if |clean| == 8 {
      ParseIntHexByte(clean[6..8]);
      ClampChannelOfChannel(ParseHexByte(clean[6..8]));
    }
  }

  /** `fromHex` of a '#' and fewer or more than eight characters whose three groups parse. */
  lemma FromHexOfGroups(hex: string, clean: string, r: int, g: int, b: int)
    requires |hex| > 0 && hex[0] == '#' && clean == hex[1..] && |clean| != 8
    requires ParseIntHex(Substring(clean, 0, 2)) == Some(r) && ParseIntHex(Substring(clean, 2, 4)) == Some(g)
    requires ParseIntHex(Substring(clean, 4, 6)) == Some(b)
    ensures FromHex(hex) == Some(MakeColor(r as real, g as real, b as real, 255.0))
  {
    RemoveLeadingHash(hex);
  }

  /** `fromHex` of a '#' and eight characters whose four groups parse. */
  lemma FromHexOfFourGroups(hex: string, clean: string, r: int, g: int, b: int, a: int)
    requires |hex| > 0 && hex[0] == '#' && clean == hex[1..] && |clean| == 8
    requires ParseIntHex(Substring(clean, 0, 2)) == Some(r) && ParseIntHex(Substring(clean, 2, 4)) == Some(g)
    requires ParseIntHex(Substring(clean, 4, 6)) == Some(b) && ParseIntHex(clean[6..8]) == Some(a)
    ensures FromHex(hex) == Some(MakeColor(r as real, g as real, b as real, a as real))
  {
    RemoveLeadingHash(hex);
  }

  /** The alpha group is read by `parseInt` too: "7g" gives 7. */
  lemma FromHexAlphaDigitPrefix()
    ensures FromHex("#1234567g") == Some(Color(18, 52, 86, 7))
  {
    var clean := "1234567g";
    assert Substring(clean, 0, 2) == "12" && Substring(clean, 2, 4) == "34" && Substring(clean, 4, 6) == "56";
    assert clean[6..8] == "7g";
    ParseIntHexByte("12");
    ParseIntHexByte("34");
    ParseIntHexByte("56");
    ParseIntHexDigitPrefix("7g");
    FromHexOfFourGroups("#1234567g", clean, 18, 52, 86, 7);
    ClampChannelOfChannel(18);
    ClampChannelOfChannel(52);
    ClampChannelOfChannel(86);
    ClampChannelOfChannel(7);
  }

  /** `parseInt` reads only the leading digit of "1g". */
  lemma FromHexDigitPrefix()
    ensures FromHex("#1g0000") == Some(Color(1, 0, 0, 255))
  {
    var clean := "1g0000";
    assert Substring(clean, 0, 2) == "1g" && Substring(clean, 2, 4) == "00" && Substring(clean, 4, 6) == "00";
    ParseIntHexDigitPrefix("1g");
    ParseIntHexByte("00");
    FromHexOfGroups("#1g0000", clean, 1, 0, 0);
    ClampChannelOfChannel(1);
    ClampChannelOfChannel(0);
    ClampChannelOfChannel(255);
  }

  /** Five digits: blue is read from the single digit left. */
  lemma FromHexFiveDigits()
    ensures FromHex("#12345") == Some(Color(18, 52, 5, 255))
  {
    var clean := "12345";
    assert Substring(clean, 0, 2) == "12" && Substring(clean, 2, 4) == "34" && Substring(clean, 4, 6) == "5";
    ParseIntHexByte("12");
    ParseIntHexByte("34");
    ParseIntHexDigitPrefix("5");
    FromHexOfGroups("#12345", clean, 18, 52, 5);
    ClampChannelOfChannel(18);
    ClampChannelOfChannel(52);
    ClampChannelOfChannel(5);
    ClampChannelOfChannel(255);
  }

  /** A leading '-' makes the red group negative, and the constructor clamps it to 0. */
  lemma FromHexNegativeGroup()
    ensures FromHex("#-10000") == Some(Color(0, 0, 0, 255))
  {
    var clean := "-10000";
    assert Substring(clean, 0, 2) == "-1" && Substring(clean, 2, 4) == "00" && Substring(clean, 4, 6) == "00";
    assert "-1"[1..] == "1";
    ParseUnsignedHexOneDigit("1");
    ParseIntHexNegative("-1");
    ParseIntHexByte("00");
    FromHexOfGroups("#-10000", clean, -1, 0, 0);
    ClampChannelOfChannel(0);
    ClampChannelOfChannel(255);
  }

  /** A group without a digit is NaN, so there is no colour. */
  lemma FromHexNoDigitGroup()
    ensures FromHex("#zz0000") == None
  {
    var clean := "zz0000";
    RemoveLeadingHash("#zz0000");
    assert "#zz0000"[1..] == clean;
    assert Substring(clean, 0, 2) == "zz";
    ParseIntHexNoDigit("zz");
  }

  /** Reading back the hex rendering of a colour gives the colour. */
  lemma FromHexToHex(c: Color)
    ensures FromHex(ToHex(c)) == Some(c)
  {
    var s := ToHex(c);
    var clean := Seqs.RemoveFirst(s, '#');
    RemoveLeadingHash(s);
    assert clean[0..2] == s[1..3] && clean[2..4] == s[3..5];
    assert clean[4..6] == s[5..7] && clean[6..8] == s[7..9];
    assert WellFormedHex(clean);
    FromHexWellFormed(s);
    ParseChannelToHex(c.r);
    ParseChannelToHex(c.g);
    ParseChannelToHex(c.b);
    ParseChannelToHex(c.a);
  }

  /** A six-digit string yields an opaque colour. */
  lemma FromHexSixDigits(hex: string)
    requires |hex| == 7 && hex[0] == '#'
    requires forall i :: 1 <= i < 7 ==> IsHexDigit(hex[i])
    ensures FromHex(hex)
      == Some(Color(ParseHexByte(hex[1..3]), ParseHexByte(hex[3..5]), ParseHexByte(hex[5..7]), 255))
  {
    RemoveLeadingHash(hex);
    assert hex[1..][0..2] == hex[1..3] && hex[1..][2..4] == hex[3..5] && hex[1..][4..6] == hex[5..7];
    FromHexWellFormed(hex);
  }

  /** `replace('#', '')` on a string that starts with '#' drops exactly that character. */
  lemma RemoveLeadingHash(s: string)
    requires |s| > 0 && s[0] == '#'
    ensures Seqs.RemoveFirst(s, '#') == s[1..]
  {
    assert Seqs.IndexOf(s, '#') == 0;
  }

  // ----- packed integer -----

  /**
   * `toPixiColor`: red in bits 16-23, green in bits 8-15, blue in bits 0-7;
   * alpha is dropped. The source combines the shifted channels with a bitwise
   * or; `PackedOrIsSum` shows that on 32-bit words this is the sum below.
   */
  function ToPixiColor(c: Color): (n: int)
    ensures 0 <= n <= 0xFF_FFFF
    ensures UnpackRgb(n) == (c.r, c.g, c.b)
  {
    var n := c.r * 65536 + c.g * 256 + c.b;
    DivMod256(n, c.r * 256 + c.g, c.b);
    DivMod256(c.r * 256 + c.g, c.r, c.g);
    n
  }

  /** The channels read back out of a packed 24-bit value. */
  function UnpackRgb(n: int): (int, int, int) {
    (n / 256 / 256, (n / 256) % 256, n % 256)
  }

  lemma DivMod256(n: int, q: int, r: int)
    requires 0 <= r < 256 && n == q * 256 + r
    ensures n / 256 == q && n % 256 == r
  {
  }

  /** The shifted channels occupy disjoint bits, so the bitwise or of the source is the sum. */
  lemma PackedOrIsSum(r: bv32, g: bv32, b: bv32)
    requires r < 256 && g < 256 && b < 256
    ensures (r << 16) | (g << 8) | b == r * 65536 + g * 256 + b
  {
  }

  /** The packed value ignores alpha only: it determines r, g and b. */
  lemma ToPixiColorInjectiveOnRgb(c: Color, d: Color)
    requires ToPixiColor(c) == ToPixiColor(d)
    ensures c.r == d.r && c.g == d.g && c.b == d.b
    ensures c.a != d.a ==> c != d
  {
  }

  // ----- copy, equality, interpolation -----

  /** `copy`: a colour with the same four channels. */
  function Copy(c: Color): (r: Color)
    ensures Equals(r, c)
  {
    MakeColor(c.r as real, c.g as real, c.b as real, c.a as real)
  }

  /** `equals` compares all four channels. */
  function Equals(c: Color, d: Color): (b: bool)
    ensures b <==> c == d
  {
    c.r == d.r && c.g == d.g && c.b == d.b && c.a == d.a
  }

  function Clamp01(t: real): (r: real)
    ensures 0.0 <= r <= 1.0
    ensures 0.0 <= t <= 1.0 ==> r == t
    ensures t < 0.0 ==> r == 0.0
    ensures t > 1.0 ==> r == 1.0
  {
    if t < 0.0 then 0.0 else if t > 1.0 then 1.0 else t
  }

  function LerpChannel(x: Channel, y: Channel, t: real): (c: Channel)
    requires 0.0 <= t <= 1.0
    ensures t == 0.0 ==> c == x
    ensures t == 1.0 ==> c == y
    ensures (x <= c <= y) || (y <= c <= x)
  {
    var v := x as real + (y - x) as real * t;
    BetweenChannels(x, y, t);
    ClampChannel(v)
  }

  lemma BetweenChannels(x: Channel, y: Channel, t: real)
    requires 0.0 <= t <= 1.0
    ensures var v := x as real + (y - x) as real * t;
      (x as real <= v <= y as real) || (y as real <= v <= x as real)
  {
    var X, Y := x as real, y as real;
    assert (y - x) as real == Y - X;
    LerpBetween(X, Y, t);
  }

  /** An interpolation point with a fraction in [0, 1] lies between the two ends. */
  lemma LerpBetween(x: real, y: real, t: real)
    requires 0.0 <= t <= 1.0
    ensures x <= y ==> x <= x + (y - x) * t <= y
    ensures y <= x ==> y <= x + (y - x) * t <= x
  {
    if x <= y {
      LerpUp(x, y, t);
    } else {
      LerpUp(-x, -y, t);
      assert (-y - -x) * t == -((y - x) * t);
    }
  }

  lemma LerpUp(x: real, y: real, t: real)
    requires 0.0 <= t <= 1.0 && x <= y
    ensures x <= x + (y - x) * t <= y
  {
    var k := y - x;
    ScaleBetween(k, t);
    var m := k * t;
    assert 0.0 <= m <= k;
    assert x + m <= y;
    assert m == (y - x) * t;
  }

  /** Scaling a non-negative amount by a fraction keeps it between 0 and the amount. */
  lemma ScaleBetween(k: real, t: real)
    requires k >= 0.0 && 0.0 <= t <= 1.0
    ensures 0.0 <= k * t <= k
  {
    assert k - k * t == k * (1.0 - t);
  }

  /** `lerp` with `t` clamped into [0, 1], each channel floored and clamped. */
  function Lerp(c: Color, d: Color, t: real): (r: Color)
    ensures t <= 0.0 ==> r == c
    ensures t >= 1.0 ==> r == d
    ensures (c.r <= r.r <= d.r) || (d.r <= r.r <= c.r)
    ensures (c.g <= r.g <= d.g) || (d.g <= r.g <= c.g)
    ensures (c.b <= r.b <= d.b) || (d.b <= r.b <= c.b)
    ensures (c.a <= r.a <= d.a) || (d.a <= r.a <= c.a)
  {
    var s := Clamp01(t);
    Color(LerpChannel(c.r, d.r, s), LerpChannel(c.g, d.g, s), LerpChannel(c.b, d.b, s), LerpChannel(c.a, d.a, s))
  }
}
