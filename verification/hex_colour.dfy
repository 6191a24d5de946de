/** The colour arithmetic of the viewer's shading step: Python's
    `int(text, 16)` on the two-character channel slices of a `#rrggbb` name,
    the scaled channels truncated with `int(...)`, and the result written back
    with the `02x` format. */
module HexColour {
  import opened Numeric
  import opened Results

  /** The characters `str.strip()` and `int()` treat as white space, restricted
      to ASCII. */
  predicate IsSpace(c: char) {
    c == ' ' || ('\t' <= c <= '\r') || ('\U{1C}' <= c <= '\U{1F}')
  }

  predicate IsHexDigit(c: char) {
    ('0' <= c <= '9') || ('a' <= c <= 'f') || ('A' <= c <= 'F')
  }

  function DigitValue(c: char): (v: int)
    requires IsHexDigit(c)
    ensures 0 <= v < 16
  {
    if '0' <= c <= '9' then c as int - '0' as int
    else if 'a' <= c <= 'f' then c as int - 'a' as int + 10
    else c as int - 'A' as int + 10
  }

  /** The lower-case digit `format` writes for a value below 16. */
  function HexChar(d: int): (c: char)
    requires 0 <= d < 16
    ensures IsHexDigit(c) && DigitValue(c) == d && !('A' <= c <= 'F')
  {
    if d < 10 then ('0' as int + d) as char else ('a' as int + d - 10) as char
  }

  /** Python's `s[a:b]` for `0 <= a <= b`: out-of-range ends are clamped,
      never an error. */
  function Slice(s: string, a: nat, b: nat): (r: string)
    requires a <= b
    ensures |r| <= b - a
    ensures b <= |s| ==> r == s[a..b]
    ensures a <= |s| < b ==> r == s[a..]
    ensures |s| <= a ==> r == ""
  {
    var hi := if b <= |s| then b else |s|;
    var lo := if a <= hi then a else hi;
    s[lo..hi]
  }

  function StripLeft(s: string): (r: string)
    ensures |r| <= |s| && (|r| > 0 ==> !IsSpace(r[0]))
    decreases |s|
  {
    if |s| > 0 && IsSpace(s[0]) then StripLeft(s[1..]) else s
  }

  function StripRight(s: string): (r: string)
    ensures |r| <= |s| && (|r| > 0 ==> !IsSpace(r[|r| - 1]))
    decreases |s|
  {
    if |s| > 0 && IsSpace(s[|s| - 1]) then StripRight(s[..|s| - 1]) else s
  }

  /** A run of hex digits in which single underscores may separate digits;
      after a `0x` prefix one underscore may also lead. */
  predicate DigitGroups(d: string, prefixed: bool) {
    && |d| > 0
    && (forall i :: 0 <= i < |d| ==> IsHexDigit(d[i]) || d[i] == '_')
    && (d[0] == '_' ==> prefixed)
    && d[|d| - 1] != '_'
    && (forall i :: 0 <= i < |d| - 1 ==> !(d[i] == '_' && d[i + 1] == '_'))
  }

  /** The value of a digit run, underscores skipped. */
  function GroupValue(d: string): (v: nat)
    requires forall i :: 0 <= i < |d| ==> IsHexDigit(d[i]) || d[i] == '_'
  {
    if |d| == 0 then 0
    else
      var last := d[|d| - 1];
      var rest := GroupValue(d[..|d| - 1]);
      if last == '_' then rest else rest * 16 + DigitValue(last)
  }

  /** `int(s, 16)`: surrounding white space, then an optional sign, an
      optional `0x`/`0X` prefix and the digits; anything else is the
      `ValueError` that `draw`'s shading catches, here `None`. */
  function ParseHex(s: string): Option<int> {
    var t := StripRight(StripLeft(s));
    var neg := |t| > 0 && t[0] == '-';
    var u := if |t| > 0 && (t[0] == '+' || t[0] == '-') then t[1..] else t;
    var prefixed := |u| >= 2 && u[0] == '0' && (u[1] == 'x' || u[1] == 'X');
    var d := if prefixed then u[2..] else u;
    if DigitGroups(d, prefixed) then
      var v: int := GroupValue(d);
      Some(if neg then -v else v)
    else None
  }

  /** The digits of `n` in lower-case hexadecimal, without leading zeros. */
  function Hex(n: nat): (s: string)
    ensures |s| >= 1
    decreases n
  {
    if n < 16 then [HexChar(n)] else Hex(n / 16) + [HexChar(n % 16)]
  }

  /** `f"{n:02x}"`: the sign, then the digits zero-padded so that the whole
      is at least two characters wide (one zero is the most that can take). */
  function Format02x(n: int): (s: string)
    ensures |s| >= 2
  {
    var sign := if n < 0 then "-" else "";
    var digits := Hex(if n < 0 then -n else n);
    if |sign| + |digits| < 2 then sign + "0" + digits else sign + digits
  }

  predicate LowerHex(s: string) {
    forall i :: 0 <= i < |s| ==> IsHexDigit(s[i]) && !('A' <= s[i] <= 'F')
  }

  /** A byte comes out as exactly two lower-case digits, high one first. */
  lemma FormatByte(n: int)
    requires 0 <= n < 256
    ensures Format02x(n) == [HexChar(n / 16), HexChar(n % 16)]
    ensures LowerHex(Format02x(n))
  {
    if n >= 16 {
      assert Hex(n / 16) == [HexChar(n / 16)];
    }
  }

  /** Two hex digits have the value of a byte, high digit first. */
  lemma GroupValueTwo(s: string)
    requires |s| == 2 && IsHexDigit(s[0]) && IsHexDigit(s[1])
    ensures GroupValue(s) == DigitValue(s[0]) * 16 + DigitValue(s[1])
  {
    var head := s[..1];
    assert head[..0] == [];
    assert GroupValue(head) == DigitValue(s[0]);
  }

  /** Two hex digits parse to their value: there is no white space, sign or
      prefix to skip. */
  lemma ParseTwoDigits(s: string)
    requires |s| == 2 && IsHexDigit(s[0]) && IsHexDigit(s[1])
    ensures ParseHex(s) == Some(DigitValue(s[0]) * 16 + DigitValue(s[1]))
  {
    assert StripLeft(s) == s;
    assert StripRight(s) == s;
    GroupValueTwo(s);
  }

  /** Reading back a formatted byte gives the byte. */
  lemma ParseFormatByte(n: int)
    requires 0 <= n < 256
    ensures ParseHex(Format02x(n)) == Some(n)
  {
    FormatByte(n);
    ParseTwoDigits(Format02x(n));
  }

  /** `int(v * val)`: a channel value scaled by the shade factor and
      truncated toward zero. */
  function Scaled(v: int, val: real): int {
    Trunc(v as real * val)
  }

  /** The channel `int(int(part, 16) * val)`, or `None` on a parse error. */
  function Channel(part: string, val: real): Option<int> {
    match ParseHex(part)
    case None => None
    case Some(v) => Some(Scaled(v, val))
  }

  /** The two characters of channel `k` (red, green, blue), clamped like a
      Python slice. */
  function Part(color: string, k: nat): string
    requires k < 3
  {
    Slice(color, 1 + 2 * k, 3 + 2 * k)
  }

  /** The shaded colour: names not starting with `#` and names whose channels
      do not parse are returned unchanged. */
  function Shade(color: string, val: real): (r: string)
    ensures (|color| == 0 || color[0] != '#') ==> r == color
    ensures r != color ==> |r| >= 7 && r[0] == '#'
  {
    if |color| == 0 || color[0] != '#' then color
    else
      var red := Channel(Part(color, 0), val);
      var green := Channel(Part(color, 1), val);
      var blue := Channel(Part(color, 2), val);
      if red.None? || green.None? || blue.None? then color
      else "#" + Format02x(red.value) + Format02x(green.value) + Format02x(blue.value)
  }

  /** `#` followed by six hex digits, as the scene's colours are written. */
  predicate WellFormed(color: string) {
    |color| >= 7 && color[0] == '#' && forall i :: 1 <= i < 7 ==> IsHexDigit(color[i])
  }

  /** The byte channel `k` of a well-formed colour spells. */
  function Byte(color: string, k: nat): (b: int)
    requires WellFormed(color) && k < 3
    ensures 0 <= b < 256
  {
    DigitValue(color[1 + 2 * k]) * 16 + DigitValue(color[2 + 2 * k])
  }

  /** Channel `k` of a well-formed colour parses to its byte. */
  lemma PartParses(color: string, k: nat)
    requires WellFormed(color) && k < 3
    ensures ParseHex(Part(color, k)) == Some(Byte(color, k))
  {
    var part := Part(color, k);
    assert part == color[1 + 2 * k .. 3 + 2 * k];
    assert part[0] == color[1 + 2 * k] && part[1] == color[2 + 2 * k];
    ParseTwoDigits(part);
  }

  /** A well-formed colour whose bytes are `red`, `green` and `blue` is
      rewritten from those bytes, each scaled by `val` and truncated. */
  lemma ShadeWellFormed(color: string, val: real, red: int, green: int, blue: int)
    requires WellFormed(color)
    requires red == Byte(color, 0) && green == Byte(color, 1) && blue == Byte(color, 2)
    ensures Shade(color, val) == "#" + Format02x(Scaled(red, val))
      + Format02x(Scaled(green, val)) + Format02x(Scaled(blue, val))
  {
    PartParses(color, 0);
    PartParses(color, 1);
    PartParses(color, 2);
  }

  /** With a shade factor in `[0, 1]` the result is `#` and six lower-case
      hex digits. */
  lemma ShadeShape(color: string, val: real)
    requires WellFormed(color) && 0.0 <= val <= 1.0
    ensures var r := Shade(color, val); |r| == 7 && r[0] == '#' && LowerHex(r[1..])
  {
    var red, green, blue := Byte(color, 0), Byte(color, 1), Byte(color, 2);
    ShadeWellFormed(color, val, red, green, blue);
    ScaledByte(red, val);
    ScaledByte(green, val);
    ScaledByte(blue, val);
    FormattedShape(Shade(color, val), Scaled(red, val), Scaled(green, val), Scaled(blue, val));
  }

  /** Three bytes written with `02x` behind a `#` make a colour name. */
  lemma FormattedShape(r: string, a: int, b: int, c: int)
    requires 0 <= a < 256 && 0 <= b < 256 && 0 <= c < 256
    requires r == "#" + Format02x(a) + Format02x(b) + Format02x(c)
    ensures |r| == 7 && r[0] == '#' && LowerHex(r[1..])
  {
    FormatByte(a);
    FormatByte(b);
    FormatByte(c);
    LowerHexConcat(Format02x(a), Format02x(b), Format02x(c));
    assert r[1..] == Format02x(a) + Format02x(b) + Format02x(c);
  }

  lemma LowerHexConcat(a: string, b: string, c: string)
    requires |a| == 2 && |b| == 2 && |c| == 2
    requires LowerHex(a) && LowerHex(b) && LowerHex(c)
    ensures |a + b + c| == 6 && LowerHex(a + b + c)
  {
    var s := a + b + c;
    forall i | 0 <= i < 6
      ensures IsHexDigit(s[i]) && !('A' <= s[i] <= 'F')
    {
      if i < 2 {
        assert s[i] == a[i];
      } else if i < 4 {
        assert s[i] == b[i - 2];
      } else {
        assert s[i] == c[i - 4];
      }
    }
  }

  /** Scaling a byte by a factor in `[0, 1]` and truncating stays within
      `[0, byte]`. */
  lemma ScaledByte(b: int, val: real)
    requires 0 <= b < 256 && 0.0 <= val <= 1.0
    ensures 0 <= Scaled(b, val) <= b
  {
    var d := b as real;
    FractionOfLength(val, d);
    var p := d * val;
    assert p == val * d;
    assert 0.0 <= p <= d;
    TruncBetween(0.0, p, d);
    TruncOfInt(0);
    TruncOfInt(b);
  }

  /** Full brightness gives back a seven-character lower-case colour
      unchanged. */
  lemma ShadeFullBrightness(color: string)
    requires WellFormed(color) && |color| == 7 && LowerHex(color[1..])
    ensures Shade(color, 1.0) == color
  {
    ShadeWellFormed(color, 1.0, Byte(color, 0), Byte(color, 1), Byte(color, 2));
    FullBrightnessChannels(color);
    Reassemble(Shade(color, 1.0), color, Format02x(Scaled(Byte(color, 0), 1.0)),
               Format02x(Scaled(Byte(color, 1), 1.0)), Format02x(Scaled(Byte(color, 2), 1.0)));
  }

  lemma FullBrightnessChannels(color: string)
    requires WellFormed(color) && |color| == 7 && LowerHex(color[1..])
    ensures Format02x(Scaled(Byte(color, 0), 1.0)) == color[1..3]
    ensures Format02x(Scaled(Byte(color, 1), 1.0)) == color[3..5]
    ensures Format02x(Scaled(Byte(color, 2), 1.0)) == color[5..7]
  {
    FullBrightnessChannel(color, 0, Byte(color, 0));
    FullBrightnessChannel(color, 1, Byte(color, 1));
    FullBrightnessChannel(color, 2, Byte(color, 2));
  }

  /** A colour name is its `#` and its three channels put back together. */
  lemma Reassemble(r: string, color: string, x: string, y: string, z: string)
    requires |color| == 7 && color[0] == '#'
    requires x == color[1..3] && y == color[3..5] && z == color[5..7]
    requires r == "#" + x + y + z
    ensures r == color
  {
    assert color == color[..1] + color[1..3] + color[3..5] + color[5..7];
  }

  /** At full brightness a lower-case channel is written back as it was. */
  lemma FullBrightnessChannel(color: string, k: nat, b: int)
    requires WellFormed(color) && |color| == 7 && LowerHex(color[1..]) && k < 3
    requires b == Byte(color, k)
    ensures Format02x(Scaled(b, 1.0)) == color[1 + 2 * k .. 3 + 2 * k]
  {
    ScaledByOne(b);
    var hi, lo := color[1 + 2 * k], color[2 + 2 * k];
    DigitsDivMod(DigitValue(hi), DigitValue(lo));
    FormatByte(b);
    assert color[1..][2 * k] == hi && color[1..][2 * k + 1] == lo;
    LowerDigit(hi);
    LowerDigit(lo);
    assert color[1 + 2 * k .. 3 + 2 * k] == [hi, lo];
  }

  /** Scaling by one changes nothing. */
  lemma ScaledByOne(b: int)
    ensures Scaled(b, 1.0) == b
  {
    assert b as real * 1.0 == b as real;
    TruncOfInt(b);
  }

  /** The high and low digits of a byte are recovered by `/ 16` and `% 16`. */
  lemma DigitsDivMod(hi: int, lo: int)
    requires 0 <= hi < 16 && 0 <= lo < 16
    ensures (hi * 16 + lo) / 16 == hi && (hi * 16 + lo) % 16 == lo
  {
  }

  /** A lower-case digit is the digit `format` writes for its value. */
  lemma LowerDigit(c: char)
    requires IsHexDigit(c) && !('A' <= c <= 'F')
    ensures HexChar(DigitValue(c)) == c
  {
  }

  /** The `ValueError` path: when any channel fails to parse, the name is
      returned as it was. */
  lemma ShadeKeepsUnparsable(color: string, val: real, k: nat)
    requires |color| > 0 && color[0] == '#' && k < 3
    requires ParseHex(Part(color, k)) == None
    ensures Shade(color, val) == color
  {
    if k == 0 {
      assert Channel(Part(color, 0), val) == None;
    } else if k == 1 {
      assert Channel(Part(color, 1), val) == None;
    } else {
      assert Channel(Part(color, 2), val) == None;
    }
  }

  /** Short names are sliced with clamping: the blue slice of `#fff` is empty,
      so `int` refuses it and the name is drawn unshaded, while the blue slice
      of `#fffff` is the single digit `f`. */
  lemma ShortNamesClamp(val: real)
    ensures Part("#fff", 2) == "" && Shade("#fff", val) == "#fff"
    ensures Part("#fffff", 2) == "f"
  {
    ParseRejects();
    ShadeKeepsUnparsable("#fff", val, 2);
  }

  /** Text that is not a hex number is refused: a non-digit pair, an empty
      slice past the end of a short name, a bare prefix, a leading
      underscore. */
  lemma ParseRejects()
    ensures ParseHex("zz") == None
    ensures ParseHex("") == None
    ensures ParseHex("0x") == None
    ensures ParseHex("_1") == None
  {
    assert StripRight(StripLeft("zz")) == "zz";
    assert StripRight(StripLeft("0x")) == "0x";
    assert StripRight(StripLeft("_1")) == "_1";
  }

  /** ... while `int()` also takes a sign, surrounding blanks and a lone
      digit, so such slices are shaded rather than refused. */
  lemma ParseAccepts()
    ensures ParseHex("-f") == Some(-15)
    ensures ParseHex(" a") == Some(10)
    ensures ParseHex("7") == Some(7)
  {
    assert StripRight(StripLeft("-f")) == "-f";
    assert "-f"[1..] == "f";
    assert "f"[..0] == "";
    assert GroupValue("f") == 15;
    assert StripLeft(" a") == "a";
    assert StripRight("a") == "a";
    assert StripRight(StripLeft("7")) == "7";
  }
}
