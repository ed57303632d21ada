/** The colour string codec of `vois.colors`: clamping, `#rrggbb` printing and
  * parsing, `rgb(r,g,b)` parsing, the dispatching parser and the Darken blend. */
module Colors {
  import opened Wrappers
  import opened PyStrings

  /** An `(r, g, b)` tuple; Python does not bound the components. */
  datatype Rgb = Rgb(r: int, g: int, b: int)

  predicate InRange(c: Rgb) {
    0 <= c.r <= 255 && 0 <= c.g <= 255 && 0 <= c.b <= 255
  }

  /** `Normalize`: force a value into `[valuemin, valuemax]`, testing the upper
    * bound first. */
  function Normalize(value: int, valuemin: int, valuemax: int): (r: int)
    ensures value > valuemax ==> r == valuemax
    ensures value <= valuemax && value < valuemin ==> r == valuemin
    ensures valuemin <= value <= valuemax ==> r == value
    ensures valuemin <= valuemax ==> valuemin <= r <= valuemax
  {
    if value > valuemax then valuemax else if value < valuemin then valuemin else value
  }

  lemma NormalizeIdempotent(value: int, valuemin: int, valuemax: int)
    requires valuemin <= valuemax
    ensures Normalize(Normalize(value, valuemin, valuemax), valuemin, valuemax) == Normalize(value, valuemin, valuemax)
  {
  }

  // ---------------------------------------------------------------- #rrggbb

  predicate IsLowerHexDigit(ch: char) {
    '0' <= ch <= '9' || 'a' <= ch <= 'f'
  }

  /** The value of a two-digit hexadecimal pair. */
  function PairValue(a: char, b: char): int {
    DigitValue(a) * 16 + DigitValue(b)
  }

  /** `'{:02x}'.format(n)`: lower-case hexadecimal padded with zeros to width
    * two; a negative number is a minus sign followed by its digits. */
  function Format02x(n: int): (r: string)
    ensures |r| >= 2
    ensures 0 <= n < 256 ==> |r| == 2 && IsLowerHexDigit(r[0]) && IsLowerHexDigit(r[1]) && PairValue(r[0], r[1]) == n
  {
    if n < 0 then "-" + NatToDigits(-n, 16)
    else if n < 16 then
      assert NatToDigits(n, 16) == [DigitChar(n)];
      HexDigitChar(0);
      HexDigitChar(n);
      "0" + NatToDigits(n, 16)
    else if n < 256 then
      assert NatToDigits(n, 16) == [DigitChar(n / 16), DigitChar(n % 16)];
      HexDigitChar(n / 16);
      HexDigitChar(n % 16);
      NatToDigits(n, 16)
    else NatToDigits(n, 16)
  }

  lemma HexDigitChar(d: nat)
    requires d < 16
    ensures IsLowerHexDigit(DigitChar(d)) && DigitValue(DigitChar(d)) == d
  {
  }

  /** `rgb2hex`. */
  function Rgb2Hex(c: Rgb): (r: string)
    ensures InRange(c) ==> IsHexColor(r)
    ensures InRange(c) ==> PairValue(r[1], r[2]) == c.r && PairValue(r[3], r[4]) == c.g && PairValue(r[5], r[6]) == c.b
  {
    "#" + Format02x(c.r) + Format02x(c.g) + Format02x(c.b)
  }

  /** `'#'` followed by exactly six lower-case hexadecimal digits. */
  predicate IsHexColor(s: string) {
    |s| == 7 && s[0] == '#' && forall i :: 1 <= i < 7 ==> IsLowerHexDigit(s[i])
  }

  /** `hex2rgb`: one leading `#` is dropped, then the three two-character
    * slices are read with `int(_, 16)`. `color[0]` raises IndexError on the
    * empty string. */
  function Hex2Rgb(color: string): (r: Result<Rgb>)
    ensures color == "" ==> r == Err(IndexError)
    ensures color != "" && r.Err? ==> r.error == ValueError
  {
    if |color| == 0 then Err(IndexError)
    else
      var c := if color[0] == '#' then color[1..] else color;
      var red :- ParseInt(Slice(c, 0, 2), 16);
      var green :- ParseInt(Slice(c, 2, 4), 16);
      var blue :- ParseInt(Slice(c, 4, 6), 16);
      Ok(Rgb(red, green, blue))
  }

  /** `int(ab, 16)` of two lower-case hexadecimal digits. */
  lemma ParseHexPair(a: char, b: char)
    requires IsLowerHexDigit(a) && IsLowerHexDigit(b)
    ensures ParseInt([a, b], 16) == Ok(PairValue(a, b))
  {
    var s := [a, b];
    StripNoSpace(s);
    assert SignFree(s) == s;
    assert WithoutPrefix(s, 16) == s;
    assert ValidDigits(s, 16);
    assert s[..1] == [a];
    assert [a][..0] == [];
    assert DigitsValue([a], 16) == DigitValue(a);
    assert DigitsValue(s, 16) == PairValue(a, b);
  }

  /** Printing an in-range colour and parsing it back gives the colour. */
  lemma HexRoundTrip(c: Rgb)
    requires InRange(c)
    ensures Hex2Rgb(Rgb2Hex(c)) == Ok(c)
  {
    var s := Rgb2Hex(c);
    var t := s[1..];
    assert Slice(t, 0, 2) == [s[1], s[2]];
    assert Slice(t, 2, 4) == [s[3], s[4]];
    assert Slice(t, 4, 6) == [s[5], s[6]];
    ParseHexPair(s[1], s[2]);
    ParseHexPair(s[3], s[4]);
    ParseHexPair(s[5], s[6]);
  }

  /** The triple a `#rrggbb` string denotes, channel by channel. */
  function HexColorValue(s: string): (c: Rgb)
    requires IsHexColor(s)
    ensures InRange(c)
  {
    Rgb(PairValue(s[1], s[2]), PairValue(s[3], s[4]), PairValue(s[5], s[6]))
  }

  lemma Hex2RgbOfHexColor(s: string)
    requires IsHexColor(s)
    ensures Hex2Rgb(s) == Ok(HexColorValue(s))
  {
    var t := s[1..];
    assert Slice(t, 0, 2) == [s[1], s[2]];
    assert Slice(t, 2, 4) == [s[3], s[4]];
    assert Slice(t, 4, 6) == [s[5], s[6]];
    ParseHexPair(s[1], s[2]);
    ParseHexPair(s[3], s[4]);
    ParseHexPair(s[5], s[6]);
  }

  /** Parsing a `#rrggbb` string and printing it back gives the string. */
  lemma HexStringRoundTrip(s: string)
    requires IsHexColor(s)
    ensures Hex2Rgb(s).Ok? && InRange(Hex2Rgb(s).value) && Rgb2Hex(Hex2Rgb(s).value) == s
  {
    Hex2RgbOfHexColor(s);
    var h := Rgb2Hex(HexColorValue(s));
    PairDetermines(h[1], h[2], s[1], s[2]);
    PairDetermines(h[3], h[4], s[3], s[4]);
    PairDetermines(h[5], h[6], s[5], s[6]);
    assert h == s;
  }

  lemma PairDetermines(a: char, b: char, x: char, y: char)
    requires IsLowerHexDigit(a) && IsLowerHexDigit(b) && IsLowerHexDigit(x) && IsLowerHexDigit(y)
    requires PairValue(a, b) == PairValue(x, y)
    ensures a == x && b == y
  {
  }

  /** A leading `#` does not change the parsed triple. The string must not be
    * empty: `hex2rgb('')` raises IndexError while `hex2rgb('#')` raises
    * ValueError. */
  lemma HexHashOptional(s: string)
    requires s != "" && s[0] != '#'
    ensures Hex2Rgb("#" + s) == Hex2Rgb(s)
  {
    assert ("#" + s)[1..] == s;
  }

  // ---------------------------------------------------------------- rgb(r,g,b)

  /** The comma-separated fields `text2rgb` sees after `rgb(` once every `)`
    * is removed. */
  function TextFields(color: string): (fields: seq<string>)
    requires StartsWith(color, "rgb(")
    ensures |fields| >= 1
  {
    Split(RemoveChar(color[4..], ')'), ",")
  }

  /** `text2rgb`: the first three fields read as base-10 integers; (0,0,0)
    * when the prefix is missing or there are fewer than three fields. */
  function Text2Rgb(color: string): (r: Result<Rgb>)
    ensures !(StartsWith(color, "rgb(") && |TextFields(color)| >= 3) ==> r == Ok(Rgb(0, 0, 0))
    ensures r.Err? ==> r.error == ValueError
  {
    if StartsWith(color, "rgb(") && |TextFields(color)| >= 3 then
      var fields := TextFields(color);
      var red :- ParseInt(fields[0], 10);
      var green :- ParseInt(fields[1], 10);
      var blue :- ParseInt(fields[2], 10);
      Ok(Rgb(red, green, blue))
    else Ok(Rgb(0, 0, 0))
  }

  /** Fields after the third are ignored. */
  lemma TextExtraFieldsIgnored(s: string, extra: string)
    requires StartsWith(s, "rgb(") && |TextFields(s)| >= 3
    ensures StartsWith(s + "," + extra, "rgb(")
    ensures Text2Rgb(s + "," + extra) == Text2Rgb(s)
  {
    var t := s + "," + extra;
    assert t[..4] == s[..4];
    assert t[4..] == s[4..] + "," + extra;
    RemoveCharConcat(s[4..] + ",", extra, ')');
    RemoveCharConcat(s[4..], ",", ')');
    var a := RemoveChar(s[4..], ')');
    assert RemoveChar(",", ')') == ",";
    SplitConcat(a, RemoveChar(extra, ')'), ',');
    assert RemoveChar(t[4..], ')') == a + [','] + RemoveChar(extra, ')');
    var ft := TextFields(t);
    var fs := TextFields(s);
    assert ft[0] == fs[0] && ft[1] == fs[1] && ft[2] == fs[2];
  }

  /** The `rgb(r,g,b)` spelling used in the library's colour lists
    * (for example the default `colorlist` of `svgRankChart`). */
  function Rgb2Text(c: Rgb): string {
    "rgb(" + IntToString(c.r) + "," + IntToString(c.g) + "," + IntToString(c.b) + ")"
  }

  lemma IntToStringPlain(n: int)
    ensures ',' !in IntToString(n) && ')' !in IntToString(n)
  {
    var s := IntToString(n);
    var d := NatToDigits(if n < 0 then -n else n, 10);
    assert forall i :: 0 <= i < |d| ==> IsDigitIn(d[i], 10);
    if n < 0 {
      assert forall i :: 1 <= i < |s| ==> s[i] == d[i - 1];
    }
  }

  lemma RemoveCharAbsent(s: string, c: char)
    requires c !in s
    ensures RemoveChar(s, c) == s
  {
  }

  lemma SplitThree(a: string, b: string, d: string)
    requires ',' !in a && ',' !in b && ',' !in d
    ensures Split(a + "," + b + "," + d, ",") == [a, b, d]
  {
    assert a + "," + b + "," + d == a + [','] + (b + [','] + d);
    SplitConcat(a, b + [','] + d, ',');
    SplitConcat(b, d, ',');
    SplitNoSep(a, ',');
    SplitNoSep(b, ',');
    SplitNoSep(d, ',');
  }

  lemma TextFieldsOfRgb2Text(c: Rgb)
    ensures StartsWith(Rgb2Text(c), "rgb(")
    ensures TextFields(Rgb2Text(c)) == [IntToString(c.r), IntToString(c.g), IntToString(c.b)]
  {
    var s := Rgb2Text(c);
    var a, b, d := IntToString(c.r), IntToString(c.g), IntToString(c.b);
    IntToStringPlain(c.r);
    IntToStringPlain(c.g);
    IntToStringPlain(c.b);
    assert s[..4] == "rgb(";
    var body := a + "," + b + "," + d;
    assert s[4..] == body + ")";
    assert ')' !in body;
    RemoveCharConcat(body, ")", ')');
    RemoveCharAbsent(body, ')');
    assert RemoveChar(")", ')') == "";
    assert RemoveChar(s[4..], ')') == body;
    SplitThree(a, b, d);
  }

  /** Every integer triple, negative or above 255 included, survives
    * `rgb(r,g,b)` printing and `text2rgb` parsing. */
  lemma TextRoundTrip(c: Rgb)
    ensures Text2Rgb(Rgb2Text(c)) == Ok(c)
  {
    TextFieldsOfRgb2Text(c);
    ParseIntToString(c.r);
    ParseIntToString(c.g);
    ParseIntToString(c.b);
  }

  // ---------------------------------------------------------------- dispatch and blend

  /** `string2rgb`: a leading `#` selects `hex2rgb`, an `rgb(` prefix selects
    * `text2rgb`, anything else is (0,0,0); `s[0]` raises IndexError on ''. */
  function String2Rgb(s: string): (r: Result<Rgb>)
    ensures s == "" ==> r == Err(IndexError)
    ensures s != "" && s[0] == '#' ==> r == Hex2Rgb(s)
    ensures s != "" && s[0] != '#' && StartsWith(s, "rgb(") ==> r == Text2Rgb(s)
    ensures s != "" && s[0] != '#' && !StartsWith(s, "rgb(") ==> r == Ok(Rgb(0, 0, 0))
  {
    if |s| == 0 then Err(IndexError)
    else if s[0] == '#' then Hex2Rgb(s)
    else if StartsWith(s, "rgb(") then Text2Rgb(s)
    else Ok(Rgb(0, 0, 0))
  }

  /** Both printed forms of a colour parse back to it through `string2rgb`. */
  lemma String2RgbRoundTrips(c: Rgb)
    ensures InRange(c) ==> String2Rgb(Rgb2Hex(c)) == Ok(c)
    ensures String2Rgb(Rgb2Text(c)) == Ok(c)
  {
    if InRange(c) {
      HexRoundTrip(c);
    }
    TextRoundTrip(c);
    assert Rgb2Text(c)[..4] == "rgb(";
  }

  function MinRgb(a: Rgb, b: Rgb): (m: Rgb)
    ensures m.r <= a.r && m.r <= b.r && (m.r == a.r || m.r == b.r)
    ensures m.g <= a.g && m.g <= b.g && (m.g == a.g || m.g == b.g)
    ensures m.b <= a.b && m.b <= b.b && (m.b == a.b || m.b == b.b)
  {
    Rgb(if a.r <= b.r then a.r else b.r, if a.g <= b.g then a.g else b.g, if a.b <= b.b then a.b else b.b)
  }

  /** `darken`: the component-wise minimum of the two parsed colours, printed
    * with `rgb2hex`; the first failing parse raises its error. */
  function Darken(color1: string, color2: string): (r: Result<string>)
    ensures r.Ok? <==> String2Rgb(color1).Ok? && String2Rgb(color2).Ok?
  {
    var rgb1 :- String2Rgb(color1);
    var rgb2 :- String2Rgb(color2);
    Ok(Rgb2Hex(MinRgb(rgb1, rgb2)))
  }

  /** Darken does not depend on the order of its arguments (the error raised
    * when both fail can). */
  lemma DarkenCommutes(color1: string, color2: string)
    ensures Darken(color1, color2).Ok? == Darken(color2, color1).Ok?
    ensures Darken(color1, color2).Ok? ==> Darken(color1, color2) == Darken(color2, color1)
  {
    if Darken(color1, color2).Ok? {
      var a, b := String2Rgb(color1).value, String2Rgb(color2).value;
      assert MinRgb(a, b) == MinRgb(b, a);
    }
  }

  /** Darkening a colour with itself prints its parsed form. */
  lemma DarkenSelf(color: string)
    ensures Darken(color, color) == (match String2Rgb(color) case Ok(c) => Ok(Rgb2Hex(c)) case Err(e) => Err(e))
  {
    if String2Rgb(color).Ok? {
      var c := String2Rgb(color).value;
      assert MinRgb(c, c) == c;
    }
  }

  /** For in-range inputs the blend reads back as a colour no lighter than
    * either input in any channel, each channel taken from one of them. */
  lemma DarkenIsMinimum(color1: string, color2: string)
    requires String2Rgb(color1).Ok? && InRange(String2Rgb(color1).value)
    requires String2Rgb(color2).Ok? && InRange(String2Rgb(color2).value)
    ensures Darken(color1, color2).Ok?
    ensures
      var a, b := String2Rgb(color1).value, String2Rgb(color2).value;
      String2Rgb(Darken(color1, color2).value) == Ok(MinRgb(a, b))
  {
    var a, b := String2Rgb(color1).value, String2Rgb(color2).value;
    HexRoundTrip(MinRgb(a, b));
  }
}
