/** The colour encoder of the canvas: an RGB triple becomes an index of the
    xterm 256-colour palette, inside its 6x6x6 colour cube (Canvas.cs:307-314),
    and a hexadecimal colour string becomes such a triple (Canvas.cs:76-89). */
module ColorEncoder {
  import opened Base

  /** The level, 0 to 5, of one channel of the colour cube: the channel
      divided by 51 (so 255 is level 5). */
  function Level(c: byte): (l: int)
    ensures 0 <= l <= 5
    ensures 51 * l <= c as int < 51 * (l + 1)
  {
    c as int / 51
  }

  /** The three levels of a colour of the cube. */
  datatype Levels = Levels(red: int, green: int, blue: int)

  /** Which levels a palette index of the cube (16 to 231) stands for: the
      inverse of the encoding. */
  function CubeLevels(c: byte): (l: Levels)
    requires 16 <= c <= 231
    ensures 0 <= l.red <= 5 && 0 <= l.green <= 5 && 0 <= l.blue <= 5
    ensures c as int == 16 + 36 * l.red + 6 * l.green + l.blue
  {
    var k := c as int - 16;
    var hi, lo := k / 36, k % 36;
    assert k == 36 * hi + lo && 0 <= lo < 36;
    assert lo == 6 * (lo / 6) + lo % 6;
    Levels(hi, lo / 6, lo % 6)
  }

  /** EncodeColor: the palette index of an RGB colour. The C# source
      divides each byte channel by 51 and casts the sum back to a byte; the
      sum never exceeds 231, so the cast never truncates. */
  function EncodeColor(r: byte, g: byte, b: byte): (c: byte)
    ensures 16 <= c <= 231
    ensures CubeLevels(c) == Levels(Level(r), Level(g), Level(b))
  {
    var sum := 16 + 36 * Level(r) + 6 * Level(g) + Level(b);
    assert sum <= 231;
    sum as byte
  }

  /** Two colours get the same index exactly when their levels agree. */
  lemma EncodeColorSameIffSameLevels(r: byte, g: byte, b: byte, r': byte, g': byte, b': byte)
    ensures EncodeColor(r, g, b) == EncodeColor(r', g', b')
        <==> Level(r) == Level(r') && Level(g) == Level(g') && Level(b) == Level(b')
  {
    if Level(r) == Level(r') && Level(g) == Level(g') && Level(b) == Level(b') {
      assert CubeLevels(EncodeColor(r, g, b)) == CubeLevels(EncodeColor(r', g', b'));
    }
  }

  /** Every index of the cube is produced, by the colour whose channels are
      51 times its levels. */
  lemma {:induction false} EncodeColorReachesCube(c: byte)
    requires 16 <= c <= 231
    ensures var l := CubeLevels(c);
      EncodeColor((51 * l.red) as byte, (51 * l.green) as byte, (51 * l.blue) as byte) == c
  {
    var l := CubeLevels(c);
    var r, g, b := (51 * l.red) as byte, (51 * l.green) as byte, (51 * l.blue) as byte;
    assert Level(r) == l.red;
    assert Level(g) == l.green;
    assert Level(b) == l.blue;
  }

  /** The pure primaries, black and white, where the cube formula puts them. */
  lemma EncodeColorExamples()
    ensures EncodeColor(255, 0, 0) == 196
    ensures EncodeColor(0, 255, 0) == 46
    ensures EncodeColor(0, 0, 255) == 21
    ensures EncodeColor(0, 0, 0) == 16
    ensures EncodeColor(255, 255, 255) == 231
  {
  }

  // ---------------------------------------------------------------------
  // Hexadecimal colour strings

  /** An RGB triple parsed from a string. */
  datatype Rgb = Rgb(red: byte, green: byte, blue: byte)

  predicate IsHexDigit(ch: char) {
    '0' <= ch <= '9' || 'a' <= ch <= 'f' || 'A' <= ch <= 'F'
  }

  function HexValue(ch: char): (v: int)
    requires IsHexDigit(ch)
    ensures 0 <= v < 16
  {
    if '0' <= ch <= '9' then ch as int - '0' as int
    else if 'a' <= ch <= 'f' then ch as int - 'a' as int + 10
    else ch as int - 'A' as int + 10
  }

  /** The white space that `byte.Parse` with `NumberStyles.HexNumber`
      skips before and after the digits: tab, line feed, vertical tab,
      form feed, carriage return and space. */
  predicate IsWhite(ch: char) {
    ch == ' ' || '\t' <= ch <= '\r'
  }

  /** `byte.Parse(p, NumberStyles.HexNumber)` for a two-character string:
      two hex digits, or one hex digit with white space before or after
      it; anything else is a format error. Two digits never overflow a byte. */
  function ParsePair(p: string): (r: Result<byte>)
    requires |p| == 2
    ensures r.Success? <==> (IsHexDigit(p[0]) || IsHexDigit(p[1]))
                            && (IsHexDigit(p[0]) || IsWhite(p[0]))
                            && (IsHexDigit(p[1]) || IsWhite(p[1]))
    ensures r.Failure? ==> r.error == Format
    ensures IsHexDigit(p[0]) && IsHexDigit(p[1]) ==>
              r == Success((16 * HexValue(p[0]) + HexValue(p[1])) as byte)
    ensures IsWhite(p[0]) && IsHexDigit(p[1]) ==> r == Success(HexValue(p[1]) as byte)
    ensures IsHexDigit(p[0]) && IsWhite(p[1]) ==> r == Success(HexValue(p[0]) as byte)
  {
    var hi, lo := IsHexDigit(p[0]), IsHexDigit(p[1]);
    if hi && lo then Success((16 * HexValue(p[0]) + HexValue(p[1])) as byte)
    else if IsWhite(p[0]) && lo then Success(HexValue(p[1]) as byte)
    else if hi && IsWhite(p[1]) then Success(HexValue(p[0]) as byte)
    else Failure(Format)
  }

  /** `TrimStart('#')`: every leading '#' removed. */
  function TrimHashes(s: string): (t: string)
    ensures t == [] || t[0] != '#'
  {
    if s != [] && s[0] == '#' then TrimHashes(s[1..]) else s
  }

  /** What TrimHashes removes is a run of '#' at the front, and what it
      keeps is the rest of the string. */
  lemma {:induction false} TrimHashesSuffix(s: string)
    ensures |TrimHashes(s)| <= |s| && TrimHashes(s) == s[|s| - |TrimHashes(s)|..]
    ensures forall i :: 0 <= i < |s| - |TrimHashes(s)| ==> s[i] == '#'
  {
    if s != [] && s[0] == '#' {
      TrimHashesSuffix(s[1..]);
    }
  }

  /** `byte.Parse(t.Substring(offset, 2), ...)`: a pair past the end of
      the string is an out-of-range substring. */
  function PairAt(t: string, offset: nat): (r: Result<byte>)
    ensures r.Success? <==> offset + 2 <= |t| && ParsePair(t[offset..offset + 2]).Success?
    ensures r.Failure? ==> (r.error == ArgumentOutOfRange <==> |t| < offset + 2)
    ensures r.Failure? ==> r.error == ArgumentOutOfRange || r.error == Format
  {
    if offset + 2 <= |t| then ParsePair(t[offset..offset + 2]) else Failure(ArgumentOutOfRange)
  }

  /** Where the red pair starts once the '#'s are trimmed: a 6-character
      string is RRGGBB, every other length is taken as a leading pair
      followed by RRGGBB. */
  function RedOffset(t: string): (o: nat)
    ensures o == 0 || o == 2
    ensures o + 6 <= |t| <==> |t| == 6 || |t| >= 8
  {
    if |t| == 6 then 0 else 2
  }

  /** The colour a hex string stands for, with the error `SetColor(string)`
      throws. The pairs are read red, green, blue, so the first failing
      pair decides the error. */
  function ParseHexColor(s: string): (r: Result<Rgb>)
    ensures r.Failure? ==> r.error == ArgumentOutOfRange || r.error == Format
    ensures r.Success? ==> |TrimHashes(s)| == 6 || |TrimHashes(s)| >= 8
  {
    var t := TrimHashes(s);
    var o := RedOffset(t);
    var red :- PairAt(t, o);
    var green :- PairAt(t, o + 2);
    var blue :- PairAt(t, o + 4);
    Success(Rgb(red, green, blue))
  }

  /** A hex string parses exactly when the three pairs it uses exist and
      are numbers, and then it gives those three numbers. */
  lemma ParseHexColorSpec(s: string)
    ensures var t := TrimHashes(s); var o := RedOffset(t);
      && (ParseHexColor(s).Success? <==>
            o + 6 <= |t|
            && ParsePair(t[o..o + 2]).Success?
            && ParsePair(t[o + 2..o + 4]).Success?
            && ParsePair(t[o + 4..o + 6]).Success?)
      && (ParseHexColor(s).Success? ==>
            ParseHexColor(s).value == Rgb(ParsePair(t[o..o + 2]).value,
                                          ParsePair(t[o + 2..o + 4]).value,
                                          ParsePair(t[o + 4..o + 6]).value))
  {
    var t := TrimHashes(s);
    var o := RedOffset(t);
    if o + 6 <= |t| {
      assert PairAt(t, o) == ParsePair(t[o..o + 2]);
      assert PairAt(t, o + 2) == ParsePair(t[o + 2..o + 4]);
      assert PairAt(t, o + 4) == ParsePair(t[o + 4..o + 6]);
    } else {
      assert PairAt(t, o + 4).Failure?;
    }
  }

  /** After trimming, a string shorter than 8 characters that is not 6
      long is refused: its last pair lies past the end. */
  lemma ParseHexColorShortFails(s: string)
    requires |TrimHashes(s)| != 6 && |TrimHashes(s)| < 8
    ensures ParseHexColor(s).Failure?
  {
    ParseHexColorSpec(s);
  }

  /** Leading '#' signs do not matter. */
  lemma ParseHexColorIgnoresHash(s: string)
    ensures ParseHexColor("#" + s) == ParseHexColor(s)
  {
    assert ("#" + s)[1..] == s;
  }

  /** The 8-digit form skips its first pair: a pair put in front of a
      6-character string changes nothing, errors included. */
  lemma ParseHexColorSkipsLeadingPair(p: string, u: string)
    requires |p| == 2 && p[0] != '#'
    requires |u| == 6 && u[0] != '#'
    ensures ParseHexColor(p + u) == ParseHexColor(u)
  {
    var s := p + u;
    assert TrimHashes(s) == s;
    assert TrimHashes(u) == u;
    assert s[2..4] == u[0..2] && s[4..6] == u[2..4] && s[6..8] == u[4..6];
  }

  // ---------------------------------------------------------------------
  // Writing a colour as hex, the partner of the parser

  function HexDigitChar(n: int): (ch: char)
    requires 0 <= n < 16
    ensures IsHexDigit(ch) && HexValue(ch) == n && ch != '#'
  {
    if n < 10 then ('0' as int + n) as char else ('A' as int + n - 10) as char
  }

  /** Two upper-case hexadecimal digits. */
  function HexPair(v: byte): (p: string)
    ensures |p| == 2 && p[0] != '#'
  {
    [HexDigitChar(v as int / 16), HexDigitChar(v as int % 16)]
  }

  lemma ParsePairOfHexPair(v: byte)
    ensures ParsePair(HexPair(v)) == Success(v)
  {
    var p := HexPair(v);
    assert 16 * HexValue(p[0]) + HexValue(p[1]) == v as int;
  }

  /** `#RRGGBB`. */
  function FormatHexColor(c: Rgb): string {
    "#" + HexPair(c.red) + HexPair(c.green) + HexPair(c.blue)
  }

  /** Parsing what FormatHexColor writes gives the colour back. */
  lemma ParseFormatHexColor(c: Rgb)
    ensures ParseHexColor(FormatHexColor(c)) == Success(c)
  {
    var u := HexPair(c.red) + HexPair(c.green) + HexPair(c.blue);
    assert FormatHexColor(c) == "#" + u;
    ParseHexColorIgnoresHash(u);
    assert TrimHashes(u) == u;
    assert u[0..2] == HexPair(c.red) && u[2..4] == HexPair(c.green) && u[4..6] == HexPair(c.blue);
    ParsePairOfHexPair(c.red);
    ParsePairOfHexPair(c.green);
    ParsePairOfHexPair(c.blue);
  }

  /** `#AARRGGBB` gives the colour RRGGBB whatever the leading pair is. */
  lemma ParseFormatHexColorWithAlpha(a: byte, c: Rgb)
    ensures ParseHexColor("#" + HexPair(a) + FormatHexColor(c)[1..]) == Success(c)
  {
    var u := FormatHexColor(c)[1..];
    assert u == HexPair(c.red) + HexPair(c.green) + HexPair(c.blue);
    assert "#" + HexPair(a) + u == "#" + (HexPair(a) + u);
    ParseHexColorIgnoresHash(HexPair(a) + u);
    ParseHexColorSkipsLeadingPair(HexPair(a), u);
    ParseFormatHexColor(c);
    ParseHexColorIgnoresHash(u);
    assert FormatHexColor(c) == "#" + u;
  }

  /** Pure red in the six-digit and the eight-digit spelling. */
  lemma HexColorExamples()
    ensures ParseHexColor("#FF0000") == Success(Rgb(255, 0, 0))
    ensures ParseHexColor("#AAFF0000") == Success(Rgb(255, 0, 0))
  {
    var red := Rgb(255, 0, 0);
    HexSpellingsOfRed();
    ParseFormatHexColor(red);
    ParseFormatHexColorWithAlpha(170, red);
  }

  lemma HexSpellingsOfRed()
    ensures FormatHexColor(Rgb(255, 0, 0)) == "#FF0000"
    ensures "#" + HexPair(170) + FormatHexColor(Rgb(255, 0, 0))[1..] == "#AAFF0000"
  {
    assert HexPair(255) == "FF" && HexPair(0) == "00" && HexPair(170) == "AA";
  }
}
