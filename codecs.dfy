/**
 * The two string converters of the settings files: a colour is written as
 * "A, R, G, B" (JsonColorConverter) and a grid coordinate as "X,Y"
 * (Vector2iConverter).
 */
module Codecs {
  import opened Wrappers
  import opened Text

  /** One 8-bit colour channel. */
  type Channel = x: int | 0 <= x <= 255

  /** System.Drawing.Color reduced to its four channels. */
  datatype Color = Color(a: Channel, r: Channel, g: Channel, b: Channel)

  /** An integer grid position of the atlas (GameOffsets2.Native.Vector2i). */
  datatype Vector2i = Vector2i(x: int, y: int)

  /** The default value of Vector2i, (0, 0). */
  const Origin: Vector2i := Vector2i(0, 0)

  // ---------------------------------------------------------------------
  // Colours
  // ---------------------------------------------------------------------

  /** Color.FromArgb(a, r, g, b): None where it throws, for a component
      outside 0..255. */
  function FromArgb(a: int, r: int, g: int, b: int): (c: Option<Color>)
    ensures c.Some? <==> 0 <= a <= 255 && 0 <= r <= 255 && 0 <= g <= 255 && 0 <= b <= 255
    ensures c.Some? ==> c.value == Color(a, r, g, b)
  {
    if 0 <= a <= 255 && 0 <= r <= 255 && 0 <= g <= 255 && 0 <= b <= 255
    then Some(Color(a, r, g, b)) else None
  }

  /** The text "A, R, G, B" for four integers. */
  function FormatArgb(a: int, r: int, g: int, b: int): string {
    IntToString(a) + ", " + IntToString(r) + ", " + IntToString(g) + ", " + IntToString(b)
  }

  /** JsonColorConverter.Write: alpha first, channels separated by ", ". */
  function WriteColor(c: Color): string {
    FormatArgb(c.a, c.r, c.g, c.b)
  }

  /** The exception that was caught inside ParseColor and wrapped. */
  datatype ColorCause =
    | InvalidFormat              // not exactly four comma-separated parts
    | BadNumber(e: ParseError)   // int.Parse failed on a part
    | OutOfRange                 // Color.FromArgb rejected a component

  /** The ArgumentException that ParseColor throws, with its message. */
  datatype ColorError = ArgumentError(message: string, inner: ColorCause)

  function ColorFailure(s: string, cause: ColorCause): Result<Color, ColorError> {
    Failure(ArgumentError("Error parsing color: " + s, cause))
  }

  /** JsonColorConverter.ParseColor: split on ',', parse the trimmed parts
      in the order R, G, B, A, and build the colour from them. */
  function ParseColor(s: string): (res: Result<Color, ColorError>)
    ensures res.Failure? ==> res.error.message == "Error parsing color: " + s
    ensures res.Success? ==>
      var parts := Split(s, ',');
      && |parts| == 4
      && ParseInt(Trim(parts[0])) == Success(res.value.a)
      && ParseInt(Trim(parts[1])) == Success(res.value.r)
      && ParseInt(Trim(parts[2])) == Success(res.value.g)
      && ParseInt(Trim(parts[3])) == Success(res.value.b)
  {
    var parts := Split(s, ',');
    if |parts| != 4 then ColorFailure(s, InvalidFormat)
    else
      var r := ParseInt(Trim(parts[1]));
      if r.Failure? then ColorFailure(s, BadNumber(r.error)) else
      var g := ParseInt(Trim(parts[2]));
      if g.Failure? then ColorFailure(s, BadNumber(g.error)) else
      var b := ParseInt(Trim(parts[3]));
      if b.Failure? then ColorFailure(s, BadNumber(b.error)) else
      var a := ParseInt(Trim(parts[0]));
      if a.Failure? then ColorFailure(s, BadNumber(a.error)) else
      var c := FromArgb(a.value, r.value, g.value, b.value);
      if c.None? then ColorFailure(s, OutOfRange) else Success(c.value)
  }

  /** Appending ", " and a comma-free piece adds that piece, with its
      leading space, as one more part. */
  lemma SplitLast(u: string, t: string)
    requires ',' !in t
    ensures Split(u + ", " + t, ',') == Split(u, ',') + [" " + t]
  {
    var t' := " " + t;
    assert ',' !in t';
    SplitNone(t', ',');
    SplitAppend(u, t', ',');
    assert u + ", " + t == u + [','] + t';
  }

  /** Four pieces free of commas, joined by ", ", split back into the
      pieces, the last three with their leading space. */
  lemma SplitFourParts(p: string, q: string, r: string, t: string)
    requires ',' !in p && ',' !in q && ',' !in r && ',' !in t
    ensures Split(p + ", " + q + ", " + r + ", " + t, ',') == [p, " " + q, " " + r, " " + t]
  {
    var two, three := p + ", " + q, p + ", " + q + ", " + r;
    SplitNone(p, ',');
    SplitLast(p, q);
    assert Split(two, ',') == [p, " " + q];
    SplitLast(two, r);
    assert Split(three, ',') == [p, " " + q, " " + r];
    SplitLast(three, t);
  }

  /** The text of four integers splits into the four integer texts,
      the last three preceded by a space. */
  lemma SplitFormatArgb(a: int, r: int, g: int, b: int)
    ensures Split(FormatArgb(a, r, g, b), ',') ==
      [IntToString(a), " " + IntToString(r), " " + IntToString(g), " " + IntToString(b)]
  {
    IntToStringEnds(a);
    IntToStringEnds(r);
    IntToStringEnds(g);
    IntToStringEnds(b);
    SplitFourParts(IntToString(a), IntToString(r), IntToString(g), IntToString(b));
  }

  /** ParseColor on a text whose four parts parse.  */
  lemma ParseColorOfParts(s: string, parts: seq<string>, a: int, r: int, g: int, b: int)
    requires Split(s, ',') == parts && |parts| == 4
    requires ParseInt(Trim(parts[0])) == Success(a)
    requires ParseInt(Trim(parts[1])) == Success(r)
    requires ParseInt(Trim(parts[2])) == Success(g)
    requires ParseInt(Trim(parts[3])) == Success(b)
    ensures ParseColor(s) ==
      if 0 <= a <= 255 && 0 <= r <= 255 && 0 <= g <= 255 && 0 <= b <= 255
      then Success(Color(a, r, g, b))
      else ColorFailure(s, OutOfRange)
  {
  }

  /** Four comma-free pieces that each trim and parse to a number, joined
      by ", ", split into four parts that trim and parse to those numbers. */
  lemma ParsedFourParts(p: string, q: string, u: string, t: string, a: int, r: int, g: int, b: int)
    requires ',' !in p && ',' !in q && ',' !in u && ',' !in t
    requires ParseInt(Trim(p)) == Success(a)
    requires ParseInt(Trim(" " + q)) == Success(r)
    requires ParseInt(Trim(" " + u)) == Success(g)
    requires ParseInt(Trim(" " + t)) == Success(b)
    ensures var parts := Split(p + ", " + q + ", " + u + ", " + t, ',');
      && |parts| == 4
      && ParseInt(Trim(parts[0])) == Success(a)
      && ParseInt(Trim(parts[1])) == Success(r)
      && ParseInt(Trim(parts[2])) == Success(g)
      && ParseInt(Trim(parts[3])) == Success(b)
  {
    SplitFourParts(p, q, u, t);
    var parts := Split(p + ", " + q + ", " + u + ", " + t, ',');
    var pieces := [p, " " + q, " " + u, " " + t];
    assert parts == pieces;
    assert parts[0] == pieces[0] && parts[1] == pieces[1] && parts[2] == pieces[2] && parts[3] == pieces[3];
  }

  /** The four parts of the text of four 32-bit integers trim and parse
      back to the integers. */
  lemma ParsedPartsOfFormatArgb(a: int, r: int, g: int, b: int)
    requires IsInt32(a) && IsInt32(r) && IsInt32(g) && IsInt32(b)
    ensures var parts := Split(FormatArgb(a, r, g, b), ',');
      && |parts| == 4
      && ParseInt(Trim(parts[0])) == Success(a)
      && ParseInt(Trim(parts[1])) == Success(r)
      && ParseInt(Trim(parts[2])) == Success(g)
      && ParseInt(Trim(parts[3])) == Success(b)
  {
    IntToStringEnds(a);
    IntToStringEnds(r);
    IntToStringEnds(g);
    IntToStringEnds(b);
    ParsePart(a);
    ParsePart(r);
    ParsePart(g);
    ParsePart(b);
    ParsedFourParts(IntToString(a), IntToString(r), IntToString(g), IntToString(b), a, r, g, b);
  }

  /** Parsing the text of four 32-bit integers gives the colour when all
      four are channels, and the out-of-range error otherwise. */
  lemma ParseFormatArgb(a: int, r: int, g: int, b: int)
    requires IsInt32(a) && IsInt32(r) && IsInt32(g) && IsInt32(b)
    ensures ParseColor(FormatArgb(a, r, g, b)) ==
      if 0 <= a <= 255 && 0 <= r <= 255 && 0 <= g <= 255 && 0 <= b <= 255
      then Success(Color(a, r, g, b))
      else ColorFailure(FormatArgb(a, r, g, b), OutOfRange)
  {
    var s := FormatArgb(a, r, g, b);
    ParsedPartsOfFormatArgb(a, r, g, b);
    ParseColorOfParts(s, Split(s, ','), a, r, g, b);
  }

  /** A 32-bit integer's text, with or without the space that follows a
      comma, trims and parses back to the integer. */
  lemma ParsePart(n: int)
    requires IsInt32(n)
    ensures ParseInt(Trim(IntToString(n))) == Success(n)
    ensures ParseInt(Trim(" " + IntToString(n))) == Success(n)
  {
    IntToStringEnds(n);
    TrimSpaced(IntToString(n));
    IntRoundTrip(n);
  }

  /** Reading back a written colour gives the same four channels. */
  lemma ColorRoundTrip(c: Color)
    ensures ParseColor(WriteColor(c)) == Success(c)
  {
    ParseFormatArgb(c.a, c.r, c.g, c.b);
  }

  /** Every parse failure names the input in its message. */
  lemma ColorErrorNamesInput(s: string)
    requires ParseColor(s).Failure?
    ensures Contains(ParseColor(s).error.message, s)
  {
    var message := "Error parsing color: " + s;
    assert IsPrefix(s, message[|message| - |s|..]);
  }

  /** Anything but exactly four comma-separated parts is rejected as a
      format error naming the input. */
  lemma ColorNeedsFourParts(s: string)
    requires |Split(s, ',')| != 4
    ensures ParseColor(s) == Failure(ArgumentError("Error parsing color: " + s, InvalidFormat))
  {
  }

  // ---------------------------------------------------------------------
  // Grid coordinates
  // ---------------------------------------------------------------------

  /** Vector2iConverter.WriteJson: "X,Y" with no spaces. */
  function WriteVector(v: Vector2i): string {
    IntToString(v.x) + "," + IntToString(v.y)
  }

  /** What ReadJson throws. */
  datatype VectorError = IndexOutOfRange | NumberError(e: ParseError)

  /** Vector2iConverter.ReadJson: split on ',', parse part 0 as X and then
      part 1 as Y; further parts are ignored. */
  function ReadVector(s: string): (res: Result<Vector2i, VectorError>)
    ensures res.Success? ==>
      var parts := Split(s, ',');
      && |parts| >= 2
      && ParseInt(parts[0]) == Success(res.value.x)
      && ParseInt(parts[1]) == Success(res.value.y)
  {
    var parts := Split(s, ',');
    var x := ParseInt(parts[0]);
    if x.Failure? then Failure(NumberError(x.error))
    else if |parts| < 2 then Failure(IndexOutOfRange)
    else
      var y := ParseInt(parts[1]);
      if y.Failure? then Failure(NumberError(y.error))
      else Success(Vector2i(x.value, y.value))
  }

  /** A text without a comma is never a coordinate. */
  lemma VectorNeedsComma(s: string)
    requires ',' !in s
    ensures ReadVector(s).Failure?
  {
    SplitNone(s, ',');
  }

  /** Reading back a written coordinate gives the same coordinate. */
  lemma VectorRoundTrip(v: Vector2i)
    requires IsInt32(v.x) && IsInt32(v.y)
    ensures ReadVector(WriteVector(v)) == Success(v)
  {
    var parts := [IntToString(v.x), IntToString(v.y)];
    IntToStringHasNoWhiteSpace(v.x);
    IntToStringHasNoWhiteSpace(v.y);
    assert WriteVector(v) == Join(parts, ",");
    SplitJoin(parts, ',');
    IntRoundTrip(v.x);
    IntRoundTrip(v.y);
  }

  /** Text after a second comma does not change what is read. */
  lemma VectorIgnoresExtraParts(s: string, tail: string)
    requires |Split(s, ',')| >= 2
    ensures ReadVector(s + "," + tail) == ReadVector(s)
  {
    SplitAppend(s, tail, ',');
    assert s + "," + tail == s + [','] + tail;
  }
}
