/**
 * ColorUtils.InterpolateColor: per-channel linear interpolation between two
 * colours, truncated toward zero and clamped to 0..255.
 */
module ColorUtils {
  import opened Codecs

  /** The C# cast (int)x of a float: truncation toward zero. */
  function Truncate(x: real): (n: int)
    ensures 0.0 <= x ==> n as real <= x < n as real + 1.0
    ensures x < 0.0 ==> n as real - 1.0 < x <= n as real
  {
    if x >= 0.0 then x.Floor else -((-x).Floor)
  }

  /** Math.Max(Math.Min(n, 255), 0). */
  function ClampChannel(n: int): (c: Channel)
    ensures 0 <= n <= 255 ==> c == n
    ensures n > 255 ==> c == 255
    ensures n < 0 ==> c == 0
  {
    if n > 255 then 255 else if n < 0 then 0 else n
  }

  /** c1 + (c2 - c1) * fraction, as a float before the cast. */
  function Lerp(from: Channel, to: Channel, fraction: real): real {
    from as real + (to - from) as real * fraction
  }

  /** One channel: the interpolated value truncated and clamped. */
  function InterpolateChannel(from: Channel, to: Channel, fraction: real): Channel {
    ClampChannel(Truncate(Lerp(from, to, fraction)))
  }

  function InterpolateColor(color1: Color, color2: Color, fraction: real): Color {
    Color(InterpolateChannel(color1.a, color2.a, fraction),
          InterpolateChannel(color1.r, color2.r, fraction),
          InterpolateChannel(color1.g, color2.g, fraction),
          InterpolateChannel(color1.b, color2.b, fraction))
  }

  /** An integer truncates to itself. */
  lemma TruncateInt(n: int)
    ensures Truncate(n as real) == n
  {
  }

  /** Fraction 0 gives the first colour. */
  lemma InterpolateAtZero(color1: Color, color2: Color)
    ensures InterpolateColor(color1, color2, 0.0) == color1
  {
    TruncateInt(color1.a);
    TruncateInt(color1.r);
    TruncateInt(color1.g);
    TruncateInt(color1.b);
  }

  /** Fraction 1 gives the second colour. */
  lemma InterpolateAtOne(color1: Color, color2: Color)
    ensures InterpolateColor(color1, color2, 1.0) == color2
  {
    TruncateInt(color2.a);
    TruncateInt(color2.r);
    TruncateInt(color2.g);
    TruncateInt(color2.b);
    assert color1.a as real + (color2.a - color1.a) as real * 1.0 == color2.a as real;
    assert color1.r as real + (color2.r - color1.r) as real * 1.0 == color2.r as real;
    assert color1.g as real + (color2.g - color1.g) as real * 1.0 == color2.g as real;
    assert color1.b as real + (color2.b - color1.b) as real * 1.0 == color2.b as real;
  }

  /** Scaling by a fraction in [0, 1] moves a number toward zero. */
  lemma ScaleBetween(d: real, fraction: real)
    requires 0.0 <= fraction <= 1.0
    ensures 0.0 <= d ==> 0.0 <= d * fraction <= d
    ensures d < 0.0 ==> d <= d * fraction <= 0.0
  {
    assert d - d * fraction == d * (1.0 - fraction);
  }

  /** Truncation and clamping keep a value between two channel bounds. */
  lemma ClampTruncateBetween(x: real, lo: Channel, hi: Channel)
    requires lo as real <= x <= hi as real
    ensures lo <= ClampChannel(Truncate(x)) <= hi
  {
  }

  /** For a fraction in [0, 1] the float lies between the endpoints. */
  lemma LerpBetween(from: Channel, to: Channel, fraction: real)
    requires 0.0 <= fraction <= 1.0
    ensures from <= to ==> from as real <= Lerp(from, to, fraction) <= to as real
    ensures to < from ==> to as real <= Lerp(from, to, fraction) <= from as real
  {
    var d := (to - from) as real;
    ScaleBetween(d, fraction);
    assert from as real + d == to as real;
  }

  /** For a fraction in [0, 1], a channel lies between the two endpoints. */
  lemma InterpolateChannelBetween(from: Channel, to: Channel, fraction: real)
    requires 0.0 <= fraction <= 1.0
    ensures var c := InterpolateChannel(from, to, fraction);
      (from <= c <= to) || (to <= c <= from)
  {
    LerpBetween(from, to, fraction);
    if from <= to {
      ClampTruncateBetween(Lerp(from, to, fraction), from, to);
    } else {
      ClampTruncateBetween(Lerp(from, to, fraction), to, from);
    }
  }

  lemma InterpolateBetween(color1: Color, color2: Color, fraction: real)
    requires 0.0 <= fraction <= 1.0
    ensures var c := InterpolateColor(color1, color2, fraction);
      && ((color1.a <= c.a <= color2.a) || (color2.a <= c.a <= color1.a))
      && ((color1.r <= c.r <= color2.r) || (color2.r <= c.r <= color1.r))
      && ((color1.g <= c.g <= color2.g) || (color2.g <= c.g <= color1.g))
      && ((color1.b <= c.b <= color2.b) || (color2.b <= c.b <= color1.b))
  {
    InterpolateChannelBetween(color1.a, color2.a, fraction);
    InterpolateChannelBetween(color1.r, color2.r, fraction);
    InterpolateChannelBetween(color1.g, color2.g, fraction);
    InterpolateChannelBetween(color1.b, color2.b, fraction);
  }

  /** Interpolating between a colour and itself gives that colour back for
      every fraction. */
  lemma InterpolateSame(color: Color, fraction: real)
    ensures InterpolateColor(color, color, fraction) == color
  {
    TruncateInt(color.a);
    TruncateInt(color.r);
    TruncateInt(color.g);
    TruncateInt(color.b);
  }
}
