/** Colours shared by the effects, and the channel clamp used when scaling one. */
module Colors {

  /** One 8-bit channel intensity. */
  type Channel = x: int | 0 <= x <= 255

  /** A brightness factor in [0, 1]; in the program it is (sin(phase) + 1) / 2. */
  type Fraction = s: real | 0.0 <= s <= 1.0

  /** An (R, G, B) triple, as the strip driver stores it per pixel. */
  datatype Color = Color(r: Channel, g: Channel, b: Channel)

  const RED := Color(255, 0, 0)
  const YELLOW := Color(255, 150, 0)
  const GREEN := Color(0, 255, 0)
  const CYAN := Color(0, 255, 255)
  const BLUE := Color(0, 0, 255)
  const PURPLE := Color(180, 0, 255)
  const MAGENTA := Color(255, 0, 255)
  const PINK := Color(255, 128, 128)
  const WHITE := Color(255, 255, 255)
  const BLACK := Color(0, 0, 0)

  /** Python's int() applied to a float: truncation toward zero. */
  function Trunc(v: real): (t: int)
    ensures 0.0 <= v ==> 0 <= t && t as real <= v < t as real + 1.0
    ensures v < 0.0 ==> t <= 0 && t as real - 1.0 < v <= t as real
  {
    if v >= 0.0 then v.Floor else -((-v).Floor)
  }

  /** A value truncated toward zero and then clamped to the channel range; it is never rounded. */
  function Clip(v: real): (c: Channel)
    ensures v < 1.0 ==> c == 0
    ensures 255.0 <= v ==> c == 255
    ensures 1.0 <= v < 255.0 ==> c as real <= v < c as real + 1.0
  {
    var t := Trunc(v);
    if t < 0 then 0 else if t > 255 then 255 else t
  }

  /** clip(x * scale) for a channel x: the result never exceeds x and is x * scale rounded down. */
  function ScaleChannel(x: Channel, scale: Fraction): (c: Channel)
    ensures c <= x
    ensures c as real <= x as real * scale < c as real + 1.0
  {
    ClipOfProduct(x, scale);
    Clip(x as real * scale)
  }

  lemma ProductBounds(x: real, s: real, v: real)
    requires 0.0 <= x && 0.0 <= s <= 1.0 && v == x * s
    ensures 0.0 <= v <= x
  {
  }

  lemma ClipOfProduct(x: Channel, scale: Fraction)
    ensures Clip(x as real * scale) <= x
    ensures Clip(x as real * scale) as real <= x as real * scale < Clip(x as real * scale) as real + 1.0
  {
    var v := x as real * scale;
    var xr := x as real;
    ProductBounds(xr, scale, v);
    ClipBelow(v, x);
  }

  lemma ClipBelow(v: real, x: Channel)
    requires 0.0 <= v <= x as real
    ensures Clip(v) <= x && Clip(v) as real <= v < Clip(v) as real + 1.0
  {
  }

  /** The base colour dimmed by a brightness factor, channel by channel. */
  function Scaled(base: Color, scale: Fraction): (c: Color)
    ensures c.r <= base.r && c.g <= base.g && c.b <= base.b
    ensures scale == 1.0 ==> c == base
    ensures scale == 0.0 ==> c == BLACK
  {
    Color(ScaleChannel(base.r, scale), ScaleChannel(base.g, scale), ScaleChannel(base.b, scale))
  }
}
