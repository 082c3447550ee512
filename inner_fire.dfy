/** The inner fire: an ember flicker in which every pixel draws its own shade of red on every frame. */
module InnerFireEffect {
  import opened Colors
  import opened LedStrip
  import opened Randomness

  /** Six shades of red, the last of them black. */
  const EmberColors: seq<Color> :=
    [Color(255, 0, 0), Color(220, 0, 0), Color(192, 0, 0), Color(128, 0, 0), Color(64, 0, 0), Color(0, 0, 0)]

  /**
   * The n colours a fired tick writes to the segment, and the randint calls it makes: when enabled,
   * one draw per pixel, in pixel order; when disabled, black and no draw.
   */
  function FireFrame(enabled: bool, n: nat, stream: nat -> nat, used: nat): (f: Drawn<seq<Color>>)
    ensures |f.value| == n
    ensures enabled ==> f.used == n && forall i :: 0 <= i < n ==> f.value[i] in EmberColors
    ensures enabled ==> forall i :: 0 <= i < n ==> f.value[i] == PickFrom(EmberColors, stream(used + i))
    ensures !enabled ==> f.used == 0 && forall i :: 0 <= i < n ==> f.value[i] == BLACK
  {
    if enabled then Drawn(Independent(EmberColors, n, stream, used), n) else Drawn(Uniform(BLACK, n), 0)
  }

  /**
   * The buffer and draw count after one update of an inner fire on segment r, starting from
   * buffer s: untouched unless the gate fired, and then r holds the colours of FireFrame.
   */
  function FireStep(s: seq<Color>, r: PixelRange, fired: bool, enabled: bool, stream: nat -> nat,
                    used: nat): (w: Drawn<seq<Color>>)
    requires r.WithinStrip(|s|)
    ensures |w.value| == |s|
    ensures !fired ==> w == Drawn(s, used)
    ensures forall p :: 0 <= p < |s| && !r.Contains(p) ==> w.value[p] == s[p]
    ensures fired ==>
      var f := FireFrame(enabled, r.Len(), stream, used);
      w.used == used + f.used && forall p :: r.Contains(p) ==> w.value[p] == f.value[p - r.lo]
  {
    if !fired then Drawn(s, used)
    else
      var f := FireFrame(enabled, r.Len(), stream, used);
      Drawn(Painted(s, r, f.value), used + f.used)
  }

  /** No pattern of embers is out of reach: each pixel's draw is its own. */
  lemma EmbersCover(want: seq<Color>, used: nat)
    requires forall i :: 0 <= i < |want| ==> want[i] in EmberColors
    ensures exists stream: nat -> nat :: FireFrame(true, |want|, stream, used).value == want
  {
    IndependentCovers(EmberColors, want, used);
    var stream: nat -> nat :| Independent(EmberColors, |want|, stream, used) == want;
    assert FireFrame(true, |want|, stream, used).value == want;
  }

  class InnerFire {
    const pixelRange: PixelRange
    const interval: real
    /** The earliest time at which the next update fires. */
    var target: real
    var enabled: bool

    constructor (pixelRange: PixelRange, updateInterval: real)
      ensures this.pixelRange == pixelRange && interval == updateInterval
      ensures target == 0.0 && !enabled
    {
      this.pixelRange := pixelRange;
      interval := updateInterval;
      target := 0.0;
      enabled := false;
    }

    method Enable(on: bool)
      modifies this`enabled
      ensures enabled == on
    {
      enabled := on;
    }

    /**
     * Before target nothing happens at all. From target on: the gate moves to now + interval and the
     * segment gets the colours FireFrame gives.
     */
    method Update(now: real, pixels: array<Color>, rng: Random)
      requires pixelRange.WithinStrip(pixels.Length)
      modifies this`target, pixels, rng
      ensures target == if now < old(target) then old(target) else now + interval
      ensures var w := FireStep(old(pixels[..]), pixelRange, old(target) <= now, enabled, rng.stream, old(rng.used));
        pixels[..] == w.value && rng.used == w.used
    {
      if now < target {
        return;
      }
      target := now + interval;

      Render(pixels, rng);
    }

    /**
     * The per-pixel loop of an update: each pixel of the range gets an ember shade of its own
     * draw when the fire is enabled, and black otherwise.
     */
    method Render(pixels: array<Color>, rng: Random)
      requires pixelRange.WithinStrip(pixels.Length)
      modifies pixels, rng
      ensures var f := FireFrame(enabled, pixelRange.Len(), rng.stream, old(rng.used));
        pixels[..] == Painted(old(pixels[..]), pixelRange, f.value) && rng.used == old(rng.used) + f.used
    {
      ghost var f := FireFrame(enabled, pixelRange.Len(), rng.stream, rng.used);
      var lo, hi := pixelRange.lo, pixelRange.hi;
      var p := lo;
      while p < hi
        invariant lo <= p <= hi || p == lo
        invariant rng.used == old(rng.used) + if enabled then p - lo else 0
        invariant forall i :: 0 <= i < pixels.Length ==>
          pixels[i] == if lo <= i < p then f.value[i - lo] else old(pixels[i])
      {
        if enabled {
          assert f.value[p - lo] == PickFrom(EmberColors, rng.stream(rng.used));
          var k := rng.RandInt(0, |EmberColors| - 1);
          pixels[p] := EmberColors[k];
        } else {
          pixels[p] := BLACK;
        }
        p := p + 1;
      }
      PaintedPointwise(pixels[..], old(pixels[..]), pixelRange, f.value);
    }
  }
}
