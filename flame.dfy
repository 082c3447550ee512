/**
 * The flame: a flicker in which every pixel draws its own flame colour, interrupted now and then
 * by a flash that paints the whole segment in one colour.
 */
module FlameEffect {
  import opened Colors
  import opened LedStrip
  import opened Randomness

  const FlameColors: seq<Color> :=
    [Color(192, 0, 255), Color(128, 0, 255), Color(128, 0, 128), Color(255, 0, 128), Color(64, 0, 255)]

  const FlameFlashColors: seq<Color> := [WHITE, RED, BLUE, MAGENTA]

  /**
   * The n colours an enabled or disabled fired tick writes to the segment, and the randint calls it
   * makes. Enabled, one draw randint(0, flashOneOf) decides: 0 is a flash, one more draw picks the
   * flash colour for every pixel; anything else gives every pixel its own draw of a flame colour.
   */
  function FlameFrame(enabled: bool, flashOneOf: nat, n: nat, stream: nat -> nat, used: nat): (f: Drawn<seq<Color>>)
    ensures |f.value| == n
    ensures !enabled ==> f.used == 0 && forall i :: 0 <= i < n ==> f.value[i] == BLACK
    ensures enabled && Pick(stream(used), 0, flashOneOf) == 0 ==>
      f.used == 2 && forall i :: 0 <= i < n ==> f.value[i] == PickFrom(FlameFlashColors, stream(used + 1))
    ensures enabled && Pick(stream(used), 0, flashOneOf) != 0 ==>
      f.used == n + 1 &&
      forall i :: 0 <= i < n ==> f.value[i] in FlameColors && f.value[i] == PickFrom(FlameColors, stream(used + 1 + i))
  {
    if !enabled then Drawn(Uniform(BLACK, n), 0)
    else if Pick(stream(used), 0, flashOneOf) == 0 then
      Drawn(Uniform(PickFrom(FlameFlashColors, stream(used + 1)), n), 2)
    else Drawn(Independent(FlameColors, n, stream, used + 1), n + 1)
  }

  /**
   * The buffer and draw count after one update of a flame on segment r, starting from buffer s:
   * untouched unless the gate fired, and then r holds the colours of FlameFrame.
   */
  function FlameStep(s: seq<Color>, r: PixelRange, fired: bool, enabled: bool, flashOneOf: nat,
                     stream: nat -> nat, used: nat): (w: Drawn<seq<Color>>)
    requires r.WithinStrip(|s|)
    ensures |w.value| == |s|
    ensures !fired ==> w == Drawn(s, used)
    ensures forall p :: 0 <= p < |s| && !r.Contains(p) ==> w.value[p] == s[p]
    ensures fired ==>
      var f := FlameFrame(enabled, flashOneOf, r.Len(), stream, used);
      w.used == used + f.used && forall p :: r.Contains(p) ==> w.value[p] == f.value[p - r.lo]
  {
    if !fired then Drawn(s, used)
    else
      var f := FlameFrame(enabled, flashOneOf, r.Len(), stream, used);
      Drawn(Painted(s, r, f.value), used + f.used)
  }

  /**
   * With flashOneOf = 0 randint(0, 0) is always 0: an enabled flame always flashes, one flash
   * colour on every pixel.
   */
  lemma FlashForced(n: nat, stream: nat -> nat, used: nat)
    ensures var f := FlameFrame(true, 0, n, stream, used);
      f.used == 2 &&
      forall i, j :: 0 <= i < n && 0 <= j < n ==> f.value[i] == f.value[j] && f.value[i] in FlameFlashColors
  {
    assert Pick(stream(used), 0, 0) == 0;
    var f := FlameFrame(true, 0, n, stream, used);
    var c := PickFrom(FlameFlashColors, stream(used + 1));
    assert forall i :: 0 <= i < n ==> f.value[i] == c;
  }

  /**
   * Every flash colour can come up, whatever flashOneOf is: a 0 for the flash test and then the
   * colour's index paint the whole segment in that colour.
   */
  lemma FlameFlashCovers(flashOneOf: nat, n: nat, used: nat, want: Color)
    requires want in FlameFlashColors
    ensures exists stream: nat -> nat ::
      forall i :: 0 <= i < n ==> FlameFrame(true, flashOneOf, n, stream, used).value[i] == want
  {
    var k := IndexOf(FlameFlashColors, want);
    var stream: nat -> nat := (j: nat) => SingleDraw(used + 1, k, j);
    assert Pick(stream(used), 0, flashOneOf) == 0;
    assert PickFrom(FlameFlashColors, stream(used + 1)) == want;
    assert forall i :: 0 <= i < n ==> FlameFrame(true, flashOneOf, n, stream, used).value[i] == want;
  }

  /** The stream s with its draw at position at replaced by d. */
  function Override(s: nat -> nat, at: nat, d: nat, k: nat): nat {
    if k == at then d else s(k)
  }

  /**
   * While flashes are not forced (flashOneOf > 0), every pattern of flame colours, each pixel chosen
   * on its own, is the outcome of some stream of draws.
   */
  lemma FlickerCovers(flashOneOf: nat, want: seq<Color>, used: nat)
    requires flashOneOf > 0
    requires forall i :: 0 <= i < |want| ==> want[i] in FlameColors
    ensures exists stream: nat -> nat :: FlameFrame(true, flashOneOf, |want|, stream, used).value == want
  {
    IndependentCovers(FlameColors, want, used + 1);
    var s: nat -> nat :| Independent(FlameColors, |want|, s, used + 1) == want;
    var stream: nat -> nat := (k: nat) => Override(s, used, 1, k);
    assert Pick(stream(used), 0, flashOneOf) == 1;
    var got := FlameFrame(true, flashOneOf, |want|, stream, used).value;
    forall i | 0 <= i < |want|
      ensures got[i] == want[i]
    {
      assert stream(used + 1 + i) == s(used + 1 + i);
    }
    assert got == want;
  }

  class Flame {
    const pixelRange: PixelRange
    const interval: real
    const flashOneOf: nat
    /** The earliest time at which the next update fires. */
    var target: real
    var enabled: bool

    constructor (pixelRange: PixelRange, updateInterval: real, flashOneOf: nat)
      ensures this.pixelRange == pixelRange && interval == updateInterval && this.flashOneOf == flashOneOf
      ensures target == 0.0 && !enabled
    {
      this.pixelRange := pixelRange;
      interval := updateInterval;
      this.flashOneOf := flashOneOf;
      target := 0.0;
      enabled := false;
    }

    method Enable(on: bool)
      modifies this`enabled
      ensures enabled == on
    {
      enabled := on;
    }

    /**
     * Before target nothing happens at all. From target on: the gate moves to now + interval and the
     * segment gets the colours FlameFrame gives.
     */
    method Update(now: real, pixels: array<Color>, rng: Random)
      requires pixelRange.WithinStrip(pixels.Length)
      modifies this`target, pixels, rng
      ensures target == if now < old(target) then old(target) else now + interval
      ensures var w := FlameStep(old(pixels[..]), pixelRange, old(target) <= now, enabled, flashOneOf,
                                 rng.stream, old(rng.used));
        pixels[..] == w.value && rng.used == w.used
    {
      if now < target {
        return;
      }
      target := now + interval;

      ghost var f := FlameFrame(enabled, flashOneOf, pixelRange.Len(), rng.stream, rng.used);
      if enabled {
        var d := rng.RandInt(0, flashOneOf);
        if d == 0 {
          var i := rng.RandInt(0, |FlameFlashColors| - 1);
          assert f.value == Uniform(FlameFlashColors[i], pixelRange.Len());
          PaintSegment(pixels, pixelRange, FlameFlashColors[i]);
        } else {
          assert f.value == Independent(FlameColors, pixelRange.Len(), rng.stream, rng.used);
          Flicker(pixels, rng);
        }
      } else {
        assert f.value == Uniform(BLACK, pixelRange.Len());
        PaintSegment(pixels, pixelRange, BLACK);
      }
      assert pixels[..] == Painted(old(pixels[..]), pixelRange, f.value);
      assert rng.used == old(rng.used) + f.used;
    }

    /** The flicker: each pixel of the range in turn gets a flame colour chosen by its own draw. */
    method Flicker(pixels: array<Color>, rng: Random)
      requires pixelRange.WithinStrip(pixels.Length)
      modifies pixels, rng
      ensures rng.used == old(rng.used) + pixelRange.Len()
      ensures pixels[..] == Painted(old(pixels[..]), pixelRange,
                                    Independent(FlameColors, pixelRange.Len(), rng.stream, old(rng.used)))
    {
      ghost var colors := Independent(FlameColors, pixelRange.Len(), rng.stream, rng.used);
      var lo, hi := pixelRange.lo, pixelRange.hi;
      var p := lo;
      while p < hi
        invariant lo <= p <= hi || p == lo
        invariant rng.used == old(rng.used) + (p - lo)
        invariant forall i :: 0 <= i < pixels.Length ==>
          pixels[i] == if lo <= i < p then colors[i - lo] else old(pixels[i])
      {
        assert colors[p - lo] == PickFrom(FlameColors, rng.stream(rng.used));
        var k := rng.RandInt(0, |FlameColors| - 1);
        pixels[p] := FlameColors[k];
        p := p + 1;
      }
      PaintedPointwise(pixels[..], old(pixels[..]), pixelRange, colors);
    }
  }
}
