/**
 * The configuration of the three effects and one iteration of the main loop: sample the clock
 * once, set the enable flags from the switches, update the effects in a fixed order, flush once.
 */
module Scheduler {
  import opened Colors
  import opened LedStrip
  import opened Randomness
  import opened MagicCircleEffect
  import opened InnerFireEffect
  import opened FlameEffect

  const MagicCircleColor := RED
  const MagicCircleInterval: real := 0.05
  const MagicCircleFlashRange: nat := 25
  const InnerFireInterval: real := 0.1
  const FlameInterval: real := 0.05
  const FlameFlashRange: nat := 10

  /** The debounced switch values read in one iteration. */
  datatype Switches = Switches(innerFire: bool, flame: bool, magicCircle: bool,
                               magicCircleFlash: bool, magicCircleWhite: bool)

  predicate AllOff(sw: Switches) {
    !sw.innerFire && !sw.flame && !sw.magicCircle
  }

  /** Which effects' gates fire in this iteration. */
  datatype Gates = Gates(circle: bool, flame: bool, fire: bool)

  /**
   * The buffer and draw count after one iteration that starts from buffer s with the draws from
   * position used onwards: the effects whose gates fire write their segments in the order magic
   * circle, flame, inner fire, each taking its draws after those of the one before.
   */
  function TickFrame(s: seq<Color>, sw: Switches, fired: Gates, scale: Fraction, stream: nat -> nat,
                     used: nat): (r: Drawn<seq<Color>>)
    requires |s| == NumPixels
    ensures |r.value| == NumPixels
  {
    var a := CircleStep(s, MagicCirclePixels, fired.circle, sw.magicCircle, !sw.magicCircleWhite,
                        sw.magicCircleFlash, MagicCircleFlashRange, MagicCircleColor, scale, stream, used);
    var b := FlameStep(a.value, FlamePixels, fired.flame, sw.flame, FlameFlashRange, stream, a.used);
    FireStep(b.value, InnerFirePixels, fired.fire, sw.innerFire, stream, b.used)
  }

  /** The draws the magic circle takes in an iteration: none when its gate is closed. */
  function CircleDraws(sw: Switches, fired: Gates, scale: Fraction, stream: nat -> nat, used: nat): nat {
    if fired.circle then
      CircleColor(sw.magicCircle, !sw.magicCircleWhite, sw.magicCircleFlash, MagicCircleFlashRange,
                  MagicCircleColor, scale, stream, used).used
    else 0
  }

  /** The draws the flame takes in an iteration, its first draw at position at. */
  function FlameDraws(sw: Switches, fired: Gates, stream: nat -> nat, at: nat): nat {
    if fired.flame then FlameFrame(sw.flame, FlameFlashRange, FlamePixels.Len(), stream, at).used else 0
  }

  /** The draws the inner fire takes in an iteration, its first draw at position at. */
  function FireDraws(sw: Switches, fired: Gates, stream: nat -> nat, at: nat): nat {
    if fired.fire then FireFrame(sw.innerFire, InnerFirePixels.Len(), stream, at).used else 0
  }

  /** Where the flame's draws start in an iteration: right after the circle's. */
  function FlameStart(sw: Switches, fired: Gates, scale: Fraction, stream: nat -> nat, used: nat): nat {
    used + CircleDraws(sw, fired, scale, stream, used)
  }

  /** Where the inner fire's draws start in an iteration: right after the flame's. */
  function FireStart(sw: Switches, fired: Gates, scale: Fraction, stream: nat -> nat, used: nat): nat {
    var at := FlameStart(sw, fired, scale, stream, used);
    at + FlameDraws(sw, fired, stream, at)
  }

  /**
   * The circle segment after one iteration: unchanged if its gate is closed, otherwise the one
   * colour CircleColor picks from the first draws of the iteration.
   */
  lemma TickCircle(s: seq<Color>, sw: Switches, fired: Gates, scale: Fraction, stream: nat -> nat, used: nat)
    requires |s| == NumPixels
    ensures var r := TickFrame(s, sw, fired, scale, stream, used).value;
      var c := CircleColor(sw.magicCircle, !sw.magicCircleWhite, sw.magicCircleFlash, MagicCircleFlashRange,
                           MagicCircleColor, scale, stream, used);
      forall p :: MagicCirclePixels.Contains(p) ==> r[p] == if fired.circle then c.value else s[p]
  {
    SegmentLayout();
    var a := CircleStep(s, MagicCirclePixels, fired.circle, sw.magicCircle, !sw.magicCircleWhite,
                        sw.magicCircleFlash, MagicCircleFlashRange, MagicCircleColor, scale, stream, used);
    var b := FlameStep(a.value, FlamePixels, fired.flame, sw.flame, FlameFlashRange, stream, a.used);
    var r := FireStep(b.value, InnerFirePixels, fired.fire, sw.innerFire, stream, b.used).value;
    forall p | MagicCirclePixels.Contains(p)
      ensures r[p] == b.value[p] == a.value[p]
    {
    }
  }

  /**
   * The draws of one iteration: the circle's, then the flame's, then the inner fire's, each
   * starting where the one before stopped; an effect whose gate is closed draws nothing.
   */
  lemma TickDraws(s: seq<Color>, sw: Switches, fired: Gates, scale: Fraction, stream: nat -> nat, used: nat)
    requires |s| == NumPixels
    ensures FlameStart(sw, fired, scale, stream, used) == used + CircleDraws(sw, fired, scale, stream, used)
    ensures var at := FlameStart(sw, fired, scale, stream, used);
      FireStart(sw, fired, scale, stream, used) == at + FlameDraws(sw, fired, stream, at)
    ensures var at := FireStart(sw, fired, scale, stream, used);
      TickFrame(s, sw, fired, scale, stream, used).used == at + FireDraws(sw, fired, stream, at)
  {
    SegmentLayout();
    var a := CircleStep(s, MagicCirclePixels, fired.circle, sw.magicCircle, !sw.magicCircleWhite,
                        sw.magicCircleFlash, MagicCircleFlashRange, MagicCircleColor, scale, stream, used);
    assert a.used == FlameStart(sw, fired, scale, stream, used);
    var b := FlameStep(a.value, FlamePixels, fired.flame, sw.flame, FlameFlashRange, stream, a.used);
    assert b.used == FireStart(sw, fired, scale, stream, used);
    var w := FireStep(b.value, InnerFirePixels, fired.fire, sw.innerFire, stream, b.used);
    assert w.used == b.used + FireDraws(sw, fired, stream, b.used);
    assert TickFrame(s, sw, fired, scale, stream, used) == w;
  }

  /**
   * The flame segment after one iteration: unchanged if its gate is closed, otherwise the frame
   * FlameFrame draws starting right after the circle's draws; so flame or flash colours, or black
   * when the flame is off.
   */
  lemma TickFlame(s: seq<Color>, sw: Switches, fired: Gates, scale: Fraction, stream: nat -> nat, used: nat)
    requires |s| == NumPixels
    ensures var r := TickFrame(s, sw, fired, scale, stream, used).value;
      var f := FlameFrame(sw.flame, FlameFlashRange, FlamePixels.Len(), stream, FlameStart(sw, fired, scale, stream, used));
      forall p :: FlamePixels.Contains(p) ==> r[p] == if fired.flame then f.value[p - FlamePixels.lo] else s[p]
    ensures var r := TickFrame(s, sw, fired, scale, stream, used).value;
      forall p :: FlamePixels.Contains(p) && fired.flame ==>
        if sw.flame then r[p] in FlameColors || r[p] in FlameFlashColors else r[p] == BLACK
  {
    SegmentLayout();
    var a := CircleStep(s, MagicCirclePixels, fired.circle, sw.magicCircle, !sw.magicCircleWhite,
                        sw.magicCircleFlash, MagicCircleFlashRange, MagicCircleColor, scale, stream, used);
    assert a.used == FlameStart(sw, fired, scale, stream, used);
    var b := FlameStep(a.value, FlamePixels, fired.flame, sw.flame, FlameFlashRange, stream, a.used);
    var r := FireStep(b.value, InnerFirePixels, fired.fire, sw.innerFire, stream, b.used).value;
    var f := FlameFrame(sw.flame, FlameFlashRange, FlamePixels.Len(), stream, a.used);
    forall p | FlamePixels.Contains(p)
      ensures r[p] == if fired.flame then f.value[p - FlamePixels.lo] else s[p]
    {
      assert r[p] == b.value[p] && a.value[p] == s[p];
    }
    assert TickFrame(s, sw, fired, scale, stream, used).value == r;
  }

  /**
   * The inner-fire segment after one iteration: unchanged if its gate is closed, otherwise the
   * frame FireFrame draws starting after the circle's and the flame's draws; so ember shades, or
   * black when the inner fire is off.
   */
  lemma TickFire(s: seq<Color>, sw: Switches, fired: Gates, scale: Fraction, stream: nat -> nat, used: nat)
    requires |s| == NumPixels
    ensures var r := TickFrame(s, sw, fired, scale, stream, used).value;
      var e := FireFrame(sw.innerFire, InnerFirePixels.Len(), stream, FireStart(sw, fired, scale, stream, used));
      forall p :: InnerFirePixels.Contains(p) ==> r[p] == if fired.fire then e.value[p - InnerFirePixels.lo] else s[p]
    ensures var r := TickFrame(s, sw, fired, scale, stream, used).value;
      forall p :: InnerFirePixels.Contains(p) && fired.fire ==>
        if sw.innerFire then r[p] in EmberColors else r[p] == BLACK
  {
    SegmentLayout();
    var a := CircleStep(s, MagicCirclePixels, fired.circle, sw.magicCircle, !sw.magicCircleWhite,
                        sw.magicCircleFlash, MagicCircleFlashRange, MagicCircleColor, scale, stream, used);
    assert a.used == FlameStart(sw, fired, scale, stream, used);
    var b := FlameStep(a.value, FlamePixels, fired.flame, sw.flame, FlameFlashRange, stream, a.used);
    assert b.used == FireStart(sw, fired, scale, stream, used);
    var r := FireStep(b.value, InnerFirePixels, fired.fire, sw.innerFire, stream, b.used).value;
    var e := FireFrame(sw.innerFire, InnerFirePixels.Len(), stream, b.used);
    forall p | InnerFirePixels.Contains(p)
      ensures r[p] == if fired.fire then e.value[p - InnerFirePixels.lo] else s[p]
    {
      assert b.value[p] == a.value[p] == s[p];
    }
    assert TickFrame(s, sw, fired, scale, stream, used).value == r;
  }

  /**
   * With the circle, flame and inner-fire switches all off, an iteration writes nothing but black,
   * so a dark strip stays dark.
   */
  lemma AllOffDark(s: seq<Color>, sw: Switches, fired: Gates, scale: Fraction, stream: nat -> nat, used: nat)
    requires |s| == NumPixels && AllOff(sw)
    ensures var r := TickFrame(s, sw, fired, scale, stream, used).value;
      forall p :: 0 <= p < NumPixels ==> r[p] == BLACK || r[p] == s[p]
    ensures var r := TickFrame(s, sw, fired, scale, stream, used).value;
      fired == Gates(true, true, true) ==> forall p :: 0 <= p < NumPixels ==> r[p] == BLACK
  {
    SegmentLayout();
    TickCircle(s, sw, fired, scale, stream, used);
    TickFlame(s, sw, fired, scale, stream, used);
    TickFire(s, sw, fired, scale, stream, used);
  }

  /**
   * The magic-circle switch on and the white switch off force white: the fired circle segment is
   * all WHITE, whatever the flash switch says.
   */
  lemma WhiteSwitchOffForcesWhite(s: seq<Color>, sw: Switches, fired: Gates, scale: Fraction,
                                  stream: nat -> nat, used: nat)
    requires |s| == NumPixels && sw.magicCircle && !sw.magicCircleWhite && fired.circle
    ensures var r := TickFrame(s, sw, fired, scale, stream, used).value;
      forall p :: MagicCirclePixels.Contains(p) ==> r[p] == WHITE
  {
    TickCircle(s, sw, fired, scale, stream, used);
  }

  /** The strip, the random number generator and the three effects, wired as at start-up. */
  class Lights {
    const strip: Strip
    const rng: Random
    const magicCircle: MagicCircle
    const innerFire: InnerFire
    const flame: Flame

    ghost predicate Valid()
      reads this, magicCircle
    {
      magicCircle.Valid() &&
      strip.pixels.Length == NumPixels &&
      magicCircle.color == MagicCircleColor && magicCircle.pixelRange == MagicCirclePixels &&
      magicCircle.interval == MagicCircleInterval && magicCircle.flashOneOf == MagicCircleFlashRange &&
      innerFire.pixelRange == InnerFirePixels && innerFire.interval == InnerFireInterval &&
      flame.pixelRange == FlamePixels && flame.interval == FlameInterval && flame.flashOneOf == FlameFlashRange
    }

    /** Every pixel of the strip is black. */
    ghost predicate Dark()
      reads strip.pixels
    {
      forall p :: 0 <= p < strip.pixels.Length ==> strip.pixels[p] == BLACK
    }

    /** The start-up wiring; stream stands for randint's source and brightness for the sine. */
    constructor (stream: nat -> nat, brightness: nat -> Fraction)
      ensures Valid() && Dark()
      ensures fresh(strip) && fresh(strip.pixels) && fresh(rng)
      ensures fresh(magicCircle) && fresh(innerFire) && fresh(flame)
      ensures strip.shows == 0 && rng.stream == stream && rng.used == 0
      ensures magicCircle.brightness == brightness && magicCircle.phase == 0
      ensures magicCircle.target == 0.0 && innerFire.target == 0.0 && flame.target == 0.0
      ensures !magicCircle.enabled && !magicCircle.flashEnabled && !innerFire.enabled && !flame.enabled
    {
      strip := new Strip(NumPixels);
      rng := new Random(stream);
      magicCircle := new MagicCircle(MagicCircleColor, MagicCirclePixels, MagicCircleInterval,
                                     MagicCircleFlashRange, brightness);
      innerFire := new InnerFire(InnerFirePixels, InnerFireInterval);
      flame := new Flame(FlamePixels, FlameInterval, FlameFlashRange);
    }

    /**
     * One iteration of the main loop at clock reading now. Each effect fires if now has reached its
     * target; the effects draw from rng in the order magic circle, flame, inner fire, and each writes
     * only its own segment.
     */
    method Tick(now: real, sw: Switches)
      requires Valid()
      modifies magicCircle, innerFire, flame, strip, strip.pixels, rng
      ensures Valid()
      ensures magicCircle.enabled == sw.magicCircle && magicCircle.flashEnabled == sw.magicCircleFlash
      ensures flame.enabled == sw.flame && innerFire.enabled == sw.innerFire
      ensures strip.shows == old(strip.shows) + 1
      ensures magicCircle.target == if now < old(magicCircle.target) then old(magicCircle.target) else now + MagicCircleInterval
      ensures flame.target == if now < old(flame.target) then old(flame.target) else now + FlameInterval
      ensures innerFire.target == if now < old(innerFire.target) then old(innerFire.target) else now + InnerFireInterval
      ensures magicCircle.phase == if now < old(magicCircle.target) then old(magicCircle.phase) else NextPhase(old(magicCircle.phase))
      ensures
        var fired := Gates(old(magicCircle.target) <= now, old(flame.target) <= now, old(innerFire.target) <= now);
        var r := TickFrame(old(strip.pixels[..]), sw, fired, magicCircle.brightness(magicCircle.phase),
                           rng.stream, old(rng.used));
        strip.pixels[..] == r.value && rng.used == r.used
      ensures AllOff(sw) && old(Dark()) ==> Dark()
    {
      magicCircle.Enable(sw.magicCircle);
      magicCircle.EnableFlash(sw.magicCircleFlash);
      flame.Enable(sw.flame);
      innerFire.Enable(sw.innerFire);
      ghost var s0, u0 := strip.pixels[..], rng.used;
      ghost var fired := Gates(magicCircle.target <= now, flame.target <= now, innerFire.target <= now);
      UpdateEffects(now, sw);
      strip.Show();
      if AllOff(sw) {
        AllOffDark(s0, sw, fired, magicCircle.brightness(magicCircle.phase), rng.stream, u0);
      }
    }

    /** The three updates of one iteration, with the enable flags already set from sw. */
    method UpdateEffects(now: real, sw: Switches)
      requires Valid()
      requires magicCircle.enabled == sw.magicCircle && magicCircle.flashEnabled == sw.magicCircleFlash
      requires flame.enabled == sw.flame && innerFire.enabled == sw.innerFire
      modifies magicCircle`target, magicCircle`phase, flame`target, innerFire`target, strip.pixels, rng
      ensures Valid()
      ensures magicCircle.target == if now < old(magicCircle.target) then old(magicCircle.target) else now + MagicCircleInterval
      ensures flame.target == if now < old(flame.target) then old(flame.target) else now + FlameInterval
      ensures innerFire.target == if now < old(innerFire.target) then old(innerFire.target) else now + InnerFireInterval
      ensures magicCircle.phase == if now < old(magicCircle.target) then old(magicCircle.phase) else NextPhase(old(magicCircle.phase))
      ensures
        var fired := Gates(old(magicCircle.target) <= now, old(flame.target) <= now, old(innerFire.target) <= now);
        var r := TickFrame(old(strip.pixels[..]), sw, fired, magicCircle.brightness(magicCircle.phase),
                           rng.stream, old(rng.used));
        strip.pixels[..] == r.value && rng.used == r.used
    {
      magicCircle.Update(now, !sw.magicCircleWhite, strip.pixels, rng);
      UpdateFires(now, sw);
    }

    /** The flame's update and then the inner fire's, on the buffer the magic circle left. */
    method UpdateFires(now: real, sw: Switches)
      requires strip.pixels.Length == NumPixels
      requires flame.pixelRange == FlamePixels && flame.flashOneOf == FlameFlashRange && flame.interval == FlameInterval
      requires innerFire.pixelRange == InnerFirePixels && innerFire.interval == InnerFireInterval
      requires flame.enabled == sw.flame && innerFire.enabled == sw.innerFire
      modifies flame`target, innerFire`target, strip.pixels, rng
      ensures flame.target == if now < old(flame.target) then old(flame.target) else now + FlameInterval
      ensures innerFire.target == if now < old(innerFire.target) then old(innerFire.target) else now + InnerFireInterval
      ensures
        var b := FlameStep(old(strip.pixels[..]), FlamePixels, old(flame.target) <= now, sw.flame, FlameFlashRange,
                           rng.stream, old(rng.used));
        var r := FireStep(b.value, InnerFirePixels, old(innerFire.target) <= now, sw.innerFire, rng.stream, b.used);
        strip.pixels[..] == r.value && rng.used == r.used
    {
      flame.Update(now, strip.pixels, rng);
      innerFire.Update(now, strip.pixels, rng);
    }
  }
}
