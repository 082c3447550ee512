/**
 * The magic circle: a glow that breathes with a phase oscillator, can be forced to white, and pops
 * in random flash colours. All pixels of its segment show the same colour on every frame.
 */
module MagicCircleEffect {
  import opened Colors
  import opened LedStrip
  import opened Randomness

  const FlashColors: seq<Color> := [PINK, YELLOW, WHITE, RED, MAGENTA]

  /**
   * The phase accumulator counts steps of pi/50; PhaseSteps steps make 2 * pi, where it wraps.
   * Step k stands for the phase k * pi / 50.
   */
  const PhaseSteps: nat := 100

  /** One fired tick of the phase accumulator: add a step, back to 0 once 2 * pi is reached. */
  function NextPhase(k: nat): (k': nat)
    requires k < PhaseSteps
    ensures k' < PhaseSteps
    ensures k' == (k + 1) % PhaseSteps
  {
    if k + 1 >= PhaseSteps then 0 else k + 1
  }

  /** The phase after the given number of fired ticks. */
  function PhaseAfter(k: nat, ticks: nat): (k': nat)
    requires k < PhaseSteps
    decreases ticks
  {
    if ticks == 0 then k else PhaseAfter(NextPhase(k), ticks - 1)
  }

  /** The accumulator is a counter modulo 2 * pi: after PhaseSteps fired ticks it is back where it was. */
  lemma {:induction false} PhaseAfterTicks(k: nat, ticks: nat)
    requires k < PhaseSteps
    ensures PhaseAfter(k, ticks) == (k + ticks) % PhaseSteps
    ensures ticks == PhaseSteps ==> PhaseAfter(k, ticks) == k
    decreases ticks
  {
    if ticks > 0 {
      PhaseAfterTicks(NextPhase(k), ticks - 1);
      assert NextPhase(k) + (ticks - 1) == (k + ticks) - (if k + 1 >= PhaseSteps then PhaseSteps else 0);
    }
  }

  /**
   * The frame colour of a fired tick and the number of randint calls it made, given the raw
   * draws from position used onwards. The choice is made in this order: dark when disabled, white
   * when forced, a flash colour when flashing is on and randint(0, flashOneOf) gives 0, and the
   * base colour scaled by the brightness otherwise.
   */
  function CircleColor(enabled: bool, allWhite: bool, flashEnabled: bool, flashOneOf: nat,
                       base: Color, scale: Fraction, stream: nat -> nat, used: nat): (c: Drawn<Color>)
    ensures !enabled ==> c == Drawn(BLACK, 0)
    ensures enabled && allWhite ==> c == Drawn(WHITE, 0)
    ensures enabled && !allWhite && !flashEnabled ==> c == Drawn(Scaled(base, scale), 0)
    ensures enabled && !allWhite && flashEnabled && Pick(stream(used), 0, flashOneOf) == 0 ==>
      c.used == 2 && c.value in FlashColors
    ensures enabled && !allWhite && flashEnabled && Pick(stream(used), 0, flashOneOf) != 0 ==>
      c == Drawn(Scaled(base, scale), 1)
  {
    if !enabled then Drawn(BLACK, 0)
    else if allWhite then Drawn(WHITE, 0)
    else if flashEnabled && Pick(stream(used), 0, flashOneOf) == 0 then
      Drawn(PickFrom(FlashColors, stream(used + 1)), 2)
    else Drawn(Scaled(base, scale), if flashEnabled then 1 else 0)
  }

  /**
   * The buffer and draw count after one update of a circle on segment r, starting from buffer s:
   * untouched unless the gate fired, and then one colour, the one CircleColor picks, on all of r.
   */
  function CircleStep(s: seq<Color>, r: PixelRange, fired: bool, enabled: bool, allWhite: bool,
                      flashEnabled: bool, flashOneOf: nat, base: Color, scale: Fraction,
                      stream: nat -> nat, used: nat): (w: Drawn<seq<Color>>)
    requires r.WithinStrip(|s|)
    ensures |w.value| == |s|
    ensures !fired ==> w == Drawn(s, used)
    ensures forall p :: 0 <= p < |s| && !r.Contains(p) ==> w.value[p] == s[p]
    ensures fired ==>
      var c := CircleColor(enabled, allWhite, flashEnabled, flashOneOf, base, scale, stream, used);
      w.used == used + c.used && forall p :: r.Contains(p) ==> w.value[p] == c.value
  {
    if !fired then Drawn(s, used)
    else
      var c := CircleColor(enabled, allWhite, flashEnabled, flashOneOf, base, scale, stream, used);
      Drawn(Painted(s, r, Uniform(c.value, r.Len())), used + c.used)
  }

  /** Whatever the flags and draws, the frame colour is black, white, a flash colour or the scaled base. */
  lemma CirclePalette(enabled: bool, allWhite: bool, flashEnabled: bool, flashOneOf: nat,
                      base: Color, scale: Fraction, stream: nat -> nat, used: nat)
    ensures var c := CircleColor(enabled, allWhite, flashEnabled, flashOneOf, base, scale, stream, used).value;
      c == BLACK || c == WHITE || c in FlashColors || c == Scaled(base, scale)
  {
  }

  /** Every flash colour can come up on a flashing tick, whatever flashOneOf is. */
  lemma FlashCovers(flashOneOf: nat, base: Color, scale: Fraction, used: nat, want: Color)
    requires want in FlashColors
    ensures exists stream: nat -> nat ::
      CircleColor(true, false, true, flashOneOf, base, scale, stream, used).value == want
  {
    var i := IndexOf(FlashColors, want);
    var stream: nat -> nat := (k: nat) => SingleDraw(used + 1, i, k);
    assert Pick(stream(used), 0, flashOneOf) == 0;
    assert CircleColor(true, false, true, flashOneOf, base, scale, stream, used).value == FlashColors[i];
  }

  class MagicCircle {
    const color: Color
    const pixelRange: PixelRange
    const interval: real
    const flashOneOf: nat
    /** (sin(k * pi / 50) + 1) / 2 for phase step k. */
    const brightness: nat -> Fraction
    /** The earliest time at which the next update fires. */
    var target: real
    /** The phase accumulator, in steps. */
    var phase: nat
    var enabled: bool
    var flashEnabled: bool

    ghost predicate Valid()
      reads this
    {
      phase < PhaseSteps
    }

    constructor (baseColor: Color, pixelRange: PixelRange, updateInterval: real, flashOneOf: nat,
                 brightness: nat -> Fraction)
      ensures Valid()
      ensures color == baseColor && this.pixelRange == pixelRange && interval == updateInterval
      ensures this.flashOneOf == flashOneOf && this.brightness == brightness
      ensures target == 0.0 && phase == 0 && !enabled && !flashEnabled
    {
      color := baseColor;
      this.pixelRange := pixelRange;
      interval := updateInterval;
      this.flashOneOf := flashOneOf;
      this.brightness := brightness;
      target := 0.0;
      phase := 0;
      enabled := false;
      flashEnabled := false;
    }

    method Enable(on: bool)
      modifies this`enabled
      ensures enabled == on
    {
      enabled := on;
    }

    method EnableFlash(on: bool)
      modifies this`flashEnabled
      ensures flashEnabled == on
    {
      flashEnabled := on;
    }

    /** The colour choice of a fired tick, drawing from rng as randint would. */
    method FrameColor(allWhite: bool, rng: Random) returns (c: Color)
      modifies rng
      ensures var choice := CircleColor(enabled, allWhite, flashEnabled, flashOneOf, color, brightness(phase),
                                        rng.stream, old(rng.used));
        c == choice.value && rng.used == old(rng.used) + choice.used
    {
      if enabled {
        if allWhite {
          c := WHITE;
        } else {
          var flash := false;
          if flashEnabled {
            var d := rng.RandInt(0, flashOneOf);
            flash := d == 0;
          }
          if flash {
            var i := rng.RandInt(0, |FlashColors| - 1);
            c := FlashColors[i];
          } else {
            c := Scaled(color, brightness(phase));
          }
        }
      } else {
        c := BLACK;
      }
    }

    /**
     * Before target nothing happens at all. From target on: the gate moves to now + interval, the
     * phase advances (also while disabled), and the whole segment gets the colour CircleColor picks.
     */
    method Update(now: real, allWhite: bool, pixels: array<Color>, rng: Random)
      requires Valid() && pixelRange.WithinStrip(pixels.Length)
      modifies this`target, this`phase, pixels, rng
      ensures Valid()
      ensures now < old(target) ==> target == old(target) && phase == old(phase)
      ensures old(target) <= now ==> target == now + interval && phase == NextPhase(old(phase))
      ensures var w := CircleStep(old(pixels[..]), pixelRange, old(target) <= now, enabled, allWhite,
                                  flashEnabled, flashOneOf, color, brightness(phase), rng.stream, old(rng.used));
        pixels[..] == w.value && rng.used == w.used
    {
      if now < target {
        return;
      }
      target := now + interval;

      phase := phase + 1;
      if phase >= PhaseSteps {
        phase := 0;
      }

      var c := FrameColor(allWhite, rng);
      PaintSegment(pixels, pixelRange, c);
    }
  }
}
