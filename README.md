# dungeon-lights effect engine in Dafny

A model of the light-effect engine of `code.py` in dungeon-lights: one 38-pixel RGB strip is
split into three segments, each driven by its own effect object.

- **Magic circle** (pixels 0..23): one colour on the whole segment. It is dark when disabled and
  white when forced. When flashing is on, a random flash colour comes up one time in
  `flash_one_of + 1`. Otherwise it is the base colour dimmed by a sine-shaped breathing
  brightness.
- **Inner fire** (pixels 24..30): on every frame each pixel draws its own ember shade.
- **Flame** (pixels 31..37): a per-pixel flicker of flame colours, interrupted now and then by a
  flash that paints the whole segment in one colour.

Each effect runs on its own schedule: it does nothing until the clock reaches its target, then
sets the target to `now` plus its interval (missed ticks are not caught up) and redraws its
segment. One iteration of the main loop reads
the switches, sets the enable flags, updates the three effects in a fixed order, and flushes the
strip once.

Modules, one per concern of the program:

- `Colors` (`colors.dfy`): channels, colours, the program's colour constants, `clip`, and the
  channel scaling used for the breathing glow.
- `LedStrip` (`led_strip.dfy`): the strip size, the three pixel ranges, the pure model of
  painting a segment (`Painted`), the in-place `PaintSegment` loop, and the strip's buffer and
  `show` counter.
- `Randomness` (`randomness.dfy`): `randint` over an injected stream of raw draws, and a `Random`
  object whose cursor counts the calls made.
- `MagicCircleEffect`, `InnerFireEffect`, `FlameEffect`: each effect's class (fields updated in
  place, `Update` writes the shared pixel array), together with a pure function of what one fired
  update writes and how many draws it takes.
- `Scheduler` (`scheduler.dfy`): the settings, the `Lights` object that wires everything as at
  start-up, one iteration of the main loop (`Tick`), and its pure counterpart `TickFrame`.

Randomness is modelled as an arbitrary stream `nat -> nat` of raw draws. `randint(lo, hi)` maps
draw `d` to `lo + d % (hi - lo + 1)`. Each effect's contract ties its output to the draws it
consumed, in call order. The covering lemmas show that every colour choice an effect can make
is reachable by some stream: each flash colour of the circle and of the flame, every ember
pattern, and every flicker pattern. The brightness `(sin(phase) + 1) / 2` is an injected function from
the phase step to `[0, 1]`. The phase accumulator is an integer count of `pi/50` steps that wraps
at 100, which is `2 * pi`.

Two facts about the program that the model keeps:

- `clip` truncates with `int()`; it does not round.
- 100 phase steps of `pi/50` make one period of the sine.

## Model

| member | source | states |
|---|---|---|
| Colors.Trunc | code.py:52 | `int()` on a float truncates toward zero: for v ≥ 0 the result is the largest integer not above v, and for v < 0 the smallest integer not below v |
| Colors.Clip | code.py:51-52 | below 1 gives 0, 255 and above gives 255, and in between the result is v rounded down, so the result is always a channel value |
| Colors.ScaleChannel | code.py:98-99 | `clip(x * scale)` for a channel x and a scale in [0, 1] never exceeds x and is x·scale rounded down |
| Colors.Scaled | code.py:98-99 | the dimmed base colour is channel-wise at most the base; full brightness gives the base and zero brightness gives black |
| LedStrip.SegmentLayout | code.py:176-178 | the three ranges are pairwise disjoint, fit the 38-pixel strip, have lengths summing to 38 and cover every pixel |
| LedStrip.Painted | code.py:103-104 | writing colours to a segment changes exactly the pixels of that segment, pixel p getting colour p − lo, and keeps the strip's length |
| LedStrip.PaintSegment | code.py:103-104 | the in-place loop leaves the buffer equal to the old buffer painted with one colour on the range |
| LedStrip.Strip.constructor | code.py:28 | a fresh buffer of n black pixels and no flush yet |
| LedStrip.Strip.Show | code.py:209 | each flush is counted once |
| Randomness.Pick | code.py:95-96 | `randint(lo, hi)` always lies in [lo, hi], and a raw draw within the range is returned as is |
| Randomness.PickCovers | code.py:95 | every value of [lo, hi] is produced by some draw |
| Randomness.PickFrom | code.py:96 | indexing a palette by `randint(0, len - 1)` yields a palette member, and draw d < len yields entry d |
| Randomness.Independent | code.py:130-132 | one draw per pixel, in pixel order: the result has n entries, each a palette member |
| Randomness.IndependentCovers | code.py:168-169 | every sequence of palette members is the outcome of some stream of draws |
| Randomness.Random.RandInt | code.py:95-96 | each call takes the next raw draw, advances the cursor by one and returns `randint` of that draw |
| MagicCircleEffect.NextPhase | code.py:88-90 | one step stays below 2π and equals (k + 1) mod 100 |
| MagicCircleEffect.PhaseAfterTicks | code.py:88-90 | after t fired updates the phase is (k + t) mod 100, and after 100 it is back where it started |
| MagicCircleEffect.CircleColor | code.py:92-101 | the colour choice in the program's order: disabled gives black with no draw, forced white gives white with no draw, flash disabled gives the scaled base with no draw, a 0 from `randint(0, flash_one_of)` gives a flash colour after two draws, and any other value gives the scaled base after one draw |
| MagicCircleEffect.CirclePalette | code.py:92-101 | the frame colour is always black, white, a flash colour or the dimmed base |
| MagicCircleEffect.FlashCovers | code.py:95-96 | each of the five flash colours can come up on a flashing update |
| MagicCircleEffect.CircleStep | code.py:82-104 | a closed gate leaves buffer and draws alone; otherwise every pixel of the segment gets the chosen colour, no pixel outside it changes, and the draws advance by the choice's count |
| MagicCircleEffect.MagicCircle.constructor | code.py:61-71 | the settings as given, target 0, phase 0, effect and flash disabled |
| MagicCircleEffect.MagicCircle.Enable | code.py:74-75 | sets the enable flag |
| MagicCircleEffect.MagicCircle.EnableFlash | code.py:78-79 | sets the flash flag |
| MagicCircleEffect.MagicCircle.FrameColor | code.py:92-101 | the `randint` calls of the colour choice return what `CircleColor` says and consume as many draws as it counts |
| MagicCircleEffect.MagicCircle.Update | code.py:82-104 | before the target nothing changes; from the target on, the target moves to now + interval, the phase advances (also while disabled) and stays below 2π, and buffer and draw cursor become those of `CircleStep` |
| InnerFireEffect.FireFrame | code.py:130-134 | enabled: one draw per pixel, each pixel the ember shade of its own draw; disabled: all black, no draw |
| InnerFireEffect.FireStep | code.py:124-134 | a closed gate leaves buffer and draws alone; otherwise the segment holds `FireFrame` and nothing outside it changes |
| InnerFireEffect.EmbersCover | code.py:130-132 | every pattern of ember shades can appear |
| InnerFireEffect.InnerFire.constructor | code.py:112-117 | the settings as given, target 0, disabled |
| InnerFireEffect.InnerFire.Enable | code.py:120-121 | sets the enable flag |
| InnerFireEffect.InnerFire.Update | code.py:124-134 | before the target nothing changes; from the target on, the target moves to now + interval, and buffer and draws become those of `FireStep` |
| InnerFireEffect.InnerFire.Render | code.py:130-134 | the per-pixel loop paints the segment with `FireFrame` and draws once per pixel when enabled |
| FlameEffect.FlameFrame | code.py:162-172 | disabled: black with no draw; a 0 from `randint(0, flash_one_of)`: two draws and one flash colour on every pixel; otherwise n + 1 draws, each pixel a flame colour of its own draw |
| FlameEffect.FlashForced | code.py:163-166 | with `flash_one_of` = 0 an enabled flame always flashes: two draws, every pixel one and the same flash colour |
| FlameEffect.FlickerCovers | code.py:163-169 | with `flash_one_of` > 0, every pattern of flame colours is the outcome of some stream |
| FlameEffect.FlameFlashCovers | code.py:163-166 | each of the four flame flash colours can fill the whole segment, whatever `flash_one_of` is |
| FlameEffect.FlameStep | code.py:156-172 | a closed gate leaves buffer and draws alone; otherwise the segment holds `FlameFrame` and nothing outside it changes |
| FlameEffect.Flame.constructor | code.py:142-149 | the settings as given, target 0, disabled |
| FlameEffect.Flame.Enable | code.py:152-153 | sets the enable flag |
| FlameEffect.Flame.Update | code.py:156-172 | before the target nothing changes; from the target on, the target moves to now + interval, and buffer and draws become those of `FlameStep` |
| FlameEffect.Flame.Flicker | code.py:168-169 | the flicker loop paints the segment with one flame colour per pixel, drawn in pixel order, one draw each |
| Scheduler.TickFrame | code.py:206-208 | the strip keeps its 38 pixels through an iteration; what each segment holds and where its draws start are stated by `TickCircle`, `TickFlame`, `TickFire` and `TickDraws` |
| Scheduler.TickCircle | code.py:206 | after an iteration the circle segment is unchanged when its gate is closed, and otherwise holds on every pixel the colour `CircleColor` picks from the iteration's first draws |
| Scheduler.TickFlame | code.py:206-207 | the flame segment is unchanged when its gate is closed; otherwise pixel p holds entry p − 31 of `FlameFrame` drawn from the position right after the circle's draws, which makes it a flame or flash colour, or black when the flame is off |
| Scheduler.TickFire | code.py:206-208 | the inner-fire segment is unchanged when its gate is closed; otherwise pixel p holds entry p − 24 of `FireFrame` drawn from the position after the circle's and the flame's draws, which makes it an ember shade, or black when the fire is off |
| Scheduler.TickDraws | code.py:206-208 | an iteration's draws are the circle's, then the flame's, then the inner fire's, each starting where the one before stopped, and an effect whose gate is closed takes none |
| Scheduler.AllOffDark | code.py:201-208 | with all three effect switches off, an iteration writes only black, and with all three gates firing the whole strip is black |
| Scheduler.WhiteSwitchOffForcesWhite | code.py:92-94 | circle switch on and white switch off: a firing circle segment is all white whatever the flash switch says |
| Scheduler.Lights.constructor | code.py:176-194 | start-up wiring with the program's settings; a dark strip, cursor 0, all targets 0, all effects disabled |
| Scheduler.Lights.Tick | code.py:196-209 | one iteration: the flags follow the switches; each target and the phase move as their gate says; the buffer and draws equal `TickFrame` of the old ones; one flush; and with every effect switch off a dark strip stays dark |
| Scheduler.Lights.UpdateEffects | code.py:206-208 | the three updates in the program's order produce `TickFrame` |
| Scheduler.Lights.UpdateFires | code.py:207-208 | the flame's update followed by the inner fire's produce `FireStep` after `FlameStep` |

## Left out

- Hardware setup, the NeoPixel driver and the `Debouncer` objects are not modelled. The switch
  values arrive in `Tick` as a `Switches` record, and `show` is a flush counter.
- `time.monotonic()` is not modelled: the clock reading is the parameter `now`, and time is an
  exact real, not a float.
- The pixel buffer is a global in the program. In the model each `Update` takes it as an array
  parameter, and `Lights` holds the one strip all three write.
- `math.sin` is not modelled: the brightness `(sin + 1) / 2` is an injected function of the phase
  step with values in [0, 1]. Its shape (period, values) is not modelled.
- MagicCircleEffect.MagicCircle.Update: the float accumulator `_current_brightness += pi/50` is an integer step
  counter that wraps exactly at 100 steps. A float sum of 100 steps can fall just short of `2 * pi`
  and wrap one step later; the model does not capture that rounding.
- `randint`'s distribution is not modelled, only which values each draw can produce and how
  many draws each update takes. The model's draw is an arbitrary stream, so uniformity claims
  are out of scope.
- The endless `while True` loop is modelled as one iteration, `Tick`. Properties over many
  iterations are stated on the phase counter (`PhaseAfterTicks`) but not on `Tick` itself.
- Unused colour constants (GREEN, CYAN, PURPLE) are declared but play no part in any effect.
