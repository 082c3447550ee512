/** The strip buffer, the segments of it that the effects own, and what painting a segment does. */
module LedStrip {
  import opened Colors

  /** Number of pixels on the strip. */
  const NumPixels: nat := 38

  /** A half-open run of pixel indices from lo up to but excluding hi; empty when hi <= lo. */
  datatype PixelRange = PixelRange(lo: nat, hi: nat) {

    predicate Contains(p: int) {
      lo <= p < hi
    }

    function Len(): nat {
      if lo <= hi then hi - lo else 0
    }

    /** Every index of the range is a valid index of a buffer of the given size. */
    predicate WithinStrip(size: nat) {
      Len() == 0 || hi <= size
    }
  }

  const MagicCirclePixels := PixelRange(0, 24)
  const InnerFirePixels := PixelRange(24, 31)
  const FlamePixels := PixelRange(31, 38)

  predicate Disjoint(a: PixelRange, b: PixelRange) {
    forall p :: a.lo <= p < a.hi ==> !b.Contains(p)
  }

  /** The three segments are pairwise disjoint, fit in the strip and together cover all of it. */
  lemma SegmentLayout()
    ensures Disjoint(MagicCirclePixels, InnerFirePixels)
    ensures Disjoint(MagicCirclePixels, FlamePixels)
    ensures Disjoint(InnerFirePixels, FlamePixels)
    ensures MagicCirclePixels.WithinStrip(NumPixels) && InnerFirePixels.WithinStrip(NumPixels)
    ensures FlamePixels.WithinStrip(NumPixels)
    ensures MagicCirclePixels.Len() + InnerFirePixels.Len() + FlamePixels.Len() == NumPixels
    ensures forall p :: 0 <= p < NumPixels ==>
      MagicCirclePixels.Contains(p) || InnerFirePixels.Contains(p) || FlamePixels.Contains(p)
  {
  }

  /** The buffer after writing colors[i] to pixel r.lo + i for every index of r. */
  function Painted(s: seq<Color>, r: PixelRange, colors: seq<Color>): (t: seq<Color>)
    requires r.WithinStrip(|s|) && |colors| == r.Len()
    ensures |t| == |s|
    ensures forall i :: 0 <= i < |s| && !r.Contains(i) ==> t[i] == s[i]
    ensures forall i :: 0 <= i < |s| && r.Contains(i) ==> t[i] == colors[i - r.lo]
  {
    if r.Len() == 0 then s else s[..r.lo] + colors + s[r.hi..]
  }

  /** n copies of one colour: what a segment holds after a whole-segment write. */
  function Uniform(c: Color, n: nat): (s: seq<Color>)
    ensures |s| == n
    ensures forall i :: 0 <= i < n ==> s[i] == c
  {
    seq(n, _ => c)
  }

  /** Writes one colour to every pixel of a segment, in pixel order, and nothing else. */
  method PaintSegment(pixels: array<Color>, r: PixelRange, c: Color)
    requires r.WithinStrip(pixels.Length)
    modifies pixels
    ensures pixels[..] == Painted(old(pixels[..]), r, Uniform(c, r.Len()))
  {
    var p := r.lo;
    while p < r.hi
      invariant r.lo <= p <= r.hi || p == r.lo
      invariant forall i :: 0 <= i < pixels.Length ==>
        pixels[i] == if r.lo <= i < p then c else old(pixels[i])
    {
      pixels[p] := c;
      p := p + 1;
    }
    PaintedPointwise(pixels[..], old(pixels[..]), r, Uniform(c, r.Len()));
  }

  /** A buffer that agrees with Painted at every index is Painted. */
  lemma PaintedPointwise(a: seq<Color>, s: seq<Color>, r: PixelRange, colors: seq<Color>)
    requires r.WithinStrip(|s|) && |colors| == r.Len() && |a| == |s|
    requires forall i :: 0 <= i < |s| ==> a[i] == if r.Contains(i) then colors[i - r.lo] else s[i]
    ensures a == Painted(s, r, colors)
  {
    var t := Painted(s, r, colors);
    forall i | 0 <= i < |s|
      ensures a[i] == t[i]
    {
    }
  }

  /** The NeoPixel strip: a buffer written in place and flushed by Show. */
  class Strip {
    const pixels: array<Color>
    /** How many times the buffer was flushed to the hardware. */
    var shows: nat

    /** A fresh driver buffer starts out all black. */
    constructor (n: nat)
      ensures fresh(pixels) && pixels.Length == n && shows == 0
      ensures forall p :: 0 <= p < n ==> pixels[p] == BLACK
    {
      pixels := new Color[n](_ => BLACK);
      shows := 0;
    }

    /** Flush the buffer to the hardware; the buffer itself is left as it is. */
    method Show()
      modifies this`shows
      ensures shows == old(shows) + 1
    {
      shows := shows + 1;
    }
  }
}
