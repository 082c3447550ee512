/**
 * randint as an injected stream of raw draws. The k-th call of randint(lo, hi) reads the k-th raw
 * draw d and returns lo + d % (hi - lo + 1); since the stream is arbitrary, every value of the range
 * is possible on every call, and nothing is said about how likely it is.
 */
module Randomness {

  /** The value a uniform integer draw between lo and hi, both included, takes on raw draw d. */
  function Pick(d: nat, lo: int, hi: int): (r: int)
    requires lo <= hi
    ensures lo <= r <= hi
    ensures lo <= lo + d <= hi ==> r == lo + d
  {
    lo + d % (hi - lo + 1)
  }

  /** No value of the range is out of reach of a draw. */
  lemma PickCovers(lo: int, hi: int, v: int)
    requires lo <= v <= hi
    ensures exists d: nat :: Pick(d, lo, hi) == v
  {
    assert Pick(v - lo, lo, hi) == v;
  }

  /** The palette entry a uniform index draw selects: the draw taken modulo the palette's size. */
  function PickFrom<T>(palette: seq<T>, d: nat): (x: T)
    requires |palette| > 0
    ensures x in palette
    ensures d < |palette| ==> x == palette[d]
  {
    palette[Pick(d, 0, |palette| - 1)]
  }

  /** n colours, the i-th chosen from the palette by its own draw number first + i. */
  function Independent<T>(palette: seq<T>, n: nat, stream: nat -> nat, first: nat): (s: seq<T>)
    requires |palette| > 0
    ensures |s| == n
    ensures forall i :: 0 <= i < n ==> s[i] in palette
  {
    var s := seq(n, i requires 0 <= i < n => PickFrom(palette, stream(first + i)));
    assert forall i :: 0 <= i < n ==> s[i] == PickFrom(palette, stream(first + i));
    s
  }

  /** Position of the first occurrence of x in s, or |s| when there is none. */
  function IndexOf<T(==)>(s: seq<T>, x: T): (i: nat)
    ensures x in s ==> i < |s| && s[i] == x
    ensures x !in s ==> i == |s|
  {
    if |s| == 0 then 0 else if s[0] == x then 0 else 1 + IndexOf(s[1..], x)
  }

  /** The stream whose draw at position at is d and whose every other draw is 0. */
  function SingleDraw(at: nat, d: nat, k: nat): nat {
    if k == at then d else 0
  }

  /** A raw draw that makes draw number k pick want[k - first] out of the palette. */
  function PatternDraw<T(==)>(palette: seq<T>, want: seq<T>, first: nat, k: nat): nat {
    if first <= k < first + |want| then IndexOf(palette, want[k - first]) else 0
  }

  /**
   * Per-pixel independence: every sequence of palette members, however its neighbours differ, is
   * the outcome of some stream of draws.
   */
  lemma IndependentCovers<T>(palette: seq<T>, want: seq<T>, first: nat)
    requires |palette| > 0
    requires forall i :: 0 <= i < |want| ==> want[i] in palette
    ensures exists stream: nat -> nat :: Independent(palette, |want|, stream, first) == want
  {
    var stream: nat -> nat := (k: nat) => PatternDraw(palette, want, first, k);
    var got := Independent(palette, |want|, stream, first);
    forall i | 0 <= i < |want|
      ensures got[i] == want[i]
    {
      var d := IndexOf(palette, want[i]);
      assert want[i] in palette && d < |palette|;
      assert stream(first + i) == d;
      assert got[i] == PickFrom(palette, d);
    }
    assert got == want;
  }

  /** A value computed from random draws, with the number of draws it consumed. */
  datatype Drawn<T> = Drawn(value: T, used: nat)

  /** The random number generator: a fixed stream of raw draws and how many have been consumed. */
  class Random {
    const stream: nat -> nat
    var used: nat

    constructor (stream: nat -> nat)
      ensures this.stream == stream && used == 0
    {
      this.stream := stream;
      used := 0;
    }

    /** A uniform integer draw between lo and hi: takes the next raw draw of the stream. */
    method RandInt(lo: int, hi: int) returns (r: int)
      requires lo <= hi
      modifies this`used
      ensures used == old(used) + 1
      ensures r == Pick(stream(old(used)), lo, hi)
    {
      r := Pick(stream(used), lo, hi);
      used := used + 1;
    }
  }
}
