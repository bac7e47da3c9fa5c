/**
 * The deterministic pseudo-random source of the dashboards and the periodic report: the 32-bit
 * FNV-1a hash `hashString` over a string's UTF-16 code units, and the `mulberry32` generator
 * seeded with it. JavaScript evaluates `Math.imul`, `^`, `|` and `>>>` modulo 2^32, so both are
 * written over `bv32`. A draw `n / 2^32` is represented by its numerator `n`.
 */
module Prng {
  import opened JsText
  import opened Arith

  const FnvOffset: bv32 := 2166136261
  const FnvPrime: bv32 := 16777619
  /** The constant mulberry32 adds to its state before every draw (`a += 0x6D2B79F5`). */
  const Increment: bv32 := 0x6D2B79F5

  const TwoTo31: int := 0x8000_0000
  const TwoTo32: int := 0x1_0000_0000

  function Unit(u: bv16): bv32 {
    (u as int) as bv32
  }

  /** One FNV-1a round: `h ^= unit; h = Math.imul(h, 16777619)`. */
  function FnvStep(h: bv32, u: bv16): bv32 {
    (h ^ Unit(u)) * FnvPrime
  }

  /** FNV-1a of a sequence of code units, stated the way the hash loop builds it: one unit at a time at the end. */
  function Fnv1a(units: seq<bv16>): bv32 {
    if units == [] then FnvOffset
    else FnvStep(Fnv1a(units[..|units| - 1]), units[|units| - 1])
  }

  /** The textbook FNV-1a fold: start from `h` and absorb the units front to back. */
  function FnvFrom(h: bv32, units: seq<bv16>): bv32
    decreases |units|
  {
    if units == [] then h else FnvFrom(FnvStep(h, units[0]), units[1..])
  }

  lemma {:induction false} FnvFromAppend(h: bv32, units: seq<bv16>, u: bv16)
    ensures FnvFrom(h, units + [u]) == FnvStep(FnvFrom(h, units), u)
    decreases |units|
  {
    if units != [] {
      assert (units + [u])[1..] == units[1..] + [u];
      FnvFromAppend(FnvStep(h, units[0]), units[1..], u);
    } else {
      assert (units + [u])[1..] == [];
    }
  }

  /** The hash the loop computes is the standard FNV-1a fold from the offset basis. */
  lemma {:induction false} Fnv1aIsFold(units: seq<bv16>)
    ensures Fnv1a(units) == FnvFrom(FnvOffset, units)
  {
    if units != [] {
      var init, last := units[..|units| - 1], units[|units| - 1];
      assert init + [last] == units;
      Fnv1aIsFold(init);
      FnvFromAppend(FnvOffset, init, last);
      calc {
        Fnv1a(units);
        FnvStep(Fnv1a(init), last);
        FnvStep(FnvFrom(FnvOffset, init), last);
        FnvFrom(FnvOffset, init + [last]);
      }
    }
  }

  /** Hashing a concatenation resumes from the hash of the first part. */
  lemma {:induction false} FnvConcat(a: seq<bv16>, b: seq<bv16>)
    ensures Fnv1a(a + b) == FnvFrom(Fnv1a(a), b)
  {
    Fnv1aIsFold(a + b);
    Fnv1aIsFold(a);
    FnvFromSplit(FnvOffset, a, b);
  }

  lemma {:induction false} FnvFromSplit(h: bv32, a: seq<bv16>, b: seq<bv16>)
    ensures FnvFrom(h, a + b) == FnvFrom(FnvFrom(h, a), b)
    decreases |a|
  {
    if a != [] {
      assert (a + b)[1..] == a[1..] + b;
      FnvFromSplit(FnvStep(h, a[0]), a[1..], b);
    } else {
      assert a + b == b;
    }
  }

  /** `hashString`: the loop over `charCodeAt`, returning `h >>> 0`. */
  method HashString(s: string) returns (h: bv32)
    ensures h == Fnv1a(Utf16(s))
  {
    var units := Utf16(s);
    h := FnvOffset;
    var i := 0;
    while i < |units|
      invariant 0 <= i <= |units|
      invariant h == Fnv1a(units[..i])
    {
      assert units[..i + 1][..i] == units[..i];
      h := FnvStep(h, units[i]);
      i := i + 1;
    }
    assert units[..i] == units;
  }

  /** The state of a generator seeded with `seed` after `k` draws. */
  function StateAfter(seed: bv32, k: nat): bv32 {
    if k == 0 then seed else StateAfter(seed, k - 1) + Increment
  }

  /** The mixing a mulberry32 draw applies to the incremented state; the result is the draw's numerator. */
  function Temper(t0: bv32): bv32 {
    var t1 := (t0 ^ (t0 >> 15)) * (t0 | 1);
    var t2 := t1 ^ (t1 + (t1 ^ (t1 >> 7)) * (t1 | 61));
    t2 ^ (t2 >> 14)
  }

  /** The numerator of draw number `k` (from 0) of `mulberry32(seed)`. */
  function Draw(seed: bv32, k: nat): bv32 {
    Temper(StateAfter(seed, k + 1))
  }

  /**
   * One `mulberry32` closure: its captured variable `a` is the field `state`. The ghost fields
   * record the seed and how many draws were made, so every draw can be named by `Draw`.
   */
  class Mulberry32 {
    var state: bv32
    ghost var seed: bv32
    ghost var drawn: nat

    ghost predicate Valid()
      reads this
    {
      state == StateAfter(seed, drawn)
    }

    constructor (s: bv32)
      ensures Valid() && seed == s && drawn == 0 && state == s
    {
      state := s;
      seed := s;
      drawn := 0;
    }

    /** `rand()`: advance the state by the increment and return the tempered value. */
    method Next() returns (n: bv32)
      requires Valid()
      modifies this
      ensures Valid() && seed == old(seed) && drawn == old(drawn) + 1
      ensures state == old(state) + Increment
      ensures n == Draw(seed, old(drawn))
    {
      state := state + Increment;
      drawn := drawn + 1;
      n := Temper(state);
    }
  }

  /**
   * `Math.round((n / 2^32 - 0.5) * range)` for a draw numerator `n`. Every step is exact in
   * binary floating point for the ranges used (at most 18), and `Math.round(x)` is
   * `floor(x + 1/2)`, so this is the integer floor below.
   */
  function Jitter(n: bv32, range: nat): int {
    (range * (n as int) - range * TwoTo31 + TwoTo31) / TwoTo32
  }

  /** A jitter over an even range `w` lies in [-w/2, w/2]: [-6, 6] for 12, [-5, 5] for 10, [-9, 9] for 18. */
  lemma JitterBounds(n: bv32, range: nat)
    requires range > 0 && range % 2 == 0
    ensures -(range / 2) <= Jitter(n, range) <= range / 2
  {
    var v := n as int;
    var half := range / 2;
    assert range == 2 * half;
    assert 0 <= v < TwoTo32;
    var p := range * v;
    MulMonotone(range, 0, v);
    MulMonotone(range, v, TwoTo32 - 1);
    assert 0 <= p <= range * (TwoTo32 - 1);
    var x := p - range * TwoTo31 + TwoTo31;
    assert x == p - half * TwoTo32 + TwoTo31;
    assert x >= (-half) * TwoTo32;
    DivAtLeast(x, TwoTo32, -half);
    assert range * (TwoTo32 - 1) == half * TwoTo32 + half * TwoTo32 - range;
    assert x < (half + 1) * TwoTo32;
    DivAtMost(x, TwoTo32, half);
  }
}
