/**
 * Analog sticks: auto-calibrating bounds and normalisation of a raw axis
 * sample to a percentage in [-100, 100].
 */
module Sticks {
  import opened Events

  /** Initial magnitude of every calibration bound. */
  const StickPeak: int := 20000

  /**
   * A stick: its name, its normalised position (x, y) and the calibration
   * bounds seen so far on each axis.
   */
  datatype Stick = Stick(name: string, x: real, y: real,
                         xMin: int, xMax: int, yMin: int, yMax: int)

  /**
   * The stick invariant: bounds straddle zero at least as widely as the
   * initial range, and the position lies in [-100, 100] on each axis.
   */
  predicate Calibrated(s: Stick)
  {
    && s.xMin <= -StickPeak && StickPeak <= s.xMax
    && s.yMin <= -StickPeak && StickPeak <= s.yMax
    && -100.0 <= s.x <= 100.0 && -100.0 <= s.y <= 100.0
  }

  function Min(a: int, b: int): (m: int) { if a <= b then a else b }
  function Max(a: int, b: int): (m: int) { if a >= b then a else b }

  /** A stick at rest with the default calibration range. */
  function InitStick(name: string): (s: Stick)
    ensures s.name == name && s.x == 0.0 && s.y == 0.0
    ensures Calibrated(s)
    ensures s.xMin == s.yMin == -StickPeak && s.xMax == s.yMax == StickPeak
  {
    Stick(name, 0.0, 0.0, -StickPeak, StickPeak, -StickPeak, StickPeak)
  }

  /**
   * Widening of one axis's bounds (lo, hi) by a sample v: a sample below
   * lo becomes the new lower bound, otherwise a sample above hi becomes the
   * new upper bound.
   */
  function Widen(v: int, lo: int, hi: int): (b: (int, int))
    ensures b.0 <= lo && hi <= b.1
    ensures lo <= hi ==> b.0 <= v <= b.1
    ensures lo <= hi ==> b == (Min(lo, v), Max(hi, v))
    ensures lo <= v <= hi ==> b == (lo, hi)
  {
    if v < lo then (v, hi)
    else if v > hi then (lo, v)
    else (lo, hi)
  }

  /**
   * Normalisation of an x sample against bounds lo < 0 < hi: positive
   * samples scale against hi, negative ones against lo, zero stays zero.
   */
  function NormaliseX(v: int, lo: int, hi: int): (r: real)
    requires lo < 0 < hi
    ensures lo <= v <= hi ==> -100.0 <= r <= 100.0
    ensures r == 0.0 <==> v == 0
    ensures r > 0.0 <==> v > 0
    ensures v == hi ==> r == 100.0
    ensures v == lo ==> r == -100.0
  {
    if v > 0 then (100.0 * v as real) / hi as real
    else if v < 0 then (-100.0 * v as real) / lo as real
    else 0.0
  }

  /** Normalisation of a y sample: as for x, with the sign inverted. */
  function NormaliseY(v: int, lo: int, hi: int): (r: real)
    requires lo < 0 < hi
    ensures r == -NormaliseX(v, lo, hi)
    ensures lo <= v <= hi ==> -100.0 <= r <= 100.0
    ensures r == 0.0 <==> v == 0
    ensures r < 0.0 <==> v > 0
  {
    if v > 0 then (-100.0 * v as real) / hi as real
    else if v < 0 then (100.0 * v as real) / lo as real
    else 0.0
  }

  /**
   * The stick after one raw sample (x, y): bounds widened first, then each
   * axis normalised against the widened bounds.
   */
  function StickStep(s: Stick, x: int, y: int): (t: Stick)
    requires Calibrated(s)
    ensures Calibrated(t)
    ensures t.name == s.name
    ensures t.xMin <= s.xMin && s.xMax <= t.xMax
    ensures t.yMin <= s.yMin && s.yMax <= t.yMax
    ensures t.xMin <= x <= t.xMax && t.yMin <= y <= t.yMax
    ensures (t.x == 0.0 <==> x == 0) && (t.x > 0.0 <==> x > 0)
    ensures (t.y == 0.0 <==> y == 0) && (t.y < 0.0 <==> y > 0)
  {
    var xb := Widen(x, s.xMin, s.xMax);
    var yb := Widen(y, s.yMin, s.yMax);
    Stick(s.name, NormaliseX(x, xb.0, xb.1), NormaliseY(y, yb.0, yb.1),
          xb.0, xb.1, yb.0, yb.1)
  }

  /** Feeding the same sample twice changes nothing the second time. */
  lemma RepeatedSampleIsStable(s: Stick, x: int, y: int)
    requires Calibrated(s)
    ensures StickStep(StickStep(s, x, y), x, y) == StickStep(s, x, y)
    ensures StickChange(StickStep(s, x, y), StickStep(StickStep(s, x, y), x, y)) == []
  {
  }

  /** A centred sample leaves a fresh stick as it is and emits nothing. */
  lemma InitStickAtRest(name: string)
    ensures StickStep(InitStick(name), 0, 0) == InitStick(name)
    ensures StickChange(InitStick(name), InitStick(name)) == []
  {
  }

  /**
   * The events one stick update emits: a single event carrying the full new
   * position when either axis moved, none otherwise.
   */
  function StickChange(before: Stick, after: Stick): (evs: seq<Event>)
    ensures |evs| <= 1
    ensures evs != [] <==> (after.x != before.x || after.y != before.y)
    ensures evs != [] ==> evs == [StickEv(after.name, after.x, after.y)]
  {
    if after.x != before.x || after.y != before.y then [StickEv(after.name, after.x, after.y)] else []
  }
}
