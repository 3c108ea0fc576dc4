/**
 * The arithmetic of the evasive OK button's teleport: given the container's
 * size and one draw of `Math.random()` per axis, the new offset from the
 * button's natural position.
 */
module Evasion {

  /** Width and height of the container's bounding client rectangle. */
  datatype Rect = Rect(width: real, height: real)

  /** Half the button's footprint plus margin, kept clear of the edges. */
  const HalfButtonWidth: real := 60.0
  const HalfButtonHeight: real := 40.0

  function Abs(x: real): real { if x < 0.0 then -x else x }

  /** Largest horizontal offset: half the container width less 60. It is
      non-negative exactly when the container is at least 120 wide. */
  function MaxX(rect: Rect): (m: real)
    ensures m >= 0.0 <==> rect.width >= 2.0 * HalfButtonWidth
  {
    rect.width / 2.0 - HalfButtonWidth
  }

  /** Largest vertical offset: half the container height less 40. It is
      non-negative exactly when the container is at least 80 high. */
  function MaxY(rect: Rect): (m: real)
    ensures m >= 0.0 <==> rect.height >= 2.0 * HalfButtonHeight
  {
    rect.height / 2.0 - HalfButtonHeight
  }

  /** One axis of the teleport: a draw `r` of `Math.random()` mapped
      linearly onto the interval from `-max` to `max`; the middle draw
      leaves the button where it is. */
  function Scatter(r: real, max: real): (t: real)
    ensures 0.0 <= r < 1.0 ==> -Abs(max) <= t <= Abs(max)
    ensures r == 0.5 ==> t == 0.0
  {
    ScaleBound((r - 0.5) * 2.0, max);
    (r - 0.5) * 2.0 * max
  }

  /** A factor between -1 and 1 scales `max` to at most |max| either way. */
  lemma ScaleBound(u: real, max: real)
    ensures -1.0 <= u <= 1.0 ==> -Abs(max) <= u * max <= Abs(max)
  {
    if -1.0 <= u <= 1.0 {
      if max > 0.0 {
        ProductSign(u + 1.0, max);
        ProductSign(1.0 - u, max);
      } else if max < 0.0 {
        ProductSign(u + 1.0, -max);
        ProductSign(1.0 - u, -max);
      }
    }
  }

  /** A draw in [0, 1) never moves the button further than |max| along
      its axis; for max > 0 the offset lies in [-max, max). */
  lemma ScatterBounded(r: real, max: real)
    requires 0.0 <= r < 1.0
    ensures -Abs(max) <= Scatter(r, max) <= Abs(max)
    ensures max >= 0.0 ==> -max <= Scatter(r, max) && (max > 0.0 ==> Scatter(r, max) < max)
  {
    var u := (r - 0.5) * 2.0;
    assert -1.0 <= u < 1.0;
    assert Scatter(r, max) == u * max;
    if max >= 0.0 {
      assert (u + 1.0) * max >= 0.0;
      assert (1.0 - u) * max >= 0.0;
      if max > 0.0 { assert (1.0 - u) * max > 0.0; }
    } else {
      assert (u + 1.0) * (-max) >= 0.0;
      assert (1.0 - u) * (-max) >= 0.0;
    }
  }

  /** The draw that lands the button at offset `t` along an axis of half
      extent `max`: the inverse of `Scatter`. */
  function DrawFor(t: real, max: real): (r: real)
    requires max != 0.0
    ensures Scatter(r, max) == t
  {
    t / (2.0 * max) + 0.5
  }

  /** Every offset strictly inside the interval is reachable by some valid
      draw, so the teleport is not confined to part of its range. */
  lemma ScatterCoversInterior(t: real, max: real)
    requires -Abs(max) < t < Abs(max)
    ensures 0.0 <= DrawFor(t, max) < 1.0
  {
    var m := 2.0 * max;
    var q := t / m;
    assert q * m == t;
    assert (q + 0.5) * m == t + max && (q - 0.5) * m == t - max;
    if max > 0.0 {
      ProductSign(q + 0.5, m);
      ProductSign(q - 0.5, m);
    } else {
      ProductSign(q + 0.5, -m);
      ProductSign(q - 0.5, -m);
    }
  }

  /** Multiplying by a positive factor keeps the sign. */
  lemma ProductSign(a: real, b: real)
    requires b > 0.0
    ensures a <= 0.0 ==> a * b <= 0.0
    ensures a >= 0.0 ==> a * b >= 0.0
  {
  }
}
