/** Distances in the play-field, without square roots.

    The game compares `Math.sqrt(dx * dx + dy * dy) < r` in two places (a click
    against a debris' click radius, a target against the planet).  Over the reals
    that comparison is decided by squares alone, which is what `Within` does. */
module Geometry {

  /** The squared length of the vector (dx, dy). */
  function NormSq(dx: real, dy: real): real
  {
    dx * dx + dy * dy
  }

  /** True when the vector (dx, dy) is strictly shorter than r.  A non-positive
      r admits nothing, since a length is never negative. */
  predicate Within(dx: real, dy: real, r: real)
  {
    0.0 < r && NormSq(dx, dy) < r * r
  }

  /** `Within` is exactly the source's test: for the true length d of (dx, dy),
      `Within(dx, dy, r)` holds if and only if d < r. */
  lemma WithinIsDistanceBelow(dx: real, dy: real, r: real, d: real)
    requires 0.0 <= d && d * d == NormSq(dx, dy)
    ensures Within(dx, dy, r) <==> d < r
  {
    if 0.0 < r {
      if d < r {
        calc {
          NormSq(dx, dy);
        ==
          d * d;
        <=  { assert 0.0 <= d; }
          d * r;
        <
          r * r;
        }
      } else {
        assert r * r <= r * d;
        assert r * d <= d * d;
      }
    }
  }

  /** Scaling a vector by f scales its squared length by f * f. */
  lemma NormSqScale(dx: real, dy: real, f: real)
    ensures NormSq(dx * f, dy * f) == NormSq(dx, dy) * (f * f)
  {
  }

  /** Moving a length v along the unit vector (dx, dy) / d of a vector of length
      d > 0 leaves a vector of length |d - v|. */
  lemma ShortenAlong(dx: real, dy: real, d: real, v: real)
    requires 0.0 < d && d * d == NormSq(dx, dy)
    ensures NormSq(dx - dx / d * v, dy - dy / d * v) == (d - v) * (d - v)
  {
    var f := (d - v) / d;
    assert dx - dx / d * v == dx * f by {
      assert dx * f == dx * (d / d) - dx * (v / d);
    }
    assert dy - dy / d * v == dy * f by {
      assert dy * f == dy * (d / d) - dy * (v / d);
    }
    assert d * f == d - v;
    calc {
      NormSq(dx * f, dy * f);
      { NormSqScale(dx, dy, f); }
      NormSq(dx, dy) * (f * f);
      (d * d) * (f * f);
      { assert (d * d) * (f * f) == (d * f) * (d * f); }
      (d * f) * (d * f);
    }
  }
}
