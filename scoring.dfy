/** The distance-to-score rule shared by the practice page, the review page and the
  * record service: a linear decay from `maxScore` at distance 0 to 0 at `radius`,
  * floored at 0, then rounded. Distances are taken as given (the haversine formula
  * that produces them is not part of this model). */
module Scoring {

  /** A distance in metres. */
  type Meters = r: real | r >= 0.0

  /** `Math.round(x)` in JavaScript and Java: the nearest integer, halves rounding up. */
  function RoundHalfUp(x: real): (n: int)
    ensures n as real - 0.5 <= x < n as real + 0.5
  {
    (x + 0.5).Floor
  }

  lemma RoundMonotone(x: real, y: real)
    requires x <= y
    ensures RoundHalfUp(x) <= RoundHalfUp(y)
  {
  }

  /** The unrounded score, `max(0, maxScore * (1 - m / radius))`. */
  function RawScore(maxScore: nat, radius: real, m: Meters): (raw: real)
    requires radius > 0.0
    ensures 0.0 <= raw <= maxScore as real
    ensures raw == 0.0 || raw == maxScore as real * (1.0 - m / radius)
  {
    assert m / radius >= 0.0;
    var linear := maxScore as real * (1.0 - m / radius);
    assert linear <= maxScore as real;
    if linear > 0.0 then linear else 0.0
  }

  /** `Math.round(Math.max(0, maxScore * (1 - m / radius)))`. */
  function DecayScore(maxScore: nat, radius: real, m: Meters): (score: int)
    requires radius > 0.0
    ensures 0 <= score <= maxScore
  {
    RoundHalfUp(RawScore(maxScore, radius, m))
  }

  /** A guess on the spot earns the full score. */
  lemma DecayAtZero(maxScore: nat, radius: real)
    requires radius > 0.0
    ensures DecayScore(maxScore, radius, 0.0) == maxScore
  {
    assert RawScore(maxScore, radius, 0.0) == maxScore as real;
  }

  /** From the radius on, the score is 0. */
  lemma DecayBeyondRadius(maxScore: nat, radius: real, m: Meters)
    requires radius > 0.0 && m >= radius
    ensures DecayScore(maxScore, radius, m) == 0
  {
    assert m / radius >= 1.0;
    assert maxScore as real * (1.0 - m / radius) <= 0.0;
    assert RawScore(maxScore, radius, m) == 0.0;
  }

  /** The score never increases as the distance grows. */
  lemma DecayMonotone(maxScore: nat, radius: real, m1: Meters, m2: Meters)
    requires radius > 0.0 && m1 <= m2
    ensures DecayScore(maxScore, radius, m2) <= DecayScore(maxScore, radius, m1)
  {
    assert m1 / radius <= m2 / radius by {
      assert m2 / radius - m1 / radius == (m2 - m1) / radius;
    }
    var l1 := maxScore as real * (1.0 - m1 / radius);
    var l2 := maxScore as real * (1.0 - m2 / radius);
    assert l2 <= l1 by {
      assert l1 - l2 == maxScore as real * (m2 / radius - m1 / radius);
    }
    RoundMonotone(RawScore(maxScore, radius, m2), RawScore(maxScore, radius, m1));
  }
}
