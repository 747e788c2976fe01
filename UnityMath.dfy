/**
 * Real-valued stand-ins for the small part of Unity's math library that the
 * player and room scripts use: Vector2, Vector3, Mathf.Clamp01, Mathf.Lerp,
 * Mathf.Min and Vector3.Lerp. Floats are idealised as `real`.
 */
module UnityMath {

  datatype Vec2 = Vec2(x: real, y: real)

  datatype Vec3 = Vec3(x: real, y: real, z: real)

  /** Vector2.zero */
  const ZERO2 := Vec2(0.0, 0.0)

  /** Mathf.Clamp01: the nearest point of [0, 1]. */
  function Clamp01(t: real): (r: real)
    ensures 0.0 <= r <= 1.0
    ensures 0.0 <= t <= 1.0 ==> r == t
    ensures t <= 0.0 ==> r == 0.0
    ensures t >= 1.0 ==> r == 1.0
  {
    if t < 0.0 then 0.0 else if t > 1.0 then 1.0 else t
  }

  /** Mathf.Min for two values. */
  function Min(a: real, b: real): (r: real)
    ensures r <= a && r <= b
    ensures r == a || r == b
  {
    if a <= b then a else b
  }

  /**
   * The product d * c. Lerp is written with it so that the facts about the
   * product below are stated once and found by the solver as plain terms.
   */
  function Scale(d: real, c: real): real
  {
    d * c
  }

  /** Multiplying by a fraction in [0, 1] keeps a non-negative value within [0, d]. */
  lemma ScaleWithin(d: real, c: real)
    requires d >= 0.0 && 0.0 <= c <= 1.0
    ensures 0.0 <= Scale(d, c) <= d
  {
    assert d * (1.0 - c) >= 0.0;
    assert d * (1.0 - c) == d - d * c;
  }

  lemma ScaleNonNegative(x: real, y: real)
    requires x >= 0.0 && y >= 0.0
    ensures Scale(x, y) >= 0.0
  {
  }

  lemma ScalePositive(x: real, y: real)
    requires x > 0.0 && y > 0.0
    ensures Scale(x, y) > 0.0
  {
  }

  lemma ProductNonZero(x: real, y: real)
    requires x != 0.0 && y != 0.0
    ensures x * y != 0.0
  {
  }

  lemma ScaleNegate(d: real, c: real)
    ensures Scale(-d, c) == -Scale(d, c)
  {
  }

  /** Scaling a non-negative value is non-decreasing in the factor. */
  lemma ScaleMonotone(d: real, c1: real, c2: real)
    requires d >= 0.0 && c1 <= c2
    ensures Scale(d, c1) <= Scale(d, c2)
  {
    assert d * (c2 - c1) >= 0.0;
    assert d * (c2 - c1) == d * c2 - d * c1;
  }

  /**
   * Mathf.Lerp(a, b, t): the point a fraction t of the way from a to b, where
   * t is first clamped to [0, 1] (Unity's Lerp never extrapolates).
   */
  function Lerp(a: real, b: real, t: real): (r: real)
    ensures a <= b ==> a <= r <= b
    ensures b <= a ==> b <= r <= a
    ensures t <= 0.0 ==> r == a
    ensures t >= 1.0 ==> r == b
  {
    var c := Clamp01(t);
    if a <= b then
      ScaleWithin(b - a, c);
      a + Scale(b - a, c)
    else
      ScaleWithin(a - b, c);
      ScaleNegate(a - b, c);
      a + Scale(b - a, c)
  }

  /** Mathf.Lerp with a <= b is non-decreasing in t. */
  lemma LerpMonotone(a: real, b: real, t1: real, t2: real)
    requires a <= b && t1 <= t2
    ensures Lerp(a, b, t1) <= Lerp(a, b, t2)
  {
    ScaleMonotone(b - a, Clamp01(t1), Clamp01(t2));
  }

  /** Vector3.Lerp(a, b, t): componentwise Mathf.Lerp with the same clamped t. */
  function Lerp3(a: Vec3, b: Vec3, t: real): (r: Vec3)
    ensures t <= 0.0 ==> r == a
    ensures t >= 1.0 ==> r == b
    ensures a.z == b.z ==> r.z == a.z
  {
    Vec3(Lerp(a.x, b.x, t), Lerp(a.y, b.y, t), Lerp(a.z, b.z, t))
  }

  /** Frame times (Time.deltaTime) are never negative. */
  predicate AllNonNegative(dts: seq<real>)
  {
    forall i | 0 <= i < |dts| :: dts[i] >= 0.0
  }

  /** The total of a run of frame times. */
  function Sum(dts: seq<real>): real
  {
    if dts == [] then 0.0 else Sum(dts[..|dts| - 1]) + dts[|dts| - 1]
  }

  /** The total of a run of frames is its first frame plus the total of the rest. */
  lemma {:induction false} SumFront(dts: seq<real>)
    requires |dts| > 0
    ensures Sum(dts) == dts[0] + Sum(dts[1..])
  {
    if |dts| > 1 {
      var init := dts[..|dts| - 1];
      SumFront(init);
      assert init[1..] == dts[1..][..|dts[1..]| - 1];
    }
  }
}
