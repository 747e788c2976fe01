/**
 * The arithmetic behind PlayerMovement's charge-and-release jump: how a held
 * charge becomes an impulse, how the charge grows frame by frame, and when a
 * grounded player counts as tilted enough to be snapped upright.
 */
module Jump {
  import opened UnityMath

  /** The four tuning fields the controller exposes in the inspector. */
  datatype JumpTuning = JumpTuning(
    baseJumpForce: real,
    maxJumpForce: real,
    maxChargeTime: real,
    maxSideForce: real)

  /** The values the script declares for them. */
  const DEFAULT_TUNING := JumpTuning(250.0, 750.0, 1.0, 400.0)

  /** Tilt, in degrees either way, above which the player is snapped upright. */
  const SNAP_THRESHOLD := 20.0

  /** The upward impulse the snap routine adds before straightening the body. */
  const SNAP_HOP := Vec2(0.0, 5.0)

  /** Horizontal input beyond which the sprite faces that way. */
  const FLIP_DEAD_ZONE := 0.1

  /** How far along its range a charge of `chargeTime` is; 1 means fully charged. */
  function ChargeFraction(k: JumpTuning, chargeTime: real): (f: real)
    requires k.maxChargeTime > 0.0
    ensures chargeTime <= 0.0 ==> f <= 0.0
    ensures chargeTime >= k.maxChargeTime ==> f >= 1.0
    ensures 0.0 <= chargeTime <= k.maxChargeTime ==> 0.0 <= f <= 1.0
  {
    var f := chargeTime / k.maxChargeTime;
    assert f * k.maxChargeTime == chargeTime;
    f
  }

  /** Dividing by the (positive) maximum charge time preserves order. */
  lemma ChargeFractionMonotone(k: JumpTuning, c1: real, c2: real)
    requires k.maxChargeTime > 0.0 && c1 <= c2
    ensures ChargeFraction(k, c1) <= ChargeFraction(k, c2)
  {
    var m := k.maxChargeTime;
    var f1, f2 := c1 / m, c2 / m;
    assert f1 * m == c1 && f2 * m == c2;
    if f2 < f1 {
      ScalePositive(f1 - f2, m);
      assert false;
    }
  }

  /** The vertical strength of a released jump. */
  function JumpStrength(k: JumpTuning, chargeTime: real): (r: real)
    requires k.maxChargeTime > 0.0
    ensures k.baseJumpForce <= k.maxJumpForce ==> k.baseJumpForce <= r <= k.maxJumpForce
    ensures chargeTime <= 0.0 ==> r == k.baseJumpForce
    ensures chargeTime >= k.maxChargeTime ==> r == k.maxJumpForce
  {
    Lerp(k.baseJumpForce, k.maxJumpForce, ChargeFraction(k, chargeTime))
  }

  /** The horizontal strength of a released jump, before the input direction is applied. */
  function SideStrength(k: JumpTuning, chargeTime: real): (r: real)
    requires k.maxChargeTime > 0.0
    ensures k.maxSideForce >= 0.0 ==> 0.0 <= r <= k.maxSideForce
    ensures chargeTime <= 0.0 ==> r == 0.0
    ensures chargeTime >= k.maxChargeTime ==> r == k.maxSideForce
  {
    Lerp(0.0, k.maxSideForce, ChargeFraction(k, chargeTime))
  }

  /**
   * The impulse a release adds to the body: the side strength in the
   * direction of the horizontal input, and the jump strength upwards.
   */
  function ReleaseImpulse(k: JumpTuning, moveX: real, chargeTime: real): (r: Vec2)
    requires k.maxChargeTime > 0.0
    ensures k.baseJumpForce <= k.maxJumpForce ==> k.baseJumpForce <= r.y <= k.maxJumpForce
    ensures moveX == 0.0 ==> r.x == 0.0
    ensures chargeTime <= 0.0 ==> r == Vec2(0.0, k.baseJumpForce)
  {
    Vec2(moveX * SideStrength(k, chargeTime), JumpStrength(k, chargeTime))
  }

  /** A longer charge never gives a weaker jump. */
  lemma JumpStrengthMonotone(k: JumpTuning, c1: real, c2: real)
    requires k.maxChargeTime > 0.0 && k.baseJumpForce <= k.maxJumpForce
    requires c1 <= c2
    ensures JumpStrength(k, c1) <= JumpStrength(k, c2)
  {
    ChargeFractionMonotone(k, c1, c2);
    LerpMonotone(k.baseJumpForce, k.maxJumpForce, ChargeFraction(k, c1), ChargeFraction(k, c2));
  }

  /** A longer charge never gives a weaker sideways push. */
  lemma SideStrengthMonotone(k: JumpTuning, c1: real, c2: real)
    requires k.maxChargeTime > 0.0 && k.maxSideForce >= 0.0
    requires c1 <= c2
    ensures SideStrength(k, c1) <= SideStrength(k, c2)
  {
    ChargeFractionMonotone(k, c1, c2);
    LerpMonotone(0.0, k.maxSideForce, ChargeFraction(k, c1), ChargeFraction(k, c2));
  }

  /** With the script's tuning, half a second of charge and full right input gives (200, 500). */
  lemma HalfChargeImpulse()
    ensures ReleaseImpulse(DEFAULT_TUNING, 1.0, 0.5) == Vec2(200.0, 500.0)
  {
    assert ChargeFraction(DEFAULT_TUNING, 0.5) == 0.5;
  }

  /** One frame of charging: add the frame time, then cap at the maximum charge time. */
  function AccumulateCharge(k: JumpTuning, chargeTime: real, dt: real): (r: real)
    requires 0.0 <= chargeTime <= k.maxChargeTime && dt >= 0.0
    ensures chargeTime <= r <= k.maxChargeTime
    ensures chargeTime + dt <= k.maxChargeTime ==> r == chargeTime + dt
    ensures chargeTime + dt >= k.maxChargeTime ==> r == k.maxChargeTime
  {
    Min(chargeTime + dt, k.maxChargeTime)
  }

  /** The charge after accumulating the frame times `dts` one by one, from zero. */
  function ChargeAfter(k: JumpTuning, dts: seq<real>): (r: real)
    requires k.maxChargeTime >= 0.0 && AllNonNegative(dts)
    ensures 0.0 <= r <= k.maxChargeTime
  {
    if dts == [] then 0.0
    else AccumulateCharge(k, ChargeAfter(k, dts[..|dts| - 1]), dts[|dts| - 1])
  }

  /**
   * Charging frame by frame and capping each time is the same as capping the
   * total hold time once: the charge depends only on how long the button was held.
   */
  lemma {:induction false} ChargeIsCappedHoldTime(k: JumpTuning, dts: seq<real>)
    requires k.maxChargeTime >= 0.0 && AllNonNegative(dts)
    ensures ChargeAfter(k, dts) == Min(Sum(dts), k.maxChargeTime)
  {
    if dts != [] {
      var init := dts[..|dts| - 1];
      ChargeIsCappedHoldTime(k, init);
      SumNonNegative(init);
    }
  }

  lemma {:induction false} SumNonNegative(dts: seq<real>)
    requires AllNonNegative(dts)
    ensures Sum(dts) >= 0.0
  {
    if dts != [] {
      SumNonNegative(dts[..|dts| - 1]);
    }
  }

  /** transform.eulerAngles.z in [0, 360) read as a signed tilt in (-180, 180]. */
  function NormalizeAngle(z: real): (r: real)
    requires 0.0 <= z < 360.0
    ensures -180.0 < r <= 180.0
    ensures r == z || r == z - 360.0
  {
    if z > 180.0 then z - 360.0 else z
  }

  function Abs(x: real): (r: real)
    ensures r >= 0.0
    ensures r == x || r == -x
  {
    if x < 0.0 then -x else x
  }

  /**
   * Whether the body is tilted noticeably, measured the short way round from
   * upright; on the raw [0, 360) angle, more than 20 degrees from 0 either way.
   */
  predicate TiltedNoticeably(z: real)
    requires 0.0 <= z < 360.0
    ensures TiltedNoticeably(z) <==> SNAP_THRESHOLD < z < 360.0 - SNAP_THRESHOLD
  {
    Abs(NormalizeAngle(z)) > SNAP_THRESHOLD
  }
}
