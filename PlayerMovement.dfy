/**
 * The player controller of PlayerMovement.cs: input callbacks, the per-frame
 * Update, the snap-upright coroutine and the collision callback, as methods
 * of a class whose fields are the script's own.
 *
 * The Rigidbody2D and the Animator are kept as ghost records: the last known
 * velocity with the list of impulses added, and the two named booleans the
 * script sets. The snap-upright coroutine is a step machine (`SnapStep`)
 * resumed once per elapsed wait.
 */
module Player {
  import opened UnityMath
  import opened Jump

  /** What the model keeps of the Rigidbody2D: its velocity and every impulse added to it. */
  datatype Rigidbody = Rigidbody(velocity: Vec2, impulses: seq<Vec2>)

  /** The Animator booleans "IsCharging" and "IsJumping". */
  datatype AnimatorSignals = AnimatorSignals(isCharging: bool, isJumping: bool)

  /** Where SnapUprightRoutine is suspended. */
  datatype SnapStep =
    | NotRunning    // no routine in flight
    | Hopped        // hop added; waiting 0.1 s before straightening
    | Straightened  // rotation zeroed; waiting 0.1 s before clearing the flag

  /** A snapshot of every field, so that a method can say what it changed in one equation. */
  datatype PlayerState = PlayerState(
    moveInput: Vec2,
    chargeTime: real,
    isCharging: bool,
    isGrounded: bool,
    canJump: bool,
    isSnappingUpright: bool,
    snapStep: SnapStep,
    angleZ: real,
    localScale: Vec3,
    body: Rigidbody,
    anim: AnimatorSignals,
    chargeFrames: seq<real>)

  class PlayerMovement {
    const tuning: JumpTuning

    var moveInput: Vec2
    var chargeTime: real
    var isCharging: bool
    var isGrounded: bool
    var canJump: bool
    var isSnappingUpright: bool
    var snapStep: SnapStep

    /** transform.eulerAngles.z, which Unity reports in [0, 360). */
    var angleZ: real
    /** transform.localScale, which the sprite flip rewrites. */
    var localScale: Vec3

    ghost var body: Rigidbody
    ghost var anim: AnimatorSignals
    /** The frame times Update has added to the charge in progress. */
    ghost var chargeFrames: seq<real>

    /**
     * The controller's invariant: a charge is only in progress on the ground
     * with re-charging blocked, it is the capped sum of the frames it has been
     * held, and it is zero when no charge is in progress.
     */
    ghost predicate Valid()
      reads this
    {
      && tuning.maxChargeTime > 0.0
      && (isCharging ==> isGrounded && !canJump)
      && AllNonNegative(chargeFrames)
      && (isCharging ==> chargeTime == ChargeAfter(tuning, chargeFrames))
      && (!isCharging ==> chargeTime == 0.0 && chargeFrames == [])
      && 0.0 <= chargeTime <= tuning.maxChargeTime
      && (isSnappingUpright <==> snapStep != NotRunning)
      && 0.0 <= angleZ < 360.0
    }

    ghost function State(): PlayerState
      reads this
    {
      PlayerState(moveInput, chargeTime, isCharging, isGrounded, canJump, isSnappingUpright,
                  snapStep, angleZ, localScale, body, anim, chargeFrames)
    }

    /**
     * The script's field initialisers; the body's velocity, the transform and
     * the Animator's booleans are whatever the scene gives.
     */
    constructor (tuning: JumpTuning, angleZ: real, localScale: Vec3,
                 ghost velocity: Vec2, ghost anim: AnimatorSignals)
      requires tuning.maxChargeTime > 0.0
      requires 0.0 <= angleZ < 360.0
      ensures Valid()
      ensures this.tuning == tuning
      ensures State() == PlayerState(ZERO2, 0.0, false, false, true, false, NotRunning,
                                     angleZ, localScale, Rigidbody(velocity, []), anim, [])
    {
      this.tuning := tuning;
      moveInput := ZERO2;
      chargeTime := 0.0;
      isCharging := false;
      isGrounded := false;
      canJump := true;
      isSnappingUpright := false;
      snapStep := NotRunning;
      this.angleZ := angleZ;
      this.localScale := localScale;
      body := Rigidbody(velocity, []);
      this.anim := anim;
      chargeFrames := [];
    }

    /** Move.performed: remember the input vector. */
    method OnMovePerformed(value: Vec2)
      requires Valid()
      modifies this
      ensures Valid()
      ensures State() == old(State()).(moveInput := value)
    {
      moveInput := value;
    }

    /** Move.canceled: the input returns to zero. */
    method OnMoveCanceled()
      requires Valid()
      modifies this
      ensures Valid()
      ensures State() == old(State()).(moveInput := ZERO2)
    {
      moveInput := ZERO2;
    }

    /**
     * Jump.started: on the ground with the jump re-armed, begin a charge from
     * zero, drop any vertical speed (keeping horizontal speed) and block
     * re-charging until release. Otherwise nothing changes.
     */
    method OnJumpStarted()
      requires Valid()
      modifies this
      ensures Valid()
      ensures old(isGrounded && canJump) ==>
        State() == old(State()).(
          isCharging := true, chargeTime := 0.0, canJump := false, chargeFrames := [],
          anim := old(anim).(isCharging := true),
          body := old(body).(velocity := Vec2(old(body.velocity.x), 0.0)))
      ensures !old(isGrounded && canJump) ==> unchanged(this)
    {
      if isGrounded && canJump {
        anim := anim.(isCharging := true);
        isCharging := true;
        chargeTime := 0.0;
        chargeFrames := [];
        ghost var currentVel := body.velocity;
        body := body.(velocity := Vec2(currentVel.x, 0.0));
        canJump := false;
      }
    }

    /**
     * Jump.canceled: if a charge was in progress, add the release impulse for
     * the charge reached, signal the jump and leave the ground. In every case
     * re-arm the jump and clear the "IsCharging" signal.
     */
    method OnJumpCanceled()
      requires Valid()
      modifies this
      ensures Valid()
      ensures old(isCharging) ==>
        State() == old(State()).(
          isCharging := false, chargeTime := 0.0, isGrounded := false, canJump := true,
          chargeFrames := [],
          anim := AnimatorSignals(false, true),
          body := old(body).(impulses := old(body.impulses)
                                          + [ReleaseImpulse(tuning, old(moveInput.x), old(chargeTime))]))
      ensures !old(isCharging) ==>
        State() == old(State()).(canJump := true, anim := old(anim).(isCharging := false))
      ensures old(isCharging) ==>
        old(chargeTime) == Min(Sum(old(chargeFrames)), tuning.maxChargeTime)
    {
      if isCharging {
        ChargeIsCappedHoldTime(tuning, chargeFrames);
        anim := anim.(isJumping := true);
        var impulse := ReleaseImpulse(tuning, moveInput.x, chargeTime);
        body := body.(impulses := body.impulses + [impulse]);
        isCharging := false;
        chargeTime := 0.0;
        chargeFrames := [];
        isGrounded := false;
      }
      canJump := true;
      anim := anim.(isCharging := false);
    }

    /**
     * One frame: flip the sprite towards the input outside the dead zone,
     * grow a charge in progress by the frame time up to the maximum, and, when
     * grounded, idle and not already snapping, try the snap-upright.
     */
    method Update(dt: real)
      requires Valid() && dt >= 0.0
      modifies this
      ensures Valid()
      ensures localScale == (if old(moveInput.x) > FLIP_DEAD_ZONE then Vec3(2.0, 2.0, 2.0)
                             else if old(moveInput.x) < -FLIP_DEAD_ZONE then Vec3(-2.0, 2.0, 2.0)
                             else old(localScale))
      ensures chargeTime == (if old(isCharging) then AccumulateCharge(tuning, old(chargeTime), dt)
                             else old(chargeTime))
      ensures chargeFrames == (if old(isCharging) then old(chargeFrames) + [dt] else old(chargeFrames))
      ensures
        var starts := old(isGrounded && !isCharging && !isSnappingUpright) && TiltedNoticeably(old(angleZ));
        && (starts ==> snapStep == Hopped && isSnappingUpright
                       && body == old(body).(impulses := old(body.impulses) + [SNAP_HOP]))
        && (!starts ==> snapStep == old(snapStep) && isSnappingUpright == old(isSnappingUpright)
                        && body == old(body))
      ensures moveInput == old(moveInput) && isCharging == old(isCharging)
      ensures isGrounded == old(isGrounded) && canJump == old(canJump)
      ensures angleZ == old(angleZ) && anim == old(anim)
    {
      FlipSprite();
      AdvanceCharge(dt);
      if isGrounded && !isCharging && !isSnappingUpright {
        TrySnapUpright();
      }
    }

    /** Update's first step: face the sprite right or left when the input leaves the dead zone. */
    method FlipSprite()
      requires Valid()
      modifies this
      ensures Valid()
      ensures moveInput.x > FLIP_DEAD_ZONE ==> State() == old(State()).(localScale := Vec3(2.0, 2.0, 2.0))
      ensures moveInput.x < -FLIP_DEAD_ZONE ==> State() == old(State()).(localScale := Vec3(-2.0, 2.0, 2.0))
      ensures -FLIP_DEAD_ZONE <= moveInput.x <= FLIP_DEAD_ZONE ==> unchanged(this)
    {
      if moveInput.x > FLIP_DEAD_ZONE {
        localScale := Vec3(2.0, 2.0, 2.0);
      } else if moveInput.x < -FLIP_DEAD_ZONE {
        localScale := Vec3(-2.0, 2.0, 2.0);
      }
    }

    /**
     * Update's second step: a charge in progress grows by the frame time,
     * capped at the maximum charge time, and the frame joins the held frames.
     */
    method AdvanceCharge(dt: real)
      requires Valid() && dt >= 0.0
      modifies this
      ensures Valid()
      ensures old(isCharging) ==>
        State() == old(State()).(chargeTime := AccumulateCharge(tuning, old(chargeTime), dt),
                                 chargeFrames := old(chargeFrames) + [dt])
      ensures !old(isCharging) ==> unchanged(this)
    {
      if isCharging {
        chargeTime := chargeTime + dt;
        chargeTime := Min(chargeTime, tuning.maxChargeTime);
        chargeFrames := chargeFrames + [dt];
        assert chargeFrames[..|chargeFrames| - 1] == old(chargeFrames);
      }
    }

    /**
     * Read the tilt as a signed angle and start the snap-upright routine when
     * it is more than 20 degrees either way.
     */
    method TrySnapUpright()
      requires Valid() && !isSnappingUpright
      modifies this
      ensures Valid()
      ensures TiltedNoticeably(old(angleZ)) ==>
        State() == old(State()).(isSnappingUpright := true, snapStep := Hopped,
                                 body := old(body).(impulses := old(body.impulses) + [SNAP_HOP]))
      ensures !TiltedNoticeably(old(angleZ)) ==> unchanged(this)
    {
      var angle := angleZ;
      if angle > 180.0 {
        angle := angle - 360.0;
      }
      if Abs(angle) > SNAP_THRESHOLD {
        StartSnapUprightRoutine();
      }
    }

    /** SnapUprightRoutine up to its first wait: raise the flag and hop. */
    method StartSnapUprightRoutine()
      requires Valid() && !isSnappingUpright
      modifies this
      ensures Valid()
      ensures State() == old(State()).(isSnappingUpright := true, snapStep := Hopped,
                                       body := old(body).(impulses := old(body.impulses) + [SNAP_HOP]))
    {
      isSnappingUpright := true;
      body := body.(impulses := body.impulses + [SNAP_HOP]);
      snapStep := Hopped;
    }

    /**
     * SnapUprightRoutine resumed after one of its 0.1 s waits: after the
     * first, the rotation is set upright; after the second, the flag drops.
     */
    method ResumeSnapUprightRoutine()
      requires Valid() && isSnappingUpright
      modifies this
      ensures Valid()
      ensures old(snapStep) == Hopped ==>
        State() == old(State()).(angleZ := 0.0, snapStep := Straightened)
      ensures old(snapStep) == Straightened ==>
        State() == old(State()).(isSnappingUpright := false, snapStep := NotRunning)
    {
      if snapStep == Hopped {
        angleZ := 0.0;
        snapStep := Straightened;
      } else {
        isSnappingUpright := false;
        snapStep := NotRunning;
      }
    }

    /**
     * The whole snap-upright routine when nothing else runs between its
     * steps: it ends upright, with the flag cleared and one hop added.
     */
    method RunSnapUprightRoutine()
      requires Valid() && !isSnappingUpright
      modifies this
      ensures Valid()
      ensures angleZ == 0.0 && !isSnappingUpright && snapStep == NotRunning
      ensures body == old(body).(impulses := old(body.impulses) + [SNAP_HOP])
    {
      StartSnapUprightRoutine();
      ResumeSnapUprightRoutine();
      ResumeSnapUprightRoutine();
    }

    /**
     * OnCollisionEnter2D: any contact clears "IsJumping"; only a collider
     * tagged "Solid" grounds the player. Nothing else changes.
     */
    method OnCollisionEnter2D(tag: string)
      requires Valid()
      modifies this
      ensures Valid()
      ensures State() == old(State()).(anim := old(anim).(isJumping := false),
                                       isGrounded := old(isGrounded) || tag == "Solid")
    {
      anim := anim.(isJumping := false);
      if tag == "Solid" {
        isGrounded := true;
      }
    }

    /**
     * Not part of the script: the physics engine between frames, which may
     * change the body's velocity and tilt.
     */
    method SimulatePhysics(ghost velocity: Vec2, angleZ: real)
      requires Valid() && 0.0 <= angleZ < 360.0
      modifies this
      ensures Valid()
      ensures State() == old(State()).(angleZ := angleZ, body := old(body).(velocity := velocity))
    {
      this.angleZ := angleZ;
      body := body.(velocity := velocity);
    }
  }
}
