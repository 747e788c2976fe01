# Charge jump and room transitions, modelled in Dafny

This project models the two stateful scripts of a small Unity 2D platformer.

- **PlayerMovement** (`PlayerMovement.dfy`, arithmetic in `Jump.dfy`): the
  charge-and-release jump controller. The input callbacks (move performed and
  cancelled, jump started and cancelled), the per-frame `Update`, the
  snap-upright check and its coroutine, and `OnCollisionEnter2D` are methods
  of a class whose fields are the script's own. The Rigidbody2D and the
  Animator are ghost records: the velocity and the list of impulses added,
  and the booleans "IsCharging" and "IsJumping". The class invariant says a
  charge only runs on the ground with re-charging blocked, and that the
  charge is the capped total of the frames it has been held.
- **RoomManager** (`RoomManager.dfy`, names in `RoomNames.dfy`): the room
  registry and the transition state machine.
  - `ParseRoomCoord` models `string.Split('_')` and `int.Parse` exactly enough
    to prove the round trip of `"Room_" + x + "_" + y` and the rejection
    cases.
  - `Awake`'s loop fills the dictionary and sets the rooms' active flags.
  - `MoveRoom` has the re-entry and unknown-room guards.
  - The `SlideCameraToRoom` coroutine is a step machine that is resumed once
    per frame. Every `player.Freeze` and `SetActive` call a transition makes
    goes into a ghost log. The invariant proves the freeze calls alternate,
    with one in flight exactly while `transitioning` is up.
- **RoomExitLogic** (`RoomExit.dfy`): only a collider tagged "Player"
  triggers `MoveRoom`.

`UnityMath.dfy` holds real-valued versions of `Mathf.Lerp`, `Vector3.Lerp`,
`Mathf.Min` and `Mathf.Clamp01`.

Floats are modelled as `real`. `Time.deltaTime` becomes a `dt` parameter.
The physics engine between frames becomes
`Player.PlayerMovement.SimulatePhysics`, which is an environment hook and not
part of the script.

Four things the code does that a reader might not expect, all modelled as
written:
- The only tilt handling is a 20 degree snap-upright coroutine. There is no
  stun or recovery sequence, and the body of `Freeze` is not in
  `PlayerMovement.cs`.
- The easing parameter is not clamped to [0, 1], so the last frame of a slide
  can draw the camera back towards its start; see Findings.
- A malformed room name is not skipped: the exception from `int.Parse` or
  from indexing `parts` ends `Awake`'s loop, so no later room is registered
  or deactivated.
- `rooms[currentRoom]` at the end of a slide throws when room (0, 0) was
  never registered. The coroutine then dies with `transitioning` still up,
  and the model keeps that state as `Aborted`.

## Model

| member | source | states |
|---|---|---|
| UnityMath.Min | Assets/Scripts/PlayerMovement.cs:84 | Mathf.Min returns one of its arguments and is no greater than either. |
| UnityMath.Lerp | Assets/Scripts/PlayerMovement.cs:56-57 | Mathf.Lerp lies between its end points; a fraction at or below 0 gives the start, at or above 1 the end (t is clamped). |
| UnityMath.LerpMonotone | Assets/Scripts/PlayerMovement.cs:56-57 | Lerp from a lower to a higher value never decreases as the fraction grows. |
| UnityMath.Lerp3 | Assets/Scripts/RoomManager.cs:91 | Vector3.Lerp gives the start for t <= 0, the end for t >= 1, and keeps a depth both ends share. |
| Jump.ChargeFraction | Assets/Scripts/PlayerMovement.cs:56-57 | chargeTime / maxChargeTime is at most 0 with no charge, at least 1 at full charge, and in [0, 1] in between. |
| Jump.ChargeFractionMonotone | Assets/Scripts/PlayerMovement.cs:56-57 | A longer charge never gives a smaller fraction. |
| Jump.JumpStrength | Assets/Scripts/PlayerMovement.cs:56 | Jump strength lies in [baseJumpForce, maxJumpForce]; it is baseJumpForce with no charge and maxJumpForce at full charge. |
| Jump.JumpStrengthMonotone | Assets/Scripts/PlayerMovement.cs:56 | Jump strength is non-decreasing in the charge time. |
| Jump.SideStrength | Assets/Scripts/PlayerMovement.cs:57 | Side strength lies in [0, maxSideForce]; it is 0 with no charge and maxSideForce at full charge. |
| Jump.SideStrengthMonotone | Assets/Scripts/PlayerMovement.cs:57 | Side strength is non-decreasing in the charge time. |
| Jump.ReleaseImpulse | Assets/Scripts/PlayerMovement.cs:56-59 | The impulse's vertical part lies in [baseJumpForce, maxJumpForce]; with no horizontal input it has no horizontal part; with no charge it is (0, baseJumpForce). |
| Jump.HalfChargeImpulse | Assets/Scripts/PlayerMovement.cs:12-15 | With the declared tuning, half a second of charge and full right input releases (200, 500). |
| Jump.AccumulateCharge | Assets/Scripts/PlayerMovement.cs:83-84 | One frame adds dt to the charge up to maxChargeTime: the charge never falls and never passes the cap. |
| Jump.ChargeAfter | Assets/Scripts/PlayerMovement.cs:81-85 | Charging over any run of frames keeps the charge in [0, maxChargeTime]. |
| Jump.ChargeIsCappedHoldTime | Assets/Scripts/PlayerMovement.cs:81-85 | Capping frame by frame equals capping the total hold time once: the charge is min(sum of frame times, maxChargeTime). |
| Jump.NormalizeAngle | Assets/Scripts/PlayerMovement.cs:94-98 | An angle in [0, 360) becomes a signed angle in (-180, 180]: itself, or itself minus 360. |
| Jump.Abs | Assets/Scripts/PlayerMovement.cs:100 | Mathf.Abs is non-negative and is the value or its negation. |
| Jump.TiltedNoticeably | Assets/Scripts/PlayerMovement.cs:94-100 | The snap test holds exactly when the raw angle is strictly between 20 and 340 degrees. |
| Player.PlayerMovement.constructor | Assets/Scripts/PlayerMovement.cs:12-22 | Initial state: no input, no charge, not grounded, jump armed, not snapping, no impulses. |
| Player.PlayerMovement.OnMovePerformed | Assets/Scripts/PlayerMovement.cs:31 | Only moveInput changes, to the event's value; the invariant is kept. |
| Player.PlayerMovement.OnMoveCanceled | Assets/Scripts/PlayerMovement.cs:32 | Only moveInput changes, to zero. |
| Player.PlayerMovement.OnJumpStarted | Assets/Scripts/PlayerMovement.cs:34-49 | When grounded and armed: a charge starts from zero, canJump drops, "IsCharging" is set, vertical speed is zeroed and horizontal speed kept. Otherwise nothing changes. isCharging implies grounded and not armed afterwards. |
| Player.PlayerMovement.OnJumpCanceled | Assets/Scripts/PlayerMovement.cs:51-70 | With a charge in progress: exactly one impulse, ReleaseImpulse of the held charge, is added; "IsJumping" is set; the charge, isCharging and isGrounded are cleared; and the charge released was min(total hold time, maxChargeTime). Without one: no impulse. Either way canJump is set and "IsCharging" cleared. |
| Player.PlayerMovement.Update | Assets/Scripts/PlayerMovement.cs:73-90 | The sprite faces the input outside the 0.1 dead zone. A charge in progress grows by dt up to the cap, otherwise the charge is unchanged. The snap-upright starts, with one hop, exactly when grounded, not charging, not snapping and tilted past 20 degrees. No other field changes. |
| Player.PlayerMovement.FlipSprite | Assets/Scripts/PlayerMovement.cs:76-79 | localScale becomes (2,2,2) above 0.1, (-2,2,2) below -0.1, and stays put in between. |
| Player.PlayerMovement.AdvanceCharge | Assets/Scripts/PlayerMovement.cs:81-85 | A charge in progress becomes AccumulateCharge of the old charge and dt, and the frame joins the held frames. Without a charge nothing changes. |
| Player.PlayerMovement.TrySnapUpright | Assets/Scripts/PlayerMovement.cs:92-104 | The routine starts, adding the (0, 5) hop, exactly when the normalised tilt exceeds 20 degrees. Otherwise nothing changes. |
| Player.PlayerMovement.StartSnapUprightRoutine | Assets/Scripts/PlayerMovement.cs:106-113 | The routine up to its first wait: the flag is raised and one hop is added. |
| Player.PlayerMovement.ResumeSnapUprightRoutine | Assets/Scripts/PlayerMovement.cs:113-120 | After the first wait the rotation becomes 0; after the second the flag drops. Nothing else changes. |
| Player.PlayerMovement.RunSnapUprightRoutine | Assets/Scripts/PlayerMovement.cs:106-121 | Run to the end, the routine leaves the body upright and the flag cleared, with exactly one hop added. |
| Player.PlayerMovement.OnCollisionEnter2D | Assets/Scripts/PlayerMovement.cs:125-134 | Any contact clears "IsJumping"; only a "Solid" collider sets isGrounded; nothing else changes. |
| RoomNames.Split | Assets/Scripts/RoomManager.cs:50 | string.Split always yields at least one part. |
| RoomNames.SplitPartsSeparatorFree | Assets/Scripts/RoomManager.cs:50 | No part contains the separator. |
| RoomNames.SplitJoin | Assets/Scripts/RoomManager.cs:50 | Splitting the join of separator-free parts gives back the parts. |
| RoomNames.JoinSplit | Assets/Scripts/RoomManager.cs:50 | Joining the parts of a split gives back the string. |
| RoomNames.IntToString | Assets/Scripts/RoomManager.cs:47 | The decimal text of an integer is never empty and never contains '_'. |
| RoomNames.RoomName | Assets/Scripts/RoomManager.cs:47-50 | "Room_" + x + "_" + y splits on '_' into exactly "Room" and the two numbers' texts. |
| RoomNames.ParseInt | Assets/Scripts/RoomManager.cs:51-52 | int.Parse succeeds only with a 32-bit value. |
| RoomNames.ParseIntToString | Assets/Scripts/RoomManager.cs:51-52 | int.Parse reads back the decimal text of every 32-bit integer. |
| RoomNames.NoDigitRejected | Assets/Scripts/RoomManager.cs:51-52 | A field with no decimal digit, such as an empty one, is rejected. |
| RoomNames.ParseRoomCoord | Assets/Scripts/RoomManager.cs:44-54 | A name that parses has at least three parts and 32-bit fields. |
| RoomNames.RoomNameRoundTrip | Assets/Scripts/RoomManager.cs:44-54 | "Room_" + x + "_" + y parses to (x, y) for every 32-bit x and y. |
| RoomNames.ShortNameRejected | Assets/Scripts/RoomManager.cs:50-51 | A name with fewer than three parts is rejected. |
| RoomNames.BadFieldRejected | Assets/Scripts/RoomManager.cs:51-52 | A name whose second or third part int.Parse rejects is rejected. |
| RoomNames.TrailingPartsIgnored | Assets/Scripts/RoomManager.cs:50-53 | Anything after a third separator does not change the result. |
| RoomNames.OverflowRejected | Assets/Scripts/RoomManager.cs:51 | A coordinate one past the 32-bit maximum makes its own room name unparsable. |
| Rooms.ParseAll | Assets/Scripts/RoomManager.cs:33-36 | One parse result per room, in the scene's order. |
| Rooms.ParseAllAt | Assets/Scripts/RoomManager.cs:33-36 | The i-th parse result is ParseRoomCoord of the i-th room's name. |
| Rooms.LeadingCoords | Assets/Scripts/RoomManager.cs:33-36 | The coordinates Awake reads are the parsed names in order up to the first failure, and that failure comes next. |
| Rooms.LeadingCoordsOf | Assets/Scripts/RoomManager.cs:33-36 | Coordinates that match the parse results one by one and stop at a failure (or at the end) are exactly the ones Awake reads. |
| Rooms.RegistryOf | Assets/Scripts/RoomManager.cs:37 | Every key of the dictionary maps to a room read with that coordinate. |
| Rooms.RegistryAppend | Assets/Scripts/RoomManager.cs:37 | Storing one more room adds exactly that key, mapped to that room. |
| Rooms.RegistryCoversAll | Assets/Scripts/RoomManager.cs:37 | Every coordinate read is a key. |
| Rooms.RegistryKeepsLatest | Assets/Scripts/RoomManager.cs:37 | A duplicate coordinate keeps the room read last: no later room has that coordinate. |
| Rooms.ActiveMatchesRegistry | Assets/Scripts/RoomManager.cs:40 | Setting each stored room active exactly when its coordinate is current leaves exactly the current room active. |
| Rooms.RegisteredInjective | Assets/Scripts/RoomManager.cs:18 | Two coordinates never name the same room object. |
| Rooms.SlideStartsBothActive | Assets/Scripts/RoomManager.cs:78 | During the easing loop exactly the source and the target are active. |
| Rooms.SlideEndsOnlyTargetActive | Assets/Scripts/RoomManager.cs:102 | For a different target, after completion exactly the target is active. |
| Rooms.SlideToCurrentRoomLeavesNoneActive | Assets/Scripts/RoomManager.cs:102 | Moving to the current room activates it and then deactivates it, so no room is left active. |
| Rooms.LogFreeze | Assets/Scripts/RoomManager.cs:76 | Logging the freeze call that is due keeps the calls alternating, with the player frozen exactly after Freeze(true). |
| Rooms.LogSetActive | Assets/Scripts/RoomManager.cs:78 | SetActive calls do not change the sequence of freeze calls. |
| Rooms.LogRelease | Assets/Scripts/RoomManager.cs:102-108 | Deactivating and then unfreezing closes the open freeze. |
| Rooms.EaseAsWritten | Assets/Scripts/RoomManager.cs:90 | The unclamped easing is 1 at t = 1, and is 0 exactly at t = 0 and at t = 1.5. |
| Rooms.EaseAsWrittenOvershoots | Assets/Scripts/RoomManager.cs:89-90 | For t > 1 the unclamped easing falls below 1. |
| Rooms.EaseAsWrittenReturnsToStart | Assets/Scripts/RoomManager.cs:88-91 | With cameraMoveTime 0.5 and a 0.75 s frame, the unclamped easing is 0 and the camera is drawn at its start. |
| Rooms.EaseAsWrittenWithin | Assets/Scripts/RoomManager.cs:90 | On [0, 1] the easing stays in [0, 1]. |
| Rooms.EaseAsWrittenMonotone | Assets/Scripts/RoomManager.cs:90 | On [0, 1] the easing is non-decreasing. |
| Rooms.Ease | Assets/Scripts/RoomManager.cs:89-90 | The clamped easing lies in [0, 1], is 0 and 1 at the ends, and agrees with the as-written easing on [0, 1]. |
| Rooms.EaseMonotone | Assets/Scripts/RoomManager.cs:89-90 | The clamped easing never moves the camera backwards. |
| Rooms.CameraAt | Assets/Scripts/RoomManager.cs:89-91 | The camera drawn with the unclamped easing is at the start at time 0 and on the target at exactly the move time, keeps a depth both ends share, and within the move time agrees with the clamped easing. |
| Rooms.CameraAtReturnsToStart | Assets/Scripts/RoomManager.cs:88-91 | A frame that ends at 1.5 times the move time draws the camera exactly at its start. |
| Rooms.CameraHalfWay | Assets/Scripts/RoomManager.cs:89-91 | Half-way through the move time the camera is half-way across. |
| Rooms.RoomManager.constructor | Assets/Scripts/RoomManager.cs:12-18 | Field initialisers: empty dictionary, room (0, 0) current, no transition. |
| Rooms.RoomManager.Awake | Assets/Scripts/RoomManager.cs:20-42 | The dictionary is RegistryOf the coordinates before the first bad name. Each of those rooms is active exactly when its coordinate is (0, 0), and later rooms are untouched. So exactly the current room is active among the stored rooms. |
| Rooms.RoomManager.RegisterRooms | Assets/Scripts/RoomManager.cs:32-41 | The loop's result: the dictionary and active flags above, for the leading parsed names. |
| Rooms.RoomManager.ReadRoomCoord | Assets/Scripts/RoomManager.cs:36 | Reads the i-th room's coordinate as ParseAll gives it. |
| Rooms.RoomManager.CameraTargetFor | Assets/Scripts/RoomManager.cs:82-83 | The slide's end lies over the stored room's position, at the depth it is given (the camera's own). |
| Rooms.RoomManager.MoveRoom | Assets/Scripts/RoomManager.cs:56-71 | A no-op while transitioning or for an unknown room. Otherwise Freeze(true) is logged before SetActive(target, true), `transitioning` rises, and the first easing step is taken. With a non-positive move time the transition completes in the call, or aborts with the target still active when the current room is not stored. |
| Rooms.RoomManager.BeginSlideCameraToRoom | Assets/Scripts/RoomManager.cs:75-85 | Raises `transitioning`, logs Freeze(true) then the target's activation, and fixes the slide's end over the target at the camera's depth. |
| Rooms.RoomManager.SlideStep | Assets/Scripts/RoomManager.cs:86-110 | Before the move time: elapsed grows by dt and the camera is drawn at the eased point. After it: the camera is exactly on the target, the source is deactivated, the target becomes current, Freeze(false) is logged and `transitioning` drops. If the current room is not stored, the coroutine aborts. |
| Rooms.RoomManager.EaseCamera | Assets/Scripts/RoomManager.cs:86-93 | One pass of the easing loop: elapsed grows by dt and the camera is drawn at CameraAt, with the unclamped easing; nothing else changes. |
| Rooms.RoomManager.FinishSlide | Assets/Scripts/RoomManager.cs:100-109 | The completion steps above, in the source's order, keeping the freeze calls alternating. |
| Rooms.RoomManager.Tick | Assets/Scripts/RoomManager.cs:86-110 | Each frame resumes a suspended slide. Before the move time it eases: elapsed grows by dt, the camera is at CameraAt, and nothing else changes. After it, it finishes: camera on the target, source deactivated, target current, SetActive(source, false) and Freeze(false) logged, `transitioning` down; or it aborts, changing nothing else, when the current room is not stored. With no slide nothing changes. |
| Rooms.RoomManager.RunFrames | Assets/Scripts/RoomManager.cs:86-110 | An unfinished slide has accumulated exactly the frames' total, with the active flags, current room and log unchanged. Once the frames before the last reach cameraMoveTime, the slide has ended: completed as in Tick (source deactivated, Freeze(false) logged) or aborted with nothing else changed. |
| Rooms.RoomManager.MoveRoomOverFrames | Assets/Scripts/RoomManager.cs:56-110 | A whole transition: once the frames before the last reach cameraMoveTime it has ended. A completed one has logged exactly Freeze(true), SetActive(target, true), SetActive(source, false), Freeze(false), put the camera over the target, and, starting from exactly the source active, leaves exactly the target active. |
| RoomExit.RoomExitLogic.constructor | Assets/Scripts/RoomExitLogic.cs:5 | The exit's target room is the one it is given. |
| RoomExit.RoomExitLogic.OnTriggerEnter2D | Assets/Scripts/RoomExitLogic.cs:7-13 | Only a "Player" collider calls MoveRoom, and then a transition starts exactly when MoveRoom's guards let it through; any other collider changes nothing. |

## Left out

- Input System wiring (`InputSystem_Actions`, `OnEnable`/`OnDisable`): each callback is a method taking the event's payload.
- Rigidbody2D integration, gravity and collisions: the body keeps only a ghost velocity and the impulses added. Velocity and tilt change only through `SimulatePhysics`.
- Animator playback: only the two booleans are kept.
- Float rounding of `Time.deltaTime`, `Mathf.Lerp` and `Vector3.Lerp`: all values are reals.
- Coroutine scheduling and `WaitForSeconds(0.1f)`: each coroutine resumption is an explicit method call. The 0.1 s delays are not timed.
- `transform.rotation`: only the z Euler angle is kept, and it is assumed in [0, 360), as Unity reports it.
- `Debug.Log` and `Debug.LogWarning` messages are left out.
- The singleton `Instance`/`Destroy` logic and `GameObject.FindGameObjectsWithTag`: the rooms' names and positions are constructor inputs, in the order the scene lists them.
- The body of `player.Freeze` is not part of this model. Its calls are recorded in a ghost log.
- `int.Parse` culture and number styles beyond the defaults: only ASCII digits, an ASCII sign and ASCII white space are modelled. Unicode white space and trailing NUL characters are not.
- Player.PlayerMovement.constructor: requires maxChargeTime > 0, because the script divides by it. A zero or negative tuning is not modelled.
- Rooms.RoomManager.Awake: requires a fresh manager (empty dictionary, no transition), because Unity calls Awake once before anything else.
- RoomNames.ParseRoomCoord: its own ensures state only what a success implies. What it parses and what it rejects are stated by RoomNameRoundTrip and the rejection lemmas.

## Findings

| source | as written | input that shows it | evidently intended | confidence | as-written member | corrected member |
|---|---|---|---|---|---|---|
| Assets/Scripts/RoomManager.cs:89-91 | `t = elapsed / cameraMoveTime` is not clamped before `t * t * (3 - 2t)`. On the frame where elapsed passes cameraMoveTime, t > 1 and the eased value drops below 1, so the camera jumps back towards the start for one frame before line 100 snaps it to the target. | cameraMoveTime = 0.5 and one 0.75 s frame: t = 1.5 and the ease is 0, so the camera is drawn exactly at its start. | A smoothstep with t clamped to [0, 1], which is non-decreasing and ends on the target. `Rooms.CameraAt` draws the camera as written; its ensures ties it to the clamped `Rooms.Ease` within the move time. | not executed; the arithmetic is proved | Rooms.CameraAtReturnsToStart | Rooms.EaseMonotone |
