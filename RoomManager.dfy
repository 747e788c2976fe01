/**
 * RoomManager.cs: the registry of rooms that Awake builds from the rooms'
 * names, the MoveRoom guard, and the SlideCameraToRoom coroutine as a step
 * machine resumed once per frame. RoomExitLogic.cs, whose trigger calls
 * MoveRoom, is at the end.
 *
 * Room objects are numbered in the order the scene lists them; `active` holds
 * each one's active flag and the registry maps a coordinate to a number.
 * player.Freeze and the rooms' SetActive calls made by a transition are
 * recorded, in order, in a ghost log.
 */
module Rooms {
  import opened UnityMath
  import opened RoomNames

  /** A call a transition makes on another object. */
  datatype Call = Freeze(enable: bool) | SetActive(room: nat, value: bool)

  /** Where the SlideCameraToRoom coroutine stands. */
  datatype Slide =
    | Idle
      // inside the easing loop, suspended at `yield return null`
    | Sliding(target: Coord, start: Vec3, end: Vec3, elapsed: real)
      // ended by the exception `rooms[currentRoom]` throws for an unregistered room
    | Aborted

  // ---------------------------------------------------------------------
  // The registry

  /** ParseRoomCoord applied to each name, None where it throws. */
  function ParseAll(names: seq<string>): (parsed: seq<Option<Coord>>)
    ensures |parsed| == |names|
  {
    if names == [] then [] else ParseAll(names[..|names| - 1]) + [ParseRoomCoord(names[|names| - 1])]
  }

  lemma {:induction false} ParseAllAt(names: seq<string>, i: nat)
    requires i < |names|
    ensures ParseAll(names)[i] == ParseRoomCoord(names[i])
  {
    var last := |names| - 1;
    if i < last {
      ParseAllAt(names[..last], i);
    }
  }

  /**
   * The coordinates Awake gets through: those in front of the first name
   * that does not parse, because parsing that one throws and ends Awake.
   */
  function LeadingCoords(parsed: seq<Option<Coord>>): (coords: seq<Coord>)
    ensures |coords| <= |parsed|
    ensures forall i | 0 <= i < |coords| :: parsed[i] == Some(coords[i])
    ensures |coords| < |parsed| ==> parsed[|coords|].None?
  {
    if parsed == [] || parsed[0].None? then []
    else [parsed[0].value] + LeadingCoords(parsed[1..])
  }

  /**
   * LeadingCoords is the only run of coordinates that matches the parse
   * results from the start and stops at the end or at a failure.
   */
  lemma {:induction false} LeadingCoordsOf(parsed: seq<Option<Coord>>, coords: seq<Coord>)
    requires |coords| <= |parsed|
    requires forall i | 0 <= i < |coords| :: parsed[i] == Some(coords[i])
    requires |coords| < |parsed| ==> parsed[|coords|].None?
    ensures coords == LeadingCoords(parsed)
  {
    if coords != [] {
      LeadingCoordsOf(parsed[1..], coords[1..]);
    }
  }

  /** Each registered coordinate points at a room stored under that coordinate. */
  predicate Registered(coords: seq<Coord>, rooms: map<Coord, nat>)
  {
    forall c {:trigger rooms[c]} | c in rooms :: rooms[c] < |coords| && coords[rooms[c]] == c
  }

  /**
   * The dictionary Awake fills: room i stored under coords[i], in order, so
   * that a later room with the same coordinate replaces an earlier one.
   */
  function RegistryOf(coords: seq<Coord>): (rooms: map<Coord, nat>)
    ensures Registered(coords, rooms)
  {
    if coords == [] then map[]
    else
      var last := |coords| - 1;
      RegistryOf(coords[..last])[coords[last] := last]
  }

  /** Storing one more room extends the dictionary by that room. */
  lemma RegistryAppend(coords: seq<Coord>, c: Coord)
    ensures RegistryOf(coords + [c]) == RegistryOf(coords)[c := |coords|]
  {
    assert (coords + [c])[..|coords|] == coords;
  }

  /** Every coordinate read is a key of the dictionary. */
  lemma {:induction false} RegistryCoversAll(coords: seq<Coord>, i: nat)
    requires i < |coords|
    ensures coords[i] in RegistryOf(coords)
  {
    var last := |coords| - 1;
    if i < last {
      RegistryCoversAll(coords[..last], i);
    }
  }

  /**
   * The room stored under a coordinate is the last one read with that
   * coordinate: no later room has it.
   */
  lemma {:induction false} RegistryKeepsLatest(coords: seq<Coord>, c: Coord, j: nat)
    requires c in RegistryOf(coords) && RegistryOf(coords)[c] < j < |coords|
    ensures coords[j] != c
  {
    var last := |coords| - 1;
    var init := coords[..last];
    if j < last {
      assert c != coords[last];
      RegistryKeepsLatest(init, c, j);
    }
  }

  /** Exactly the room registered under `current` is active among the registered ones. */
  predicate OnlyActive(rooms: map<Coord, nat>, active: seq<bool>, current: Coord)
  {
    forall c | c in rooms :: rooms[c] < |active| && (active[rooms[c]] <==> c == current)
  }

  /** When each stored room is active exactly if its coordinate is `current`, only that room is active. */
  lemma ActiveMatchesRegistry(coords: seq<Coord>, rooms: map<Coord, nat>, active: seq<bool>, current: Coord)
    requires Registered(coords, rooms) && |active| >= |coords|
    requires forall j | 0 <= j < |coords| :: active[j] == (coords[j] == current)
    ensures OnlyActive(rooms, active, current)
  {
  }

  /** Two coordinates never share a room object. */
  lemma RegisteredInjective(coords: seq<Coord>, rooms: map<Coord, nat>, c: Coord, d: Coord)
    requires Registered(coords, rooms) && c in rooms && d in rooms
    requires rooms[c] == rooms[d]
    ensures c == d
  {
  }

  /** Activating the target at the start of a slide leaves the source and the target active. */
  lemma SlideStartsBothActive(coords: seq<Coord>, rooms: map<Coord, nat>, active: seq<bool>,
                              source: Coord, target: Coord)
    requires Registered(coords, rooms) && |active| >= |coords|
    requires OnlyActive(rooms, active, source) && target in rooms
    ensures forall c | c in rooms ::
      active[rooms[target] := true][rooms[c]] <==> c == source || c == target
  {
    forall c | c in rooms
      ensures active[rooms[target] := true][rooms[c]] <==> c == source || c == target
    {
      if rooms[c] == rooms[target] {
        RegisteredInjective(coords, rooms, c, target);
      }
    }
  }

  /**
   * A slide between two different rooms ends with exactly the target
   * active: activating it, then deactivating the source.
   */
  lemma SlideEndsOnlyTargetActive(coords: seq<Coord>, rooms: map<Coord, nat>, active: seq<bool>,
                                  source: Coord, target: Coord)
    requires Registered(coords, rooms) && |active| >= |coords|
    requires OnlyActive(rooms, active, source) && source in rooms && target in rooms
    requires source != target
    ensures OnlyActive(rooms, active[rooms[target] := true][rooms[source] := false], target)
  {
    var after := active[rooms[target] := true][rooms[source] := false];
    forall c | c in rooms
      ensures after[rooms[c]] <==> c == target
    {
      if rooms[c] == rooms[target] {
        RegisteredInjective(coords, rooms, c, target);
      }
      if rooms[c] == rooms[source] {
        RegisteredInjective(coords, rooms, c, source);
      }
    }
  }

  /**
   * A slide to the room already current activates it and then deactivates
   * it again, so no registered room is left active.
   */
  lemma SlideToCurrentRoomLeavesNoneActive(coords: seq<Coord>, rooms: map<Coord, nat>,
                                           active: seq<bool>, current: Coord)
    requires Registered(coords, rooms) && |active| >= |coords|
    requires OnlyActive(rooms, active, current) && current in rooms
    ensures forall c | c in rooms :: !active[rooms[current] := true][rooms[current] := false][rooms[c]]
  {
    var after := active[rooms[current] := true][rooms[current] := false];
    forall c | c in rooms
      ensures !after[rooms[c]]
    {
      if rooms[c] == rooms[current] {
        RegisteredInjective(coords, rooms, c, current);
      }
    }
  }

  // ---------------------------------------------------------------------
  // The freeze calls

  /** The arguments of the Freeze calls in a log, in order. */
  function Freezes(calls: seq<Call>): (fs: seq<bool>)
    ensures |fs| <= |calls|
  {
    if calls == [] then []
    else
      var last := calls[|calls| - 1];
      Freezes(calls[..|calls| - 1]) + (if last.Freeze? then [last.enable] else [])
  }

  lemma {:induction false} FreezesAppend(a: seq<Call>, b: seq<Call>)
    ensures Freezes(a + b) == Freezes(a) + Freezes(b)
  {
    if b != [] {
      var init := b[..|b| - 1];
      FreezesAppend(a, init);
      assert (a + b)[..|a + b| - 1] == a + init;
      assert (a + b)[|a + b| - 1] == b[|b| - 1];
    } else {
      assert a + b == a;
    }
  }

  /**
   * Freeze(true) and Freeze(false) alternate, starting with true: every
   * freeze is released exactly once, before the next freeze.
   */
  predicate Alternating(fs: seq<bool>)
  {
    && (fs != [] ==> fs[0])
    && forall i | 0 < i < |fs| :: fs[i] != fs[i - 1]
  }

  /**
   * The freeze calls alternate and the player is left frozen exactly when
   * `open` holds, i.e. the last freeze call was Freeze(true).
   */
  predicate FreezesMatch(log: seq<Call>, open: bool)
  {
    var fs := Freezes(log);
    Alternating(fs) && (open <==> fs != [] && fs[|fs| - 1])
  }

  /** Logging the Freeze call that is due keeps the freeze calls alternating. */
  lemma LogFreeze(log: seq<Call>, enable: bool)
    requires FreezesMatch(log, !enable)
    ensures Freezes(log + [Freeze(enable)]) == Freezes(log) + [enable]
    ensures FreezesMatch(log + [Freeze(enable)], enable)
  {
    FreezesAppend(log, [Freeze(enable)]);
  }

  /** A SetActive call leaves the freeze calls as they were. */
  lemma LogSetActive(log: seq<Call>, room: nat, value: bool)
    ensures Freezes(log + [SetActive(room, value)]) == Freezes(log)
  {
    FreezesAppend(log, [SetActive(room, value)]);
  }

  /** The end of a transition, deactivating a room and then unfreezing, closes the open freeze. */
  lemma LogRelease(log: seq<Call>, room: nat)
    requires FreezesMatch(log, true)
    ensures Freezes(log + [SetActive(room, false), Freeze(false)]) == Freezes(log) + [false]
    ensures FreezesMatch(log + [SetActive(room, false), Freeze(false)], false)
  {
    LogSetActive(log, room, false);
    LogFreeze(log + [SetActive(room, false)], false);
    assert log + [SetActive(room, false)] + [Freeze(false)] == log + [SetActive(room, false), Freeze(false)];
  }

  // ---------------------------------------------------------------------
  // The camera easing

  /**
   * The easing SlideCameraToRoom applies to elapsed / cameraMoveTime, as
   * written: it is 1 at t = 1, and 0 at t = 0 and again at t = 1.5.
   */
  function EaseAsWritten(t: real): (r: real)
    ensures t == 1.0 ==> r == 1.0
    ensures r == 0.0 <==> t == 0.0 || t == 1.5
  {
    var r := t * t * (3.0 - 2.0 * t);
    assert r == 0.0 <==> t == 0.0 || t == 1.5 by {
      if t != 0.0 && t != 1.5 {
        ProductNonZero(t, t);
        ProductNonZero(t * t, 3.0 - 2.0 * t);
      }
    }
    r
  }

  /**
   * On the frame where elapsed passes cameraMoveTime, t exceeds 1 and the
   * unclamped easing falls back below 1: the camera is drawn short of the
   * target, back towards where it started.
   */
  lemma EaseAsWrittenOvershoots(t: real)
    requires t > 1.0
    ensures EaseAsWritten(t) < 1.0
  {
    var w := t - 1.0;
    ScalePositive(w, w);
    ScalePositive(Scale(w, w), 1.0 + 2.0 * t);
    assert 1.0 - EaseAsWritten(t) == Scale(Scale(w, w), 1.0 + 2.0 * t);
  }

  /**
   * With cameraMoveTime = 0.5 and one 0.75 s frame, the as-written easing is
   * 0 and the camera is drawn exactly at its starting position, one frame
   * before it is snapped to the target.
   */
  lemma EaseAsWrittenReturnsToStart(start: Vec3, end: Vec3)
    ensures EaseAsWritten(0.75 / 0.5) == 0.0
    ensures Lerp3(start, end, EaseAsWritten(0.75 / 0.5)) == start
  {
  }

  /** On [0, 1] the as-written easing stays within [0, 1]. */
  lemma EaseAsWrittenWithin(c: real)
    requires 0.0 <= c <= 1.0
    ensures 0.0 <= EaseAsWritten(c) <= 1.0
  {
    ScaleNonNegative(c, c);
    ScaleNonNegative(Scale(c, c), 3.0 - 2.0 * c);
    assert EaseAsWritten(c) == Scale(Scale(c, c), 3.0 - 2.0 * c);
    var w := 1.0 - c;
    ScaleNonNegative(w, w);
    ScaleNonNegative(Scale(w, w), 1.0 + 2.0 * c);
    assert 1.0 - EaseAsWritten(c) == Scale(Scale(w, w), 1.0 + 2.0 * c);
  }

  /** On [0, 1] the as-written easing is non-decreasing. */
  lemma EaseAsWrittenMonotone(a: real, b: real)
    requires 0.0 <= a <= b <= 1.0
    ensures EaseAsWritten(a) <= EaseAsWritten(b)
  {
    var k := 3.0 * (a + b) - 2.0 * (a * a + a * b + b * b);
    ScaleNonNegative(a, 1.0 - a);
    ScaleNonNegative(b, 1.0 - b);
    ScaleNonNegative(a, 1.0 - b);
    ScaleNonNegative(b, 1.0 - a);
    assert k == 2.0 * Scale(a, 1.0 - a) + 2.0 * Scale(b, 1.0 - b) + Scale(a, 1.0 - b) + Scale(b, 1.0 - a);
    ScaleNonNegative(b - a, k);
    assert EaseAsWritten(b) - EaseAsWritten(a) == Scale(b - a, k);
  }

  /** The easing with t clamped to [0, 1] first, as in a smoothstep. */
  function Ease(t: real): (r: real)
    ensures 0.0 <= r <= 1.0
    ensures t <= 0.0 ==> r == 0.0
    ensures t >= 1.0 ==> r == 1.0
    ensures 0.0 <= t <= 1.0 ==> r == EaseAsWritten(t)
  {
    var c := Clamp01(t);
    EaseAsWrittenWithin(c);
    EaseAsWritten(c)
  }

  /** The clamped easing never moves the camera backwards. */
  lemma EaseMonotone(t1: real, t2: real)
    requires t1 <= t2
    ensures Ease(t1) <= Ease(t2)
  {
    EaseAsWrittenMonotone(Clamp01(t1), Clamp01(t2));
  }

  /**
   * Where the easing loop draws the camera after `elapsed` of a slide lasting
   * `moveTime`: Vector3.Lerp at the as-written easing of elapsed / moveTime.
   * Within the move time this is the clamped easing's point; past it, it is not
   * (see CameraAtReturnsToStart).
   */
  function CameraAt(start: Vec3, end: Vec3, elapsed: real, moveTime: real): (r: Vec3)
    requires moveTime > 0.0
    ensures start.z == end.z ==> r.z == start.z
    ensures elapsed == 0.0 ==> r == start
    ensures elapsed == moveTime ==> r == end
    ensures 0.0 <= elapsed <= moveTime ==> r == Lerp3(start, end, Ease(elapsed / moveTime))
  {
    var t := elapsed / moveTime;
    assert t * moveTime == elapsed;
    assert 0.0 <= elapsed <= moveTime ==> t <= 1.0 by {
      if 0.0 <= elapsed <= moveTime && t > 1.0 {
        ScalePositive(t - 1.0, moveTime);
      }
    }
    Lerp3(start, end, EaseAsWritten(t))
  }

  /**
   * Whatever the move time, a frame that carries elapsed to one and a half
   * times it draws the camera back at its start.
   */
  lemma CameraAtReturnsToStart(start: Vec3, end: Vec3, moveTime: real)
    requires moveTime > 0.0
    ensures CameraAt(start, end, 1.5 * moveTime, moveTime) == start
  {
    assert 1.5 * moveTime / moveTime == 1.5;
  }

  /**
   * From (0, 0) to (10, 0) over 0.5 s, the camera is half way, at x = 5, a
   * quarter of a second in.
   */
  lemma CameraHalfWay(z: real)
    ensures CameraAt(Vec3(0.0, 0.0, z), Vec3(10.0, 0.0, z), 0.25, 0.5).x == 5.0
  {
    assert Ease(0.25 / 0.5) == 0.5;
  }

  // ---------------------------------------------------------------------
  // The manager

  class RoomManager {
    /** The names and positions of the scene's objects tagged "Room", in the order found. */
    const roomNames: seq<string>
    const roomPositions: seq<Vec3>
    const cameraMoveTime: real

    /** Each room object's active flag. */
    var active: seq<bool>
    /** The dictionary from coordinate to room object. */
    var rooms: map<Coord, nat>
    var transitioning: bool
    var currentRoom: Coord
    /** cameraTransform.position */
    var cameraPosition: Vec3
    /** The state of the SlideCameraToRoom coroutine. */
    var slide: Slide
    /** The coordinates parsed so far, room by room: the dictionary is built from them. */
    ghost var registeredCoords: seq<Coord>
    /** The Freeze and SetActive calls transitions have made, in order. */
    ghost var transitionLog: seq<Call>

    /**
     * The dictionary points at parsed rooms; `transitioning` is up exactly
     * while a coroutine has not finished; the player is frozen exactly while
     * it is up; during a slide the target is registered and active and the
     * camera keeps its depth.
     */
    ghost predicate Valid()
      reads this
    {
      && |roomPositions| == |roomNames| && |active| == |roomNames|
      && |registeredCoords| <= |roomNames|
      && Registered(registeredCoords, rooms)
      && (transitioning <==> !slide.Idle?)
      && FreezesMatch(transitionLog, transitioning)
      && (slide.Sliding? ==>
            && slide.target in rooms
            && active[rooms[slide.target]]
            && slide.elapsed >= 0.0
            && slide.end == CameraTargetFor(slide.target, slide.start.z)
            && cameraPosition.z == slide.start.z)
    }

    /** Where the camera ends for a room: over the room's position, at depth z. */
    function CameraTargetFor(c: Coord, z: real): (r: Vec3)
      reads this
      requires c in rooms && rooms[c] < |roomPositions|
      ensures r.x == roomPositions[rooms[c]].x && r.y == roomPositions[rooms[c]].y
      ensures r.z == z
    {
      var p := roomPositions[rooms[c]];
      Vec3(p.x, p.y, z)
    }

    /** The field initialisers: an empty dictionary, room (0, 0) current, no transition. */
    constructor (roomNames: seq<string>, roomPositions: seq<Vec3>, active: seq<bool>,
                 cameraPosition: Vec3, cameraMoveTime: real)
      requires |roomPositions| == |roomNames| && |active| == |roomNames|
      ensures Valid()
      ensures this.roomNames == roomNames && this.roomPositions == roomPositions
      ensures this.active == active && this.cameraPosition == cameraPosition
      ensures this.cameraMoveTime == cameraMoveTime
      ensures rooms == map[] && registeredCoords == []
      ensures currentRoom == Coord(0, 0) && !transitioning
      ensures slide == Idle && transitionLog == []
    {
      this.roomNames := roomNames;
      this.roomPositions := roomPositions;
      this.cameraMoveTime := cameraMoveTime;
      this.active := active;
      rooms := map[];
      transitioning := false;
      currentRoom := Coord(0, 0);
      this.cameraPosition := cameraPosition;
      slide := Idle;
      registeredCoords := [];
      transitionLog := [];
    }

    /**
     * Awake's registry loop, on a fresh manager: store each room under its
     * parsed coordinate and make only the current room active. A name that
     * does not parse throws, which ends Awake there: later rooms are neither
     * stored nor touched.
     */
    method Awake()
      requires Valid() && rooms == map[] && registeredCoords == [] && !transitioning
      modifies this
      ensures Valid()
      ensures registeredCoords == LeadingCoords(ParseAll(roomNames))
      ensures rooms == RegistryOf(registeredCoords)
      ensures forall i | 0 <= i < |registeredCoords| :: active[i] == (registeredCoords[i] == currentRoom)
      ensures forall i | |registeredCoords| <= i < |active| :: active[i] == old(active[i])
      ensures OnlyActive(rooms, active, currentRoom)
      ensures currentRoom == old(currentRoom) && !transitioning
      ensures slide == old(slide) && cameraPosition == old(cameraPosition)
      ensures transitionLog == old(transitionLog)
    {
      var found, flags;
      ghost var coords;
      found, flags, coords := RegisterRooms();
      ActiveMatchesRegistry(coords, found, flags, currentRoom);
      rooms := found;
      active := flags;
      registeredCoords := coords;
    }

    /**
     * The loop of Awake: parse each room's name in turn, store the room under
     * its coordinate and set its active flag, until a name does not parse.
     * Returns the dictionary, the rooms' active flags and the coordinates read.
     */
    method RegisterRooms() returns (found: map<Coord, nat>, flags: seq<bool>, ghost coords: seq<Coord>)
      requires |active| == |roomNames|
      ensures coords == LeadingCoords(ParseAll(roomNames))
      ensures found == RegistryOf(coords)
      ensures |flags| == |roomNames|
      ensures forall j | 0 <= j < |coords| :: flags[j] == (coords[j] == currentRoom)
      ensures forall j | |coords| <= j < |flags| :: flags[j] == active[j]
    {
      ghost var parsed := ParseAll(roomNames);
      found := map[];
      flags := active;
      coords := [];
      var i := 0;
      while i < |roomNames|
        invariant i == |coords| <= |roomNames|
        invariant forall j | 0 <= j < i :: parsed[j] == Some(coords[j])
        invariant found == RegistryOf(coords)
        invariant |flags| == |roomNames|
        invariant forall j | 0 <= j < i :: flags[j] == (coords[j] == currentRoom)
        invariant forall j | i <= j < |flags| :: flags[j] == active[j]
      {
        var coord := ReadRoomCoord(i);
        if coord.None? {
          break;
        }
        RegistryAppend(coords, coord.value);
        found := found[coord.value := i];
        flags := flags[i := coord.value == currentRoom];
        coords := coords + [coord.value];
        i := i + 1;
      }
      LeadingCoordsOf(parsed, coords);
    }

    /** ParseRoomCoord on room i's name. */
    method ReadRoomCoord(i: nat) returns (coord: Option<Coord>)
      requires i < |roomNames|
      ensures coord == ParseAll(roomNames)[i]
    {
      coord := ParseRoomCoord(roomNames[i]);
      ParseAllAt(roomNames, i);
    }

    /**
     * MoveRoom: ignored while a transition runs, and ignored (with a warning)
     * for a coordinate with no room. Otherwise the coroutine starts and runs
     * up to its first yield within this call, using this frame's time `dt`:
     * it raises `transitioning`, freezes the player, activates the target,
     * and takes the first easing step, or finishes at once when
     * cameraMoveTime is not positive.
     */
    method MoveRoom(newRoom: Coord, dt: real)
      requires Valid() && dt >= 0.0
      modifies this
      ensures Valid()
      ensures rooms == old(rooms) && registeredCoords == old(registeredCoords)
      ensures old(transitioning) ==> unchanged(this)
      ensures newRoom !in rooms ==> unchanged(this)
      ensures !old(transitioning) && newRoom in rooms ==>
        && |transitionLog| >= |old(transitionLog)| + 2
        && transitionLog[..|old(transitionLog)| + 2]
             == old(transitionLog) + [Freeze(true), SetActive(rooms[newRoom], true)]
      ensures !old(transitioning) && newRoom in rooms && cameraMoveTime > 0.0 ==>
        var end := CameraTargetFor(newRoom, old(cameraPosition).z);
        && slide == Sliding(newRoom, old(cameraPosition), end, dt)
        && transitioning
        && cameraPosition == CameraAt(old(cameraPosition), end, dt, cameraMoveTime)
        && active == old(active)[rooms[newRoom] := true]
        && currentRoom == old(currentRoom)
        && transitionLog == old(transitionLog) + [Freeze(true), SetActive(rooms[newRoom], true)]
      ensures !old(transitioning) && newRoom in rooms && cameraMoveTime <= 0.0 ==>
        cameraPosition == CameraTargetFor(newRoom, old(cameraPosition).z)
      ensures !old(transitioning) && newRoom in rooms && cameraMoveTime <= 0.0
              && old(currentRoom) in rooms ==>
        && slide == Idle && !transitioning
        && currentRoom == newRoom
        && active == old(active)[rooms[newRoom] := true][rooms[old(currentRoom)] := false]
        && transitionLog == old(transitionLog) + [Freeze(true), SetActive(rooms[newRoom], true),
                                                  SetActive(rooms[old(currentRoom)], false), Freeze(false)]
      ensures !old(transitioning) && newRoom in rooms && cameraMoveTime <= 0.0
              && old(currentRoom) !in rooms ==>
        && slide == Aborted && transitioning
        && currentRoom == old(currentRoom)
        && active == old(active)[rooms[newRoom] := true]
        && transitionLog == old(transitionLog) + [Freeze(true), SetActive(rooms[newRoom], true)]
    {
      if transitioning {
        return;
      }
      if newRoom !in rooms {
        return;
      }
      BeginSlideCameraToRoom(newRoom);
      SlideStep(dt);
    }

    /**
     * SlideCameraToRoom up to its easing loop: raise `transitioning`, freeze
     * the player, activate the target, and fix the start and end of the slide.
     */
    method BeginSlideCameraToRoom(targetRoom: Coord)
      requires Valid() && !transitioning && targetRoom in rooms
      modifies this
      ensures Valid()
      ensures rooms == old(rooms) && registeredCoords == old(registeredCoords)
      ensures currentRoom == old(currentRoom) && cameraPosition == old(cameraPosition)
      ensures transitioning
      ensures slide == Sliding(targetRoom, old(cameraPosition),
                               CameraTargetFor(targetRoom, old(cameraPosition).z), 0.0)
      ensures active == old(active)[rooms[targetRoom] := true]
      ensures transitionLog == old(transitionLog) + [Freeze(true), SetActive(rooms[targetRoom], true)]
    {
      transitioning := true;
      LogFreeze(transitionLog, true);
      transitionLog := transitionLog + [Freeze(true)];

      LogSetActive(transitionLog, rooms[targetRoom], true);
      active := active[rooms[targetRoom] := true];
      transitionLog := transitionLog + [SetActive(rooms[targetRoom], true)];

      var start := cameraPosition;
      var roomWorldPos := roomPositions[rooms[targetRoom]];
      var end := Vec3(roomWorldPos.x, roomWorldPos.y, cameraPosition.z);
      slide := Sliding(targetRoom, start, end, 0.0);
    }

    /**
     * SlideCameraToRoom from its loop test to its next yield or its end. While
     * elapsed < cameraMoveTime: add the frame time and draw the camera at the
     * eased point. Otherwise: snap the camera onto the target, deactivate the
     * current room, make the target current, unfreeze the player and drop
     * `transitioning`. When the current room was never registered, looking it
     * up throws and the coroutine dies with the camera snapped and
     * `transitioning` still up.
     */
    method SlideStep(dt: real)
      requires Valid() && slide.Sliding? && dt >= 0.0
      modifies this
      ensures Valid()
      ensures rooms == old(rooms) && registeredCoords == old(registeredCoords)
      ensures old(slide.elapsed) < cameraMoveTime ==>
        && slide == old(slide).(elapsed := old(slide.elapsed) + dt)
        && cameraPosition == CameraAt(old(slide.start), old(slide.end), old(slide.elapsed) + dt, cameraMoveTime)
        && transitioning && active == old(active) && currentRoom == old(currentRoom)
        && transitionLog == old(transitionLog)
      ensures old(slide.elapsed) >= cameraMoveTime ==> cameraPosition == old(slide.end)
      ensures old(slide.elapsed) >= cameraMoveTime && old(currentRoom) in rooms ==>
        && slide == Idle && !transitioning
        && active == old(active)[rooms[old(currentRoom)] := false]
        && currentRoom == old(slide.target)
        && transitionLog == old(transitionLog) + [SetActive(rooms[old(currentRoom)], false), Freeze(false)]
      ensures old(slide.elapsed) >= cameraMoveTime && old(currentRoom) !in rooms ==>
        && slide == Aborted && transitioning
        && active == old(active) && currentRoom == old(currentRoom)
        && transitionLog == old(transitionLog)
    {
      if slide.elapsed < cameraMoveTime {
        EaseCamera(dt);
      } else {
        FinishSlide();
      }
    }

    /** One pass of the easing loop: add the frame time and draw the camera at the eased point. */
    method EaseCamera(dt: real)
      requires Valid() && slide.Sliding? && slide.elapsed < cameraMoveTime && dt >= 0.0
      modifies this
      ensures Valid()
      ensures slide == old(slide).(elapsed := old(slide.elapsed) + dt)
      ensures cameraPosition == CameraAt(old(slide.start), old(slide.end), old(slide.elapsed) + dt, cameraMoveTime)
      ensures rooms == old(rooms) && registeredCoords == old(registeredCoords)
      ensures transitioning && active == old(active) && currentRoom == old(currentRoom)
      ensures transitionLog == old(transitionLog)
    {
      var elapsed := slide.elapsed + dt;
      cameraPosition := CameraAt(slide.start, slide.end, elapsed, cameraMoveTime);
      slide := slide.(elapsed := elapsed);
    }

    /**
     * The code after the easing loop: snap the camera onto the target,
     * deactivate the current room, make the target current, unfreeze the
     * player and drop `transitioning`; or stop at the failed lookup of an
     * unregistered current room.
     */
    method FinishSlide()
      requires Valid() && slide.Sliding?
      modifies this
      ensures Valid()
      ensures rooms == old(rooms) && registeredCoords == old(registeredCoords)
      ensures cameraPosition == old(slide.end)
      ensures old(currentRoom) in rooms ==>
        && slide == Idle && !transitioning
        && active == old(active)[rooms[old(currentRoom)] := false]
        && currentRoom == old(slide.target)
        && transitionLog == old(transitionLog) + [SetActive(rooms[old(currentRoom)], false), Freeze(false)]
      ensures old(currentRoom) !in rooms ==>
        && slide == Aborted && transitioning
        && active == old(active) && currentRoom == old(currentRoom)
        && transitionLog == old(transitionLog)
    {
      cameraPosition := slide.end;
      if currentRoom !in rooms {
        slide := Aborted;
        return;
      }
      var left := rooms[currentRoom];
      LogRelease(transitionLog, left);
      active := active[left := false];
      currentRoom := slide.target;
      transitionLog := transitionLog + [SetActive(left, false), Freeze(false)];
      transitioning := false;
      slide := Idle;
    }

    /**
     * A new frame: a suspended slide resumes with the frame's time, either
     * easing once more or finishing; otherwise nothing happens.
     */
    method Tick(dt: real)
      requires Valid() && dt >= 0.0
      modifies this
      ensures Valid()
      ensures rooms == old(rooms) && registeredCoords == old(registeredCoords)
      ensures !old(slide.Sliding?) ==> unchanged(this)
      ensures old(slide.Sliding?) && old(slide.elapsed) < cameraMoveTime ==>
        && slide == old(slide).(elapsed := old(slide.elapsed) + dt)
        && cameraPosition == CameraAt(old(slide.start), old(slide.end), old(slide.elapsed) + dt, cameraMoveTime)
        && transitioning && active == old(active) && currentRoom == old(currentRoom)
        && transitionLog == old(transitionLog)
      ensures old(slide.Sliding?) && old(slide.elapsed) >= cameraMoveTime ==> cameraPosition == old(slide.end)
      ensures old(slide.Sliding?) && old(slide.elapsed) >= cameraMoveTime && old(currentRoom) in rooms ==>
        && slide == Idle && !transitioning
        && active == old(active)[rooms[old(currentRoom)] := false]
        && currentRoom == old(slide.target)
        && transitionLog == old(transitionLog) + [SetActive(rooms[old(currentRoom)], false), Freeze(false)]
      ensures old(slide.Sliding?) && old(slide.elapsed) >= cameraMoveTime && old(currentRoom) !in rooms ==>
        && slide == Aborted && transitioning
        && active == old(active) && currentRoom == old(currentRoom)
        && transitionLog == old(transitionLog)
    {
      if slide.Sliding? {
        SlideStep(dt);
      }
    }

    /**
     * The frames after a transition has started, one Tick each. A slide
     * that has not finished has accumulated exactly the frames' total and
     * changed nothing but the camera. Once the frames before the last add up
     * to cameraMoveTime, the slide has finished: the camera is on the target,
     * the source room is inactive, the target is current and Freeze(false)
     * has been called; or, when the current room was never stored, the
     * coroutine has aborted with `transitioning` still up.
     */
    method RunFrames(dts: seq<real>)
      requires Valid() && AllNonNegative(dts)
      modifies this
      ensures Valid()
      ensures rooms == old(rooms) && registeredCoords == old(registeredCoords)
      ensures !old(slide.Sliding?) ==> unchanged(this)
      ensures old(slide.Sliding?) && slide.Sliding? ==>
        && slide == old(slide).(elapsed := old(slide.elapsed) + Sum(dts))
        && transitioning && active == old(active) && currentRoom == old(currentRoom)
        && transitionLog == old(transitionLog)
      ensures old(slide.Sliding?) && |dts| > 0 && old(slide.elapsed) + Sum(dts[..|dts| - 1]) >= cameraMoveTime ==>
        !slide.Sliding?
      ensures old(slide.Sliding?) && !slide.Sliding? ==> cameraPosition == old(slide.end)
      ensures old(slide.Sliding?) && !slide.Sliding? && old(currentRoom) in rooms ==>
        && slide == Idle && !transitioning && currentRoom == old(slide.target)
        && active == old(active)[rooms[old(currentRoom)] := false]
        && transitionLog == old(transitionLog) + [SetActive(rooms[old(currentRoom)], false), Freeze(false)]
      ensures old(slide.Sliding?) && !slide.Sliding? && old(currentRoom) !in rooms ==>
        && slide == Aborted && transitioning && currentRoom == old(currentRoom)
        && active == old(active) && transitionLog == old(transitionLog)
    {
      ghost var s0, c0, a0, l0 := slide, currentRoom, active, transitionLog;
      var i := 0;
      while i < |dts|
        invariant 0 <= i <= |dts|
        invariant Valid()
        invariant rooms == old(rooms) && registeredCoords == old(registeredCoords)
        invariant !s0.Sliding? ==> unchanged(this)
        invariant s0.Sliding? && slide.Sliding? ==>
          && slide == s0.(elapsed := s0.elapsed + Sum(dts[..i]))
          && transitioning && currentRoom == c0 && active == a0 && transitionLog == l0
        invariant s0.Sliding? && 0 < i && s0.elapsed + Sum(dts[..i - 1]) >= cameraMoveTime ==> !slide.Sliding?
        invariant s0.Sliding? && !slide.Sliding? ==> cameraPosition == s0.end
        invariant s0.Sliding? && !slide.Sliding? && c0 in rooms ==>
          && slide == Idle && !transitioning && currentRoom == s0.target
          && active == a0[rooms[c0] := false]
          && transitionLog == l0 + [SetActive(rooms[c0], false), Freeze(false)]
        invariant s0.Sliding? && !slide.Sliding? && c0 !in rooms ==>
          && slide == Aborted && transitioning && currentRoom == c0
          && active == a0 && transitionLog == l0
      {
        Tick(dts[i]);
        assert dts[..i + 1][..i] == dts[..i];
        i := i + 1;
      }
      assert dts[..|dts|] == dts;
    }

    /**
     * MoveRoom followed by the frames that resume its slide: the first frame's
     * time is used inside MoveRoom, the rest by RunFrames. A transition
     * between two different rooms, begun with exactly the current room
     * active, ends with exactly the target active, the camera over the
     * target, and one Freeze(true) matched by one Freeze(false).
     */
    method MoveRoomOverFrames(newRoom: Coord, dts: seq<real>)
      requires Valid() && |dts| > 0 && AllNonNegative(dts)
      modifies this
      ensures Valid()
      ensures rooms == old(rooms) && registeredCoords == old(registeredCoords)
      ensures old(transitioning) || newRoom !in rooms ==> unchanged(this)
      ensures !old(transitioning) && newRoom in rooms && Sum(dts[..|dts| - 1]) >= cameraMoveTime ==>
        !slide.Sliding?
      ensures !old(transitioning) && newRoom in rooms && slide == Idle ==>
        && old(currentRoom) in rooms && currentRoom == newRoom && !transitioning
        && cameraPosition == CameraTargetFor(newRoom, old(cameraPosition).z)
        && active == old(active)[rooms[newRoom] := true][rooms[old(currentRoom)] := false]
        && transitionLog == old(transitionLog) + [Freeze(true), SetActive(rooms[newRoom], true),
                                                  SetActive(rooms[old(currentRoom)], false), Freeze(false)]
      ensures !old(transitioning) && newRoom in rooms && slide == Idle
              && newRoom != old(currentRoom) && OnlyActive(rooms, old(active), old(currentRoom)) ==>
        OnlyActive(rooms, active, newRoom)
    {
      if transitioning || newRoom !in rooms {
        MoveRoom(newRoom, dts[0]);
        return;
      }
      ghost var a0, c0, p0 := active, currentRoom, cameraPosition;
      MoveRoom(newRoom, dts[0]);
      var rest := dts[1..];
      assert AllNonNegative(rest);
      RunFrames(rest);
      if |dts| > 1 {
        SumFront(dts[..|dts| - 1]);
        assert dts[..|dts| - 1][1..] == rest[..|rest| - 1];
      }
      if slide == Idle && newRoom != c0 && OnlyActive(rooms, a0, c0) {
        SlideEndsOnlyTargetActive(registeredCoords, rooms, a0, c0, newRoom);
      }
    }
  }
}
