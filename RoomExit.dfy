/**
 * RoomExitLogic.cs: an exit trigger placed at a room's edge, which sends the
 * room manager to the exit's target room when the player walks into it.
 */
module RoomExit {
  import opened RoomNames
  import opened Rooms

  class RoomExitLogic {
    /** The room this exit leads to, set per exit in the editor. */
    const targetRoom: Coord

    constructor (targetRoom: Coord)
      ensures this.targetRoom == targetRoom
    {
      this.targetRoom := targetRoom;
    }

    /**
     * OnTriggerEnter2D: a collider tagged "Player" asks the manager to move
     * to the target room; any other collider is ignored. `dt` is the frame
     * time the started transition's first step uses.
     */
    method OnTriggerEnter2D(instance: RoomManager, otherTag: string, dt: real)
      requires instance.Valid() && dt >= 0.0
      modifies instance
      ensures instance.Valid()
      ensures otherTag != "Player" ==> unchanged(instance)
      ensures otherTag == "Player" && (old(instance.transitioning) || targetRoom !in old(instance.rooms)) ==>
        unchanged(instance)
      ensures otherTag == "Player" && !old(instance.transitioning) && targetRoom in old(instance.rooms) ==>
        && |instance.transitionLog| >= |old(instance.transitionLog)| + 2
        && instance.transitionLog[..|old(instance.transitionLog)| + 2]
             == old(instance.transitionLog) + [Freeze(true), SetActive(old(instance.rooms)[targetRoom], true)]
    {
      if otherTag == "Player" {
        instance.MoveRoom(targetRoom, dt);
      }
    }
  }
}
