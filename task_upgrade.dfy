/** The upgrade task: work on the room's controller. */
module Upgrade {
  import opened Common
  import opened World

  const NoController := "there is no controller"

  /** `TaskUpgrade::run`: fails when the room has no controller, and is
      otherwise always handled, never "not handled"; only a `NotInRange`
      reply adds a move. It reads and writes no memory. */
  function Run(c: CreepView): (st: Step)
    ensures st.result != Ok(false)
    ensures st.result.Err? <==> c.room.controller.None?
    ensures st.result.Err? ==> st.result.msg == NoController && st.actions == []
    ensures c.room.controller.Some? ==>
      st.actions == ActOrApproach(UpgradeController(c.room.controller.value),
                                  c.room.controller.value, c.replies.upgrade)
  {
    match c.room.controller
    case None => Step(Err(NoController), [])
    case Some(controller) =>
      Step(Ok(true), ActOrApproach(UpgradeController(controller), controller, c.replies.upgrade))
  }
}
