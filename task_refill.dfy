/** The refill task: carry energy to the first structure of the room that
    can hold energy and is not full. */
module Refill {
  import opened Common
  import opened World

  /** A structure that can store energy (`as_can_store_energy()`) and has
      room for more. Structures that cannot store energy never qualify. */
  predicate NeedsEnergy(s: Structure)
  {
    s.store.Some? && s.store.value.energy < s.store.value.capacity
  }

  /** `TaskRefill::run`: the target is the first structure in find order
      that needs energy; the task is handled exactly when one exists,
      whatever the transfer answers, and only `NotInRange` adds a move. */
  function Run(c: CreepView): (st: Step)
    ensures st.result.Ok?
    ensures st.result.value <==>
      exists i :: 0 <= i < |c.room.structures| && NeedsEnergy(c.room.structures[i])
    ensures !st.result.value ==> st.actions == []
    ensures st.result.value ==>
      exists i :: 0 <= i < |c.room.structures| && NeedsEnergy(c.room.structures[i])
        && (forall j :: 0 <= j < i ==> !NeedsEnergy(c.room.structures[j]))
        && st.actions == ActOrApproach(TransferTo(c.room.structures[i].id),
                                       c.room.structures[i].id, c.replies.transfer)
  {
    match FirstWhere(c.room.structures, NeedsEnergy)
    case None => Step(Ok(false), [])
    case Some(i) =>
      var target := c.room.structures[i];
      Step(Ok(true), ActOrApproach(TransferTo(target.id), target.id, c.replies.transfer))
  }
}
