/** What the bot sees of the game world during one tick, and what it asks
    the world to do. The game's queries (`find`, `get_object_typed`,
    `find_closest_by_range`) are given as plain records, the replies of its
    actions as return codes, and the actions themselves are collected in a
    trace instead of being carried out. */
module World {
  import opened Common

  /** The game's `ReturnCode`, reduced to the two codes the bot tells apart. */
  datatype ReturnCode = CodeOk | NotInRange | OtherCode(code: int)

  /** One call the bot makes on a game object. */
  datatype Action =
    | HarvestFrom(source: Id)
    | TransferTo(target: Id)
    | BuildAt(site: Id)
    | UpgradeController(controller: Id)
    | MoveTo(target: Id)
    | Attack(tower: Id, creep: Id)
    | Repair(tower: Id, structure: Id)

  /** An energy source and the energy it has left. */
  datatype Source = Source(id: Id, energy: nat)

  /** Hit points of a structure that can be attacked. */
  datatype Hits = Hits(hits: int, hitsMax: int)

  /** Stored and maximal energy of a structure that can hold energy. */
  datatype EnergyStore = EnergyStore(energy: int, capacity: int)

  /** A structure: `hits` is absent when it has no hit points
      (`as_attackable()` is `None`), `store` when it cannot hold energy
      (`as_can_store_energy()` is `None`). */
  datatype Structure = Structure(id: Id, hits: Option<Hits>, store: Option<EnergyStore>)

  /** The results of the room queries a creep's tasks make, in find order. */
  datatype RoomView = RoomView(
    sources: seq<Source>,
    structures: seq<Structure>,
    sites: seq<Id>,
    controller: Option<Id>)

  /** The codes the game answers to the creep's actions this tick. */
  datatype Replies = Replies(
    harvest: ReturnCode,
    transfer: ReturnCode,
    build: ReturnCode,
    upgrade: ReturnCode)

  /** A live creep: its name, carried and maximal energy, and its room. */
  datatype CreepView = CreepView(
    name: string,
    energy: nat,
    capacity: nat,
    room: RoomView,
    replies: Replies)

  /** What a task hands back: the tri-state result and the actions it issued. */
  datatype Step = Step(result: Result<bool>, actions: seq<Action>)

  /** Issue `primary`, then move toward `target` when the reply was
      `NotInRange`: the shape every creep task shares. */
  function ActOrApproach(primary: Action, target: Id, reply: ReturnCode): seq<Action>
  {
    [primary] + (if reply == NotInRange then [MoveTo(target)] else [])
  }
}
