/** The role engine shared by the builder, harvester and upgrader roles.

    Each tick a creep either harvests or works through its role's ordered
    list of tasks. Which of the two it does follows a hysteresis flag
    `harvesting` kept in the creep's memory. The three roles differ only in
    the order of their task lists. */
module Roles {
  import opened Common
  import opened World
  import Refill
  import Build
  import Upgrade
  import Harvest

  datatype Role = Builder | Harvester | Upgrader

  /** The tasks a role may fall back on when it is not harvesting. */
  datatype TaskKind = RefillTask | BuildTask | UpgradeTask

  const AllTasksFailed := "all of the tasks failed to run"

  /** `Role::name`, the key creeps' memory and flags use for the role. */
  function Name(role: Role): string
  {
    match role
    case Builder => "builder"
    case Harvester => "harvester"
    case Upgrader => "upgrader"
  }

  /** The role registered under `name`, if any. */
  function RoleNamed(name: string): (r: Option<Role>)
    ensures r.Some? ==> Name(r.value) == name
    ensures r.None? <==> forall role: Role :: Name(role) != name
  {
    if name == "builder" then Some(Builder)
    else if name == "harvester" then Some(Harvester)
    else if name == "upgrader" then Some(Upgrader)
    else None
  }

  /** The fallback order of each role. */
  function Chain(role: Role): (r: seq<TaskKind>)
    // every chain ends with the upgrade task and names no task twice
    ensures |r| > 0 && r[|r| - 1] == UpgradeTask
    ensures forall i, j :: 0 <= i < j < |r| ==> r[i] != r[j]
    ensures role == Harvester ==> r[0] == RefillTask && r[1] == BuildTask
    ensures role == Builder ==> r[0] == BuildTask && r[1] == RefillTask
    ensures role == Upgrader ==> |r| == 1
  {
    match role
    case Harvester => [RefillTask, BuildTask, UpgradeTask]
    case Builder => [BuildTask, RefillTask, UpgradeTask]
    case Upgrader => [UpgradeTask]
  }

  function RunTask(t: TaskKind, c: CreepView): Step
  {
    match t
    case RefillTask => Refill.Run(c)
    case BuildTask => Build.Run(c)
    case UpgradeTask => Upgrade.Run(c)
  }

  /** The task reported "not handled" (`Ok(false)`), so the chain goes on. */
  predicate Declines(t: TaskKind, c: CreepView)
  {
    RunTask(t, c).result == Ok(false)
  }

  /** The `harvesting` flag for this tick: set when the creep is empty,
      cleared when it is full, and otherwise the stored flag unchanged. */
  function Harvesting(energy: nat, capacity: nat, stored: bool): (h: bool)
    ensures energy == 0 ==> h
    ensures 0 < energy && capacity <= energy ==> !h
    ensures 0 < energy < capacity ==> h == stored
  {
    if energy == 0 then true
    else if energy >= capacity then false
    else stored
  }

  /** The flag after a run of ticks with the given carried amounts. */
  function Replay(stored: bool, energies: seq<nat>, capacity: nat): bool
    decreases |energies|
  {
    if |energies| == 0 then stored
    else Replay(Harvesting(energies[0], capacity, stored), energies[1..], capacity)
  }

  /** Hysteresis over many ticks: a harvesting creep keeps harvesting until
      it is full, and a working creep keeps working until it is empty. */
  lemma {:induction false} FlagFlipsOnlyAtBounds(stored: bool, energies: seq<nat>, capacity: nat)
    ensures stored && (forall i :: 0 <= i < |energies| ==> energies[i] < capacity)
      ==> Replay(stored, energies, capacity)
    ensures !stored && (forall i :: 0 <= i < |energies| ==> energies[i] > 0)
      ==> !Replay(stored, energies, capacity)
    decreases |energies|
  {
    if |energies| > 0 {
      FlagFlipsOnlyAtBounds(Harvesting(energies[0], capacity, stored), energies[1..], capacity);
    }
  }

  /** The actions of the given tasks, in order. */
  function ActionsOf(ts: seq<TaskKind>, c: CreepView): seq<Action>
    decreases |ts|
  {
    if |ts| == 0 then [] else RunTask(ts[0], c).actions + ActionsOf(ts[1..], c)
  }

  datatype ChainOutcome = ChainOutcome(result: Result<()>, actions: seq<Action>, ran: nat)

  /** The `match true { _ if task.run(creep)? => Ok(()), .. }` chain: the
      tasks run in order until one is handled or fails; `ran` is how many
      ran. */
  function RunChain(ts: seq<TaskKind>, c: CreepView): (o: ChainOutcome)
    decreases |ts|
    // the tasks run form a prefix, and every one but the last declined
    ensures o.ran <= |ts|
    ensures forall j :: 0 <= j < o.ran - 1 ==> Declines(ts[j], c)
    ensures o.ran < |ts| ==> 0 < o.ran && !Declines(ts[o.ran - 1], c)
    // the first handled task ends the chain with success
    ensures o.result == Ok(()) <==> 0 < o.ran && RunTask(ts[o.ran - 1], c).result == Ok(true)
    // a failing task ends it with that task's error
    ensures 0 < o.ran && RunTask(ts[o.ran - 1], c).result.Err? ==>
      o.result == Err(RunTask(ts[o.ran - 1], c).result.msg)
    // when every task declines, the role fails
    ensures (forall j :: 0 <= j < |ts| ==> Declines(ts[j], c)) ==>
      o.result == Err(AllTasksFailed) && o.ran == |ts|
    ensures o.actions == ActionsOf(ts[..o.ran], c)
  {
    if |ts| == 0 then ChainOutcome(Err(AllTasksFailed), [], 0)
    else
      var st := RunTask(ts[0], c);
      match st.result
      case Ok(handled) =>
        if handled then
          assert ts[..1][1..] == [];
          ChainOutcome(Ok(()), st.actions, 1)
        else
          var rest := RunChain(ts[1..], c);
          assert ts[..rest.ran + 1][1..] == ts[1..][..rest.ran];
          ChainOutcome(rest.result, st.actions + rest.actions, rest.ran + 1)
      case Err(e) =>
        assert ts[..1][1..] == [];
        ChainOutcome(Err(e), st.actions, 1)
  }

  /** Everything one creep's role does in a tick, on values: the harvest
      ledger and creep memory afterwards, the role's result and actions. */
  datatype RoleOutcome = RoleOutcome(
    ledger: Harvest.Ledger,
    mem: map<string, Value>,
    result: Result<()>,
    actions: seq<Action>)

  /** `Role::run`: compute and persist the flag, then harvest or work
      through the chain. In harvesting mode the harvest task's "not
      handled" still counts as success; only its error fails the role. */
  function RoleStep(role: Role, l: Harvest.Ledger, c: CreepView, mem: map<string, Value>,
                    memoryOk: bool, live: map<Id, nat>): RoleOutcome
  {
    var h := Harvesting(c.energy, c.capacity, Truthy(mem, "harvesting"));
    var mem' := mem["harvesting" := Bool(h)];
    if h then
      var (l', st) := Harvest.HarvestStep(l, c, mem', memoryOk, live);
      RoleOutcome(l', mem', if st.result.Err? then Err(st.result.msg) else Ok(()), st.actions)
    else
      var o := RunChain(Chain(role), c);
      RoleOutcome(l, mem', o.result, o.actions)
  }

  /** `Role::run` for any of the three roles, against the harvest task
      object shared by every creep of the tick. */
  method RunRole(role: Role, c: CreepView, mem: map<string, Value>, memoryOk: bool,
                 live: map<Id, nat>, harvest: Harvest.TaskHarvest)
    returns (r: Result<()>, mem': map<string, Value>, actions: seq<Action>)
    modifies harvest
    ensures RoleOutcome(harvest.Snapshot(), mem', r, actions)
      == RoleStep(role, old(harvest.Snapshot()), c, mem, memoryOk, live)
  {
    var harvesting := Harvesting(c.energy, c.capacity, Truthy(mem, "harvesting"));
    mem' := mem["harvesting" := Bool(harvesting)];
    if harvesting {
      var st := harvest.Run(c, mem', memoryOk, live);
      r := if st.result.Err? then Err(st.result.msg) else Ok(());
      actions := st.actions;
    } else {
      var o := RunChain(Chain(role), c);
      r, actions := o.result, o.actions;
    }
  }

  /* ---------------------------------------------------------------------
     Properties of the roles
     --------------------------------------------------------------------- */

  /** The flag is written to the creep's memory on every run, and nothing
      else in it changes. */
  lemma FlagPersisted(role: Role, l: Harvest.Ledger, c: CreepView, mem: map<string, Value>,
                      memoryOk: bool, live: map<Id, nat>)
    ensures var o := RoleStep(role, l, c, mem, memoryOk, live);
      && o.mem.Keys == mem.Keys + {"harvesting"}
      && o.mem["harvesting"] == Bool(Harvesting(c.energy, c.capacity, Truthy(mem, "harvesting")))
      && forall k :: k in mem && k != "harvesting" ==> o.mem[k] == mem[k]
  {
  }

  /** In harvesting mode only the harvest task runs: the role fails exactly
      when it fails, and a "not handled" harvest is still a success. */
  lemma HarvestModeResult(role: Role, l: Harvest.Ledger, c: CreepView, mem: map<string, Value>,
                          memoryOk: bool, live: map<Id, nat>)
    requires Harvesting(c.energy, c.capacity, Truthy(mem, "harvesting"))
    ensures var o := RoleStep(role, l, c, mem, memoryOk, live);
      var st := Harvest.HarvestStep(l, c, o.mem, memoryOk, live).1;
      && (o.result.Ok? <==> st.result.Ok?)
      && o.actions == st.actions
  {
  }

  /** In working mode the harvest ledger is untouched and the role's
      result is that of its chain. */
  lemma WorkModeResult(role: Role, l: Harvest.Ledger, c: CreepView, mem: map<string, Value>,
                       memoryOk: bool, live: map<Id, nat>)
    requires !Harvesting(c.energy, c.capacity, Truthy(mem, "harvesting"))
    ensures var o := RoleStep(role, l, c, mem, memoryOk, live);
      o.ledger == l && o.result == RunChain(Chain(role), c).result
  {
  }

  /** A harvester that finds something to refill does only that: build and
      upgrade are not run. */
  lemma HarvesterRefillsFirst(c: CreepView)
    requires Refill.Run(c).result == Ok(true)
    ensures var o := RunChain(Chain(Harvester), c);
      o.result == Ok(()) && o.ran == 1 && o.actions == Refill.Run(c).actions
  {
    assert Chain(Harvester)[..1] == [RefillTask];
  }

  /** A builder with a construction site builds and does nothing else. */
  lemma BuilderBuildsFirst(c: CreepView)
    requires |c.room.sites| > 0
    ensures var o := RunChain(Chain(Builder), c);
      o.result == Ok(()) && o.ran == 1 && o.actions == Build.Run(c).actions
  {
    assert Chain(Builder)[..1] == [BuildTask];
  }

  /** No role ever fails with "all of the tasks failed": every chain ends
      with the upgrade task, which never declines. A working creep of any
      role fails only when the room has no controller. */
  lemma WorkersNeverExhaustChain(role: Role, c: CreepView)
    ensures RunChain(Chain(role), c).result != Err(AllTasksFailed)
    ensures RunChain(Chain(role), c).result.Err? ==>
      RunChain(Chain(role), c).result == Err(Upgrade.NoController)
  {
    var ts := Chain(role);
    var o := RunChain(ts, c);
    assert RunTask(UpgradeTask, c).result != Ok(false);
    if o.result.Err? {
      assert 0 < o.ran;
      assert !Declines(ts[o.ran - 1], c);
      assert RunTask(ts[o.ran - 1], c).result.Err?;
    }
  }
}
