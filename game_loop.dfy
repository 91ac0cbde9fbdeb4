/** One tick of the bot: towers, then every creep's role, then the spawn,
    then flag commands, then the periodic clean-up of dead creeps' memory,
    and finally the error threshold that triggers a notification.

    `Bot` holds the parts of the persistent memory tree that the tick
    reads and writes; everything the game answers during the tick is
    collected in a `TickInput`. */
module GameLoop {
  import opened Common
  import opened World
  import opened Roles
  import Harvest
  import Military
  import opened Spawning
  import opened Flags

  /** A creep alive this tick, and whether its task memory can be opened. */
  datatype LiveCreep = LiveCreep(view: CreepView, taskMemoryOk: bool)

  /** Everything the game answers during one tick. `towerOrder` is the order
      in which the store enumerates the `towers` dictionary, `sources` the
      energy of every source that resolves by id, `census` the roles'
      counts and settings in the role table's iteration order, and `flags`
      the names of all flags. */
  datatype TickInput = TickInput(
    time: nat,
    towerOrder: seq<Id>,
    sight: Military.Sight,
    alive: seq<LiveCreep>,
    sources: map<Id, nat>,
    spawn: SpawnState,
    census: seq<RoleEntry>,
    spawnReply: Role -> ReturnCode,
    flags: seq<string>,
    roleFlag: (Role, string) -> Result<bool>)

  /** What the tick did that is not kept in memory. */
  datatype TickReport = TickReport(
    errors: nat,
    notified: bool,
    towerActions: seq<Action>,
    creepActions: seq<Action>,
    attempts: seq<Attempt>,
    spawned: Option<Role>,
    flags: Option<FlagReport>)

  /** Errors that count toward the notification threshold. */
  const ErrorThreshold := 10

  /** The clean-up runs on ticks whose number is 3 modulo this period. */
  const ReapPeriod := 50

  /** The creep's role as the loop reads it: its `role` string, `error`
      when that entry is not a string, and `missing` when it is absent. */
  function RoleString(mem: map<string, Value>): (r: string)
    ensures "role" !in mem ==> r == "missing"
    ensures "role" in mem && !mem["role"].Str? ==> r == "error"
    ensures "role" in mem && mem["role"].Str? ==> r == mem["role"].s
  {
    match StringEntry(mem, "role")
    case Err(_) => "error"
    case Ok(None) => "missing"
    case Ok(Some(s)) => s
  }

  /** The names of the creeps alive this tick. */
  function Names(alive: seq<LiveCreep>): set<string>
  {
    set c | c in alive :: c.view.name
  }

  /** The memory of a creep as `creep.memory()` yields it: an absent entry
      reads as an empty dictionary. */
  function MemoryOf(creeps: map<string, map<string, Value>>, name: string): map<string, Value>
  {
    if name in creeps then creeps[name] else map[]
  }

  datatype CreepOutcome = CreepOutcome(
    ledger: Harvest.Ledger,
    creeps: map<string, map<string, Value>>,
    result: Result<()>,
    actions: seq<Action>)

  /** One creep's turn: resolve its role and run it. A role string that
      names no role fails the creep and changes nothing. */
  function CreepTurn(l: Harvest.Ledger, creeps: map<string, map<string, Value>>, c: LiveCreep,
                     live: map<Id, nat>): (t: CreepOutcome)
    ensures RoleNamed(RoleString(MemoryOf(creeps, c.view.name))).None? ==>
      t == CreepOutcome(l, creeps, Err("unknown role " + RoleString(MemoryOf(creeps, c.view.name))), [])
    ensures t.creeps.Keys <= creeps.Keys + {c.view.name}
    ensures forall k :: k in creeps && k != c.view.name ==> k in t.creeps && t.creeps[k] == creeps[k]
  {
    var mem := MemoryOf(creeps, c.view.name);
    var roleName := RoleString(mem);
    match RoleNamed(roleName)
    case None => CreepOutcome(l, creeps, Err("unknown role " + roleName), [])
    case Some(role) =>
      var o := RoleStep(role, l, c.view, mem, c.taskMemoryOk, live);
      CreepOutcome(o.ledger, creeps[c.view.name := o.mem], o.result, o.actions)
  }

  /** The loop over the creeps so far: the harvest ledger and creep memory,
      the names of the creeps that failed and the actions, in order. */
  datatype CreepPass = CreepPass(
    ledger: Harvest.Ledger,
    creeps: map<string, map<string, Value>>,
    failures: seq<string>,
    actions: seq<Action>)

  /** The pass after one more creep's turn: a failing creep is recorded
      and the loop goes on. */
  function After(p: CreepPass, c: LiveCreep, live: map<Id, nat>): CreepPass
  {
    var t := CreepTurn(p.ledger, p.creeps, c, live);
    CreepPass(t.ledger, t.creeps, p.failures + (if t.result.Err? then [c.view.name] else []), p.actions + t.actions)
  }

  /** The loop on values, continued from pass `p` over the creeps `alive`. */
  function CreepsFrom(p: CreepPass, alive: seq<LiveCreep>, live: map<Id, nat>): (r: CreepPass)
    ensures |p.failures| <= |r.failures| <= |p.failures| + |alive|
    ensures r.failures[..|p.failures|] == p.failures
    decreases |alive|
  {
    if |alive| == 0 then p
    else
      var q := After(p, alive[0], live);
      assert q.failures[..|p.failures|] == p.failures;
      CreepsFrom(q, alive[1..], live)
  }

  /** The whole creep loop of a tick. */
  function CreepsSpec(l: Harvest.Ledger, creeps: map<string, map<string, Value>>, alive: seq<LiveCreep>,
                      live: map<Id, nat>): CreepPass
  {
    CreepsFrom(CreepPass(l, creeps, [], []), alive, live)
  }

  /** The loop invariant of `Bot.RunCreeps` survives the `i`-th creep. */
  lemma CreepsFromStep(p: CreepPass, alive: seq<LiveCreep>, i: nat, live: map<Id, nat>)
    requires i < |alive|
    ensures CreepsFrom(p, alive[i..], live) == CreepsFrom(After(p, alive[i], live), alive[i + 1..], live)
  {
    assert alive[i..][0] == alive[i] && alive[i..][1..] == alive[i + 1..];
  }

  /** Only creeps alive this tick are recorded as failures. */
  lemma {:induction false} FailuresAreLive(p: CreepPass, alive: seq<LiveCreep>, live: map<Id, nat>)
    ensures forall n :: n in CreepsFrom(p, alive, live).failures ==> n in p.failures || n in Names(alive)
    decreases |alive|
  {
    if |alive| > 0 {
      FailuresAreLive(After(p, alive[0], live), alive[1..], live);
      assert alive[0] in alive;
      assert forall d :: d in alive[1..] ==> d in alive;
    }
  }

  /** The memory of a creep that is not alive is left alone by the loop. */
  lemma {:induction false} CreepsLeaveOthers(p: CreepPass, alive: seq<LiveCreep>, live: map<Id, nat>, k: string)
    requires k !in Names(alive)
    ensures var r := CreepsFrom(p, alive, live);
      (k in r.creeps <==> k in p.creeps) && (k in p.creeps ==> r.creeps[k] == p.creeps[k])
    decreases |alive|
  {
    if |alive| > 0 {
      assert alive[0] in alive;
      assert forall d :: d in alive[1..] ==> d in alive;
      CreepsLeaveOthers(After(p, alive[0], live), alive[1..], live, k);
    }
  }

  /** A creep without memory has no role: each one fails, in order, and
      nothing is written for it. */
  lemma {:induction false} MemorylessCreepsFail(p: CreepPass, alive: seq<LiveCreep>, live: map<Id, nat>)
    requires forall i :: 0 <= i < |alive| ==> alive[i].view.name !in p.creeps
    ensures var r := CreepsFrom(p, alive, live);
      && |r.failures| == |p.failures| + |alive|
      && (forall i :: 0 <= i < |alive| ==> r.failures[|p.failures| + i] == alive[i].view.name)
      && r.creeps == p.creeps && r.ledger == p.ledger && r.actions == p.actions
    decreases |alive|
  {
    if |alive| > 0 {
      MemorylessTurn(p, alive[0], live);
      var q := After(p, alive[0], live);
      MemorylessCreepsFail(q, alive[1..], live);
    }
  }

  /** One creep without memory: it fails and nothing else changes. */
  lemma MemorylessTurn(p: CreepPass, c: LiveCreep, live: map<Id, nat>)
    requires c.view.name !in p.creeps
    ensures After(p, c, live) == CreepPass(p.ledger, p.creeps, p.failures + [c.view.name], p.actions)
  {
    assert RoleString(MemoryOf(p.creeps, c.view.name)) == "missing";
  }

  /** One creep's turn never lifts a source's reservation count above both
      its former value and its limit, whatever the creep's role and mode. */
  lemma TurnNeverOverbooks(l: Harvest.Ledger, creeps: map<string, map<string, Value>>, c: LiveCreep,
                           live: map<Id, nat>, k: Id)
    ensures var t := CreepTurn(l, creeps, c, live);
      && t.ledger.limits == l.limits
      && Count(t.ledger.prev, k) <= Harvest.Max(Count(l.prev, k), Harvest.Limit(l.limits, k))
  {
    var mem := MemoryOf(creeps, c.view.name);
    match RoleNamed(RoleString(mem)) {
      case None =>
      case Some(role) =>
        var h := Harvesting(c.view.energy, c.view.capacity, Truthy(mem, "harvesting"));
        if h && c.taskMemoryOk {
          Harvest.StepNeverOverbooks(l, Harvest.Turn(c.view, mem["harvesting" := Bool(h)]), live, k);
        } else if !h {
          WorkModeResult(role, l, c.view, mem, c.taskMemoryOk, live);
        }
    }
  }

  /** The creep loop never overbooks a source: its reservation count ends
      at most at the larger of its starting value and its limit. */
  lemma {:induction false} CreepsNeverOverbook(p: CreepPass, alive: seq<LiveCreep>, live: map<Id, nat>, k: Id)
    ensures var r := CreepsFrom(p, alive, live);
      && r.ledger.limits == p.ledger.limits
      && Count(r.ledger.prev, k) <= Harvest.Max(Count(p.ledger.prev, k), Harvest.Limit(p.ledger.limits, k))
    decreases |alive|
  {
    if |alive| > 0 {
      TurnNeverOverbooks(p.ledger, p.creeps, alive[0], live, k);
      CreepsNeverOverbook(After(p, alive[0], live), alive[1..], live, k);
    }
  }

  /** Within a tick, new assignments never push a source's `prev_counter`
      above its limit unless last tick's `counter` already was above it. */
  lemma CreepPhaseNeverOverbooks(m: MemoryTree, w: TickInput, k: Id)
    ensures Count(CreepPhase(m, w).ledger.prev, k)
      <= Harvest.Max(IntOr(m.counter, k, 0), Harvest.Limit(m.creepLimits, k))
  {
    var l := Harvest.Opening(m.counter, m.creepLimits, m.sourceCache);
    CreepsNeverOverbook(CreepPass(l, m.creeps, [], []), w.alive, w.sources, k);
  }

  /** `map k | k in counter :: k := counter[k]` written back to the store. */
  function IntValues(counter: map<Id, int>): (r: map<Id, Value>)
    ensures r.Keys == counter.Keys
    ensures forall k :: IntOr(r, k, 0) == Count(counter, k)
  {
    map k | k in counter :: Int(counter[k])
  }

  /** The creep directory after `clear_deceased`: only the live creeps' entries. */
  function Reaped(creeps: map<string, map<string, Value>>, live: set<string>): (r: map<string, map<string, Value>>)
    ensures r.Keys == creeps.Keys * live
    ensures forall k :: k in r ==> r[k] == creeps[k]
  {
    map k | k in creeps && k in live :: creeps[k]
  }

  /** The tower pass, or its error when `towers` is not a dictionary. */
  function TowerPhase(towers: Option<map<Id, Military.TowerEntry>>, order: seq<Id>, sight: Military.Sight): Military.Pass
    requires towers.Some? ==> Military.Enumerates(order, towers.value)
  {
    match towers
    case None => Military.Pass(Err(Military.TowersNotADict), map[], [])
    case Some(m) => Military.RunSpec(order, m, sight)
  }

  /** The flag block of the tick: without a `done` flag nothing happens;
      with one, every flag is processed, `done` is removed and a marker
      flag reports whether any command failed. */
  method RunFlags(names: seq<string>, roleFlag: (Role, string) -> Result<bool>) returns (report: Option<FlagReport>)
    ensures report == FlagPass(names, roleFlag)
  {
    report := None;
    if "done" in names {
      var removed, errs := ProcessFlags(names, roleFlag);
      report := Some(FlagReport(removed + ["done"], errs, if |errs| == 0 then "ok" else "err"));
    }
  }

  /** The parts of the persistent memory tree the tick reads and writes.
      `prevCounter` is never read across ticks: the harvest task deletes it
      and rebuilds it from `counter` before any creep runs. */
  datatype MemoryTree = MemoryTree(
    root: map<string, Value>,
    creeps: map<string, map<string, Value>>,
    counter: map<Id, Value>,
    prevCounter: map<Id, Value>,
    creepLimits: map<Id, Value>,
    sourceCache: map<string, Value>,
    towers: Option<map<Id, Military.TowerEntry>>)

  /** The creep loop of a tick that starts from memory `m`. */
  function CreepPhase(m: MemoryTree, w: TickInput): CreepPass
  {
    CreepsSpec(Harvest.Opening(m.counter, m.creepLimits, m.sourceCache), m.creeps, w.alive, w.sources)
  }

  /** The errors a tick counts: one for a failed tower pass, one for each
      creep whose role failed. */
  function TickErrors(m: MemoryTree, w: TickInput): nat
    requires m.towers.Some? ==> Military.Enumerates(w.towerOrder, m.towers.value)
  {
    (if TowerPhase(m.towers, w.towerOrder, w.sight).result.Err? then 1 else 0) + |CreepPhase(m, w).failures|
  }

  /** The memory after the towers and the creeps have run: towers updated,
      the creeps' memory updated by their roles, and the harvest counter,
      the rolled-over `prev_counter` and the source cache written back. */
  function UnitsMemory(m: MemoryTree, w: TickInput): MemoryTree
    requires m.towers.Some? ==> Military.Enumerates(w.towerOrder, m.towers.value)
  {
    var cp := CreepPhase(m, w);
    m.(creeps := cp.creeps, counter := IntValues(cp.ledger.counter), prevCounter := IntValues(cp.ledger.prev),
       sourceCache := cp.ledger.cache,
       towers := if m.towers.None? then None else Some(TowerPhase(m.towers, w.towerOrder, w.sight).towers))
  }

  /** The memory after the rest of the tick: the id stepped when a creep
      was spawned, and dead creeps' memory reaped on schedule. */
  function HousekeepingMemory(m: MemoryTree, w: TickInput): MemoryTree
  {
    m.(root := if Spawns(w.spawn, w.census, w.spawnReply) then m.root["id" := Int(IntOr(m.root, "id", 0) + 1)] else m.root,
       creeps := if w.time % ReapPeriod == 3 then Reaped(m.creeps, Names(w.alive)) else m.creeps)
  }

  /** The memory after one tick started from `m`. */
  function TickMemory(m: MemoryTree, w: TickInput): MemoryTree
    requires m.towers.Some? ==> Military.Enumerates(w.towerOrder, m.towers.value)
  {
    HousekeepingMemory(UnitsMemory(m, w), w)
  }

  class Bot {
    /** The scalar entries of the memory root; `id` numbers new creeps. */
    var root: map<string, Value>
    /** The creep directory: each creep's memory, by name. */
    var creeps: map<string, map<string, Value>>
    /** The harvest task's `counter` as stored at the end of last tick. */
    var counter: map<Id, Value>
    /** The harvest task's `prev_counter`: last tick's counts plus this tick's new assignments. */
    var prevCounter: map<Id, Value>
    /** The harvest task's `creep_limits`. */
    var creepLimits: map<Id, Value>
    /** The source each creep's task memory caches, by creep name. */
    var sourceCache: map<string, Value>
    /** The tower handler's `towers` dictionary. */
    var towers: Option<map<Id, Military.TowerEntry>>

    function Memory(): MemoryTree
      reads this
    {
      MemoryTree(root, creeps, counter, prevCounter, creepLimits, sourceCache, towers)
    }

    constructor (m: MemoryTree)
      ensures Memory() == m
    {
      root, creeps, counter, prevCounter := m.root, m.creeps, m.counter, m.prevCounter;
      creepLimits, sourceCache, towers := m.creepLimits, m.sourceCache, m.towers;
    }

    /** `next_id`: the stored id, 0 when absent or not an integer. */
    function NextId(): (r: int)
      reads this
      ensures "id" in root && root["id"].Int? ==> r == root["id"].i
      ensures !("id" in root && root["id"].Int?) ==> r == 0
    {
      IntOr(root, "id", 0)
    }

    /** `step_id`: store the next id plus one. */
    method StepId()
      modifies this
      ensures Memory() == old(Memory()).(root := old(root)["id" := Int(old(NextId()) + 1)])
      ensures NextId() == old(NextId()) + 1
    {
      root := root["id" := Int(NextId() + 1)];
    }

    /** The spawn block: nothing while there is no spawn or it is busy;
        otherwise try the ranked roles with the current id and step the id
        only when a creep was spawned. */
    method Spawn(spawn: SpawnState, census: seq<RoleEntry>, reply: Role -> ReturnCode)
      returns (attempts: seq<Attempt>, spawned: Option<Role>)
      modifies this
      ensures SpawnLog(spawn, census, reply, old(NextId()), attempts, spawned)
      ensures Memory() == old(Memory()).(root := if spawned.Some? then old(root)["id" := Int(old(NextId()) + 1)] else old(root))
    {
      attempts, spawned := [], None;
      if spawn == Idle {
        attempts, spawned := TrySpawn(Ranking(census), NextId(), reply);
        if spawned.Some? {
          StepId();
        }
      }
    }

    /** `clear_deceased`: delete the memory of every creep not alive. */
    method ClearDeceased(live: set<string>)
      modifies this
      ensures Memory() == old(Memory()).(creeps := Reaped(old(creeps), live))
    {
      var directory := creeps;
      var todo := directory.Keys;
      while todo != {}
        invariant todo <= directory.Keys <= old(creeps).Keys
        invariant forall k :: k in old(creeps) ==> (k in directory <==> k in todo || k in live)
        invariant forall k :: k in directory ==> directory[k] == old(creeps)[k]
        decreases todo
      {
        var name :| name in todo;
        if name !in live {
          directory := directory - {name};
        }
        todo := todo - {name};
      }
      creeps := directory;
    }

    /** One pass of the loop body: resolve the creep's role from its
        memory and run it; an unknown role is an error, and a creep that
        fails is added to `failures`. */
    method RunCreep(c: LiveCreep, live: map<Id, nat>, harvest: Harvest.TaskHarvest,
                    failures: seq<string>, actions: seq<Action>)
      returns (failures': seq<string>, actions': seq<Action>)
      modifies this, harvest
      ensures CreepPass(harvest.Snapshot(), creeps, failures', actions')
        == After(CreepPass(old(harvest.Snapshot()), old(creeps), failures, actions), c, live)
      ensures Memory() == old(Memory()).(creeps := creeps)
    {
      var mem := MemoryOf(creeps, c.view.name);
      var roleName := RoleString(mem);
      var result, acts;
      match RoleNamed(roleName) {
        case None =>
          result, acts := Err("unknown role " + roleName), [];
        case Some(role) =>
          var mem';
          result, mem', acts := RunRole(role, c.view, mem, c.taskMemoryOk, live, harvest);
          creeps := creeps[c.view.name := mem'];
      }
      failures' := failures + if result.Err? then [c.view.name] else [];
      actions' := actions + acts;
    }

    /** The loop over the creeps: run each creep's role against the shared
        harvest task, record the creeps that fail. */
    method RunCreeps(alive: seq<LiveCreep>, live: map<Id, nat>, harvest: Harvest.TaskHarvest)
      returns (failures: seq<string>, actions: seq<Action>)
      modifies this, harvest
      ensures CreepPass(harvest.Snapshot(), creeps, failures, actions)
        == CreepsSpec(old(harvest.Snapshot()), old(creeps), alive, live)
      ensures Memory() == old(Memory()).(creeps := creeps)
    {
      failures, actions := [], [];
      ghost var whole := CreepsSpec(harvest.Snapshot(), creeps, alive, live);
      assert alive[0..] == alive;
      for i := 0 to |alive|
        invariant Memory() == old(Memory()).(creeps := creeps)
        invariant CreepsFrom(CreepPass(harvest.Snapshot(), creeps, failures, actions), alive[i..], live) == whole
      {
        CreepsFromStep(CreepPass(harvest.Snapshot(), creeps, failures, actions), alive, i, live);
        failures, actions := RunCreep(alive[i], live, harvest, failures, actions);
      }
      assert alive[|alive|..] == [];
    }

    /** The military phase: the tower handler runs over the `towers`
        dictionary; its failure counts as one error. */
    method RunTowers(order: seq<Id>, sight: Military.Sight) returns (failed: bool, actions: seq<Action>)
      requires towers.Some? ==> Military.Enumerates(order, towers.value)
      modifies this
      ensures var tp := TowerPhase(old(towers), order, sight);
        && Memory() == old(Memory()).(towers := if old(towers).None? then None else Some(tp.towers))
        && actions == tp.actions && failed == tp.result.Err?
    {
      var tower := new Military.Tower(towers);
      var r;
      r, actions := tower.Run(order, sight);
      towers := tower.towers;
      failed := r.Err?;
    }

    /** The creep phase: the harvest task rolls last tick's counter over,
        every creep's role runs, and the task's counter, `prev_counter` and
        source cache are written back. */
    method RunCreepPhase(w: TickInput) returns (failures: seq<string>, actions: seq<Action>)
      modifies this
      ensures var cp := CreepPhase(old(Memory()), w);
        && Memory() == old(Memory()).(creeps := cp.creeps, counter := IntValues(cp.ledger.counter),
                                      prevCounter := IntValues(cp.ledger.prev), sourceCache := cp.ledger.cache)
        && failures == cp.failures && actions == cp.actions
    {
      var harvest := new Harvest.TaskHarvest(counter, creepLimits, sourceCache);
      failures, actions := RunCreeps(w.alive, w.sources, harvest);
      counter := IntValues(harvest.counter);
      prevCounter := IntValues(harvest.prevCounter);
      sourceCache := harvest.sourceOf;
    }

    /** The first half of the tick: the towers, then the creeps. */
    method RunUnits(w: TickInput) returns (errors: nat, towerActions: seq<Action>, creepActions: seq<Action>)
      requires towers.Some? ==> Military.Enumerates(w.towerOrder, towers.value)
      modifies this
      ensures Memory() == UnitsMemory(old(Memory()), w)
      ensures towerActions == TowerPhase(old(towers), w.towerOrder, w.sight).actions
      ensures creepActions == CreepPhase(old(Memory()), w).actions
      ensures errors == TickErrors(old(Memory()), w)
    {
      ghost var m := Memory();
      var towerFailed;
      towerFailed, towerActions := RunTowers(w.towerOrder, w.sight);
      assert CreepPhase(Memory(), w) == CreepPhase(m, w);
      var failures;
      failures, creepActions := RunCreepPhase(w);
      errors := (if towerFailed then 1 else 0) + |failures|;
    }

    /** `clear_deceased`, on the ticks whose number is 3 modulo 50. */
    method ReapOnSchedule(time: nat, live: set<string>)
      modifies this
      ensures Memory() == old(Memory()).(
        creeps := if time % ReapPeriod == 3 then Reaped(old(creeps), live) else old(creeps))
    {
      if time % ReapPeriod == 3 {
        ClearDeceased(live);
      }
    }

    /** The second half of the tick: the spawn, the flag commands and, on
        schedule, the clean-up of dead creeps' memory. */
    method Housekeeping(w: TickInput) returns (attempts: seq<Attempt>, spawned: Option<Role>, flags: Option<FlagReport>)
      modifies this
      ensures spawned.Some? <==> Spawns(w.spawn, w.census, w.spawnReply)
      ensures SpawnLog(w.spawn, w.census, w.spawnReply, old(NextId()), attempts, spawned)
      ensures flags == FlagPass(w.flags, w.roleFlag)
      ensures Memory() == HousekeepingMemory(old(Memory()), w)
    {
      ghost var m := Memory();
      attempts, spawned := Spawn(w.spawn, w.census, w.spawnReply);
      assert Memory() == m.(root := HousekeepingMemory(m, w).root);
      flags := RunFlags(w.flags, w.roleFlag);
      ReapOnSchedule(w.time, Names(w.alive));
    }

    /** `game_loop`: one tick, phase by phase. */
    method GameLoop(w: TickInput) returns (rep: TickReport)
      requires towers.Some? ==> Military.Enumerates(w.towerOrder, towers.value)
      modifies this
      ensures Memory() == TickMemory(old(Memory()), w)
      ensures rep.errors == TickErrors(old(Memory()), w)
      ensures rep.notified <==> rep.errors > ErrorThreshold
      ensures rep.spawned.Some? <==> Spawns(w.spawn, w.census, w.spawnReply)
      ensures SpawnLog(w.spawn, w.census, w.spawnReply, IntOr(old(root), "id", 0), rep.attempts, rep.spawned)
      ensures rep.towerActions == TowerPhase(old(towers), w.towerOrder, w.sight).actions
      ensures rep.creepActions == CreepPhase(old(Memory()), w).actions
      ensures rep.flags == FlagPass(w.flags, w.roleFlag)
    {
      var errors, towerActions, creepActions := RunUnits(w);
      var attempts, spawned, flags := Housekeeping(w);
      rep := TickReport(errors, errors > ErrorThreshold, towerActions, creepActions, attempts, spawned, flags);
    }
  }
}
