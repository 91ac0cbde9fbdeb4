# screeps-rs tick core, modelled in Dafny

This project models the per-tick decision core of the screeps-rs bot. The bot
is a Rust program that the game Screeps runs once per tick. The model covers
five parts:

- **The harvest task and its source allocator** (`harvest.dfy`, module
  `Harvest`). The class `TaskHarvest` keeps the memory dictionaries
  `counter`, `prev_counter` and `creep_limits`, plus each creep's cached
  `source`. At construction, last tick's `counter` is rolled over into
  `prev_counter` and `counter` is zeroed. `Run` keeps a cached source that
  still has energy. Otherwise it picks `candidates[id % len]` among the
  sources that have energy and are below their limit, reserves that source in
  `prev_counter`, and counts every held source in `counter`. The value
  datatype `Ledger` and the function `HarvestStep` specify `Run`. Lemmas over
  whole ticks prove that `counter` counts exactly the creeps that held a
  source, and that reservations never overbook a source. The no-overbooking
  bound is proved both for a run of harvest turns (`Tick`) and for the
  ledger the game loop's creep pass produces
  (`GameLoop.CreepPhaseNeverOverbooks`).
- **The role engine** (`roles.dfy`, module `Roles`). The builder, harvester
  and upgrader roles form one closed datatype `Role` that shares one engine.
  The engine has three parts: the hysteresis flag `harvesting`, the write of
  that flag to creep memory, and the ordered fallback chain over
  `Result<bool>` tasks. An error aborts the chain, the first `Ok(true)` ends
  it, and when every task is `Ok(false)` the role fails with "all of the
  tasks failed to run".
- **The three simple tasks** (`task_refill.dfy`, `task_build.dfy`,
  `task_upgrade.dfy`). Each is a pure first-match selection that returns
  handled, not handled or an error, together with the actions it issues.
- **The tower handler** (`tower.dfy`, module `Military`). Each tower has two
  independent validate-or-recompute slots: the attack `target` and the repair
  `job`. The handler also deletes the ids of towers that no longer exist.
- **`game_loop`** (`spawn.dfy`, `flags.dfy`, `game_loop.dfy`). The spawn
  scheduler ranks roles below their limit by `(run_count + 1) *
  spawn_priority` with a stable sort, tries them in that order and steps the
  stored `id` only after a successful spawn. The flag-command pass routes each
  flag by the first whitespace token of its name. `clear_deceased` runs when
  `time % 50 == 3`. The error count sends a notification above 10. The class
  `Bot` holds the memory entries the tick reads and writes: the root scalars,
  the creep directory, the harvest task's `counter`, `prev_counter`,
  `creep_limits` and per-creep source cache, and the `towers` dictionary.
  `Bot.GameLoop` runs
  one whole tick against the specification function `TickMemory`.

The game's world queries are inputs to the model:

- `find` results are sequences in find order.
- `get_object_typed` is a set or map of the ids that resolve this tick.
- `find_closest_by_range` is an optional id.
- Action replies are `ReturnCode` values.
- The spawn replies and the roles' flag handlers are functions.

The actions the bot issues (harvest, transfer, build, upgrade, move, attack,
repair) are collected in a trace rather than carried out. The persistent
`Memory` tree is modelled as maps of `Value`. An integer read
(`i32(..).unwrap_or(None).unwrap_or(d)`) yields `d` for a missing entry or a
non-integer one. A string read (`string(..)`) fails on a non-string entry. A
boolean read (`bool(..)`) uses JavaScript truthiness.

Some behaviour of screeps-rs is worth stating plainly:

- `game_loop` reads each role's `run_count` (src/main.rs:156, 159). Neither
  src/main.rs nor src/roles/*.rs increments it, and the role type that
  defines it is not part of this model, so the model takes each role's
  `run_count` as an input.
- The harvest task caches no source positions. It harvests the source, or
  moves to it when the game answers `NotInRange`.
- `TaskBuild` works on `sites.get(0)`, the first listed construction site.
  Its doc comment says "closest", but the code does not pick by distance.
- The tower's repair job is the first damaged structure in find order. It is
  neither the most damaged nor the closest one.

## Model

| member | source | states |
|---|---|---|
| `Common.Bump` | src/tasks/harvest.rs:45-55 | raises one counter entry by exactly 1 (a missing entry counts as 0) and leaves every other key as it was |
| `Harvest.RollOver` | src/tasks/harvest.rs:37-40 | the roll-over loop: `prev` has exactly the keys of the stored `counter`, each with its old value (0 when unreadable), and every `counter` entry is 0 |
| `Harvest.Opening` | src/tasks/harvest.rs:32-40 | the ledger a tick starts with: `prev` is last tick's `counter` key for key, and `counter` is all zeros with the same keys |
| `Harvest.TaskHarvest.constructor` | src/tasks/harvest.rs:24-43 | `TaskHarvest::new` leaves `prev_counter` equal to the old `counter` (0 when unreadable) and every `counter` entry at 0; limits and caches are untouched |
| `Harvest.TaskHarvest.AddToCounter` | src/tasks/harvest.rs:45-49 | `counter` of the id rises by exactly 1; nothing else changes |
| `Harvest.TaskHarvest.AddToPrevCounter` | src/tasks/harvest.rs:51-55 | `prev_counter` of the id rises by exactly 1; nothing else changes |
| `Harvest.TaskHarvest.GetCounter` | src/tasks/harvest.rs:57-63 | the `prev_counter` entry, 0 when the id has none |
| `Harvest.TaskHarvest.GetLimit` | src/tasks/harvest.rs:65-71 | the `creep_limits` entry when it is an integer, otherwise the default limit 4 |
| `Harvest.Candidates` | src/tasks/harvest.rs:99-102 | a source is a candidate exactly when it is in the room, has energy and its `prev_counter` is below its limit; the candidates keep their find order (a subsequence of the room's sources) |
| `Harvest.Choose` | src/tasks/harvest.rs:78-117 | the creep keeps its source exactly when the cached one resolves with energy; otherwise it finds none exactly when there are no candidates, and else it gets `candidates[id % len]` with its memory `id` (0 when unset) |
| `Harvest.TaskHarvest.Retain` | src/tasks/harvest.rs:98-102 | the `retain` loop keeps exactly the candidates, in find order |
| `Harvest.TaskHarvest.Run` | src/tasks/harvest.rs:75-131 | the new counters, limits, cached sources, result and actions are those of the specification `HarvestStep` on the old state |
| `Harvest.StickyAssignment` | src/tasks/harvest.rs:78-94 | a cached source that resolves with energy is kept without checking the limit; `prev` and the cache are unchanged, `counter` rises by 1, and the result is `Ok(true)` |
| `Harvest.NewAssignmentAdmitted` | src/tasks/harvest.rs:104-116 | a new source has energy and was below its limit; it is cached for the creep; its `prev` rises by 1 to at most the limit and its `counter` by 1; the result is `Ok(true)` with a harvest (and a move when out of range) |
| `Harvest.NoSourceExactly` | src/tasks/harvest.rs:96-105 | no source is held exactly when the cache is dead and no source of the room is admitted; then the result is `Ok(false)` and no counter changes |
| `Harvest.PickDependsOnCandidates` | src/tasks/harvest.rs:106-110 | the pick depends only on the candidate sequence and the creep's id (`candidates[id % len]`) |
| `Harvest.StepNeverOverbooks` | src/tasks/harvest.rs:99-113 | one creep's turn never lifts a source's `prev` above both its former value and its limit |
| `Harvest.TickNeverOverbooks` | src/tasks/harvest.rs:99-113 | over any number of creeps in a tick, reservations never push `prev` above the limit unless it was already above it |
| `Harvest.TickCountsHolders` | src/tasks/harvest.rs:122-123 | at the end of a tick, `counter` of each source has grown by exactly the number of creeps that held it, sticky or new |
| `Harvest.OneSlotTwoCreeps` | src/tasks/harvest.rs:99-113 | with one source of limit 1, the first creep reserves it (`prev` 0 to 1) and the second gets `Ok(false)` with nothing changed |
| `Build.Run` | src/tasks/build.rs:20-32 | handled exactly when the room has a construction site; the first listed site is built; a move is added only on `NotInRange` |
| `Refill.Run` | src/tasks/refill.rs:20-37 | handled exactly when some structure can store energy and is not full; the target is the first such structure in find order; a move is added only on `NotInRange` |
| `Upgrade.Run` | src/tasks/upgrade.rs:28-36 | an error exactly when the room has no controller; otherwise always `Ok(true)`, never `Ok(false)`; a move is added only on `NotInRange` |
| `Roles.RoleNamed` | src/main.rs:117-128 | the role table resolves exactly the names `builder`, `harvester` and `upgrader`, each to the role of that name |
| `Roles.Chain` | src/roles/harvester.rs:55-58 | the fallback orders: harvester refill then build, builder build then refill, upgrader upgrade only; every chain ends with upgrade and names no task twice |
| `Roles.Harvesting` | src/roles/harvester.rs:43-47 | energy 0 forces harvesting, energy at or above capacity forces working, and anything in between keeps the stored flag |
| `Roles.FlagFlipsOnlyAtBounds` | src/roles/builder.rs:42-46 | over any run of ticks, a harvesting creep keeps harvesting until it is full and a working creep keeps working until it is empty |
| `Roles.RunChain` | src/roles/harvester.rs:55-61 | tasks run in order; every task run before the last one declined; the first `Ok(true)` ends the chain with success; an error ends it with that error; all `Ok(false)` gives "all of the tasks failed to run" |
| `Roles.RunRole` | src/roles/harvester.rs:42-63 | the role's result, the new creep memory, the harvest task's new state and the actions are those of the specification `RoleStep` |
| `Roles.FlagPersisted` | src/roles/harvester.rs:49 | the computed flag is written to creep memory on every run, and no other memory entry changes |
| `Roles.HarvestModeResult` | src/roles/harvester.rs:51-53 | in harvesting mode only harvest runs; the role fails exactly when harvest errs, so `Ok(false)` still succeeds |
| `Roles.WorkModeResult` | src/roles/builder.rs:54-60 | in working mode the harvest task's state is untouched and the role's result is its chain's result |
| `Roles.HarvesterRefillsFirst` | src/roles/harvester.rs:55-58 | a harvester that can refill does only that; build and upgrade do not run |
| `Roles.BuilderBuildsFirst` | src/roles/builder.rs:54-57 | a builder with a construction site only builds |
| `Roles.WorkersNeverExhaustChain` | src/roles/upgrader.rs:48-52 | no chain ends in "all of the tasks failed", because each ends with upgrade; a working creep fails only with "there is no controller" |
| `Military.GetTarget` | src/military/tower.rs:30-33 | a cached target is kept exactly when the stored id resolves to a creep |
| `Military.NewTarget` | src/military/tower.rs:35-38 | the new target is the hostile creep closest to the tower, none exactly when there is no hostile |
| `Military.GetJob` | src/military/tower.rs:40-44 | a cached job is kept exactly when the stored id resolves to a structure with `hits < hits_max`; structures without hit points never qualify |
| `Military.FirstDamaged` | src/military/tower.rs:46-55 | the first structure in find order with `hits < hits_max`, or none exactly when no structure is damaged; structures without hit points never qualify |
| `Military.NewJob` | src/military/tower.rs:46-55 | the linear search with early return yields exactly `FirstDamaged` |
| `Military.TowerStep` | src/military/tower.rs:73-89 | a resolving cached target is kept, otherwise the target is the closest hostile (or none); a still-damaged cached job is kept, otherwise the job is `FirstDamaged` of the room (or none); each slot is stored exactly when it has a value; attack and repair may both be issued in one tick |
| `Military.RunTower` | src/military/tower.rs:73-89 | `run_tower` always returns `Ok` and writes or deletes each slot as `TowerStep` says |
| `Military.Tower.constructor` | src/military/tower.rs:24-28 | the handler starts with the given `towers` dictionary |
| `Military.Tower.Run` | src/military/tower.rs:57-71 | fails when `towers` is not a dictionary; otherwise visits each key once and leaves the dictionary, result and actions of `RunSpec` |
| `Military.PassEffect` | src/military/tower.rs:60-67 | after a successful pass a visited key survives exactly when its tower exists, with its own step's slots; unvisited keys are untouched |
| `Military.SuccessfulPassPrunes` | src/military/tower.rs:60-67 | after a successful pass the kept towers are exactly the stored ones that still exist |
| `Military.PassFailsOnlyOnBadEntry` | src/military/tower.rs:61-63 | a pass fails exactly when some existing tower's entry is not a dictionary |
| `Military.HealedJobReplaced` | src/military/tower.rs:81-86 | a cached job repaired to full is dropped for the first damaged structure of the room (never the healed one), or cleared |
| `Spawning.Eligible` | src/main.rs:154-164 | exactly the roles with `run_count < limit`, each with priority `(run_count + 1) * spawn_priority` |
| `Spawning.Insert` | src/main.rs:166 | inserting into a sorted ranking keeps it sorted and adds exactly the one role |
| `Spawning.SortByPriority` | src/main.rs:166 | the result is sorted ascending by priority and is a permutation of its input |
| `Spawning.SortKeepsTies` | src/main.rs:166 | the sort is stable: the roles of any one priority come out in the order they went in |
| `Spawning.Ranking` | src/main.rs:154-166 | the order in which roles are tried is ascending by priority |
| `Spawning.OnlyRolesBelowLimit` | src/main.rs:155-163 | every role tried is below its limit and carries its census priority |
| `Spawning.EveryRoleBelowLimitRanked` | src/main.rs:154-166 | every role below its limit is in the ranking |
| `Spawning.MakeMem` | src/main.rs:146-151 | a new creep's memory holds exactly its role name and its id |
| `Spawning.TrySpawn` | src/main.rs:168-178 | roles are tried in order with the same id; every attempt but the last was refused; a creep is spawned exactly when some ranked role is accepted, and it is the first accepted one; otherwise all roles were tried |
| `Spawning.PriorityExample` | src/main.rs:159-166 | a role at 3/5 with weight 10 ranks at 40 and one at 0/2 with weight 20 at 20, so the second is tried first; a role at its limit is not ranked |
| `Flags.TrimStart` | src/main.rs:189 | drops exactly the leading whitespace of a flag name |
| `Flags.Word` | src/main.rs:189 | the longest whitespace-free prefix |
| `Flags.FirstToken` | src/main.rs:189-192 | no token exactly when the name is all whitespace; otherwise a non-empty, whitespace-free word |
| `Flags.FirstTokenOf` | src/main.rs:189-192 | a word with only whitespace before it and whitespace (or nothing) after it is the name's first token |
| `Flags.DispatchTable` | src/main.rs:194-203 | a role name goes to that role; `ok` and `err` are `Ok(true)`; `error` is an error naming the flag; any other word is `Ok(false)` |
| `Flags.RouteByFirstWord` | src/main.rs:189-203 | a flag is dispatched on its first word, whatever whitespace surrounds it |
| `Flags.BlankFlagSkipped` | src/main.rs:192 | a flag whose name has no word is skipped |
| `Flags.Removed` | src/main.rs:206-207 | the flags removed are exactly the handled ones |
| `Flags.Errors` | src/main.rs:206-209 | no error is collected exactly when no flag failed |
| `Flags.ProcessFlags` | src/main.rs:187-211 | the loop removes exactly the handled flags and collects one error per failing flag, in order, without stopping at a failure |
| `Flags.FlagPassOutcome` | src/main.rs:213-233 | the pass runs exactly when `done` exists, and the marker is `ok` exactly when no flag failed (otherwise `err`) |
| `Flags.DoneRemovedLast` | src/main.rs:221-222 | `done` is not removed as a command; it is removed once, after all others |
| `Flags.DoneIsNoCommand` | src/main.rs:192-202 | the word `done` names no role and no marker, so the `done` flag itself is left alone by the loop |
| `GameLoop.RoleString` | src/main.rs:127 | a creep's role is its `role` string, `error` when that entry is not a string, `missing` when it is absent |
| `GameLoop.CreepTurn` | src/main.rs:127-129 | a creep whose role names no role fails with "unknown role" and changes nothing; no other creep's memory changes |
| `GameLoop.CreepsFrom` | src/main.rs:126-133 | each creep adds at most one failure, and earlier failures are kept in order |
| `GameLoop.FailuresAreLive` | src/main.rs:126-133 | only live creeps are recorded as failures |
| `GameLoop.CreepsLeaveOthers` | src/main.rs:126-133 | the memory of a creep that is not alive is not touched by the creep loop |
| `GameLoop.MemorylessCreepsFail` | src/main.rs:127-132 | creeps without memory each fail, in order, and nothing is written for them |
| `GameLoop.TurnNeverOverbooks` | src/main.rs:126-129 | one creep's turn, in any role and mode, never lifts a source's `prev_counter` above both its former value and its limit |
| `GameLoop.CreepsNeverOverbook` | src/main.rs:126-133 | the whole creep loop never lifts a source's `prev_counter` above both its starting value and its limit |
| `GameLoop.CreepPhaseNeverOverbooks` | src/tasks/harvest.rs:99-113 | within a tick, new assignments never push a source's `prev_counter` above its limit unless last tick's `counter` already was above it |
| `GameLoop.Reaped` | src/main.rs:251-258 | exactly the entries of live creeps survive, unchanged |
| `GameLoop.RunFlags` | src/main.rs:183-234 | the flag block yields `FlagPass` |
| `GameLoop.Bot.NextId` | src/main.rs:137-140 | the stored id when it is an integer, 0 otherwise |
| `GameLoop.Bot.StepId` | src/main.rs:142-144 | the stored id becomes the old next id plus 1; nothing else changes |
| `GameLoop.Bot.Spawn` | src/main.rs:136-180 | no attempt unless the spawn exists and is idle; otherwise the ranked roles are tried in order with the pre-increment id and their `make_mem` memory; every attempt but the last was refused; the spawned role is the first accepted one; all roles are tried when none is accepted; the id rises by exactly 1 exactly when a creep was spawned |
| `GameLoop.Bot.ClearDeceased` | src/main.rs:251-258 | the delete loop leaves exactly the live creeps' memory |
| `GameLoop.Bot.RunCreep` | src/main.rs:126-133 | one loop body: the role runs and its failure is recorded, as `After` says |
| `GameLoop.Bot.RunCreeps` | src/main.rs:126-133 | the creep loop's result is `CreepsSpec` over the live creeps in order |
| `GameLoop.Bot.RunTowers` | src/main.rs:85-93 | the tower pass updates `towers` and counts one error when it fails |
| `GameLoop.Bot.RunCreepPhase` | src/main.rs:97-133 | the harvest task rolls its counter over into a fresh `prev_counter` and zeroes it, every creep runs, and `counter`, `prev_counter` (last tick's counts plus this tick's new assignments) and the source cache are written back |
| `GameLoop.Bot.RunUnits` | src/main.rs:84-133 | towers then creeps; the error count is one per failed tower pass plus one per failed creep |
| `GameLoop.Bot.ReapOnSchedule` | src/main.rs:236-237 | the memory of dead creeps is reaped exactly on ticks with `time % 50 == 3` |
| `GameLoop.Bot.Housekeeping` | src/main.rs:135-237 | the spawn (with the attempts and spawned role as in `Bot.Spawn`), the flag pass and the scheduled reaping, in that order |
| `GameLoop.Bot.GameLoop` | src/main.rs:81-249 | one tick leaves the memory `TickMemory` says; its spawn attempts follow the ranking with the stored id; a notification is sent exactly when more than 10 errors were counted |

## Left out

- The JavaScript bootstrap, the exception handler and the VM reset in `main` (src/main.rs:53-79) are host plumbing. So are logging and the log and HTML strings. The failed-flag report builds its list with a doubled `<ul>` prefix (src/main.rs:215); the model keeps the error messages but not that text.
- The census report on reaping ticks (src/main.rs:239-242) is only a log line.
- The game's world calls (`find`, `get_object_typed`, `find_closest_by_range`, `move_to`, `harvest`, `transfer_all`, `build`, `upgrade_controller`, `attack`, `repair`, `spawn_creep_with_options`, `create_flag`, `notify`) are not modelled. Their answers are inputs and their calls are recorded in an action trace. Effects of the game itself, such as the game writing a spawned creep's memory, are not modelled.
- `Role::flag`, `Role::next_creep` and `Task::creep_memory` are declared outside the modelled files, and the model takes their results as inputs. A role's flag handler is an input function. A creep's body is not modelled. Whether the task memory can be opened is a boolean input.
- `GameLoop.Bot.ClearDeceased`: the per-creep source cache (`sourceCache`) is kept apart from the creep directory, because where `Task::creep_memory` stores it is not part of this model. Clearing a dead creep's memory therefore never removes its cached source in the model. A new creep that reuses a dead creep's name would therefore keep the old cached source while that source resolves with energy, where screeps-rs may start it with no cache.
- `run_count`, `limit` and `spawn_priority` are read from the role table, which is an input to the model.
- A failure of `dict_or_create` for the `tasks`, `roles`, `military` and `creeps` roots panics in the source (`unwrap`/`expect`). The model assumes those roots exist. It does model the failure of the `towers` dictionary and of a tower's own dictionary (src/military/tower.rs:58, 62). A failure of the `counter`/`prev_counter`/`creep_limits` dictionaries inside the harvest task is not modelled. `new()` creates `counter` and `prev_counter`; `creep_limits` is created lazily, empty, by `get_limit` (src/tasks/harvest.rs:66), and the model reads an absent `creep_limits` like an empty one, so every source gets the default limit 4 either way.
- `Harvest.TaskHarvest.AddToCounter`: does not model 32-bit wrap-around of `1 + i32`, because a counter grows by at most one per creep per tick and never reaches 2^31.
- `Harvest.TaskHarvest.AddToPrevCounter`: does not model 32-bit wrap-around of `1 + i32` (src/tasks/harvest.rs:53), for the same reason: `prev_counter` is rebuilt every tick and grows by at most one per creep.
- `GameLoop.Bot.StepId`: does not model 32-bit wrap-around of the creep id `id + 1` (src/main.rs:143), because the id grows by one per spawned creep and never reaches 2^31.
- `Common.IntOr`: reads any stored integer, without the range check of `i32` reads; in the source an integer outside the `i32` range reads as the default. Every integer the bot stores is written by the bot itself and stays far below 2^31.
- `Spawning.Eligible`: computes the priority `(run_count + 1) * spawn_priority` on unbounded integers, without the `i32` overflow, because the census and weights are small.
- `Harvest.AsUsize`: `id as usize` is modelled for the 32-bit target the bot is compiled for (a negative id becomes its two's complement). An id read from memory is not range-checked to `i32`.
- The iteration orders of the role `HashMap`, of the `towers` keys and of the creep directory are inputs (`census`, `towerOrder`) or free choices in a loop. Ties between roles of equal priority keep the role table's order, as the stable sort does.
