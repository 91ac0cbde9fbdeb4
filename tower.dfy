/** The tower handler. Every tower listed in memory under `towers` keeps
    two cached slots: an attack `target` and a repair `job`. Each tick a
    slot is reused while it is still valid and recomputed otherwise, then
    written back or deleted; towers that no longer exist are dropped. */
module Military {
  import opened Common
  import opened World

  const TowersNotADict := "towers is not a dictionary"
  const TowerNotADict := "tower memory is not a dictionary"

  /** The `target` and `job` entries of one tower's dictionary. An entry
      that is not a string reads like an absent one. */
  datatype TowerMemory = TowerMemory(target: Option<Id>, job: Option<Id>)

  /** An entry of `towers`: a tower's dictionary, or a value that is not
      a dictionary (on which `dict_or_create` fails). */
  datatype TowerEntry = Slots(mem: TowerMemory) | NotADict

  /** What a tower's room offers: the hostile creep closest to the tower
      (`find_closest_by_range`), and the room's structures in find order. */
  datatype TowerView = TowerView(closestHostile: Option<Id>, roomStructures: seq<Structure>)

  /** What `get_object_typed` resolves this tick: the towers, with their
      rooms, and every visible creep and structure. */
  datatype Sight = Sight(towers: map<Id, TowerView>, creeps: set<Id>, structures: map<Id, Structure>)

  /** A structure with hit points below their maximum. A structure without
      hit points never qualifies. */
  predicate Damaged(s: Structure)
  {
    s.hits.Some? && s.hits.value.hits < s.hits.value.hitsMax
  }

  /** `get_target`: the cached target, while it still resolves to a creep. */
  function GetTarget(mem: TowerMemory, sight: Sight): (r: Option<Id>)
    ensures r.Some? <==> mem.target.Some? && mem.target.value in sight.creeps
    ensures r.Some? ==> r == mem.target
  {
    if mem.target.Some? && mem.target.value in sight.creeps then mem.target else None
  }

  /** `new_target`: the closest hostile creep, if any. */
  function NewTarget(view: TowerView): (r: Option<Id>)
    ensures r.None? <==> view.closestHostile.None?
    ensures r.Some? ==> r.value == view.closestHostile.value
  {
    view.closestHostile
  }

  /** `get_job`: the cached job, while it resolves to a damaged structure. */
  function GetJob(mem: TowerMemory, sight: Sight): (r: Option<Id>)
    ensures r.Some? <==>
      mem.job.Some? && mem.job.value in sight.structures && Damaged(sight.structures[mem.job.value])
    ensures r.Some? ==> r == mem.job
  {
    if mem.job.Some? && mem.job.value in sight.structures && Damaged(sight.structures[mem.job.value])
    then mem.job else None
  }

  /** The first damaged structure in find order: neither the most damaged
      nor the closest one. */
  function FirstDamaged(ss: seq<Structure>): (r: Option<Id>)
    ensures r.None? <==> forall i :: 0 <= i < |ss| ==> !Damaged(ss[i])
    ensures r.Some? ==> exists i :: (0 <= i < |ss| && ss[i].id == r.value && Damaged(ss[i])
      && forall j :: 0 <= j < i ==> !Damaged(ss[j]))
  {
    match FirstWhere(ss, Damaged)
    case None => None
    case Some(i) => Some(ss[i].id)
  }

  /** `new_job`: scan the room's structures and stop at the first damaged one. */
  method NewJob(ss: seq<Structure>) returns (r: Option<Id>)
    ensures r == FirstDamaged(ss)
  {
    var i := 0;
    while i < |ss|
      invariant 0 <= i <= |ss|
      invariant forall j :: 0 <= j < i ==> !Damaged(ss[j])
    {
      if Damaged(ss[i]) {
        ghost var k := FirstWhere(ss, Damaged);
        assert k.Some? && k.value == i;
        return Some(ss[i].id);
      }
      i := i + 1;
    }
    return None;
  }

  /** One tower's tick on values: the slots afterwards and the actions.
      A slot holds a value exactly when a target (job) exists this tick,
      a still-valid cached one is kept, and both actions may be issued. */
  function TowerStep(id: Id, mem: TowerMemory, view: TowerView, sight: Sight): (r: (TowerMemory, seq<Action>))
    ensures r.0.target.Some? <==> GetTarget(mem, sight).Some? || view.closestHostile.Some?
    ensures GetTarget(mem, sight).Some? ==> r.0.target == mem.target
    ensures GetTarget(mem, sight).None? ==> r.0.target == view.closestHostile
    ensures r.0.job.Some? <==>
      GetJob(mem, sight).Some? || exists i :: 0 <= i < |view.roomStructures| && Damaged(view.roomStructures[i])
    ensures GetJob(mem, sight).Some? ==> r.0.job == mem.job
    ensures GetJob(mem, sight).None? ==> r.0.job == FirstDamaged(view.roomStructures)
    ensures r.1 == (if r.0.target.Some? then [Attack(id, r.0.target.value)] else [])
                 + (if r.0.job.Some? then [Repair(id, r.0.job.value)] else [])
  {
    var target := if GetTarget(mem, sight).Some? then GetTarget(mem, sight) else NewTarget(view);
    var job := if GetJob(mem, sight).Some? then GetJob(mem, sight) else FirstDamaged(view.roomStructures);
    (TowerMemory(target, job),
     (if target.Some? then [Attack(id, target.value)] else [])
       + (if job.Some? then [Repair(id, job.value)] else []))
  }

  /** `run_tower`: set or delete each slot and issue the actions. It never fails. */
  method RunTower(id: Id, mem: TowerMemory, view: TowerView, sight: Sight)
    returns (r: Result<()>, mem': TowerMemory, actions: seq<Action>)
    ensures r == Ok(())
    ensures (mem', actions) == TowerStep(id, mem, view, sight)
  {
    mem', actions := mem, [];
    var target := GetTarget(mem, sight);
    if target.None? {
      target := NewTarget(view);
    }
    if target.Some? {
      mem' := mem'.(target := target);
      actions := actions + [Attack(id, target.value)];
    } else {
      mem' := mem'.(target := None);
    }
    assert actions == if target.Some? then [Attack(id, target.value)] else [];
    var job := GetJob(mem, sight);
    if job.None? {
      job := NewJob(view.roomStructures);
    }
    if job.Some? {
      mem' := mem'.(job := job);
      actions := actions + [Repair(id, job.value)];
    } else {
      mem' := mem'.(job := None);
    }
    ghost var spec := TowerStep(id, mem, view, sight);
    assert target == spec.0.target;
    assert job == spec.0.job;
    assert mem' == spec.0;
    assert actions == spec.1;
    r := Ok(());
  }

  /** `order` lists each key of `m` exactly once: the order in which the
      store enumerates the keys of `towers`. */
  predicate Enumerates(order: seq<Id>, m: map<Id, TowerEntry>)
  {
    && (forall i :: 0 <= i < |order| ==> order[i] in m)
    && (forall k :: k in m ==> k in order)
    && (forall i, j :: 0 <= i < j < |order| ==> order[i] != order[j])
  }

  /** The outcome of a pass over the towers. */
  datatype Pass = Pass(result: Result<()>, towers: map<Id, TowerEntry>, actions: seq<Action>)

  /** `Tower::run` on values, over the keys still to visit: a tower that
      resolves has its slots updated, one that does not is deleted, and a
      live tower whose entry is not a dictionary stops the pass with an
      error, leaving the entries visited so far as they were written. */
  function RunSpec(order: seq<Id>, m: map<Id, TowerEntry>, sight: Sight): Pass
    requires forall i :: 0 <= i < |order| ==> order[i] in m
    requires forall i, j :: 0 <= i < j < |order| ==> order[i] != order[j]
    decreases |order|
  {
    if |order| == 0 then Pass(Ok(()), m, [])
    else
      var id := order[0];
      if id in sight.towers then
        match m[id]
        case NotADict => Pass(Err(TowerNotADict), m, [])
        case Slots(mem) =>
          var (mem', acts) := TowerStep(id, mem, sight.towers[id], sight);
          var rest := RunSpec(order[1..], m[id := Slots(mem')], sight);
          Pass(rest.result, rest.towers, acts + rest.actions)
      else
        RunSpec(order[1..], m - {id}, sight)
  }

  class Tower {
    /** The `towers` dictionary; `None` when that entry holds something
        that is not a dictionary. */
    var towers: Option<map<Id, TowerEntry>>

    /** `Tower::new` */
    constructor (towers: Option<map<Id, TowerEntry>>)
      ensures this.towers == towers
    {
      this.towers := towers;
    }

    /** `Tower::run`: visit every tower key once, in the store's order. */
    method Run(order: seq<Id>, sight: Sight) returns (r: Result<()>, actions: seq<Action>)
      requires towers.Some? ==> Enumerates(order, towers.value)
      modifies this
      ensures old(towers).None? ==> r == Err(TowersNotADict) && towers == old(towers) && actions == []
      ensures old(towers).Some? ==>
        towers.Some? && Pass(r, towers.value, actions) == RunSpec(order, old(towers).value, sight)
    {
      if towers.None? {
        return Err(TowersNotADict), [];
      }
      actions := [];
      ghost var whole := RunSpec(order, towers.value, sight);
      var todo := order;
      while |todo| > 0
        invariant towers.Some?
        invariant forall j :: 0 <= j < |todo| ==> todo[j] in towers.value
        invariant forall a, b :: 0 <= a < b < |todo| ==> todo[a] != todo[b]
        invariant var rest := RunSpec(todo, towers.value, sight);
          whole == Pass(rest.result, rest.towers, actions + rest.actions)
      {
        var id := todo[0];
        if id in sight.towers {
          match towers.value[id]
          case NotADict =>
            return Err(TowerNotADict), actions;
          case Slots(mem) =>
            var _, mem', acts := RunTower(id, mem, sight.towers[id], sight);
            ghost var rest := RunSpec(todo[1..], towers.value[id := Slots(mem')], sight);
            assert actions + (acts + rest.actions) == actions + acts + rest.actions;
            towers := Some(towers.value[id := Slots(mem')]);
            actions := actions + acts;
        } else {
          towers := Some(towers.value - {id});
        }
        todo := todo[1..];
      }
      r := Ok(());
    }
  }

  /* ---------------------------------------------------------------------
     Properties of the tower handler
     --------------------------------------------------------------------- */

  /** What a successful pass does to one key `k`: a visited key survives
      exactly when its tower still exists, with the slots its own step
      computed; a key the pass does not visit is left as it was. */
  lemma {:induction false} PassEffect(order: seq<Id>, m: map<Id, TowerEntry>, sight: Sight, k: Id)
    requires forall i :: 0 <= i < |order| ==> order[i] in m
    requires forall i, j :: 0 <= i < j < |order| ==> order[i] != order[j]
    requires RunSpec(order, m, sight).result.Ok?
    ensures var p := RunSpec(order, m, sight);
      && (k !in order ==> (k in p.towers <==> k in m) && (k in m ==> p.towers[k] == m[k]))
      && (k in order ==> (k in p.towers <==> k in sight.towers))
      && (k in order && k in sight.towers ==>
            m[k].Slots? && p.towers[k] == Slots(TowerStep(k, m[k].mem, sight.towers[k], sight).0))
    decreases |order|
  {
    if |order| > 0 {
      var id := order[0];
      assert forall i :: 0 <= i < |order[1..]| ==> order[1..][i] != id;
      if id in sight.towers {
        var m1 := m[id := Slots(TowerStep(id, m[id].mem, sight.towers[id], sight).0)];
        PassEffect(order[1..], m1, sight, k);
      } else {
        PassEffect(order[1..], m - {id}, sight, k);
      }
    }
  }

  /** `Tower::run` prunes: after a successful pass the towers kept are
      exactly those that still exist, each with the slots its step
      computed from its previous slots. */
  lemma SuccessfulPassPrunes(order: seq<Id>, m: map<Id, TowerEntry>, sight: Sight)
    requires Enumerates(order, m)
    requires RunSpec(order, m, sight).result.Ok?
    ensures var p := RunSpec(order, m, sight);
      && p.towers.Keys == m.Keys * sight.towers.Keys
      && forall k :: k in p.towers ==>
           m[k].Slots? && p.towers[k] == Slots(TowerStep(k, m[k].mem, sight.towers[k], sight).0)
  {
    forall k
      ensures var p := RunSpec(order, m, sight);
        && (k in p.towers <==> k in m && k in sight.towers)
        && (k in p.towers ==>
             m[k].Slots? && p.towers[k] == Slots(TowerStep(k, m[k].mem, sight.towers[k], sight).0))
    {
      PassEffect(order, m, sight, k);
    }
  }

  /** A pass fails only on a live tower whose entry is not a dictionary. */
  lemma {:induction false} PassFailsOnlyOnBadEntry(order: seq<Id>, m: map<Id, TowerEntry>, sight: Sight)
    requires forall i :: 0 <= i < |order| ==> order[i] in m
    requires forall i, j :: 0 <= i < j < |order| ==> order[i] != order[j]
    ensures RunSpec(order, m, sight).result.Err? <==>
      exists i :: 0 <= i < |order| && order[i] in sight.towers && m[order[i]].NotADict?
    decreases |order|
  {
    if |order| > 0 {
      var id := order[0];
      assert forall i :: 0 <= i < |order[1..]| ==> order[1..][i] != id;
      if id in sight.towers && m[id].Slots? {
        var m1 := m[id := Slots(TowerStep(id, m[id].mem, sight.towers[id], sight).0)];
        PassFailsOnlyOnBadEntry(order[1..], m1, sight);
        assert forall i :: 1 <= i < |order| ==> m1[order[i]] == m[order[i]];
        assert forall i :: 1 <= i < |order| ==> order[i] == order[1..][i - 1];
      } else if id !in sight.towers {
        PassFailsOnlyOnBadEntry(order[1..], m - {id}, sight);
        assert forall i :: 1 <= i < |order| ==> order[i] == order[1..][i - 1];
      }
    }
  }

  /** A cached job whose structure has been repaired to full is dropped:
      the tower moves on to the first damaged structure of its room, which
      is never the healed one, or clears the slot. */
  lemma HealedJobReplaced(id: Id, mem: TowerMemory, view: TowerView, sight: Sight)
    requires mem.job.Some? && mem.job.value in sight.structures
    requires !Damaged(sight.structures[mem.job.value])
    // the room's structures are the ones the game resolves by id
    requires forall i :: 0 <= i < |view.roomStructures| ==>
      view.roomStructures[i].id in sight.structures
      && sight.structures[view.roomStructures[i].id] == view.roomStructures[i]
    ensures var job := TowerStep(id, mem, view, sight).0.job;
      && job == FirstDamaged(view.roomStructures)
      && job != mem.job
  {
    var job := FirstDamaged(view.roomStructures);
    if job.Some? {
      var i :| 0 <= i < |view.roomStructures| && view.roomStructures[i].id == job.value
        && Damaged(view.roomStructures[i]);
      assert sight.structures[job.value] == view.roomStructures[i];
    }
  }
}
