/** The harvest task and its source allocator.

    The task keeps three dictionaries in memory: `counter` (creeps holding
    each source this tick), `prev_counter` (last tick's `counter`, used for
    this tick's admission decisions, plus the reservations made so far this
    tick) and `creep_limits` (how many creeps a source admits, 4 when
    unset). Each creep's task memory caches the source it was given. */
module Harvest {
  import opened Common
  import opened World

  /** Admission limit of a source without an entry in `creep_limits`. */
  const DefaultLimit := 4

  const NoTaskMemory := "creep task memory is not available"

  /** `id as usize` on the 32-bit targets the bot is compiled for: a
      negative `i32` is reinterpreted as its two's complement. */
  function AsUsize(id: int): nat
  {
    id % 0x1_0000_0000
  }

  /** The admission limit of a source: its `creep_limits` entry, or 4. */
  function Limit(limits: map<Id, Value>, id: Id): int
  {
    IntOr(limits, id, DefaultLimit)
  }

  /** A source may take a new creep: it has energy, and fewer creeps are
      counted on it in `prev_counter` than its limit. */
  predicate Admitted(s: Source, prev: map<Id, int>, limits: map<Id, Value>)
  {
    s.energy > 0 && Count(prev, s.id) < Limit(limits, s.id)
  }

  /** The room's sources that `retain` keeps, in find order. */
  function Candidates(sources: seq<Source>, prev: map<Id, int>, limits: map<Id, Value>): (r: seq<Source>)
    ensures |r| <= |sources|
    ensures forall s :: s in r <==> s in sources && Admitted(s, prev, limits)
    ensures Subsequence(r, sources)
  {
    if |sources| == 0 then []
    else
      var last := sources[|sources| - 1];
      var init := sources[..|sources| - 1];
      assert forall s :: s in sources <==> s in init || s == last;
      var kept := Candidates(init, prev, limits);
      assert sources[..|sources| - 1] == init;
      if Admitted(last, prev, limits) then
        assert (kept + [last])[..|kept|] == kept;
        kept + [last]
      else
        kept
  }

  /** The candidates among one more source of the room. */
  lemma CandidatesExtend(sources: seq<Source>, i: nat, prev: map<Id, int>, limits: map<Id, Value>)
    requires i < |sources|
    ensures Candidates(sources[..i + 1], prev, limits)
      == Candidates(sources[..i], prev, limits) + (if Admitted(sources[i], prev, limits) then [sources[i]] else [])
  {
    assert sources[..i + 1][..i] == sources[..i];
  }

  /** The creep's cached source, when the cache holds a string id that
      still resolves to a source with energy left. */
  function Cached(cache: map<string, Value>, creep: string, live: map<Id, nat>): Option<Id>
  {
    match StrOf(cache, creep)
    case Some(id) => if id in live && live[id] != 0 then Some(id) else None
    case None => None
  }

  /** What the allocator does for one creep. */
  datatype Choice = Keep(source: Id) | Assign(source: Id) | NoSource

  /** The persistent state of the harvest task, as values. */
  datatype Ledger = Ledger(
    counter: map<Id, int>,
    prev: map<Id, int>,
    limits: map<Id, Value>,
    cache: map<string, Value>)

  /** The allocation decision: keep a live cached source, otherwise pick
      `candidates[id % len]` with the creep's memory `id` (0 when unset). */
  function Choose(l: Ledger, c: CreepView, creepMem: map<string, Value>, live: map<Id, nat>): (r: Choice)
    ensures r.Keep? <==> Cached(l.cache, c.name, live).Some?
    ensures r.Keep? ==> r.source == Cached(l.cache, c.name, live).value
    ensures r.NoSource? <==>
      Cached(l.cache, c.name, live).None? && |Candidates(c.room.sources, l.prev, l.limits)| == 0
    ensures r.Assign? ==>
      var cands := Candidates(c.room.sources, l.prev, l.limits);
      0 < |cands| && r.source == cands[AsUsize(IntOr(creepMem, "id", 0)) % |cands|].id
  {
    match Cached(l.cache, c.name, live)
    case Some(id) => Keep(id)
    case None =>
      var cands := Candidates(c.room.sources, l.prev, l.limits);
      if |cands| == 0 then NoSource
      else Assign(cands[AsUsize(IntOr(creepMem, "id", 0)) % |cands|].id)
  }

  /** The ledger after a decision: a new assignment is cached and reserved
      in `prev`; every held source is counted in `counter`. */
  function Apply(l: Ledger, creep: string, ch: Choice): Ledger
  {
    match ch
    case NoSource => l
    case Keep(s) => l.(counter := Bump(l.counter, s))
    case Assign(s) =>
      l.(counter := Bump(l.counter, s), prev := Bump(l.prev, s), cache := l.cache[creep := Str(s)])
  }

  /** `TaskHarvest::run` on values: the new ledger and the task's step. */
  function HarvestStep(l: Ledger, c: CreepView, creepMem: map<string, Value>,
                       memoryOk: bool, live: map<Id, nat>): (Ledger, Step)
  {
    if !memoryOk then (l, Step(Err(NoTaskMemory), []))
    else
      var ch := Choose(l, c, creepMem, live);
      match ch
      case NoSource => (l, Step(Ok(false), []))
      case Keep(s) => (Apply(l, c.name, ch), Step(Ok(true), ActOrApproach(HarvestFrom(s), s, c.replies.harvest)))
      case Assign(s) => (Apply(l, c.name, ch), Step(Ok(true), ActOrApproach(HarvestFrom(s), s, c.replies.harvest)))
  }

  /** `TaskHarvest::new`'s loop over last tick's `counter`: every key is
      copied into a fresh `prev_counter` (unreadable values as 0) and set
      to 0 in `counter`. */
  method RollOver(stored: map<Id, Value>) returns (prev: map<Id, int>, zeroed: map<Id, int>)
    ensures prev.Keys == stored.Keys && zeroed.Keys == stored.Keys
    ensures forall k :: Count(prev, k) == IntOr(stored, k, 0)
    ensures forall k :: Count(zeroed, k) == 0
  {
    prev, zeroed := map[], map[];
    var todo := stored.Keys;
    while todo != {}
      invariant todo <= stored.Keys
      invariant prev.Keys == stored.Keys - todo && zeroed.Keys == prev.Keys
      invariant forall k :: k in prev ==> prev[k] == IntOr(stored, k, 0)
      invariant forall k :: k in zeroed ==> zeroed[k] == 0
      decreases todo
    {
      var k :| k in todo;
      prev := prev[k := IntOr(stored, k, 0)];
      zeroed := zeroed[k := 0];
      todo := todo - {k};
    }
  }

  /** The ledger `TaskHarvest::new` starts the tick with: every key of
      last tick's `counter` is copied into `prev` (unreadable values as 0)
      and restarts at 0 in `counter`. */
  function Opening(stored: map<Id, Value>, limits: map<Id, Value>, cache: map<string, Value>): (l: Ledger)
    ensures l.prev.Keys == stored.Keys && l.counter.Keys == stored.Keys
    ensures forall k :: Count(l.prev, k) == IntOr(stored, k, 0)
    ensures forall k :: Count(l.counter, k) == 0
    ensures l.limits == limits && l.cache == cache
  {
    Ledger(map k | k in stored :: 0, map k | k in stored :: IntOr(stored, k, 0), limits, cache)
  }

  class TaskHarvest {
    var counter: map<Id, int>
    var prevCounter: map<Id, int>
    var creepLimits: map<Id, Value>
    /** The `source` entry of each creep's task memory, by creep name. */
    var sourceOf: map<string, Value>

    function Snapshot(): Ledger
      reads this
    {
      Ledger(counter, prevCounter, creepLimits, sourceOf)
    }

    /** `TaskHarvest::new`: last tick's `counter` becomes `prev_counter`
        key for key, and `counter` restarts at 0 with the same keys. */
    constructor (stored: map<Id, Value>, limits: map<Id, Value>, cache: map<string, Value>)
      ensures prevCounter.Keys == stored.Keys && counter.Keys == stored.Keys
      ensures forall k :: Count(prevCounter, k) == IntOr(stored, k, 0)
      ensures forall k :: Count(counter, k) == 0
      ensures creepLimits == limits && sourceOf == cache
      ensures Snapshot() == Opening(stored, limits, cache)
    {
      var prev, zeroed := RollOver(stored);
      assert prev == Opening(stored, limits, cache).prev;
      forall k | k in zeroed ensures zeroed[k] == 0 {
        assert Count(zeroed, k) == 0;
      }
      assert zeroed == Opening(stored, limits, cache).counter;
      counter := zeroed;
      prevCounter := prev;
      creepLimits := limits;
      sourceOf := cache;
    }

    /** `add_to_counter`: one more creep holds `id` this tick. */
    method AddToCounter(id: Id)
      modifies this
      ensures counter == Bump(old(counter), id)
      ensures prevCounter == old(prevCounter) && creepLimits == old(creepLimits)
      ensures sourceOf == old(sourceOf)
    {
      counter := counter[id := Count(counter, id) + 1];
    }

    /** `add_to_prev_counter`: a live reservation of `id` for this tick. */
    method AddToPrevCounter(id: Id)
      modifies this
      ensures prevCounter == Bump(old(prevCounter), id)
      ensures counter == old(counter) && creepLimits == old(creepLimits)
      ensures sourceOf == old(sourceOf)
    {
      prevCounter := prevCounter[id := Count(prevCounter, id) + 1];
    }

    /** `get_counter`: the `prev_counter` entry, 0 when absent. */
    function GetCounter(id: Id): (r: int)
      reads this
      ensures id in prevCounter ==> r == prevCounter[id]
      ensures id !in prevCounter ==> r == 0
    {
      Count(prevCounter, id)
    }

    /** `get_limit`: the `creep_limits` entry, 4 when absent or unreadable. */
    function GetLimit(id: Id): (r: int)
      reads this
      ensures id in creepLimits && creepLimits[id].Int? ==> r == creepLimits[id].i
      ensures !(id in creepLimits && creepLimits[id].Int?) ==> r == DefaultLimit
    {
      Limit(creepLimits, id)
    }

    /** `sources.retain(..)`: keep the sources that admit a new creep. */
    method Retain(sources: seq<Source>) returns (cands: seq<Source>)
      ensures cands == Candidates(sources, prevCounter, creepLimits)
    {
      cands := [];
      var i := 0;
      while i < |sources|
        invariant 0 <= i <= |sources|
        invariant cands == Candidates(sources[..i], prevCounter, creepLimits)
      {
        CandidatesExtend(sources, i, prevCounter, creepLimits);
        if sources[i].energy > 0 && GetCounter(sources[i].id) < GetLimit(sources[i].id) {
          cands := cands + [sources[i]];
        }
        i := i + 1;
      }
      assert sources[..i] == sources;
    }

    /** `Task::run` for the harvest task: sticky or new source selection,
        reservation, counting, and the harvest-or-move action. */
    method Run(c: CreepView, creepMem: map<string, Value>, memoryOk: bool, live: map<Id, nat>)
      returns (st: Step)
      modifies this
      ensures (Snapshot(), st) == HarvestStep(old(Snapshot()), c, creepMem, memoryOk, live)
    {
      if !memoryOk {
        return Step(Err(NoTaskMemory), []);
      }
      var held := Cached(sourceOf, c.name, live);
      if held.None? {
        var cands := Retain(c.room.sources);
        if |cands| > 0 {
          var source := cands[AsUsize(IntOr(creepMem, "id", 0)) % |cands|];
          sourceOf := sourceOf[c.name := Str(source.id)];
          AddToPrevCounter(source.id);
          held := Some(source.id);
        }
      }
      if held.Some? {
        AddToCounter(held.value);
        st := Step(Ok(true), ActOrApproach(HarvestFrom(held.value), held.value, c.replies.harvest));
      } else {
        st := Step(Ok(false), []);
      }
    }
  }

  /* ---------------------------------------------------------------------
     Properties of the allocator
     --------------------------------------------------------------------- */

  /** A cached source that still has energy is kept, whatever the counters
      and limits say, and `prev` and the cache are left alone. */
  lemma StickyAssignment(l: Ledger, c: CreepView, creepMem: map<string, Value>, live: map<Id, nat>)
    requires Cached(l.cache, c.name, live).Some?
    ensures var id := Cached(l.cache, c.name, live).value;
      var (l', st) := HarvestStep(l, c, creepMem, true, live);
      && st.result == Ok(true)
      && l'.prev == l.prev && l'.cache == l.cache && l'.limits == l.limits
      && l'.counter == Bump(l.counter, id)
      && id in live && live[id] > 0
  {
  }

  /** A new assignment goes to a source of the room that has energy and
      is below its limit, is remembered in the creep's cache, and is
      reserved in `prev` without lifting it above the limit. */
  lemma NewAssignmentAdmitted(l: Ledger, c: CreepView, creepMem: map<string, Value>, live: map<Id, nat>)
    requires Choose(l, c, creepMem, live).Assign?
    ensures var s := Choose(l, c, creepMem, live).source;
      var l' := Apply(l, c.name, Choose(l, c, creepMem, live));
      && Cached(l.cache, c.name, live).None?
      && (exists i :: 0 <= i < |c.room.sources| && c.room.sources[i].id == s
                      && Admitted(c.room.sources[i], l.prev, l.limits))
      && Count(l.prev, s) < Limit(l.limits, s)
      && Count(l'.prev, s) == Count(l.prev, s) + 1 <= Limit(l.limits, s)
      && StrOf(l'.cache, c.name) == Some(s)
      && l'.counter == Bump(l.counter, s)
      && HarvestStep(l, c, creepMem, true, live) ==
           (l', Step(Ok(true), ActOrApproach(HarvestFrom(s), s, c.replies.harvest)))
  {
    var cands := Candidates(c.room.sources, l.prev, l.limits);
    var pick := cands[AsUsize(IntOr(creepMem, "id", 0)) % |cands|];
    assert pick in cands;
  }

  /** The allocator finds nothing exactly when the cached source is gone or
      empty and no source of the room admits a new creep; then the ledger
      is unchanged. */
  lemma NoSourceExactly(l: Ledger, c: CreepView, creepMem: map<string, Value>, live: map<Id, nat>)
    ensures Choose(l, c, creepMem, live).NoSource? <==>
      Cached(l.cache, c.name, live).None?
      && forall i :: 0 <= i < |c.room.sources| ==> !Admitted(c.room.sources[i], l.prev, l.limits)
    ensures Choose(l, c, creepMem, live).NoSource? ==>
      HarvestStep(l, c, creepMem, true, live) == (l, Step(Ok(false), []))
  {
    var cands := Candidates(c.room.sources, l.prev, l.limits);
    if Cached(l.cache, c.name, live).None? && |cands| > 0 {
      assert cands[0] in cands;
    }
  }

  /** Two rooms whose admitted sources are the same sequence give a creep
      without a live cache the same new source: the pick depends only on
      the candidates and the creep's id. */
  lemma PickDependsOnCandidates(l: Ledger, c1: CreepView, c2: CreepView,
                                creepMem: map<string, Value>, live: map<Id, nat>)
    requires c1.name == c2.name
    requires Candidates(c1.room.sources, l.prev, l.limits) == Candidates(c2.room.sources, l.prev, l.limits)
    ensures Choose(l, c1, creepMem, live) == Choose(l, c2, creepMem, live)
  {
  }

  /** One creep's turn in a tick. */
  datatype Turn = Turn(creep: CreepView, mem: map<string, Value>)

  /** The ledger after the harvest task has run for each turn in order. */
  function Tick(l: Ledger, turns: seq<Turn>, live: map<Id, nat>): Ledger
    decreases |turns|
  {
    if |turns| == 0 then l
    else Tick(HarvestStep(l, turns[0].creep, turns[0].mem, true, live).0, turns[1..], live)
  }

  /** How many of the turns end up holding source `k`. */
  function Holders(l: Ledger, turns: seq<Turn>, live: map<Id, nat>, k: Id): nat
    decreases |turns|
  {
    if |turns| == 0 then 0
    else
      var ch := Choose(l, turns[0].creep, turns[0].mem, live);
      (if ch != NoSource && ch.source == k then 1 else 0)
        + Holders(HarvestStep(l, turns[0].creep, turns[0].mem, true, live).0, turns[1..], live, k)
  }

  function Max(a: int, b: int): int { if a < b then b else a }

  /** One turn never lifts `prev` of any source above both its former value
      and its limit, and never changes the limits. */
  lemma StepNeverOverbooks(l: Ledger, t: Turn, live: map<Id, nat>, k: Id)
    ensures var l' := HarvestStep(l, t.creep, t.mem, true, live).0;
      l'.limits == l.limits && Count(l'.prev, k) <= Max(Count(l.prev, k), Limit(l.limits, k))
  {
    var ch := Choose(l, t.creep, t.mem, live);
    if ch.Assign? {
      NewAssignmentAdmitted(l, t.creep, t.mem, live);
    }
  }

  /** However many creeps run in one tick, reservations never push a
      source's `prev` above its limit unless it already was. */
  lemma {:induction false} TickNeverOverbooks(l: Ledger, turns: seq<Turn>, live: map<Id, nat>, k: Id)
    ensures Tick(l, turns, live).limits == l.limits
    ensures Count(Tick(l, turns, live).prev, k) <= Max(Count(l.prev, k), Limit(l.limits, k))
    decreases |turns|
  {
    if |turns| > 0 {
      var l1 := HarvestStep(l, turns[0].creep, turns[0].mem, true, live).0;
      StepNeverOverbooks(l, turns[0], live, k);
      TickNeverOverbooks(l1, turns[1..], live, k);
    }
  }

  /** At the end of a tick, `counter` of each source has grown by exactly
      the number of creeps that held it, sticky or new: the value that the
      next tick's roll-over turns into `prev_counter`. */
  lemma {:induction false} TickCountsHolders(l: Ledger, turns: seq<Turn>, live: map<Id, nat>, k: Id)
    ensures Count(Tick(l, turns, live).counter, k) == Count(l.counter, k) + Holders(l, turns, live, k)
    decreases |turns|
  {
    if |turns| > 0 {
      var l1 := HarvestStep(l, turns[0].creep, turns[0].mem, true, live).0;
      TickCountsHolders(l1, turns[1..], live, k);
    }
  }

  /** Two creeps without a cached source compete for one source with
      energy 10 and limit 1: the first (id 3) reserves it, raising its
      `prev` from 0 to 1, and the second (id 4) sees `1 < 1` fail and is
      not handled. */
  lemma OneSlotTwoCreeps()
    ensures
      var room := RoomView([Source("src", 10)], [], [], None);
      var replies := Replies(CodeOk, CodeOk, CodeOk, CodeOk);
      var live := map["src" := 10];
      var l0 := Ledger(map[], map[], map["src" := Int(1)], map[]);
      var (l1, st1) := HarvestStep(l0, CreepView("a", 0, 50, room, replies), map["id" := Int(3)], true, live);
      var (l2, st2) := HarvestStep(l1, CreepView("b", 0, 50, room, replies), map["id" := Int(4)], true, live);
      && st1.result == Ok(true) && Count(l1.prev, "src") == 1 && StrOf(l1.cache, "a") == Some("src")
      && st2.result == Ok(false) && l2 == l1
  {
    var room := RoomView([Source("src", 10)], [], [], None);
    var limits := map["src" := Int(1)];
    assert Candidates(room.sources, map[], limits) == [Source("src", 10)];
    assert Candidates(room.sources, map["src" := 1], limits) == [];
  }
}
