/** The spawn scheduler of `game_loop`: which role gets the next creep.

    Roles below their population limit are ranked by
    `(run_count + 1) * spawn_priority`, lowest first, and tried in that
    order until one spawn succeeds. */
module Spawning {
  import opened Common
  import opened World
  import opened Roles

  /** A role's census and spawn settings as the loop reads them. */
  datatype RoleEntry = RoleEntry(role: Role, runCount: int, limit: int, spawnPriority: int)

  /** A role eligible for spawning, with its priority. */
  datatype Ranked = Ranked(role: Role, priority: int)

  /** The spawn named `Spawn1`: absent, busy spawning, or idle. */
  datatype SpawnState = NoSpawn | Busy | Idle

  /** One call of `spawn_creep_with_options`: the role, the id that names
      the creep (its name is the id in decimal), the memory given to it,
      and the game's reply. */
  datatype Attempt = Attempt(role: Role, id: int, memory: map<string, Value>, reply: ReturnCode)

  predicate Below(e: RoleEntry) { e.runCount < e.limit }

  function Priority(e: RoleEntry): int { (e.runCount + 1) * e.spawnPriority }

  /** The `filter_map` over the roles: every role below its limit, with
      its priority, in the roles' iteration order. */
  function Eligible(entries: seq<RoleEntry>): (r: seq<Ranked>)
    ensures |r| <= |entries|
    ensures forall x :: x in r <==> exists e :: e in entries && Below(e) && x == Ranked(e.role, Priority(e))
    decreases |entries|
  {
    if |entries| == 0 then []
    else
      var e := entries[0];
      assert forall f :: f in entries <==> f == e || f in entries[1..];
      (if Below(e) then [Ranked(e.role, Priority(e))] else []) + Eligible(entries[1..])
  }

  predicate SortedByPriority(s: seq<Ranked>)
  {
    forall i, j :: 0 <= i < j < |s| ==> s[i].priority <= s[j].priority
  }

  /** Place `x` before the first element whose priority is not lower, so
      that it stays ahead of the equal ones that came after it. */
  function Insert(x: Ranked, s: seq<Ranked>): (r: seq<Ranked>)
    requires SortedByPriority(s)
    ensures SortedByPriority(r)
    ensures multiset(r) == multiset(s) + multiset{x}
    ensures |r| == |s| + 1
    decreases |s|
  {
    if |s| == 0 || x.priority <= s[0].priority then [x] + s
    else
      var rest := Insert(x, s[1..]);
      assert s == [s[0]] + s[1..];
      forall j | 0 <= j < |rest| ensures s[0].priority <= rest[j].priority {
        assert rest[j] in multiset(s[1..]) + multiset{x};
      }
      [s[0]] + rest
  }

  /** `priorities.sort_by(..)`: a stable sort, ascending by priority. */
  function SortByPriority(s: seq<Ranked>): (r: seq<Ranked>)
    ensures SortedByPriority(r)
    ensures multiset(r) == multiset(s)
    decreases |s|
  {
    if |s| == 0 then []
    else
      assert s == [s[0]] + s[1..];
      Insert(s[0], SortByPriority(s[1..]))
  }

  /** The entries of `s` whose priority is `p`, in their order in `s`. */
  function WithPriority(s: seq<Ranked>, p: int): (r: seq<Ranked>)
    ensures forall x :: x in r <==> x in s && x.priority == p
    decreases |s|
  {
    if |s| == 0 then []
    else
      assert forall x :: x in s <==> x == s[0] || x in s[1..];
      (if s[0].priority == p then [s[0]] else []) + WithPriority(s[1..], p)
  }

  /** Inserting `x` puts it ahead of every entry of its own priority. */
  lemma {:induction false} InsertKeepsTies(x: Ranked, s: seq<Ranked>, p: int)
    requires SortedByPriority(s)
    ensures WithPriority(Insert(x, s), p) == (if x.priority == p then [x] else []) + WithPriority(s, p)
    decreases |s|
  {
    var hd := if x.priority == p then [x] else [];
    if |s| == 0 || x.priority <= s[0].priority {
      var r := [x] + s;
      assert Insert(x, s) == r && r[1..] == s;
      assert WithPriority(r, p) == hd + WithPriority(r[1..], p);
    } else {
      var rest := Insert(x, s[1..]);
      var r := [s[0]] + rest;
      var h0 := if s[0].priority == p then [s[0]] else [];
      InsertKeepsTies(x, s[1..], p);
      assert r[1..] == rest;
      assert h0 == [] || hd == [];
      var tail := WithPriority(s[1..], p);
      assert WithPriority(Insert(x, s), p) == h0 + (hd + tail) by {
        assert WithPriority(r, p) == h0 + WithPriority(rest, p);
      }
      assert WithPriority(s, p) == h0 + tail;
      if h0 == [] {
        assert h0 + (hd + tail) == hd + tail;
      } else {
        assert hd == [];
        assert hd + (h0 + tail) == h0 + tail;
        assert h0 + (hd + tail) == h0 + tail;
      }
    }
  }

  /** The sort is stable: the entries of any one priority come out in the
      order they went in, so ties keep the role table's order. */
  lemma {:induction false} SortKeepsTies(s: seq<Ranked>, p: int)
    ensures WithPriority(SortByPriority(s), p) == WithPriority(s, p)
    decreases |s|
  {
    if |s| > 0 {
      SortKeepsTies(s[1..], p);
      InsertKeepsTies(s[0], SortByPriority(s[1..]), p);
    }
  }

  /** The order in which the roles are tried this tick. */
  function Ranking(entries: seq<RoleEntry>): (r: seq<Ranked>)
    ensures SortedByPriority(r)
  {
    SortByPriority(Eligible(entries))
  }

  /** Only roles below their population limit are ever tried, each with
      the priority its census gives it. */
  lemma OnlyRolesBelowLimit(entries: seq<RoleEntry>, i: nat)
    requires i < |Ranking(entries)|
    ensures exists e :: e in entries && Below(e) && Ranking(entries)[i] == Ranked(e.role, Priority(e))
  {
    var x := Ranking(entries)[i];
    assert x in multiset(Ranking(entries));
    assert x in Eligible(entries);
  }

  /** Every role below its limit is tried unless an earlier one spawns. */
  lemma EveryRoleBelowLimitRanked(entries: seq<RoleEntry>, e: RoleEntry)
    requires e in entries && Below(e)
    ensures Ranked(e.role, Priority(e)) in Ranking(entries)
  {
    var x := Ranked(e.role, Priority(e));
    assert x in Eligible(entries);
    assert x in multiset(Eligible(entries));
  }

  /** `make_mem`: the memory a new creep starts with. */
  function MakeMem(role: Role, id: int): (m: map<string, Value>)
    ensures m.Keys == {"role", "id"}
    ensures StrOf(m, "role") == Some(Name(role)) && IntOr(m, "id", 0) == id
  {
    map["role" := Str(Name(role)), "id" := Int(id)]
  }

  /** A creep is spawned this tick: the spawn is idle and the game accepts
      at least one of the ranked roles. */
  predicate Spawns(spawn: SpawnState, census: seq<RoleEntry>, reply: Role -> ReturnCode)
  {
    spawn == Idle && exists i :: 0 <= i < |Ranking(census)| && reply(Ranking(census)[i].role) == CodeOk
  }

  /** What the spawn block records in a tick: nothing unless the spawn is
      idle; otherwise the ranked roles are tried in order, each with the
      same `id` and its `make_mem` memory, every attempt but the last was
      refused, the creep spawned is the role of the last (accepted)
      attempt, and when none is accepted every ranked role was tried. */
  predicate SpawnLog(spawn: SpawnState, census: seq<RoleEntry>, reply: Role -> ReturnCode, id: int,
                     attempts: seq<Attempt>, spawned: Option<Role>)
  {
    && (spawn != Idle ==> attempts == [] && spawned == None)
    && |attempts| <= |Ranking(census)|
    && (forall i :: 0 <= i < |attempts| ==>
          attempts[i] == Attempt(Ranking(census)[i].role, id, MakeMem(Ranking(census)[i].role, id),
                                 reply(Ranking(census)[i].role)))
    && (forall i :: 0 <= i < |attempts| - 1 ==> attempts[i].reply != CodeOk)
    && (spawned.Some? <==> Spawns(spawn, census, reply))
    && (spawned.Some? ==>
          0 < |attempts| && attempts[|attempts| - 1].reply == CodeOk
          && spawned.value == attempts[|attempts| - 1].role)
    && (spawn == Idle && spawned.None? ==> |attempts| == |Ranking(census)|)
  }

  /** The loop over the ranked roles: try each in order, with the same id,
      and stop after the first spawn the game accepts. A role that fails
      is not tried again. */
  method TrySpawn(order: seq<Ranked>, id: int, reply: Role -> ReturnCode)
    returns (attempts: seq<Attempt>, spawned: Option<Role>)
    ensures |attempts| <= |order|
    ensures forall i :: 0 <= i < |attempts| ==>
      attempts[i] == Attempt(order[i].role, id, MakeMem(order[i].role, id), reply(order[i].role))
    ensures forall i :: 0 <= i < |attempts| - 1 ==> attempts[i].reply != CodeOk
    ensures spawned.Some? <==> exists i :: 0 <= i < |order| && reply(order[i].role) == CodeOk
    ensures spawned.Some? ==>
      0 < |attempts| && attempts[|attempts| - 1].reply == CodeOk
      && spawned.value == attempts[|attempts| - 1].role
    ensures spawned.None? ==> |attempts| == |order|
  {
    attempts, spawned := [], None;
    var i := 0;
    while i < |order|
      invariant 0 <= i <= |order| && |attempts| == i
      invariant forall j :: 0 <= j < i ==>
        attempts[j] == Attempt(order[j].role, id, MakeMem(order[j].role, id), reply(order[j].role))
      invariant forall j :: 0 <= j < i ==> reply(order[j].role) != CodeOk
    {
      var role := order[i].role;
      var code := reply(role);
      attempts := attempts + [Attempt(role, id, MakeMem(role, id), code)];
      if code == CodeOk {
        spawned := Some(role);
        break;
      }
      i := i + 1;
    }
  }

  /** The worked ordering: a role at 3 of 5 with weight 10 ranks at 40, a
      role at 0 of 2 with weight 20 at 20, so the second is tried first; a
      role at its limit is not ranked at all. */
  lemma PriorityExample()
    ensures SortByPriority(Eligible([RoleEntry(Harvester, 3, 5, 10), RoleEntry(Builder, 0, 2, 20),
                                     RoleEntry(Upgrader, 2, 2, 30)]))
      == [Ranked(Builder, 20), Ranked(Harvester, 40)]
  {
    assert Eligible([RoleEntry(Harvester, 3, 5, 10), RoleEntry(Builder, 0, 2, 20),
                     RoleEntry(Upgrader, 2, 2, 30)]) == [Ranked(Harvester, 40), Ranked(Builder, 20)];
    assert [Ranked(Harvester, 40), Ranked(Builder, 20)][1..] == [Ranked(Builder, 20)];
    assert SortByPriority([Ranked(Builder, 20)]) == [Ranked(Builder, 20)];
    assert Insert(Ranked(Harvester, 40), [Ranked(Builder, 20)]) == [Ranked(Builder, 20), Ranked(Harvester, 40)];
  }
}
