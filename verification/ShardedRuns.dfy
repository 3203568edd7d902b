/**
  Whole runs of the sharded cache: routing never hides a tagged entry, the
  budget and memory splits add up, and what is read is always the latest write.
 */
module ShardedRuns {
  import opened Base
  import opened EngineSpec
  import opened EngineRuns
  import opened ShardedSpec

  // ----- One call seen from one shard -----

  /** The call shard `j` sees when the cache makes call `e`, if it sees one. */
  ghost function Local(hash: Hash, s: Sharded, e: Event, j: nat): Option<Event>
    requires j < |s.shards|
  {
    var v := s.shards[j];
    if e.op.Invalidate? then
      if j in Routes(s.directory, e.op.tag)
      then Some(e.(reply := CountReply(|Tagged(v.entries, e.op.tag)|)))
      else None
    else if e.op.Reclaim? then
      var part := e.reclaimed * v.entries.Keys;
      Some(e.(op := Reclaim(SatSub(e.op.budget, CountGone(s.shards[..j], e.reclaimed))),
              reply := CountReply(|part|),
              reclaimed := part))
    else if j == Route(hash, |s.shards|, Subject(e.op).value) then Some(e)
    else None
  }

  lemma LocalStep(hash: Hash, limits: Limits, s: Sharded, e: Event, s': Sharded, j: nat)
    requires |s.shards| > 0 && ShardedStep(hash, limits, s, e, s') && j < |s.shards|
    ensures |s'.shards| == |s.shards|
    ensures match Local(hash, s, e, j)
            case None => s'.shards[j] == s.shards[j]
            case Some(x) => Step(ShardLimits(limits, |s.shards|), s.shards[j], x, s'.shards[j])
  {
    if e.op.Reclaim? {
      assert ReclaimShard(s.shards, e.op.budget, e.now, e.reclaimed, s'.shards, j);
    }
  }

  // ----- Every call keeps the invariant -----

  /** Within one shard, a tag is on the written entry or was already in the shard. */
  lemma TagsAfter(limits: Limits, v: View, e: Event, v': View, t: TagId)
    requires Step(limits, v, e, v')
    ensures Tagged(v'.entries, t) != {} ==> t in Adds(e) || Tagged(v.entries, t) != {}
  {
    StepFrame(limits, v, e, v');
    if x :| x in Tagged(v'.entries, t) {
      if Written(e).Some? && x == Written(e).value.id {
        assert TagId(x.ns, t.tag) == t;
      } else {
        assert x in Tagged(v.entries, t);
      }
    }
  }

  lemma LeasesAfter(limits: Limits, v: View, e: Event, v': View, id: EntryId)
    requires Step(limits, v, e, v')
    requires id in v'.leases
    ensures id in v.leases || Subject(e.op) == Some(id)
  {
  }

  lemma StepKeepsPlaced(hash: Hash, limits: Limits, s: Sharded, e: Event, s': Sharded)
    requires |s.shards| > 0 && ShardedStep(hash, limits, s, e, s')
    requires Placed(hash, s)
    ensures |s'.shards| == |s.shards| && Placed(hash, s')
  {
    forall j, id | 0 <= j < |s.shards| && (id in s'.shards[j].entries || id in s'.shards[j].leases)
      ensures Route(hash, |s.shards|, id) == j
    {
      LocalStep(hash, limits, s, e, s', j);
      var x := Local(hash, s, e, j);
      if x.Some? {
        StepFrame(ShardLimits(limits, |s.shards|), s.shards[j], x.value, s'.shards[j]);
        if id in s'.shards[j].leases {
          LeasesAfter(ShardLimits(limits, |s.shards|), s.shards[j], x.value, s'.shards[j], id);
        }
      }
    }
  }

  lemma KeyedKeepsRouted(limits: Limits, s: Sharded, e: Event, id: EntryId, i: nat, s': Sharded)
    requires KeyedStep(limits, s, e, id, i, s')
    requires Routed(s)
    ensures Routed(s')
  {
    forall j, t | 0 <= j < |s.shards| && Tagged(s'.shards[j].entries, t) != {}
      ensures j in Routes(s'.directory, t)
    {
      if j == i {
        TagsAfter(ShardLimits(limits, |s.shards|), s.shards[i], e, s'.shards[i], t);
      }
    }
  }

  lemma InvalidateKeepsRouted(s: Sharded, u: TagId, s': Sharded)
    requires InvalidateShards(s, u, s')
    requires Routed(s)
    ensures Routed(s')
  {
    forall t: TagId
      ensures Routes(s'.directory, t) == if t == u then {} else Routes(s.directory, t)
    {
    }
    forall j, t | 0 <= j < |s.shards| && Tagged(s'.shards[j].entries, t) != {}
      ensures j in Routes(s'.directory, t)
    {
      assert Tagged(s'.shards[j].entries, t) <= Tagged(s.shards[j].entries, t);
    }
  }

  lemma StepKeepsRouted(hash: Hash, limits: Limits, s: Sharded, e: Event, s': Sharded)
    requires |s.shards| > 0 && ShardedStep(hash, limits, s, e, s')
    requires Routed(s)
    ensures Routed(s')
  {
    if e.op.Invalidate? {
      InvalidateKeepsRouted(s, e.op.tag, s');
    } else if e.op.Reclaim? {
      forall j, t | 0 <= j < |s.shards|
        ensures Tagged(s'.shards[j].entries, t) <= Tagged(s.shards[j].entries, t)
      {
        assert ReclaimShard(s.shards, e.op.budget, e.now, e.reclaimed, s'.shards, j);
      }
    } else {
      var id := Subject(e.op).value;
      KeyedKeepsRouted(limits, s, e, id, Route(hash, |s.shards|, id), s');
    }
  }

  lemma StepKeepsShardedInv(hash: Hash, limits: Limits, s: Sharded, e: Event, s': Sharded)
    requires ShardedInv(hash, limits, s) && ShardedStep(hash, limits, s, e, s')
    ensures ShardedInv(hash, limits, s') && |s'.shards| == |s.shards|
  {
    StepKeepsPlaced(hash, limits, s, e, s');
    StepKeepsRouted(hash, limits, s, e, s');
    forall j | 0 <= j < |s.shards|
      ensures Inv(ShardLimits(limits, |s.shards|), s'.shards[j])
    {
      LocalStep(hash, limits, s, e, s', j);
      var x := Local(hash, s, e, j);
      if x.Some? {
        StepKeeps(ShardLimits(limits, |s.shards|), s.shards[j], x.value, s'.shards[j]);
      }
    }
  }

  lemma EmptyIsKept(hash: Hash, limits: Limits, s: Sharded)
    requires EmptySharded(s)
    ensures ShardedInv(hash, limits, s)
  {
  }

  lemma {:induction false} RunKeepsShardedInv(hash: Hash, limits: Limits, ss: seq<Sharded>, es: seq<Event>, k: nat)
    requires ShardedRun(hash, limits, ss, es) && k <= |es|
    ensures ShardedInv(hash, limits, ss[k])
  {
    hide ShardedStep, ShardedInv, EmptySharded;
    if k == 0 {
      EmptyIsKept(hash, limits, ss[0]);
    } else {
      RunKeepsShardedInv(hash, limits, ss, es, k - 1);
      StepKeepsShardedInv(hash, limits, ss[k - 1], es[k - 1], ss[k]);
    }
  }

  // ----- Invalidation through the directory -----

  /** Every entry of the cache with tag `t`, found by scanning all shards. */
  ghost function AllTagged(shards: seq<View>, t: TagId): set<EntryId> {
    set i, id | 0 <= i < |shards| && id in Tagged(shards[i].entries, t) :: id
  }

  /** Keys of different shards differ. */
  ghost predicate DisjointShards(shards: seq<View>) {
    forall i, j, id :: 0 <= i < j < |shards| && id in shards[i].entries ==> id !in shards[j].entries
  }

  lemma PlacedDisjoint(hash: Hash, s: Sharded)
    requires |s.shards| > 0 && Placed(hash, s)
    ensures DisjointShards(s.shards)
  {
    forall i, j, id | 0 <= i < j < |s.shards| && id in s.shards[i].entries
      ensures id !in s.shards[j].entries
    {
      assert Route(hash, |s.shards|, id) == i;
    }
  }

  lemma AllTaggedSnoc(shards: seq<View>, t: TagId)
    requires shards != [] && DisjointShards(shards)
    ensures var k := |shards| - 1;
            && AllTagged(shards, t) == AllTagged(shards[..k], t) + Tagged(shards[k].entries, t)
            && AllTagged(shards[..k], t) !! Tagged(shards[k].entries, t)
  {
    var k := |shards| - 1;
    forall id | id in Tagged(shards[k].entries, t)
      ensures id in AllTagged(shards, t)
    {
    }
    forall id | id in AllTagged(shards[..k], t)
      ensures id in AllTagged(shards, t) && id !in shards[k].entries
    {
      var i :| 0 <= i < k && id in Tagged(shards[..k][i].entries, t);
      assert id in Tagged(shards[i].entries, t);
    }
    forall id | id in AllTagged(shards, t)
      ensures id in AllTagged(shards[..k], t) || id in Tagged(shards[k].entries, t)
    {
      var i :| 0 <= i < |shards| && id in Tagged(shards[i].entries, t);
      if i < k {
        assert id in Tagged(shards[..k][i].entries, t);
      }
    }
  }

  lemma {:induction false} CountIsScan(shards: seq<View>, routed: set<nat>, t: TagId)
    requires DisjointShards(shards)
    requires forall i :: 0 <= i < |shards| && Tagged(shards[i].entries, t) != {} ==> i in routed
    ensures CountTagged(shards, routed, t) == |AllTagged(shards, t)|
  {
    if shards == [] {
      assert AllTagged(shards, t) == {};
    } else {
      var k := |shards| - 1;
      CountIsScan(shards[..k], routed, t);
      AllTaggedSnoc(shards, t);
    }
  }

  lemma InvalidateAll(s: Sharded, t: TagId, s': Sharded, i: nat)
    requires InvalidateShards(s, t, s') && Routed(s) && i < |s.shards|
    ensures s'.shards[i] == InvalidateView(s.shards[i], t)
    ensures Tagged(s'.shards[i].entries, t) == {}
  {
    if i !in Routes(s.directory, t) {
      assert Tagged(s.shards[i].entries, t) == {};
      assert RemoveAll(s.shards[i], {}) == s.shards[i];
    }
  }

  /**
    In every run, invalidating through the directory does to every shard what
    scanning it would do, and counts exactly the tagged entries of the cache.
   */
  lemma InvalidateIsScan(hash: Hash, limits: Limits, ss: seq<Sharded>, es: seq<Event>, k: nat, t: TagId)
    requires ShardedRun(hash, limits, ss, es) && k < |es|
    requires es[k].op == Invalidate(t)
    ensures es[k].reply == CountReply(|AllTagged(ss[k].shards, t)|)
    ensures forall i :: 0 <= i < |ss[0].shards| ==> ss[k + 1].shards[i] == InvalidateView(ss[k].shards[i], t)
    ensures AllTagged(ss[k + 1].shards, t) == {}
  {
    RunKeepsShardedInv(hash, limits, ss, es, k);
    var s, s' := ss[k], ss[k + 1];
    assert ShardedStep(hash, limits, s, es[k], s');
    PlacedDisjoint(hash, s);
    CountIsScan(s.shards, Routes(s.directory, t), t);
    forall i | 0 <= i < |s.shards|
      ensures s'.shards[i] == InvalidateView(s.shards[i], t)
      ensures Tagged(s'.shards[i].entries, t) == {}
    {
      InvalidateAll(s, t, s', i);
    }
  }

  // ----- Budget and memory splits -----

  ghost function CountDue(shards: seq<View>, now: U64): nat {
    if shards == [] then 0
    else CountDue(shards[..|shards| - 1], now) + |Due(shards[|shards| - 1].entries, now)|
  }

  lemma {:induction false} BudgetSplit(shards: seq<View>, budget: nat, now: U64, gone: set<EntryId>, shards': seq<View>)
    requires ReclaimShards(shards, budget, now, gone, shards')
    ensures CountGone(shards, gone) == Min(budget, CountDue(shards, now))
  {
    if shards != [] {
      var k := |shards| - 1;
      forall i | 0 <= i < k
        ensures ReclaimShard(shards[..k], budget, now, gone, shards'[..k], i)
      {
        assert ReclaimShard(shards, budget, now, gone, shards', i);
        assert shards[..k][..i] == shards[..i];
      }
      BudgetSplit(shards[..k], budget, now, gone, shards'[..k]);
      assert ReclaimShard(shards, budget, now, gone, shards', k);
    }
  }

  /**
    A reclaim call removes exactly `min(budget, due)` entries over all shards:
    from each shard only due ones, in the order of its expiry index.
   */
  lemma ReclaimCount(hash: Hash, limits: Limits, ss: seq<Sharded>, es: seq<Event>, k: nat, budget: nat, i: nat)
    requires ShardedRun(hash, limits, ss, es) && k < |es|
    requires es[k].op == Reclaim(budget) && i < |ss[0].shards|
    ensures es[k].reply == CountReply(Min(budget, CountDue(ss[k].shards, es[k].now)))
    ensures var v, part := ss[k].shards[i], es[k].reclaimed * ss[k].shards[i].entries.Keys;
            && part <= Due(v.entries, es[k].now)
            && ss[k + 1].shards[i] == RemoveAll(v, part)
            && forall a, b :: a in part && b in Due(v.entries, es[k].now) - part ==> GoesFirst(v.entries, a, b)
  {
    assert ShardedStep(hash, limits, ss[k], es[k], ss[k + 1]);
    BudgetSplit(ss[k].shards, budget, es[k].now, es[k].reclaimed, ss[k + 1].shards);
    assert ReclaimShard(ss[k].shards, budget, es[k].now, es[k].reclaimed, ss[k + 1].shards, i);
  }

  ghost function TotalMemory(shards: seq<View>): nat {
    if shards == [] then 0 else TotalMemory(shards[..|shards| - 1]) + Memory(shards[|shards| - 1].entries)
  }

  lemma {:induction false} TotalMemoryBound(shards: seq<View>, each: nat)
    requires forall i :: 0 <= i < |shards| ==> Memory(shards[i].entries) <= each
    ensures TotalMemory(shards) <= |shards| * each
  {
    if shards != [] {
      TotalMemoryBound(shards[..|shards| - 1], each);
      assert |shards| * each == (|shards| - 1) * each + each;
    }
  }

  lemma DivCeilBound(a: nat, n: nat)
    requires n > 0
    ensures n * DivCeil(a, n) <= a + n - 1
  {
  }

  /** In every state of every run all shards together stay within the configured limit plus `n - 1`. */
  lemma MemoryWithinLimit(hash: Hash, limits: Limits, ss: seq<Sharded>, es: seq<Event>, k: nat)
    requires ShardedRun(hash, limits, ss, es) && k <= |es|
    ensures TotalMemory(ss[k].shards) <= limits.maxMemory + |ss[0].shards| - 1
  {
    RunKeepsShardedInv(hash, limits, ss, es, k);
    var n := |ss[0].shards|;
    TotalMemoryBound(ss[k].shards, ShardLimits(limits, n).maxMemory);
    DivCeilBound(limits.maxMemory, n);
  }

  // ----- Which losses a route follows -----

  /** The call is a write or delete, and the entry it names was in shard `i` with the tag. */
  predicate NamesHolder(s: Sharded, e: Event, i: nat, t: TagId)
    requires i < |s.shards|
  {
    && (e.op.Put? || e.op.Delete? || e.op.Complete?)
    && var id := Subject(e.op).value;
       id in s.shards[i].entries && HasTag(id, s.shards[i].entries[id], t)
  }

  /**
    When a call leaves a shard without a tag it had, the route goes exactly when
    the call invalidates the tag or names an entry of that shard that had it.  An entry
    lost to reclaim, eviction or expiry leaves its route behind.
   */
  lemma RouteDroppedIff(hash: Hash, limits: Limits, s: Sharded, e: Event, s': Sharded, i: nat, t: TagId)
    requires ShardedInv(hash, limits, s) && ShardedStep(hash, limits, s, e, s') && i < |s.shards|
    requires |s'.shards| == |s.shards| && Tagged(s.shards[i].entries, t) != {} && Tagged(s'.shards[i].entries, t) == {}
    ensures i !in Routes(s'.directory, t) <==> e.op == Invalidate(t) || NamesHolder(s, e, i, t)
  {
    hide Step;
    assert i in Routes(s.directory, t);
    if e.op.Invalidate? {
      assert s'.directory == s.directory - {e.op.tag};
    } else if e.op.Reclaim? {
      assert s'.directory == s.directory;
    } else {
      var id := Subject(e.op).value;
      KeyedRoutes(hash, limits, s, e, id, Route(hash, |s.shards|, id), s', i, t);
    }
  }

  lemma KeyedRoutes(hash: Hash, limits: Limits, s: Sharded, e: Event, id: EntryId, j: nat, s': Sharded, i: nat,
                    t: TagId)
    requires ShardedInv(hash, limits, s) && KeyedStep(limits, s, e, id, j, s') && Subject(e.op) == Some(id)
    requires j == Route(hash, |s.shards|, id) && i < |s.shards|
    requires Tagged(s.shards[i].entries, t) != {} && Tagged(s'.shards[i].entries, t) == {}
    ensures i !in Routes(s'.directory, t) <==> NamesHolder(s, e, i, t)
  {
    hide Step;
    assert i == j;
    if Written(e).Some? && t in Adds(e) {
      WrittenIsTagged(limits, s, e, j, s', t);
    }
    var holder := id in s.shards[i].entries && HasTag(id, s.shards[i].entries[id], t);
    assert holder ==> TagId(id.ns, t.tag) in TagsOf(id.ns, s.shards[i].entries[id].tags);
    assert i in Routes(s.directory, t);
  }

  lemma WrittenIsTagged(limits: Limits, s: Sharded, e: Event, j: nat, s': Sharded, t: TagId)
    requires OneShard(limits, s, e, j, s') && Written(e).Some? && t in Adds(e)
    ensures Tagged(s'.shards[j].entries, t) != {}
  {
    StepFrame(ShardLimits(limits, |s.shards|), s.shards[j], e, s'.shards[j]);
    assert Written(e).value.id in Tagged(s'.shards[j].entries, t);
  }

  /**
    A tagged entry is stored and later reclaimed: the shard has no entry with the tag, and the route is
    still there.
   */
  lemma ReclaimedRouteStays(hash: Hash, limits: Limits, cmd: PutCommand, now: U64, later: U64)
    returns (ss: seq<Sharded>, es: seq<Event>)
    requires Admission(limits, cmd).Ok? && cmd.tags != [] && now <= later && IsDue(NewEntry(cmd, now, 0), later)
    ensures ShardedRun(hash, limits, ss, es) && |es| == 2 && es[1].op.Reclaim?
    ensures var t := TagId(cmd.id.ns, cmd.tags[0]);
            && |ss[2].shards| == 1
            && Tagged(ss[1].shards[0].entries, t) != {} && Tagged(ss[2].shards[0].entries, t) == {}
            && 0 in Routes(ss[2].directory, t)
  {
    hide ShardedStep, ShardedRun, NewEntry;
    var tags := TagsOf(cmd.id.ns, cmd.tags);
    var routed: Directory := map t | t in tags :: {0};
    var v := View(map[cmd.id := NewEntry(cmd, now, 0)], map[], 1);
    var w := View(map[], map[], 1);
    var put := Event(Put(cmd), now, PutReply(Ok(0)), {}, []);
    var reclaim := Event(Reclaim(1), later, CountReply(1), {cmd.id}, []);
    ss, es := [Sharded([EMPTY], map[]), Sharded([v], routed), Sharded([w], routed)], [put, reclaim];
    FirstPut(hash, limits, cmd, now, put, v, routed);
    FirstReclaim(hash, limits, cmd, now, later, reclaim, v, w, routed);
    TwoSteps(hash, limits, ss, es);
    StoredTagged(cmd, now);
  }

  lemma StoredTagged(cmd: PutCommand, now: U64)
    requires cmd.tags != []
    ensures Tagged(map[cmd.id := NewEntry(cmd, now, 0)], TagId(cmd.id.ns, cmd.tags[0])) != {}
  {
    assert cmd.id in Tagged(map[cmd.id := NewEntry(cmd, now, 0)], TagId(cmd.id.ns, cmd.tags[0]));
  }

  lemma TwoSteps(hash: Hash, limits: Limits, ss: seq<Sharded>, es: seq<Event>)
    requires |ss| == 3 && |es| == 2 && EmptySharded(ss[0]) && |ss[0].shards| == |ss[1].shards| == |ss[2].shards|
    requires ShardedStep(hash, limits, ss[0], es[0], ss[1]) && ShardedStep(hash, limits, ss[1], es[1], ss[2])
    requires es[0].now <= es[1].now
    ensures ShardedRun(hash, limits, ss, es)
  {
    hide ShardedStep;
  }

  lemma FirstPut(hash: Hash, limits: Limits, cmd: PutCommand, now: U64, put: Event, v: View, routed: Directory)
    requires Admission(limits, cmd).Ok? && put == Event(Put(cmd), now, PutReply(Ok(0)), {}, [])
    requires v == View(map[cmd.id := NewEntry(cmd, now, 0)], map[], 1)
    requires routed == map t | t in TagsOf(cmd.id.ns, cmd.tags) :: {0}
    ensures ShardedStep(hash, limits, Sharded([EMPTY], map[]), put, Sharded([v], routed))
  {
    assert ShardLimits(limits, 1) == limits;
    assert Remove(EMPTY, cmd.id) == EMPTY && RemoveAll(EMPTY, {}) == EMPTY;
    assert Elements<EntryId>([]) == {};
    assert EMPTY.entries - {} == EMPTY.entries;
    var s, s' := Sharded([EMPTY], map[]), Sharded([v], routed);
    assert OneShard(limits, s, put, 0, s');
  }

  lemma FirstReclaim(hash: Hash, limits: Limits, cmd: PutCommand, now: U64, later: U64, reclaim: Event, v: View,
                     w: View, routed: Directory)
    requires IsDue(NewEntry(cmd, now, 0), later) && reclaim == Event(Reclaim(1), later, CountReply(1), {cmd.id}, [])
    requires v == View(map[cmd.id := NewEntry(cmd, now, 0)], map[], 1) && w == View(map[], map[], 1)
    ensures ShardedStep(hash, limits, Sharded([v], routed), reclaim, Sharded([w], routed))
  {
    assert Due(v.entries, later) == {cmd.id};
    assert RemoveAll(v, {cmd.id}) == w;
    var shards := [v];
    assert shards[..0] == [] && CountGone(shards[..0], {cmd.id}) == 0;
    assert {cmd.id} * v.entries.Keys == {cmd.id};
    assert ReclaimShard(shards, 1, later, {cmd.id}, [w], 0);
  }
}
