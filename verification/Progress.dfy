/**
  Every call can be made: whatever the state, each operation of an engine and of
  the sharded cache has a step, so nothing said about runs is said of nothing.
 */
module Progress {
  import opened Base
  import opened EngineSpec
  import opened EngineRuns
  import opened ShardedSpec
  import opened ShardedRuns

  // ----- Making room -----

  /** Some entry was used no later than any other. */
  lemma {:induction false} Oldest(entries: Entries) returns (x: EntryId)
    requires entries != map[]
    ensures x in entries && forall y :: y in entries ==> entries[x].lastAccess <= entries[y].lastAccess
    decreases entries.Keys
  {
    x :| x in entries;
    var others := entries - {x};
    assert forall z :: z in entries ==> z == x || z in others;
    if others != map[] {
      var y := Oldest(others);
      if entries[y].lastAccess < entries[x].lastAccess {
        x := y;
      }
    }
  }

  lemma OldestIsPicked(entries: Entries, x: EntryId)
    requires x in entries && forall y :: y in entries ==> entries[x].lastAccess <= entries[y].lastAccess
    ensures LeastOfSample(entries, x)
  {
    assert NotOlder(entries, x) == entries.Keys;
  }

  lemma EmptyMemory()
    ensures Memory(map[]) == 0
  {
  }

  lemma LeftAfterFirst(entries: Entries, x: EntryId, victims: seq<EntryId>, k: nat)
    requires k <= |victims|
    ensures Left(entries, [x] + victims, k + 1) == Left(entries - {x}, victims, k)
  {
    assert ([x] + victims)[..k + 1] == [x] + victims[..k];
    assert Elements([x] + victims[..k]) == {x} + Elements(victims[..k]);
  }

  lemma EvictsOneMore(entries: Entries, x: EntryId, victims: seq<EntryId>, size: nat, maxMemory: nat)
    requires LeastOfSample(entries, x) && Memory(entries) + size > maxMemory
    requires Evicts(entries - {x}, victims, size, maxMemory)
    ensures Evicts(entries, [x] + victims, size, maxMemory)
  {
    hide Memory, LeastOfSample;
    var all := [x] + victims;
    forall k | 0 <= k < |all|
      ensures EvictedAt(entries, all, k, size, maxMemory)
    {
      if k == 0 {
        assert Left(entries, all, 0) == entries;
      } else {
        assert EvictedAt(entries - {x}, victims, k - 1, size, maxMemory);
        LeftAfterFirst(entries, x, victims, k - 1);
      }
    }
    LeftAfterFirst(entries, x, victims, |victims|);
    assert all[..|all|] == all && victims[..|victims|] == victims;
  }

  /** Room for a write that fits at all can always be made, by evicting the oldest entry again and again. */
  lemma {:induction false} RoomIsMade(entries: Entries, size: nat, maxMemory: nat) returns (victims: seq<EntryId>)
    requires size <= maxMemory
    ensures Evicts(entries, victims, size, maxMemory)
    decreases entries.Keys
  {
    hide LeastOfSample, Memory;
    EmptyMemory();
    if Memory(entries) + size <= maxMemory {
      victims := [];
      assert entries - Elements<EntryId>([]) == entries;
    } else {
      var x := Oldest(entries);
      OldestIsPicked(entries, x);
      var others := RoomIsMade(entries - {x}, size, maxMemory);
      EvictsOneMore(entries, x, others, size, maxMemory);
      victims := [x] + others;
    }
  }

  lemma PutCan(limits: Limits, v: View, cmd: PutCommand, now: U64)
    returns (reclaimed: set<EntryId>, evicted: seq<EntryId>, r: Result<nat, PutError>, v': View)
    ensures PutStep(limits, v, cmd, now, reclaimed, evicted, r, v')
  {
    hide EntryMemory, Memory, Evicts;
    match Admission(limits, cmd) {
      case Err(error) => reclaimed, evicted, r, v' := {}, [], Err(error), v;
      case Ok(_) =>
        var size := EntryMemory(cmd.id, cmd.value, cmd.tags);
        var kept := Remove(v, cmd.id).entries;
        reclaimed := if Memory(kept) + size > limits.maxMemory then Due(kept, now) else {};
        evicted := RoomIsMade(kept - reclaimed, size, limits.maxMemory);
        r := Ok(|evicted|);
        v' := Store(Cleared(v, cmd, reclaimed, evicted), cmd, now);
    }
  }

  // ----- Reclaim -----

  /** One of the entries of a set goes before all others. */
  lemma {:induction false} EarliestDue(entries: Entries, due: set<EntryId>) returns (x: EntryId)
    requires due != {} && forall a :: a in due ==> a in entries && RemovableAt(entries[a]).Some?
    ensures x in due && forall a :: a in due && a != x ==> GoesFirst(entries, x, a)
    decreases due
  {
    hide Sooner;
    x :| x in due;
    var others := due - {x};
    assert forall z :: z in due ==> z == x || z in others;
    if others != {} {
      var y := EarliestDue(entries, others);
      var atX, atY := RemovableAt(entries[x]).value, RemovableAt(entries[y]).value;
      SoonerTotal(atY, y, atX, x);
      if Sooner(atY, y, atX, x) {
        x := y;
      } else {
        forall a | a in due && a != x
          ensures GoesFirst(entries, x, a)
        {
          if a != y {
            SoonerTransitive(atX, x, atY, y, RemovableAt(entries[a]).value, a);
          }
        }
      }
    }
  }

  predicate EarliestFirst(entries: Entries, now: U64, removed: set<EntryId>) {
    && removed <= Due(entries, now)
    && forall a, b :: a in removed && b in Due(entries, now) - removed ==> GoesFirst(entries, a, b)
  }

  lemma {:induction false} SomeAreEarliest(entries: Entries, now: U64, n: nat) returns (removed: set<EntryId>)
    requires n <= |Due(entries, now)|
    ensures EarliestFirst(entries, now, removed) && |removed| == n
  {
    removed := {};
    if n > 0 {
      removed := SomeAreEarliest(entries, now, n - 1);
      var due := Due(entries, now) - removed;
      assert due != {} by {
        SubsetCardinality(removed, Due(entries, now));
      }
      var x := EarliestDue(entries, due);
      removed := removed + {x};
    }
  }

  lemma ReclaimCan(v: View, budget: nat, now: U64) returns (removed: set<EntryId>, v': View)
    ensures ReclaimStep(v, budget, now, removed, v')
  {
    removed := SomeAreEarliest(v.entries, now, Min(budget, |Due(v.entries, now)|));
    v' := RemoveAll(v, removed);
  }

  // ----- Every operation of an engine -----

  lemma CompleteCan(limits: Limits, v: View, token: Text, cmd: PutCommand, now: U64) returns (e: Event, v': View)
    ensures e.op == Complete(token, cmd) && e.now == now && Step(limits, v, e, v')
  {
    hide PutStep;
    var (w, accepted) := ConsumeLease(v, cmd.id, token, now);
    if accepted {
      var reclaimed, evicted, r, after := PutCan(limits, w, cmd, now);
      var done := match r case Ok(n) => Ok(n) case Err(error) => Err(PutFailed(error));
      e, v' := Event(Complete(token, cmd), now, CompleteReply(done), reclaimed, evicted), after;
    } else {
      e, v' := Event(Complete(token, cmd), now, CompleteReply(Err(InvalidLeaseToken)), {}, []), w;
    }
  }

  lemma EngineCan(limits: Limits, v: View, op: Op, now: U64) returns (e: Event, v': View)
    ensures e.op == op && e.now == now && Step(limits, v, e, v')
  {
    hide PutStep, ReclaimStep;
    match op {
      case Put(cmd) =>
        var reclaimed, evicted, r, after := PutCan(limits, v, cmd, now);
        e, v' := Event(op, now, PutReply(r), reclaimed, evicted), after;
      case Get(id, update) =>
        e, v' := Event(op, now, GetReply(GetResult(v, id, now)), {}, []), GetView(v, id, now, update);
      case Delete(id) => e, v' := Event(op, now, DeleteReply(id in v.entries), {}, []), DeleteView(v, id);
      case Invalidate(t) =>
        e, v' := Event(op, now, CountReply(|Tagged(v.entries, t)|), {}, []), InvalidateView(v, t);
      case Start(id, ttl) =>
        var (w, outcome) := StartLease(v, id, ttl, now);
        e, v' := Event(op, now, StartReply(outcome), {}, []), w;
      case Complete(token, cmd) => e, v' := CompleteCan(limits, v, token, cmd, now);
      case Reclaim(budget) =>
        var removed, after := ReclaimCan(v, budget, now);
        e, v' := Event(op, now, CountReply(|removed|), removed, []), after;
    }
  }

  // ----- Every operation of the sharded cache -----

  lemma RerouteCan(dir: Directory, i: nat, adds: set<TagId>, drops: set<TagId>) returns (dir': Directory)
    ensures Rerouted(dir, i, adds, drops, dir')
  {
    dir' := map t | t in dir.Keys + adds && NewRoutes(dir, i, adds, drops, t) != {} ::
      NewRoutes(dir, i, adds, drops, t);
  }

  lemma KeyedCan(hash: Hash, limits: Limits, s: Sharded, op: Op, now: U64) returns (e: Event, s': Sharded)
    requires |s.shards| > 0 && Subject(op).Some?
    ensures e.op == op && e.now == now && ShardedStep(hash, limits, s, e, s')
  {
    hide Step, Rerouted, Drops, Adds;
    var id := Subject(op).value;
    var i := Route(hash, |s.shards|, id);
    var v;
    e, v := EngineCan(ShardLimits(limits, |s.shards|), s.shards[i], op, now);
    var dir := s.directory;
    if !op.Get? && !op.Start? {
      dir := RerouteCan(s.directory, i, Adds(e), Drops(s.shards[i], id, v));
    }
    s' := Sharded(s.shards[i := v], dir);
    assert KeyedStep(limits, s, e, id, i, s');
  }

  lemma InvalidateCan(hash: Hash, limits: Limits, s: Sharded, t: TagId, now: U64) returns (e: Event, s': Sharded)
    requires |s.shards| > 0
    ensures e.op == Invalidate(t) && e.now == now && ShardedStep(hash, limits, s, e, s')
  {
    hide InvalidateView;
    var routed := Routes(s.directory, t);
    var shards := seq(|s.shards|, i requires 0 <= i < |s.shards| =>
      if i in routed then InvalidateView(s.shards[i], t) else s.shards[i]);
    e := Event(Invalidate(t), now, CountReply(CountTagged(s.shards, routed, t)), {}, []);
    s' := Sharded(shards, s.directory - {t});
  }

  /** Nothing outside the first shards is in the set. */
  ghost predicate Within(shards: seq<View>, gone: set<EntryId>) {
    forall id :: id in gone ==> exists i :: 0 <= i < |shards| && id in shards[i].entries
  }

  lemma {:induction false} CountGoneSame(shards: seq<View>, gone: set<EntryId>, more: set<EntryId>)
    requires forall i, id :: 0 <= i < |shards| && id in shards[i].entries ==> id !in more
    ensures CountGone(shards, gone + more) == CountGone(shards, gone)
  {
    if shards != [] {
      var k := |shards| - 1;
      CountGoneSame(shards[..k], gone, more);
      assert (gone + more) * shards[k].entries.Keys == gone * shards[k].entries.Keys;
    }
  }

  lemma PartSame(shards: seq<View>, budget: nat, now: U64, gone: set<EntryId>, more: set<EntryId>, shards': seq<View>,
                 v: View, v': View, i: nat)
    requires i < |shards| == |shards'| && ReclaimShard(shards, budget, now, gone, shards', i)
    requires forall j, id :: 0 <= j < |shards| && id in shards[j].entries ==> id !in more
    ensures ReclaimShard(shards + [v], budget, now, gone + more, shards' + [v'], i)
  {
    hide ReclaimStep;
    CountGoneSame(shards[..i], gone, more);
    assert (shards + [v])[..i] == shards[..i];
    assert (gone + more) * shards[i].entries.Keys == gone * shards[i].entries.Keys;
  }

  /** One shard after the other, each with what is left of the budget. */
  lemma {:induction false} ReclaimsCan(shards: seq<View>, budget: nat, now: U64)
    returns (gone: set<EntryId>, shards': seq<View>)
    requires DisjointShards(shards)
    ensures ReclaimShards(shards, budget, now, gone, shards') && Within(shards, gone)
  {
    hide ReclaimStep, ReclaimShard;
    if shards == [] {
      gone, shards' := {}, [];
    } else {
      var k := |shards| - 1;
      var init, v := shards[..k], shards[k];
      assert shards == init + [v];
      var before, early := ReclaimsCan(init, budget, now);
      var part, v' := ReclaimCan(v, SatSub(budget, CountGone(init, before)), now);
      gone, shards' := before + part, early + [v'];
      ReclaimsOneMore(init, budget, now, before, early, v, part, v');
    }
  }

  lemma ReclaimsOneMore(shards: seq<View>, budget: nat, now: U64, gone: set<EntryId>, shards': seq<View>, v: View,
                        part: set<EntryId>, v': View)
    requires ReclaimShards(shards, budget, now, gone, shards') && Within(shards, gone) && DisjointShards(shards + [v])
    requires ReclaimStep(v, SatSub(budget, CountGone(shards, gone)), now, part, v')
    ensures ReclaimShards(shards + [v], budget, now, gone + part, shards' + [v']) && Within(shards + [v], gone + part)
  {
    hide ReclaimStep, ReclaimShard, Within, DisjointShards, CountGone;
    LastPart(shards, budget, now, gone, shards', v, part, v');
    forall i: nat | i < |shards|
      ensures ReclaimShard(shards + [v], budget, now, gone + part, shards' + [v'], i)
    {
      PartSame(shards, budget, now, gone, part, shards', v, v', i);
    }
    WithinMore(shards, gone, v, part);
  }

  lemma LastPart(shards: seq<View>, budget: nat, now: U64, gone: set<EntryId>, shards': seq<View>, v: View,
                 part: set<EntryId>, v': View)
    requires |shards'| == |shards| && Within(shards, gone) && DisjointShards(shards + [v])
    requires ReclaimStep(v, SatSub(budget, CountGone(shards, gone)), now, part, v')
    ensures ReclaimShard(shards + [v], budget, now, gone + part, shards' + [v'], |shards|)
    ensures part <= v.entries.Keys
    ensures forall j, id :: 0 <= j < |shards| && id in shards[j].entries ==> id !in part
  {
    var all := shards + [v];
    assert part <= v.entries.Keys;
    forall j, id | 0 <= j < |shards| && id in shards[j].entries
      ensures id !in v.entries
    {
      assert id in all[j].entries && all[|shards|] == v;
    }
    CountGoneSame(shards, gone, part);
    assert all[..|shards|] == shards;
    assert (gone + part) * v.entries.Keys == part;
    hide ReclaimStep;
  }

  lemma WithinMore(shards: seq<View>, gone: set<EntryId>, v: View, part: set<EntryId>)
    requires Within(shards, gone) && part <= v.entries.Keys
    ensures Within(shards + [v], gone + part)
  {
    var all := shards + [v];
    forall id | id in gone + part
      ensures exists i :: 0 <= i < |all| && id in all[i].entries
    {
      if id in part {
        assert id in all[|shards|].entries;
      } else {
        var i :| 0 <= i < |shards| && id in shards[i].entries;
        assert id in all[i].entries;
      }
    }
  }

  /** Every operation can be called in every state that a run can reach, at any time, and has an outcome. */
  lemma EveryCallHasAStep(hash: Hash, limits: Limits, s: Sharded, op: Op, now: U64) returns (e: Event, s': Sharded)
    requires ShardedInv(hash, limits, s)
    ensures e.op == op && e.now == now && ShardedStep(hash, limits, s, e, s')
    ensures ShardedInv(hash, limits, s')
  {
    hide ReclaimShards, KeyedStep, InvalidateShards;
    if op.Invalidate? {
      e, s' := InvalidateCan(hash, limits, s, op.tag, now);
    } else if op.Reclaim? {
      PlacedDisjoint(hash, s);
      var gone, shards := ReclaimsCan(s.shards, op.budget, now);
      e := Event(op, now, CountReply(CountGone(s.shards, gone)), gone, []);
      s' := Sharded(shards, s.directory);
    } else {
      e, s' := KeyedCan(hash, limits, s, op, now);
    }
    StepKeepsShardedInv(hash, limits, s, e, s');
  }
}
