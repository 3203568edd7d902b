/**
  The sharded engine: one `Engine` per shard, and a tag directory updated after
  the shard in each write and delete. Every method makes one
  `ShardedSpec.ShardedStep`.
 */
module ShardedEngine {
  import opened Base
  import opened EngineSpec
  import opened EngineRuns
  import opened ShardedSpec
  import opened ShardedRuns
  import Engine

  lemma DivCeilSmall(a: nat, n: nat)
    requires n > 0
    ensures DivCeil(a, n) <= a
  {
    var q := DivCeil(a, n);
    assert q * n <= a + n - 1;
    Scaled(q, a + 1, n);
    assert (a + 1) * n == a * n + n;
    Scaled(n, 1, a);
  }

  lemma Scaled(q: nat, a: nat, n: nat)
    ensures q >= a ==> q * n >= a * n
  {
    if q >= a {
      assert q * n == a * n + (q - a) * n;
    }
  }

  lemma DropOne(dir: Directory, i: nat, drops: seq<TagId>, k: nat, before: Directory, after: Directory)
    requires k < |drops| && Rerouted(dir, i, {}, Elements(drops[..k]), before)
    requires NoEmptyRoute(after)
    requires forall u :: Routes(after, u) == if u == drops[k] then Routes(before, u) - {i} else Routes(before, u)
    ensures Rerouted(dir, i, {}, Elements(drops[..k + 1]), after)
  {
    assert Elements(drops[..k + 1]) == Elements(drops[..k]) + {drops[k]};
  }

  lemma AddOne(dir: Directory, i: nat, adds: seq<TagId>, k: nat, drops: set<TagId>, before: Directory, after: Directory)
    requires k < |adds| && Rerouted(dir, i, Elements(adds[..k]), drops, before)
    requires after == before[adds[k] := Routes(before, adds[k]) + {i}]
    ensures Rerouted(dir, i, Elements(adds[..k + 1]), drops, after)
  {
    assert Elements(adds[..k + 1]) == Elements(adds[..k]) + {adds[k]};
    forall u: TagId
      ensures Routes(after, u) == Routes(before, u) + if u == adds[k] then {i} else {}
    {
    }
  }

  lemma {:induction false} CountTaggedNone(shards: seq<View>, t: TagId)
    ensures CountTagged(shards, {}, t) == 0
  {
    if shards != [] {
      CountTaggedNone(shards[..|shards| - 1], t);
    }
  }

  /** Counting one more shard adds what it holds. */
  lemma {:induction false} CountTaggedAdd(shards: seq<View>, routed: set<nat>, t: TagId, i: nat)
    requires i < |shards| && i !in routed
    ensures CountTagged(shards, routed + {i}, t) == CountTagged(shards, routed, t) + |Tagged(shards[i].entries, t)|
  {
    var k := |shards| - 1;
    if i < k {
      CountTaggedAdd(shards[..k], routed, t, i);
    } else {
      CountTaggedBeyond(shards[..k], routed, t, i);
    }
  }

  lemma {:induction false} CountTaggedBeyond(shards: seq<View>, routed: set<nat>, t: TagId, i: nat)
    requires |shards| <= i
    ensures CountTagged(shards, routed + {i}, t) == CountTagged(shards, routed, t)
  {
    if shards != [] {
      CountTaggedBeyond(shards[..|shards| - 1], routed, t, i);
    }
  }

  ghost function AllKeys(shards: seq<View>): set<EntryId> {
    set i, id | 0 <= i < |shards| && id in shards[i].entries :: id
  }

  lemma {:induction false} CountGoneSame(shards: seq<View>, gone: set<EntryId>, more: set<EntryId>)
    requires forall i :: 0 <= i < |shards| ==> more !! shards[i].entries.Keys
    ensures CountGone(shards, gone + more) == CountGone(shards, gone)
  {
    if shards != [] {
      var k := |shards| - 1;
      CountGoneSame(shards[..k], gone, more);
      assert (gone + more) * shards[k].entries.Keys == gone * shards[k].entries.Keys;
    }
  }

  /** The first `i` shards have reclaimed `gone` between them; the others are as before. */
  ghost predicate ReclaimedUpTo(shards: seq<View>, i: nat, budget: nat, now: U64, gone: set<EntryId>,
                                after: seq<View>)
  {
    && i <= |shards| == |after|
    && gone <= AllKeys(shards[..i])
    && (forall j :: 0 <= j < i ==> ReclaimShard(shards, budget, now, gone, after, j))
    && (forall j :: i <= j < |shards| ==> after[j] == shards[j])
  }

  /** One more shard reclaimed, with what was left of the budget. */
  lemma ReclaimNext(shards: seq<View>, i: nat, budget: nat, now: U64, gone: set<EntryId>, part: set<EntryId>,
                    during: seq<View>, after: seq<View>)
    requires DisjointShards(shards) && i < |shards| == |after|
    requires ReclaimedUpTo(shards, i, budget, now, gone, during)
    requires ReclaimStep(shards[i], SatSub(budget, CountGone(shards[..i], gone)), now, part, after[i])
    requires after == during[i := after[i]]
    ensures ReclaimedUpTo(shards, i + 1, budget, now, gone + part, after)
    ensures CountGone(shards[..i + 1], gone + part) == CountGone(shards[..i], gone) + |part|
  {
    hide CountGone, DisjointShards;
    StepTakesOwn(shards[i], SatSub(budget, CountGone(shards[..i], gone)), now, part, after[i]);
    hide ReclaimStep;
    CountGoneMore(shards, i, gone + part);
    PartDisjoint(shards, i, gone, part);
    CountGoneSame(shards[..i], gone, part);
    assert shards[..i + 1][..i] == shards[..i];
    forall j {:trigger ReclaimShard(shards, budget, now, gone + part, after, j)} | 0 <= j < i
      ensures ReclaimShard(shards, budget, now, gone + part, after, j)
    {
      ReclaimedStays(shards, budget, now, gone, part, during, after, j);
    }
  }

  lemma StepTakesOwn(v: View, budget: nat, now: U64, part: set<EntryId>, v': View)
    requires ReclaimStep(v, budget, now, part, v')
    ensures part <= v.entries.Keys
  {
  }

  lemma CountGoneMore(shards: seq<View>, i: nat, gone: set<EntryId>)
    requires i < |shards|
    ensures CountGone(shards[..i + 1], gone) == CountGone(shards[..i], gone) + |gone * shards[i].entries.Keys|
  {
    assert shards[..i + 1][..i] == shards[..i];
  }

  lemma NothingReclaimed(v: View, now: U64)
    ensures ReclaimStep(v, 0, now, {}, v)
  {
    assert RemoveAll(v, {}) == v;
  }

  lemma ReclaimIsStep(limits: Limits, v: View, budget: nat, now: U64, count: nat, part: set<EntryId>, v': View)
    requires Step(limits, v, Event(Reclaim(budget), now, CountReply(count), part, []), v')
    ensures count == |part| && ReclaimStep(v, budget, now, part, v')
  {
  }

  lemma ReclaimedNone(shards: seq<View>, budget: nat, now: U64)
    ensures ReclaimedUpTo(shards, 0, budget, now, {}, shards) && CountGone(shards[..0], {}) == 0
  {
  }

  lemma ReclaimedWhole(shards: seq<View>, budget: nat, now: U64, gone: set<EntryId>, after: seq<View>)
    requires ReclaimedUpTo(shards, |shards|, budget, now, gone, after)
    ensures ReclaimShards(shards, budget, now, gone, after)
    ensures shards[..|shards|] == shards
  {
  }

  lemma ReclaimedStays(shards: seq<View>, budget: nat, now: U64, gone: set<EntryId>, part: set<EntryId>,
                       during: seq<View>, after: seq<View>, j: nat)
    requires j < |shards| == |during| == |after| && after[j] == during[j]
    requires forall i :: 0 <= i <= j ==> part !! shards[i].entries.Keys
    requires ReclaimShard(shards, budget, now, gone, during, j)
    ensures ReclaimShard(shards, budget, now, gone + part, after, j)
  {
    CountGoneSame(shards[..j], gone, part);
    assert (gone + part) * shards[j].entries.Keys == gone * shards[j].entries.Keys;
  }

  lemma PartDisjoint(shards: seq<View>, i: nat, gone: set<EntryId>, part: set<EntryId>)
    requires DisjointShards(shards) && i < |shards|
    requires gone <= AllKeys(shards[..i]) && part <= shards[i].entries.Keys
    ensures forall j :: 0 <= j < i ==> part !! shards[j].entries.Keys
    ensures (gone + part) * shards[i].entries.Keys == part
    ensures gone + part <= AllKeys(shards[..i + 1])
  {
    forall id | id in gone
      ensures id !in shards[i].entries && id in AllKeys(shards[..i + 1])
    {
      var j :| 0 <= j < i && id in shards[..i][j].entries;
      assert id in shards[..i + 1][j].entries;
    }
    forall id | id in part
      ensures id in AllKeys(shards[..i + 1])
    {
      assert id in shards[..i + 1][i].entries;
    }
  }

  /** Exactly the shards listed in `done` have been invalidated. */
  ghost predicate InvalidatedAt(shards: seq<View>, done: seq<nat>, t: TagId, after: seq<View>) {
    && |after| == |shards|
    && forall j :: 0 <= j < |shards| ==> after[j] == if j in done then InvalidateView(shards[j], t) else shards[j]
  }

  lemma InvalidatedNone(shards: seq<View>, t: TagId)
    ensures InvalidatedAt(shards, [], t, shards)
  {
  }

  lemma InvalidatedSize(shards: seq<View>, done: seq<nat>, t: TagId, after: seq<View>)
    requires InvalidatedAt(shards, done, t, after)
    ensures |after| == |shards|
  {
  }

  lemma InvalidateOneMore(s: Sharded, order: seq<nat>, k: nat, t: TagId, during: seq<View>)
    requires k < |order| && Elements(order) == Routes(s.directory, t) && Routed(s)
    requires forall i, j :: 0 <= i < j < |order| ==> order[i] != order[j]
    requires InvalidatedAt(s.shards, order[..k], t, during)
    ensures order[k] < |s.shards| && during[order[k]] == s.shards[order[k]]
    ensures InvalidatedAt(s.shards, order[..k + 1], t, during[order[k] := InvalidateView(s.shards[order[k]], t)])
    ensures CountTagged(s.shards, Elements(order[..k + 1]), t) ==
            CountTagged(s.shards, Elements(order[..k]), t) + |Tagged(s.shards[order[k]].entries, t)|
  {
    assert order[k] in Elements(order);
    assert order[k] !in order[..k];
    assert order[..k + 1] == order[..k] + [order[k]];
    CountTaggedAdd(s.shards, Elements(order[..k]), t, order[k]);
    assert Elements(order[..k + 1]) == Elements(order[..k]) + {order[k]};
  }

  lemma InvalidatedWhole(s: Sharded, order: seq<nat>, t: TagId, s': Sharded)
    requires Elements(order) == Routes(s.directory, t)
    requires InvalidatedAt(s.shards, order, t, s'.shards)
    requires s'.directory == s.directory - {t}
    ensures InvalidateShards(s, t, s')
  {
    assert forall j :: j in order <==> j in Elements(order);
  }

  lemma InvalidateIsStep(hash: Hash, limits: Limits, s: Sharded, t: TagId, now: U64, removed: nat, s': Sharded)
    requires ShardedInv(hash, limits, s) && InvalidateShards(s, t, s')
    requires removed == CountTagged(s.shards, Routes(s.directory, t), t)
    ensures ShardedStep(hash, limits, s, Event(Invalidate(t), now, CountReply(removed), {}, []), s')
    ensures ShardedInv(hash, limits, s')
  {
    hide ShardedInv, InvalidateShards, CountTagged;
    InvSize(hash, limits, s);
    StepKeepsShardedInv(hash, limits, s, Event(Invalidate(t), now, CountReply(removed), {}, []), s');
  }

  lemma InvSize(hash: Hash, limits: Limits, s: Sharded)
    requires ShardedInv(hash, limits, s)
    ensures |s.shards| > 0
  {
  }

  class ShardedEngine {
    const shards: seq<Engine.Engine>
    const limits: Limits
    const hash: Hash
    var directory: Directory

    /** The shards are distinct, valid engines with the same share of the limits. */
    ghost predicate Wired()
      reads this, shards
    {
      && |shards| > 0
      && (forall i, j :: 0 <= i < j < |shards| ==> shards[i] != shards[j])
      && (forall i :: 0 <= i < |shards| ==> shards[i].Valid() && shards[i].limits == ShardLimits(limits, |shards|))
    }

    ghost predicate Valid()
      reads this, shards
    {
      Wired() && ShardedInv(hash, limits, Contents())
    }

    ghost function Contents(): Sharded
      reads this, shards
    {
      Sharded(seq(|shards|, i requires 0 <= i < |shards| reads shards => shards[i].Contents()), directory)
    }

    constructor (limits: Limits, hash: Hash, count: nat)
      requires count > 0 && limits.maxMemory < U64_MAX
      ensures Valid() && EmptySharded(Contents()) && |shards| == count
      ensures this.limits == limits && this.hash == hash
      ensures fresh(shards)
    {
      DivCeilSmall(limits.maxMemory, count);
      var built: seq<Engine.Engine> := [];
      while |built| < count
        invariant |built| <= count
        invariant fresh(built)
        invariant forall i :: 0 <= i < |built| ==>
                    built[i].Valid() && built[i].limits == ShardLimits(limits, count) && built[i].Contents() == EMPTY
        invariant forall i, j :: 0 <= i < j < |built| ==> built[i] != built[j]
      {
        var shard := new Engine.Engine(ShardLimits(limits, count));
        built := built + [shard];
      }
      shards := built;
      this.limits := limits;
      this.hash := hash;
      directory := map[];
      new;
      EmptyIsKept(hash, limits, Contents());
    }

    method UpdateTagRoutes(i: nat, adds: seq<TagId>, drops: seq<TagId>)
      requires NoEmptyRoute(directory)
      modifies `directory
      ensures Rerouted(old(directory), i, Elements(adds), Elements(drops), directory)
    {
      for k := 0 to |drops|
        invariant Rerouted(old(directory), i, {}, Elements(drops[..k]), directory)
      {
        var t := drops[k];
        ghost var before := directory;
        if t in directory {
          var left := directory[t] - {i};
          directory := if left == {} then directory - {t} else directory[t := left];
        }
        DropOne(old(directory), i, drops, k, before, directory);
      }
      assert drops[..|drops|] == drops;
      for k := 0 to |adds|
        invariant Rerouted(old(directory), i, Elements(adds[..k]), Elements(drops), directory)
      {
        var t := adds[k];
        AddOne(old(directory), i, adds, k, Elements(drops), directory, directory[t := Routes(directory, t) + {i}]);
        directory := directory[t := Routes(directory, t) + {i}];
      }
      assert adds[..|adds|] == adds;
    }

    /** Those of `tags` that no entry of shard `i` has any more. */
    method WithoutEntries(i: nat, tags: seq<TagId>) returns (gone: seq<TagId>)
      requires i < |shards| && shards[i].Valid()
      ensures forall t :: t in gone <==> t in tags && Tagged(shards[i].entries, t) == {}
    {
      gone := [];
      for k := 0 to |tags|
        invariant forall t :: t in gone <==> t in tags[..k] && Tagged(shards[i].entries, t) == {}
      {
        var held := shards[i].HasTagId(tags[k]);
        if !held {
          gone := gone + [tags[k]];
        }
      }
      assert tags[..|tags|] == tags;
    }

    /** The tags a call adds to the directory: those of the command if it was stored. */
    method NewTags(stored: bool, cmd: PutCommand, ghost e: Event) returns (adds: seq<TagId>)
      requires Written(e) == if stored then Some(cmd) else None
      ensures Elements(adds) == Adds(e)
    {
      adds := if stored then Engine.TagIds(cmd.id.ns, cmd.tags) else [];
    }

    /** The second half of a write or delete: with the shard done, the directory follows. */
    method FinishWrite(id: EntryId, i: nat, oldTags: seq<TagId>, adds: seq<TagId>, ghost before: Sharded,
                       ghost e: Event)
      requires Wired() && ShardedInv(hash, limits, before) && directory == before.directory
      requires i == Route(hash, |shards|, id) && OneShard(limits, before, e, i, Contents())
      requires (e.op.Put? || e.op.Delete? || e.op.Complete?) && Subject(e.op) == Some(id)
      requires Elements(oldTags) ==
               if id in before.shards[i].entries then TagsOf(id.ns, before.shards[i].entries[id].tags) else {}
      requires Elements(adds) == Adds(e)
      modifies `directory
      ensures Valid()
      ensures ShardedStep(hash, limits, before, e, Contents())
    {
      var drops := WithoutEntries(i, oldTags);
      assert Drops(before.shards[i], id, Contents().shards[i]) == Elements(drops);
      UpdateTagRoutes(i, adds, drops);
      assert KeyedStep(limits, before, e, id, i, Contents());
      StepKeepsShardedInv(hash, limits, before, e, Contents());
    }

    /** The first half of a put, under the shard's lock. */
    method PutInShard(i: nat, cmd: PutCommand, now: U64)
      returns (r: Result<nat, PutError>, oldTags: seq<TagId>, ghost reclaimed: set<EntryId>,
               ghost victims: seq<EntryId>)
      requires Wired() && i < |shards|
      modifies shards[i]
      ensures Wired()
      ensures OneShard(limits, old(Contents()), Event(EngineSpec.Put(cmd), now, PutReply(r), reclaimed, victims), i,
                       Contents())
      ensures var v := old(Contents()).shards[i];
              Elements(oldTags) == if cmd.id in v.entries then TagsOf(cmd.id.ns, v.entries[cmd.id].tags) else {}
    {
      hide Step;
      oldTags := shards[i].TagIdsForEntry(cmd.id);
      r, reclaimed, victims := shards[i].Put(cmd, now);
    }

    method CompleteInShard(i: nat, token: Text, cmd: PutCommand, now: U64)
      returns (r: Result<nat, CompleteError>, oldTags: seq<TagId>, ghost reclaimed: set<EntryId>,
               ghost victims: seq<EntryId>)
      requires Wired() && i < |shards|
      modifies shards[i]
      ensures Wired()
      ensures OneShard(limits, old(Contents()),
                       Event(Complete(token, cmd), now, CompleteReply(r), reclaimed, victims), i, Contents())
      ensures var v := old(Contents()).shards[i];
              Elements(oldTags) == if cmd.id in v.entries then TagsOf(cmd.id.ns, v.entries[cmd.id].tags) else {}
    {
      hide Step;
      oldTags := shards[i].TagIdsForEntry(cmd.id);
      r, reclaimed, victims := shards[i].CompleteLease(token, cmd, now);
    }

    method Put(cmd: PutCommand, now: U64)
      returns (r: Result<nat, PutError>, ghost reclaimed: set<EntryId>, ghost victims: seq<EntryId>)
      requires Valid()
      modifies `directory, shards
      ensures Valid()
      ensures ShardedStep(hash, limits, old(Contents()),
                          Event(EngineSpec.Put(cmd), now, PutReply(r), reclaimed, victims), Contents())
    {
      var i := Route(hash, |shards|, cmd.id);
      var oldTags;
      r, oldTags, reclaimed, victims := PutInShard(i, cmd, now);
      ghost var e := Event(EngineSpec.Put(cmd), now, PutReply(r), reclaimed, victims);
      var adds := NewTags(r.Ok?, cmd, e);
      FinishWrite(cmd.id, i, oldTags, adds, old(Contents()), e);
    }

    method Get(id: EntryId, now: U64, update: bool) returns (outcome: GetOutcome)
      requires Valid()
      modifies shards
      ensures Valid()
      ensures ShardedStep(hash, limits, old(Contents()),
                          Event(EngineSpec.Get(id, update), now, GetReply(outcome), {}, []), Contents())
    {
      hide Step, Placed, Routed, Inv;
      var i := Route(hash, |shards|, id);
      outcome := shards[i].Get(id, now, update);
      ghost var e := Event(EngineSpec.Get(id, update), now, GetReply(outcome), {}, []);
      assert KeyedStep(limits, old(Contents()), e, id, i, Contents());
      StepKeepsShardedInv(hash, limits, old(Contents()), e, Contents());
    }

    method Delete(id: EntryId, now: U64) returns (existed: bool)
      requires Valid()
      modifies `directory, shards
      ensures Valid()
      ensures ShardedStep(hash, limits, old(Contents()),
                          Event(EngineSpec.Delete(id), now, DeleteReply(existed), {}, []), Contents())
    {
      var i := Route(hash, |shards|, id);
      var oldTags := shards[i].TagIdsForEntry(id);
      existed := shards[i].Delete(id, now);
      FinishWrite(id, i, oldTags, [], old(Contents()), Event(EngineSpec.Delete(id), now, DeleteReply(existed), {}, []));
    }

    method StartLease(id: EntryId, ttl: U64, now: U64) returns (outcome: LeaseOutcome)
      requires Valid()
      modifies shards
      ensures Valid()
      ensures ShardedStep(hash, limits, old(Contents()), Event(Start(id, ttl), now, StartReply(outcome), {}, []),
                          Contents())
    {
      hide Step, Placed, Routed, Inv;
      var i := Route(hash, |shards|, id);
      outcome := shards[i].StartLease(id, ttl, now);
      ghost var e := Event(Start(id, ttl), now, StartReply(outcome), {}, []);
      assert KeyedStep(limits, old(Contents()), e, id, i, Contents());
      StepKeepsShardedInv(hash, limits, old(Contents()), e, Contents());
    }

    method CompleteLease(token: Text, cmd: PutCommand, now: U64)
      returns (r: Result<nat, CompleteError>, ghost reclaimed: set<EntryId>, ghost victims: seq<EntryId>)
      requires Valid()
      modifies `directory, shards
      ensures Valid()
      ensures ShardedStep(hash, limits, old(Contents()),
                          Event(Complete(token, cmd), now, CompleteReply(r), reclaimed, victims), Contents())
    {
      var i := Route(hash, |shards|, cmd.id);
      var oldTags;
      r, oldTags, reclaimed, victims := CompleteInShard(i, token, cmd, now);
      ghost var e := Event(Complete(token, cmd), now, CompleteReply(r), reclaimed, victims);
      var adds := NewTags(r.Ok?, cmd, e);
      FinishWrite(cmd.id, i, oldTags, adds, old(Contents()), e);
    }

    method InvalidateInShard(i: nat, t: TagId, now: U64) returns (count: nat)
      requires Wired() && i < |shards|
      modifies shards[i]
      ensures Wired()
      ensures count == |Tagged(old(Contents()).shards[i].entries, t)|
      ensures Contents().shards == old(Contents()).shards[i := InvalidateView(old(Contents()).shards[i], t)]
    {
      count := shards[i].InvalidateTag(t, now);
    }

    /** One turn of the loop of tag invalidation. */
    method InvalidateNext(order: seq<nat>, k: nat, t: TagId, now: U64, ghost before: Sharded) returns (count: nat)
      requires Wired() && Routed(before) && k < |order|
      requires Elements(order) == Routes(before.directory, t)
      requires forall i, j :: 0 <= i < j < |order| ==> order[i] != order[j]
      requires InvalidatedAt(before.shards, order[..k], t, Contents().shards)
      modifies shards
      ensures Wired()
      ensures InvalidatedAt(before.shards, order[..k + 1], t, Contents().shards)
      ensures CountTagged(before.shards, Elements(order[..k + 1]), t) ==
              CountTagged(before.shards, Elements(order[..k]), t) + count
    {
      InvalidatedSize(before.shards, order[..k], t, Contents().shards);
      hide InvalidatedAt, CountTagged, Routed, InvalidateView, Tagged;
      InvalidateOneMore(before, order, k, t, Contents().shards);
      count := InvalidateInShard(order[k], t, now);
    }

    /** The loop of tag invalidation over the routed shards, in whatever order the set gives. */
    method InvalidateListed(order: seq<nat>, t: TagId, now: U64, ghost before: Sharded) returns (removed: nat)
      requires Wired() && Contents().shards == before.shards && Routed(before)
      requires Elements(order) == Routes(before.directory, t)
      requires forall i, j :: 0 <= i < j < |order| ==> order[i] != order[j]
      modifies shards
      ensures Wired()
      ensures InvalidatedAt(before.shards, order, t, Contents().shards)
      ensures removed == CountTagged(before.shards, Elements(order), t)
    {
      hide InvalidatedAt, CountTagged, Routed, InvalidateView, Tagged;
      removed := 0;
      CountTaggedNone(before.shards, t);
      InvalidatedNone(before.shards, t);
      assert order[..0] == [] && Elements<nat>([]) == {};
      for k := 0 to |order|
        invariant Wired()
        invariant InvalidatedAt(before.shards, order[..k], t, Contents().shards)
        invariant removed == CountTagged(before.shards, Elements(order[..k]), t)
      {
        var count := InvalidateNext(order, k, t, now, before);
        removed := removed + count;
      }
      assert order[..|order|] == order;
    }

    /** Takes the routed shards in some order and invalidates the tag in each. */
    method InvalidateRouted(routed: set<nat>, t: TagId, now: U64, ghost before: Sharded) returns (removed: nat)
      requires Wired() && Contents().shards == before.shards && Routed(before) && routed == Routes(before.directory, t)
      modifies shards
      ensures Wired()
      ensures InvalidateShards(before, t, Contents().(directory := before.directory - {t}))
      ensures removed == CountTagged(before.shards, routed, t)
    {
      hide Routed, InvalidatedAt, InvalidateShards, CountTagged;
      var order := Iterate(routed);
      removed := InvalidateListed(order, t, now, before);
      InvalidatedWhole(before, order, t, Contents().(directory := before.directory - {t}));
    }

    method InvalidateTag(t: TagId, now: U64) returns (removed: nat)
      requires Valid()
      modifies `directory, shards
      ensures Valid()
      ensures ShardedStep(hash, limits, old(Contents()), Event(Invalidate(t), now, CountReply(removed), {}, []),
                          Contents())
    {
      hide Routed, Placed, Inv, InvalidateShards, CountTagged, ShardedStep;
      ghost var before := Contents();
      var routed := Routes(directory, t);
      directory := directory - {t};
      removed := InvalidateRouted(routed, t, now, before);
      InvalidateIsStep(hash, limits, before, t, now, removed, Contents());
    }

    method ReclaimInShard(i: nat, budget: nat, now: U64) returns (count: nat, ghost part: set<EntryId>)
      requires Wired() && i < |shards|
      modifies shards[i]
      ensures Wired()
      ensures count == |part|
      ensures ReclaimStep(old(Contents()).shards[i], budget, now, part, Contents().shards[i])
      ensures Contents().shards == old(Contents()).shards[i := Contents().shards[i]]
    {
      hide Step, ReclaimStep;
      if budget == 0 {
        NothingReclaimed(shards[i].Contents(), now);
        return 0, {};
      }
      ghost var v := shards[i].Contents();
      count, part := shards[i].ReclaimExpired(budget, now);
      ReclaimIsStep(shards[i].limits, v, budget, now, count, part, shards[i].Contents());
    }

    method ReclaimNextShard(i: nat, remaining: nat, now: U64, ghost before: seq<View>, ghost budget: nat,
                            ghost gone: set<EntryId>)
      returns (count: nat, ghost more: set<EntryId>)
      requires Wired() && i < |shards| && DisjointShards(before)
      requires ReclaimedUpTo(before, i, budget, now, gone, Contents().shards)
      requires remaining == SatSub(budget, CountGone(before[..i], gone))
      modifies shards[i]
      ensures Wired()
      ensures ReclaimedUpTo(before, i + 1, budget, now, more, Contents().shards)
      ensures CountGone(before[..i + 1], more) == CountGone(before[..i], gone) + count
    {
      ghost var during := Contents().shards;
      ghost var part;
      count, part := ReclaimInShard(i, remaining, now);
      ReclaimNext(before, i, budget, now, gone, part, during, Contents().shards);
      more := gone + part;
    }

    /** The loop of reclaim over all shards, each with what is left of the budget. */
    method ReclaimEach(budget: nat, now: U64) returns (removed: nat, ghost gone: set<EntryId>)
      requires Wired() && DisjointShards(Contents().shards)
      modifies shards
      ensures Wired()
      ensures ReclaimShards(old(Contents()).shards, budget, now, gone, Contents().shards)
      ensures removed == CountGone(old(Contents()).shards, gone)
    {
      hide ReclaimedUpTo, ReclaimShards, CountGone;
      ghost var before := Contents().shards;
      ReclaimedNone(before, budget, now);
      gone := {};
      var remaining := budget;
      removed := 0;
      for i := 0 to |shards|
        invariant Wired()
        invariant ReclaimedUpTo(before, i, budget, now, gone, Contents().shards)
        invariant removed == CountGone(before[..i], gone) && remaining == SatSub(budget, removed)
      {
        var count;
        count, gone := ReclaimNextShard(i, remaining, now, before, budget, gone);
        removed := removed + count;
        remaining := SatSub(remaining, count);
      }
      ReclaimedWhole(before, budget, now, gone, Contents().shards);
    }

    method ReclaimExpired(budget: nat, now: U64) returns (removed: nat, ghost gone: set<EntryId>)
      requires Valid()
      modifies shards
      ensures Valid()
      ensures ShardedStep(hash, limits, old(Contents()), Event(Reclaim(budget), now, CountReply(removed), gone, []),
                          Contents())
    {
      ghost var before := Contents();
      PlacedDisjoint(hash, before);
      removed, gone := ReclaimEach(budget, now);
      StepKeepsShardedInv(hash, limits, before, Event(Reclaim(budget), now, CountReply(removed), gone, []), Contents());
    }
  }
}
