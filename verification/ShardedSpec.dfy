/**
  The sharded cache with whole calls as atomic steps: keys are spread over
  shards by a hash, and a directory routes each tag to the shards that may hold it.
 */
module ShardedSpec {
  import opened Base
  import opened EngineSpec
  import opened EngineRuns

  type Hash = EntryId -> nat

  type Directory = map<TagId, set<nat>>

  datatype Sharded = Sharded(shards: seq<View>, directory: Directory)

  function Route(hash: Hash, n: nat, id: EntryId): (i: nat)
    requires n > 0
    ensures i < n
  {
    hash(id) % n
  }

  function DivCeil(a: nat, n: nat): nat
    requires n > 0
  {
    (a + n - 1) / n
  }

  function ShardLimits(limits: Limits, n: nat): Limits
    requires n > 0
  {
    Limits(DivCeil(limits.maxMemory, n), limits.maxValue)
  }

  // ----- The directory -----

  function Routes(dir: Directory, t: TagId): set<nat> {
    if t in dir then dir[t] else {}
  }

  predicate NoEmptyRoute(dir: Directory) {
    forall t :: t in dir ==> dir[t] != {}
  }

  /** Removals first, then additions, both for shard `i` only. */
  function NewRoutes(dir: Directory, i: nat, adds: set<TagId>, drops: set<TagId>, t: TagId): set<nat> {
    (if t in drops then Routes(dir, t) - {i} else Routes(dir, t)) + (if t in adds then {i} else {})
  }

  ghost predicate Rerouted(dir: Directory, i: nat, adds: set<TagId>, drops: set<TagId>, dir': Directory) {
    NoEmptyRoute(dir') && forall t :: Routes(dir', t) == NewRoutes(dir, i, adds, drops, t)
  }

  function Adds(e: Event): set<TagId> {
    if Written(e).Some? then TagsOf(Written(e).value.id.ns, Written(e).value.tags) else {}
  }

  /** The tags the named entry had before the call that no entry of the shard has after it. */
  function Drops(v: View, id: EntryId, v': View): set<TagId> {
    if id in v.entries then set t | t in TagsOf(id.ns, v.entries[id].tags) && Tagged(v'.entries, t) == {} else {}
  }

  // ----- Steps -----

  ghost predicate OneShard(limits: Limits, s: Sharded, e: Event, i: nat, s': Sharded) {
    && i < |s.shards| == |s'.shards|
    && Step(ShardLimits(limits, |s.shards|), s.shards[i], e, s'.shards[i])
    && forall j :: 0 <= j < |s.shards| && j != i ==> s'.shards[j] == s.shards[j]
  }

  ghost function CountTagged(shards: seq<View>, routed: set<nat>, t: TagId): nat {
    if shards == [] then 0
    else
      var k := |shards| - 1;
      CountTagged(shards[..k], routed, t) + if k in routed then |Tagged(shards[k].entries, t)| else 0
  }

  /** How many of `gone` the first shards held. */
  ghost function CountGone(shards: seq<View>, gone: set<EntryId>): nat {
    if shards == [] then 0
    else
      var k := |shards| - 1;
      CountGone(shards[..k], gone) + |gone * shards[k].entries.Keys|
  }

  /** Each shard reclaims with what the earlier ones left of the budget. */
  ghost predicate ReclaimShards(shards: seq<View>, budget: nat, now: U64, gone: set<EntryId>, shards': seq<View>) {
    && |shards'| == |shards|
    && forall i :: 0 <= i < |shards| ==> ReclaimShard(shards, budget, now, gone, shards', i)
  }

  ghost predicate ReclaimShard(shards: seq<View>, budget: nat, now: U64, gone: set<EntryId>, shards': seq<View>, i: nat)
    requires i < |shards| == |shards'|
  {
    ReclaimStep(shards[i], SatSub(budget, CountGone(shards[..i], gone)), now, gone * shards[i].entries.Keys, shards'[i])
  }

  ghost predicate InvalidateShards(s: Sharded, t: TagId, s': Sharded) {
    && |s'.shards| == |s.shards|
    && s'.directory == s.directory - {t}
    && forall i :: 0 <= i < |s.shards| ==>
         s'.shards[i] == if i in Routes(s.directory, t) then InvalidateView(s.shards[i], t) else s.shards[i]
  }

  /** A call that names a key works on that key's shard; writes and deletes then update the directory. */
  ghost predicate KeyedStep(limits: Limits, s: Sharded, e: Event, id: EntryId, i: nat, s': Sharded) {
    && OneShard(limits, s, e, i, s')
    && if e.op.Get? || e.op.Start? then s'.directory == s.directory
       else Rerouted(s.directory, i, Adds(e), Drops(s.shards[i], id, s'.shards[i]), s'.directory)
  }

  ghost predicate ShardedStep(hash: Hash, limits: Limits, s: Sharded, e: Event, s': Sharded)
    requires |s.shards| > 0
  {
    if e.op.Invalidate? then
      && Quiet(e)
      && e.reply == CountReply(CountTagged(s.shards, Routes(s.directory, e.op.tag), e.op.tag))
      && InvalidateShards(s, e.op.tag, s')
    else if e.op.Reclaim? then
      && e.evicted == []
      && e.reply == CountReply(CountGone(s.shards, e.reclaimed))
      && ReclaimShards(s.shards, e.op.budget, e.now, e.reclaimed, s'.shards)
      && s'.directory == s.directory
    else
      var id := Subject(e.op).value;
      KeyedStep(limits, s, e, id, Route(hash, |s.shards|, id), s')
  }

  ghost predicate EmptySharded(s: Sharded) {
    && |s.shards| > 0
    && (forall i :: 0 <= i < |s.shards| ==> s.shards[i] == EMPTY)
    && s.directory == map[]
  }

  ghost predicate ShardedRun(hash: Hash, limits: Limits, ss: seq<Sharded>, es: seq<Event>) {
    && |ss| == |es| + 1
    && EmptySharded(ss[0])
    && (forall i :: 0 <= i < |ss| ==> |ss[i].shards| == |ss[0].shards|)
    && (forall i :: 0 <= i < |es| ==> ShardedStep(hash, limits, ss[i], es[i], ss[i + 1]))
    && (forall i, j :: 0 <= i < j < |es| ==> es[i].now <= es[j].now)
  }

  // ----- What every call keeps -----

  /** Every entry and lease sits in the shard its key hashes to. */
  ghost predicate Placed(hash: Hash, s: Sharded)
    requires |s.shards| > 0
  {
    && (forall i, id :: 0 <= i < |s.shards| && id in s.shards[i].entries ==> Route(hash, |s.shards|, id) == i)
    && (forall i, id :: 0 <= i < |s.shards| && id in s.shards[i].leases ==> Route(hash, |s.shards|, id) == i)
  }

  /** The directory never misses a shard that holds the tag, and names only real shards. */
  ghost predicate Routed(s: Sharded) {
    && NoEmptyRoute(s.directory)
    && (forall t, i :: i in Routes(s.directory, t) ==> i < |s.shards|)
    && (forall i, t :: 0 <= i < |s.shards| && Tagged(s.shards[i].entries, t) != {} ==> i in Routes(s.directory, t))
  }

  ghost predicate ShardedInv(hash: Hash, limits: Limits, s: Sharded) {
    && |s.shards| > 0
    && (forall i :: 0 <= i < |s.shards| ==> Inv(ShardLimits(limits, |s.shards|), s.shards[i]))
    && Placed(hash, s)
    && Routed(s)
  }
}
