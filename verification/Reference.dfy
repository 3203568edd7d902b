/**
  The cache against an unbounded reference that never evicts and never expires:
  the history of calls alone says what each key's latest write is.
 */
module Reference {
  import opened Base
  import opened EngineSpec
  import opened EngineRuns
  import opened ShardedSpec
  import opened ShardedRuns

  datatype Write = Write(cmd: PutCommand, at: U64)

  /** The latest accepted write of `id` not followed by its delete or an invalidation of one of its tags. */
  function Latest(es: seq<Event>, id: EntryId): Option<Write> {
    if es == [] then None
    else After(Latest(es[..|es| - 1], id), es[|es| - 1], id)
  }

  function After(prior: Option<Write>, e: Event, id: EntryId): Option<Write> {
    if Written(e).Some? && Written(e).value.id == id then Some(Write(Written(e).value, e.now))
    else if e.op == Delete(id) then None
    else if e.op.Invalidate? && prior.Some? && id.ns == e.op.tag.ns && e.op.tag.tag in prior.value.cmd.tags then None
    else prior
  }

  /** The entry a write stores, up to its access stamp. */
  function Stored(w: Write): Entry {
    NewEntry(w.cmd, w.at, 0)
  }

  /** The shard `id` lives in. */
  function Home(hash: Hash, s: Sharded, id: EntryId): View
    requires |s.shards| > 0
  {
    s.shards[Route(hash, |s.shards|, id)]
  }

  /** What the shard holds under `id`, if anything, is exactly the write `w`. */
  predicate Agrees(v: View, id: EntryId, w: Option<Write>) {
    id in v.entries ==> w.Some? && w.value.cmd.id == id && SamePayload(v.entries[id], Stored(w.value))
  }

  /** The call took `id` out of its shard by eviction, or when its removable time had come. */
  predicate LostBy(hash: Hash, s: Sharded, e: Event, s': Sharded, id: EntryId, w: Write)
    requires |s.shards| > 0 && |s'.shards| > 0
  {
    && id in Home(hash, s, id).entries && id !in Home(hash, s', id).entries
    && (id in e.evicted || IsDue(Stored(w), e.now))
  }

  /** One shard's step keeps agreement, and a write that is still the latest goes missing only by loss. */
  lemma LocalAgrees(limits: Limits, v: View, x: Event, v': View, id: EntryId, prior: Option<Write>)
    requires Step(limits, v, x, v') && Agrees(v, id, prior)
    ensures Agrees(v', id, After(prior, x, id))
    ensures var w := After(prior, x, id);
            w.Some? && id !in v'.entries ==>
              prior == w && (id in v.entries ==> id in x.evicted || IsDue(Stored(w.value), x.now))
  {
    hide Step;
    StepFrame(limits, v, x, v');
    if id in v.entries && id !in v'.entries {
      StepLoss(limits, v, x, v', id);
    }
    StepTakes(limits, v, x, v', id);
  }

  lemma StepTakes(limits: Limits, v: View, x: Event, v': View, id: EntryId)
    requires Step(limits, v, x, v')
    ensures x.op == Delete(id) ==> id !in v'.entries
    ensures x.op.Invalidate? && id in v'.entries ==> id in v.entries && !HasTag(id, v.entries[id], x.op.tag)
  {
    hide PutStep;
    if x.op.Invalidate? && id in v'.entries {
      assert id !in Tagged(v.entries, x.op.tag);
    }
  }

  /** A shard that sees nothing of a call has nothing the call takes away. */
  lemma UnseenAgrees(hash: Hash, limits: Limits, s: Sharded, e: Event, id: EntryId, prior: Option<Write>)
    requires ShardedInv(hash, limits, s)
    requires Local(hash, s, e, Route(hash, |s.shards|, id)).None?
    requires Agrees(Home(hash, s, id), id, prior)
    ensures Agrees(Home(hash, s, id), id, After(prior, e, id))
    ensures After(prior, e, id).Some? ==> After(prior, e, id) == prior
  {
    if e.op.Invalidate? && id in Home(hash, s, id).entries {
      assert id !in Tagged(Home(hash, s, id).entries, e.op.tag);
    }
  }

  lemma LocalWrites(hash: Hash, s: Sharded, e: Event, j: nat)
    requires j < |s.shards| && Local(hash, s, e, j).Some?
    ensures var x := Local(hash, s, e, j).value; Written(x) == Written(e) && Subject(x.op) == Subject(e.op)
  {
    hide CountGone, Tagged, Routes;
    match e.op {
      case Invalidate(_) =>
      case Reclaim(_) =>
      case _ => assert Local(hash, s, e, j).value == e;
    }
  }

  lemma LocalSame(hash: Hash, s: Sharded, e: Event, j: nat, id: EntryId, prior: Option<Write>)
    requires j < |s.shards| && Local(hash, s, e, j).Some?
    ensures var x := Local(hash, s, e, j).value;
            After(prior, x, id) == After(prior, e, id) && x.evicted == e.evicted && x.now == e.now
  {
    hide CountGone, Tagged, Routes, Written;
    LocalWrites(hash, s, e, j);
    match e.op {
      case Invalidate(_) =>
      case Reclaim(_) =>
      case _ => assert Local(hash, s, e, j).value == e;
    }
  }

  lemma StepAgrees(hash: Hash, limits: Limits, s: Sharded, e: Event, s': Sharded, id: EntryId, prior: Option<Write>)
    requires ShardedInv(hash, limits, s) && ShardedStep(hash, limits, s, e, s')
    requires Agrees(Home(hash, s, id), id, prior)
    ensures |s'.shards| == |s.shards|
    ensures Agrees(Home(hash, s', id), id, After(prior, e, id))
    ensures var w := After(prior, e, id);
            w.Some? && id !in Home(hash, s', id).entries ==>
              prior == w && (id in Home(hash, s, id).entries ==> LostBy(hash, s, e, s', id, w.value))
  {
    var j := Route(hash, |s.shards|, id);
    LocalStep(hash, limits, s, e, s', j);
    var x := Local(hash, s, e, j);
    if x.Some? {
      LocalSame(hash, s, e, j, id, prior);
      LocalAgrees(ShardLimits(limits, |s.shards|), s.shards[j], x.value, s'.shards[j], id, prior);
    } else {
      UnseenAgrees(hash, limits, s, e, id, prior);
    }
  }

  /** In every state of every run the cache is a sub-map of the reference. */
  lemma {:induction false} SubMapOfReference(hash: Hash, limits: Limits, ss: seq<Sharded>, es: seq<Event>, k: nat,
                                             id: EntryId)
    requires ShardedRun(hash, limits, ss, es) && k <= |es|
    ensures Agrees(Home(hash, ss[k], id), id, Latest(es[..k], id))
  {
    hide ShardedStep, ShardedInv, After;
    if k > 0 {
      SubMapOfReference(hash, limits, ss, es, k - 1, id);
      RunKeepsShardedInv(hash, limits, ss, es, k - 1);
      assert es[..k][..k - 1] == es[..k - 1];
      StepAgrees(hash, limits, ss[k - 1], es[k - 1], ss[k], id, Latest(es[..k - 1], id));
    }
  }

  lemma RunStepLoss(hash: Hash, limits: Limits, ss: seq<Sharded>, es: seq<Event>, k: nat, id: EntryId)
    requires ShardedRun(hash, limits, ss, es) && k < |es|
    requires Latest(es[..k + 1], id).Some? && id !in Home(hash, ss[k + 1], id).entries
    ensures var w := Latest(es[..k + 1], id);
            && Latest(es[..k], id) == w
            && (id in Home(hash, ss[k], id).entries ==> LostBy(hash, ss[k], es[k], ss[k + 1], id, w.value))
  {
    hide ShardedStep, ShardedInv, After, Agrees;
    SubMapOfReference(hash, limits, ss, es, k, id);
    RunKeepsShardedInv(hash, limits, ss, es, k);
    assert es[..k + 1][..k] == es[..k];
    StepAgrees(hash, limits, ss[k], es[k], ss[k + 1], id, Latest(es[..k], id));
  }

  lemma LatestNeedsCalls(es: seq<Event>, k: nat, id: EntryId)
    requires k <= |es| && Latest(es[..k], id).Some?
    ensures k > 0
  {
  }

  /** The write `w` of `id` was lost to call `m`, and the key has not been in its shard since, up to state `k`. */
  ghost predicate LostSince(hash: Hash, ss: seq<Sharded>, es: seq<Event>, m: nat, k: nat, id: EntryId, w: Write)
    requires m < k <= |es| < |ss| && forall i :: 0 <= i < |ss| ==> |ss[i].shards| > 0
  {
    && Latest(es[..m], id) == Latest(es[..m + 1], id) == Some(w)
    && LostBy(hash, ss[m], es[m], ss[m + 1], id, w)
    && forall i :: m < i <= k ==> id !in Home(hash, ss[i], id).entries
  }

  /** A write the reference still has is missing only if some call evicted it or removed it when due. */
  lemma {:induction false} MissingOnlyIfLost(hash: Hash, limits: Limits, ss: seq<Sharded>, es: seq<Event>, k: nat,
                                             id: EntryId) returns (m: nat)
    requires ShardedRun(hash, limits, ss, es) && k <= |es|
    requires Latest(es[..k], id).Some? && id !in Home(hash, ss[k], id).entries
    ensures m < k && LostSince(hash, ss, es, m, k, id, Latest(es[..k], id).value)
  {
    hide ShardedStep, LostBy, Latest;
    LatestNeedsCalls(es, k, id);
    RunStepLoss(hash, limits, ss, es, k - 1, id);
    if id in Home(hash, ss[k - 1], id).entries {
      m := k - 1;
    } else {
      m := MissingOnlyIfLost(hash, limits, ss, es, k - 1, id);
    }
  }

  /** The write `w` of `id` was lost to some call before state `k`, and has been missing ever since. */
  ghost predicate Lost(hash: Hash, ss: seq<Sharded>, es: seq<Event>, k: nat, id: EntryId, w: Write)
    requires k <= |es| < |ss| && forall i :: 0 <= i < |ss| ==> |ss[i].shards| > 0
  {
    exists m: nat :: m < k && LostSince(hash, ss, es, m, k, id, w)
  }

  /** What the lifetimes of a write make of it. */
  function Aging(w: Write, now: U64): GetOutcome {
    match StateAt(Stored(w), now)
    case Fresh => Hit(w.cmd.value)
    case Aged => Stale(w.cmd.value)
    case Expired => Miss
  }

  /**
    What a read of `id` by call `k` has to return, read off the history: the latest
    write, as its lifetimes have it, unless there is none or it was lost.
   */
  ghost function ReadBack(hash: Hash, ss: seq<Sharded>, es: seq<Event>, k: nat, id: EntryId): GetOutcome
    requires k < |es| < |ss| && forall i :: 0 <= i < |ss| ==> |ss[i].shards| > 0
  {
    var w := Latest(es[..k], id);
    if w.None? || Lost(hash, ss, es, k, id, w.value) then Miss else Aging(w.value, es[k].now)
  }

  /** What the shard of `id` would answer before call `k`. */
  lemma HomeReads(hash: Hash, limits: Limits, ss: seq<Sharded>, es: seq<Event>, k: nat, id: EntryId)
    requires ShardedRun(hash, limits, ss, es) && k < |es|
    ensures ReadBack(hash, ss, es, k, id) == GetResult(Home(hash, ss[k], id), id, es[k].now)
  {
    hide ShardedStep, Latest;
    SubMapOfReference(hash, limits, ss, es, k, id);
    if Latest(es[..k], id).Some? && id !in Home(hash, ss[k], id).entries {
      var m := MissingOnlyIfLost(hash, limits, ss, es, k, id);
    }
  }

  /**
    Every get of every run returns exactly the latest write of that key, in the
    state its lifetimes give it; it misses just when there is none, it has
    expired, or that very write was lost and has been missing since.
   */
  lemma ReadsLatestWrite(hash: Hash, limits: Limits, ss: seq<Sharded>, es: seq<Event>, k: nat, id: EntryId,
                         update: bool)
    requires ShardedRun(hash, limits, ss, es) && k < |es|
    requires es[k].op == Get(id, update)
    ensures es[k].reply == GetReply(ReadBack(hash, ss, es, k, id))
  {
    hide ReadBack;
    assert ShardedStep(hash, limits, ss[k], es[k], ss[k + 1]);
    HomeReads(hash, limits, ss, es, k, id);
  }

  /** What a lease request shows of the stored value: a hit, a stale value kept from it, or nothing. */
  function Shown(outcome: LeaseOutcome): GetOutcome {
    match outcome
    case LeaseHit(value) => Hit(value)
    case LeaseStale(value) => Stale(value)
    case Granted(_, Some(value)) => Stale(value)
    case Granted(_, None) => Miss
    case Denied => Miss
  }

  /** The same for the values that lease requests hand out, with or without a grant. */
  lemma LeaseReadsLatestWrite(hash: Hash, limits: Limits, ss: seq<Sharded>, es: seq<Event>, k: nat, id: EntryId,
                              ttl: U64)
    requires ShardedRun(hash, limits, ss, es) && k < |es|
    requires es[k].op == Start(id, ttl)
    ensures es[k].reply.StartReply? && Shown(es[k].reply.lease) == ReadBack(hash, ss, es, k, id)
  {
    hide ReadBack;
    assert ShardedStep(hash, limits, ss[k], es[k], ss[k + 1]);
    LeaseShows(Home(hash, ss[k], id), id, ttl, es[k].now);
    HomeReads(hash, limits, ss, es, k, id);
  }

  /** A lease request shows of the stored value just what a get would. */
  lemma LeaseShows(v: View, id: EntryId, ttl: U64, now: U64)
    ensures Shown(StartLease(v, id, ttl, now).1) == GetResult(v, id, now)
  {
  }

  // ----- Reading one's own write -----

  /** The call neither writes nor deletes `id` and invalidates none of these tags of it. */
  predicate LeavesAlone(e: Event, id: EntryId, tags: seq<Text>) {
    && !(Written(e).Some? && Written(e).value.id == id)
    && e.op != Delete(id)
    && !(e.op.Invalidate? && e.op.tag.ns == id.ns && e.op.tag.tag in tags)
  }

  /** Call `n` wrote `id`, and no call between it and state `k` rewrites, deletes or invalidates what it wrote. */
  predicate Stands(es: seq<Event>, n: nat, k: nat, id: EntryId) {
    && n < k <= |es|
    && Written(es[n]).Some? && Written(es[n]).value.id == id
    && forall j :: n < j < k ==> LeavesAlone(es[j], id, Written(es[n]).value.tags)
  }

  function WriteOf(e: Event): Write
    requires Written(e).Some?
  {
    Write(Written(e).value, e.now)
  }

  /** A write stays the latest for as long as the calls after it leave it alone. */
  lemma {:induction false} LatestSince(es: seq<Event>, n: nat, k: nat, id: EntryId)
    requires Stands(es, n, k, id)
    ensures Latest(es[..k], id) == Some(WriteOf(es[n]))
  {
    assert es[..k][..k - 1] == es[..k - 1];
    if k > n + 1 {
      LatestSince(es, n, k - 1, id);
    }
  }

  /** And what is the latest was written by such a call. */
  lemma {:induction false} LatestStands(es: seq<Event>, k: nat, id: EntryId) returns (n: nat)
    requires k <= |es| && Latest(es[..k], id).Some?
    ensures Stands(es, n, k, id) && Latest(es[..k], id) == Some(WriteOf(es[n]))
  {
    LatestNeedsCalls(es, k, id);
    assert es[..k][..k - 1] == es[..k - 1];
    if Written(es[k - 1]).Some? && Written(es[k - 1]).value.id == id {
      n := k - 1;
    } else {
      n := LatestStands(es, k - 1, id);
    }
  }

  /** What is written is in its shard after the call. */
  lemma WrittenIsHome(hash: Hash, limits: Limits, s: Sharded, e: Event, s': Sharded, id: EntryId)
    requires |s.shards| > 0 && ShardedStep(hash, limits, s, e, s') && |s'.shards| == |s.shards|
    requires Written(e).Some? && Written(e).value.id == id
    ensures id in Home(hash, s', id).entries
  {
    hide Step;
    var i := Route(hash, |s.shards|, id);
    StepFrame(ShardLimits(limits, |s.shards|), s.shards[i], e, s'.shards[i]);
  }

  /** A call after the write `n` and before state `k` evicted it, or removed it when it was due. */
  ghost predicate LostBetween(hash: Hash, ss: seq<Sharded>, es: seq<Event>, n: nat, k: nat, id: EntryId)
    requires n < k <= |es| < |ss| && Written(es[n]).Some? && forall i :: 0 <= i < |ss| ==> |ss[i].shards| > 0
  {
    exists m :: n < m < k && LostBy(hash, ss[m], es[m], ss[m + 1], id, WriteOf(es[n]))
  }

  /** No call but a write brings a key back. */
  lemma {:induction false} StaysGone(hash: Hash, limits: Limits, ss: seq<Sharded>, es: seq<Event>, m: nat, k: nat,
                                     id: EntryId)
    requires ShardedRun(hash, limits, ss, es) && m <= k <= |es| && id !in Home(hash, ss[m], id).entries
    requires forall j :: m <= j < k ==> !(Written(es[j]).Some? && Written(es[j]).value.id == id)
    ensures id !in Home(hash, ss[k], id).entries
  {
    hide ShardedStep, Step;
    if m < k {
      StaysGone(hash, limits, ss, es, m, k - 1, id);
      var s, e := ss[k - 1], es[k - 1];
      var j := Route(hash, |s.shards|, id);
      assert ShardedStep(hash, limits, s, e, ss[k]);
      LocalStep(hash, limits, s, e, ss[k], j);
      var x := Local(hash, s, e, j);
      if x.Some? {
        StepFrame(ShardLimits(limits, |s.shards|), s.shards[j], x.value, ss[k].shards[j]);
        LocalWrites(hash, s, e, j);
      }
    }
  }

  /** The loss of a write comes after the write itself. */
  lemma LostAfterWrite(hash: Hash, limits: Limits, ss: seq<Sharded>, es: seq<Event>, n: nat, m: nat, k: nat,
                       id: EntryId, w: Write)
    requires ShardedRun(hash, limits, ss, es) && n < k <= |es| && Written(es[n]).Some? && Written(es[n]).value.id == id
    requires m < k && LostSince(hash, ss, es, m, k, id, w)
    ensures n < m && LostBy(hash, ss[m], es[m], ss[m + 1], id, w)
  {
    hide ShardedStep, LostBy, Latest;
    assert ShardedStep(hash, limits, ss[n], es[n], ss[n + 1]);
    WrittenIsHome(hash, limits, ss[n], es[n], ss[n + 1], id);
  }

  /** What was lost while the write stood is still lost. */
  lemma LostStaysLost(hash: Hash, limits: Limits, ss: seq<Sharded>, es: seq<Event>, n: nat, m: nat, k: nat, id: EntryId)
    requires ShardedRun(hash, limits, ss, es) && Stands(es, n, k, id)
    requires n < m < k && id !in Home(hash, ss[m + 1], id).entries
    ensures Lost(hash, ss, es, k, id, WriteOf(es[n]))
  {
    hide ShardedRun, LostBy, LostSince, Latest, Home;
    RunShards(hash, limits, ss, es);
    LatestSince(es, n, k, id);
    StaysGone(hash, limits, ss, es, m + 1, k, id);
    var l := MissingOnlyIfLost(hash, limits, ss, es, k, id);
  }

  /** A write that stands has been lost just when a call since evicted it or removed it when due. */
  lemma LostIff(hash: Hash, limits: Limits, ss: seq<Sharded>, es: seq<Event>, n: nat, k: nat, id: EntryId)
    requires ShardedRun(hash, limits, ss, es) && Stands(es, n, k, id)
    ensures Lost(hash, ss, es, k, id, WriteOf(es[n])) <==> LostBetween(hash, ss, es, n, k, id)
  {
    hide ShardedRun, LostBy, LostSince, LeavesAlone;
    RunShards(hash, limits, ss, es);
    var w := WriteOf(es[n]);
    if Lost(hash, ss, es, k, id, w) {
      var m: nat :| m < k && LostSince(hash, ss, es, m, k, id, w);
      LostAfterWrite(hash, limits, ss, es, n, m, k, id, w);
    } else if LostBetween(hash, ss, es, n, k, id) {
      var m :| n < m < k && LostBy(hash, ss[m], es[m], ss[m + 1], id, w);
      LostIsGone(hash, ss[m], es[m], ss[m + 1], id, w);
      LostStaysLost(hash, limits, ss, es, n, m, k, id);
    }
  }

  lemma RunShards(hash: Hash, limits: Limits, ss: seq<Sharded>, es: seq<Event>)
    requires ShardedRun(hash, limits, ss, es)
    ensures |ss| == |es| + 1 && forall i :: 0 <= i < |ss| ==> |ss[i].shards| > 0
  {
    hide ShardedStep;
  }

  lemma LostIsGone(hash: Hash, s: Sharded, e: Event, s': Sharded, id: EntryId, w: Write)
    requires |s.shards| > 0 && |s'.shards| > 0 && LostBy(hash, s, e, s', id, w)
    ensures id !in Home(hash, s', id).entries
  {
  }

  /**
    Read your write: a get after a write that nothing since has rewritten, deleted
    or invalidated answers exactly by that write's lifetimes, unless a call
    between the two evicted it or removed it when it was due, and then it misses.
   */
  lemma ReadsOwnWrite(hash: Hash, limits: Limits, ss: seq<Sharded>, es: seq<Event>, n: nat, k: nat, id: EntryId,
                      update: bool)
    requires ShardedRun(hash, limits, ss, es) && k < |es| && Stands(es, n, k, id)
    requires es[k].op == Get(id, update)
    ensures es[k].reply ==
            GetReply(if LostBetween(hash, ss, es, n, k, id) then Miss else Aging(WriteOf(es[n]), es[k].now))
  {
    hide ShardedStep, Lost, LostBetween, Stands;
    ReadsLatestWrite(hash, limits, ss, es, k, id, update);
    LatestSince(es, n, k, id);
    LostIff(hash, limits, ss, es, n, k, id);
  }
}
