/**
  One engine and the cache that is served: each shard of a run of the sharded
  cache makes a run of its own, so what holds of every run of an engine holds of
  the shard a key lives in.
 */
module Served {
  import opened Base
  import opened EngineSpec
  import opened EngineRuns
  import opened ShardedSpec
  import opened ShardedRuns
  import opened Leases
  import opened Reference

  // ----- The run of one shard -----

  /** Call `k` of the cache is no call of shard `j`, or the shard's call number `at[k]`. */
  ghost predicate PlacedAt(hash: Hash, ss: seq<Sharded>, es: seq<Event>, j: nat, xs: seq<Event>, at: seq<nat>, k: nat)
    requires k < |es| < |ss| && j < |ss[k].shards| && k + 1 < |at|
  {
    match Local(hash, ss[k], es[k], j)
    case None => at[k + 1] == at[k]
    case Some(x) => at[k + 1] == at[k] + 1 && at[k] < |xs| && xs[at[k]] == x
  }

  /** The first `n` calls of the cache are the calls `xs` of shard `j`, which takes the states `vs`. */
  ghost predicate Projects(hash: Hash, ss: seq<Sharded>, es: seq<Event>, j: nat, n: nat, vs: seq<View>, xs: seq<Event>,
                           at: seq<nat>)
  {
    && n <= |es| < |ss| && |at| == n + 1 && |vs| == |xs| + 1 && at[0] == 0 && at[n] == |xs|
    && (forall k :: 0 <= k <= n ==> j < |ss[k].shards| && at[k] <= |xs| && vs[at[k]] == ss[k].shards[j])
    && forall k :: 0 <= k < n ==> PlacedAt(hash, ss, es, j, xs, at, k)
  }

  lemma ProjectsSize(hash: Hash, ss: seq<Sharded>, es: seq<Event>, j: nat, n: nat, vs: seq<View>, xs: seq<Event>,
                     at: seq<nat>)
    requires Projects(hash, ss, es, j, n, vs, xs, at)
    ensures n <= |es| < |ss| && |at| == n + 1 && |vs| == |xs| + 1
  {
    hide PlacedAt;
  }

  lemma ProjectsOne(hash: Hash, ss: seq<Sharded>, es: seq<Event>, j: nat, n: nat, vs: seq<View>, xs: seq<Event>,
                    at: seq<nat>)
    requires Projects(hash, ss, es, j, n, vs, xs, at) && n < |es| && j < |ss[n + 1].shards|
    ensures match Local(hash, ss[n], es[n], j)
            case None => ss[n + 1].shards[j] == ss[n].shards[j] ==>
              Projects(hash, ss, es, j, n + 1, vs, xs, at + [|xs|])
            case Some(x) => Projects(hash, ss, es, j, n + 1, vs + [ss[n + 1].shards[j]], xs + [x], at + [|xs| + 1])
  {
    hide Local;
    var x := Local(hash, ss[n], es[n], j);
    var ys, places := if x.Some? then xs + [x.value] else xs, at + [if x.Some? then |xs| + 1 else |xs|];
    forall k | 0 <= k < n + 1
      ensures PlacedAt(hash, ss, es, j, ys, places, k)
    {
      assert k < n ==> PlacedAt(hash, ss, es, j, xs, at, k);
    }
  }

  /** Each shard makes a run of the engine, with its share of the memory. */
  lemma {:induction false} ShardRuns(hash: Hash, limits: Limits, ss: seq<Sharded>, es: seq<Event>, j: nat, n: nat)
    returns (vs: seq<View>, xs: seq<Event>, at: seq<nat>)
    requires ShardedRun(hash, limits, ss, es) && j < |ss[0].shards| && n <= |es|
    ensures Run(ShardLimits(limits, |ss[0].shards|), vs, xs) && Projects(hash, ss, es, j, n, vs, xs, at)
    ensures forall i, k :: 0 <= i < |xs| && n <= k < |es| ==> xs[i].now <= es[k].now
  {
    hide ShardedStep, Step, Local;
    if n == 0 {
      vs, xs, at := [EMPTY], [], [0];
    } else {
      var ws, ys, before := ShardRuns(hash, limits, ss, es, j, n - 1);
      assert ShardedStep(hash, limits, ss[n - 1], es[n - 1], ss[n]);
      LocalStep(hash, limits, ss[n - 1], es[n - 1], ss[n], j);
      ProjectsOne(hash, ss, es, j, n - 1, ws, ys, before);
      match Local(hash, ss[n - 1], es[n - 1], j) {
        case None => vs, xs, at := ws, ys, before + [|ys|];
        case Some(x) =>
          LocalTime(hash, ss[n - 1], es[n - 1], j);
          OneMore(ShardLimits(limits, |ss[0].shards|), ws, ys, x, ss[n].shards[j]);
          vs, xs, at := ws + [ss[n].shards[j]], ys + [x], before + [|ys| + 1];
      }
    }
  }

  lemma LocalTime(hash: Hash, s: Sharded, e: Event, j: nat)
    requires j < |s.shards| && Local(hash, s, e, j).Some?
    ensures Local(hash, s, e, j).value.now == e.now
  {
    hide CountGone, Tagged, Routes;
  }

  lemma {:induction false} PlacesGrow(hash: Hash, ss: seq<Sharded>, es: seq<Event>, j: nat, n: nat, vs: seq<View>,
                                      xs: seq<Event>, at: seq<nat>, a: nat, b: nat)
    requires Projects(hash, ss, es, j, n, vs, xs, at) && a <= b <= n
    ensures at[a] <= at[b]
  {
    hide Local;
    if a < b {
      PlacesGrow(hash, ss, es, j, n, vs, xs, at, a, b - 1);
      assert PlacedAt(hash, ss, es, j, xs, at, b - 1);
    }
  }

  /** The call of the cache behind call `x` of the shard. */
  ghost predicate Behind(hash: Hash, ss: seq<Sharded>, es: seq<Event>, j: nat, vs: seq<View>, xs: seq<Event>, x: nat,
                         k: nat)
  {
    && k < |es| < |ss| && x < |xs| < |vs| && j < |ss[k].shards| && j < |ss[k + 1].shards|
    && Local(hash, ss[k], es[k], j) == Some(xs[x])
    && vs[x] == ss[k].shards[j] && vs[x + 1] == ss[k + 1].shards[j]
  }

  lemma CallBehind(hash: Hash, ss: seq<Sharded>, es: seq<Event>, j: nat, n: nat, vs: seq<View>, xs: seq<Event>,
                   at: seq<nat>, x: nat) returns (k: nat)
    requires Projects(hash, ss, es, j, n, vs, xs, at) && x < |xs|
    ensures k < n && at[k] == x && Behind(hash, ss, es, j, vs, xs, x, k)
  {
    hide Local;
    k := 0;
    while at[k + 1] <= x
      invariant k < n && at[k] <= x
      decreases n - k
    {
      k := k + 1;
    }
    assert PlacedAt(hash, ss, es, j, xs, at, k);
  }

  /** A call that names a key is a call of the key's shard. */
  lemma KeyedPlace(hash: Hash, ss: seq<Sharded>, es: seq<Event>, j: nat, n: nat, vs: seq<View>, xs: seq<Event>,
                   at: seq<nat>, k: nat)
    requires Projects(hash, ss, es, j, n, vs, xs, at) && k < n && |ss[k].shards| > 0
    requires Subject(es[k].op).Some? && j == Route(hash, |ss[k].shards|, Subject(es[k].op).value)
    ensures at[k] < |xs| && at[k + 1] == at[k] + 1 && xs[at[k]] == es[k]
    ensures vs[at[k]] == ss[k].shards[j] && vs[at[k] + 1] == ss[k + 1].shards[j]
  {
    hide Local;
    assert PlacedAt(hash, ss, es, j, xs, at, k);
    KeyedLocal(hash, ss[k], es[k], j);
  }

  lemma KeyedLocal(hash: Hash, s: Sharded, e: Event, j: nat)
    requires |s.shards| > 0 && Subject(e.op).Some? && j == Route(hash, |s.shards|, Subject(e.op).value)
    ensures Local(hash, s, e, j) == Some(e)
  {
    hide CountGone, Tagged, Routes;
  }

  // ----- Leases of the cache -----

  lemma SameEnding(hash: Hash, s: Sharded, e: Event, j: nat, v: View, v': View, id: EntryId)
    requires j < |s.shards| && Local(hash, s, e, j).Some?
    requires EndsLease(v, Local(hash, s, e, j).value, v', id)
    ensures EndsLease(v, e, v', id)
  {
    hide CountGone, Tagged, Routes;
    LocalWrites(hash, s, e, j);
    match e.op {
      case Invalidate(_) =>
      case Reclaim(_) =>
      case _ => assert Local(hash, s, e, j).value == e;
    }
  }

  /** Call `k` of the cache completed the lease on `id`, deleted the key, or removed or replaced an entry of it. */
  ghost predicate Ends(hash: Hash, ss: seq<Sharded>, es: seq<Event>, k: nat, id: EntryId)
    requires k < |es| < |ss| && |ss[k].shards| > 0 && |ss[k + 1].shards| > 0
  {
    EndsLease(Home(hash, ss[k], id), es[k], Home(hash, ss[k + 1], id), id)
  }

  /**
    A second grant for a key by the first one's deadline means that in between the
    lease was completed, the key was deleted, or an existing entry of it was removed.
   */
  lemma SecondGrant(hash: Hash, limits: Limits, ss: seq<Sharded>, es: seq<Event>, i: nat, k: nat, id: EntryId)
    requires ShardedRun(hash, limits, ss, es) && i < k < |es|
    requires Grants(es[i], id) && Grants(es[k], id) && es[k].now <= GrantedLease(es[i]).expiresAt
    ensures exists m :: i < m < k && Ends(hash, ss, es, m, id)
  {
    hide ShardedStep, EndsLease, PlacedAt, Run, Ends, GrantedLease;
    var j := Route(hash, |ss[0].shards|, id);
    var vs, xs, at := ShardRuns(hash, limits, ss, es, j, |es|);
    KeyedPlace(hash, ss, es, j, |es|, vs, xs, at, i);
    KeyedPlace(hash, ss, es, j, |es|, vs, xs, at, k);
    PlacesGrow(hash, ss, es, j, |es|, vs, xs, at, i + 1, k);
    GrantsOfShard(ShardLimits(limits, |ss[0].shards|), hash, ss, es, j, vs, xs, at, i, k, id);
  }

  lemma GrantsOfShard(share: Limits, hash: Hash, ss: seq<Sharded>, es: seq<Event>, j: nat, vs: seq<View>,
                      xs: seq<Event>, at: seq<nat>, i: nat, k: nat, id: EntryId)
    requires Run(share, vs, xs) && Projects(hash, ss, es, j, |es|, vs, xs, at)
    requires i < k < |es| && at[i] < at[k] < |xs| && xs[at[i]] == es[i] && xs[at[k]] == es[k]
    requires Grants(es[i], id) && Grants(es[k], id) && es[k].now <= GrantedLease(es[i]).expiresAt
    requires forall n :: 0 <= n <= |es| ==> |ss[n].shards| > 0 && j == Route(hash, |ss[n].shards|, id)
    ensures exists m :: i < m < k && Ends(hash, ss, es, m, id)
  {
    hide Run, Ended, Projects, Ends, Route;
    ProjectsSize(hash, ss, es, j, |es|, vs, xs, at);
    NoSecondGrant(share, vs, xs, at[i], at[k], id);
    var x :| at[i] < x < at[k] && Ended(vs, xs, x, id);
    EndedBetween(hash, ss, es, j, vs, xs, at, i, x, k, id);
  }

  lemma EndedBetween(hash: Hash, ss: seq<Sharded>, es: seq<Event>, j: nat, vs: seq<View>, xs: seq<Event>, at: seq<nat>,
                     i: nat, x: nat, k: nat, id: EntryId)
    requires Projects(hash, ss, es, j, |es|, vs, xs, at) && i < k < |es| && at[i] < x < at[k]
    requires Ended(vs, xs, x, id)
    requires forall n :: 0 <= n <= |es| ==> |ss[n].shards| > 0 && j == Route(hash, |ss[n].shards|, id)
    ensures exists m :: i < m < k && Ends(hash, ss, es, m, id)
  {
    hide PlacedAt, Ended, Ends, Route;
    var m := EndingBehind(hash, ss, es, j, vs, xs, at, x, id);
    Between(hash, ss, es, j, |es|, vs, xs, at, i, m, k);
    assert Ends(hash, ss, es, m, id);
  }

  lemma EndingBehind(hash: Hash, ss: seq<Sharded>, es: seq<Event>, j: nat, vs: seq<View>, xs: seq<Event>,
                     at: seq<nat>, x: nat, id: EntryId) returns (m: nat)
    requires Projects(hash, ss, es, j, |es|, vs, xs, at) && x < |xs| && Ended(vs, xs, x, id)
    requires forall k :: 0 <= k <= |es| ==> |ss[k].shards| > 0 && j == Route(hash, |ss[k].shards|, id)
    ensures m < |es| && at[m] == x && Ends(hash, ss, es, m, id)
  {
    hide EndsLease, Local, Route, PlacedAt;
    m := CallBehind(hash, ss, es, j, |es|, vs, xs, at, x);
    SameEnding(hash, ss[m], es[m], j, vs[x], vs[x + 1], id);
  }

  lemma Between(hash: Hash, ss: seq<Sharded>, es: seq<Event>, j: nat, n: nat, vs: seq<View>, xs: seq<Event>,
                at: seq<nat>, i: nat, m: nat, k: nat)
    requires Projects(hash, ss, es, j, n, vs, xs, at) && i <= n && m <= n && k <= n && at[i] < at[m] < at[k]
    ensures i < m < k
  {
    if m <= i {
      PlacesGrow(hash, ss, es, j, n, vs, xs, at, m, i);
    }
    if k <= m {
      PlacesGrow(hash, ss, es, j, n, vs, xs, at, k, m);
    }
  }

  /** A completion the cache accepts presents the token of a grant on that very key, in time and not yet used. */
  lemma AcceptedWasGranted(hash: Hash, limits: Limits, ss: seq<Sharded>, es: seq<Event>, k: nat) returns (i: nat)
    requires ShardedRun(hash, limits, ss, es) && k < |es| && Accepts(es[k])
    ensures GrantBehind(es, i, k, es[k].op.cmd.id)
    ensures es[i].reply.lease.token == es[k].op.token
    ensures es[k].now <= SatAdd(es[i].now, es[i].op.leaseTtl)
  {
    hide ShardedStep;
    var id := es[k].op.cmd.id;
    var j := Route(hash, |ss[0].shards|, id);
    var vs, xs, at := ShardRuns(hash, limits, ss, es, j, |es|);
    KeyedPlace(hash, ss, es, j, |es|, vs, xs, at, k);
    var x := AcceptedTokenWasGranted(ShardLimits(limits, |ss[0].shards|), vs, xs, at[k]);
    i := CallBehind(hash, ss, es, j, |es|, vs, xs, at, x);
    LocalGrant(hash, ss[i], es[i], j, id);
    BehindIsEarlier(hash, ss, es, j, vs, xs, at, i, k);
    forall m | i < m < k
      ensures !Grants(es[m], id) && !(Accepts(es[m]) && es[m].op.cmd.id == id)
    {
      NothingBetween(hash, ss, es, j, vs, xs, at, i, m, k, id);
    }
  }

  /** What a grant still stands behind in the shard, it stands behind in the cache. */
  lemma NothingBetween(hash: Hash, ss: seq<Sharded>, es: seq<Event>, j: nat, vs: seq<View>, xs: seq<Event>,
                       at: seq<nat>, i: nat, m: nat, k: nat, id: EntryId)
    requires Projects(hash, ss, es, j, |es|, vs, xs, at) && i < m < k <= |es| && GrantBehind(xs, at[i], at[k], id)
    requires Local(hash, ss[i], es[i], j).Some? && |ss[m].shards| > 0 && j == Route(hash, |ss[m].shards|, id)
    ensures !Grants(es[m], id) && !(Accepts(es[m]) && es[m].op.cmd.id == id)
  {
    hide Local, Route;
    assert PlacedAt(hash, ss, es, j, xs, at, i);
    PlacesGrow(hash, ss, es, j, |es|, vs, xs, at, i + 1, m);
    PlacesGrow(hash, ss, es, j, |es|, vs, xs, at, m + 1, k);
    if Subject(es[m].op) == Some(id) {
      KeyedPlace(hash, ss, es, j, |es|, vs, xs, at, m);
    }
  }

  lemma BehindIsEarlier(hash: Hash, ss: seq<Sharded>, es: seq<Event>, j: nat, vs: seq<View>, xs: seq<Event>,
                        at: seq<nat>, i: nat, k: nat)
    requires Projects(hash, ss, es, j, |es|, vs, xs, at) && i <= |es| && k <= |es| && at[i] < at[k]
    ensures i < k
  {
    if k <= i {
      PlacesGrow(hash, ss, es, j, |es|, vs, xs, at, k, i);
    }
  }

  lemma LocalGrant(hash: Hash, s: Sharded, e: Event, j: nat, id: EntryId)
    requires j < |s.shards| && Local(hash, s, e, j).Some? && Grants(Local(hash, s, e, j).value, id)
    ensures Local(hash, s, e, j).value == e
  {
    hide CountGone, Tagged, Routes;
  }

  /** The number in the token of grant `k`: the counter of the key's shard. */
  ghost function StampOf(hash: Hash, ss: seq<Sharded>, es: seq<Event>, k: nat): U64
    requires k < |es| < |ss| && |ss[k].shards| > 0 && es[k].op.Start?
  {
    GrantStamp(Home(hash, ss[k], es[k].op.id), es[k].op.id, es[k].now)
  }

  /**
    Two grants of the cache carry the same token exactly when the counters of
    their shards stood at the same number; on one shard that is the last number.
   */
  lemma SameTokenIff(hash: Hash, limits: Limits, ss: seq<Sharded>, es: seq<Event>, i: nat, k: nat)
    requires ShardedRun(hash, limits, ss, es) && i < k < |es|
    requires es[i].op.Start? && Grants(es[i], es[i].op.id) && es[k].op.Start? && Grants(es[k], es[k].op.id)
    ensures es[i].reply.lease.token == es[k].reply.lease.token <==>
              StampOf(hash, ss, es, i) == StampOf(hash, ss, es, k)
    ensures Route(hash, |ss[0].shards|, es[i].op.id) == Route(hash, |ss[0].shards|, es[k].op.id) ==>
              (StampOf(hash, ss, es, i) == StampOf(hash, ss, es, k) <==> StampOf(hash, ss, es, i) == U64_MAX)
  {
    hide ShardedStep, LeaseToken, GrantStamp;
    ServedToken(hash, limits, ss, es, i);
    ServedToken(hash, limits, ss, es, k);
    var m, n := StampOf(hash, ss, es, i), StampOf(hash, ss, es, k);
    if LeaseToken(m) == LeaseToken(n) {
      LeaseTokenInjective(m, n);
    }
    var j := Route(hash, |ss[0].shards|, es[i].op.id);
    if Route(hash, |ss[0].shards|, es[k].op.id) == j {
      var vs, xs, at := ShardRuns(hash, limits, ss, es, j, |es|);
      KeyedPlace(hash, ss, es, j, |es|, vs, xs, at, i);
      KeyedPlace(hash, ss, es, j, |es|, vs, xs, at, k);
      PlacesGrow(hash, ss, es, j, |es|, vs, xs, at, i + 1, k);
      TokenReissuedIff(ShardLimits(limits, |ss[0].shards|), vs, xs, at[i], at[k]);
    }
  }

  lemma ServedToken(hash: Hash, limits: Limits, ss: seq<Sharded>, es: seq<Event>, k: nat)
    requires ShardedRun(hash, limits, ss, es) && k < |es| && es[k].op.Start? && Grants(es[k], es[k].op.id)
    ensures es[k].reply.lease.token == LeaseToken(StampOf(hash, ss, es, k))
  {
    hide LeaseToken, GrantStamp, Step;
    assert ShardedStep(hash, limits, ss[k], es[k], ss[k + 1]);
    var id := es[k].op.id;
    var j := Route(hash, |ss[k].shards|, id);
    GrantToken(ShardLimits(limits, |ss[k].shards|), ss[k].shards[j], es[k], ss[k + 1].shards[j], id);
  }

  /** No token but the one with the last number is accepted twice for keys of one shard. */
  lemma AcceptedOnce(hash: Hash, limits: Limits, ss: seq<Sharded>, es: seq<Event>, i: nat, k: nat)
    requires ShardedRun(hash, limits, ss, es) && i < k < |es| && Accepts(es[i]) && Accepts(es[k])
    requires Route(hash, |ss[0].shards|, es[i].op.cmd.id) == Route(hash, |ss[0].shards|, es[k].op.cmd.id)
    ensures es[i].op.token == es[k].op.token ==> es[i].op.token == LeaseToken(U64_MAX)
  {
    hide ShardedStep, LeaseToken;
    var j := Route(hash, |ss[0].shards|, es[i].op.cmd.id);
    var vs, xs, at := ShardRuns(hash, limits, ss, es, j, |es|);
    KeyedPlace(hash, ss, es, j, |es|, vs, xs, at, i);
    KeyedPlace(hash, ss, es, j, |es|, vs, xs, at, k);
    PlacesGrow(hash, ss, es, j, |es|, vs, xs, at, i + 1, k);
    TokenAcceptedOnce(ShardLimits(limits, |ss[0].shards|), vs, xs, at[i], at[k]);
  }

  /** Across shards tokens do repeat: the first grants of two shards carry the same one. */
  lemma ShardsShareTokens(hash: Hash, limits: Limits, a: EntryId, b: EntryId, now: U64)
    returns (ss: seq<Sharded>, es: seq<Event>)
    requires Route(hash, 2, a) == 0 && Route(hash, 2, b) == 1
    ensures ShardedRun(hash, limits, ss, es) && |es| == 2 && Grants(es[0], a) && Grants(es[1], b)
    ensures es[0].reply.lease.token == es[1].reply.lease.token
  {
    hide LeaseToken;
    var token := LeaseToken(0);
    var x := Event(Start(a, 0), now, StartReply(Granted(token, None)), {}, []);
    var y := Event(Start(b, 0), now, StartReply(Granted(token, None)), {}, []);
    var v := View(map[], map[a := Lease(token, SatAdd(now, 0))], 1);
    var w := View(map[], map[b := Lease(token, SatAdd(now, 0))], 1);
    ss := [Sharded([EMPTY, EMPTY], map[]), Sharded([v, EMPTY], map[]), Sharded([v, w], map[])];
    es := [x, y];
    assert KeyedStep(limits, ss[0], x, a, 0, ss[1]);
    assert KeyedStep(limits, ss[1], y, b, 1, ss[2]);
    TwoSteps(hash, limits, ss, es);
  }

  // ----- Writes of the cache -----

  /** What `EngineRuns.PutOutcome` says of an engine, said of the key's shard with its share of the memory. */
  lemma ServedPut(hash: Hash, limits: Limits, ss: seq<Sharded>, es: seq<Event>, k: nat, cmd: PutCommand)
    requires ShardedRun(hash, limits, ss, es) && k < |es| && es[k].op == Put(cmd)
    ensures es[k].reply.PutReply?
    ensures var size, r := EntryMemory(cmd.id, cmd.value, cmd.tags), es[k].reply.put;
            && (r.Ok? <==> |cmd.value| <= limits.maxValue && size <= DivCeil(limits.maxMemory, |ss[0].shards|))
            && (r.Err? ==> !r.error.InsufficientMemory? && Home(hash, ss[k + 1], cmd.id) == Home(hash, ss[k], cmd.id))
            && (r.Ok? ==> GetResult(Home(hash, ss[k + 1], cmd.id), cmd.id, es[k].now) == Hit(cmd.value))
  {
    hide ShardedStep, EntryMemory;
    var j := Route(hash, |ss[0].shards|, cmd.id);
    var vs, xs, at := ShardRuns(hash, limits, ss, es, j, |es|);
    KeyedPlace(hash, ss, es, j, |es|, vs, xs, at, k);
    PutOutcome(ShardLimits(limits, |ss[0].shards|), vs, xs, at[k], cmd);
  }

  /**
    Whatever the cache evicts is evicted by sampled LRU in the shard of the key that
    is written: nothing left there is due, the write does not fit yet, and the
    victim has at least `min(16, n) - 1` more recently used entries beside it.
   */
  lemma ServedLru(hash: Hash, limits: Limits, ss: seq<Sharded>, es: seq<Event>, k: nat, m: nat)
    requires ShardedRun(hash, limits, ss, es) && k < |es| && m < |es[k].evicted|
    requires Subject(es[k].op).Some? ==> Home(hash, ss[k], Subject(es[k].op).value).nextAccess < U64_MAX
    ensures Written(es[k]).Some?
    ensures var cmd, evicted := Written(es[k]).value, es[k].evicted;
            var size := EntryMemory(cmd.id, cmd.value, cmd.tags);
            var all := Home(hash, ss[k], cmd.id).entries - {cmd.id} - es[k].reclaimed;
            var left := Left(all, evicted, m);
            && Due(left, es[k].now) == {}
            && Memory(left) + size > DivCeil(limits.maxMemory, |ss[0].shards|)
            && evicted[m] in left
            && |Newer(left, evicted[m])| >= Min(LRU_SAMPLE_SIZE, |left|) - 1
            && (|left| <= LRU_SAMPLE_SIZE ==> Newer(left, evicted[m]) == left.Keys - {evicted[m]})
  {
    hide Step, EntryMemory, Memory, Newer;
    assert ShardedStep(hash, limits, ss[k], es[k], ss[k + 1]);
    assert Subject(es[k].op).Some?;
    hide ShardedStep;
    var j := Route(hash, |ss[0].shards|, Subject(es[k].op).value);
    var vs, xs, at := ShardRuns(hash, limits, ss, es, j, |es|);
    KeyedPlace(hash, ss, es, j, |es|, vs, xs, at, k);
    EvictionIsSampledLru(ShardLimits(limits, |ss[0].shards|), vs, xs, at[k], m);
  }
}
