/**
  What requests mean to each other through the protocol: what was put is what is
  got, for exactly as long as its metadata says, until it is deleted or one of its
  tags is invalidated; and a granted lease is what a completion needs.
 */
module ServerLaws {
  import opened Base
  import opened Wire
  import opened Codec
  import opened Server
  import opened ShardedSpec
  import opened EngineRuns
  import E = EngineSpec

  /** The shard a key lives in. */
  function Home(hash: Hash, s: Sharded, ns: Text, key: Bytes): E.View
    requires |s.shards| > 0
  {
    s.shards[Route(hash, |s.shards|, E.EntryId(ns, key))]
  }

  /** What a get at `later` must answer about a value stored at `now` and not touched since. */
  function Lifetime(m: Metadata, value: Bytes, now: U64, later: U64): Response {
    if m.ttl.None? || later <= SatAdd(now, m.ttl.value) then HitResponse(value)
    else if m.staleTtl.Some? && later <= SatAdd(SatAdd(now, m.ttl.value), m.staleTtl.value) then StaleResponse(value)
    else MissResponse
  }

  /** The request stored a value under its key. */
  predicate Stores(p: Request, response: Response) {
    (p.PutRequest? || p.LeaseCompleteRequest?) && response.StoredResponse?
  }

  lemma StoredEntry(hash: Hash, limits: E.Limits, s: Sharded, p: Request, now: U64, response: Response, s': Sharded)
    requires Serves(hash, limits, s, p, now, response, s') && Stores(p, response)
    ensures |s'.shards| == |s.shards| > 0
    ensures var id := E.EntryId(p.ns, p.key);
            var v := Home(hash, s', p.ns, p.key);
            && id in v.entries
            && exists access: U64 ::
                 v.entries[id] == E.NewEntry(CommandFor(p.ns, p.key, p.metadata, p.value), now, access)
    ensures forall tag :: tag in p.metadata.tags ==>
              Route(hash, |s.shards|, E.EntryId(p.ns, p.key)) in Routes(s'.directory, E.TagId(p.ns, tag))
  {
    hide E.EntryMemory, E.Evicts;
    var e: E.Event :|
      Called(hash, limits, s, e, s') && e.op == CallOf(p) && e.now == now && response == ResponseTo(e.reply);
    var id := E.EntryId(p.ns, p.key);
    var i := Route(hash, |s.shards|, id);
    assert KeyedStep(limits, s, e, id, i, s');
    var cmd := CommandFor(p.ns, p.key, p.metadata, p.value);
    assert Written(e) == Some(cmd);
    forall tag | tag in p.metadata.tags
      ensures i in Routes(s'.directory, E.TagId(p.ns, tag))
    {
      assert E.TagId(p.ns, tag) in Adds(e);
    }
    StepFrame(ShardLimits(limits, |s.shards|), s.shards[i], e, s'.shards[i]);
  }

  lemma GetAnswers(hash: Hash, limits: E.Limits, s: Sharded, ns: Text, key: Bytes, now: U64, response: Response,
                   s': Sharded)
    requires Serves(hash, limits, s, GetRequest(ns, key), now, response, s')
    ensures |s.shards| > 0
    ensures response == ResponseTo(E.GetReply(E.GetResult(Home(hash, s, ns, key), E.EntryId(ns, key), now)))
  {
    var p := GetRequest(ns, key);
    var e: E.Event :|
      Called(hash, limits, s, e, s') && e.op == CallOf(p) && e.now == now && response == ResponseTo(e.reply);
    assert KeyedStep(limits, s, e, E.EntryId(ns, key), Route(hash, |s.shards|, E.EntryId(ns, key)), s');
  }

  /** A stored value is served for its time to live, then as stale for its stale time, and then not at all. */
  lemma StoredIsServed(hash: Hash, limits: E.Limits, s: Sharded, p: Request, now: U64, stored: Response, s1: Sharded,
                       later: U64, got: Response, s2: Sharded)
    requires Serves(hash, limits, s, p, now, stored, s1) && Stores(p, stored)
    requires Serves(hash, limits, s1, GetRequest(p.ns, p.key), later, got, s2)
    ensures got == Lifetime(p.metadata, p.value, now, later)
  {
    hide Serves;
    StoredEntry(hash, limits, s, p, now, stored, s1);
    GetAnswers(hash, limits, s1, p.ns, p.key, later, got, s2);
  }

  /** Invalidating any of its tags removes it, and is counted. */
  lemma InvalidatedIsGone(hash: Hash, limits: E.Limits, s: Sharded, p: Request, now: U64, stored: Response, s1: Sharded,
                          tag: Text, at: U64, removed: Response, s2: Sharded, later: U64, got: Response, s3: Sharded)
    requires Serves(hash, limits, s, p, now, stored, s1) && Stores(p, stored) && tag in p.metadata.tags
    requires Serves(hash, limits, s1, TagInvalidateRequest(p.ns, tag), at, removed, s2)
    requires Serves(hash, limits, s2, GetRequest(p.ns, p.key), later, got, s3)
    ensures got == MissResponse && removed.InvalidatedResponse? && removed.removed >= 1
  {
    StoredEntry(hash, limits, s, p, now, stored, s1);
    GetAnswers(hash, limits, s2, p.ns, p.key, later, got, s3);
    InvalidateReaches(hash, limits, s1, p.ns, p.key, tag, at, removed, s2);
  }

  lemma InvalidateReaches(hash: Hash, limits: E.Limits, s: Sharded, ns: Text, key: Bytes, tag: Text, now: U64,
                          response: Response, s': Sharded)
    requires Serves(hash, limits, s, TagInvalidateRequest(ns, tag), now, response, s') && |s.shards| > 0
    requires var id := E.EntryId(ns, key);
             var i := Route(hash, |s.shards|, id);
             && i in Routes(s.directory, E.TagId(ns, tag))
             && id in s.shards[i].entries && tag in s.shards[i].entries[id].tags
    ensures |s'.shards| == |s.shards| && E.EntryId(ns, key) !in Home(hash, s', ns, key).entries
    ensures response.InvalidatedResponse? && response.removed >= 1
  {
    var p, t, id := TagInvalidateRequest(ns, tag), E.TagId(ns, tag), E.EntryId(ns, key);
    var e: E.Event :|
      Called(hash, limits, s, e, s') && e.op == CallOf(p) && e.now == now && response == ResponseTo(e.reply);
    var i := Route(hash, |s.shards|, id);
    assert id in E.Tagged(s.shards[i].entries, t);
    CountsShard(s.shards, Routes(s.directory, t), t, i);
  }

  lemma {:induction false} CountsShard(shards: seq<E.View>, routed: set<nat>, t: E.TagId, i: nat)
    requires i < |shards| && i in routed && E.Tagged(shards[i].entries, t) != {}
    ensures CountTagged(shards, routed, t) >= 1
  {
    var k := |shards| - 1;
    if i < k {
      CountsShard(shards[..k], routed, t, i);
    }
  }

  /** After a delete the key is absent, whatever was there. */
  lemma DeletedIsGone(hash: Hash, limits: E.Limits, s: Sharded, ns: Text, key: Bytes, now: U64, deleted: Response,
                      s1: Sharded, later: U64, got: Response, s2: Sharded)
    requires Serves(hash, limits, s, DeleteRequest(ns, key), now, deleted, s1)
    requires Serves(hash, limits, s1, GetRequest(ns, key), later, got, s2)
    ensures |s.shards| > 0
    ensures got == MissResponse && deleted == DeletedResponse(E.EntryId(ns, key) in Home(hash, s, ns, key).entries)
  {
    GetAnswers(hash, limits, s1, ns, key, later, got, s2);
    var p, id := DeleteRequest(ns, key), E.EntryId(ns, key);
    var e: E.Event :|
      Called(hash, limits, s, e, s1) && e.op == CallOf(p) && e.now == now && deleted == ResponseTo(e.reply);
    assert KeyedStep(limits, s, e, id, Route(hash, |s.shards|, id), s1);
  }

  lemma LeaseOutcomeIs(hash: Hash, limits: E.Limits, s: Sharded, ns: Text, key: Bytes, ttl: U64, allow: Option<U64>,
                       now: U64, response: Response, s': Sharded)
    requires Serves(hash, limits, s, LeaseStartRequest(ns, key, ttl, allow), now, response, s')
    ensures |s'.shards| == |s.shards| > 0
    ensures var (w, outcome) := E.StartLease(Home(hash, s, ns, key), E.EntryId(ns, key), ttl, now);
            response == ResponseTo(E.StartReply(outcome)) && Home(hash, s', ns, key) == w
  {
    var p, id := LeaseStartRequest(ns, key, ttl, allow), E.EntryId(ns, key);
    var e: E.Event :|
      Called(hash, limits, s, e, s') && e.op == CallOf(p) && e.now == now && response == ResponseTo(e.reply);
    assert KeyedStep(limits, s, e, id, Route(hash, |s.shards|, id), s');
  }

  /** The token a lease request returned lets exactly its bearer complete by the deadline. */
  lemma GrantedTokenCompletes(hash: Hash, limits: E.Limits, s: Sharded, ns: Text, key: Bytes, ttl: U64,
                              allow: Option<U64>, now: U64, granted: Response, s1: Sharded, token: Text, m: Metadata,
                              value: Bytes, later: U64, done: Response, s2: Sharded)
    requires Serves(hash, limits, s, LeaseStartRequest(ns, key, ttl, allow), now, granted, s1)
    requires granted.GrantedResponse?
    requires Serves(hash, limits, s1, LeaseCompleteRequest(ns, key, token, m, value), later, done, s2)
    ensures done == Refusal(CodeInvalidLeaseToken) <==> token != granted.token || later > SatAdd(now, ttl)
  {
    hide Serves, E.LeaseToken, Refusal;
    LeaseOutcomeIs(hash, limits, s, ns, key, ttl, allow, now, granted, s1);
    RefusedIff(hash, limits, s1, ns, key, token, m, value, later, done, s2);
  }

  /** A completion is refused as such exactly when the key's lease is not active or has another token. */
  lemma RefusedIff(hash: Hash, limits: E.Limits, s: Sharded, ns: Text, key: Bytes, token: Text, m: Metadata,
                   value: Bytes, now: U64, done: Response, s': Sharded)
    requires Serves(hash, limits, s, LeaseCompleteRequest(ns, key, token, m, value), now, done, s')
    ensures |s.shards| > 0
    ensures var v, id := Home(hash, s, ns, key), E.EntryId(ns, key);
            done == Refusal(CodeInvalidLeaseToken) <==>
              !(id in v.leases && now <= v.leases[id].expiresAt && v.leases[id].token == token)
  {
    hide Ascii, Message, E.PutStep;
    var p, id := LeaseCompleteRequest(ns, key, token, m, value), E.EntryId(ns, key);
    var e: E.Event :|
      Called(hash, limits, s, e, s') && e.op == CallOf(p) && e.now == now && done == ResponseTo(e.reply);
    assert KeyedStep(limits, s, e, id, Route(hash, |s.shards|, id), s');
  }
}
