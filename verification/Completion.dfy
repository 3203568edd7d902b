/**
  Every connection can be brought to its end: each request has an outcome on
  every cache a run can reach, so a connection that is not done has a step of its
  own to take, and it has only so many of them.
 */
module Completion {
  import opened Base
  import opened Wire
  import opened Codec
  import opened CodecProofs
  import opened Framing
  import opened Server
  import opened ShardedSpec
  import opened ShardedRuns
  import opened Progress
  import opened Connection
  import EngineRuns
  import E = EngineSpec

  // ----- Every request can be served -----

  function GetEvent(ns: Text, key: Bytes, now: U64, outcome: E.GetOutcome): E.Event {
    E.Event(E.Get(E.EntryId(ns, key), true), now, E.GetReply(outcome), {}, [])
  }

  lemma GetCan(hash: Hash, limits: E.Limits, s: Sharded, ns: Text, key: Bytes, now: U64)
    returns (outcome: E.GetOutcome, s': Sharded)
    requires ShardedInv(hash, limits, s)
    ensures Called(hash, limits, s, GetEvent(ns, key, now, outcome), s') && ShardedInv(hash, limits, s')
  {
    hide ShardedInv;
    SomeShards(hash, limits, s);
    var e;
    e, s' := EveryCallHasAStep(hash, limits, s, E.Get(E.EntryId(ns, key), true), now);
    assert KeyedStep(limits, s, e, E.EntryId(ns, key), Route(hash, |s.shards|, E.EntryId(ns, key)), s');
    outcome := e.reply.got;
    assert e == GetEvent(ns, key, now, outcome);
  }

  lemma SomeShards(hash: Hash, limits: E.Limits, s: Sharded)
    requires ShardedInv(hash, limits, s)
    ensures |s.shards| > 0
  {
  }

  lemma {:induction false} BatchCan(hash: Hash, limits: E.Limits, s: Sharded, ns: Text, keys: seq<Bytes>, now: U64)
    returns (states: seq<Sharded>, outcomes: seq<E.GetOutcome>)
    requires ShardedInv(hash, limits, s)
    ensures ServesBatch(hash, limits, states, ns, keys, now, outcomes)
    ensures states[0] == s && ShardedInv(hash, limits, states[|keys|])
    decreases |keys|
  {
    hide ShardedInv, Called;
    if keys == [] {
      states, outcomes := [s], [];
    } else {
      var k := |keys| - 1;
      states, outcomes := BatchCan(hash, limits, s, ns, keys[..k], now);
      var outcome, s' := GetCan(hash, limits, states[k], ns, keys[k], now);
      states, outcomes := states + [s'], outcomes + [outcome];
    }
  }

  lemma RequestCan(hash: Hash, limits: E.Limits, s: Sharded, p: Request, now: U64)
    returns (response: Response, s': Sharded)
    requires ShardedInv(hash, limits, s)
    ensures Serves(hash, limits, s, p, now, response, s')
  {
    hide ShardedInv, ShardedStep;
    if p.BatchGetRequest? {
      var states, outcomes := BatchCan(hash, limits, s, p.ns, p.keys, now);
      response, s' := BatchResponse(ItemsOf(outcomes)), states[|p.keys|];
    } else {
      SomeShards(hash, limits, s);
      var e;
      e, s' := EveryCallHasAStep(hash, limits, s, CallOf(p), now);
      response := ResponseTo(e.reply);
      assert Called(hash, limits, s, e, s');
    }
  }

  // ----- Serving keeps the cache sound -----

  lemma {:induction false} BatchKeeps(hash: Hash, limits: E.Limits, states: seq<Sharded>, ns: Text, keys: seq<Bytes>,
                                      now: U64, outcomes: seq<E.GetOutcome>, k: nat)
    requires ServesBatch(hash, limits, states, ns, keys, now, outcomes) && k <= |keys|
    requires ShardedInv(hash, limits, states[0])
    ensures ShardedInv(hash, limits, states[k])
  {
    hide ShardedInv, ShardedStep;
    if k > 0 {
      BatchKeeps(hash, limits, states, ns, keys, now, outcomes, k - 1);
      StepKeepsShardedInv(hash, limits, states[k - 1], GetEvent(ns, keys[k - 1], now, outcomes[k - 1]), states[k]);
    }
  }

  lemma ServeKeeps(hash: Hash, limits: E.Limits, s: Sharded, p: Request, now: U64, response: Response, s': Sharded)
    requires ShardedInv(hash, limits, s) && Serves(hash, limits, s, p, now, response, s')
    ensures ShardedInv(hash, limits, s')
  {
    hide ShardedInv, ShardedStep;
    if p.BatchGetRequest? {
      var states: seq<Sharded>, outcomes: seq<E.GetOutcome> :|
        && ServesBatch(hash, limits, states, p.ns, p.keys, now, outcomes)
        && states[0] == s && states[|p.keys|] == s'
        && response == BatchResponse(ItemsOf(outcomes));
      BatchKeeps(hash, limits, states, p.ns, p.keys, now, outcomes, |p.keys|);
    } else {
      var e: E.Event :|
        Called(hash, limits, s, e, s') && e.op == CallOf(p) && e.now == now && response == ResponseTo(e.reply);
      StepKeepsShardedInv(hash, limits, s, e, s');
    }
  }

  lemma StepKeepsCache(setup: Setup, s: State, a: Action)
    requires Enabled(setup, s, a) && ShardedInv(setup.hash, setup.limits, s.cache)
    ensures ShardedInv(setup.hash, setup.limits, Apply(setup, s, a).cache)
  {
    hide ShardedInv, ShardedStep, Serves, DecodeRequestFrame;
    if a.Inline? || a.Execute? {
      RespondKeeps(setup, s.cache, FrameOf(s, a), a.now, a.bytes, a.cache);
    } else if a.Elsewhere? {
      StepKeepsShardedInv(setup.hash, setup.limits, s.cache, a.event, a.cache);
    }
  }

  lemma RespondKeeps(setup: Setup, s: Sharded, frame: Bytes, now: U64, bytes: Bytes, s': Sharded)
    requires Responds(setup, s, frame, now, bytes, s') && ShardedInv(setup.hash, setup.limits, s)
    ensures ShardedInv(setup.hash, setup.limits, s')
  {
    hide ShardedInv, Serves, DecodeRequestFrame;
    var d := DecodeRequestFrame(frame, setup.max);
    if d.Ok? {
      var f := d.value;
      var p :| Serves(setup.hash, setup.limits, s, f.payload, now, p, s')
               && Some(bytes) == Encoded(ResponseFrame(f.requestId, f.command, p));
      ServeKeeps(setup.hash, setup.limits, s, f.payload, now, p, s');
    }
  }

  // ----- Responses that fit -----

  /** Whatever the cache holds, the response to this frame is not too long for its length field. */
  ghost predicate Fitting(setup: Setup, frame: Bytes) {
    match DecodeRequestFrame(frame, setup.max)
    case Ok(f) =>
      forall s: Sharded, now: U64, p: Response, s': Sharded ::
        ShardedInv(setup.hash, setup.limits, s) && Serves(setup.hash, setup.limits, s, f.payload, now, p, s') ==>
          Fits(p)
    case Err(error) => Fits(ErrorResponse(DecodeErrorCode(error), setup.debug(error)))
  }

  lemma FrameCan(setup: Setup, s: Sharded, frame: Bytes, now: U64) returns (bytes: Bytes, s': Sharded)
    requires ShardedInv(setup.hash, setup.limits, s) && Fitting(setup, frame)
    ensures Responds(setup, s, frame, now, bytes, s')
  {
    hide ShardedInv, Serves, DecodeRequestFrame, Fits, EncodeResponseFrame;
    match DecodeRequestFrame(frame, setup.max) {
      case Ok(f) =>
        var p;
        p, s' := RequestCan(setup.hash, setup.limits, s, f.payload, now);
        bytes := EncodeResponseFrame(ResponseFrame(f.requestId, f.command, p));
      case Err(error) =>
        s' := s;
        var r := DecodeErrorResponse(frame, error, setup.debug);
        bytes := if r.Some? then EncodeResponseFrame(r.value) else [];
    }
  }

  // ----- To the end -----

  predicate OwnStep(a: Action, now: U64) {
    && !a.Elsewhere?
    && (a.Inline? || a.Execute? ==> a.now == now)
  }

  ghost predicate AllFitting(setup: Setup, frames: seq<Bytes>) {
    forall i :: 0 <= i < |frames| ==> Fitting(setup, frames[i])
  }

  /** The frame at the reader, or with a task, is one of the frames received. */
  lemma FramesFit(setup: Setup, frames: seq<Bytes>, inline: nat, s: State)
    requires Inv(frames, inline, s) && AllFitting(setup, frames)
    ensures s.pending != [] ==> Fitting(setup, s.pending[0])
    ensures forall i :: i in s.tasks && s.tasks[i].Running? ==> Fitting(setup, s.tasks[i].frame)
  {
    hide Fitting, Flat, Flatten, Modes, Bounded, InOrder;
    if s.pending != [] {
      TakeFrame(s.pending, Flatten(s.batches), frames, s.next);
    }
  }

  /** A connection that is not done has a step of its own to take, at any time. */
  lemma AlwaysAStep(setup: Setup, frames: seq<Bytes>, inline: nat, s: State, now: U64) returns (a: Action)
    requires Inv(frames, inline, s) && !Drained(s)
    requires ShardedInv(setup.hash, setup.limits, s.cache) && AllFitting(setup, frames)
    ensures Enabled(setup, s, a) && OwnStep(a, now)
  {
    hide ShardedInv, Responds, Fitting, Inv, MayTake;
    FramesFit(setup, frames, inline, s);
    StaysBounded(frames, inline, s);
    if !s.pipelined && s.pending != [] {
      var bytes, cache := FrameCan(setup, s.cache, s.pending[0], now);
      a := Inline(now, bytes, cache);
    } else if i :| i in s.tasks && s.tasks[i].Running? {
      var bytes, cache := FrameCan(setup, s.cache, s.tasks[i].frame, now);
      a := Execute(i, now, bytes, cache);
    } else if s.batch != [] {
      a := if MayTake(s.batch) && s.channel != [] then Coalesce else Flush;
    } else if s.channel != [] {
      a := Receive;
    } else if s.tasks != map[] {
      var i :| i in s.tasks;
      a := if s.tasks[i].Finished? then Send(i) else Release(i);
    } else {
      a := if s.pending != [] then Spawn else TakeBatch;
    }
  }

  lemma StaysBounded(frames: seq<Bytes>, inline: nat, s: State)
    requires Inv(frames, inline, s)
    ensures |s.tasks| <= MAX_IN_FLIGHT && |s.channel| <= MAX_IN_FLIGHT
  {
    hide Flat, Flatten, Modes, InOrder, Accounted;
  }

  ghost predicate LongerRun(setup: Setup, batches: seq<seq<Bytes>>, states: seq<State>, actions: seq<Action>,
                            states': seq<State>, actions': seq<Action>)
  {
    Run(setup, batches, states', actions') && states <= states' && actions <= actions'
  }

  lemma RunOneMore(setup: Setup, batches: seq<seq<Bytes>>, states: seq<State>, actions: seq<Action>, a: Action)
    requires Run(setup, batches, states, actions) && Enabled(setup, states[|actions|], a)
    ensures LongerRun(setup, batches, states, actions, states + [Apply(setup, states[|actions|], a)], actions + [a])
  {
    hide Enabled, Apply;
    var more, all := states + [Apply(setup, states[|actions|], a)], actions + [a];
    var cache :| states[0] == Start(batches, cache);
    assert more[0] == Start(batches, cache);
    forall i | 0 <= i < |all|
      ensures Enabled(setup, more[i], all[i]) && more[i + 1] == Apply(setup, more[i], all[i])
    {
      assert i < |actions| ==> more[i] == states[i] && more[i + 1] == states[i + 1] && all[i] == actions[i];
    }
  }

  /** The cache of every state of a connection is sound if the first one is. */
  lemma {:induction false} CacheKept(setup: Setup, batches: seq<seq<Bytes>>, states: seq<State>, actions: seq<Action>,
                                     k: nat)
    requires Run(setup, batches, states, actions) && k <= |actions|
    requires ShardedInv(setup.hash, setup.limits, states[0].cache)
    ensures ShardedInv(setup.hash, setup.limits, states[k].cache)
  {
    hide ShardedInv, Enabled, Apply;
    if k > 0 {
      CacheKept(setup, batches, states, actions, k - 1);
      StepKeepsCache(setup, states[k - 1], actions[k - 1]);
    }
  }

  /**
    From every state a connection can reach, it can be brought to its end by steps of
    its own, if no response is too long for its length field.
   */
  lemma {:induction false} CanBeDrained(setup: Setup, batches: seq<seq<Bytes>>, states: seq<State>,
                                        actions: seq<Action>, now: U64)
    returns (states': seq<State>, actions': seq<Action>)
    requires Run(setup, batches, states, actions) && NoneEmpty(batches)
    requires ShardedInv(setup.hash, setup.limits, states[0].cache) && AllFitting(setup, Flatten(batches))
    ensures LongerRun(setup, batches, states, actions, states', actions') && Drained(states'[|actions'|])
    ensures forall k :: |actions| <= k < |actions'| ==> OwnStep(actions'[k], now)
    decreases Work(states[|actions|])
  {
    hide ShardedInv, Enabled, Apply, AllFitting, Inv, Run, Work, Drained;
    RunSize(setup, batches, states, actions);
    var s := states[|actions|];
    if Drained(s) {
      states', actions' := states, actions;
    } else {
      RunKeeps(setup, batches, states, actions, |actions|);
      CacheKept(setup, batches, states, actions, |actions|);
      var a := AlwaysAStep(setup, Flatten(batches), Leading(batches), s, now);
      RunOneMore(setup, batches, states, actions, a);
      SpawnsNew(setup, batches, states, actions, |actions|);
      StepWorks(setup, s, a);
      states', actions' := CanBeDrained(setup, batches, states + [Apply(setup, s, a)], actions + [a], now);
    }
  }

  lemma RunSize(setup: Setup, batches: seq<seq<Bytes>>, states: seq<State>, actions: seq<Action>)
    requires Run(setup, batches, states, actions)
    ensures |states| == |actions| + 1
  {
  }

  // ----- When responses do fit -----

  function Pow10(d: nat): nat {
    if d == 0 then 1 else 10 * Pow10(d - 1)
  }

  lemma {:induction false} Digits(n: nat, d: nat)
    requires 0 < d && n < Pow10(d)
    ensures |E.Decimal(n)| <= d
  {
    if n >= 10 {
      assert Pow10(d) == 10 * Pow10(d - 1) && d > 1;
      assert n / 10 < Pow10(d - 1);
      Digits(n / 10, d - 1);
    }
  }

  lemma TokenLength(n: U64)
    ensures |E.LeaseToken(n)| <= 26
  {
    assert Pow10(5) == 100_000;
    assert Pow10(10) == 10_000_000_000;
    assert Pow10(15) == 1_000_000_000_000_000;
    assert Pow10(20) == 100_000_000_000_000_000_000;
    Digits(n, 20);
  }

  /** A stored value takes less than the memory limit. */
  lemma ValueIsCharged(limits: E.Limits, v: E.View, id: E.EntryId)
    requires EngineRuns.Inv(limits, v) && id in v.entries && limits.maxMemory < U32_LIMIT
    ensures |v.entries[id].value| + 96 <= limits.maxMemory
  {
    var e := v.entries[id];
    TotalRemove(v.entries, E.MemoryOf, id);
    EngineRuns.ChargeIsSize(id, e.value, e.tags);
    assert E.MemoryOf(e) == e.memory;
    hide E.EntryMemory;
  }

  lemma ShareIsLess(limits: E.Limits, n: nat)
    requires n > 0
    ensures ShardLimits(limits, n).maxMemory <= limits.maxMemory
  {
    hide DivCeil;
    var m, q := limits.maxMemory, DivCeil(limits.maxMemory, n);
    DivCeilBound(m, n);
    if q > m {
      AtLeast(n, q, m);
    }
  }

  lemma {:induction false} AtLeast(n: nat, q: nat, m: nat)
    requires n > 0 && q > m
    ensures n * q >= m + n
  {
    if n > 1 {
      AtLeast(n - 1, q, m);
      assert n * q == (n - 1) * q + q;
    }
  }

  lemma MessageLength(code: ErrorCode)
    ensures |EncodeResponse(Refusal(code))| <= 64
  {
    hide BE;
  }

  /** What a lease outcome carries of a value, if it carries one. */
  function ValueIn(reply: E.Reply): Option<Bytes> {
    match reply
    case GetReply(Hit(value)) => Some(value)
    case GetReply(Stale(value)) => Some(value)
    case StartReply(LeaseHit(value)) => Some(value)
    case StartReply(LeaseStale(value)) => Some(value)
    case StartReply(Granted(_, stale)) => stale
    case _ => None
  }

  /** A reply carries no value but that of the entry of its key, and no token but one the engine made. */
  lemma CarriesEntry(hash: Hash, limits: E.Limits, s: Sharded, e: E.Event, s': Sharded)
    requires Called(hash, limits, s, e, s')
    ensures ValueIn(e.reply).Some? ==>
              exists i, id :: 0 <= i < |s.shards| && id in s.shards[i].entries &&
                s.shards[i].entries[id].value == ValueIn(e.reply).value
    ensures e.reply.StartReply? && e.reply.lease.Granted? ==> |e.reply.lease.token| <= 26
  {
    hide E.PutStep, E.LeaseToken, Rerouted;
    if e.op.Get? || e.op.Start? {
      var id := e.op.id;
      var i := Route(hash, |s.shards|, id);
      var v := s.shards[i];
      assert E.Step(ShardLimits(limits, |s.shards|), v, e, s'.shards[i]);
      TokenLength(v.nextAccess);
      TokenLength(SatAdd(v.nextAccess, 1));
      assert ValueIn(e.reply).Some? ==> id in v.entries && v.entries[id].value == ValueIn(e.reply).value;
    }
  }

  lemma ReplyValueFits(hash: Hash, limits: E.Limits, s: Sharded, e: E.Event, s': Sharded)
    requires ShardedInv(hash, limits, s) && Called(hash, limits, s, e, s') && limits.maxMemory < U32_LIMIT
    ensures ValueIn(e.reply).Some? ==> |ValueIn(e.reply).value| + 96 <= limits.maxMemory
  {
    hide Called, ValueIn;
    CarriesEntry(hash, limits, s, e, s');
    if ValueIn(e.reply).Some? {
      var i, id :| 0 <= i < |s.shards| && id in s.shards[i].entries &&
                   s.shards[i].entries[id].value == ValueIn(e.reply).value;
      ShareIsLess(limits, |s.shards|);
      ValueIsCharged(ShardLimits(limits, |s.shards|), s.shards[i], id);
    }
  }

  lemma ReplyFits(hash: Hash, limits: E.Limits, s: Sharded, e: E.Event, s': Sharded)
    requires ShardedInv(hash, limits, s) && Called(hash, limits, s, e, s') && limits.maxMemory < U32_LIMIT
    ensures Fits(ResponseTo(e.reply))
  {
    hide Called, ShardedInv, Message, Ascii, BE;
    CarriesEntry(hash, limits, s, e, s');
    ReplyValueFits(hash, limits, s, e, s');
    match e.reply {
      case PutReply(Err(error)) => RefusalFits(error);
      case CompleteReply(Err(InvalidLeaseToken)) => MessageLength(CodeInvalidLeaseToken);
      case CompleteReply(Err(PutFailed(error))) => RefusalFits(error);
      case _ =>
    }
  }

  lemma RefusalFits(error: E.PutError)
    ensures |EncodeResponse(PutErrorResponse(error))| <= 64
  {
    hide EncodeResponse, Refusal;
    MessageLength(CodeValueTooLarge);
    MessageLength(CodeEntryTooLarge);
    MessageLength(CodeInsufficientMemory);
  }

  lemma {:induction false} ItemsLength(items: seq<Item>, each: nat)
    requires forall i :: 0 <= i < |items| ==> |EncodeItem(items[i])| <= each
    ensures |EncodeItems(items)| <= |items| * each
  {
    hide EncodeItem;
    if items != [] {
      ItemsLength(items[1..], each);
      assert |items| * each == (|items| - 1) * each + each;
    }
  }

  lemma BatchFits(hash: Hash, limits: E.Limits, states: seq<Sharded>, ns: Text, keys: seq<Bytes>, now: U64,
                  outcomes: seq<E.GetOutcome>)
    requires ServesBatch(hash, limits, states, ns, keys, now, outcomes) && ShardedInv(hash, limits, states[0])
    requires limits.maxMemory < U32_LIMIT && 5 + |keys| * (1 + limits.maxMemory) < U32_LIMIT
    ensures Fits(BatchResponse(ItemsOf(outcomes)))
  {
    hide Called, ShardedInv, EncodeItem, EncodeItems, BE;
    var items := ItemsOf(outcomes);
    forall i | 0 <= i < |items|
      ensures |EncodeItem(items[i])| <= 1 + limits.maxMemory
    {
      BatchKeeps(hash, limits, states, ns, keys, now, outcomes, i);
      ReplyValueFits(hash, limits, states[i], GetEvent(ns, keys[i], now, outcomes[i]), states[i + 1]);
      ItemLength(outcomes[i], limits.maxMemory);
    }
    ItemsLength(items, 1 + limits.maxMemory);
  }

  lemma ItemLength(outcome: E.GetOutcome, max: nat)
    requires ValueIn(E.GetReply(outcome)).Some? ==> |ValueIn(E.GetReply(outcome)).value| + 96 <= max
    ensures |EncodeItem(ItemOf(outcome))| <= 1 + max
  {
    hide BE;
  }

  /** With a memory limit below 2^32 every response fits, to a batch if as many values of that size would. */
  lemma SmallCacheFits(setup: Setup, frame: Bytes)
    requires DecodeRequestFrame(frame, setup.max).Ok? && setup.limits.maxMemory < U32_LIMIT
    requires var p := DecodeRequestFrame(frame, setup.max).value.payload;
             p.BatchGetRequest? ==> 5 + |p.keys| * (1 + setup.limits.maxMemory) < U32_LIMIT
    ensures Fitting(setup, frame)
  {
    hide ShardedInv, Called, DecodeRequestFrame, Fits;
    var hash, limits, q := setup.hash, setup.limits, DecodeRequestFrame(frame, setup.max).value.payload;
    forall s: Sharded, now: U64, p: Response, s': Sharded
      | ShardedInv(hash, limits, s) && Serves(hash, limits, s, q, now, p, s')
      ensures Fits(p)
    {
      if q.BatchGetRequest? {
        var states: seq<Sharded>, outcomes: seq<E.GetOutcome> :|
          && ServesBatch(hash, limits, states, q.ns, q.keys, now, outcomes)
          && states[0] == s && states[|q.keys|] == s'
          && p == BatchResponse(ItemsOf(outcomes));
        BatchFits(hash, limits, states, q.ns, q.keys, now, outcomes);
      } else {
        var e: E.Event :|
          Called(hash, limits, s, e, s') && e.op == CallOf(q) && e.now == now && p == ResponseTo(e.reply);
        ReplyFits(hash, limits, s, e, s');
      }
    }
  }
}
