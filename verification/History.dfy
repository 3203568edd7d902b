/**
  The calls behind a connection: the caches of its states are the states of one
  run of the sharded cache, in which each frame executed and each call made
  elsewhere has its place.
 */
module History {
  import opened Base
  import opened Wire
  import opened Codec
  import opened Server
  import opened ShardedSpec
  import opened ShardedRuns
  import opened Connection
  import E = EngineSpec

  // ----- Time -----

  predicate Timed(a: Action) {
    a.Inline? || a.Execute? || a.Elsewhere?
  }

  function TimeOf(a: Action): U64
    requires Timed(a)
  {
    if a.Elsewhere? then a.event.now else a.now
  }

  /** No event is later than `now`. */
  predicate Before(es: seq<E.Event>, now: U64) {
    forall i :: 0 <= i < |es| ==> es[i].now <= now
  }

  /** The clock does not go back: not after the calls made before, and not from step to step. */
  predicate Clocked(es: seq<E.Event>, actions: seq<Action>) {
    && (forall j :: 0 <= j < |actions| && Timed(actions[j]) ==> Before(es, TimeOf(actions[j])))
    && (forall j, k :: 0 <= j < k < |actions| && Timed(actions[j]) && Timed(actions[k]) ==>
          TimeOf(actions[j]) <= TimeOf(actions[k]))
  }

  // ----- Longer runs of the cache -----

  ghost predicate RunTo(setup: Setup, ss: seq<Sharded>, es: seq<E.Event>, cache: Sharded) {
    ShardedRun(setup.hash, setup.limits, ss, es) && ss[|es|] == cache
  }

  lemma RunOneMore(setup: Setup, ss: seq<Sharded>, es: seq<E.Event>, s: Sharded, e: E.Event, s': Sharded)
    requires RunTo(setup, ss, es, s) && Before(es, e.now) && Called(setup.hash, setup.limits, s, e, s')
    ensures RunTo(setup, ss + [s'], es + [e], s')
  {
    hide ShardedStep;
    LocalStep(setup.hash, setup.limits, s, e, s', 0);
    var more, all := ss + [s'], es + [e];
    forall i | 0 <= i < |all|
      ensures ShardedStep(setup.hash, setup.limits, more[i], all[i], more[i + 1])
    {
      assert i < |es| ==> more[i] == ss[i] && more[i + 1] == ss[i + 1] && all[i] == es[i];
    }
  }

  /** The calls one executed frame makes, and how its response comes from their replies. */
  ghost predicate Logged(setup: Setup, s: Sharded, frame: Bytes, now: U64, bytes: Bytes, s': Sharded,
                         calls: seq<E.Event>)
  {
    match DecodeRequestFrame(frame, setup.max)
    case Err(_) => calls == []
    case Ok(f) =>
      && MadeFor(f.payload, now, calls)
      && Serves(setup.hash, setup.limits, s, f.payload, now, Reported(f.payload, calls), s')
      && Some(bytes) == Encoded(ResponseFrame(f.requestId, f.command, Reported(f.payload, calls)))
  }

  /** One call per request, and one get per key of a batch, in key order. */
  predicate MadeFor(p: Request, now: U64, calls: seq<E.Event>) {
    if p.BatchGetRequest? then
      && |calls| == |p.keys|
      && forall i :: 0 <= i < |calls| ==>
           calls[i].op == E.Get(E.EntryId(p.ns, p.keys[i]), true) && calls[i].now == now && calls[i].reply.GetReply?
    else |calls| == 1 && calls[0].op == CallOf(p) && calls[0].now == now
  }

  /** The response those calls add up to. */
  function Reported(p: Request, calls: seq<E.Event>): Response {
    if p.BatchGetRequest? then BatchResponse(seq(|calls|, i requires 0 <= i < |calls| => ItemFrom(calls[i].reply)))
    else if calls == [] then OkResponse
    else ResponseTo(calls[0].reply)
  }

  function ItemFrom(reply: E.Reply): Item {
    if reply.GetReply? then ItemOf(reply.got) else ItemMiss
  }

  ghost predicate Continues(ss: seq<Sharded>, es: seq<E.Event>, ss': seq<Sharded>, es': seq<E.Event>, now: U64) {
    && es <= es' && ss <= ss'
    && Before(es', now)
  }

  lemma {:induction false} BatchContinues(setup: Setup, ss: seq<Sharded>, es: seq<E.Event>, states: seq<Sharded>,
                                          ns: Text, keys: seq<Bytes>, now: U64, outcomes: seq<E.GetOutcome>, k: nat)
    returns (ss': seq<Sharded>, es': seq<E.Event>)
    requires ServesBatch(setup.hash, setup.limits, states, ns, keys, now, outcomes) && k <= |keys|
    requires RunTo(setup, ss, es, states[0]) && Before(es, now)
    ensures RunTo(setup, ss', es', states[k]) && Continues(ss, es, ss', es', now) && |es'| == |es| + k
    ensures forall i :: 0 <= i < k ==>
              es'[|es| + i] == E.Event(E.Get(E.EntryId(ns, keys[i]), true), now, E.GetReply(outcomes[i]), {}, [])
  {
    hide RunTo, Called;
    if k == 0 {
      ss', es' := ss, es;
    } else {
      var ms, me := BatchContinues(setup, ss, es, states, ns, keys, now, outcomes, k - 1);
      var e := E.Event(E.Get(E.EntryId(ns, keys[k - 1]), true), now, E.GetReply(outcomes[k - 1]), {}, []);
      RunOneMore(setup, ms, me, states[k - 1], e, states[k]);
      ss', es' := ms + [states[k]], me + [e];
    }
  }

  /** Serving a request is making its calls. */
  lemma ServeContinues(setup: Setup, ss: seq<Sharded>, es: seq<E.Event>, s: Sharded, p: Request, now: U64,
                       response: Response, s': Sharded)
    returns (ss': seq<Sharded>, es': seq<E.Event>)
    requires RunTo(setup, ss, es, s) && Before(es, now)
    requires Serves(setup.hash, setup.limits, s, p, now, response, s')
    ensures RunTo(setup, ss', es', s') && Continues(ss, es, ss', es', now)
    ensures MadeFor(p, now, es'[|es|..]) && response == Reported(p, es'[|es|..])
  {
    hide RunTo, Called;
    if p.BatchGetRequest? {
      var states: seq<Sharded>, outcomes: seq<E.GetOutcome> :|
        && ServesBatch(setup.hash, setup.limits, states, p.ns, p.keys, now, outcomes)
        && states[0] == s && states[|p.keys|] == s'
        && response == BatchResponse(ItemsOf(outcomes));
      ss', es' := BatchContinues(setup, ss, es, states, p.ns, p.keys, now, outcomes, |p.keys|);
      assert forall i :: 0 <= i < |p.keys| ==> es'[|es|..][i] == es'[|es| + i];
      BatchReported(p, now, outcomes, es'[|es|..]);
    } else {
      var e: E.Event :|
        && Called(setup.hash, setup.limits, s, e, s')
        && e.op == CallOf(p) && e.now == now && response == ResponseTo(e.reply);
      RunOneMore(setup, ss, es, s, e, s');
      ss', es' := ss + [s'], es + [e];
      assert es'[|es|..] == [e];
    }
  }

  lemma BatchReported(p: Request, now: U64, outcomes: seq<E.GetOutcome>, calls: seq<E.Event>)
    requires p.BatchGetRequest? && |calls| == |p.keys| == |outcomes|
    requires forall i :: 0 <= i < |calls| ==>
               calls[i] == E.Event(E.Get(E.EntryId(p.ns, p.keys[i]), true), now, E.GetReply(outcomes[i]), {}, [])
    ensures MadeFor(p, now, calls) && Reported(p, calls) == BatchResponse(ItemsOf(outcomes))
  {
    assert Reported(p, calls).items == ItemsOf(outcomes);
  }

  lemma ExecutionContinues(setup: Setup, ss: seq<Sharded>, es: seq<E.Event>, s: Sharded, frame: Bytes, now: U64,
                           bytes: Bytes, s': Sharded)
    returns (ss': seq<Sharded>, es': seq<E.Event>)
    requires RunTo(setup, ss, es, s) && Before(es, now) && Responds(setup, s, frame, now, bytes, s')
    ensures RunTo(setup, ss', es', s') && Continues(ss, es, ss', es', now)
    ensures Logged(setup, s, frame, now, bytes, s', es'[|es|..])
  {
    hide RunTo, Serves, MadeFor, Reported, Encoded, DecodeRequestFrame;
    match DecodeRequestFrame(frame, setup.max) {
      case Err(_) =>
        ss', es' := ss, es;
        assert es'[|es|..] == [];
      case Ok(f) =>
        var p :| Serves(setup.hash, setup.limits, s, f.payload, now, p, s')
                 && Some(bytes) == Encoded(ResponseFrame(f.requestId, f.command, p));
        ss', es' := ServeContinues(setup, ss, es, s, f.payload, now, p, s');
    }
  }

  // ----- The run behind a connection -----

  /** The calls of one step: those of the frame executed, the call made elsewhere, or none. */
  ghost predicate StepCalls(setup: Setup, s: State, a: Action, calls: seq<E.Event>) {
    match a
    case Inline(now, bytes, cache) => Logged(setup, s.cache, FrameOf(s, a), now, bytes, cache, calls)
    case Execute(_, now, bytes, cache) => Logged(setup, s.cache, FrameOf(s, a), now, bytes, cache, calls)
    case Elsewhere(e, _) => calls == [e]
    case _ => calls == []
  }

  lemma StepContinues(setup: Setup, ss: seq<Sharded>, es: seq<E.Event>, s: State, a: Action)
    returns (ss': seq<Sharded>, es': seq<E.Event>)
    requires RunTo(setup, ss, es, s.cache) && Enabled(setup, s, a)
    requires Timed(a) ==> Before(es, TimeOf(a))
    ensures RunTo(setup, ss', es', Apply(setup, s, a).cache)
    ensures es <= es' && ss <= ss' && (Timed(a) ==> Before(es', TimeOf(a))) && (!Timed(a) ==> es' == es)
    ensures StepCalls(setup, s, a, es'[|es|..])
  {
    hide RunTo, Logged, Responds;
    if a.Inline? || a.Execute? {
      ss', es' := ExecutionContinues(setup, ss, es, s.cache, FrameOf(s, a), a.now, a.bytes, a.cache);
    } else if a.Elsewhere? {
      RunOneMore(setup, ss, es, s.cache, a.event, a.cache);
      ss', es' := ss + [a.cache], es + [a.event];
      assert es'[|es|..] == [a.event];
    } else {
      ss', es' := ss, es;
      assert es'[|es|..] == [];
    }
  }

  /** `at[k]` calls had been made when the connection was in state `k`, and step `k` made those up to `at[k + 1]`. */
  ghost predicate Follows(setup: Setup, states: seq<State>, actions: seq<Action>, n: nat, ss: seq<Sharded>,
                          es: seq<E.Event>, at: seq<nat>)
  {
    && n <= |actions| < |states| && |at| == n + 1 && |es| < |ss|
    && (forall k :: 0 <= k <= n ==> at[k] <= |es| && ss[at[k]] == states[k].cache)
    && (forall k :: 0 <= k < n ==> at[k] <= at[k + 1] && StepCalls(setup, states[k], actions[k], es[at[k]..at[k + 1]]))
  }

  lemma FollowsFurther(setup: Setup, states: seq<State>, actions: seq<Action>, n: nat, ss: seq<Sharded>,
                       es: seq<E.Event>, at: seq<nat>, ss': seq<Sharded>, es': seq<E.Event>)
    requires Follows(setup, states, actions, n, ss, es, at) && n < |actions| && at[n] == |es|
    requires es <= es' && ss <= ss' && |es'| < |ss'| && ss'[|es'|] == states[n + 1].cache
    requires StepCalls(setup, states[n], actions[n], es'[|es|..])
    ensures Follows(setup, states, actions, n + 1, ss', es', at + [|es'|])
  {
    hide StepCalls;
    var more := at + [|es'|];
    forall k | 0 <= k < n + 1
      ensures more[k] <= more[k + 1] && StepCalls(setup, states[k], actions[k], es'[more[k]..more[k + 1]])
    {
      if k < n {
        assert es'[at[k]..at[k + 1]] == es[at[k]..at[k + 1]];
      } else {
        assert es'[|es|..|es'|] == es'[|es|..];
      }
    }
  }

  /**
    Whatever calls were made before the connection started: with the steps'
    own calls and the calls made elsewhere they are one run of the cache,
    and the connection's caches are states of that run.
   */
  lemma {:induction false} CachesAreARun(setup: Setup, batches: seq<seq<Bytes>>, states: seq<State>,
                                         actions: seq<Action>, ss0: seq<Sharded>, es0: seq<E.Event>, n: nat)
    returns (ss: seq<Sharded>, es: seq<E.Event>, at: seq<nat>)
    requires Run(setup, batches, states, actions) && n <= |actions|
    requires RunTo(setup, ss0, es0, states[0].cache) && Clocked(es0, actions)
    ensures RunTo(setup, ss, es, states[n].cache) && es0 <= es && ss0 <= ss
    ensures Follows(setup, states, actions, n, ss, es, at) && at[0] == |es0| && at[n] == |es|
    ensures forall j :: n <= j < |actions| && Timed(actions[j]) ==> Before(es, TimeOf(actions[j]))
  {
    hide StepCalls, Enabled, Apply;
    if n == 0 {
      ss, es, at := ss0, es0, [|es0|];
    } else {
      var ms, me, mat := CachesAreARun(setup, batches, states, actions, ss0, es0, n - 1);
      ss, es := StepContinues(setup, ms, me, states[n - 1], actions[n - 1]);
      FollowsFurther(setup, states, actions, n - 1, ms, me, mat, ss, es);
      at := mat + [|es|];
    }
  }
}
