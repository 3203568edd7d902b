/**
  Client, connection and cache together: a pipelined batch of well-formed
  requests comes back in request order, each answered by the cache.
 */
module EndToEnd {
  import opened Base
  import opened Wire
  import opened Codec
  import opened CodecProofs
  import opened Framing
  import opened Server
  import opened ShardedSpec
  import opened Connection
  import opened Completion
  import opened History
  import EngineRuns
  import Reference
  import ServerLaws
  import E = EngineSpec
  import opened Pipelining
  import opened Client

  // ----- What the client reads off the socket -----

  function EncodeAll(rs: seq<ResponseFrame>): Bytes {
    if rs == [] then [] else EncodeResponseFrame(rs[0]) + EncodeAll(rs[1..])
  }

  lemma ReadsOne(f: ResponseFrame, rest: Bytes, max: nat)
    requires GoodResponseFrame(f, max)
    ensures ReadFrame(EncodeResponseFrame(f) + rest, max) == Ok((f, rest))
  {
    var bytes := EncodeResponseFrame(f);
    EncodedIsFrame(f);
    Extend(bytes, rest, |bytes|);
    assert bytes[|bytes|..] + rest == rest && bytes[..|bytes|] == bytes;
    ResponseRoundTrip(f, [], max);
    assert bytes + [] == bytes;
    hide EncodeResponseFrame, DecodeResponseFrame, FromBE;
  }

  lemma {:induction false} PushFirst(m: Matcher, r: ResponseFrame, rs: seq<ResponseFrame>)
    requires WellSized(m)
    ensures PushAll(m, [r] + rs) ==
            match Pipelining.Push(m, r) case Ok(next) => PushAll(next, rs) case Err(error) => Err(error)
  {
    hide Pipelining.Push;
    var all := [r] + rs;
    if rs == [] {
      assert all[..0] == [] && all == [r];
      assert PushAll(m, []) == Ok(m);
    } else {
      var k := |rs| - 1;
      PushFirst(m, r, rs[..k]);
      assert all[..|all| - 1] == [r] + rs[..k];
    }
  }

  /** Reading and matching in turns is the same as matching all that was sent. */
  lemma {:induction false} ExchangeIsPushAll(m: Matcher, rs: seq<ResponseFrame>, max: nat)
    requires WellSized(m)
    requires forall i :: 0 <= i < |rs| ==> GoodResponseFrame(rs[i], max)
    ensures Exchange(m, EncodeAll(rs), |rs|, max) ==
            match PushAll(m, rs) case Ok(next) => Ok((next, [])) case Err(error) => Err(error)
    decreases |rs|
  {
    hide ReadFrame, Pipelining.Push, GoodResponseFrame, EncodeResponseFrame;
    if rs != [] {
      ReadsOne(rs[0], EncodeAll(rs[1..]), max);
      PushFirst(m, rs[0], rs[1..]);
      assert rs == [rs[0]] + rs[1..];
      var next := Pipelining.Push(m, rs[0]);
      if next.Ok? {
        ExchangeIsPushAll(next.value, rs[1..], max);
      }
    }
  }

  // ----- What the server makes of the client's frames -----

  predicate GoodBatchRequests(start: U64, requests: seq<(Command, Request)>, max: nat) {
    && GoodBatch(start, Commands(requests))
    && forall i :: 0 <= i < |requests| ==>
         GoodRequestFrame(RequestFrame(IdAt(start, i), requests[i].0, requests[i].1), max)
  }

  lemma {:induction false} BatchFrameAt(start: U64, requests: seq<(Command, Request)>, i: nat)
    requires i < |requests|
    ensures |BatchFrames(start, requests)| == |requests|
    ensures BatchFrames(start, requests)[i] == FrameFor(start, i, requests[i])
  {
    hide FrameFor;
    var k := |requests| - 1;
    if k > 0 {
      BatchFrameAt(start, requests[..k], Min(i, k - 1));
    }
  }

  /** The server decodes each frame of the batch to the request it was made from. */
  lemma FrameDecodes(f: RequestFrame, max: nat)
    requires GoodRequestFrame(f, max)
    ensures var bytes := EncodeRequestFrame(f, ZEROS); DecodeRequestFrame(bytes, max) == Ok(f) && IsFrame(bytes, max)
  {
    var bytes := EncodeRequestFrame(f, ZEROS);
    RequestRoundTrip(f, ZEROS, [], max);
    assert bytes + [] == bytes;
    var payload := EncodeRequest(f.payload, ZEROS);
    HeaderFields(KIND_REQUEST, f.command, f.requestId, |payload|, payload);
    Widths();
    NumberRoundTrip(4, |payload|);
  }

  lemma BatchParses(start: U64, requests: seq<(Command, Request)>, max: nat)
    requires GoodBatchRequests(start, requests, max)
    ensures var frames := BatchFrames(start, requests); ParseAll(Concat(frames), max) == Parsed(frames, [], false)
  {
    hide GoodRequestFrame, IsFrame;
    var frames := BatchFrames(start, requests);
    assert |frames| == |requests| by {
      if requests != [] {
        BatchFrameAt(start, requests, 0);
      }
    }
    forall i | 0 <= i < |frames|
      ensures IsFrame(frames[i], max)
    {
      BatchFrameAt(start, requests, i);
      FrameDecodes(RequestFrame(IdAt(start, i), requests[i].0, requests[i].1), max);
    }
    ParseConcat(frames, max);
  }

  /**
    Step `j` of the run executed request `i`; the cache of that moment gave this response to it, and its
    bytes say so.
   */
  ghost predicate ServedAt(setup: Setup, states: seq<State>, actions: seq<Action>, j: nat, i: nat, f: RequestFrame,
                           response: Response)
  {
    && Executes(states, actions, j, i)
    && Serves(setup.hash, setup.limits, states[j].cache, f.payload, actions[j].now, response, states[j + 1].cache)
    && Some(actions[j].bytes) == Encoded(ResponseFrame(f.requestId, f.command, response))
  }

  ghost predicate ServedInRun(setup: Setup, states: seq<State>, actions: seq<Action>, i: nat, f: RequestFrame,
                              response: Response)
  {
    exists j: nat :: ServedAt(setup, states, actions, j, i, f, response)
  }

  /** The response frame in an answer to request `f`. */
  ghost predicate Carries(f: RequestFrame, bytes: Bytes, r: ResponseFrame) {
    && bytes == EncodeResponseFrame(r)
    && GoodResponse(r.command, r.payload) && Fits(r.payload)
    && r.requestId == f.requestId && r.command == f.command
  }

  lemma AnswerCarries(setup: Setup, s: Sharded, f: RequestFrame, now: U64, bytes: Bytes, s': Sharded)
    returns (r: ResponseFrame)
    requires GoodDebug(setup.debug) && GoodRequestFrame(f, setup.max)
    requires Responds(setup, s, EncodeRequestFrame(f, ZEROS), now, bytes, s')
    ensures Carries(f, bytes, r) && Serves(setup.hash, setup.limits, s, f.payload, now, r.payload, s')
  {
    hide Serves, EncodeResponse, DecodeResponseFrame;
    var frame := EncodeRequestFrame(f, ZEROS);
    FrameDecodes(f, setup.max);
    AcceptedHeader(frame, setup.max);
    AnswerReadsBack(setup.hash, setup.limits, setup.debug, setup.max, s, frame, now, bytes, s', []);
    assert bytes + [] == bytes;
    r := DecodeResponseFrame(bytes, U32_LIMIT - 1).value;
    ResponseReencodes(bytes, U32_LIMIT - 1);
  }

  lemma CarriesEncoded(f: RequestFrame, bytes: Bytes, r: ResponseFrame)
    requires Carries(f, bytes, r)
    ensures Some(bytes) == Encoded(ResponseFrame(f.requestId, f.command, r.payload))
  {
  }

  // ----- All replies together -----

  function RequestAt(start: U64, requests: seq<(Command, Request)>, i: nat): RequestFrame
    requires i < |requests|
  {
    RequestFrame(IdAt(start, i), requests[i].0, requests[i].1)
  }

  /** `r` is the response frame in reply `o`, and says what the cache answered when that request was executed. */
  ghost predicate ReadAs(setup: Setup, start: U64, requests: seq<(Command, Request)>, states: seq<State>,
                         actions: seq<Action>, o: Reply, r: ResponseFrame)
  {
    && o.index < |requests|
    && Carries(RequestAt(start, requests, o.index), o.bytes, r)
    && ServedInRun(setup, states, actions, o.index, RequestAt(start, requests, o.index), r.payload)
  }

  /** `rs` are the response frames in `out`, one each. */
  ghost predicate Read(setup: Setup, start: U64, requests: seq<(Command, Request)>, states: seq<State>,
                       actions: seq<Action>, out: seq<Reply>, rs: seq<ResponseFrame>)
  {
    && |rs| == |out|
    && forall p :: 0 <= p < |out| ==> ReadAs(setup, start, requests, states, actions, out[p], rs[p])
  }

  lemma ReadOne(setup: Setup, start: U64, requests: seq<(Command, Request)>, states: seq<State>, actions: seq<Action>,
                o: Reply)
    returns (r: ResponseFrame)
    requires GoodDebug(setup.debug) && GoodBatchRequests(start, requests, setup.max) && o.index < |requests|
    requires MadeInRun(setup, BatchFrames(start, requests), states, actions, o)
    ensures ReadAs(setup, start, requests, states, actions, o, r)
  {
    hide GoodRequestFrame, Carries, BatchFrames, Responds, Serves;
    var j: nat :| MadeAt(setup, BatchFrames(start, requests), states, actions, j, o);
    var f := RequestAt(start, requests, o.index);
    BatchFrameAt(start, requests, o.index);
    r := AnswerCarries(setup, states[j].cache, f, actions[j].now, o.bytes, states[j + 1].cache);
    CarriesEncoded(f, o.bytes, r);
    assert ServedAt(setup, states, actions, j, o.index, f, r.payload);
  }

  lemma {:induction false} ReadAll(setup: Setup, start: U64, requests: seq<(Command, Request)>, states: seq<State>,
                                   actions: seq<Action>, out: seq<Reply>)
    returns (rs: seq<ResponseFrame>)
    requires GoodDebug(setup.debug) && GoodBatchRequests(start, requests, setup.max)
    requires forall p :: 0 <= p < |out| ==>
               out[p].index < |requests| && MadeInRun(setup, BatchFrames(start, requests), states, actions, out[p])
    ensures Read(setup, start, requests, states, actions, out, rs)
    ensures Joined(out) == EncodeAll(rs)
    decreases |out|
  {
    hide MadeInRun, GoodBatchRequests, ReadAs, BatchFrames, EncodeResponseFrame;
    if out == [] {
      rs := [];
    } else {
      var others := ReadAll(setup, start, requests, states, actions, out[1..]);
      var r := ReadOne(setup, start, requests, states, actions, out[0]);
      ReadBytes(setup, start, requests, states, actions, out[0], r);
      rs := [r] + others;
      assert rs[1..] == others;
      forall p | 0 <= p < |out|
        ensures ReadAs(setup, start, requests, states, actions, out[p], rs[p])
      {
        assert p > 0 ==> out[p] == out[1..][p - 1] && rs[p] == others[p - 1];
      }
    }
  }

  lemma ReadBytes(setup: Setup, start: U64, requests: seq<(Command, Request)>, states: seq<State>, actions: seq<Action>,
                  o: Reply, r: ResponseFrame)
    requires ReadAs(setup, start, requests, states, actions, o, r)
    ensures o.index < |requests| && o.bytes == EncodeResponseFrame(r)
    ensures r.requestId == IdAt(start, o.index) && r.command == requests[o.index].0
    ensures ServedInRun(setup, states, actions, o.index, RequestAt(start, requests, o.index), r.payload)
    ensures forall max: nat :: |o.bytes| <= HEADER_LEN + max ==> GoodResponseFrame(r, max)
  {
    hide ServedInRun, IdAt;
    HeaderFields(KIND_RESPONSE, r.command, r.requestId, |EncodeResponse(r.payload)|, EncodeResponse(r.payload));
  }

  lemma {:induction false} DistinctIds(rs: seq<ResponseFrame>)
    requires forall p, q :: 0 <= p < q < |rs| ==> rs[p].requestId != rs[q].requestId
    ensures |Ids(rs)| == |rs|
  {
    if rs != [] {
      var k := |rs| - 1;
      DistinctIds(rs[..k]);
      assert rs[k].requestId !in Ids(rs[..k]);
      IdsGrow(rs[..k], rs[k]);
      assert rs == rs[..k] + [rs[k]];
      hide Ids;
    }
  }

  lemma RepliesMatch(setup: Setup, start: U64, requests: seq<(Command, Request)>, states: seq<State>,
                     actions: seq<Action>, out: seq<Reply>, rs: seq<ResponseFrame>)
    requires GoodBatch(start, Commands(requests)) && Read(setup, start, requests, states, actions, out, rs)
    requires Connection.Distinct(out)
    ensures Matches(start, Commands(requests), rs)
  {
    hide ReadAs, IdAt, ExpectedFor;
    forall p | 0 <= p < |rs|
      ensures out[p].index < |requests|
      ensures rs[p].requestId == IdAt(start, out[p].index) && rs[p].command == requests[out[p].index].0
    {
      ReadBytes(setup, start, requests, states, actions, out[p], rs[p]);
    }
    ExpectedIsExact(start, Commands(requests));
    forall p, q | 0 <= p < q < |rs|
      ensures rs[p].requestId != rs[q].requestId
    {
      IdsApart(start, out[p].index, out[q].index, |requests|);
    }
    DistinctIds(rs);
  }

  lemma IdsApart(start: U64, i: nat, j: nat, n: nat)
    requires start >= 1 && i != j && i < n && j < n && n <= U64_MAX
    ensures IdAt(start, i) != IdAt(start, j)
  {
    if i < j {
      IdsDiffer(start, i, j);
    } else {
      IdsDiffer(start, j, i);
    }
  }

  function Somes(answers: seq<Response>): seq<Option<Response>> {
    seq(|answers|, i requires 0 <= i < |answers| => Some(answers[i]))
  }

  /** The answer under each id is the one given to the request with that id. */
  lemma AnswersInOrder(setup: Setup, start: U64, requests: seq<(Command, Request)>, states: seq<State>,
                       actions: seq<Action>, out: seq<Reply>, rs: seq<ResponseFrame>)
    returns (answers: seq<Response>)
    requires GoodBatch(start, Commands(requests)) && Read(setup, start, requests, states, actions, out, rs)
    requires Connection.Distinct(out) && |out| == |requests|
    ensures |answers| == |requests|
    ensures forall i :: 0 <= i < |requests| ==>
              ServedInRun(setup, states, actions, i, RequestAt(start, requests, i), answers[i])
    ensures Pipelining.InOrder(start, |requests|, rs) == Somes(answers)
  {
    hide ReadAs, IdAt, Matches, ServedInRun;
    RepliesMatch(setup, start, requests, states, actions, out, rs);
    NoneMissing(start, Commands(requests), rs);
    answers := [];
    while |answers| < |requests|
      invariant |answers| <= |requests|
      invariant forall i :: 0 <= i < |answers| ==>
                  ServedInRun(setup, states, actions, i, RequestAt(start, requests, i), answers[i])
      invariant forall i :: 0 <= i < |answers| ==> ResponseFor(rs, IdAt(start, i)) == Some(answers[i])
    {
      var i := |answers|;
      AnswerIsServed(setup, start, requests, states, actions, out, rs, i);
      answers := answers + [ResponseFor(rs, IdAt(start, i)).value];
    }
  }

  lemma AnswerIsServed(setup: Setup, start: U64, requests: seq<(Command, Request)>, states: seq<State>,
                       actions: seq<Action>, out: seq<Reply>, rs: seq<ResponseFrame>, i: nat)
    requires GoodBatch(start, Commands(requests)) && Read(setup, start, requests, states, actions, out, rs)
    requires i < |requests|
    requires Matches(start, Commands(requests), rs) && ResponseFor(rs, IdAt(start, i)).Some?
    ensures ServedInRun(setup, states, actions, i, RequestAt(start, requests, i), ResponseFor(rs, IdAt(start, i)).value)
  {
    hide ReadAs, IdAt, ServedInRun;
    var id := IdAt(start, i);
    NotYet(rs, id);
    var r :| r in rs && r.requestId == id;
    Unique(rs, r);
    var p :| 0 <= p < |rs| && rs[p] == r;
    ReadBytes(setup, start, requests, states, actions, out[p], r);
    if out[p].index != i {
      IdsApart(start, out[p].index, i, |requests|);
    }
  }

  // ----- The client's result -----

  /**
    A client sends a batch of well-formed requests on a fresh connection, its bytes
    arrive split in some way, and the connection runs until all is answered; no
    response is longer than the client accepts.
   */
  ghost predicate Session(setup: Setup, start: U64, requests: seq<(Command, Request)>, incoming: seq<Bytes>,
                          states: seq<State>, actions: seq<Action>, max: nat)
  {
    && GoodDebug(setup.debug) && GoodBatchRequests(start, requests, setup.max)
    && Concat(incoming) == Concat(BatchFrames(start, requests))
    && Run(setup, Deliver([], incoming, setup.max).batches, states, actions)
    && Drained(states[|actions|])
    && forall w, r :: w in states[|actions|].writes && r in w ==> |r.bytes| <= HEADER_LEN + max
  }

  /**
    However the client's bytes are split on the way, however the server's tasks and
    writer take turns, and whatever other connections do to the cache: the client
    gets, in request order, for each request the response the cache of this very
    run gave at the one step that executed it, or the error of the first request
    that failed.  Requests answered inline were executed in request order.
   */
  lemma PipelinedBatchReturns(setup: Setup, start: U64, requests: seq<(Command, Request)>, incoming: seq<Bytes>,
                              states: seq<State>, actions: seq<Action>, max: nat) returns (answers: seq<Response>)
    requires Session(setup, start, requests, incoming, states, actions, max)
    ensures |answers| == |requests|
    ensures forall i :: 0 <= i < |requests| ==>
              ServedInRun(setup, states, actions, i, RequestAt(start, requests, i), answers[i])
    ensures ExecutedInOrder(states, actions, Leading(Deliver([], incoming, setup.max).batches))
    ensures WellSized(NewMatcher(start, Commands(requests)))
    ensures Delivers(Somes(answers),
                     PipelinedResult(start, Commands(requests), Joined(Flat(states[|actions|].writes)), max))
  {
    var writes := states[|actions|].writes;
    hide Run, MadeInRun, Flat, ReadAs, Deliver, BatchFrames, Matches, Finish, GoodRequestFrame, GoodResponseFrame;
    hide IdAt, Delivers;
    hide ServedInRun, ExecutedInOrder, SaidInRun, Drained;
    var frames, out := BatchFrames(start, requests), Flat(writes);
    BatchParses(start, requests, setup.max);
    BatchSize(start, requests);
    StreamIsAnswered(setup, incoming, states, actions);
    assert AllAnswered(setup, frames, Leading(Deliver([], incoming, setup.max).batches), states, actions);
    var rs := ReadAll(setup, start, requests, states, actions, out);
    answers := AnswersInOrder(setup, start, requests, states, actions, out, rs);
    forall p | 0 <= p < |out|
      ensures |out[p].bytes| <= HEADER_LEN + max
    {
      InFlat(writes, p);
    }
    ClientGets(setup, start, requests, states, actions, out, rs, max);
  }

  /** What the client makes of the bytes sent to it. */
  lemma ClientGets(setup: Setup, start: U64, requests: seq<(Command, Request)>, states: seq<State>,
                   actions: seq<Action>, out: seq<Reply>, rs: seq<ResponseFrame>, max: nat)
    requires GoodBatch(start, Commands(requests)) && Read(setup, start, requests, states, actions, out, rs)
    requires Connection.Distinct(out) && |out| == |requests| && Joined(out) == EncodeAll(rs)
    requires forall p :: 0 <= p < |out| ==> |out[p].bytes| <= HEADER_LEN + max
    ensures WellSized(NewMatcher(start, Commands(requests)))
    ensures Delivers(Pipelining.InOrder(start, |requests|, rs),
                     PipelinedResult(start, Commands(requests), Joined(out), max))
  {
    hide ReadAs, Matches, Finish, GoodResponseFrame, IdAt, Delivers, Joined;
    var commands := Commands(requests);
    RepliesMatch(setup, start, requests, states, actions, out, rs);
    FinishDelivers(start, commands, rs);
    forall p | 0 <= p < |rs|
      ensures GoodResponseFrame(rs[p], max)
    {
      ReadBytes(setup, start, requests, states, actions, out[p], rs[p]);
    }
    ExchangeIsPushAll(NewMatcher(start, commands), rs, max);
  }

  lemma BatchSize(start: U64, requests: seq<(Command, Request)>)
    ensures |BatchFrames(start, requests)| == |requests|
  {
    if requests != [] {
      BatchFrameAt(start, requests, 0);
    }
  }

  lemma {:induction false} InFlat(writes: seq<seq<Reply>>, p: nat)
    requires p < |Flat(writes)|
    ensures exists w :: w in writes && Flat(writes)[p] in w
  {
    var k := |writes| - 1;
    var before := Flat(writes[..k]);
    if p < |before| {
      InFlat(writes[..k], p);
      var w :| w in writes[..k] && before[p] in w;
      assert w in writes && Flat(writes)[p] == before[p];
    } else {
      assert Flat(writes)[p] == writes[k][p - |before|];
      assert writes[k] in writes;
    }
  }

  // ----- What the client reads is what was last written -----

  /** The calls of the step that executed request `i` stand in the history, and the response is their replies. */
  ghost predicate LoggedAt(states: seq<State>, actions: seq<Action>, es: seq<E.Event>, at: seq<nat>, j: nat, i: nat,
                           p: Request, response: Response)
  {
    && Executes(states, actions, j, i)
    && j + 1 < |at| && at[j] <= at[j + 1] <= |es|
    && MadeFor(p, actions[j].now, es[at[j]..at[j + 1]])
    && response == Reported(p, es[at[j]..at[j + 1]])
  }

  lemma SameBytes(c: Command, a: ResponseFrame, b: ResponseFrame)
    requires a.command == b.command == c && GoodResponse(c, a.payload) && GoodResponse(c, b.payload)
    requires Encoded(a).Some? && Encoded(a) == Encoded(b)
    ensures a == b
  {
    ResponseRoundTrip(a, [], U32_LIMIT - 1);
    ResponseRoundTrip(b, [], U32_LIMIT - 1);
  }

  lemma ServedIsLogged(setup: Setup, batches: seq<seq<Bytes>>, states: seq<State>, actions: seq<Action>,
                       ss: seq<Sharded>, es: seq<E.Event>, at: seq<nat>, i: nat, f: RequestFrame, response: Response)
    returns (j: nat)
    requires Run(setup, batches, states, actions) && NoneEmpty(batches)
    requires Follows(setup, states, actions, |actions|, ss, es, at)
    requires i < |Flatten(batches)| && DecodeRequestFrame(Flatten(batches)[i], setup.max) == Ok(f)
    requires f.command == CommandOf(f.payload)
    requires ServedInRun(setup, states, actions, i, f, response)
    ensures LoggedAt(states, actions, es, at, j, i, f.payload, response)
  {
    hide Inv, Serves, MadeFor, Reported, DecodeRequestFrame, Encoded, GoodResponse;
    j :| ServedAt(setup, states, actions, j, i, f, response);
    RunKeeps(setup, batches, states, actions, j);
    ExecutedFrame(setup, Flatten(batches), Leading(batches), states[j], actions[j]);
    var s, a, s' := states[j], actions[j], states[j + 1];
    var calls := es[at[j]..at[j + 1]];
    assert StepCalls(setup, s, a, calls);
    assert s'.cache == a.cache;
    assert Logged(setup, s.cache, FrameOf(s, a), a.now, a.bytes, s'.cache, calls);
    EncodedIsGood(setup, s.cache, f, a.now, response, s'.cache);
    EncodedIsGood(setup, s.cache, f, a.now, Reported(f.payload, calls), s'.cache);
    SameBytes(f.command, ResponseFrame(f.requestId, f.command, response),
              ResponseFrame(f.requestId, f.command, Reported(f.payload, calls)));
  }

  lemma EncodedIsGood(setup: Setup, s: Sharded, f: RequestFrame, now: U64, response: Response, s': Sharded)
    requires Serves(setup.hash, setup.limits, s, f.payload, now, response, s') && f.command == CommandOf(f.payload)
    requires Encoded(ResponseFrame(f.requestId, f.command, response)).Some?
    ensures GoodResponse(f.command, response)
  {
    hide Serves;
    ServedIsGood(setup.hash, setup.limits, s, f.payload, now, response, s');
  }

  predicate NoShardless(ss: seq<Sharded>) {
    forall i :: 0 <= i < |ss| ==> |ss[i].shards| > 0
  }

  /** What the history before place `k` answers a read of this key. */
  ghost function Recall(setup: Setup, ss: seq<Sharded>, es: seq<E.Event>, k: nat, ns: Text, key: Bytes): E.GetOutcome
    requires k < |es| < |ss| && NoShardless(ss)
  {
    Reference.ReadBack(setup.hash, ss, es, k, E.EntryId(ns, key))
  }

  /** The response to a lease request shows this of the stored value. */
  ghost predicate LeaseShowing(response: Response, seen: E.GetOutcome) {
    exists outcome: E.LeaseOutcome ::
      Reference.Shown(outcome) == seen && response == ResponseTo(E.StartReply(outcome))
  }

  /** The batch has one item per key, each what the history before that key's own get says. */
  ghost predicate BatchRecalls(setup: Setup, ss: seq<Sharded>, es: seq<E.Event>, k: nat, ns: Text, keys: seq<Bytes>,
                               items: seq<Item>)
    requires k + |keys| <= |es| < |ss| && NoShardless(ss)
  {
    && |items| == |keys|
    && forall x :: 0 <= x < |keys| ==> items[x] == ItemOf(Recall(setup, ss, es, k + x, ns, keys[x]))
  }

  /**
    A get, a batch of gets or a lease request with its calls from place `k` on is answered by the
    history before them.
   */
  ghost predicate Recalls(setup: Setup, ss: seq<Sharded>, es: seq<E.Event>, k: nat, p: Request, response: Response) {
    && |es| < |ss| && NoShardless(ss)
    && match p
       case GetRequest(ns, key) =>
         k < |es| && response == ResponseTo(E.GetReply(Recall(setup, ss, es, k, ns, key)))
       case BatchGetRequest(ns, keys) =>
         k + |keys| <= |es| && response.BatchResponse? && BatchRecalls(setup, ss, es, k, ns, keys, response.items)
       case LeaseStartRequest(ns, key, _, _) =>
         k < |es| && LeaseShowing(response, Recall(setup, ss, es, k, ns, key))
       case _ => true
  }

  lemma GetRecalls(setup: Setup, ss: seq<Sharded>, es: seq<E.Event>, k: nat, ns: Text, key: Bytes)
    requires ShardedRun(setup.hash, setup.limits, ss, es) && k < |es|
    requires es[k].op == E.Get(E.EntryId(ns, key), true)
    ensures NoShardless(ss) && es[k].reply == E.GetReply(Recall(setup, ss, es, k, ns, key))
  {
    hide ShardedStep, Reference.ReadBack;
    Reference.ReadsLatestWrite(setup.hash, setup.limits, ss, es, k, E.EntryId(ns, key), true);
  }

  lemma LeaseRecalls(setup: Setup, ss: seq<Sharded>, es: seq<E.Event>, k: nat, ns: Text, key: Bytes, ttl: U64)
    requires ShardedRun(setup.hash, setup.limits, ss, es) && k < |es|
    requires es[k].op == E.Start(E.EntryId(ns, key), ttl)
    ensures NoShardless(ss) && LeaseShowing(ResponseTo(es[k].reply), Recall(setup, ss, es, k, ns, key))
  {
    hide ShardedStep, Reference.ReadBack, Reference.Shown, ResponseTo;
    Reference.LeaseReadsLatestWrite(setup.hash, setup.limits, ss, es, k, E.EntryId(ns, key), ttl);
    assert es[k].reply == E.StartReply(es[k].reply.lease);
  }

  lemma BatchIsRecalled(setup: Setup, ss: seq<Sharded>, es: seq<E.Event>, k: nat, p: Request, now: U64)
    requires ShardedRun(setup.hash, setup.limits, ss, es) && p.BatchGetRequest? && k + |p.keys| <= |es|
    requires MadeFor(p, now, es[k..k + |p.keys|])
    ensures |es| < |ss| && NoShardless(ss)
    ensures BatchRecalls(setup, ss, es, k, p.ns, p.keys, Reported(p, es[k..k + |p.keys|]).items)
  {
    hide ShardedRun, Recall;
    Reference.RunShards(setup.hash, setup.limits, ss, es);
    var calls := es[k..k + |p.keys|];
    var items := Reported(p, calls).items;
    forall x | 0 <= x < |p.keys|
      ensures items[x] == ItemOf(Recall(setup, ss, es, k + x, p.ns, p.keys[x]))
    {
      assert calls[x] == es[k + x];
      GetRecalls(setup, ss, es, k + x, p.ns, p.keys[x]);
    }
  }

  /** A logged read is answered by the history before its own place. */
  lemma LoggedRecalls(setup: Setup, states: seq<State>, actions: seq<Action>, ss: seq<Sharded>, es: seq<E.Event>,
                      at: seq<nat>, j: nat, i: nat, p: Request, response: Response)
    requires ShardedRun(setup.hash, setup.limits, ss, es)
    requires LoggedAt(states, actions, es, at, j, i, p, response)
    ensures Recalls(setup, ss, es, at[j], p, response)
  {
    hide ShardedRun, Recall, LeaseShowing, BatchRecalls, ResponseTo;
    Reference.RunShards(setup.hash, setup.limits, ss, es);
    var calls := es[at[j]..at[j + 1]];
    match p {
      case GetRequest(ns, key) =>
        assert calls[0] == es[at[j]];
        GetRecalls(setup, ss, es, at[j], ns, key);
      case BatchGetRequest(ns, keys) =>
        BatchIsRecalled(setup, ss, es, at[j], p, actions[j].now);
      case LeaseStartRequest(ns, key, ttl, _) =>
        assert calls[0] == es[at[j]];
        LeaseRecalls(setup, ss, es, at[j], ns, key, ttl);
      case _ =>
    }
  }

  lemma {:induction false} PlacesGrow(setup: Setup, states: seq<State>, actions: seq<Action>, ss: seq<Sharded>,
                                      es: seq<E.Event>, at: seq<nat>, j: nat, k: nat)
    requires Follows(setup, states, actions, |actions|, ss, es, at) && j <= k <= |actions|
    ensures at[j] <= at[k]
  {
    hide StepCalls;
    if j < k {
      PlacesGrow(setup, states, actions, ss, es, at, j, k - 1);
    }
  }

  /** The reads deliver the frames of the batch, whichever way its bytes are split. */
  lemma BatchDelivered(setup: Setup, start: U64, requests: seq<(Command, Request)>, incoming: seq<Bytes>)
    requires GoodBatchRequests(start, requests, setup.max)
    requires Concat(incoming) == Concat(BatchFrames(start, requests))
    ensures var batches := Deliver([], incoming, setup.max).batches;
            NoneEmpty(batches) && Flatten(batches) == BatchFrames(start, requests)
  {
    hide Deliver, ParseAll, BatchFrames;
    BatchParses(start, requests, setup.max);
    DeliversNoneEmpty([], incoming, setup.max);
    NothingYet(setup.max);
    SplitIndependent([], incoming, setup.max);
    assert [] + Concat(incoming) == Concat(incoming);
  }

  /** The frames the connection works on are those of the batch. */
  lemma SessionFrames(setup: Setup, start: U64, requests: seq<(Command, Request)>, incoming: seq<Bytes>, max: nat,
                      i: nat)
    requires GoodBatchRequests(start, requests, setup.max) && i < |requests|
    requires Concat(incoming) == Concat(BatchFrames(start, requests))
    ensures var batches := Deliver([], incoming, setup.max).batches;
            && NoneEmpty(batches) && |Flatten(batches)| == |requests|
            && DecodeRequestFrame(Flatten(batches)[i], setup.max) == Ok(RequestAt(start, requests, i))
            && requests[i].0 == CommandOf(requests[i].1)
  {
    hide Deliver, BatchFrames, DecodeRequestFrame;
    BatchDelivered(setup, start, requests, incoming);
    BatchFrameAt(start, requests, i);
    FrameDecodes(RequestAt(start, requests, i), setup.max);
  }

  /** Each request has its calls in the history, at the step that executed it, and its answer is their replies. */
  ghost predicate AllLogged(requests: seq<(Command, Request)>, states: seq<State>, actions: seq<Action>,
                            es: seq<E.Event>, at: seq<nat>, steps: seq<nat>, answers: seq<Response>)
  {
    && |answers| == |requests| == |steps|
    && forall i :: 0 <= i < |requests| ==> LoggedAt(states, actions, es, at, steps[i], i, requests[i].1, answers[i])
  }

  lemma StepsOf(setup: Setup, start: U64, requests: seq<(Command, Request)>, incoming: seq<Bytes>, states: seq<State>,
                actions: seq<Action>, max: nat, ss: seq<Sharded>, es: seq<E.Event>, at: seq<nat>,
                answers: seq<Response>)
    returns (steps: seq<nat>)
    requires Session(setup, start, requests, incoming, states, actions, max)
    requires Follows(setup, states, actions, |actions|, ss, es, at) && |answers| == |requests|
    requires forall i :: 0 <= i < |requests| ==>
               ServedInRun(setup, states, actions, i, RequestAt(start, requests, i), answers[i])
    ensures AllLogged(requests, states, actions, es, at, steps, answers)
  {
    hide Run, Follows, ServedInRun, LoggedAt, Deliver, GoodBatchRequests, DecodeRequestFrame, GoodDebug, BatchFrames;
    hide IdAt;
    steps := [];
    while |steps| < |requests|
      invariant |steps| <= |requests|
      invariant forall i :: 0 <= i < |steps| ==>
                  LoggedAt(states, actions, es, at, steps[i], i, requests[i].1, answers[i])
    {
      var i := |steps|;
      SessionFrames(setup, start, requests, incoming, max, i);
      var j := ServedIsLogged(setup, Deliver([], incoming, setup.max).batches, states, actions, ss, es, at, i,
                              RequestAt(start, requests, i), answers[i]);
      steps := steps + [j];
    }
  }

  /** Each get, batch of gets and lease request is answered by the history before its place. */
  ghost predicate AllRead(setup: Setup, requests: seq<(Command, Request)>, ss: seq<Sharded>, es: seq<E.Event>,
                          at: seq<nat>, steps: seq<nat>, answers: seq<Response>)
  {
    && |answers| == |requests| == |steps|
    && forall i :: 0 <= i < |requests| ==>
         steps[i] < |at| && Recalls(setup, ss, es, at[steps[i]], requests[i].1, answers[i])
  }

  /** The calls of the first `inline` requests stand before those of every later one. */
  predicate InlineFirst(at: seq<nat>, steps: seq<nat>, inline: nat) {
    forall a, i :: 0 <= a < i < |steps| && a < inline ==>
      steps[a] + 1 < |at| && steps[i] < |at| && at[steps[a] + 1] <= at[steps[i]]
  }

  /**
    From bytes to bytes, against the whole history of the cache.  Whatever calls
    were made before the connection, they and all calls made during it are one
    run of the cache; every request of the batch has its calls in it, made at the
    one step that executed the request, and the client's answer is their replies.
    So the answer to a get, to each key of a batch and to a lease request shows the
    latest write of exactly that key before it in the history, in the state its
    lifetimes give it, and nothing just when none is left or that write was lost.
    The calls of a request answered inline stand before those of every later one.
   */
  lemma ClientReadsLatestWrite(setup: Setup, start: U64, requests: seq<(Command, Request)>, incoming: seq<Bytes>,
                               states: seq<State>, actions: seq<Action>, max: nat, ss0: seq<Sharded>, es0: seq<E.Event>)
    returns (answers: seq<Response>, ss: seq<Sharded>, es: seq<E.Event>, at: seq<nat>, steps: seq<nat>)
    requires Session(setup, start, requests, incoming, states, actions, max)
    requires RunTo(setup, ss0, es0, states[0].cache) && Clocked(es0, actions)
    ensures WellSized(NewMatcher(start, Commands(requests)))
    ensures Delivers(Somes(answers),
                     PipelinedResult(start, Commands(requests), Joined(Flat(states[|actions|].writes)), max))
    ensures ShardedRun(setup.hash, setup.limits, ss, es) && es0 <= es
    ensures Follows(setup, states, actions, |actions|, ss, es, at)
    ensures AllLogged(requests, states, actions, es, at, steps, answers)
    ensures AllRead(setup, requests, ss, es, at, steps, answers)
    ensures InlineFirst(at, steps, Leading(Deliver([], incoming, setup.max).batches))
  {
    var batches := Deliver([], incoming, setup.max).batches;
    assert Run(setup, batches, states, actions);
    hide Session, Run, ServedInRun, Deliver, Delivers, PipelinedResult, Flat, Joined, Clocked, RunTo;
    hide ShardedRun, Follows, AllLogged, AllRead, InlineFirst, ExecutedInOrder;
    answers := PipelinedBatchReturns(setup, start, requests, incoming, states, actions, max);
    ss, es, at := CachesAreARun(setup, batches, states, actions, ss0, es0, |actions|);
    RunToIsRun(setup, ss, es, states[|actions|].cache);
    steps := StepsOf(setup, start, requests, incoming, states, actions, max, ss, es, at, answers);
    LoggedAreRead(setup, requests, states, actions, ss, es, at, steps, answers);
    LoggedInline(setup, requests, states, actions, ss, es, at, steps, answers, Leading(batches));
  }

  lemma LoggedAreRead(setup: Setup, requests: seq<(Command, Request)>, states: seq<State>, actions: seq<Action>,
                      ss: seq<Sharded>, es: seq<E.Event>, at: seq<nat>, steps: seq<nat>, answers: seq<Response>)
    requires ShardedRun(setup.hash, setup.limits, ss, es)
    requires AllLogged(requests, states, actions, es, at, steps, answers)
    ensures AllRead(setup, requests, ss, es, at, steps, answers)
  {
    hide ShardedRun, Recalls, MadeFor, Reported, Executes;
    forall i | 0 <= i < |requests|
      ensures steps[i] < |at| && Recalls(setup, ss, es, at[steps[i]], requests[i].1, answers[i])
    {
      LoggedRecalls(setup, states, actions, ss, es, at, steps[i], i, requests[i].1, answers[i]);
    }
  }

  lemma LoggedInline(setup: Setup, requests: seq<(Command, Request)>, states: seq<State>, actions: seq<Action>,
                     ss: seq<Sharded>, es: seq<E.Event>, at: seq<nat>, steps: seq<nat>, answers: seq<Response>,
                     inline: nat)
    requires Follows(setup, states, actions, |actions|, ss, es, at)
    requires AllLogged(requests, states, actions, es, at, steps, answers)
    requires ExecutedInOrder(states, actions, inline)
    ensures InlineFirst(at, steps, inline)
  {
    hide StepCalls, MadeFor, Reported, Executes;
    forall a, i | 0 <= a < i < |steps| && a < inline
      ensures steps[a] + 1 < |at| && steps[i] < |at| && at[steps[a] + 1] <= at[steps[i]]
    {
      assert LoggedAt(states, actions, es, at, steps[a], a, requests[a].1, answers[a]);
      assert LoggedAt(states, actions, es, at, steps[i], i, requests[i].1, answers[i]);
      PlacesGrow(setup, states, actions, ss, es, at, steps[a] + 1, steps[i]);
    }
  }

  lemma RunToIsRun(setup: Setup, ss: seq<Sharded>, es: seq<E.Event>, cache: Sharded)
    requires RunTo(setup, ss, es, cache)
    ensures ShardedRun(setup.hash, setup.limits, ss, es)
  {
  }

  /**
    In particular a get sees what was stored before it: while nothing in between
    rewrites the key, deletes it or invalidates one of its tags, the answer is the
    stored value for as long as it lives, unless a call in between evicted it or
    removed it when it was due, and then a miss.
   */
  lemma GetSeesPut(setup: Setup, states: seq<State>, actions: seq<Action>, ss: seq<Sharded>, es: seq<E.Event>,
                   at: seq<nat>, j: nat, a: nat, p: Request, stored: Response, k: nat, i: nat, got: Response)
    requires ShardedRun(setup.hash, setup.limits, ss, es) && ServerLaws.Stores(p, stored)
    requires LoggedAt(states, actions, es, at, j, a, p, stored)
    requires LoggedAt(states, actions, es, at, k, i, GetRequest(p.ns, p.key), got)
    requires at[j + 1] <= at[k]
    requires forall n :: at[j] < n < at[k] ==>
               Reference.LeavesAlone(es[n], E.EntryId(p.ns, p.key), p.metadata.tags)
    ensures |es| < |ss| && NoShardless(ss) && Reference.Stands(es, at[j], at[k], E.EntryId(p.ns, p.key))
    ensures got == if Reference.LostBetween(setup.hash, ss, es, at[j], at[k], E.EntryId(p.ns, p.key)) then MissResponse
                   else ServerLaws.Lifetime(p.metadata, p.value, actions[j].now, actions[k].now)
  {
    hide ShardedRun, Reference.LostBetween, E.EntryMemory, E.StateAt, ServerLaws.Lifetime;
    var id := E.EntryId(p.ns, p.key);
    Reference.RunShards(setup.hash, setup.limits, ss, es);
    assert es[at[j]..at[j + 1]][0] == es[at[j]] && es[at[k]..at[k + 1]][0] == es[at[k]];
    StoreIsWritten(setup, ss, es, at[j], p, stored);
    Reference.ReadsOwnWrite(setup.hash, setup.limits, ss, es, at[j], at[k], id, true);
    AgingIsLifetime(p, actions[j].now, actions[k].now);
  }

  lemma AgingIsLifetime(p: Request, now: U64, later: U64)
    requires p.PutRequest? || p.LeaseCompleteRequest?
    ensures var w := Reference.Write(CommandFor(p.ns, p.key, p.metadata, p.value), now);
            ResponseTo(E.GetReply(Reference.Aging(w, later))) == ServerLaws.Lifetime(p.metadata, p.value, now, later)
  {
    hide E.EntryMemory;
  }

  lemma StoreIsWritten(setup: Setup, ss: seq<Sharded>, es: seq<E.Event>, n: nat, p: Request, stored: Response)
    requires ShardedRun(setup.hash, setup.limits, ss, es) && n < |es| && ServerLaws.Stores(p, stored)
    requires es[n].op == CallOf(p) && stored == ResponseTo(es[n].reply)
    ensures EngineRuns.Written(es[n]) == Some(CommandFor(p.ns, p.key, p.metadata, p.value))
  {
    hide E.PutStep;
    assert ShardedStep(setup.hash, setup.limits, ss[n], es[n], ss[n + 1]);
  }

  // ----- Sessions exist -----

  lemma {:induction false} WrittenIsFlat(writes: seq<seq<Reply>>, w: seq<Reply>, r: Reply)
    requires w in writes && r in w
    ensures r in Flat(writes)
  {
    var k := |writes| - 1;
    if w != writes[k] {
      WrittenIsFlat(writes[..k], w, r);
    }
  }

  lemma FrameSize(bytes: Bytes, max: nat)
    requires bytes == [] || IsFrame(bytes, max)
    ensures |bytes| <= HEADER_LEN + max
  {
  }

  /** No response is longer than a frame can be. */
  lemma ResponsesFit(setup: Setup, batches: seq<seq<Bytes>>, states: seq<State>, actions: seq<Action>, w: seq<Reply>,
                     r: Reply)
    requires GoodDebug(setup.debug) && Run(setup, batches, states, actions) && NoneEmpty(batches)
    requires w in states[|actions|].writes && r in w
    ensures |r.bytes| <= HEADER_LEN + U32_LIMIT - 1
  {
    hide Run, Flat, Responds, SaysFor, IsFrame, GoodDebug;
    RunSize(setup, batches, states, actions);
    WrittenIsFlat(states[|actions|].writes, w, r);
    var j := MadeBefore(setup, batches, states, actions, |actions|, r);
    AnswerSays(setup, states[j].cache, Flatten(batches)[r.index], actions[j].now, r.bytes, states[j + 1].cache);
    FrameSize(r.bytes, U32_LIMIT - 1);
  }

  /**
    Every batch of well-formed requests can be brought through, whichever way its bytes
    are split and whatever a sound cache holds, if the responses fit their length fields:
    what is said of sessions is said of all of them.
   */
  lemma SessionExists(setup: Setup, start: U64, requests: seq<(Command, Request)>, incoming: seq<Bytes>, cache: Sharded,
                      now: U64)
    returns (states: seq<State>, actions: seq<Action>)
    requires GoodDebug(setup.debug) && GoodBatchRequests(start, requests, setup.max)
    requires Concat(incoming) == Concat(BatchFrames(start, requests))
    requires ShardedInv(setup.hash, setup.limits, cache) && AllFitting(setup, BatchFrames(start, requests))
    ensures Session(setup, start, requests, incoming, states, actions, U32_LIMIT - 1) && states[0].cache == cache
    ensures forall k :: 0 <= k < |actions| ==> OwnStep(actions[k], now)
  {
    hide Deliver, BatchFrames, AllFitting, GoodBatchRequests, GoodDebug, ShardedInv, Drained;
    var batches := Deliver([], incoming, setup.max).batches;
    BatchDelivered(setup, start, requests, incoming);
    var first := [Start(batches, cache)];
    assert Run(setup, batches, first, []);
    hide Run;
    states, actions := CanBeDrained(setup, batches, first, [], now);
    assert states[0] == first[0];
    forall w, r | w in states[|actions|].writes && r in w
      ensures |r.bytes| <= HEADER_LEN + U32_LIMIT - 1
    {
      ResponsesFit(setup, batches, states, actions, w, r);
    }
  }

  /** On an empty cache a get is a miss and changes nothing. */
  lemma EmptyMisses(setup: Setup, cache: Sharded, ns: Text, key: Bytes, now: U64)
    requires EmptySharded(cache)
    ensures Serves(setup.hash, setup.limits, cache, GetRequest(ns, key), now, MissResponse, cache)
  {
    var id := E.EntryId(ns, key);
    var e := E.Event(E.Get(id, true), now, E.GetReply(E.Miss), {}, []);
    assert KeyedStep(setup.limits, cache, e, id, Route(setup.hash, |cache.shards|, id), cache);
    assert Called(setup.hash, setup.limits, cache, e, cache);
    assert ResponseTo(e.reply) == MissResponse;
  }

  lemma MissIsEncoded(f: RequestFrame) returns (bytes: Bytes)
    ensures Encoded(ResponseFrame(f.requestId, f.command, MissResponse)) == Some(bytes) && |bytes| == HEADER_LEN + 1
  {
    var r := ResponseFrame(f.requestId, f.command, MissResponse);
    HeaderFields(KIND_RESPONSE, r.command, r.requestId, 1, EncodeResponse(MissResponse));
    bytes := EncodeResponseFrame(r);
  }

  lemma OneFrameDelivered(frame: Bytes, max: nat)
    requires IsFrame(frame, max)
    ensures Deliver([], [frame], max).batches == [[frame]] && Concat([frame]) == frame
  {
    hide IsFrame;
    var incoming: seq<Bytes> := [frame];
    assert incoming[1..] == [] && frame + [] == frame && [] + frame == frame;
    ParseConcat(incoming, max);
    NothingYet(max);
    hide ParseAll;
    assert ParseAll(frame, max) == Parsed([frame], [], false);
    assert Deliver([], [], max) == Delivery([], [], false);
    assert Deliver(frame, [], max).batches == [[frame]];
    assert [] + incoming[0] == frame;
  }

  /**
    A client asks an empty server for one key: such a session exists, so what is said of sessions is
    said of something.
   */
  lemma LoneGetSession(setup: Setup, start: U64, ns: Text, key: Bytes, cache: Sharded, now: U64)
    returns (states: seq<State>, actions: seq<Action>)
    requires GoodDebug(setup.debug) && start >= 1 && EmptySharded(cache)
    requires GoodRequestFrame(RequestFrame(start, Get, GetRequest(ns, key)), setup.max)
    ensures var f := RequestFrame(start, Get, GetRequest(ns, key));
            Session(setup, start, [(Get, f.payload)], [EncodeRequestFrame(f, ZEROS)], states, actions, 1)
    ensures |actions| == 2 && states[2].writes != []
  {
    hide GoodRequestFrame, GoodDebug, Serves, Encoded, EncodeRequestFrame, DecodeRequestFrame;
    var f := RequestFrame(start, Get, GetRequest(ns, key));
    var requests := [(f.command, f.payload)];
    var frame := EncodeRequestFrame(f, ZEROS);
    FrameDecodes(f, setup.max);
    OneFrameDelivered(frame, setup.max);
    EmptyMisses(setup, cache, ns, key, now);
    var bytes := MissIsEncoded(f);
    assert Responds(setup, cache, frame, now, bytes, cache);
    var batches := [[frame]];
    var s0 := Start(batches, cache);
    var s1 := s0.(pending := [frame], batches := []);
    var s2 := s1.(pending := [], next := 1, writes := [[Reply(0, bytes)]]);
    states, actions := [s0, s1, s2], [TakeBatch, Inline(now, bytes, cache)];
    assert Enabled(setup, s0, actions[0]) && Apply(setup, s0, actions[0]) == s1;
    assert Enabled(setup, s1, actions[1]) && Apply(setup, s1, actions[1]) == s2;
    assert Run(setup, batches, states, actions);
    assert BatchFrames(start, requests) == [frame] by {
      assert requests[..0] == [];
    }
  }
}
