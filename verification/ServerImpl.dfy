/**
  The request path over the real cache object and the real codec: frames that
  decode in place take the borrowed path, the others the owned one, and both
  answer as the server model says.
 */
module ServerImpl {
  import opened Base
  import opened Wire
  import opened Codec
  import opened CodecImpl
  import E = EngineSpec
  import opened ShardedSpec
  import opened ShardedEngine
  import opened Server

  lemma Served(hash: Hash, limits: E.Limits, s: Sharded, e: E.Event, s': Sharded, p: Request)
    requires !p.BatchGetRequest? && Called(hash, limits, s, e, s') && e.op == CallOf(p)
    ensures Serves(hash, limits, s, p, e.now, ResponseTo(e.reply), s')
  {
  }

  method ServeBatch(engine: ShardedEngine, ns: Text, keys: seq<Bytes>, now: U64) returns (response: Response)
    requires engine.Valid()
    modifies engine.shards
    ensures engine.Valid()
    ensures Serves(engine.hash, engine.limits, old(engine.Contents()), BatchGetRequest(ns, keys), now, response,
                   engine.Contents())
  {
    hide ShardedInv, ShardedStep, ServesBatch, Called;
    var outcomes: seq<E.GetOutcome> := [];
    ghost var states := [engine.Contents()];
    BatchStart(engine.hash, engine.limits, engine.Contents(), ns, now);
    for i := 0 to |keys|
      invariant engine.Valid()
      invariant |states| == i + 1 && ServesBatch(engine.hash, engine.limits, states, ns, keys[..i], now, outcomes)
      invariant states[0] == old(engine.Contents()) && states[i] == engine.Contents()
    {
      var outcome := engine.Get(E.EntryId(ns, keys[i]), now, true);
      assert keys[..i + 1] == keys[..i] + [keys[i]];
      BatchMore(engine.hash, engine.limits, states, ns, keys[..i], now, outcomes, keys[i], outcome, engine.Contents());
      outcomes, states := outcomes + [outcome], states + [engine.Contents()];
    }
    assert keys[..|keys|] == keys;
    response := BatchResponse(ItemsOf(outcomes));
  }

  lemma BatchStart(hash: Hash, limits: E.Limits, s: Sharded, ns: Text, now: U64)
    ensures ServesBatch(hash, limits, [s], ns, [], now, [])
  {
  }

  lemma BatchMore(hash: Hash, limits: E.Limits, states: seq<Sharded>, ns: Text, keys: seq<Bytes>, now: U64,
                  outcomes: seq<E.GetOutcome>, key: Bytes, outcome: E.GetOutcome, after: Sharded)
    requires ServesBatch(hash, limits, states, ns, keys, now, outcomes) && |states| == |keys| + 1
    requires |states[|keys|].shards| > 0
    requires ShardedStep(hash, limits, states[|keys|],
                         E.Event(E.Get(E.EntryId(ns, key), true), now, E.GetReply(outcome), {}, []), after)
    ensures ServesBatch(hash, limits, states + [after], ns, keys + [key], now, outcomes + [outcome])
  {
    hide ShardedStep;
    var longer, all := states + [after], keys + [key];
    forall i | 0 <= i < |all|
      ensures Called(hash, limits, longer[i],
                     E.Event(E.Get(E.EntryId(ns, all[i]), true), now, E.GetReply((outcomes + [outcome])[i]), {}, []),
                     longer[i + 1])
    {
      if i < |keys| {
        assert longer[i] == states[i] && longer[i + 1] == states[i + 1];
      }
    }
  }

  method ServeGet(engine: ShardedEngine, ns: Text, key: Bytes, now: U64) returns (response: Response)
    requires engine.Valid()
    modifies engine.shards
    ensures engine.Valid()
    ensures Serves(engine.hash, engine.limits, old(engine.Contents()), GetRequest(ns, key), now, response,
                   engine.Contents())
  {
    hide ShardedInv, ShardedStep;
    ghost var before := engine.Contents();
    var outcome := engine.Get(E.EntryId(ns, key), now, true);
    ghost var e := E.Event(E.Get(E.EntryId(ns, key), true), now, E.GetReply(outcome), {}, []);
    Served(engine.hash, engine.limits, before, e, engine.Contents(), GetRequest(ns, key));
    response := ResponseTo(E.GetReply(outcome));
  }

  method ServeDelete(engine: ShardedEngine, ns: Text, key: Bytes, now: U64) returns (response: Response)
    requires engine.Valid()
    modifies engine`directory, engine.shards
    ensures engine.Valid()
    ensures Serves(engine.hash, engine.limits, old(engine.Contents()), DeleteRequest(ns, key), now, response,
                   engine.Contents())
  {
    hide ShardedInv, ShardedStep;
    ghost var before := engine.Contents();
    var existed := engine.Delete(E.EntryId(ns, key), now);
    ghost var e := E.Event(E.Delete(E.EntryId(ns, key)), now, E.DeleteReply(existed), {}, []);
    Served(engine.hash, engine.limits, before, e, engine.Contents(), DeleteRequest(ns, key));
    response := DeletedResponse(existed);
  }

  method ServeInvalidate(engine: ShardedEngine, ns: Text, tag: Text, now: U64) returns (response: Response)
    requires engine.Valid()
    modifies engine`directory, engine.shards
    ensures engine.Valid()
    ensures Serves(engine.hash, engine.limits, old(engine.Contents()), TagInvalidateRequest(ns, tag), now, response,
                   engine.Contents())
  {
    hide ShardedInv, ShardedStep;
    ghost var before := engine.Contents();
    var removed := engine.InvalidateTag(E.TagId(ns, tag), now);
    ghost var e := E.Event(E.Invalidate(E.TagId(ns, tag)), now, E.CountReply(removed), {}, []);
    Served(engine.hash, engine.limits, before, e, engine.Contents(), TagInvalidateRequest(ns, tag));
    response := InvalidatedResponse(Clamp(removed));
  }

  method ServeLeaseStart(engine: ShardedEngine, ns: Text, key: Bytes, ttl: U64, allow: Option<U64>, now: U64)
    returns (response: Response)
    requires engine.Valid()
    modifies engine.shards
    ensures engine.Valid()
    ensures Serves(engine.hash, engine.limits, old(engine.Contents()), LeaseStartRequest(ns, key, ttl, allow), now,
                   response, engine.Contents())
  {
    hide ShardedInv, ShardedStep;
    ghost var before := engine.Contents();
    var outcome := engine.StartLease(E.EntryId(ns, key), ttl, now);
    ghost var e := E.Event(E.Start(E.EntryId(ns, key), ttl), now, E.StartReply(outcome), {}, []);
    Served(engine.hash, engine.limits, before, e, engine.Contents(), LeaseStartRequest(ns, key, ttl, allow));
    response := ResponseTo(E.StartReply(outcome));
  }

  method ServePut(engine: ShardedEngine, ns: Text, key: Bytes, m: Metadata, value: Bytes, now: U64)
    returns (response: Response)
    requires engine.Valid()
    modifies engine`directory, engine.shards
    ensures engine.Valid()
    ensures Serves(engine.hash, engine.limits, old(engine.Contents()), PutRequest(ns, key, m, value), now, response,
                   engine.Contents())
  {
    hide ShardedInv, ShardedStep;
    ghost var before := engine.Contents();
    var cmd := CommandFor(ns, key, m, value);
    var r, reclaimed, evicted := engine.Put(cmd, now);
    ghost var e := E.Event(E.Put(cmd), now, E.PutReply(r), reclaimed, evicted);
    Served(engine.hash, engine.limits, before, e, engine.Contents(), PutRequest(ns, key, m, value));
    response := ResponseTo(E.PutReply(r));
  }

  method ServeLeaseComplete(engine: ShardedEngine, ns: Text, key: Bytes, token: Text, m: Metadata, value: Bytes,
                            now: U64)
    returns (response: Response)
    requires engine.Valid()
    modifies engine`directory, engine.shards
    ensures engine.Valid()
    ensures Serves(engine.hash, engine.limits, old(engine.Contents()), LeaseCompleteRequest(ns, key, token, m, value),
                   now, response, engine.Contents())
  {
    hide ShardedInv, ShardedStep;
    ghost var before := engine.Contents();
    var cmd := CommandFor(ns, key, m, value);
    var r, reclaimed, evicted := engine.CompleteLease(token, cmd, now);
    ghost var e := E.Event(E.Complete(token, cmd), now, E.CompleteReply(r), reclaimed, evicted);
    Served(engine.hash, engine.limits, before, e, engine.Contents(), LeaseCompleteRequest(ns, key, token, m, value));
    response := ResponseTo(E.CompleteReply(r));
  }

  method Serve(engine: ShardedEngine, p: Request, now: U64) returns (response: Response)
    requires engine.Valid()
    modifies engine`directory, engine.shards
    ensures engine.Valid()
    ensures Serves(engine.hash, engine.limits, old(engine.Contents()), p, now, response, engine.Contents())
  {
    hide ShardedInv, ShardedStep, Serves;
    match p {
      case GetRequest(ns, key) => response := ServeGet(engine, ns, key, now);
      case PutRequest(ns, key, m, value) => response := ServePut(engine, ns, key, m, value, now);
      case DeleteRequest(ns, key) => response := ServeDelete(engine, ns, key, now);
      case BatchGetRequest(ns, keys) => response := ServeBatch(engine, ns, keys, now);
      case TagInvalidateRequest(ns, tag) => response := ServeInvalidate(engine, ns, tag, now);
      case LeaseStartRequest(ns, key, ttl, allow) => response := ServeLeaseStart(engine, ns, key, ttl, allow, now);
      case LeaseCompleteRequest(ns, key, token, m, value) =>
        response := ServeLeaseComplete(engine, ns, key, token, m, value, now);
    }
  }

  /** The four hot requests, served from slices of the payload. */
  method ServeView(engine: ShardedEngine, payload: Bytes, view: RequestView, now: U64) returns (response: Response)
    requires engine.Valid() && ViewInBounds(payload, view)
    modifies engine`directory, engine.shards
    ensures engine.Valid()
    ensures Serves(engine.hash, engine.limits, old(engine.Contents()), Owned(payload, view), now, response,
                   engine.Contents())
  {
    hide ShardedInv, ShardedStep, Serves;
    match view {
      case GetView(ns, key) => response := ServeGet(engine, Copy(payload, ns), Copy(payload, key), now);
      case DeleteView(ns, key) => response := ServeDelete(engine, Copy(payload, ns), Copy(payload, key), now);
      case TagInvalidateView(ns, tag) =>
        response := ServeInvalidate(engine, Copy(payload, ns), Copy(payload, tag), now);
      case LeaseStartView(ns, key, ttl, allow) =>
        response := ServeLeaseStart(engine, Copy(payload, ns), Copy(payload, key), ttl, allow, now);
    }
  }

  method EncodeAnswer(f: ResponseFrame) returns (answer: Option<Bytes>)
    ensures answer == Encoded(f)
  {
    if !Fits(f.payload) {
      return None;
    }
    var writer := new Writer();
    writer.EncodeResponseInto(f);
    answer := Some(writer.out);
  }

  /** Every frame is answered as the model allows, whichever decoder it went through. */
  method ExecuteFrame(engine: ShardedEngine, frame: Bytes, max: nat, debug: Debug, now: U64)
    returns (answer: Option<Bytes>)
    requires engine.Valid()
    modifies engine`directory, engine.shards
    ensures engine.Valid()
    ensures Answers(engine.hash, engine.limits, debug, max, old(engine.Contents()), frame, now, answer,
                    engine.Contents())
  {
    hide ShardedInv, ShardedStep, Serves, Encoded, Answers, Agrees, DecodeRequestFrame, DecodeErrorResponse;
    ghost var before := engine.Contents();
    var borrowed := DecodeBorrowedRequest(frame, max);
    BorrowedIsOwned(frame, max, borrowed);
    match borrowed {
      case Ok(Some(view)) =>
        var payload := frame[HEADER_LEN..HEADER_LEN + FromBE(frame[16..20])];
        var response := ServeView(engine, payload, view.payload, now);
        answer := EncodeAnswer(ResponseFrame(view.requestId, view.command, response));
        AnswersRequest(engine.hash, engine.limits, debug, max, before, frame, now, response, engine.Contents());
      case Ok(None) =>
        var owned := DecodeRequest(frame, max);
        match owned {
          case Ok(f) =>
            var response := Serve(engine, f.payload, now);
            answer := EncodeAnswer(ResponseFrame(f.requestId, f.command, response));
            AnswersRequest(engine.hash, engine.limits, debug, max, before, frame, now, response, engine.Contents());
          case Err(error) =>
            answer := AnswerError(frame, error, debug);
            AnswersError(engine.hash, engine.limits, debug, max, before, frame, now, answer);
        }
      case Err(error) =>
        answer := AnswerError(frame, error, debug);
        AnswersError(engine.hash, engine.limits, debug, max, before, frame, now, answer);
    }
  }

  /** What the borrowed decoder returned, in terms of the owned one. */
  lemma BorrowedIsOwned(frame: Bytes, max: nat, r: Result<Option<RequestFrameView>, DecodeError>)
    requires Agrees(frame, max, r)
    ensures match r
            case Ok(None) => true
            case Ok(Some(view)) =>
              && |frame| >= HEADER_LEN && HEADER_LEN + FromBE(frame[16..20]) <= |frame|
              && var payload := frame[HEADER_LEN..HEADER_LEN + FromBE(frame[16..20])];
                 && ViewInBounds(payload, view.payload)
                 && DecodeRequestFrame(frame, max) ==
                    Ok(RequestFrame(view.requestId, view.command, Owned(payload, view.payload)))
            case Err(error) => DecodeRequestFrame(frame, max) == Err(error)
  {
    hide DecodeRequestPayload, ViewInBounds, Owned;
  }

  lemma AnswersRequest(hash: Hash, limits: E.Limits, debug: Debug, max: nat, s: Sharded, frame: Bytes, now: U64,
                       p: Response, s': Sharded)
    requires DecodeRequestFrame(frame, max).Ok?
    requires Serves(hash, limits, s, DecodeRequestFrame(frame, max).value.payload, now, p, s')
    ensures var f := DecodeRequestFrame(frame, max).value;
            Answers(hash, limits, debug, max, s, frame, now, Encoded(ResponseFrame(f.requestId, f.command, p)), s')
  {
    hide DecodeRequestFrame, Serves, Encoded;
  }

  lemma AnswersError(hash: Hash, limits: E.Limits, debug: Debug, max: nat, s: Sharded, frame: Bytes, now: U64,
                     answer: Option<Bytes>)
    requires DecodeRequestFrame(frame, max).Err?
    requires match DecodeErrorResponse(frame, DecodeRequestFrame(frame, max).error, debug)
             case None => answer == Some([])
             case Some(f) => answer == Encoded(f)
    ensures Answers(hash, limits, debug, max, s, frame, now, answer, s)
  {
    hide DecodeRequestFrame, DecodeErrorResponse, Encoded;
  }

  method AnswerError(frame: Bytes, error: DecodeError, debug: Debug) returns (answer: Option<Bytes>)
    ensures match DecodeErrorResponse(frame, error, debug)
            case None => answer == Some([])
            case Some(f) => answer == Encoded(f)
  {
    var f := DecodeErrorResponse(frame, error, debug);
    if f.None? {
      return Some([]);
    }
    answer := EncodeAnswer(f.value);
  }
}
