/**
  The native client's pipelined request: all frames of a batch are written in
  one go, as many responses are read, and the matcher sorts them out.
 */
module Client {
  import opened Base
  import opened Wire
  import opened Codec
  import opened CodecImpl
  import opened Framing
  import opened Pipelining

  class PipelinedResponseMatcher {
    var expected: map<U64, Expected>
    var payloads: seq<Option<Response>>
    var errors: seq<Option<(ErrorCode, Text)>>

    function Contents(): Matcher
      reads this
    {
      Matcher(expected, payloads, errors)
    }

    constructor (count: nat, expected: map<U64, Expected>)
      ensures Contents() == Matcher(expected, Nones(count), Nones(count))
    {
      this.expected := expected;
      payloads := Nones(count);
      errors := Nones(count);
    }

    method Push(response: ResponseFrame) returns (r: Result<(), ClientError>)
      requires WellSized(Contents())
      modifies this
      ensures WellSized(Contents())
      ensures match Pipelining.Push(old(Contents()), response)
              case Ok(m) => r == Ok(()) && Contents() == m
              case Err(error) =>
                && r == Err(error) && expected == old(expected) - {response.requestId}
                && payloads == old(payloads) && errors == old(errors)
    {
      if response.requestId !in expected {
        assert expected - {response.requestId} == expected;
        return Err(Unexpected("unknown response request id"));
      }
      var e := expected[response.requestId];
      expected := expected - {response.requestId};
      if response.command != e.command {
        return Err(Unexpected("response command mismatch"));
      }
      match response.payload {
        case ErrorResponse(code, message) => errors := errors[e.index := Some((code, message))];
        case _ => payloads := payloads[e.index := Some(response.payload)];
      }
      return Ok(());
    }

    method Finish() returns (r: Result<seq<Response>, ClientError>)
      ensures r == Pipelining.Finish(Contents())
    {
      for i := 0 to |errors|
        invariant FirstSome(errors) == FirstSome(errors[i..])
      {
        assert errors[i..][1..] == errors[i + 1..];
        if errors[i].Some? {
          return Err(Server(errors[i].value.0, errors[i].value.1));
        }
      }
      var collected: seq<Response> := [];
      assert payloads[0..] == payloads;
      PrefixedNone(Unwrapped(payloads));
      for i := 0 to |payloads|
        invariant FirstSome(errors).None?
        invariant Unwrapped(payloads) == Prefixed(collected, Unwrapped(payloads[i..]))
      {
        assert payloads[i..][1..] == payloads[i + 1..];
        if payloads[i].None? {
          return Err(Unexpected("missing pipelined response payload"));
        }
        PrefixedMore(collected, payloads[i].value, Unwrapped(payloads[i + 1..]));
        collected := collected + [payloads[i].value];
      }
      assert collected + [] == collected;
      return Ok(collected);
    }
  }

  function Prefixed(front: seq<Response>, r: Result<seq<Response>, ClientError>): Result<seq<Response>, ClientError> {
    match r
    case Ok(back) => Ok(front + back)
    case Err(_) => r
  }

  lemma PrefixedNone(r: Result<seq<Response>, ClientError>)
    ensures Prefixed([], r) == r
  {
    if r.Ok? {
      assert [] + r.value == r.value;
    }
  }

  lemma PrefixedMore(front: seq<Response>, x: Response, r: Result<seq<Response>, ClientError>)
    ensures Prefixed(front, Prefixed([x], r)) == Prefixed(front + [x], r)
  {
    if r.Ok? {
      assert front + ([x] + r.value) == front + [x] + r.value;
    }
  }

  // ----- Frames on the stream -----

  /** Reads one response: a header, then as many bytes as it declares; `Io` when the stream ends first. */
  function ReadFrame(input: Bytes, max: nat): Result<(ResponseFrame, Bytes), ClientError> {
    if |input| < HEADER_LEN || |input| < FrameLength(input) then Err(Io)
    else match DecodeResponseFrame(input[..FrameLength(input)], max)
      case Ok(f) => Ok((f, input[FrameLength(input)..]))
      case Err(error) => Err(Decode(error))
  }

  /** Reads `n` responses, handing each to the matcher before the next is read. */
  function Exchange(m: Matcher, input: Bytes, n: nat, max: nat): (r: Result<(Matcher, Bytes), ClientError>)
    requires WellSized(m)
    ensures r.Ok? ==> WellSized(r.value.0)
    decreases n
  {
    if n == 0 then Ok((m, input))
    else
      var (f, rest) :- ReadFrame(input, max);
      var next :- Pipelining.Push(m, f);
      Exchange(next, rest, n - 1, max)
  }

  function Commands(requests: seq<(Command, Request)>): seq<Command> {
    seq(|requests|, i requires 0 <= i < |requests| => requests[i].0)
  }

  function FrameFor(start: U64, i: nat, request: (Command, Request)): Bytes {
    EncodeRequestFrame(RequestFrame(IdAt(start, i), request.0, request.1), ZEROS)
  }

  /** The frames of a batch, in request order. */
  function BatchFrames(start: U64, requests: seq<(Command, Request)>): seq<Bytes> {
    if requests == [] then []
    else
      var k := |requests| - 1;
      BatchFrames(start, requests[..k]) + [FrameFor(start, k, requests[k])]
  }

  function PipelinedResult(start: U64, commands: seq<Command>, input: Bytes,
                           max: nat): Result<seq<Response>, ClientError>
    requires WellSized(NewMatcher(start, commands))
  {
    var (m, _) :- Exchange(NewMatcher(start, commands), input, |commands|, max);
    Pipelining.Finish(m)
  }

  lemma FramesGrow(start: U64, requests: seq<(Command, Request)>, k: nat)
    requires k < |requests|
    ensures BatchFrames(start, requests[..k + 1]) ==
            BatchFrames(start, requests[..k]) + [FrameFor(start, k, requests[k])]
  {
    hide FrameFor, IdAt;
    var longer := requests[..k + 1];
    assert longer[..k] == requests[..k] && longer[k] == requests[k];
  }

  lemma ExpectedGrows(start: U64, requests: seq<(Command, Request)>, k: nat)
    requires k < |requests|
    ensures ExpectedFor(start, Commands(requests[..k + 1])) ==
            ExpectedFor(start, Commands(requests[..k]))[IdAt(start, k) := Expected(k, requests[k].0)]
  {
    hide IdAt;
    var commands := Commands(requests[..k + 1]);
    assert commands[..k] == Commands(requests[..k]) && commands[k] == requests[k].0;
  }

  class NativeClient {
    var nextRequestId: U64
    var maxPayload: nat
    /** What the peer has sent and is not read yet, and all that was written to it. */
    var input: Bytes
    var output: Bytes

    constructor (input: Bytes)
      ensures nextRequestId == 1 && maxPayload == U64_MAX && this.input == input && output == []
    {
      nextRequestId, maxPayload, output := 1, U64_MAX, [];
      this.input := input;
    }

    /** Takes an id per request and appends its frame to the buffer. */
    method EncodeBatch(requests: seq<(Command, Request)>) returns (expected: map<U64, Expected>, buffer: Bytes)
      requires forall i :: 0 <= i < |requests| ==> |EncodeRequest(requests[i].1, ZEROS)| < U32_LIMIT
      modifies `nextRequestId
      ensures expected == ExpectedFor(old(nextRequestId), Commands(requests))
      ensures buffer == Concat(BatchFrames(old(nextRequestId), requests))
      ensures nextRequestId == IdAt(old(nextRequestId), |requests|)
    {
      hide EncodeRequestFrame, NextId, EncodeRequest, ExpectedFor, BatchFrames, Concat;
      ghost var start := nextRequestId;
      expected, buffer := map[], [];
      NothingEncoded(start);
      assert requests[..0] == [];
      var frame := new Writer();
      for i := 0 to |requests|
        invariant expected == ExpectedFor(start, Commands(requests[..i]))
        invariant buffer == Concat(BatchFrames(start, requests[..i]))
        invariant nextRequestId == IdAt(start, i)
        invariant fresh(frame)
      {
        var requestId := nextRequestId;
        nextRequestId := NextId(nextRequestId);
        expected := expected[requestId := Expected(i, requests[i].0)];
        frame.EncodeRequestInto(RequestFrame(requestId, requests[i].0, requests[i].1));
        FramesGrow(start, requests, i);
        ExpectedGrows(start, requests, i);
        ConcatAppend(BatchFrames(start, requests[..i]), frame.out);
        buffer := buffer + frame.out;
      }
      assert requests[..|requests|] == requests;
    }

    method ReadResponseFrame() returns (r: Result<ResponseFrame, ClientError>)
      modifies `input
      ensures match ReadFrame(old(input), maxPayload)
              case Ok((f, rest)) => r == Ok(f) && input == rest
              case Err(error) => r == Err(error)
    {
      if |input| < HEADER_LEN {
        return Err(Io);
      }
      var length := HEADER_LEN + FromBE(input[16..20]);
      if |input| < length {
        return Err(Io);
      }
      var bytes := input[..length];
      input := input[length..];
      var decoded := DecodeResponse(bytes, maxPayload);
      match decoded {
        case Ok(f) => return Ok(f);
        case Err(error) => return Err(Decode(error));
      }
    }

    /** Sends a batch and returns its payloads in request order, or the first error. */
    method RequestPipelined(requests: seq<(Command, Request)>) returns (r: Result<seq<Response>, ClientError>)
      requires forall i :: 0 <= i < |requests| ==> |EncodeRequest(requests[i].1, ZEROS)| < U32_LIMIT
      requires GoodBatch(nextRequestId, Commands(requests))
      modifies this
      ensures maxPayload == old(maxPayload)
      ensures output == old(output) + Concat(BatchFrames(old(nextRequestId), requests))
      ensures nextRequestId == IdAt(old(nextRequestId), |requests|)
      ensures WellSized(NewMatcher(old(nextRequestId), Commands(requests)))
      ensures r == PipelinedResult(old(nextRequestId), Commands(requests), old(input), maxPayload)
    {
      hide IdAt, ReadFrame, EncodeRequest, Pipelining.Push, BatchFrames;
      ghost var start, commands, source := nextRequestId, Commands(requests), input;
      NothingArrived(start, commands);
      if requests == [] {
        assert output + Concat(BatchFrames(start, requests)) == output && IdAt(start, 0) == start by {
          EmptyBatch(start, output);
        }
        return Ok([]);
      }
      var expected, buffer := EncodeBatch(requests);
      output := output + buffer;
      var matcher := new PipelinedResponseMatcher(|requests|, expected);
      assert matcher.Contents() == NewMatcher(start, commands);
      for i := 0 to |requests|
        invariant fresh(matcher) && WellSized(matcher.Contents())
        invariant maxPayload == old(maxPayload)
        invariant output == old(output) + buffer && nextRequestId == IdAt(start, |requests|)
        invariant Exchange(NewMatcher(start, commands), source, |commands|, maxPayload) ==
                  Exchange(matcher.Contents(), input, |commands| - i, maxPayload)
      {
        var response :- ReadResponseFrame();
        var _ :- matcher.Push(response);
      }
      r := matcher.Finish();
    }
  }

  lemma NothingEncoded(start: U64)
    ensures ExpectedFor(start, Commands([])) == map[] && Concat(BatchFrames(start, [])) == []
  {
  }

  lemma EmptyBatch(start: U64, output: Bytes)
    ensures output + Concat(BatchFrames(start, [])) == output && IdAt(start, 0) == start
  {
    assert output + [] == output;
  }
}
