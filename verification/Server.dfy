/**
  What the server does with one request frame: decode it, run the request on
  the cache, and encode the answer under the request's own id and command.
 */
module Server {
  import opened Base
  import opened Wire
  import opened Codec
  import opened CodecProofs
  import E = EngineSpec
  import opened EngineRuns
  import opened ShardedSpec

  /** The debug text of a decode error, which the compiler derives. */
  type Debug = DecodeError -> Text

  // ----- From requests to calls, and from replies to responses -----

  function CommandFor(ns: Text, key: Bytes, m: Metadata, value: Bytes): E.PutCommand {
    E.PutCommand(E.EntryId(ns, key), value, m.ttl, m.staleTtl, m.tags, m.cost)
  }

  /** The one call a request makes; a batch makes one `Get` per key instead. */
  function CallOf(p: Request): E.Op
    requires !p.BatchGetRequest?
  {
    match p
    case GetRequest(ns, key) => E.Get(E.EntryId(ns, key), true)
    case PutRequest(ns, key, m, value) => E.Put(CommandFor(ns, key, m, value))
    case DeleteRequest(ns, key) => E.Delete(E.EntryId(ns, key))
    case TagInvalidateRequest(ns, tag) => E.Invalidate(E.TagId(ns, tag))
    case LeaseStartRequest(ns, key, ttl, _) => E.Start(E.EntryId(ns, key), ttl)
    case LeaseCompleteRequest(ns, key, token, m, value) => E.Complete(token, CommandFor(ns, key, m, value))
  }

  function Clamp(n: nat): U32 {
    Min(n, U32_LIMIT - 1)
  }

  /** The fixed text sent with each error the engine can give. */
  function Message(code: ErrorCode): string {
    match code
    case CodeValueTooLarge => "value exceeds configured value limit"
    case CodeEntryTooLarge => "entry cannot fit configured memory limit"
    case CodeInsufficientMemory => "entry could not fit after cleanup and eviction"
    case CodeInvalidLeaseToken => "lease token is missing, expired, or no longer active"
    case _ => ""
  }

  function Refusal(code: ErrorCode): Response {
    ErrorResponse(code, Ascii(Message(code)))
  }

  function PutErrorResponse(error: E.PutError): Response {
    match error
    case ValueTooLarge(_, _) => Refusal(CodeValueTooLarge)
    case ValueTooLargeForMemory(_, _) => Refusal(CodeEntryTooLarge)
    case InsufficientMemory(_, _, _) => Refusal(CodeInsufficientMemory)
  }

  function ResponseTo(reply: E.Reply): Response {
    match reply
    case PutReply(Ok(evicted)) => StoredResponse(Clamp(evicted))
    case PutReply(Err(error)) => PutErrorResponse(error)
    case GetReply(Hit(value)) => HitResponse(value)
    case GetReply(Stale(value)) => StaleResponse(value)
    case GetReply(Miss) => MissResponse
    case DeleteReply(existed) => DeletedResponse(existed)
    case CountReply(removed) => InvalidatedResponse(Clamp(removed))
    case StartReply(LeaseHit(value)) => HitResponse(value)
    case StartReply(LeaseStale(value)) => StaleResponse(value)
    case StartReply(Granted(token, stale)) => GrantedResponse(token, stale)
    case StartReply(Denied) => DeniedResponse
    case CompleteReply(Ok(evicted)) => StoredResponse(Clamp(evicted))
    case CompleteReply(Err(InvalidLeaseToken)) => Refusal(CodeInvalidLeaseToken)
    case CompleteReply(Err(PutFailed(error))) => PutErrorResponse(error)
  }

  function ItemOf(outcome: E.GetOutcome): Item {
    match outcome
    case Hit(value) => ItemHit(value)
    case Stale(value) => ItemStale(value)
    case Miss => ItemMiss
  }

  // ----- One request on the cache -----

  ghost predicate Called(hash: Hash, limits: E.Limits, s: Sharded, e: E.Event, s': Sharded) {
    |s.shards| > 0 && ShardedStep(hash, limits, s, e, s')
  }

  /** The keys of a batch are read one after the other, each in the state the one before left. */
  ghost predicate ServesBatch(hash: Hash, limits: E.Limits, states: seq<Sharded>, ns: Text, keys: seq<Bytes>, now: U64,
                              outcomes: seq<E.GetOutcome>)
  {
    && |states| == |keys| + 1
    && |outcomes| == |keys|
    && forall i :: 0 <= i < |keys| ==>
         Called(hash, limits, states[i],
                E.Event(E.Get(E.EntryId(ns, keys[i]), true), now, E.GetReply(outcomes[i]), {}, []), states[i + 1])
  }

  function ItemsOf(outcomes: seq<E.GetOutcome>): seq<Item> {
    seq(|outcomes|, i requires 0 <= i < |outcomes| => ItemOf(outcomes[i]))
  }

  ghost predicate Serves(hash: Hash, limits: E.Limits, s: Sharded, p: Request, now: U64, response: Response,
                         s': Sharded)
  {
    if p.BatchGetRequest? then
      exists states: seq<Sharded>, outcomes: seq<E.GetOutcome> ::
        && ServesBatch(hash, limits, states, p.ns, p.keys, now, outcomes)
        && states[0] == s && states[|p.keys|] == s'
        && response == BatchResponse(ItemsOf(outcomes))
    else
      exists e: E.Event ::
        Called(hash, limits, s, e, s') && e.op == CallOf(p) && e.now == now && response == ResponseTo(e.reply)
  }

  // ----- One frame -----

  function DecodeErrorCode(error: DecodeError): ErrorCode {
    match error
    case UnsupportedVersion(_) => CodeUnsupportedVersion
    case UnknownCommand(_) => CodeUnknownCommand
    case FrameTooLarge(_, _) => CodeFrameTooLarge
    case InvalidNamespace => CodeInvalidNamespace
    case InvalidTag => CodeInvalidTag
    case _ => CodeBadFrame
  }

  /** Only a frame that starts like one of ours can be answered. */
  predicate HasMagic(frame: Bytes) {
    |frame| >= HEADER_LEN && frame[0..4] == MAGIC
  }

  function RequestId(frame: Bytes): U64
    requires |frame| >= HEADER_LEN
  {
    Widths(); BytesRoundTrip(frame[8..16]);
    FromBE(frame[8..16])
  }

  /** The command answered under: the frame's own, or `Get` when it names none. */
  function AnswerCommand(frame: Bytes): Command
    requires |frame| >= HEADER_LEN
  {
    var c := CommandFromId(frame[6]);
    if c.Ok? then c.value else Get
  }

  function DecodeErrorResponse(frame: Bytes, error: DecodeError, debug: Debug): Option<ResponseFrame> {
    if !HasMagic(frame) then None
    else Some(ResponseFrame(RequestId(frame), AnswerCommand(frame),
                            ErrorResponse(DecodeErrorCode(error), debug(error))))
  }

  predicate Fits(p: Response) {
    |EncodeResponse(p)| < U32_LIMIT
  }

  /** How a frame may be answered: `None` when the response is too large to be encoded, which aborts the call. */
  ghost predicate Answers(hash: Hash, limits: E.Limits, debug: Debug, max: nat, s: Sharded, frame: Bytes, now: U64,
                          answer: Option<Bytes>, s': Sharded)
  {
    match DecodeRequestFrame(frame, max)
    case Ok(f) =>
      exists p ::
        Serves(hash, limits, s, f.payload, now, p, s') && answer == Encoded(ResponseFrame(f.requestId, f.command, p))
    case Err(error) =>
      && s' == s
      && match DecodeErrorResponse(frame, error, debug)
         case None => answer == Some([])
         case Some(f) => answer == Encoded(f)
  }

  function Encoded(f: ResponseFrame): Option<Bytes> {
    if Fits(f.payload) then Some(EncodeResponseFrame(f)) else None
  }

  // ----- Every answer can be read back, under the id of its request -----

  ghost predicate GoodDebug(debug: Debug) {
    forall e :: Short(debug(e)) && ValidUtf8(debug(e))
  }

  lemma {:induction false} DecimalIsAscii(n: nat)
    ensures forall i :: 0 <= i < |E.Decimal(n)| ==> E.Decimal(n)[i] <= 0x7F
  {
    if n >= 10 {
      DecimalIsAscii(n / 10);
    }
  }

  lemma TokenIsText(n: nat)
    ensures ValidUtf8(E.LeaseToken(n))
  {
    DecimalIsAscii(n);
    AsciiIsUtf8(E.LeaseToken(n));
  }

  lemma RefusalIsText(code: ErrorCode)
    ensures ValidUtf8(Ascii(Message(code))) && Short(Ascii(Message(code)))
  {
    AsciiIsUtf8(Ascii(Message(code)));
  }

  /** A granted token is one the engine made, so it is text. */
  lemma GrantIsText(hash: Hash, limits: E.Limits, s: Sharded, e: E.Event, s': Sharded)
    requires Called(hash, limits, s, e, s') && e.reply.StartReply? && e.reply.lease.Granted?
    ensures ValidUtf8(e.reply.lease.token)
  {
    var id := Subject(e.op).value;
    var i := Route(hash, |s.shards|, id);
    var v := s.shards[i];
    assert E.Step(ShardLimits(limits, |s.shards|), v, e, s'.shards[i]);
    TokenIsText(v.nextAccess);
    TokenIsText(SatAdd(v.nextAccess, 1));
  }

  lemma {:induction false} ItemFits(items: seq<Item>, i: nat)
    requires i < |items|
    ensures |EncodeItem(items[i])| <= |EncodeItems(items)|
  {
    hide EncodeItem;
    if i > 0 {
      ItemFits(items[1..], i - 1);
      assert items[1..][i - 1] == items[i];
    }
  }

  lemma {:induction false} ItemCountFits(items: seq<Item>)
    ensures |items| <= |EncodeItems(items)|
  {
    if items != [] {
      ItemCountFits(items[1..]);
    }
  }

  lemma BatchIsGood(items: seq<Item>)
    requires Fits(BatchResponse(items))
    ensures GoodResponse(BatchGet, BatchResponse(items))
  {
    ItemCountFits(items);
    forall i | 0 <= i < |items|
      ensures GoodItem(items[i])
    {
      ItemFits(items, i);
    }
  }

  lemma ServedIsGood(hash: Hash, limits: E.Limits, s: Sharded, p: Request, now: U64, response: Response, s': Sharded)
    requires Serves(hash, limits, s, p, now, response, s') && Fits(response)
    ensures GoodResponse(CommandOf(p), response)
  {
    if p.BatchGetRequest? {
      BatchIsGood(response.items);
    } else {
      var e: E.Event :|
        Called(hash, limits, s, e, s') && e.op == CallOf(p) && e.now == now && response == ResponseTo(e.reply);
      ReplyIsGood(hash, limits, s, e, s', CommandOf(p));
    }
  }

  lemma FittingIsShort(p: Response)
    requires Fits(p)
    ensures match p
            case HitResponse(value) => Short(value)
            case StaleResponse(value) => Short(value)
            case GrantedResponse(token, stale) => Short(token) && (stale.Some? ==> Short(stale.value))
            case _ => true
  {
    hide BE;
  }

  lemma ReplyIsGood(hash: Hash, limits: E.Limits, s: Sharded, e: E.Event, s': Sharded, c: Command)
    requires Called(hash, limits, s, e, s') && Fits(ResponseTo(e.reply))
    ensures GoodResponse(c, ResponseTo(e.reply))
  {
    hide Ascii, Message, Called, Fits;
    FittingIsShort(ResponseTo(e.reply));
    match ResponseTo(e.reply) {
      case GrantedResponse(_, _) => GrantIsText(hash, limits, s, e, s');
      case ErrorResponse(code, _) => RefusalIsText(code);
      case _ =>
    }
  }

  /**
    The answer to a frame with the right magic is one response frame, alone or
    followed by anything, under the request's id and command; any other frame
    changes nothing and is answered with no bytes at all.
   */
  lemma AnswerReadsBack(hash: Hash, limits: E.Limits, debug: Debug, max: nat, s: Sharded, frame: Bytes, now: U64,
                        answer: Bytes, s': Sharded, suffix: Bytes)
    requires GoodDebug(debug)
    requires Answers(hash, limits, debug, max, s, frame, now, Some(answer), s')
    ensures !HasMagic(frame) ==> answer == [] && s' == s
    ensures HasMagic(frame) ==>
              var r := DecodeResponseFrame(answer + suffix, U32_LIMIT - 1);
              && r.Ok? && answer == EncodeResponseFrame(r.value)
              && r.value.requestId == RequestId(frame) && r.value.command == AnswerCommand(frame)
              && match DecodeRequestFrame(frame, max)
                 case Ok(f) => Serves(hash, limits, s, f.payload, now, r.value.payload, s')
                 case Err(error) => s' == s && r.value.payload == ErrorResponse(DecodeErrorCode(error), debug(error))
  {
    match DecodeRequestFrame(frame, max) {
      case Ok(f) =>
        var p :|
          && Serves(hash, limits, s, f.payload, now, p, s')
          && Some(answer) == Encoded(ResponseFrame(f.requestId, f.command, p));
        AcceptedHeader(frame, max);
        ServedIsGood(hash, limits, s, f.payload, now, p, s');
        ResponseRoundTrip(ResponseFrame(f.requestId, f.command, p), suffix, U32_LIMIT - 1);
      case Err(error) =>
        if HasMagic(frame) {
          ResponseRoundTrip(DecodeErrorResponse(frame, error, debug).value, suffix, U32_LIMIT - 1);
        }
    }
  }

  /** A decoded request has the magic, the id and the command its header shows. */
  lemma AcceptedHeader(frame: Bytes, max: nat)
    requires DecodeRequestFrame(frame, max).Ok?
    ensures var f := DecodeRequestFrame(frame, max).value;
            && HasMagic(frame)
            && f.requestId == RequestId(frame)
            && f.command == AnswerCommand(frame) == CommandOf(f.payload)
  {
    var ignored := RequestReencodes(frame, max);
  }
}
