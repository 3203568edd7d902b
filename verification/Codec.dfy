/**
  Native protocol frames: what is encoded, what is decoded, and that the two
  are inverse to each other.
 */
module Codec {
  import opened Base
  import opened Wire

  const MAGIC: Bytes := [67, 66, 88, 49]
  const VERSION: Byte := 1
  const HEADER_LEN: nat := 24
  const KIND_REQUEST: Byte := 0
  const KIND_RESPONSE: Byte := 1

  // ----- Messages -----

  datatype Command = Get | Put | Delete | BatchGet | TagInvalidate | LeaseStart | LeaseComplete

  datatype ContentType = OctetStream | Other

  datatype Metadata = Metadata(
    ttl: Option<U64>,
    staleTtl: Option<U64>,
    cost: Option<U64>,
    tags: seq<Text>,
    contentType: ContentType)

  datatype Request =
    | GetRequest(ns: Text, key: Bytes)
    | PutRequest(ns: Text, key: Bytes, metadata: Metadata, value: Bytes)
    | DeleteRequest(ns: Text, key: Bytes)
    | BatchGetRequest(ns: Text, keys: seq<Bytes>)
    | TagInvalidateRequest(ns: Text, tag: Text)
    | LeaseStartRequest(ns: Text, key: Bytes, leaseTtl: U64, allowStale: Option<U64>)
    | LeaseCompleteRequest(ns: Text, key: Bytes, token: Text, metadata: Metadata, value: Bytes)

  datatype RequestFrame = RequestFrame(requestId: U64, command: Command, payload: Request)

  datatype ErrorCode =
    | CodeBadFrame | CodeUnsupportedVersion | CodeUnknownCommand | CodeInvalidNamespace | CodeInvalidTag
    | CodeInvalidTtl | CodeValueTooLarge | CodeEntryTooLarge | CodeInsufficientMemory | CodeInvalidLeaseToken
    | CodeFrameTooLarge

  datatype Item = ItemHit(value: Bytes) | ItemStale(value: Bytes) | ItemMiss

  datatype Response =
    | OkResponse
    | HitResponse(value: Bytes)
    | StaleResponse(value: Bytes)
    | MissResponse
    | StoredResponse(evicted: U32)
    | DeletedResponse(existed: bool)
    | InvalidatedResponse(removed: U32)
    | GrantedResponse(token: Text, staleValue: Option<Bytes>)
    | DeniedResponse
    | ErrorResponse(code: ErrorCode, message: Text)
    | BatchResponse(items: seq<Item>)

  datatype ResponseFrame = ResponseFrame(requestId: U64, command: Command, payload: Response)

  // ----- Identifiers -----

  function CommandId(c: Command): Byte {
    match c
    case Get => 1
    case Put => 2
    case Delete => 3
    case BatchGet => 4
    case TagInvalidate => 5
    case LeaseStart => 6
    case LeaseComplete => 7
  }

  function CommandFromId(id: Byte): (r: Result<Command, DecodeError>)
    ensures r.Ok? ==> CommandId(r.value) == id
    ensures r.Err? ==> r.error == UnknownCommand(id) && forall c :: CommandId(c) != id
  {
    match id
    case 1 => Ok(Get)
    case 2 => Ok(Put)
    case 3 => Ok(Delete)
    case 4 => Ok(BatchGet)
    case 5 => Ok(TagInvalidate)
    case 6 => Ok(LeaseStart)
    case 7 => Ok(LeaseComplete)
    case _ => Err(UnknownCommand(id))
  }

  function ErrorId(c: ErrorCode): nat {
    match c
    case CodeBadFrame => 1
    case CodeUnsupportedVersion => 2
    case CodeUnknownCommand => 3
    case CodeInvalidNamespace => 4
    case CodeInvalidTag => 5
    case CodeInvalidTtl => 6
    case CodeValueTooLarge => 7
    case CodeEntryTooLarge => 8
    case CodeInsufficientMemory => 9
    case CodeInvalidLeaseToken => 10
    case CodeFrameTooLarge => 11
  }

  function ErrorFromId(id: nat): (r: Result<ErrorCode, DecodeError>)
    ensures r.Ok? ==> ErrorId(r.value) == id
    ensures r.Err? ==> r.error == InvalidPayload("unknown error code") && forall c :: ErrorId(c) != id
  {
    match id
    case 1 => Ok(CodeBadFrame)
    case 2 => Ok(CodeUnsupportedVersion)
    case 3 => Ok(CodeUnknownCommand)
    case 4 => Ok(CodeInvalidNamespace)
    case 5 => Ok(CodeInvalidTag)
    case 6 => Ok(CodeInvalidTtl)
    case 7 => Ok(CodeValueTooLarge)
    case 8 => Ok(CodeEntryTooLarge)
    case 9 => Ok(CodeInsufficientMemory)
    case 10 => Ok(CodeInvalidLeaseToken)
    case 11 => Ok(CodeFrameTooLarge)
    case _ => Err(InvalidPayload("unknown error code"))
  }

  function CommandOf(p: Request): Command {
    match p
    case GetRequest(_, _) => Get
    case PutRequest(_, _, _, _) => Put
    case DeleteRequest(_, _) => Delete
    case BatchGetRequest(_, _) => BatchGet
    case TagInvalidateRequest(_, _) => TagInvalidate
    case LeaseStartRequest(_, _, _, _) => LeaseStart
    case LeaseCompleteRequest(_, _, _, _, _) => LeaseComplete
  }

  // ----- Encoding -----

  /** The eight cost bytes a decoder skips when the flag says there is no cost; the encoder writes zeros. */
  type Ignored = s: Bytes | |s| == 8 witness [0, 0, 0, 0, 0, 0, 0, 0]

  const ZEROS: Ignored := [0, 0, 0, 0, 0, 0, 0, 0]

  function OrZero(n: Option<U64>): nat {
    if n.Some? then n.value else 0
  }

  function EncodeBlobs(blobs: seq<Bytes>): Bytes {
    if blobs == [] then [] else Blob(blobs[0]) + EncodeBlobs(blobs[1..])
  }

  function CostField(cost: Option<U64>, ignored: Ignored): Bytes {
    if cost.Some? then BE(8, cost.value) else ignored
  }

  function ContentField(kind: ContentType): Bytes {
    if kind == OctetStream then [0] else [1]
  }

  function EncodeMetadata(m: Metadata, ignored: Ignored): Bytes {
    BE(8, OrZero(m.ttl)) + (BE(8, OrZero(m.staleTtl)) + (Flag(m.cost.Some?) + (CostField(m.cost, ignored)
    + (BE(2, |m.tags|) + (EncodeBlobs(m.tags) + ContentField(m.contentType))))))
  }

  function EncodeRequest(p: Request, ignored: Ignored): Bytes {
    Blob(p.ns) + EncodeBody(p, ignored)
  }

  /** All that follows the namespace. */
  function EncodeBody(p: Request, ignored: Ignored): Bytes {
    match p
    case GetRequest(_, key) => Blob(key)
    case DeleteRequest(_, key) => Blob(key)
    case PutRequest(_, key, m, value) => Blob(key) + (EncodeMetadata(m, ignored) + Blob(value))
    case BatchGetRequest(_, keys) => BE(4, |keys|) + EncodeBlobs(keys)
    case TagInvalidateRequest(_, tag) => Blob(tag)
    case LeaseStartRequest(_, key, ttl, allow) => Blob(key) + (BE(8, ttl) + BE(8, OrZero(allow)))
    case LeaseCompleteRequest(_, key, token, m, value) =>
      Blob(key) + (Blob(token) + (EncodeMetadata(m, ignored) + Blob(value)))
  }

  function EncodeItem(item: Item): Bytes {
    match item
    case ItemHit(value) => [1] + Blob(value)
    case ItemStale(value) => [2] + Blob(value)
    case ItemMiss => [3]
  }

  function EncodeItems(items: seq<Item>): Bytes {
    if items == [] then [] else EncodeItem(items[0]) + EncodeItems(items[1..])
  }

  function EncodeResponse(p: Response): Bytes {
    match p
    case OkResponse => [0]
    case HitResponse(value) => [1] + Blob(value)
    case StaleResponse(value) => [2] + Blob(value)
    case MissResponse => [3]
    case StoredResponse(evicted) => [4] + BE(4, evicted)
    case DeletedResponse(existed) => [5] + Flag(existed)
    case InvalidatedResponse(removed) => [6] + BE(4, removed)
    case GrantedResponse(token, stale) =>
      [7] + (Blob(token) + (Flag(stale.Some?) + if stale.Some? then Blob(stale.value) else []))
    case DeniedResponse => [8]
    case ErrorResponse(code, message) => [255] + (BE(2, ErrorId(code)) + Blob(message))
    case BatchResponse(items) => [0] + (BE(4, |items|) + EncodeItems(items))
  }

  function Header(kind: Byte, c: Command, requestId: U64, payloadLen: nat): Bytes {
    MAGIC + [VERSION, kind, CommandId(c), 0] + BE(8, requestId) + BE(4, payloadLen) + BE(4, 0)
  }

  function EncodeFrame(kind: Byte, c: Command, requestId: U64, payload: Bytes): Bytes {
    Header(kind, c, requestId, |payload|) + payload
  }

  function EncodeRequestFrame(f: RequestFrame, ignored: Ignored): Bytes {
    EncodeFrame(KIND_REQUEST, f.command, f.requestId, EncodeRequest(f.payload, ignored))
  }

  function EncodeResponseFrame(f: ResponseFrame): Bytes {
    EncodeFrame(KIND_RESPONSE, f.command, f.requestId, EncodeResponse(f.payload))
  }

  // ----- Decoding -----

  datatype FrameHeader = FrameHeader(command: Byte, requestId: U64, payloadLen: nat)

  function DecodeHeader(input: Bytes, max: nat, kind: Byte): Result<FrameHeader, DecodeError> {
    if |input| < HEADER_LEN then Err(IncompleteHeader)
    else if input[0..4] != MAGIC then Err(BadMagic)
    else if input[4] != VERSION then Err(UnsupportedVersion(input[4]))
    else if input[5] != kind then Err(InvalidKind(input[5]))
    else if input[7] != 0 then Err(NonzeroFlags(input[7]))
    else
      var payloadLen := FromBE(input[16..20]);
      if payloadLen > max then Err(FrameTooLarge(payloadLen, max))
      else if FromBE(input[20..24]) != 0 then Err(NonzeroReserved(FromBE(input[20..24])))
      else
        Widths(); BytesRoundTrip(input[8..16]);
        Ok(FrameHeader(input[6], FromBE(input[8..16]), payloadLen))
  }

  function NonZero(n: nat): Option<U64>
    requires n <= U64_MAX
  {
    if n == 0 then None else Some(n)
  }

  function ReadU64(s: Bytes): (r: Parse<U64>) {
    var (n, rest) :- ReadNumber(s, 8);
    NumberAccepted(s, 8); Widths();
    Ok((n, rest))
  }

  function ReadU32(s: Bytes): (r: Parse<U32>) {
    var (n, rest) :- ReadNumber(s, 4);
    NumberAccepted(s, 4); Widths();
    Ok((n, rest))
  }

  function ReadTags(s: Bytes, count: nat): Parse<seq<Text>>
    decreases count
  {
    if count == 0 then Ok(([], s))
    else
      var (tag, rest) :- ReadTag(s);
      var (tags, rest) :- ReadTags(rest, count - 1);
      Ok(([tag] + tags, rest))
  }

  function ReadKeys(s: Bytes, count: nat): Parse<seq<Bytes>>
    decreases count
  {
    if count == 0 then Ok(([], s))
    else
      var (key, rest) :- ReadBytes(s);
      var (keys, rest) :- ReadKeys(rest, count - 1);
      Ok(([key] + keys, rest))
  }

  function ReadItem(s: Bytes): Parse<Item> {
    var (status, rest) :- ReadU8(s);
    match status
    case 1 => var (value, rest) :- ReadBytes(rest); Ok((ItemHit(value), rest))
    case 2 => var (value, rest) :- ReadBytes(rest); Ok((ItemStale(value), rest))
    case 3 => Ok((ItemMiss, rest))
    case _ => Err(InvalidPayload("invalid batch item status"))
  }

  function ReadItems(s: Bytes, count: nat): Parse<seq<Item>>
    decreases count
  {
    if count == 0 then Ok(([], s))
    else
      var (item, rest) :- ReadItem(s);
      var (items, rest) :- ReadItems(rest, count - 1);
      Ok(([item] + items, rest))
  }

  function ReadMetadata(s: Bytes): Parse<Metadata> {
    var (ttl, rest) :- ReadU64(s);
    var (staleTtl, rest) :- ReadU64(rest);
    var (hasCost, rest) :- ReadBool(rest);
    var (cost, rest) :- ReadU64(rest);
    var (count, rest) :- ReadNumber(rest, 2);
    var (tags, rest) :- ReadTags(rest, count);
    var (kind, rest) :- ReadU8(rest);
    if kind > 1 then Err(InvalidPayload("invalid content type"))
    else
      Ok((Metadata(NonZero(ttl), NonZero(staleTtl), if hasCost then Some(cost) else None, tags,
                   if kind == 0 then OctetStream else Other), rest))
  }

  function DecodeRequestPayload(c: Command, s: Bytes): Parse<Request> {
    var (ns, rest) :- ReadNamespace(s);
    DecodeBody(c, ns, rest)
  }

  function DecodeBody(c: Command, ns: Text, rest: Bytes): Parse<Request> {
    match c
    case Get =>
      var (key, rest) :- ReadBytes(rest);
      Ok((GetRequest(ns, key), rest))
    case Put =>
      var (key, rest) :- ReadBytes(rest);
      var (m, rest) :- ReadMetadata(rest);
      var (value, rest) :- ReadBytes(rest);
      Ok((PutRequest(ns, key, m, value), rest))
    case Delete =>
      var (key, rest) :- ReadBytes(rest);
      Ok((DeleteRequest(ns, key), rest))
    case BatchGet =>
      var (count, rest) :- ReadNumber(rest, 4);
      if count == 0 then Err(InvalidPayload("batch get requires at least one key"))
      else
        var (keys, rest) :- ReadKeys(rest, count);
        Ok((BatchGetRequest(ns, keys), rest))
    case TagInvalidate =>
      var (tag, rest) :- ReadTag(rest);
      Ok((TagInvalidateRequest(ns, tag), rest))
    case LeaseStart =>
      var (key, rest) :- ReadBytes(rest);
      var (ttl, rest) :- ReadU64(rest);
      if ttl == 0 then Err(InvalidPayload("lease ttl must be greater than zero"))
      else
        var (allow, rest) :- ReadU64(rest);
        Ok((LeaseStartRequest(ns, key, ttl, NonZero(allow)), rest))
    case LeaseComplete =>
      var (key, rest) :- ReadBytes(rest);
      var (token, rest) :- ReadString(rest);
      if token == [] then Err(InvalidPayload("lease token must be non-empty"))
      else
        var (m, rest) :- ReadMetadata(rest);
        var (value, rest) :- ReadBytes(rest);
        Ok((LeaseCompleteRequest(ns, key, token, m, value), rest))
  }

  function DecodeResponsePayload(c: Command, s: Bytes): Parse<Response> {
    var (status, rest) :- ReadU8(s);
    if status == 0 && c == BatchGet then
      var (count, rest) :- ReadNumber(rest, 4);
      var (items, rest) :- ReadItems(rest, count);
      Ok((BatchResponse(items), rest))
    else match status
      case 0 => Ok((OkResponse, rest))
      case 1 => var (value, rest) :- ReadBytes(rest); Ok((HitResponse(value), rest))
      case 2 => var (value, rest) :- ReadBytes(rest); Ok((StaleResponse(value), rest))
      case 3 => Ok((MissResponse, rest))
      case 4 => var (n, rest) :- ReadU32(rest); Ok((StoredResponse(n), rest))
      case 5 => var (b, rest) :- ReadBool(rest); Ok((DeletedResponse(b), rest))
      case 6 => var (n, rest) :- ReadU32(rest); Ok((InvalidatedResponse(n), rest))
      case 7 =>
        var (token, rest) :- ReadString(rest);
        var (stale, rest) :- ReadBool(rest);
        if stale then
          var (value, rest) :- ReadBytes(rest);
          Ok((GrantedResponse(token, Some(value)), rest))
        else Ok((GrantedResponse(token, None), rest))
      case 8 => Ok((DeniedResponse, rest))
      case 255 =>
        var (id, rest) :- ReadNumber(rest, 2);
        var code :- ErrorFromId(id);
        var (message, rest) :- ReadString(rest);
        Ok((ErrorResponse(code, message), rest))
      case _ => Err(InvalidPayload("unknown response status"))
  }

  /** The header, the payload bytes it declares and the command, in the order they are checked. */
  function OpenFrame(input: Bytes, max: nat, kind: Byte): Result<(FrameHeader, Command, Bytes), DecodeError> {
    var header :- DecodeHeader(input, max, kind);
    var end := HEADER_LEN + header.payloadLen;
    if |input| < end then Err(TruncatedPayload(end, |input|))
    else
      var command :- CommandFromId(header.command);
      Ok((header, command, input[HEADER_LEN..end]))
  }

  function ExpectEmpty<T>(value: T, rest: Bytes): Result<T, DecodeError> {
    if rest == [] then Ok(value) else Err(TrailingBytes(|rest|))
  }

  function DecodeRequestFrame(input: Bytes, max: nat): Result<RequestFrame, DecodeError> {
    var (header, command, payload) :- OpenFrame(input, max, KIND_REQUEST);
    var (request, rest) :- DecodeRequestPayload(command, payload);
    ExpectEmpty(RequestFrame(header.requestId, command, request), rest)
  }

  function DecodeResponseFrame(input: Bytes, max: nat): Result<ResponseFrame, DecodeError> {
    var (header, command, payload) :- OpenFrame(input, max, KIND_RESPONSE);
    var (response, rest) :- DecodeResponsePayload(command, payload);
    ExpectEmpty(ResponseFrame(header.requestId, command, response), rest)
  }
}
