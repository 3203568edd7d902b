/**
  The codec as it runs: a cursor that advances over the payload, in an owned and
  a borrowed form, and a writer that appends to a buffer and patches the length
  into the header.
 */
module CodecImpl {
  import opened Base
  import opened Wire
  import opened Codec

  /** A read off the cursor did what reading the front of the remaining bytes does. */
  ghost predicate Follows<T>(p: Parse<T>, r: Result<T, DecodeError>, rest: Bytes) {
    match p
    case Ok((value, more)) => r == Ok(value) && rest == more
    case Err(error) => r == Err(error)
  }

  /** A borrowed field: a range of the payload, not a copy. */
  datatype Slice = Slice(from: nat, to: nat)

  predicate InBounds(payload: Bytes, s: Slice) {
    s.from <= s.to <= |payload|
  }

  function Copy(payload: Bytes, s: Slice): Bytes
    requires InBounds(payload, s)
  {
    payload[s.from..s.to]
  }

  ghost predicate Borrows(p: Parse<Bytes>, payload: Bytes, r: Result<Slice, DecodeError>, rest: Bytes) {
    match p
    case Ok((value, more)) => r.Ok? && InBounds(payload, r.value) && Copy(payload, r.value) == value && rest == more
    case Err(error) => r == Err(error)
  }

  /** A list read so far, followed by what is still to be read. */
  function Prepend<T>(front: seq<T>, p: Parse<seq<T>>): Parse<seq<T>> {
    match p
    case Ok((more, rest)) => Ok((front + more, rest))
    case Err(error) => Err(error)
  }

  lemma PrependNone<T>(p: Parse<seq<T>>)
    ensures Prepend([], p) == p
  {
    if p.Ok? {
      assert [] + p.value.0 == p.value.0;
    }
  }

  lemma PrependOne<T>(front: seq<T>, x: T, p: Parse<seq<T>>)
    ensures Prepend(front, Prepend([x], p)) == Prepend(front + [x], p)
  {
    if p.Ok? {
      assert front + ([x] + p.value.0) == (front + [x]) + p.value.0;
    }
  }

  /** A list of items is its first item and the list of the others. */
  lemma ItemsStep(s: Bytes, count: nat)
    requires count > 0
    ensures match Codec.ReadItem(s)
            case Ok((item, rest)) => Codec.ReadItems(s, count) == Prepend([item], Codec.ReadItems(rest, count - 1))
            case Err(error) => Codec.ReadItems(s, count) == Err(error)
  {
    hide Codec.ReadItem;
  }

  lemma ItemsEnd(s: Bytes)
    ensures Codec.ReadItems(s, 0) == Ok(([], s))
  {
  }

  class Cursor {
    const input: Bytes
    var offset: nat

    ghost predicate Valid()
      reads this
    {
      offset <= |input|
    }

    ghost function Rest(): Bytes
      requires Valid()
      reads this
    {
      input[offset..]
    }

    constructor (input: Bytes)
      ensures Valid() && this.input == input && Rest() == input
    {
      this.input := input;
      offset := 0;
    }

    method ReadU8() returns (r: Result<Byte, DecodeError>)
      requires Valid()
      modifies this
      ensures Valid() && Follows(Wire.ReadU8(old(Rest())), r, Rest())
    {
      if offset >= |input| {
        return Err(InvalidPayload("truncated u8"));
      }
      var b := input[offset];
      offset := offset + 1;
      return Ok(b);
    }

    /** Moves past `n` bytes and lends them out. */
    method ReadBorrowedExact(n: nat) returns (r: Result<Slice, DecodeError>)
      requires Valid()
      modifies this
      ensures Valid() && Borrows(Wire.ReadExact(old(Rest()), n), input, r, Rest())
    {
      var end := offset + n;
      if end > |input| {
        return Err(InvalidPayload("truncated field"));
      }
      var s := Slice(offset, end);
      offset := end;
      return Ok(s);
    }

    method ReadExact(n: nat) returns (r: Result<Bytes, DecodeError>)
      requires Valid()
      modifies this
      ensures Valid() && Follows(Wire.ReadExact(old(Rest()), n), r, Rest())
    {
      var s :- ReadBorrowedExact(n);
      return Ok(input[s.from..s.to]);
    }

    method ReadNumber(n: nat) returns (r: Result<nat, DecodeError>)
      requires Valid()
      modifies this
      ensures Valid() && Follows(Wire.ReadNumber(old(Rest()), n), r, Rest())
    {
      var bytes :- ReadExact(n);
      return Ok(FromBE(bytes));
    }

    method ReadU64() returns (r: Result<U64, DecodeError>)
      requires Valid()
      modifies this
      ensures Valid() && Follows(Codec.ReadU64(old(Rest())), r, Rest())
    {
      ghost var s := Rest();
      var n :- ReadNumber(8);
      NumberAccepted(s, 8);
      Widths();
      return Ok(n);
    }

    method ReadU32() returns (r: Result<U32, DecodeError>)
      requires Valid()
      modifies this
      ensures Valid() && Follows(Codec.ReadU32(old(Rest())), r, Rest())
    {
      ghost var s := Rest();
      var n :- ReadNumber(4);
      NumberAccepted(s, 4);
      Widths();
      return Ok(n);
    }

    method ReadBool() returns (r: Result<bool, DecodeError>)
      requires Valid()
      modifies this
      ensures Valid() && Follows(Wire.ReadBool(old(Rest())), r, Rest())
    {
      var b :- ReadU8();
      if b == 0 {
        return Ok(false);
      } else if b == 1 {
        return Ok(true);
      }
      return Err(InvalidBool(b));
    }

    method ReadBytes() returns (r: Result<Bytes, DecodeError>)
      requires Valid()
      modifies this
      ensures Valid() && Follows(Wire.ReadBytes(old(Rest())), r, Rest())
    {
      var n :- ReadNumber(4);
      r := ReadExact(n);
    }

    method ReadBorrowedBytes() returns (r: Result<Slice, DecodeError>)
      requires Valid()
      modifies this
      ensures Valid() && Borrows(Wire.ReadBytes(old(Rest())), input, r, Rest())
    {
      var n :- ReadNumber(4);
      r := ReadBorrowedExact(n);
    }

    method ReadString() returns (r: Result<Text, DecodeError>)
      requires Valid()
      modifies this
      ensures Valid() && Follows(Wire.ReadString(old(Rest())), r, Rest())
    {
      var bytes :- ReadBytes();
      return if ValidUtf8(bytes) then Ok(bytes) else Err(InvalidUtf8);
    }

    method ReadBorrowedString() returns (r: Result<Slice, DecodeError>)
      requires Valid()
      modifies this
      ensures Valid() && Borrows(Wire.ReadString(old(Rest())), input, r, Rest())
    {
      var s :- ReadBorrowedBytes();
      return if ValidUtf8(input[s.from..s.to]) then Ok(s) else Err(InvalidUtf8);
    }

    method ReadNamespace() returns (r: Result<Text, DecodeError>)
      requires Valid()
      modifies this
      ensures Valid() && Follows(Wire.ReadNamespace(old(Rest())), r, Rest())
    {
      var text :- ReadString();
      return if ValidNamespace(text) then Ok(text) else Err(InvalidNamespace);
    }

    method ReadBorrowedNamespace() returns (r: Result<Slice, DecodeError>)
      requires Valid()
      modifies this
      ensures Valid() && Borrows(Wire.ReadNamespace(old(Rest())), input, r, Rest())
    {
      var s :- ReadBorrowedString();
      return if ValidNamespace(input[s.from..s.to]) then Ok(s) else Err(InvalidNamespace);
    }

    method ReadTag() returns (r: Result<Text, DecodeError>)
      requires Valid()
      modifies this
      ensures Valid() && Follows(Wire.ReadTag(old(Rest())), r, Rest())
    {
      var text :- ReadString();
      return if ValidTag(text) then Ok(text) else Err(InvalidTag);
    }

    method ReadBorrowedTag() returns (r: Result<Slice, DecodeError>)
      requires Valid()
      modifies this
      ensures Valid() && Borrows(Wire.ReadTag(old(Rest())), input, r, Rest())
    {
      var s :- ReadBorrowedString();
      return if ValidTag(input[s.from..s.to]) then Ok(s) else Err(InvalidTag);
    }

    method ReadTags(count: nat) returns (r: Result<seq<Text>, DecodeError>)
      requires Valid()
      modifies this
      ensures Valid() && Follows(Codec.ReadTags(old(Rest()), count), r, Rest())
    {
      hide Wire.ReadTag;
      var tags: seq<Text> := [];
      PrependNone(Codec.ReadTags(Rest(), count));
      for i := 0 to count
        invariant Valid()
        invariant Codec.ReadTags(old(Rest()), count) == Prepend(tags, Codec.ReadTags(Rest(), count - i))
      {
        var tag :- ReadTag();
        PrependOne(tags, tag, Codec.ReadTags(Rest(), count - i - 1));
        tags := tags + [tag];
      }
      assert tags + [] == tags;
      return Ok(tags);
    }

    method ReadKeys(count: nat) returns (r: Result<seq<Bytes>, DecodeError>)
      requires Valid()
      modifies this
      ensures Valid() && Follows(Codec.ReadKeys(old(Rest()), count), r, Rest())
    {
      var keys: seq<Bytes> := [];
      PrependNone(Codec.ReadKeys(Rest(), count));
      for i := 0 to count
        invariant Valid()
        invariant Codec.ReadKeys(old(Rest()), count) == Prepend(keys, Codec.ReadKeys(Rest(), count - i))
      {
        var key :- ReadBytes();
        PrependOne(keys, key, Codec.ReadKeys(Rest(), count - i - 1));
        keys := keys + [key];
      }
      assert keys + [] == keys;
      return Ok(keys);
    }

    method ReadItem() returns (r: Result<Item, DecodeError>)
      requires Valid()
      modifies this
      ensures Valid() && Follows(Codec.ReadItem(old(Rest())), r, Rest())
    {
      var status :- ReadU8();
      match status {
        case 1 =>
          var value :- ReadBytes();
          return Ok(ItemHit(value));
        case 2 =>
          var value :- ReadBytes();
          return Ok(ItemStale(value));
        case 3 => return Ok(ItemMiss);
        case _ => return Err(InvalidPayload("invalid batch item status"));
      }
    }

    method ReadItems(count: nat) returns (r: Result<seq<Item>, DecodeError>)
      requires Valid()
      modifies this
      ensures Valid() && Follows(Codec.ReadItems(old(Rest()), count), r, Rest())
    {
      var items: seq<Item> := [];
      PrependNone(Codec.ReadItems(Rest(), count));
      hide Codec.ReadItem, Codec.ReadItems;
      for i := 0 to count
        invariant Valid()
        invariant Codec.ReadItems(old(Rest()), count) == Prepend(items, Codec.ReadItems(Rest(), count - i))
      {
        ItemsStep(Rest(), count - i);
        var item :- ReadItem();
        PrependOne(items, item, Codec.ReadItems(Rest(), count - i - 1));
        items := items + [item];
      }
      ItemsEnd(Rest());
      assert items + [] == items;
      return Ok(items);
    }

    method ReadMetadata() returns (r: Result<Metadata, DecodeError>)
      requires Valid()
      modifies this
      ensures Valid() && Follows(Codec.ReadMetadata(old(Rest())), r, Rest())
    {
      var ttl :- ReadU64();
      var staleTtl :- ReadU64();
      var hasCost :- ReadBool();
      var cost :- ReadU64();
      var count :- ReadNumber(2);
      var tags :- ReadTags(count);
      var kind :- ReadU8();
      if kind > 1 {
        return Err(InvalidPayload("invalid content type"));
      }
      return Ok(Metadata(NonZero(ttl), NonZero(staleTtl), if hasCost then Some(cost) else None, tags,
                         if kind == 0 then OctetStream else Other));
    }

    method DecodeRequestPayload(c: Command) returns (r: Result<Request, DecodeError>)
      requires Valid()
      modifies this
      ensures Valid() && Follows(Codec.DecodeRequestPayload(c, old(Rest())), r, Rest())
    {
      var ns :- ReadNamespace();
      match c {
        case Get =>
          var key :- ReadBytes();
          return Ok(GetRequest(ns, key));
        case Put =>
          var key :- ReadBytes();
          var m :- ReadMetadata();
          var value :- ReadBytes();
          return Ok(PutRequest(ns, key, m, value));
        case Delete =>
          var key :- ReadBytes();
          return Ok(DeleteRequest(ns, key));
        case BatchGet =>
          var count :- ReadNumber(4);
          if count == 0 {
            return Err(InvalidPayload("batch get requires at least one key"));
          }
          var keys :- ReadKeys(count);
          return Ok(BatchGetRequest(ns, keys));
        case TagInvalidate =>
          var tag :- ReadTag();
          return Ok(TagInvalidateRequest(ns, tag));
        case LeaseStart =>
          var key :- ReadBytes();
          var ttl :- ReadU64();
          if ttl == 0 {
            return Err(InvalidPayload("lease ttl must be greater than zero"));
          }
          var allow :- ReadU64();
          return Ok(LeaseStartRequest(ns, key, ttl, NonZero(allow)));
        case LeaseComplete =>
          var key :- ReadBytes();
          var token :- ReadString();
          if token == [] {
            return Err(InvalidPayload("lease token must be non-empty"));
          }
          var m :- ReadMetadata();
          var value :- ReadBytes();
          return Ok(LeaseCompleteRequest(ns, key, token, m, value));
      }
    }

    method DecodeResponsePayload(c: Command) returns (r: Result<Response, DecodeError>)
      requires Valid()
      modifies this
      ensures Valid() && Follows(Codec.DecodeResponsePayload(c, old(Rest())), r, Rest())
    {
      var status :- ReadU8();
      if status == 0 && c == BatchGet {
        var count :- ReadNumber(4);
        var items :- ReadItems(count);
        return Ok(BatchResponse(items));
      }
      match status {
        case 0 => return Ok(OkResponse);
        case 1 =>
          var value :- ReadBytes();
          return Ok(HitResponse(value));
        case 2 =>
          var value :- ReadBytes();
          return Ok(StaleResponse(value));
        case 3 => return Ok(MissResponse);
        case 4 =>
          var n :- ReadU32();
          return Ok(StoredResponse(n));
        case 5 =>
          var b :- ReadBool();
          return Ok(DeletedResponse(b));
        case 6 =>
          var n :- ReadU32();
          return Ok(InvalidatedResponse(n));
        case 7 =>
          var token :- ReadString();
          var stale :- ReadBool();
          if stale {
            var value :- ReadBytes();
            return Ok(GrantedResponse(token, Some(value)));
          }
          return Ok(GrantedResponse(token, None));
        case 8 => return Ok(DeniedResponse);
        case 255 =>
          var id :- ReadNumber(2);
          var code :- ErrorFromId(id);
          var message :- ReadString();
          return Ok(ErrorResponse(code, message));
        case _ => return Err(InvalidPayload("unknown response status"));
      }
    }

    method ExpectEmpty() returns (r: Result<(), DecodeError>)
      requires Valid()
      ensures r == if Rest() == [] then Ok(()) else Err(TrailingBytes(|Rest()|))
    {
      return if offset == |input| then Ok(()) else Err(TrailingBytes(|input| - offset));
    }
  }

  /** Seven appends in a row add one right-nested block. */
  lemma Appends(out: Bytes, a: Bytes, b: Bytes, c: Bytes, d: Bytes, e: Bytes, f: Bytes, g: Bytes)
    ensures out + a + b + c + d + e + f + g == out + (a + (b + (c + (d + (e + (f + g))))))
  {
    Assoc(out + a + b + c + d + e, f, g);
    Assoc(out + a + b + c + d, e, f + g);
    Assoc(out + a + b + c, d, e + (f + g));
    Assoc(out + a + b, c, d + (e + (f + g)));
    Assoc(out + a, b, c + (d + (e + (f + g))));
    Assoc(out, a, b + (c + (d + (e + (f + g)))));
  }

  /** The output buffer of the encoders; every write appends. */
  class Writer {
    var out: Bytes

    constructor ()
      ensures out == []
    {
      out := [];
    }

    method WriteNumber(n: nat, v: nat)
      modifies this
      ensures out == old(out) + BE(n, v)
    {
      out := out + BE(n, v);
    }

    method WriteByte(b: Byte)
      modifies this
      ensures out == old(out) + [b]
    {
      out := out + [b];
    }

    method WriteBytes(value: Bytes)
      modifies this
      ensures out == old(out) + Blob(value)
    {
      WriteNumber(4, |value|);
      out := out + value;
    }

    method WriteEach(values: seq<Bytes>)
      modifies this
      ensures out == old(out) + EncodeBlobs(values)
    {
      for i := 0 to |values|
        invariant out + EncodeBlobs(values[i..]) == old(out) + EncodeBlobs(values)
      {
        assert values[i..][1..] == values[i + 1..];
        WriteBytes(values[i]);
      }
      assert out + [] == out;
    }

    method WriteMetadata(m: Metadata)
      modifies this
      ensures out == old(out) + EncodeMetadata(m, ZEROS)
    {
      assert BE(8, 0) == ZEROS;
      Appends(out, BE(8, OrZero(m.ttl)), BE(8, OrZero(m.staleTtl)), Flag(m.cost.Some?), CostField(m.cost, ZEROS),
              BE(2, |m.tags|), EncodeBlobs(m.tags), ContentField(m.contentType));
      hide BE, EncodeBlobs;
      WriteNumber(8, OrZero(m.ttl));
      WriteNumber(8, OrZero(m.staleTtl));
      WriteByte(if m.cost.Some? then 1 else 0);
      WriteNumber(8, OrZero(m.cost));
      WriteNumber(2, |m.tags|);
      WriteEach(m.tags);
      WriteByte(if m.contentType == OctetStream then 0 else 1);
    }

    method WriteRequest(p: Request)
      modifies this
      ensures out == old(out) + EncodeRequest(p, ZEROS)
    {
      hide BE, Blob, EncodeBody;
      Assoc(out, Blob(p.ns), EncodeBody(p, ZEROS));
      WriteBytes(p.ns);
      WriteBody(p);
    }

    method WriteBody(p: Request)
      modifies this
      ensures out == old(out) + EncodeBody(p, ZEROS)
    {
      hide BE, Blob, EncodeBlobs, EncodeMetadata;
      match p {
        case GetRequest(_, key) => WriteBytes(key);
        case DeleteRequest(_, key) => WriteBytes(key);
        case PutRequest(_, key, m, value) =>
          Assoc(out, Blob(key), EncodeMetadata(m, ZEROS) + Blob(value));
          WriteBytes(key);
          WriteTail(m, value);
        case BatchGetRequest(_, keys) =>
          Assoc(out, BE(4, |keys|), EncodeBlobs(keys));
          WriteNumber(4, |keys|);
          WriteEach(keys);
        case TagInvalidateRequest(_, tag) => WriteBytes(tag);
        case LeaseStartRequest(_, key, ttl, allow) =>
          Assoc(out + Blob(key), BE(8, ttl), BE(8, OrZero(allow)));
          Assoc(out, Blob(key), BE(8, ttl) + BE(8, OrZero(allow)));
          WriteBytes(key);
          WriteNumber(8, ttl);
          WriteNumber(8, OrZero(allow));
        case LeaseCompleteRequest(_, key, token, m, value) =>
          Assoc(out + Blob(key), Blob(token), EncodeMetadata(m, ZEROS) + Blob(value));
          Assoc(out, Blob(key), Blob(token) + (EncodeMetadata(m, ZEROS) + Blob(value)));
          WriteBytes(key);
          WriteBytes(token);
          WriteTail(m, value);
      }
    }

    method WriteTail(m: Metadata, value: Bytes)
      modifies this
      ensures out == old(out) + (EncodeMetadata(m, ZEROS) + Blob(value))
    {
      hide BE, Blob, EncodeMetadata;
      Assoc(out, EncodeMetadata(m, ZEROS), Blob(value));
      WriteMetadata(m);
      WriteBytes(value);
    }

    method WriteItem(item: Item)
      modifies this
      ensures out == old(out) + EncodeItem(item)
    {
      match item {
        case ItemHit(value) => WriteTagged(1, value);
        case ItemStale(value) => WriteTagged(2, value);
        case ItemMiss => WriteByte(3);
      }
    }

    method WriteItems(items: seq<Item>)
      modifies this
      ensures out == old(out) + EncodeItems(items)
    {
      hide EncodeItem;
      for i := 0 to |items|
        invariant out + EncodeItems(items[i..]) == old(out) + EncodeItems(items)
      {
        assert items[i..][1..] == items[i + 1..];
        Assoc(out, EncodeItem(items[i]), EncodeItems(items[i + 1..]));
        WriteItem(items[i]);
      }
      assert out + [] == out;
    }

    method WriteTagged(kind: Byte, value: Bytes)
      modifies this
      ensures out == old(out) + ([kind] + Blob(value))
    {
      hide BE, Blob;
      Assoc(out, [kind], Blob(value));
      WriteByte(kind);
      WriteBytes(value);
    }

    method WriteCounted(kind: Byte, n: nat, v: nat)
      modifies this
      ensures out == old(out) + ([kind] + BE(n, v))
    {
      hide BE;
      Assoc(out, [kind], BE(n, v));
      WriteByte(kind);
      WriteNumber(n, v);
    }

    method WriteGrant(token: Bytes, stale: Option<Bytes>)
      modifies this
      ensures out == old(out) + EncodeResponse(GrantedResponse(token, stale))
    {
      hide BE, Blob;
      ghost var last := if stale.Some? then Blob(stale.value) else [];
      Assoc(out, [7] + Blob(token), Flag(stale.Some?) + last);
      Assoc([7], Blob(token), Flag(stale.Some?) + last);
      Assoc(out + ([7] + Blob(token)), Flag(stale.Some?), last);
      WriteTagged(7, token);
      WriteByte(if stale.Some? then 1 else 0);
      if stale.Some? {
        WriteBytes(stale.value);
      }
    }

    method WriteResponse(p: Response)
      modifies this
      ensures out == old(out) + EncodeResponse(p)
    {
      hide BE, Blob, EncodeItems;
      match p {
        case OkResponse => WriteByte(0);
        case HitResponse(value) => WriteTagged(1, value);
        case StaleResponse(value) => WriteTagged(2, value);
        case MissResponse => WriteByte(3);
        case StoredResponse(evicted) => WriteCounted(4, 4, evicted);
        case DeletedResponse(existed) =>
          Assoc(out, [5], Flag(existed));
          WriteByte(5);
          WriteByte(if existed then 1 else 0);
        case InvalidatedResponse(removed) => WriteCounted(6, 4, removed);
        case GrantedResponse(token, stale) => WriteGrant(token, stale);
        case DeniedResponse => WriteByte(8);
        case ErrorResponse(code, message) =>
          Assoc(out, [255] + BE(2, ErrorId(code)), Blob(message));
          Assoc([255], BE(2, ErrorId(code)), Blob(message));
          WriteCounted(255, 2, ErrorId(code));
          WriteBytes(message);
        case BatchResponse(items) =>
          Assoc(out, [0] + BE(4, |items|), EncodeItems(items));
          Assoc([0], BE(4, |items|), EncodeItems(items));
          WriteCounted(0, 4, |items|);
          WriteItems(items);
      }
    }

    /** Clears the buffer and writes a header whose length is still zero. */
    method BeginFrame(kind: Byte, c: Command, requestId: U64)
      modifies this
      ensures out == Header(kind, c, requestId, 0) && |out| == HEADER_LEN
    {
      out := MAGIC + [VERSION, kind, CommandId(c), 0] + BE(8, requestId) + BE(4, 0) + BE(4, 0);
    }

    /** Patches the payload length into the header once the payload is written. */
    method PatchLength(kind: Byte, c: Command, requestId: U64, payload: Bytes)
      requires out == Header(kind, c, requestId, 0) + payload && |payload| < U32_LIMIT
      modifies this
      ensures out == EncodeFrame(kind, c, requestId, payload)
    {
      var len := |out| - HEADER_LEN;
      ghost var front, back := MAGIC + [VERSION, kind, CommandId(c), 0] + BE(8, requestId), BE(4, 0) + payload;
      assert |front| == 16;
      assert out == front + BE(4, 0) + back;
      out := out[..16] + BE(4, len) + out[20..];
      assert out == front + BE(4, len) + back;
    }

    method EncodeRequestInto(f: RequestFrame)
      requires |EncodeRequest(f.payload, ZEROS)| < U32_LIMIT
      modifies this
      ensures out == EncodeRequestFrame(f, ZEROS)
    {
      BeginFrame(KIND_REQUEST, f.command, f.requestId);
      WriteRequest(f.payload);
      PatchLength(KIND_REQUEST, f.command, f.requestId, EncodeRequest(f.payload, ZEROS));
    }

    method EncodeResponseInto(f: ResponseFrame)
      requires |EncodeResponse(f.payload)| < U32_LIMIT
      modifies this
      ensures out == EncodeResponseFrame(f)
    {
      BeginFrame(KIND_RESPONSE, f.command, f.requestId);
      WriteResponse(f.payload);
      PatchLength(KIND_RESPONSE, f.command, f.requestId, EncodeResponse(f.payload));
    }
  }

  // ----- Whole frames -----

  method DecodeRequest(input: Bytes, max: nat) returns (r: Result<RequestFrame, DecodeError>)
    ensures r == DecodeRequestFrame(input, max)
  {
    var frame :- OpenFrame(input, max, KIND_REQUEST);
    var (header, command, payload) := frame;
    var cursor := new Cursor(payload);
    var request :- cursor.DecodeRequestPayload(command);
    var _ :- cursor.ExpectEmpty();
    return Ok(RequestFrame(header.requestId, command, request));
  }

  method DecodeResponse(input: Bytes, max: nat) returns (r: Result<ResponseFrame, DecodeError>)
    ensures r == DecodeResponseFrame(input, max)
  {
    var frame :- OpenFrame(input, max, KIND_RESPONSE);
    var (header, command, payload) := frame;
    var cursor := new Cursor(payload);
    var response :- cursor.DecodeResponsePayload(command);
    var _ :- cursor.ExpectEmpty();
    return Ok(ResponseFrame(header.requestId, command, response));
  }

  // ----- The borrowed decoder -----

  datatype RequestView =
    | GetView(ns: Slice, key: Slice)
    | DeleteView(ns: Slice, key: Slice)
    | TagInvalidateView(ns: Slice, tag: Slice)
    | LeaseStartView(ns: Slice, key: Slice, leaseTtl: U64, allowStale: Option<U64>)

  datatype RequestFrameView = RequestFrameView(requestId: U64, command: Command, payload: RequestView)

  predicate ViewInBounds(payload: Bytes, v: RequestView) {
    match v
    case GetView(ns, key) => InBounds(payload, ns) && InBounds(payload, key)
    case DeleteView(ns, key) => InBounds(payload, ns) && InBounds(payload, key)
    case TagInvalidateView(ns, tag) => InBounds(payload, ns) && InBounds(payload, tag)
    case LeaseStartView(ns, key, _, _) => InBounds(payload, ns) && InBounds(payload, key)
  }

  /** The request a view stands for. */
  function Owned(payload: Bytes, v: RequestView): Request
    requires ViewInBounds(payload, v)
  {
    match v
    case GetView(ns, key) => GetRequest(Copy(payload, ns), Copy(payload, key))
    case DeleteView(ns, key) => DeleteRequest(Copy(payload, ns), Copy(payload, key))
    case TagInvalidateView(ns, tag) => TagInvalidateRequest(Copy(payload, ns), Copy(payload, tag))
    case LeaseStartView(ns, key, ttl, allow) => LeaseStartRequest(Copy(payload, ns), Copy(payload, key), ttl, allow)
  }

  predicate Hot(c: Command) {
    c == Get || c == Delete || c == TagInvalidate || c == LeaseStart
  }

  /** The borrowed answer against the owned one, on the same bytes. */
  ghost predicate Agrees(input: Bytes, max: nat, r: Result<Option<RequestFrameView>, DecodeError>) {
    var frame, owned := OpenFrame(input, max, KIND_REQUEST), DecodeRequestFrame(input, max);
    if frame.Ok? && !Hot(frame.value.1) then r == Ok(None)
    else match owned
      case Err(error) => r == Err(error)
      case Ok(f) =>
        && frame.Ok? && r.Ok? && r.value.Some?
        && var view := r.value.value;
           && view.requestId == f.requestId && view.command == f.command
           && ViewInBounds(frame.value.2, view.payload) && Owned(frame.value.2, view.payload) == f.payload
  }

  ghost predicate FollowsView(p: Parse<Request>, payload: Bytes, r: Result<RequestView, DecodeError>, rest: Bytes) {
    match p
    case Ok((request, more)) =>
      r.Ok? && ViewInBounds(payload, r.value) && Owned(payload, r.value) == request && rest == more
    case Err(error) => r == Err(error)
  }

  method DecodeHotPayload(c: Command, cursor: Cursor) returns (r: Result<RequestView, DecodeError>)
    requires cursor.Valid() && Hot(c)
    modifies cursor
    ensures cursor.Valid()
    ensures FollowsView(Codec.DecodeRequestPayload(c, old(cursor.Rest())), cursor.input, r, cursor.Rest())
  {
    var ns :- cursor.ReadBorrowedNamespace();
    if c == TagInvalidate {
      var tag :- cursor.ReadBorrowedTag();
      return Ok(TagInvalidateView(ns, tag));
    }
    var key :- cursor.ReadBorrowedBytes();
    if c == Get {
      return Ok(GetView(ns, key));
    } else if c == Delete {
      return Ok(DeleteView(ns, key));
    }
    var ttl :- cursor.ReadU64();
    if ttl == 0 {
      return Err(InvalidPayload("lease ttl must be greater than zero"));
    }
    var allow :- cursor.ReadU64();
    return Ok(LeaseStartView(ns, key, ttl, NonZero(allow)));
  }

  /**
    On every byte string the borrowed decoder gives the owned decoder's fields or
    its error for the four hot commands, and nothing for the other three exactly
    when header, length and command are valid.
   */
  method DecodeBorrowedRequest(input: Bytes, max: nat) returns (r: Result<Option<RequestFrameView>, DecodeError>)
    ensures Agrees(input, max, r)
  {
    var frame :- OpenFrame(input, max, KIND_REQUEST);
    var (header, command, payload) := frame;
    if !Hot(command) {
      return Ok(None);
    }
    var cursor := new Cursor(payload);
    var view :- DecodeHotPayload(command, cursor);
    var _ :- cursor.ExpectEmpty();
    return Ok(Some(RequestFrameView(header.requestId, command, view)));
  }
}
