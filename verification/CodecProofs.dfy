/**
  The codec round trips: a frame is accepted as `f` exactly when `f` is
  well-formed and the bytes are its encoding, up to the eight cost bytes that
  the format ignores when there is no cost.
 */
module CodecProofs {
  import opened Base
  import opened Wire
  import opened Codec

  // ----- Well-formed messages -----

  predicate Short(s: Bytes) {
    |s| < U32_LIMIT
  }

  predicate GoodTags(tags: seq<Text>) {
    forall i :: 0 <= i < |tags| ==> Short(tags[i]) && ValidTag(tags[i])
  }

  predicate GoodMetadata(m: Metadata) {
    m.ttl != Some(0) && m.staleTtl != Some(0) && |m.tags| < U16_LIMIT && GoodTags(m.tags)
  }

  predicate GoodName(ns: Text) {
    Short(ns) && ValidNamespace(ns)
  }

  predicate GoodRequest(p: Request) {
    GoodName(p.ns) &&
    match p
    case GetRequest(_, key) => Short(key)
    case DeleteRequest(_, key) => Short(key)
    case PutRequest(_, key, m, value) => Short(key) && GoodMetadata(m) && Short(value)
    case BatchGetRequest(_, keys) => 0 < |keys| < U32_LIMIT && forall i :: 0 <= i < |keys| ==> Short(keys[i])
    case TagInvalidateRequest(_, tag) => Short(tag) && ValidTag(tag)
    case LeaseStartRequest(_, key, ttl, allow) => Short(key) && ttl != 0 && allow != Some(0)
    case LeaseCompleteRequest(_, key, token, m, value) =>
      Short(key) && Short(token) && ValidUtf8(token) && token != [] && GoodMetadata(m) && Short(value)
  }

  predicate GoodItem(item: Item) {
    item.ItemMiss? || Short(item.value)
  }

  /** A bare `Ok` is not sent for a batch get, whose status 0 announces a list. */
  predicate GoodResponse(c: Command, p: Response) {
    match p
    case OkResponse => c != BatchGet
    case HitResponse(value) => Short(value)
    case StaleResponse(value) => Short(value)
    case GrantedResponse(token, stale) => Short(token) && ValidUtf8(token) && (stale.Some? ==> Short(stale.value))
    case ErrorResponse(_, message) => Short(message) && ValidUtf8(message)
    case BatchResponse(items) =>
      c == BatchGet && |items| < U32_LIMIT && forall i :: 0 <= i < |items| ==> GoodItem(items[i])
    case _ => true
  }

  predicate GoodRequestFrame(f: RequestFrame, max: nat) {
    && f.command == CommandOf(f.payload)
    && GoodRequest(f.payload)
    && |EncodeRequest(f.payload, ZEROS)| <= Min(max, U32_LIMIT - 1)
  }

  predicate GoodResponseFrame(f: ResponseFrame, max: nat) {
    GoodResponse(f.command, f.payload) && |EncodeResponse(f.payload)| <= Min(max, U32_LIMIT - 1)
  }

  // ----- Lists -----

  lemma {:induction false} TagsRead(tags: seq<Text>, rest: Bytes)
    requires GoodTags(tags)
    ensures ReadTags(EncodeBlobs(tags) + rest, |tags|) == Ok((tags, rest))
  {
    if tags == [] {
      assert EncodeBlobs(tags) + rest == rest;
    } else {
      var more := EncodeBlobs(tags[1..]) + rest;
      Assoc(Blob(tags[0]), EncodeBlobs(tags[1..]), rest);
      TagReads(tags[0], more);
      TagsRead(tags[1..], rest);
      assert [tags[0]] + tags[1..] == tags;
    }
  }

  lemma {:induction false} TagsAccepted(s: Bytes, count: nat)
    requires ReadTags(s, count).Ok?
    ensures var (tags, rest) := ReadTags(s, count).value;
            |tags| == count && GoodTags(tags) && s == EncodeBlobs(tags) + rest
    decreases count
  {
    if count > 0 {
      BlobAccepted(s);
      var (tag, more) := ReadTag(s).value;
      TagsAccepted(more, count - 1);
      var (tags, rest) := ReadTags(more, count - 1).value;
      assert ([tag] + tags)[1..] == tags;
      Assoc(Blob(tag), EncodeBlobs(tags), rest);
    }
  }

  lemma {:induction false} KeysRead(keys: seq<Bytes>, rest: Bytes)
    requires forall i :: 0 <= i < |keys| ==> Short(keys[i])
    ensures ReadKeys(EncodeBlobs(keys) + rest, |keys|) == Ok((keys, rest))
  {
    if keys == [] {
      assert EncodeBlobs(keys) + rest == rest;
    } else {
      var more := EncodeBlobs(keys[1..]) + rest;
      Assoc(Blob(keys[0]), EncodeBlobs(keys[1..]), rest);
      BlobReads(keys[0], more);
      KeysRead(keys[1..], rest);
      assert [keys[0]] + keys[1..] == keys;
    }
  }

  lemma {:induction false} KeysAccepted(s: Bytes, count: nat)
    requires ReadKeys(s, count).Ok?
    ensures var (keys, rest) := ReadKeys(s, count).value;
            |keys| == count && (forall i :: 0 <= i < |keys| ==> Short(keys[i])) && s == EncodeBlobs(keys) + rest
    decreases count
  {
    if count > 0 {
      BlobAccepted(s);
      var (key, more) := ReadBytes(s).value;
      KeysAccepted(more, count - 1);
      var (keys, rest) := ReadKeys(more, count - 1).value;
      assert ([key] + keys)[1..] == keys;
      Assoc(Blob(key), EncodeBlobs(keys), rest);
    }
  }

  lemma TagByteReads(b: Byte, rest: Bytes)
    ensures ReadU8([b] + rest) == Ok((b, rest))
  {
    assert ([b] + rest)[1..] == rest;
  }

  lemma TagByteAccepted(s: Bytes)
    requires ReadU8(s).Ok?
    ensures s == [s[0]] + s[1..]
  {
  }

  lemma ItemReads(item: Item, rest: Bytes)
    requires GoodItem(item)
    ensures ReadItem(EncodeItem(item) + rest) == Ok((item, rest))
  {
    if item.ItemMiss? {
      TagByteReads(3, rest);
    } else {
      var b: Byte := if item.ItemHit? then 1 else 2;
      Assoc([b], Blob(item.value), rest);
      TagByteReads(b, Blob(item.value) + rest);
      BlobReads(item.value, rest);
    }
  }

  lemma ItemAccepted(s: Bytes)
    requires ReadItem(s).Ok?
    ensures var (item, rest) := ReadItem(s).value; GoodItem(item) && s == EncodeItem(item) + rest
  {
    TagByteAccepted(s);
    if s[0] != 3 {
      BlobAccepted(s[1..]);
      var (value, rest) := ReadBytes(s[1..]).value;
      Assoc([s[0]], Blob(value), rest);
    }
  }

  lemma {:induction false} ItemsRead(items: seq<Item>, rest: Bytes)
    requires forall i :: 0 <= i < |items| ==> GoodItem(items[i])
    ensures ReadItems(EncodeItems(items) + rest, |items|) == Ok((items, rest))
  {
    if items == [] {
      assert EncodeItems(items) + rest == rest;
    } else {
      var more := EncodeItems(items[1..]) + rest;
      Assoc(EncodeItem(items[0]), EncodeItems(items[1..]), rest);
      ItemReads(items[0], more);
      assert ReadItem(EncodeItems(items) + rest) == Ok((items[0], more));
      ItemsRead(items[1..], rest);
      assert [items[0]] + items[1..] == items;
    }
  }

  lemma {:induction false} ItemsAccepted(s: Bytes, count: nat)
    requires ReadItems(s, count).Ok?
    ensures var (items, rest) := ReadItems(s, count).value;
            |items| == count && (forall i :: 0 <= i < |items| ==> GoodItem(items[i])) && s == EncodeItems(items) + rest
    decreases count
  {
    hide ReadItem, EncodeItem, GoodItem;
    if count > 0 {
      ItemAccepted(s);
      var (item, more) := ReadItem(s).value;
      ItemsAccepted(more, count - 1);
      var (items, rest) := ReadItems(more, count - 1).value;
      assert ReadItems(s, count) == Ok(([item] + items, rest));
      assert ([item] + items)[1..] == items;
      Assoc(EncodeItem(item), EncodeItems(items), rest);
    }
  }

  // ----- Metadata -----

  lemma U64Reads(n: U64, rest: Bytes)
    ensures ReadU64(BE(8, n) + rest) == Ok((n, rest))
  {
    Widths();
    NumberReads(8, n, rest);
  }

  lemma U64Accepted(s: Bytes)
    requires ReadU64(s).Ok?
    ensures var (n, rest) := ReadU64(s).value; s == BE(8, n) + rest
  {
    NumberAccepted(s, 8);
  }

  lemma FlagReads(b: bool, rest: Bytes)
    ensures ReadBool(Flag(b) + rest) == Ok((b, rest))
  {
    assert (Flag(b) + rest)[1..] == rest;
  }

  lemma FlagAccepted(s: Bytes)
    requires ReadBool(s).Ok?
    ensures var (b, rest) := ReadBool(s).value; s == Flag(b) + rest
  {
    assert s == [s[0]] + s[1..];
  }

  lemma CostReads(cost: Option<U64>, ignored: Ignored, rest: Bytes)
    ensures var r := ReadU64(CostField(cost, ignored) + rest);
            r.Ok? && r.value.1 == rest && (cost.Some? ==> r.value.0 == cost.value)
  {
    if cost.Some? {
      U64Reads(cost.value, rest);
    } else {
      BytesRoundTrip(ignored);
      Widths();
      U64Reads(FromBE(ignored), rest);
    }
  }

  /** The encoding followed by `rest`, with every field in front of all that follows it. */
  function MetadataOnto(m: Metadata, ignored: Ignored, rest: Bytes): Bytes {
    BE(8, OrZero(m.ttl)) + (BE(8, OrZero(m.staleTtl)) + (Flag(m.cost.Some?) + (CostField(m.cost, ignored)
    + (BE(2, |m.tags|) + (EncodeBlobs(m.tags) + (ContentField(m.contentType) + rest))))))
  }

  lemma MetadataSplit(m: Metadata, ignored: Ignored, rest: Bytes)
    ensures EncodeMetadata(m, ignored) + rest == MetadataOnto(m, ignored, rest)
  {
    var e6 := EncodeBlobs(m.tags) + ContentField(m.contentType);
    var e5 := BE(2, |m.tags|) + e6;
    var e4 := CostField(m.cost, ignored) + e5;
    var e3 := Flag(m.cost.Some?) + e4;
    var e2 := BE(8, OrZero(m.staleTtl)) + e3;
    Assoc(BE(8, OrZero(m.ttl)), e2, rest);
    Assoc(BE(8, OrZero(m.staleTtl)), e3, rest);
    Assoc(Flag(m.cost.Some?), e4, rest);
    Assoc(CostField(m.cost, ignored), e5, rest);
    Assoc(BE(2, |m.tags|), e6, rest);
    Assoc(EncodeBlobs(m.tags), ContentField(m.contentType), rest);
  }

  lemma MetadataReads(m: Metadata, ignored: Ignored, rest: Bytes)
    requires GoodMetadata(m)
    ensures ReadMetadata(EncodeMetadata(m, ignored) + rest) == Ok((m, rest))
  {
    MetadataSplit(m, ignored, rest);
    var r6 := ContentField(m.contentType) + rest;
    var r5 := EncodeBlobs(m.tags) + r6;
    var r4 := BE(2, |m.tags|) + r5;
    var r3 := CostField(m.cost, ignored) + r4;
    var r2 := Flag(m.cost.Some?) + r3;
    U64Reads(OrZero(m.ttl), BE(8, OrZero(m.staleTtl)) + r2);
    U64Reads(OrZero(m.staleTtl), r2);
    FlagReads(m.cost.Some?, r3);
    CostReads(m.cost, ignored, r4);
    Widths();
    NumberReads(2, |m.tags|, r5);
    TagsRead(m.tags, r6);
    TagByteReads(if m.contentType == OctetStream then 0 else 1, rest);
  }

  lemma MetadataAccepted(s: Bytes) returns (ignored: Ignored)
    requires ReadMetadata(s).Ok?
    ensures var (m, rest) := ReadMetadata(s).value; GoodMetadata(m) && s == EncodeMetadata(m, ignored) + rest
  {
    hide ReadTags, EncodeBlobs, BE, FromBE;
    var (m, rest) := ReadMetadata(s).value;
    U64Accepted(s);
    var (ttl, s1) := ReadU64(s).value;
    U64Accepted(s1);
    var (staleTtl, s2) := ReadU64(s1).value;
    FlagAccepted(s2);
    var (hasCost, s3) := ReadBool(s2).value;
    U64Accepted(s3);
    var (cost, s4) := ReadU64(s3).value;
    ignored := BE(8, cost);
    NumberAccepted(s4, 2);
    Widths();
    var (count, s5) := ReadNumber(s4, 2).value;
    TagsAccepted(s5, count);
    var (tags, s6) := ReadTags(s5, count).value;
    TagByteAccepted(s6);
    assert OrZero(m.ttl) == ttl && OrZero(m.staleTtl) == staleTtl && m.cost.Some? == hasCost && m.tags == tags;
    assert CostField(m.cost, ignored) == BE(8, cost) && ContentField(m.contentType) == [s6[0]];
    MetadataSplit(m, ignored, rest);
  }

  // ----- Request payloads -----

  lemma StoreReads(m: Metadata, ignored: Ignored, value: Bytes, rest: Bytes)
    requires GoodMetadata(m) && Short(value)
    ensures var r := ReadMetadata((EncodeMetadata(m, ignored) + Blob(value)) + rest);
            r == Ok((m, Blob(value) + rest)) && ReadBytes(r.value.1) == Ok((value, rest))
  {
    Assoc(EncodeMetadata(m, ignored), Blob(value), rest);
    MetadataReads(m, ignored, Blob(value) + rest);
    BlobReads(value, rest);
  }

  lemma StoreAccepted(s: Bytes) returns (ignored: Ignored)
    requires ReadMetadata(s).Ok? && ReadBytes(ReadMetadata(s).value.1).Ok?
    ensures var m := ReadMetadata(s).value.0;
            var (value, rest) := ReadBytes(ReadMetadata(s).value.1).value;
            GoodMetadata(m) && Short(value) && s == (EncodeMetadata(m, ignored) + Blob(value)) + rest
  {
    ignored := MetadataAccepted(s);
    var (m, more) := ReadMetadata(s).value;
    BlobAccepted(more);
    var (value, rest) := ReadBytes(more).value;
    Assoc(EncodeMetadata(m, ignored), Blob(value), rest);
  }

  lemma PutBodyReads(ns: Text, key: Bytes, m: Metadata, value: Bytes, ignored: Ignored, rest: Bytes)
    requires Short(key) && GoodMetadata(m) && Short(value)
    ensures var p := PutRequest(ns, key, m, value);
            DecodeBody(Put, ns, EncodeBody(p, ignored) + rest) == Ok((p, rest))
  {
    var tail := EncodeMetadata(m, ignored) + Blob(value);
    Assoc(Blob(key), tail, rest);
    BlobReads(key, tail + rest);
    StoreReads(m, ignored, value, rest);
  }

  lemma LeaseStartBodyReads(ns: Text, key: Bytes, ttl: U64, allow: Option<U64>, ignored: Ignored, rest: Bytes)
    requires Short(key) && ttl != 0 && allow != Some(0)
    ensures var p := LeaseStartRequest(ns, key, ttl, allow);
            DecodeBody(LeaseStart, ns, EncodeBody(p, ignored) + rest) == Ok((p, rest))
  {
    var tail := BE(8, ttl) + BE(8, OrZero(allow));
    Assoc(Blob(key), tail, rest);
    BlobReads(key, tail + rest);
    Assoc(BE(8, ttl), BE(8, OrZero(allow)), rest);
    U64Reads(ttl, BE(8, OrZero(allow)) + rest);
    U64Reads(OrZero(allow), rest);
  }

  lemma LeaseCompleteBodyReads(ns: Text, key: Bytes, token: Text, m: Metadata, value: Bytes, ignored: Ignored,
                               rest: Bytes)
    requires Short(key) && Short(token) && ValidUtf8(token) && token != [] && GoodMetadata(m) && Short(value)
    ensures var p := LeaseCompleteRequest(ns, key, token, m, value);
            DecodeBody(LeaseComplete, ns, EncodeBody(p, ignored) + rest) == Ok((p, rest))
  {
    hide ReadNumber, ReadMetadata;
    var tail := EncodeMetadata(m, ignored) + Blob(value);
    var more := (Blob(token) + tail) + rest;
    Assoc(Blob(key), Blob(token) + tail, rest);
    BlobReads(key, more);
    assert ReadString(more) == Ok((token, tail + rest)) by {
      Assoc(Blob(token), tail, rest);
      StringReads(token, tail + rest);
    }
    StoreReads(m, ignored, value, rest);
  }

  lemma BodyReads(p: Request, ignored: Ignored, rest: Bytes)
    requires GoodRequest(p)
    ensures DecodeBody(CommandOf(p), p.ns, EncodeBody(p, ignored) + rest) == Ok((p, rest))
  {
    match p
    case GetRequest(_, key) => BlobReads(key, rest);
    case DeleteRequest(_, key) => BlobReads(key, rest);
    case PutRequest(ns, key, m, value) => PutBodyReads(ns, key, m, value, ignored, rest);
    case BatchGetRequest(_, keys) =>
      Assoc(BE(4, |keys|), EncodeBlobs(keys), rest);
      Widths();
      NumberReads(4, |keys|, EncodeBlobs(keys) + rest);
      KeysRead(keys, rest);
    case TagInvalidateRequest(_, tag) => TagReads(tag, rest);
    case LeaseStartRequest(ns, key, ttl, allow) => LeaseStartBodyReads(ns, key, ttl, allow, ignored, rest);
    case LeaseCompleteRequest(ns, key, token, m, value) =>
      LeaseCompleteBodyReads(ns, key, token, m, value, ignored, rest);
  }

  lemma BodyAccepted(c: Command, ns: Text, s: Bytes) returns (ignored: Ignored)
    requires GoodName(ns) && DecodeBody(c, ns, s).Ok?
    ensures var (p, rest) := DecodeBody(c, ns, s).value;
            CommandOf(p) == c && p.ns == ns && GoodRequest(p) && s == EncodeBody(p, ignored) + rest
  {
    ignored := ZEROS;
    match c
    case Get => BlobAccepted(s);
    case Delete => BlobAccepted(s);
    case Put =>
      BlobAccepted(s);
      var (key, s1) := ReadBytes(s).value;
      ignored := StoreAccepted(s1);
      var (m, s2) := ReadMetadata(s1).value;
      var (value, rest) := ReadBytes(s2).value;
      Assoc(Blob(key), EncodeMetadata(m, ignored) + Blob(value), rest);
    case BatchGet =>
      NumberAccepted(s, 4);
      Widths();
      var (count, s1) := ReadNumber(s, 4).value;
      KeysAccepted(s1, count);
      var (keys, rest) := ReadKeys(s1, count).value;
      Assoc(BE(4, count), EncodeBlobs(keys), rest);
    case TagInvalidate => BlobAccepted(s);
    case LeaseStart =>
      BlobAccepted(s);
      var (key, s1) := ReadBytes(s).value;
      U64Accepted(s1);
      var (ttl, s2) := ReadU64(s1).value;
      U64Accepted(s2);
      var (allow, rest) := ReadU64(s2).value;
      Assoc(BE(8, ttl), BE(8, allow), rest);
      Assoc(Blob(key), BE(8, ttl) + BE(8, allow), rest);
    case LeaseComplete =>
      BlobAccepted(s);
      var (key, s1) := ReadBytes(s).value;
      BlobAccepted(s1);
      var (token, s2) := ReadString(s1).value;
      ignored := StoreAccepted(s2);
      var (m, s3) := ReadMetadata(s2).value;
      var (value, rest) := ReadBytes(s3).value;
      var tail := EncodeMetadata(m, ignored) + Blob(value);
      Assoc(Blob(token), tail, rest);
      Assoc(Blob(key), Blob(token) + tail, rest);
  }

  lemma RequestReads(p: Request, ignored: Ignored)
    requires GoodRequest(p)
    ensures DecodeRequestPayload(CommandOf(p), EncodeRequest(p, ignored)) == Ok((p, []))
  {
    var body := EncodeBody(p, ignored);
    assert body + [] == body;
    NamespaceReads(p.ns, body);
    BodyReads(p, ignored, []);
  }

  lemma RequestAccepted(c: Command, s: Bytes) returns (ignored: Ignored)
    requires DecodeRequestPayload(c, s).Ok? && DecodeRequestPayload(c, s).value.1 == []
    ensures var p := DecodeRequestPayload(c, s).value.0;
            CommandOf(p) == c && GoodRequest(p) && s == EncodeRequest(p, ignored)
  {
    BlobAccepted(s);
    var (ns, more) := ReadNamespace(s).value;
    ignored := BodyAccepted(c, ns, more);
    var p := DecodeRequestPayload(c, s).value.0;
    assert EncodeBody(p, ignored) + [] == EncodeBody(p, ignored);
  }

  // ----- Response payloads -----

  lemma U32Reads(n: U32, rest: Bytes)
    ensures ReadU32(BE(4, n) + rest) == Ok((n, rest))
  {
    Widths();
    NumberReads(4, n, rest);
  }

  lemma GrantReads(c: Command, token: Text, stale: Option<Bytes>)
    requires GoodResponse(c, GrantedResponse(token, stale))
    ensures DecodeResponsePayload(c, EncodeResponse(GrantedResponse(token, stale))) ==
            Ok((GrantedResponse(token, stale), []))
  {
    hide ReadNumber, ReadMetadata;
    var last: Bytes := if stale.Some? then Blob(stale.value) else [];
    var more := Flag(stale.Some?) + last;
    TagByteReads(7, Blob(token) + more);
    assert ReadString(Blob(token) + more) == Ok((token, more)) by {
      StringReads(token, more);
    }
    FlagReads(stale.Some?, last);
    if stale.Some? {
      assert last + [] == last;
      BlobReads(stale.value, []);
    }
  }

  lemma ErrorReads(c: Command, code: ErrorCode, message: Text)
    requires GoodResponse(c, ErrorResponse(code, message))
    ensures DecodeResponsePayload(c, EncodeResponse(ErrorResponse(code, message))) ==
            Ok((ErrorResponse(code, message), []))
  {
    hide ReadNumber, ReadMetadata;
    TagByteReads(255, BE(2, ErrorId(code)) + Blob(message));
    Widths();
    NumberReads(2, ErrorId(code), Blob(message));
    assert ReadString(Blob(message)) == Ok((message, [])) by {
      assert Blob(message) + [] == Blob(message);
      StringReads(message, []);
    }
  }

  lemma BatchReads(items: seq<Item>)
    requires GoodResponse(BatchGet, BatchResponse(items))
    ensures DecodeResponsePayload(BatchGet, EncodeResponse(BatchResponse(items))) == Ok((BatchResponse(items), []))
  {
    TagByteReads(0, BE(4, |items|) + EncodeItems(items));
    Widths();
    NumberReads(4, |items|, EncodeItems(items));
    assert EncodeItems(items) + [] == EncodeItems(items);
    ItemsRead(items, []);
  }

  lemma ResponseReads(c: Command, p: Response)
    requires GoodResponse(c, p)
    ensures DecodeResponsePayload(c, EncodeResponse(p)) == Ok((p, []))
  {
    match p
    case OkResponse => assert [0] + [] == [0];
    case HitResponse(value) =>
      TagByteReads(1, Blob(value));
      assert Blob(value) + [] == Blob(value);
      BlobReads(value, []);
    case StaleResponse(value) =>
      TagByteReads(2, Blob(value));
      assert Blob(value) + [] == Blob(value);
      BlobReads(value, []);
    case MissResponse => assert [3] + [] == [3];
    case StoredResponse(n) =>
      TagByteReads(4, BE(4, n));
      assert BE(4, n) + [] == BE(4, n);
      U32Reads(n, []);
    case DeletedResponse(b) =>
      TagByteReads(5, Flag(b));
      assert Flag(b) + [] == Flag(b);
      FlagReads(b, []);
    case InvalidatedResponse(n) =>
      TagByteReads(6, BE(4, n));
      assert BE(4, n) + [] == BE(4, n);
      U32Reads(n, []);
    case GrantedResponse(token, stale) => GrantReads(c, token, stale);
    case DeniedResponse => assert [8] + [] == [8];
    case ErrorResponse(code, message) => ErrorReads(c, code, message);
    case BatchResponse(items) => BatchReads(items);
  }

  lemma GrantAccepted(c: Command, s: Bytes)
    requires DecodeResponsePayload(c, s).Ok? && DecodeResponsePayload(c, s).value.1 == [] && s[0] == 7
    ensures var p := DecodeResponsePayload(c, s).value.0; GoodResponse(c, p) && s == EncodeResponse(p)
  {
    TagByteAccepted(s);
    BlobAccepted(s[1..]);
    var (token, s1) := ReadString(s[1..]).value;
    FlagAccepted(s1);
    var (stale, s2) := ReadBool(s1).value;
    if stale {
      BlobAccepted(s2);
      var (value, rest) := ReadBytes(s2).value;
      assert Blob(value) + [] == Blob(value);
    }
  }

  lemma ErrorAccepted(c: Command, s: Bytes)
    requires DecodeResponsePayload(c, s).Ok? && DecodeResponsePayload(c, s).value.1 == [] && s[0] == 255
    ensures var p := DecodeResponsePayload(c, s).value.0; GoodResponse(c, p) && s == EncodeResponse(p)
  {
    TagByteAccepted(s);
    NumberAccepted(s[1..], 2);
    var (id, s1) := ReadNumber(s[1..], 2).value;
    BlobAccepted(s1);
    var (message, rest) := ReadString(s1).value;
    assert Blob(message) + [] == Blob(message);
  }

  lemma BatchAccepted(s: Bytes)
    requires DecodeResponsePayload(BatchGet, s).Ok? && DecodeResponsePayload(BatchGet, s).value.1 == [] && s[0] == 0
    ensures var p := DecodeResponsePayload(BatchGet, s).value.0; GoodResponse(BatchGet, p) && s == EncodeResponse(p)
  {
    TagByteAccepted(s);
    NumberAccepted(s[1..], 4);
    Widths();
    var (count, s1) := ReadNumber(s[1..], 4).value;
    ItemsAccepted(s1, count);
    var (items, rest) := ReadItems(s1, count).value;
    assert EncodeItems(items) + [] == EncodeItems(items);
  }

  lemma ResponseAccepted(c: Command, s: Bytes)
    requires DecodeResponsePayload(c, s).Ok? && DecodeResponsePayload(c, s).value.1 == []
    ensures var p := DecodeResponsePayload(c, s).value.0; GoodResponse(c, p) && s == EncodeResponse(p)
  {
    TagByteAccepted(s);
    var p := DecodeResponsePayload(c, s).value.0;
    var body := s[1..];
    if s[0] == 0 && c == BatchGet {
      BatchAccepted(s);
    } else if s[0] == 1 || s[0] == 2 {
      BlobAccepted(body);
      assert Blob(p.value) + [] == Blob(p.value);
    } else if s[0] == 4 || s[0] == 6 {
      NumberAccepted(body, 4);
      var (n, rest) := ReadNumber(body, 4).value;
      assert BE(4, n) + [] == BE(4, n);
    } else if s[0] == 5 {
      FlagAccepted(body);
    } else if s[0] == 7 {
      GrantAccepted(c, s);
    } else if s[0] == 255 {
      ErrorAccepted(c, s);
    }
  }

  // ----- Frames -----

  lemma HeaderFields(kind: Byte, c: Command, requestId: U64, len: nat, rest: Bytes)
    ensures var s := Header(kind, c, requestId, len) + rest;
            && |Header(kind, c, requestId, len)| == HEADER_LEN
            && s[0..4] == MAGIC && s[4] == VERSION && s[5] == kind && s[6] == CommandId(c) && s[7] == 0
            && s[8..16] == BE(8, requestId) && s[16..20] == BE(4, len) && s[20..24] == BE(4, 0)
            && s[24..] == rest
  {
    var fixed := MAGIC + [VERSION, kind, CommandId(c), 0];
    assert |fixed| == 8;
  }

  lemma FrameOpens(kind: Byte, c: Command, requestId: U64, payload: Bytes, suffix: Bytes, max: nat)
    requires |payload| <= Min(max, U32_LIMIT - 1)
    ensures OpenFrame(EncodeFrame(kind, c, requestId, payload) + suffix, max, kind) ==
            Ok((FrameHeader(CommandId(c), requestId, |payload|), c, payload))
  {
    var input := EncodeFrame(kind, c, requestId, payload) + suffix;
    Assoc(Header(kind, c, requestId, |payload|), payload, suffix);
    HeaderFields(kind, c, requestId, |payload|, payload + suffix);
    Widths();
    NumberRoundTrip(8, requestId);
    NumberRoundTrip(4, |payload|);
    NumberRoundTrip(4, 0);
    assert input[24..24 + |payload|] == payload;
    assert CommandFromId(CommandId(c)) == Ok(c);
  }

  lemma FrameAccepted(input: Bytes, max: nat, kind: Byte)
    requires OpenFrame(input, max, kind).Ok?
    ensures var (header, c, payload) := OpenFrame(input, max, kind).value;
            && |payload| <= Min(max, U32_LIMIT - 1)
            && |payload| == FromBE(input[16..20])
            && input[..HEADER_LEN + |payload|] == EncodeFrame(kind, c, header.requestId, payload)
  {
    var (header, c, payload) := OpenFrame(input, max, kind).value;
    Widths();
    BytesRoundTrip(input[8..16]);
    BytesRoundTrip(input[16..20]);
    BytesRoundTrip(input[20..24]);
    assert input[4..8] == [VERSION, kind, CommandId(c), 0];
    assert input[..24] == input[0..4] + input[4..8] + input[8..16] + input[16..20] + input[20..24];
    assert input[..24 + |payload|] == input[..24] + payload;
  }

  lemma EncodedLength(p: Request, a: Ignored, b: Ignored)
    ensures |EncodeRequest(p, a)| == |EncodeRequest(p, b)|
    ensures !HasIgnored(p) ==> EncodeRequest(p, a) == EncodeRequest(p, b)
  {
  }

  /** Decoding an encoded request gives it back, whatever the ignored bytes and whatever follows. */
  lemma RequestRoundTrip(f: RequestFrame, ignored: Ignored, suffix: Bytes, max: nat)
    requires GoodRequestFrame(f, max)
    ensures DecodeRequestFrame(EncodeRequestFrame(f, ignored) + suffix, max) == Ok(f)
  {
    EncodedLength(f.payload, ignored, ZEROS);
    FrameOpens(KIND_REQUEST, f.command, f.requestId, EncodeRequest(f.payload, ignored), suffix, max);
    RequestReads(f.payload, ignored);
  }

  function MetadataOf(p: Request): Option<Metadata> {
    if p.PutRequest? || p.LeaseCompleteRequest? then Some(p.metadata) else None
  }

  /** The format ignores bytes exactly when there is metadata without a cost. */
  predicate HasIgnored(p: Request) {
    MetadataOf(p).Some? && MetadataOf(p).value.cost.None?
  }

  lemma Around(n: Bytes, b: Bytes, x: Bytes, a: Bytes, v: Bytes)
    ensures n + ((b + (x + a)) + v) == (n + b) + (x + (a + v))
  {
    Assoc(b, x + a, v);
    Assoc(x, a, v);
    Assoc(n, b, x + (a + v));
  }

  lemma IgnoredInMetadata(m: Metadata, x: Ignored)
    requires m.cost.None?
    ensures EncodeMetadata(m, x) ==
            ((BE(8, OrZero(m.ttl)) + BE(8, OrZero(m.staleTtl))) + Flag(false))
            + (x + (BE(2, |m.tags|) + (EncodeBlobs(m.tags) + ContentField(m.contentType))))
  {
    var tail := x + (BE(2, |m.tags|) + (EncodeBlobs(m.tags) + ContentField(m.contentType)));
    Assoc(BE(8, OrZero(m.ttl)) + BE(8, OrZero(m.staleTtl)), Flag(false), tail);
    Assoc(BE(8, OrZero(m.ttl)), BE(8, OrZero(m.staleTtl)), Flag(false) + tail);
  }

  /** What precedes the metadata of a request that has one. */
  function BeforeMetadata(p: Request): Bytes
    requires MetadataOf(p).Some?
  {
    if p.PutRequest? then Blob(p.ns) + Blob(p.key) else (Blob(p.ns) + Blob(p.key)) + Blob(p.token)
  }

  lemma MetadataInRequest(p: Request, x: Ignored)
    requires MetadataOf(p).Some?
    ensures EncodeRequest(p, x) == BeforeMetadata(p) + (EncodeMetadata(p.metadata, x) + Blob(p.value))
  {
    var tail := EncodeMetadata(p.metadata, x) + Blob(p.value);
    if p.PutRequest? {
      Assoc(Blob(p.ns), Blob(p.key), tail);
    } else {
      Assoc(Blob(p.ns) + Blob(p.key), Blob(p.token), tail);
      Assoc(Blob(p.ns), Blob(p.key), Blob(p.token) + tail);
    }
  }

  /** Everything but the ignored bytes is fixed by the request. */
  lemma IgnoredPosition(p: Request) returns (before: Bytes, after: Bytes)
    requires HasIgnored(p)
    ensures forall x: Ignored :: EncodeRequest(p, x) == before + (x + after)
  {
    var m := p.metadata;
    var lead := (BE(8, OrZero(m.ttl)) + BE(8, OrZero(m.staleTtl))) + Flag(false);
    var tail := BE(2, |m.tags|) + (EncodeBlobs(m.tags) + ContentField(m.contentType));
    before, after := BeforeMetadata(p) + lead, tail + Blob(p.value);
    forall x: Ignored
      ensures EncodeRequest(p, x) == before + (x + after)
    {
      hide EncodeRequest, EncodeMetadata, Blob;
      MetadataInRequest(p, x);
      IgnoredInMetadata(m, x);
      Around(BeforeMetadata(p), lead, x, tail, Blob(p.value));
    }
  }

  /** An accepted request is well-formed, and its bytes are its encoding but for the ignored ones. */
  lemma RequestReencodes(input: Bytes, max: nat) returns (ignored: Ignored)
    requires DecodeRequestFrame(input, max).Ok?
    ensures var f := DecodeRequestFrame(input, max).value;
            && GoodRequestFrame(f, max)
            && EncodeRequestFrame(f, ignored) <= input
            && (!HasIgnored(f.payload) ==> EncodeRequestFrame(f, ZEROS) <= input)
  {
    FrameAccepted(input, max, KIND_REQUEST);
    var (header, c, payload) := OpenFrame(input, max, KIND_REQUEST).value;
    ignored := RequestAccepted(c, payload);
    hide HasIgnored, EncodeRequest, OpenFrame, DecodeRequestPayload, EncodeFrame;
    var p := DecodeRequestFrame(input, max).value.payload;
    EncodedLength(p, ignored, ZEROS);
  }

  lemma ResponseRoundTrip(f: ResponseFrame, suffix: Bytes, max: nat)
    requires GoodResponseFrame(f, max)
    ensures DecodeResponseFrame(EncodeResponseFrame(f) + suffix, max) == Ok(f)
  {
    FrameOpens(KIND_RESPONSE, f.command, f.requestId, EncodeResponse(f.payload), suffix, max);
    ResponseReads(f.command, f.payload);
  }

  lemma ResponseReencodes(input: Bytes, max: nat)
    requires DecodeResponseFrame(input, max).Ok?
    ensures var f := DecodeResponseFrame(input, max).value;
            && GoodResponseFrame(f, max)
            && EncodeResponseFrame(f) <= input
  {
    FrameAccepted(input, max, KIND_RESPONSE);
    var (header, c, payload) := OpenFrame(input, max, KIND_RESPONSE).value;
    ResponseAccepted(c, payload);
  }

  /**
    A request survives the trip exactly when it is well-formed: a lifetime of zero,
    too many tags, an empty batch or a field too long for its length does not.
   */
  lemma RequestRoundTripIff(f: RequestFrame, ignored: Ignored, suffix: Bytes, max: nat)
    ensures DecodeRequestFrame(EncodeRequestFrame(f, ignored) + suffix, max) == Ok(f) <==> GoodRequestFrame(f, max)
  {
    hide DecodeRequestFrame, EncodeRequestFrame, GoodRequestFrame;
    var bytes := EncodeRequestFrame(f, ignored) + suffix;
    if GoodRequestFrame(f, max) {
      RequestRoundTrip(f, ignored, suffix, max);
    } else if DecodeRequestFrame(bytes, max).Ok? {
      var unread := RequestReencodes(bytes, max);
    }
  }

  /** And so does a response. */
  lemma ResponseRoundTripIff(f: ResponseFrame, suffix: Bytes, max: nat)
    ensures DecodeResponseFrame(EncodeResponseFrame(f) + suffix, max) == Ok(f) <==> GoodResponseFrame(f, max)
  {
    hide DecodeResponseFrame, EncodeResponseFrame, GoodResponseFrame;
    var bytes := EncodeResponseFrame(f) + suffix;
    if GoodResponseFrame(f, max) {
      ResponseRoundTrip(f, suffix, max);
    } else if DecodeResponseFrame(bytes, max).Ok? {
      ResponseReencodes(bytes, max);
    }
  }
}
