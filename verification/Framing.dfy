/**
  Cutting a byte stream into native frames: the buffer that grows with every
  read, the scan that finds all complete frames in it, and what reaches the
  connection however the reads split the stream.
 */
module Framing {
  import opened Base
  import opened Wire
  import opened Codec

  datatype Range = Range(start: nat, end: nat)

  datatype Drain = Frames(ranges: seq<Range>) | NeedMore | Close

  // ----- A parser that takes one frame at a time off a whole stream -----

  function DeclaredLength(s: Bytes): nat
    requires |s| >= HEADER_LEN
  {
    FromBE(s[16..20])
  }

  function FrameLength(s: Bytes): nat
    requires |s| >= HEADER_LEN
  {
    HEADER_LEN + DeclaredLength(s)
  }

  predicate Oversize(s: Bytes, max: nat) {
    |s| >= HEADER_LEN && DeclaredLength(s) > max
  }

  predicate HasFrame(s: Bytes, max: nat) {
    |s| >= HEADER_LEN && DeclaredLength(s) <= max && FrameLength(s) <= |s|
  }

  predicate IsFrame(s: Bytes, max: nat) {
    HasFrame(s, max) && FrameLength(s) == |s|
  }

  /** The complete frames at the front; what follows them; whether a header with a forbidden length follows them. */
  datatype Parsed = Parsed(frames: seq<Bytes>, rest: Bytes, oversize: bool)

  function ParseAll(s: Bytes, max: nat): Parsed
    decreases |s|
  {
    if HasFrame(s, max) then
      var p := ParseAll(s[FrameLength(s)..], max);
      p.(frames := [s[..FrameLength(s)]] + p.frames)
    else Parsed([], s, Oversize(s, max))
  }

  function Concat(parts: seq<Bytes>): Bytes {
    if parts == [] then [] else parts[0] + Concat(parts[1..])
  }

  /** No byte is lost, invented or moved by parsing. */
  lemma {:induction false} ParseConserves(s: Bytes, max: nat)
    ensures Concat(ParseAll(s, max).frames) + ParseAll(s, max).rest == s
    decreases |s|
  {
    hide FromBE;
    if HasFrame(s, max) {
      var n := FrameLength(s);
      ParseConserves(s[n..], max);
      var p := ParseAll(s[n..], max);
      ConcatFront(s[..n], p.frames, p.rest);
      Rejoin(s, n);
    } else {
      assert [] + s == s;
    }
  }

  lemma Rejoin(s: Bytes, n: nat)
    requires n <= |s|
    ensures s[..n] + s[n..] == s
  {
  }

  lemma ConcatFront(first: Bytes, others: seq<Bytes>, rest: Bytes)
    ensures Concat([first] + others) + rest == first + (Concat(others) + rest)
  {
    assert ([first] + others)[1..] == others;
    Assoc(first, Concat(others), rest);
  }

  lemma Extend(s: Bytes, more: Bytes, n: nat)
    requires n <= |s|
    ensures (s + more)[..n] == s[..n] && (s + more)[n..] == s[n..] + more
    ensures |s| >= HEADER_LEN ==> (s + more)[16..20] == s[16..20]
  {
  }

  lemma {:induction false} ParsesFrames(s: Bytes, max: nat)
    ensures forall i :: 0 <= i < |ParseAll(s, max).frames| ==> IsFrame(ParseAll(s, max).frames[i], max)
    decreases |s|
  {
    hide FromBE;
    if HasFrame(s, max) {
      var n := FrameLength(s);
      assert s[..n][16..20] == s[16..20];
      ParsesFrames(s[n..], max);
    }
  }

  /** What stays behind holds no further frame. */
  lemma {:induction false} RestIsSettled(s: Bytes, max: nat)
    ensures var p := ParseAll(s, max); ParseAll(p.rest, max) == Parsed([], p.rest, p.oversize)
    decreases |s|
  {
    if HasFrame(s, max) {
      RestIsSettled(s[FrameLength(s)..], max);
    }
  }

  /** More bytes at the end change nothing that was already decided. */
  lemma {:induction false} ParseMore(s: Bytes, more: Bytes, max: nat)
    ensures var p := ParseAll(s, max);
            var q := ParseAll(p.rest + more, max);
            ParseAll(s + more, max) == Parsed(p.frames + q.frames, q.rest, q.oversize)
    ensures ParseAll(s, max).oversize ==>
              var q := ParseAll(s + more, max); q.oversize && q.frames == ParseAll(s, max).frames
    decreases |s|
  {
    hide FromBE;
    Extend(s, more, 0);
    if HasFrame(s, max) {
      var n := FrameLength(s);
      Extend(s, more, n);
      ParseMore(s[n..], more, max);
      var p := ParseAll(s[n..], max);
      var q := ParseAll(p.rest + more, max);
      assert [s[..n]] + (p.frames + q.frames) == ([s[..n]] + p.frames) + q.frames;
    }
  }

  lemma FrameInFront(f: Bytes, rest: Bytes, max: nat)
    requires IsFrame(f, max)
    ensures var p := ParseAll(rest, max); ParseAll(f + rest, max) == p.(frames := [f] + p.frames)
  {
    hide FromBE;
    assert (f + rest)[16..20] == f[16..20];
    assert (f + rest)[..|f|] == f && (f + rest)[|f|..] == rest;
  }

  /** Frames written one after the other fall apart into the same frames again. */
  lemma {:induction false} ParseConcat(frames: seq<Bytes>, max: nat)
    requires forall i :: 0 <= i < |frames| ==> IsFrame(frames[i], max)
    ensures ParseAll(Concat(frames), max) == Parsed(frames, [], false)
  {
    if frames != [] {
      ParseConcat(frames[1..], max);
      FrameInFront(frames[0], Concat(frames[1..]), max);
      assert frames == [frames[0]] + frames[1..];
    }
  }

  // ----- The scan of one buffer -----

  function RangesOf(frames: seq<Bytes>, start: nat): seq<Range> {
    if frames == [] then []
    else [Range(start, start + |frames[0]|)] + RangesOf(frames[1..], start + |frames[0]|)
  }

  /** A forbidden length closes the connection, complete frames before it or not. */
  function Scan(buffer: Bytes, max: nat): Drain {
    var p := ParseAll(buffer, max);
    if p.oversize then Close else if p.frames == [] then NeedMore else Frames(RangesOf(p.frames, 0))
  }

  lemma {:induction false} RangesAppend(frames: seq<Bytes>, frame: Bytes, start: nat)
    ensures RangesOf(frames + [frame], start) ==
            RangesOf(frames, start) + [Range(start + |Concat(frames)|, start + |Concat(frames)| + |frame|)]
  {
    if frames != [] {
      assert (frames + [frame])[1..] == frames[1..] + [frame];
      RangesAppend(frames[1..], frame, start + |frames[0]|);
    } else {
      assert RangesOf([frame], start)[1..] == [];
    }
  }

  lemma {:induction false} ConcatAppend(parts: seq<Bytes>, part: Bytes)
    ensures Concat(parts + [part]) == Concat(parts) + part
  {
    if parts != [] {
      assert (parts + [part])[1..] == parts[1..] + [part];
      ConcatAppend(parts[1..], part);
      Assoc(parts[0], Concat(parts[1..]), part);
    } else {
      assert [part][1..] == [];
    }
  }

  predicate Within(whole: Bytes, r: Range) {
    r.start <= r.end <= |whole|
  }

  /** The ranges cut `whole` into exactly these frames, and end where the rest begins. */
  predicate Cuts(whole: Bytes, ranges: seq<Range>, frames: seq<Bytes>) {
    && |ranges| == |frames|
    && forall i :: 0 <= i < |ranges| ==> Within(whole, ranges[i]) && whole[ranges[i].start..ranges[i].end] == frames[i]
  }

  lemma {:induction false} RangesCut(whole: Bytes, start: nat, frames: seq<Bytes>)
    requires start <= |whole| && Concat(frames) <= whole[start..]
    ensures var ranges := RangesOf(frames, start);
            Cuts(whole, ranges, frames) && (ranges != [] ==> ranges[|ranges| - 1].end == start + |Concat(frames)|)
    decreases |frames|
  {
    if frames != [] {
      var next := start + |frames[0]|;
      assert whole[start..][..|frames[0]|] == whole[start..next] == frames[0];
      assert whole[start..][|frames[0]|..] == whole[next..];
      assert Concat(frames)[|frames[0]|..] == Concat(frames[1..]);
      RangesCut(whole, next, frames[1..]);
    }
  }

  lemma ScanCuts(buffer: Bytes, max: nat)
    requires Scan(buffer, max).Frames?
    ensures var ranges := Scan(buffer, max).ranges;
            var p := ParseAll(buffer, max);
            && Cuts(buffer, ranges, p.frames)
            && ranges != []
            && 0 < ranges[|ranges| - 1].end <= |buffer|
            && buffer[ranges[|ranges| - 1].end..] == p.rest
  {
    var p := ParseAll(buffer, max);
    ParseConserves(buffer, max);
    ParsesFrames(buffer, max);
    assert buffer[0..] == buffer;
    RangesCut(buffer, 0, p.frames);
    assert IsFrame(p.frames[0], max);
  }

  /** The scan has found `frames` and stands at `offset`. */
  ghost predicate Scanned(buffer: Bytes, max: nat, frames: seq<Bytes>, ranges: seq<Range>, offset: nat) {
    && offset == |Concat(frames)| <= |buffer|
    && ranges == RangesOf(frames, 0)
    && var p := ParseAll(buffer[offset..], max);
       ParseAll(buffer, max) == p.(frames := frames + p.frames)
  }

  lemma ScanOne(buffer: Bytes, max: nat, frames: seq<Bytes>, ranges: seq<Range>, offset: nat)
    requires Scanned(buffer, max, frames, ranges, offset) && HasFrame(buffer[offset..], max)
    ensures var n := FrameLength(buffer[offset..]);
            Scanned(buffer, max, frames + [buffer[offset..][..n]], ranges + [Range(offset, offset + n)], offset + n)
  {
    var tail := buffer[offset..];
    var n := FrameLength(tail);
    RangesAppend(frames, tail[..n], 0);
    ConcatAppend(frames, tail[..n]);
    assert tail[n..] == buffer[offset + n..];
    var p := ParseAll(tail[n..], max);
    assert frames + ([tail[..n]] + p.frames) == frames + [tail[..n]] + p.frames;
  }

  lemma DeclaredAt(buffer: Bytes, offset: nat)
    requires offset + HEADER_LEN <= |buffer|
    ensures DeclaredLength(buffer[offset..]) == FromBE(buffer[offset + 16..offset + 20])
  {
    assert buffer[offset..][16..20] == buffer[offset + 16..offset + 20];
  }

  method FindCompleteFrames(buffer: Bytes, max: nat) returns (d: Drain)
    ensures d == Scan(buffer, max)
  {
    hide FromBE;
    var ranges: seq<Range>, offset := [], 0;
    ghost var frames: seq<Bytes> := [];
    assert buffer[0..] == buffer;
    while |buffer| - offset >= HEADER_LEN
      invariant Scanned(buffer, max, frames, ranges, offset)
      invariant frames == [] <==> ranges == []
    {
      var payloadLen := FromBE(buffer[offset + 16..offset + 20]);
      DeclaredAt(buffer, offset);
      if payloadLen > max {
        return Close;
      }
      var frameLen := HEADER_LEN + payloadLen;
      if |buffer| - offset < frameLen {
        break;
      }
      ScanOne(buffer, max, frames, ranges, offset);
      ranges := ranges + [Range(offset, offset + frameLen)];
      frames := frames + [buffer[offset..][..frameLen]];
      offset := offset + frameLen;
    }
    assert ParseAll(buffer, max).frames == frames;
    d := if ranges == [] then NeedMore else Frames(ranges);
  }

  lemma Shrinks(s: Bytes, max: nat)
    requires ParseAll(s, max).frames != []
    ensures |ParseAll(s, max).rest| < |s|
  {
    ParseConserves(s, max);
    ParsesFrames(s, max);
  }

  // ----- Reading until frames are there -----

  /** What the connection gets out of a stream: one batch per scan that found frames. */
  datatype Delivery = Delivery(batches: seq<seq<Bytes>>, buffer: Bytes, closed: bool)

  /** `incoming` are the non-empty reads still to come; after them the peer has closed its side. */
  function Deliver(buffer: Bytes, incoming: seq<Bytes>, max: nat): Delivery
    decreases |incoming|, |buffer|
  {
    var p := ParseAll(buffer, max);
    if p.oversize then Delivery([], buffer, true)
    else if p.frames != [] then
      Shrinks(buffer, max);
      var d := Deliver(p.rest, incoming, max);
      d.(batches := [p.frames] + d.batches)
    else if incoming == [] then Delivery([], buffer, false)
    else Deliver(buffer + incoming[0], incoming[1..], max)
  }

  function Flatten(batches: seq<seq<Bytes>>): seq<Bytes> {
    if batches == [] then [] else batches[0] + Flatten(batches[1..])
  }

  // ----- However the stream is split -----

  /** A buffer the loop may wait on: nothing to deliver, nothing forbidden. */
  predicate Settled(buffer: Bytes, max: nat) {
    ParseAll(buffer, max) == Parsed([], buffer, false)
  }

  /** One read: the frames it completes are delivered at once, unless a forbidden length shows up with it. */
  lemma DeliverRead(buffer: Bytes, incoming: seq<Bytes>, max: nat)
    requires Settled(buffer, max) && incoming != []
    ensures var p := ParseAll(buffer + incoming[0], max);
            var d := Deliver(buffer, incoming, max);
            if p.oversize then d == Delivery([], buffer + incoming[0], true)
            else
              var later := Deliver(p.rest, incoming[1..], max);
              && Settled(p.rest, max)
              && d == later.(batches := d.batches)
              && Flatten(d.batches) == p.frames + Flatten(later.batches)
  {
    var p := ParseAll(buffer + incoming[0], max);
    RestIsSettled(buffer + incoming[0], max);
    if !p.oversize && p.frames != [] {
      var later := Deliver(p.rest, incoming[1..], max);
      assert ([p.frames] + later.batches)[1..] == later.batches;
    }
  }

  /**
    The frames delivered are those of the one-at-a-time parser run on the whole
    stream, and with the bytes left over they make up the stream again.  If a
    forbidden length occurs, the connection closes, having delivered only frames
    that come before it.
   */
  lemma {:induction false} SplitIndependent(buffer: Bytes, incoming: seq<Bytes>, max: nat)
    requires Settled(buffer, max)
    ensures var d := Deliver(buffer, incoming, max);
            var whole := ParseAll(buffer + Concat(incoming), max);
            && d.closed == whole.oversize
            && Flatten(d.batches) <= whole.frames
            && (!whole.oversize ==> Flatten(d.batches) == whole.frames && d.buffer == whole.rest)
    decreases |incoming|
  {
    if incoming == [] {
      assert buffer + [] == buffer;
    } else {
      var s := buffer + incoming[0];
      var p, more := ParseAll(s, max), Concat(incoming[1..]);
      Assoc(buffer, incoming[0], more);
      ParseMore(s, more, max);
      DeliverRead(buffer, incoming, max);
      if !p.oversize {
        SplitIndependent(p.rest, incoming[1..], max);
      }
    }
  }

  /** Two ways to split the same stream give the same frames, in the same order. */
  lemma SplitsAgree(a: seq<Bytes>, b: seq<Bytes>, max: nat)
    requires Concat(a) == Concat(b) && !ParseAll(Concat(a), max).oversize
    ensures var d, e := Deliver([], a, max), Deliver([], b, max);
            && Flatten(d.batches) == Flatten(e.batches)
            && d.buffer == e.buffer && !d.closed && !e.closed
            && Concat(Flatten(d.batches)) + d.buffer == Concat(a)
  {
    assert [] + Concat(a) == Concat(a);
    SplitIndependent([], a, max);
    SplitIndependent([], b, max);
    ParseConserves(Concat(a), max);
  }

  /** The bytes received with the first `k` reads. */
  function Received(incoming: seq<Bytes>, k: nat): Bytes
    requires k <= |incoming|
  {
    Concat(incoming[..k])
  }

  lemma ReceivedShift(incoming: seq<Bytes>, k: nat)
    requires 0 < k <= |incoming|
    ensures Received(incoming, k) == incoming[0] + Received(incoming[1..], k - 1)
  {
    assert incoming[..k][1..] == incoming[1..][..k - 1];
  }

  /** Exactly what is delivered: the frames complete in the last buffer that shows no forbidden length. */
  lemma {:induction false} DeliveredUpTo(buffer: Bytes, incoming: seq<Bytes>, max: nat, k: nat)
    requires Settled(buffer, max) && k <= |incoming|
    requires !ParseAll(buffer + Received(incoming, k), max).oversize
    requires k < |incoming| ==> ParseAll(buffer + Received(incoming, k + 1), max).oversize
    ensures Flatten(Deliver(buffer, incoming, max).batches) == ParseAll(buffer + Received(incoming, k), max).frames
    decreases |incoming|
  {
    if incoming == [] {
      assert buffer + [] == buffer;
    } else {
      var s := buffer + incoming[0];
      var p := ParseAll(s, max);
      DeliverRead(buffer, incoming, max);
      if k == 0 {
        assert buffer + [] == buffer;
        assert incoming[..1][1..] == [] && Received(incoming, 1) == incoming[0] + [];
        assert incoming[0] + [] == incoming[0];
      } else {
        ReceivedShift(incoming, k);
        Assoc(buffer, incoming[0], Received(incoming[1..], k - 1));
        ParseMore(s, Received(incoming[1..], k - 1), max);
        if k < |incoming| {
          ReceivedShift(incoming, k + 1);
          Assoc(buffer, incoming[0], Received(incoming[1..], k));
          ParseMore(s, Received(incoming[1..], k), max);
        }
        DeliveredUpTo(p.rest, incoming[1..], max, k - 1);
      }
    }
  }

  lemma {:induction false} ConcatSplit(a: seq<Bytes>, b: seq<Bytes>)
    ensures Concat(a + b) == Concat(a) + Concat(b)
  {
    if a == [] {
      assert [] + b == b;
    } else {
      assert (a + b)[1..] == a[1..] + b;
      ConcatSplit(a[1..], b);
      Assoc(a[0], Concat(a[1..]), Concat(b));
    }
  }

  lemma ReceivedGrows(incoming: seq<Bytes>, j: nat, k: nat)
    requires j <= k <= |incoming|
    ensures Received(incoming, j) <= Received(incoming, k)
  {
    assert incoming[..j] + incoming[j..k] == incoming[..k];
    ConcatSplit(incoming[..j], incoming[j..k]);
  }

  /** In a stream with a forbidden length, how much of it must be seen to find the last good frame, and to close. */
  lemma {:induction false} PrefixParse(s: Bytes, n: nat, max: nat)
    requires ParseAll(s, max).oversize && n <= |s|
    ensures var p := ParseAll(s[..n], max);
            var good := |Concat(ParseAll(s, max).frames)|;
            && (p.oversize <==> n >= good + HEADER_LEN)
            && (p.frames == ParseAll(s, max).frames <==> n >= good)
    decreases |s|
  {
    hide FromBE;
    if n >= HEADER_LEN {
      assert s[..n][16..20] == s[16..20];
    }
    if HasFrame(s, max) {
      var len := FrameLength(s);
      if n >= len {
        assert s[..n][..len] == s[..len] && s[..n][len..] == s[len..][..n - len];
        PrefixParse(s[len..], n - len, max);
        var p, q := ParseAll(s[..n], max), ParseAll(s, max);
        assert p.frames[1..] == ParseAll(s[len..][..n - len], max).frames;
        assert q.frames[1..] == ParseAll(s[len..], max).frames;
      }
    }
  }

  /** The last read before the forbidden length is in view. */
  lemma LastSafeRead(incoming: seq<Bytes>, limit: nat) returns (k: nat)
    requires 0 < limit <= |Concat(incoming)|
    ensures k < |incoming| && |Received(incoming, k)| < limit <= |Received(incoming, k + 1)|
  {
    k := 0;
    while |Received(incoming, k + 1)| < limit
      invariant k < |incoming| && |Received(incoming, k)| < limit
      decreases |incoming| - k
    {
      assert incoming[..|incoming|] == incoming;
      k := k + 1;
    }
  }

  /**
    Closing on a forbidden length throws away complete frames found in the same
    buffer.  Every frame before it is delivered exactly when some read ends
    behind the last of them and before the forbidden header is complete.
   */
  lemma AllDeliveredIff(incoming: seq<Bytes>, max: nat)
    ensures var whole := ParseAll(Concat(incoming), max);
            var good := |Concat(whole.frames)|;
            Flatten(Deliver([], incoming, max).batches) == whole.frames <==>
              || !whole.oversize
              || exists k :: 0 <= k <= |incoming| && good <= |Received(incoming, k)| < good + HEADER_LEN
  {
    var whole := ParseAll(Concat(incoming), max);
    assert [] + Concat(incoming) == Concat(incoming);
    SplitIndependent([], incoming, max);
    if whole.oversize {
      var k := DeliveredSafely(incoming, max);
    }
  }

  /** The reads seen before the close, when there is one. */
  lemma DeliveredSafely(incoming: seq<Bytes>, max: nat) returns (k: nat)
    requires ParseAll(Concat(incoming), max).oversize
    ensures var whole := ParseAll(Concat(incoming), max);
            var good := |Concat(whole.frames)|;
            && k < |incoming| && |Received(incoming, k)| < good + HEADER_LEN
            && (Flatten(Deliver([], incoming, max).batches) == whole.frames <==> |Received(incoming, k)| >= good)
            && forall j :: 0 <= j <= |incoming| && |Received(incoming, j)| < good + HEADER_LEN ==>
                 |Received(incoming, j)| <= |Received(incoming, k)|
  {
    hide ParseAll, Concat, Deliver, Flatten;
    var limit := |Concat(ParseAll(Concat(incoming), max).frames)| + HEADER_LEN;
    SafeRead(incoming, |incoming|, max);
    assert incoming[..|incoming|] == incoming;
    k := LastSafeRead(incoming, limit);
    assert [] + Received(incoming, k) == Received(incoming, k);
    assert [] + Received(incoming, k + 1) == Received(incoming, k + 1);
    SafeRead(incoming, k, max);
    SafeRead(incoming, k + 1, max);
    NothingYet(max);
    DeliveredUpTo([], incoming, max, k);
    forall j | 0 <= j <= |incoming| && |Received(incoming, j)| < limit
      ensures |Received(incoming, j)| <= |Received(incoming, k)|
    {
      ReceivedGrows(incoming, Min(j, k), k);
      ReceivedGrows(incoming, Min(j, k + 1), j);
    }
  }

  lemma NothingYet(max: nat)
    ensures Settled([], max)
  {
  }

  lemma SafeRead(incoming: seq<Bytes>, k: nat, max: nat)
    requires ParseAll(Concat(incoming), max).oversize && k <= |incoming|
    ensures var whole := ParseAll(Concat(incoming), max);
            var good := |Concat(whole.frames)|;
            var p := ParseAll(Received(incoming, k), max);
            && (p.oversize <==> |Received(incoming, k)| >= good + HEADER_LEN)
            && (p.frames == whole.frames <==> |Received(incoming, k)| >= good)
  {
    ReceivedGrows(incoming, k, |incoming|);
    assert incoming[..|incoming|] == incoming;
    assert Concat(incoming)[..|Received(incoming, k)|] == Received(incoming, k);
    PrefixParse(Concat(incoming), |Received(incoming, k)|, max);
  }

  /** One read holding a complete frame and then a forbidden header: the frame is never answered. */
  lemma CloseDropsAFrame()
    ensures exists incoming: seq<Bytes>, max: nat ::
              ParseAll(Concat(incoming), max).frames != [] && Deliver([], incoming, max).batches == []
  {
    var good := Header(KIND_REQUEST, Get, 1, 0);
    var bad := Header(KIND_REQUEST, Get, 2, 1);
    NumberRoundTrip(4, 0);
    NumberRoundTrip(4, 1);
    Widths();
    assert good[16..20] == BE(4, 0) && bad[16..20] == BE(4, 1);
    hide BE, FromBE, Header;
    var s := good + bad;
    assert s[16..20] == good[16..20] && s[24..] == bad;
    assert HasFrame(s, 0) && Oversize(bad, 0);
    assert ParseAll(s, 0).oversize && ParseAll(s, 0).frames == [s[..24]];
    var incoming: seq<Bytes> := [s];
    assert incoming[1..] == [] && Concat(incoming) == s + [] == s;
    assert [] + s == s;
    DeliverRead([], incoming, 0);
  }

  function CutAll(whole: Bytes, ranges: seq<Range>): seq<Bytes>
    requires forall i :: 0 <= i < |ranges| ==> Within(whole, ranges[i])
  {
    seq(|ranges|, i requires 0 <= i < |ranges| && Within(whole, ranges[i]) => whole[ranges[i].start..ranges[i].end])
  }

  lemma DeliverTurn(buffer: Bytes, incoming: seq<Bytes>, max: nat)
    ensures var p, d := ParseAll(buffer, max), Deliver(buffer, incoming, max);
            match Scan(buffer, max)
            case Frames(_) =>
              var later := Deliver(p.rest, incoming, max);
              p.frames != [] && d == later.(batches := [p.frames] + later.batches)
            case Close => d == Delivery([], buffer, true)
            case NeedMore => incoming == [] ==> d == Delivery([], buffer, false)
  {
  }

  class FrameReader {
    var buffer: Bytes
    var incoming: seq<Bytes>

    constructor (incoming: seq<Bytes>)
      ensures buffer == [] && this.incoming == incoming
    {
      buffer := [];
      this.incoming := incoming;
    }

    /** Reads until the buffer holds a complete frame; `None` at the end of the stream or on a forbidden length. */
    method ReadFrameRanges(max: nat) returns (r: Option<seq<Range>>)
      modifies this
      ensures Deliver(old(buffer), old(incoming), max) == Deliver(buffer, incoming, max)
      ensures match Scan(buffer, max)
              case Frames(ranges) => r == Some(ranges)
              case Close => r == None
              case NeedMore => r == None && incoming == []
      ensures |incoming| < |old(incoming)| || (incoming == old(incoming) && buffer == old(buffer))
    {
      while true
        invariant |incoming| < |old(incoming)| || (incoming == old(incoming) && buffer == old(buffer))
        invariant Deliver(old(buffer), old(incoming), max) == Deliver(buffer, incoming, max)
        decreases |incoming|
      {
        var d := FindCompleteFrames(buffer, max);
        match d {
          case Frames(ranges) => return Some(ranges);
          case Close => return None;
          case NeedMore =>
        }
        if incoming == [] {
          return None;
        }
        buffer, incoming := buffer + incoming[0], incoming[1..];
      }
    }

    method DrainFrameRanges(ranges: seq<Range>)
      requires ranges != [] ==> ranges[|ranges| - 1].end <= |buffer|
      modifies this`buffer
      ensures buffer == if ranges == [] then old(buffer) else old(buffer)[ranges[|ranges| - 1].end..]
    {
      if ranges != [] {
        buffer := buffer[ranges[|ranges| - 1].end..];
      }
    }

    /** One turn of the connection loop: the next batch of frames, cut out of the buffer and drained from it. */
    method NextBatch(max: nat) returns (batch: Option<seq<Bytes>>)
      modifies this
      ensures var d := Deliver(old(buffer), old(incoming), max);
              if batch.Some? then
                d == Deliver(buffer, incoming, max).(batches := [batch.value] + Deliver(buffer, incoming, max).batches)
              else d == Delivery([], buffer, Scan(buffer, max).Close?)
      ensures batch.Some? ==>
                && batch.value != []
                && (|incoming| < |old(incoming)| || (incoming == old(incoming) && |buffer| < |old(buffer)|))
    {
      hide ParseAll, Deliver, RangesOf;
      var found := ReadFrameRanges(max);
      DeliverTurn(buffer, incoming, max);
      if found.None? {
        return None;
      }
      var ranges, bytes := found.value, buffer;
      ScanCuts(bytes, max);
      var frames := CutAll(bytes, ranges);
      assert frames == ParseAll(bytes, max).frames;
      DrainFrameRanges(ranges);
      batch := Some(frames);
    }
  }
}
