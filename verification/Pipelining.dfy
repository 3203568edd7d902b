/**
  The client's side of pipelining: request ids, and the matcher that puts
  responses arriving in any order back into the order of their requests.
 */
module Pipelining {
  import opened Base
  import opened Wire
  import opened Codec

  datatype ClientError =
    | Io
    | Decode(error: DecodeError)
    | Server(code: ErrorCode, message: Text)
    | Unexpected(reason: string)

  datatype Expected = Expected(index: nat, command: Command)

  /** The two slot lists have one place per request. */
  datatype Matcher = Matcher(
    expected: map<U64, Expected>,
    payloads: seq<Option<Response>>,
    errors: seq<Option<(ErrorCode, Text)>>)

  // ----- Request ids -----

  /** The next id, modulo 2^64, but never zero. */
  function NextId(id: U64): U64 {
    var wrapped := (id + 1) % (U64_MAX + 1);
    if wrapped < 1 then 1 else wrapped
  }

  function IdAt(start: U64, k: nat): U64 {
    if k == 0 then start else NextId(IdAt(start, k - 1))
  }

  lemma {:induction false} IdClosedForm(start: U64, k: nat)
    requires start >= 1
    ensures IdAt(start, k) == (start - 1 + k) % U64_MAX + 1
  {
    hide NextId;
    Small(start - 1, U64_MAX);
    if k > 0 {
      IdClosedForm(start, k - 1);
      NextIdIs(IdAt(start, k - 1));
      Successor(start - 1 + (k - 1), U64_MAX);
    }
  }

  lemma NextIdIs(id: U64)
    ensures NextId(id) == if id == U64_MAX then 1 else id + 1
  {
  }

  lemma Small(a: nat, m: nat)
    requires a < m
    ensures a % m == a
  {
  }

  lemma Successor(a: nat, m: nat)
    requires m > 1
    ensures (a + 1) % m == if a % m == m - 1 then 0 else a % m + 1
  {
    var q, r := a / m, a % m;
    if r == m - 1 {
      Remainder(a + 1, m, q + 1, 0);
    } else {
      Remainder(a + 1, m, q, r + 1);
    }
  }

  lemma Remainder(a: int, m: nat, q: int, r: nat)
    requires r < m && a == q * m + r
    ensures a % m == r && a / m == q
  {
    var d := q - a / m;
    assert d * m == a % m - r;
    Multiples(d, m);
  }

  lemma Multiples(d: int, m: nat)
    ensures d >= 1 ==> d * m >= m
    ensures d <= -1 ==> d * m <= 0 - m
  {
  }

  /** Ids are never zero, and two of them clash exactly when they are a multiple of 2^64 - 1 requests apart. */
  lemma IdsClashIff(start: U64, j: nat, k: nat)
    requires start >= 1 && j <= k
    ensures IdAt(start, j) >= 1
    ensures IdAt(start, j) == IdAt(start, k) <==> (k - j) % U64_MAX == 0
  {
    IdClosedForm(start, j);
    IdClosedForm(start, k);
    SameRemainder(start - 1 + j, k - j, U64_MAX);
  }

  lemma SameRemainder(a: nat, d: nat, m: nat)
    requires m > 0
    ensures (a + d) % m == a % m <==> d % m == 0
  {
    var q, e := a / m, d / m;
    assert a == q * m + a % m && d == e * m + d % m;
    if d % m == 0 {
      assert a + d == (q + e) * m + a % m;
      Remainder(a + d, m, q + e, a % m);
    }
    if (a + d) % m == a % m {
      var f := (a + d) / m;
      assert d == (f - q) * m;
      Remainder(d, m, f - q, 0);
    }
  }

  // ----- What a batch expects -----

  function ExpectedFor(start: U64, commands: seq<Command>): map<U64, Expected> {
    if commands == [] then map[]
    else
      var k := |commands| - 1;
      ExpectedFor(start, commands[..k])[IdAt(start, k) := Expected(k, commands[k])]
  }

  function Nones<T>(n: nat): seq<Option<T>> {
    seq(n, _ => None)
  }

  function NewMatcher(start: U64, commands: seq<Command>): Matcher {
    Matcher(ExpectedFor(start, commands), Nones(|commands|), Nones(|commands|))
  }

  /** A client id generator past its start, and a batch too short to use an id twice. */
  predicate GoodBatch(start: U64, commands: seq<Command>) {
    1 <= start && |commands| <= U64_MAX
  }

  lemma {:induction false} ExpectedIsExact(start: U64, commands: seq<Command>)
    requires GoodBatch(start, commands)
    ensures var m := ExpectedFor(start, commands);
            && |m| == |commands|
            && (forall i :: 0 <= i < |commands| ==>
                  IdAt(start, i) in m && m[IdAt(start, i)] == Expected(i, commands[i]))
            && (forall id :: id in m ==> m[id].index < |commands| && IdAt(start, m[id].index) == id)
  {
    hide IdAt;
    if commands != [] {
      var k := |commands| - 1;
      ExpectedIsExact(start, commands[..k]);
      forall i | 0 <= i < k
        ensures IdAt(start, i) != IdAt(start, k)
      {
        IdsDiffer(start, i, k);
      }
    }
  }

  lemma IdsDiffer(start: U64, j: nat, k: nat)
    requires start >= 1 && j < k < U64_MAX
    ensures IdAt(start, j) != IdAt(start, k)
  {
    hide IdAt;
    IdsClashIff(start, j, k);
  }

  // ----- Matching -----

  predicate WellSized(m: Matcher) {
    |m.payloads| == |m.errors| && forall id :: id in m.expected ==> m.expected[id].index < |m.payloads|
  }

  function Push(m: Matcher, r: ResponseFrame): (result: Result<Matcher, ClientError>)
    requires WellSized(m)
    ensures result.Ok? ==> WellSized(result.value)
  {
    if r.requestId !in m.expected then Err(Unexpected("unknown response request id"))
    else
      var e := m.expected[r.requestId];
      var rest := m.expected - {r.requestId};
      if r.command != e.command then Err(Unexpected("response command mismatch"))
      else if r.payload.ErrorResponse? then
        Ok(m.(expected := rest, errors := m.errors[e.index := Some((r.payload.code, r.payload.message))]))
      else Ok(m.(expected := rest, payloads := m.payloads[e.index := Some(r.payload)]))
  }

  function PushAll(m: Matcher, rs: seq<ResponseFrame>): (result: Result<Matcher, ClientError>)
    requires WellSized(m)
    ensures result.Ok? ==> WellSized(result.value)
  {
    if rs == [] then Ok(m)
    else
      var before :- PushAll(m, rs[..|rs| - 1]);
      Push(before, rs[|rs| - 1])
  }

  function FirstSome<T>(slots: seq<Option<T>>): Option<T> {
    if slots == [] then None else if slots[0].Some? then slots[0] else FirstSome(slots[1..])
  }

  function Unwrapped(slots: seq<Option<Response>>): Result<seq<Response>, ClientError> {
    if slots == [] then Ok([])
    else if slots[0].None? then Err(Unexpected("missing pipelined response payload"))
    else
      var others :- Unwrapped(slots[1..]);
      Ok([slots[0].value] + others)
  }

  function Finish(m: Matcher): Result<seq<Response>, ClientError> {
    var error := FirstSome(m.errors);
    if error.Some? then Err(Server(error.value.0, error.value.1)) else Unwrapped(m.payloads)
  }

  // ----- The responses themselves, whatever order they came in -----

  /** Every response answers a request of the batch under its command, and no request is answered twice. */
  predicate Matches(start: U64, commands: seq<Command>, rs: seq<ResponseFrame>) {
    var expected := ExpectedFor(start, commands);
    && (forall r :: r in rs ==> r.requestId in expected && expected[r.requestId].command == r.command)
    && |Ids(rs)| == |rs|
  }

  function Ids(rs: seq<ResponseFrame>): set<U64> {
    set r | r in rs :: r.requestId
  }

  /** The response to a request id. */
  function ResponseFor(rs: seq<ResponseFrame>, id: U64): Option<Response> {
    if rs == [] then None
    else
      var k := |rs| - 1;
      if rs[k].requestId == id then Some(rs[k].payload) else ResponseFor(rs[..k], id)
  }

  function ErrorIn(r: Option<Response>): Option<(ErrorCode, Text)> {
    if r.Some? && r.value.ErrorResponse? then Some((r.value.code, r.value.message)) else None
  }

  function PayloadIn(r: Option<Response>): Option<Response> {
    if r.Some? && !r.value.ErrorResponse? then r else None
  }

  /** The matcher after `rs`: each slot holds what `rs` says for that request. */
  predicate Filled(start: U64, commands: seq<Command>, rs: seq<ResponseFrame>, m: Matcher) {
    && m.expected == ExpectedFor(start, commands) - Ids(rs)
    && |m.payloads| == |m.errors| == |commands|
    && forall i :: 0 <= i < |commands| ==>
         && m.payloads[i] == PayloadIn(ResponseFor(rs, IdAt(start, i)))
         && m.errors[i] == ErrorIn(ResponseFor(rs, IdAt(start, i)))
  }

  lemma IdsGrow(rs: seq<ResponseFrame>, r: ResponseFrame)
    ensures Ids(rs + [r]) == Ids(rs) + {r.requestId}
    ensures |Ids(rs)| <= |rs|
    ensures |Ids(rs + [r])| == |rs| + 1 <==> |Ids(rs)| == |rs| && r.requestId !in Ids(rs)
  {
    IdsBound(rs);
    IdsSplit(rs, r);
  }

  lemma IdsSplit(rs: seq<ResponseFrame>, r: ResponseFrame)
    ensures Ids(rs + [r]) == Ids(rs) + {r.requestId}
  {
    forall id | id in Ids(rs) + {r.requestId}
      ensures id in Ids(rs + [r])
    {
      if id == r.requestId {
        assert (rs + [r])[|rs|] == r;
      } else {
        var x :| x in rs && x.requestId == id;
        assert x in rs + [r];
      }
    }
  }

  lemma {:induction false} IdsBound(rs: seq<ResponseFrame>)
    ensures |Ids(rs)| <= |rs|
  {
    if rs != [] {
      var k := |rs| - 1;
      IdsBound(rs[..k]);
      IdsSplit(rs[..k], rs[k]);
      assert rs == rs[..k] + [rs[k]];
    }
  }

  lemma PushFills(start: U64, commands: seq<Command>, rs: seq<ResponseFrame>, m: Matcher, r: ResponseFrame)
    requires GoodBatch(start, commands) && WellSized(m) && Filled(start, commands, rs, m)
    ensures var expected := ExpectedFor(start, commands);
            Push(m, r).Ok? <==>
              r.requestId in expected && expected[r.requestId].command == r.command && r.requestId !in Ids(rs)
    ensures Push(m, r).Ok? ==> Filled(start, commands, rs + [r], Push(m, r).value)
  {
    hide IdAt, ExpectedFor, ResponseFor, Ids;
    ExpectedIsExact(start, commands);
    if Push(m, r).Ok? {
      IdsSplit(rs, r);
      NotYet(rs, r.requestId);
      var next := Push(m, r).value;
      forall i | 0 <= i < |commands|
        ensures next.payloads[i] == PayloadIn(ResponseFor(rs + [r], IdAt(start, i)))
        ensures next.errors[i] == ErrorIn(ResponseFor(rs + [r], IdAt(start, i)))
      {
        ResponseForMore(rs, r, IdAt(start, i));
      }
    }
  }

  lemma ResponseForMore(rs: seq<ResponseFrame>, r: ResponseFrame, id: U64)
    ensures ResponseFor(rs + [r], id) == if r.requestId == id then Some(r.payload) else ResponseFor(rs, id)
  {
    assert (rs + [r])[..|rs|] == rs;
  }

  lemma {:induction false} NotYet(rs: seq<ResponseFrame>, id: U64)
    ensures ResponseFor(rs, id).None? <==> id !in Ids(rs)
  {
    if rs != [] {
      var k := |rs| - 1;
      NotYet(rs[..k], id);
      IdsSplit(rs[..k], rs[k]);
      assert rs == rs[..k] + [rs[k]];
    }
  }

  lemma NothingArrived(start: U64, commands: seq<Command>)
    requires GoodBatch(start, commands)
    ensures WellSized(NewMatcher(start, commands))
    ensures Filled(start, commands, [], NewMatcher(start, commands)) && Matches(start, commands, [])
  {
    ExpectedIsExact(start, commands);
  }

  /** All pushes are accepted exactly when the responses match the batch, and then the slots hold them. */
  lemma {:induction false} AcceptedIff(start: U64, commands: seq<Command>, rs: seq<ResponseFrame>)
    requires GoodBatch(start, commands)
    ensures WellSized(NewMatcher(start, commands))
    ensures var result := PushAll(NewMatcher(start, commands), rs);
            && (result.Ok? <==> Matches(start, commands, rs))
            && (result.Ok? ==> Filled(start, commands, rs, result.value))
  {
    hide IdAt, ExpectedFor, Filled, Matches, Push, NewMatcher, WellSized;
    NothingArrived(start, commands);
    if rs != [] {
      var k := |rs| - 1;
      var before := rs[..k];
      AcceptedIff(start, commands, before);
      assert rs == before + [rs[k]];
      MatchesLast(start, commands, before, rs[k]);
      var result := PushAll(NewMatcher(start, commands), before);
      if result.Ok? {
        PushFills(start, commands, before, result.value, rs[k]);
      }
    }
  }

  lemma MatchesLast(start: U64, commands: seq<Command>, rs: seq<ResponseFrame>, r: ResponseFrame)
    ensures var expected := ExpectedFor(start, commands);
            Matches(start, commands, rs + [r]) <==>
              && Matches(start, commands, rs) && r.requestId !in Ids(rs)
              && r.requestId in expected && expected[r.requestId].command == r.command
  {
    IdsGrow(rs, r);
    assert (rs + [r])[|rs|] == r;
    assert forall x :: x in rs ==> x in rs + [r];
  }

  // ----- Results in request order -----

  /** The answers in the order of the requests. */
  function InOrder(start: U64, n: nat, rs: seq<ResponseFrame>): seq<Option<Response>> {
    seq(n, i requires 0 <= i < n => ResponseFor(rs, IdAt(start, i)))
  }

  /** The lowest-index failed request decides; with none, all payloads in request order. */
  predicate Delivers(answers: seq<Option<Response>>, result: Result<seq<Response>, ClientError>) {
    && (forall i :: 0 <= i < |answers| ==> answers[i].Some?)
    && match result
       case Ok(payloads) =>
         && |payloads| == |answers|
         && forall i :: 0 <= i < |answers| ==> !payloads[i].ErrorResponse? && answers[i] == Some(payloads[i])
       case Err(Server(code, message)) =>
         exists i :: 0 <= i < |answers| && answers[i] == Some(ErrorResponse(code, message)) && FirstFailure(answers, i)
       case _ => false
  }

  predicate FirstFailure(answers: seq<Option<Response>>, i: nat) {
    forall j :: 0 <= j < Min(i, |answers|) ==> ErrorIn(answers[j]).None?
  }

  lemma {:induction false} FirstSomeIs<T>(slots: seq<Option<T>>) returns (i: nat)
    ensures FirstSome(slots).Some? ==>
              i < |slots| && slots[i] == FirstSome(slots) && forall j :: 0 <= j < i ==> slots[j].None?
    ensures FirstSome(slots).None? ==> forall j :: 0 <= j < |slots| ==> slots[j].None?
  {
    i := 0;
    if slots != [] && slots[0].None? {
      var k := FirstSomeIs(slots[1..]);
      i := k + 1;
      if FirstSome(slots).None? {
        forall j | 0 <= j < |slots|
          ensures slots[j].None?
        {
          assert j > 0 ==> slots[j] == slots[1..][j - 1];
        }
      } else {
        forall j | 0 <= j < i
          ensures slots[j].None?
        {
          assert j > 0 ==> slots[j] == slots[1..][j - 1];
        }
      }
    }
  }

  lemma {:induction false} UnwrappedAll(slots: seq<Option<Response>>)
    requires forall i :: 0 <= i < |slots| ==> slots[i].Some?
    ensures var r := Unwrapped(slots);
            r.Ok? && |r.value| == |slots| && forall i :: 0 <= i < |slots| ==> slots[i] == Some(r.value[i])
  {
    if slots != [] {
      UnwrappedAll(slots[1..]);
    }
  }

  /** Once as many responses as requests are accepted, every request has its answer. */
  lemma NoneMissing(start: U64, commands: seq<Command>, rs: seq<ResponseFrame>)
    requires GoodBatch(start, commands) && Matches(start, commands, rs) && |rs| == |commands|
    ensures forall i :: 0 <= i < |commands| ==> ResponseFor(rs, IdAt(start, i)).Some?
  {
    ExpectedIsExact(start, commands);
    var expected := ExpectedFor(start, commands);
    SubsetCardinality(Ids(rs), expected.Keys);
    forall i | 0 <= i < |commands|
      ensures ResponseFor(rs, IdAt(start, i)).Some?
    {
      NotYet(rs, IdAt(start, i));
    }
  }

  /** The missing-payload error cannot happen: n accepted responses to n requests fill every slot. */
  lemma FinishDelivers(start: U64, commands: seq<Command>, rs: seq<ResponseFrame>)
    requires GoodBatch(start, commands) && Matches(start, commands, rs) && |rs| == |commands|
    ensures WellSized(NewMatcher(start, commands)) && PushAll(NewMatcher(start, commands), rs).Ok?
    ensures Delivers(InOrder(start, |commands|, rs), Finish(PushAll(NewMatcher(start, commands), rs).value))
  {
    AcceptedIff(start, commands, rs);
    NoneMissing(start, commands, rs);
    var m := PushAll(NewMatcher(start, commands), rs).value;
    var answers := InOrder(start, |commands|, rs);
    var k := FirstSomeIs(m.errors);
    if FirstSome(m.errors).Some? {
      assert answers[k] == Some(ErrorResponse(m.errors[k].value.0, m.errors[k].value.1));
      assert FirstFailure(answers, k);
    } else {
      UnwrappedAll(m.payloads);
    }
  }

  /** The order of arrival does not matter: whether all are accepted, and what the batch returns. */
  lemma OrderIrrelevant(start: U64, commands: seq<Command>, a: seq<ResponseFrame>, b: seq<ResponseFrame>)
    requires GoodBatch(start, commands) && multiset(a) == multiset(b) && |a| == |commands|
    ensures WellSized(NewMatcher(start, commands))
    ensures var m := NewMatcher(start, commands);
            && (PushAll(m, a).Ok? <==> PushAll(m, b).Ok?)
            && (PushAll(m, a).Ok? ==> Finish(PushAll(m, a).value) == Finish(PushAll(m, b).value))
  {
    AcceptedIff(start, commands, a);
    AcceptedIff(start, commands, b);
    SameMembers(a, b);
    assert Ids(a) == Ids(b);
    if Matches(start, commands, a) {
      var m := NewMatcher(start, commands);
      var p, q := PushAll(m, a).value, PushAll(m, b).value;
      forall i | 0 <= i < |commands|
        ensures ResponseFor(a, IdAt(start, i)) == ResponseFor(b, IdAt(start, i))
      {
        SameResponse(a, b, IdAt(start, i));
      }
      assert p.payloads == q.payloads && p.errors == q.errors;
    }
  }

  lemma SameMembers<T>(a: seq<T>, b: seq<T>)
    requires multiset(a) == multiset(b)
    ensures |a| == |b|
    ensures forall x :: x in a <==> x in b
  {
    assert |multiset(a)| == |a| && |multiset(b)| == |b|;
    assert forall x :: x in a <==> x in multiset(a);
    assert forall x :: x in b <==> x in multiset(b);
  }

  lemma {:induction false} Unique(rs: seq<ResponseFrame>, r: ResponseFrame)
    requires |Ids(rs)| == |rs| && r in rs
    ensures ResponseFor(rs, r.requestId) == Some(r.payload)
  {
    var k := |rs| - 1;
    assert rs == rs[..k] + [rs[k]];
    IdsGrow(rs[..k], rs[k]);
    if r != rs[k] {
      assert r in rs[..k];
      assert r.requestId in Ids(rs[..k]);
      Unique(rs[..k], r);
    }
  }

  lemma SameResponse(a: seq<ResponseFrame>, b: seq<ResponseFrame>, id: U64)
    requires |Ids(a)| == |a| && |Ids(b)| == |b| && (forall x :: x in a <==> x in b)
    ensures ResponseFor(a, id) == ResponseFor(b, id)
  {
    NotYet(a, id);
    NotYet(b, id);
    if id in Ids(a) {
      var r :| r in a && r.requestId == id;
      Unique(a, r);
      Unique(b, r);
    }
  }
}
