/**
  Leases over whole runs of one engine: who may hold one, how long it lasts,
  and when a token is accepted.
 */
module Leases {
  import opened Base
  import opened EngineSpec
  import opened EngineRuns

  // ----- Tokens -----

  function DecimalValue(s: Text): int {
    if s == [] then 0 else DecimalValue(s[..|s| - 1]) * 10 + s[|s| - 1] - 48
  }

  lemma LastDigit(s: Text, d: Byte)
    ensures DecimalValue(s + [d]) == DecimalValue(s) * 10 + d - 48
  {
    assert (s + [d])[..|s|] == s;
  }

  lemma {:induction false} DecimalRoundTrip(n: nat)
    ensures DecimalValue(Decimal(n)) == n
  {
    hide DecimalValue;
    var q, r := n / 10, n % 10;
    assert n == 10 * q + r && r < 10;
    if n < 10 {
      assert Decimal(n) == [] + [48 + r];
      LastDigit([], 48 + r);
      NoDigits();
    } else {
      DecimalRoundTrip(q);
      LastDigit(Decimal(q), 48 + r);
      assert Decimal(n) == Decimal(q) + [48 + r];
    }
  }

  lemma NoDigits()
    ensures DecimalValue([]) == 0
  {
  }

  lemma LeaseTokenInjective(m: nat, n: nat)
    requires LeaseToken(m) == LeaseToken(n)
    ensures m == n
  {
    assert LeaseToken(m)[6..] == Decimal(m) && LeaseToken(n)[6..] == Decimal(n);
    DecimalRoundTrip(m);
    DecimalRoundTrip(n);
  }

  // ----- Events -----

  predicate Grants(e: Event, id: EntryId) {
    e.op.Start? && e.op.id == id && e.reply.StartReply? && e.reply.lease.Granted?
  }

  predicate Accepts(e: Event) {
    e.op.Complete? && e.reply.CompleteReply? && e.reply.done != Err(InvalidLeaseToken)
  }

  function GrantedLease(e: Event): Lease
    requires e.op.Start? && Grants(e, e.op.id)
  {
    Lease(e.reply.lease.token, SatAdd(e.now, e.op.leaseTtl))
  }

  /** An entry of `id` existed before the call and is gone or replaced after it. */
  predicate EntryRemoved(v: View, e: Event, v': View, id: EntryId) {
    && id in v.entries
    && (id !in v'.entries || (Written(e).Some? && Written(e).value.id == id))
  }

  /** The three ways a lease that has not run out can end. */
  predicate EndsLease(v: View, e: Event, v': View, id: EntryId) {
    || (Accepts(e) && e.op.cmd.id == id)
    || e.op == Delete(id)
    || EntryRemoved(v, e, v', id)
  }

  /** Call `k` of the run ends the lease on `id` in one of these ways. */
  predicate Ended(vs: seq<View>, es: seq<Event>, k: nat, id: EntryId)
    requires k < |es| < |vs|
  {
    EndsLease(vs[k], es[k], vs[k + 1], id)
  }

  // ----- One step -----

  /** A call changes the lease on `id` only by granting it or by losing it for a listed reason. */
  lemma StepLease(limits: Limits, v: View, e: Event, v': View, id: EntryId)
    requires Step(limits, v, e, v')
    ensures Grants(e, id) ==>
              && id in v'.leases && v'.leases[id] == GrantedLease(e)
              && !LeaseActive(v, id, e.now)
    ensures !Grants(e, id) && id in v'.leases ==> id in v.leases && v'.leases[id] == v.leases[id]
    ensures id in v.leases && id !in v'.leases ==>
              EndsLease(v, e, v', id) || (e.op.Complete? && e.op.cmd.id == id && !LeaseActive(v, id, e.now))
  {
    match e.op {
      case Complete(token, cmd) =>
        var (w, accepted) := ConsumeLease(v, cmd.id, token, e.now);
        if accepted {
          PutLease(limits, w, cmd, e.now, e.reclaimed, e.evicted, InnerPut(e.reply.done), v', id);
        }
      case Put(cmd) =>
        PutLease(limits, v, cmd, e.now, e.reclaimed, e.evicted, e.reply.put, v', id);
      case Start(_, ttl) =>
      case _ =>
    }
  }

  lemma PutLease(limits: Limits, v: View, cmd: PutCommand, now: U64, reclaimed: set<EntryId>, evicted: seq<EntryId>,
                 r: Result<nat, PutError>, v': View, id: EntryId)
    requires PutStep(limits, v, cmd, now, reclaimed, evicted, r, v')
    ensures id in v'.leases ==> id in v.leases && v'.leases[id] == v.leases[id]
    ensures id in v.leases && id !in v'.leases ==>
              id in v.entries && (id !in v'.entries || (r.Ok? && id == cmd.id))
  {
  }

  // ----- Whole runs -----

  /** A granted lease is still held if nothing has ended it and its deadline has not passed. */
  lemma {:induction false} LeaseHeld(limits: Limits, vs: seq<View>, es: seq<Event>, i: nat, j: nat, id: EntryId)
    requires Run(limits, vs, es) && i < j <= |es|
    requires Grants(es[i], id)
    requires forall k :: i < k < j ==> !Ended(vs, es, k, id)
    requires j == i + 1 || es[j - 1].now <= GrantedLease(es[i]).expiresAt
    ensures id in vs[j].leases && vs[j].leases[id] == GrantedLease(es[i])
  {
    hide Step;
    assert Step(limits, vs[j - 1], es[j - 1], vs[j]);
    StepLease(limits, vs[j - 1], es[j - 1], vs[j], id);
    if j > i + 1 {
      assert !Ended(vs, es, j - 1, id);
      LeaseHeld(limits, vs, es, i, j - 1, id);
    }
  }

  /**
    A second grant for a key by the first one's deadline means that in between
    the lease was completed, the key was deleted, or an existing entry of the key
    was removed.
   */
  lemma NoSecondGrant(limits: Limits, vs: seq<View>, es: seq<Event>, i: nat, j: nat, id: EntryId)
    requires Run(limits, vs, es) && i < j < |es|
    requires Grants(es[i], id) && Grants(es[j], id)
    requires es[j].now <= GrantedLease(es[i]).expiresAt
    ensures exists k :: i < k < j && Ended(vs, es, k, id)
  {
    if forall k :: i < k < j ==> !Ended(vs, es, k, id) {
      LeaseHeld(limits, vs, es, i, j, id);
      assert Step(limits, vs[j], es[j], vs[j + 1]);
      StepLease(limits, vs[j], es[j], vs[j + 1], id);
      assert false;
    }
  }

  /** A call that can end, replace or give an entry to a lease on an absent key. */
  predicate Disturbs(e: Event, id: EntryId) {
    || (e.op.Put? && e.op.cmd.id == id)
    || (e.op.Complete? && e.op.cmd.id == id)
    || e.op == Delete(id)
    || Grants(e, id)
  }

  /** Gets, reclaim, eviction and invalidation leave a lease on an absent key alone, whatever the time. */
  lemma {:induction false} AbsentKeyLeaseSurvives(limits: Limits, vs: seq<View>, es: seq<Event>, i: nat, j: nat,
                                                  id: EntryId)
    requires Run(limits, vs, es) && i <= j <= |es|
    requires id in vs[i].leases && id !in vs[i].entries
    requires forall k :: i <= k < j ==> !Disturbs(es[k], id)
    ensures id in vs[j].leases && vs[j].leases[id] == vs[i].leases[id]
    ensures id !in vs[j].entries
  {
    if i < j {
      AbsentKeyLeaseSurvives(limits, vs, es, i, j - 1, id);
      AbsentStep(limits, vs[j - 1], es[j - 1], vs[j], id);
    }
  }

  lemma AbsentStep(limits: Limits, v: View, e: Event, v': View, id: EntryId)
    requires Step(limits, v, e, v')
    requires id in v.leases && id !in v.entries && !Disturbs(e, id)
    ensures id in v'.leases && v'.leases[id] == v.leases[id] && id !in v'.entries
  {
    StepFrame(limits, v, e, v');
    StepLease(limits, v, e, v', id);
  }

  // ----- Token acceptance over runs -----

  /** The counter value a grant in state `v` puts into its token. */
  function GrantStamp(v: View, id: EntryId, now: U64): U64 {
    if id in v.entries && StateAt(v.entries[id], now) == Aged then SatAdd(v.nextAccess, 1) else v.nextAccess
  }

  lemma GrantToken(limits: Limits, v: View, e: Event, v': View, id: EntryId)
    requires Step(limits, v, e, v') && Grants(e, id)
    ensures e.reply.lease.token == LeaseToken(GrantStamp(v, id, e.now))
    ensures v'.nextAccess == SatAdd(GrantStamp(v, id, e.now), 1)
  {
  }

  lemma {:induction false} CounterGrows(limits: Limits, vs: seq<View>, es: seq<Event>, i: nat, j: nat)
    requires Run(limits, vs, es) && i <= j <= |es|
    ensures vs[i].nextAccess <= vs[j].nextAccess
  {
    if i < j {
      CounterGrows(limits, vs, es, i, j - 1);
      StepFrame(limits, vs[j - 1], es[j - 1], vs[j]);
    }
  }

  /** Over any run, two grants carry the same token exactly when the first one's carries the last number there is. */
  lemma TokenReissuedIff(limits: Limits, vs: seq<View>, es: seq<Event>, i: nat, j: nat)
    requires Run(limits, vs, es) && i < j < |es|
    requires es[i].op.Start? && Grants(es[i], es[i].op.id)
    requires es[j].op.Start? && Grants(es[j], es[j].op.id)
    ensures es[i].reply.lease.token == es[j].reply.lease.token <==> GrantStamp(vs[i], es[i].op.id, es[i].now) == U64_MAX
    ensures GrantStamp(vs[i], es[i].op.id, es[i].now) == U64_MAX <==> es[i].reply.lease.token == LeaseToken(U64_MAX)
  {
    hide LeaseToken;
    var m := GrantStamp(vs[i], es[i].op.id, es[i].now);
    var n := GrantStamp(vs[j], es[j].op.id, es[j].now);
    assert Step(limits, vs[i], es[i], vs[i + 1]) && Step(limits, vs[j], es[j], vs[j + 1]);
    GrantToken(limits, vs[i], es[i], vs[i + 1], es[i].op.id);
    GrantToken(limits, vs[j], es[j], vs[j + 1], es[j].op.id);
    CounterGrows(limits, vs, es, i + 1, j);
    if LeaseToken(m) == LeaseToken(n) {
      LeaseTokenInjective(m, n);
    }
    if LeaseToken(m) == LeaseToken(U64_MAX) {
      LeaseTokenInjective(m, U64_MAX);
    }
  }

  /** So no token is issued twice, on any key, except the one with the last number. */
  lemma TokensNeverReissued(limits: Limits, vs: seq<View>, es: seq<Event>, i: nat, j: nat)
    requires Run(limits, vs, es) && i < j < |es|
    requires es[i].op.Start? && Grants(es[i], es[i].op.id)
    requires es[j].op.Start? && Grants(es[j], es[j].op.id)
    ensures es[i].reply.lease.token == es[j].reply.lease.token ==> es[i].reply.lease.token == LeaseToken(U64_MAX)
  {
    hide LeaseToken, GrantStamp;
    TokenReissuedIff(limits, vs, es, i, j);
  }

  // ----- A run that reaches the last number -----

  lemma OneMore(limits: Limits, vs: seq<View>, es: seq<Event>, e: Event, v: View)
    requires Run(limits, vs, es) && Step(limits, vs[|es|], e, v)
    requires forall i :: 0 <= i < |es| ==> es[i].now <= e.now
    ensures Run(limits, vs + [v], es + [e])
  {
    hide Step;
    var more, all := vs + [v], es + [e];
    forall i | 0 <= i < |all|
      ensures Step(limits, more[i], all[i], more[i + 1])
    {
      assert i < |es| ==> more[i] == vs[i] && more[i + 1] == vs[i + 1] && all[i] == es[i];
    }
  }

  /** A round on an empty engine: a lease is granted and its key deleted; only the counter has moved. */
  lemma Round(limits: Limits, vs: seq<View>, es: seq<Event>, id: EntryId, n: U64) returns (ws: seq<View>,
              fs: seq<Event>)
    requires Run(limits, vs, es) && vs[|es|] == View(map[], map[], n)
    requires forall i :: 0 <= i < |es| ==> es[i].now == 0
    ensures Run(limits, ws, fs) && |fs| == |es| + 2 && es <= fs && ws[|fs|] == View(map[], map[], SatAdd(n, 1))
    ensures forall i :: 0 <= i < |fs| ==> fs[i].now == 0
    ensures Grants(fs[|es|], id) && fs[|es|].reply.lease.token == LeaseToken(n)
  {
    hide Run, LeaseToken;
    RunSize(limits, vs, es);
    var start := Event(Start(id, 0), 0, StartReply(Granted(LeaseToken(n), None)), {}, []);
    var held := View(map[], map[id := Lease(LeaseToken(n), 0)], SatAdd(n, 1));
    var delete := Event(Delete(id), 0, DeleteReply(false), {}, []);
    var after := View(map[], map[], SatAdd(n, 1));
    assert Step(limits, vs[|es|], start, held);
    OneMore(limits, vs, es, start, held);
    assert DeleteView(held, id) == after;
    assert Step(limits, held, delete, after);
    OneMore(limits, vs + [held], es + [start], delete, after);
    ws, fs := vs + [held] + [after], es + [start] + [delete];
  }

  lemma RunSize(limits: Limits, vs: seq<View>, es: seq<Event>)
    requires Run(limits, vs, es)
    ensures |vs| == |es| + 1
  {
  }

  lemma {:induction false} Rounds(limits: Limits, id: EntryId, n: U64) returns (vs: seq<View>, es: seq<Event>)
    ensures Run(limits, vs, es) && |es| == 2 * n && vs[|es|] == View(map[], map[], n)
    ensures forall i :: 0 <= i < |es| ==> es[i].now == 0
  {
    if n == 0 {
      vs, es := [EMPTY], [];
    } else {
      vs, es := Rounds(limits, id, n - 1);
      vs, es := Round(limits, vs, es, id, n - 1);
    }
  }

  /** Tokens do repeat: some run grants a key the same token twice. */
  lemma TokenIssuedTwice(limits: Limits, id: EntryId) returns (vs: seq<View>, es: seq<Event>, i: nat, j: nat)
    ensures Run(limits, vs, es) && i < j < |es|
    ensures Grants(es[i], id) && Grants(es[j], id) && es[i].reply.lease.token == es[j].reply.lease.token
  {
    hide Run, LeaseToken;
    vs, es := Rounds(limits, id, U64_MAX);
    i := |es|;
    vs, es := Round(limits, vs, es, id, U64_MAX);
    j := |es|;
    vs, es := Round(limits, vs, es, id, U64_MAX);
  }

  /** `i` is the grant behind the lease held on `id` in state `j`. */
  predicate GrantBehind(es: seq<Event>, i: nat, j: nat, id: EntryId)
    requires j <= |es|
  {
    && i < j
    && Grants(es[i], id)
    && forall k :: i < k < j ==> !Grants(es[k], id) && !(Accepts(es[k]) && es[k].op.cmd.id == id)
  }

  lemma NoFirstLease(limits: Limits, vs: seq<View>, es: seq<Event>, j: nat, id: EntryId)
    requires Run(limits, vs, es) && j <= |es| && id in vs[j].leases
    ensures j > 0
  {
    hide Step;
  }

  lemma {:induction false} LeaseHasGrant(limits: Limits, vs: seq<View>, es: seq<Event>, j: nat, id: EntryId)
    returns (i: nat)
    requires Run(limits, vs, es) && j <= |es|
    requires id in vs[j].leases
    ensures GrantBehind(es, i, j, id) && GrantedLease(es[i]) == vs[j].leases[id]
  {
    hide Step, GrantedLease;
    NoFirstLease(limits, vs, es, j, id);
    var v, e, v' := vs[j - 1], es[j - 1], vs[j];
    assert Step(limits, v, e, v');
    StepLease(limits, v, e, v', id);
    if Grants(e, id) {
      i := j - 1;
    } else {
      AcceptConsumes(limits, v, e, v', id);
      i := LeaseHasGrant(limits, vs, es, j - 1, id);
    }
  }

  /** An accepted completion leaves no lease on its key, and its token was the active one. */
  lemma AcceptConsumes(limits: Limits, v: View, e: Event, v': View, id: EntryId)
    requires Step(limits, v, e, v')
    ensures Accepts(e) && e.op.cmd.id == id ==>
              && id !in v'.leases
              && LeaseActive(v, id, e.now)
              && v.leases[id].token == e.op.token
  {
    if Accepts(e) && e.op.cmd.id == id {
      var (w, accepted) := ConsumeLease(v, id, e.op.token, e.now);
      assert accepted;
      PutLease(limits, w, e.op.cmd, e.now, e.reclaimed, e.evicted, InnerPut(e.reply.done), v', id);
    }
  }

  /** The grant of an accepted token: on the same key, not past its deadline, not followed by another lease. */
  lemma AcceptedTokenWasGranted(limits: Limits, vs: seq<View>, es: seq<Event>, j: nat) returns (i: nat)
    requires Run(limits, vs, es) && j < |es| && Accepts(es[j])
    ensures GrantBehind(es, i, j, es[j].op.cmd.id)
    ensures es[i].reply.lease.token == es[j].op.token
    ensures es[j].now <= SatAdd(es[i].now, es[i].op.leaseTtl)
  {
    assert Step(limits, vs[j], es[j], vs[j + 1]);
    AcceptConsumes(limits, vs[j], es[j], vs[j + 1], es[j].op.cmd.id);
    i := LeaseHasGrant(limits, vs, es, j, es[j].op.cmd.id);
  }

  /** Over any run each token but the one with the last number is accepted at most once. */
  lemma TokenAcceptedOnce(limits: Limits, vs: seq<View>, es: seq<Event>, j: nat, k: nat)
    requires Run(limits, vs, es) && j < k < |es|
    requires Accepts(es[j]) && Accepts(es[k])
    ensures es[j].op.token == es[k].op.token ==> es[j].op.token == LeaseToken(U64_MAX)
  {
    hide LeaseToken;
    var a := AcceptedTokenWasGranted(limits, vs, es, j);
    var b := AcceptedTokenWasGranted(limits, vs, es, k);
    if a < b {
      TokensNeverReissued(limits, vs, es, a, b);
    } else if b < a {
      TokensNeverReissued(limits, vs, es, b, a);
    }
  }

  /** All live tokens but those with the last number are distinct. */
  lemma LiveTokensDistinct(limits: Limits, vs: seq<View>, es: seq<Event>, j: nat, a: EntryId, b: EntryId)
    requires Run(limits, vs, es) && j <= |es|
    requires a != b && a in vs[j].leases && b in vs[j].leases
    ensures vs[j].leases[a].token == vs[j].leases[b].token ==> vs[j].leases[a].token == LeaseToken(U64_MAX)
  {
    hide LeaseToken;
    var m := LeaseHasGrant(limits, vs, es, j, a);
    var n := LeaseHasGrant(limits, vs, es, j, b);
    if m < n {
      TokensNeverReissued(limits, vs, es, m, n);
    } else if n < m {
      TokensNeverReissued(limits, vs, es, n, m);
    }
  }
}
