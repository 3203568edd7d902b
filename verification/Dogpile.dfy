/**
  Clients filling one cache key through leases. Each client runs the
  `get_or_set` loop: ask for a lease; return what is cached; with a lease, run
  the factory and complete; otherwise wait and ask again, or give up. The loop
  is cut into one step per server call or factory run, so that any number of
  clients and any other traffic interleave between steps.
 */
module Dogpile {
  import opened Base
  import opened EngineSpec
  import opened EngineRuns
  import opened Leases

  datatype Client<V> =
    | Asking
    | Computing(token: Text, stale: Option<Bytes>)
    | Completing(token: Text, value: V)
    | Returned(value: V)
    | Raised

  datatype Serializer<!V> = Serializer(encode: V -> Bytes, decode: Bytes -> V)

  /** `runs` counts factory executions, `produced` is the latest value one of them returned. */
  datatype World<V> = World(view: View, clients: seq<Client<V>>, runs: nat, produced: Option<V>)

  datatype Action<V> =
    | Ask(c: nat, now: U64, leaseTtl: U64, returnStale: bool, timedOut: bool)
    | Compute(c: nat, result: Option<V>, returnStaleOnError: bool)
    | Finish(c: nat, event: Event)
    | Other(event: Event)

  /** Where the client goes after an answer to its lease request. */
  function Answered<V>(z: Serializer<V>, outcome: LeaseOutcome, returnStale: bool, timedOut: bool): Client<V> {
    match outcome
    case LeaseHit(bytes) => Returned(z.decode(bytes))
    case LeaseStale(bytes) => if returnStale then Returned(z.decode(bytes)) else if timedOut then Raised else Asking
    case Granted(token, stale) => Computing(token, stale)
    case Denied => if timedOut then Raised else Asking
  }

  ghost predicate WorldStep<V>(limits: Limits, z: Serializer<V>, id: EntryId, w: World<V>, a: Action<V>, w': World<V>) {
    match a
    case Ask(c, now, ttl, returnStale, timedOut) =>
      && c < |w.clients| && w.clients[c].Asking?
      && var (v, outcome) := StartLease(w.view, id, ttl, now);
         w' == w.(view := v, clients := w.clients[c := Answered(z, outcome, returnStale, timedOut)])
    case Compute(c, result, onError) =>
      && c < |w.clients| && w.clients[c].Computing?
      && var k := w.clients[c];
         var next :=
           match result
           case Some(x) => Completing(k.token, x)
           case None => if k.stale.Some? && onError then Returned(z.decode(k.stale.value)) else Raised;
         w' == w.(clients := w.clients[c := next], runs := w.runs + 1,
                  produced := if result.Some? then result else w.produced)
    case Finish(c, e) =>
      && c < |w.clients| && w.clients[c].Completing?
      && var k := w.clients[c];
         && e.op.Complete? && e.op.token == k.token && e.op.cmd.id == id && e.op.cmd.value == z.encode(k.value)
         && Step(limits, w.view, e, w'.view)
         && w' == w.(view := w'.view,
                     clients := w.clients[c := if Written(e).Some? then Returned(k.value) else Raised])
    case Other(e) => Step(limits, w.view, e, w'.view) && w' == w.(view := w'.view)
  }

  /**
    What the guarantee rests on: a pending lease has not run out; the completing
    write fits; what was stored is still fresh when asked for; the rest of the
    traffic neither writes, deletes, leases nor loses this key.
   */
  ghost predicate Calm<V>(limits: Limits, id: EntryId, w: World<V>, a: Action<V>, w': World<V>) {
    match a
    case Ask(_, now, _, _, _) =>
      && (id in w.view.leases ==> now <= w.view.leases[id].expiresAt)
      && (id in w.view.entries ==> StateAt(w.view.entries[id], now) == Fresh)
    case Compute(_, _, _) => true
    case Finish(_, e) =>
      && (id in w.view.leases ==> e.now <= w.view.leases[id].expiresAt)
      && (e.op.Complete? ==> Admission(limits, e.op.cmd).Ok?)
    case Other(e) =>
      && (Subject(e.op) == Some(id) ==> e.op.Get?)
      && (id in w.view.entries ==> id in w'.view.entries)
  }

  ghost predicate WorldRun<V>(limits: Limits, z: Serializer<V>, id: EntryId, ws: seq<World<V>>, acts: seq<Action<V>>) {
    && |ws| == |acts| + 1
    && id !in ws[0].view.entries && id !in ws[0].view.leases
    && (forall c :: 0 <= c < |ws[0].clients| ==> ws[0].clients[c].Asking?)
    && ws[0].runs == 0 && ws[0].produced.None?
    && forall k :: 0 <= k < |acts| ==>
         WorldStep(limits, z, id, ws[k], acts[k], ws[k + 1]) && Calm(limits, id, ws[k], acts[k], ws[k + 1])
  }

  // ----- The three phases -----

  /** Nobody has asked successfully yet. */
  ghost predicate Untouched<V>(id: EntryId, w: World<V>) {
    && id !in w.view.entries && id !in w.view.leases && w.runs == 0
    && forall c :: 0 <= c < |w.clients| ==> w.clients[c].Asking? || w.clients[c].Raised?
  }

  predicate Working<V>(k: Client<V>) {
    k.Computing? || k.Completing?
  }

  /** One lease is out; at most one client works under it, and it is the one that runs the factory. */
  ghost predicate Leased<V>(id: EntryId, w: World<V>) {
    && id !in w.view.entries && id in w.view.leases && w.runs <= 1
    && (forall c :: 0 <= c < |w.clients| ==> !w.clients[c].Returned?)
    && (forall c :: 0 <= c < |w.clients| && w.clients[c].Computing? ==>
          w.clients[c].stale.None? && w.runs == 0)
    && (forall c :: 0 <= c < |w.clients| && w.clients[c].Completing? ==>
          w.clients[c].token == w.view.leases[id].token && w.runs == 1 && w.produced == Some(w.clients[c].value))
    && (forall c :: 0 <= c < |w.clients| && w.clients[c].Computing? ==> w.clients[c].token == w.view.leases[id].token)
    && (forall c, d :: 0 <= c < d < |w.clients| ==> !(Working(w.clients[c]) && Working(w.clients[d])))
  }

  /** The value is stored, and it is all anybody returned. */
  ghost predicate Filled<V>(z: Serializer<V>, id: EntryId, w: World<V>) {
    && id in w.view.entries && w.runs == 1 && w.produced.Some?
    && w.view.entries[id].value == z.encode(w.produced.value)
    && (forall c :: 0 <= c < |w.clients| ==> !Working(w.clients[c]))
    && (forall c :: 0 <= c < |w.clients| && w.clients[c].Returned? ==> w.clients[c].value == w.produced.value)
  }

  ghost predicate Phase<V>(z: Serializer<V>, id: EntryId, w: World<V>) {
    Untouched(id, w) || Leased(id, w) || Filled(z, id, w)
  }

  lemma AskKeeps<V>(limits: Limits, z: Serializer<V>, id: EntryId, w: World<V>, a: Action<V>, w': World<V>)
    requires forall x :: z.decode(z.encode(x)) == x
    requires a.Ask? && Phase(z, id, w) && WorldStep(limits, z, id, w, a, w') && Calm(limits, id, w, a, w')
    ensures Phase(z, id, w')
  {
    hide LeaseToken, EntryMemory, Admission;
    if Untouched(id, w) {
      assert Leased(id, w');
    } else if Leased(id, w) {
      assert Leased(id, w');
    } else {
      assert Filled(z, id, w');
    }
  }

  lemma ComputeKeeps<V>(limits: Limits, z: Serializer<V>, id: EntryId, w: World<V>, a: Action<V>, w': World<V>)
    requires a.Compute? && Phase(z, id, w) && WorldStep(limits, z, id, w, a, w')
    ensures Phase(z, id, w')
  {
    assert Leased(id, w');
  }

  /** Under a lease that has not run out, completing with its token stores the value. */
  lemma FinishStores(limits: Limits, v: View, id: EntryId, e: Event, v': View)
    requires Step(limits, v, e, v') && e.op.Complete? && e.op.cmd.id == id
    requires LeaseActive(v, id, e.now) && v.leases[id].token == e.op.token
    requires Admission(limits, e.op.cmd).Ok?
    ensures Written(e) == Some(e.op.cmd)
    ensures id in v'.entries && v'.entries[id].value == e.op.cmd.value
  {
    StepFrame(limits, v, e, v');
  }

  lemma FinishKeeps<V>(limits: Limits, z: Serializer<V>, id: EntryId, w: World<V>, a: Action<V>, w': World<V>)
    requires a.Finish? && Phase(z, id, w) && WorldStep(limits, z, id, w, a, w') && Calm(limits, id, w, a, w')
    ensures Phase(z, id, w')
  {
    FinishStores(limits, w.view, id, a.event, w'.view);
    assert Filled(z, id, w');
  }

  lemma OtherKeeps<V>(limits: Limits, z: Serializer<V>, id: EntryId, w: World<V>, a: Action<V>, w': World<V>)
    requires a.Other? && Phase(z, id, w) && WorldStep(limits, z, id, w, a, w') && Calm(limits, id, w, a, w')
    ensures Phase(z, id, w')
  {
    StepFrame(limits, w.view, a.event, w'.view);
    StepLease(limits, w.view, a.event, w'.view, id);
  }

  /**
    With any number of clients on an absent key, in every calm interleaving, the
    factory runs at most once and every client that returns, returns its value.
   */
  lemma {:induction false} FactoryRunsOnce<V>(limits: Limits, z: Serializer<V>, id: EntryId, ws: seq<World<V>>,
                                              acts: seq<Action<V>>, k: nat)
    requires forall x :: z.decode(z.encode(x)) == x
    requires WorldRun(limits, z, id, ws, acts) && k <= |acts|
    ensures Phase(z, id, ws[k])
    ensures ws[k].runs <= 1
    ensures forall c :: 0 <= c < |ws[k].clients| && ws[k].clients[c].Returned? ==>
              ws[k].produced == Some(ws[k].clients[c].value)
  {
    if k > 0 {
      FactoryRunsOnce(limits, z, id, ws, acts, k - 1);
      var w, a, w' := ws[k - 1], acts[k - 1], ws[k];
      assert WorldStep(limits, z, id, w, a, w') && Calm(limits, id, w, a, w');
      match a {
        case Ask(_, _, _, _, _) => AskKeeps(limits, z, id, w, a, w');
        case Compute(_, _, _) => ComputeKeeps(limits, z, id, w, a, w');
        case Finish(_, _) => FinishKeeps(limits, z, id, w, a, w');
        case Other(_) => OtherKeeps(limits, z, id, w, a, w');
      }
    } else {
      assert Untouched(id, ws[0]);
    }
  }

  /** The deadline is needed: a client that asks one millisecond after it makes the factory run a second time. */
  lemma LateAskRunsTwice<V>(limits: Limits, z: Serializer<V>, id: EntryId, v: View, x: V, y: V, ttl: U64, now: U64)
    returns (ws: seq<World<V>>, acts: seq<Action<V>>)
    requires id !in v.entries && id !in v.leases && SatAdd(now, ttl) < U64_MAX
    ensures |ws| == 5 && |acts| == 4 && ws[0] == World(v, [Asking, Asking], 0, None)
    ensures forall k :: 0 <= k < 4 ==> WorldStep(limits, z, id, ws[k], acts[k], ws[k + 1])
    ensures forall k :: 0 <= k < 4 && k != 2 ==> Calm(limits, id, ws[k], acts[k], ws[k + 1])
    ensures ws[4].runs == 2
  {
    hide LeaseToken;
    var late := SatAdd(now, ttl) + 1;
    var v1 := Grant(v, id, ttl, now);
    var v2 := Grant(v1, id, ttl, late);
    var first, second := LeaseToken(v.nextAccess), LeaseToken(v1.nextAccess);
    ws := [World(v, [Asking, Asking], 0, None),
           World(v1, [Computing(first, None), Asking], 0, None),
           World(v1, [Completing(first, x), Asking], 1, Some(x)),
           World(v2, [Completing(first, x), Computing(second, None)], 1, Some(x)),
           World(v2, [Completing(first, x), Completing(second, y)], 2, Some(y))];
    acts := [Ask(0, now, ttl, true, false), Compute(0, Some(x), true),
             Ask(1, late, ttl, true, false), Compute(1, Some(y), true)];
    assert WorldStep(limits, z, id, ws[0], acts[0], ws[1]);
    assert WorldStep(limits, z, id, ws[1], acts[1], ws[2]);
    assert WorldStep(limits, z, id, ws[2], acts[2], ws[3]);
    assert WorldStep(limits, z, id, ws[3], acts[3], ws[4]);
  }
}
