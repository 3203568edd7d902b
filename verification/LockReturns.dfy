/**
  What a caller may rely on when an invalidation returns. The call takes its
  tag out of the directory, visits the shards it found there and returns; an
  invalidation of the same tag that began earlier may have taken the route away
  and not have come round to visiting the shard.
 */
module LockReturns {
  import opened Base
  import opened EngineSpec
  import opened EngineRuns
  import opened ShardedSpec
  import opened LockMachine

  predicate Holds(s: State, i: nat, id: EntryId, t: TagId) {
    i < |s.shards| && id in s.shards[i].entries && HasTag(id, s.shards[i].entries[id], t)
  }

  lemma HoldsIsPresent(s: State, i: nat, id: EntryId, t: TagId)
    requires Holds(s, i, id, t)
    ensures Present(s, i, t)
  {
    assert id in Tagged(s.shards[i].entries, t);
  }

  /**
    Critical section `o` added the tag, its update landed at step `a`, and from `o` on up to
    state `x` the entry has been in the shard with the tag.
   */
  ghost predicate Settled(ss: seq<State>, acts: seq<Action>, o: nat, a: nat, x: nat, i: nat, id: EntryId, t: TagId) {
    && o < a < x <= |acts| < |ss|
    && Lands(ss, acts, a, i, o) && Said(ss, acts, o, i, t) == Some(true)
    && forall z :: o < z <= x ==> Holds(ss[z], i, id, t)
  }

  // ----- A settled entry can be reached -----

  lemma SaidFalse(ss: seq<State>, acts: seq<Action>, w: nat, i: nat, t: TagId)
    requires Said(ss, acts, w, i, t) == Some(false)
    ensures w + 1 < |ss| && i < |ss[w + 1].shards| && !Present(ss[w + 1], i, t)
  {
  }

  /** No removal of the tag lands while the entry is settled. */
  lemma NoRemovalLands(hash: Hash, limits: Limits, ss: seq<State>, acts: seq<Action>, o: nat, a: nat, x: nat, i: nat,
                       id: EntryId, t: TagId, z: nat)
    requires LockRun(hash, limits, ss, acts) && i < |ss[0].shards|
    requires Settled(ss, acts, o, a, x, i, id, t) && Ordered(ss[a], acts[a]) && a < z < x
    ensures Landed(ss, acts, z, i, t) != Some(false)
  {
    hide LockRun, Said, Ordered, Fits, Holds, Present;
    if Landed(ss, acts, z, i, t) == Some(false) {
      var w := Origins(ss, acts, z, i)[acts[z].k];
      OriginsBelow(ss, acts, z, i, w);
      if w < o {
        StillWaits(ss, acts, a, z, i, w);
        OriginsFit(hash, limits, ss, acts, a, i);
        OutOfOrder(ss, acts, a, i, t, Origins(ss, acts, a, i), w, o);
      } else if o < w {
        HoldsIsPresent(ss[w + 1], i, id, t);
        SaidFalse(ss, acts, w, i, t);
      }
    }
  }

  /** In an ordered run the shard of a settled entry is routed, or an invalidation has still to visit it. */
  lemma {:induction false} SettledIsReached(hash: Hash, limits: Limits, ss: seq<State>, acts: seq<Action>, o: nat,
                                            a: nat, x: nat, i: nat, id: EntryId, t: TagId)
    requires LockRun(hash, limits, ss, acts) && i < |ss[0].shards|
    requires Settled(ss, acts, o, a, x, i, id, t) && Ordered(ss[a], acts[a])
    ensures i in Routes(ss[x].directory, t) || InFlight(ss[x], i, t)
  {
    hide LockStep, Ordered, Said, Holds, Landed, Present;
    RouteStep(hash, limits, ss, acts, x - 1, i, t);
    Shape(hash, limits, ss, acts, x);
    if x == a + 1 {
      LandedIs(ss, acts, a, i, o, t);
    } else {
      SettledIsReached(hash, limits, ss, acts, o, a, x - 1, i, id, t);
      NoRemovalLands(hash, limits, ss, acts, o, a, x, i, id, t, x - 1);
      assert LockStep(hash, limits, ss[x - 1], acts[x - 1], ss[x]);
      HoldsIsPresent(ss[x], i, id, t);
      ReachedStep(hash, limits, ss[x - 1], acts[x - 1], ss[x], i, t);
      var landed := Landed(ss, acts, x - 1, i, t);
      assert landed.Some? ==> landed == Some(landed.value) && (landed.value || landed == Some(false));
    }
  }

  lemma LandedIs(ss: seq<State>, acts: seq<Action>, a: nat, i: nat, o: nat, t: TagId)
    requires Lands(ss, acts, a, i, o)
    ensures Landed(ss, acts, a, i, t) == Said(ss, acts, o, i, t) && !acts[a].Begin?
  {
  }

  lemma Awaiting(s: State, i: nat, t: TagId) returns (d: nat)
    requires InFlight(s, i, t)
    ensures Awaits(s, d, i, t)
  {
    d :| d in s.flights && s.flights[d].tag == t && i in s.flights[d].left;
  }

  /** An invalidation that takes a route away has the shard on its list, and keeps it there until it visits it. */
  lemma ReachedStep(hash: Hash, limits: Limits, s: State, a: Action, s': State, i: nat, t: TagId)
    requires Wellformed(s) && LockStep(hash, limits, s, a, s') && i < |s'.shards| && Present(s', i, t)
    ensures a.Begin? && a.tag == t && i in Routes(s.directory, t) ==> InFlight(s', i, t)
    ensures InFlight(s, i, t) ==> InFlight(s', i, t)
  {
    hide LockStep, Present;
    if a.Begin? && a.tag == t && i in Routes(s.directory, t) {
      BeginAwaits(hash, limits, s, a, s', i);
    }
    if InFlight(s, i, t) {
      var d := Awaiting(s, i, t);
      FlightStep(hash, limits, s, a, s', d, i, t);
      assert Awaits(s', d, i, t);
    }
  }

  // ----- From the beginning of an invalidation to its return -----

  /** Invalidation `c` of tag `t` begins at step `x` and returns at step `y`. */
  predicate Spans(acts: seq<Action>, x: nat, y: nat, c: nat, t: TagId) {
    && x < y < |acts| && acts[x] == Begin(c, t) && acts[y] == End(c)
    && forall z :: x < z < y ==> acts[z] != End(c)
  }

  predicate Writes(a: Action, id: EntryId) {
    a.Call? && Written(a.e).Some? && Written(a.e).value.id == id
  }

  predicate Unwritten(acts: seq<Action>, x: nat, y: nat, id: EntryId)
    requires y <= |acts|
  {
    forall z :: x <= z < y ==> !Writes(acts[z], id)
  }

  /** Only a write brings an entry in or changes its tags. */
  lemma EntryStep(hash: Hash, limits: Limits, s: State, a: Action, s': State, i: nat, id: EntryId)
    requires Wellformed(s) && LockStep(hash, limits, s, a, s') && !Writes(a, id)
    requires i < |s.shards| == |s'.shards| && id in s'.shards[i].entries
    ensures id in s.shards[i].entries && s'.shards[i].entries[id].tags == s.shards[i].entries[id].tags
  {
    hide Step;
    if a.Call? && a.i == i {
      StepFrame(ShardLimits(limits, |s.shards|), s.shards[i], a.e, s'.shards[i]);
    }
  }

  /** So an entry that has not been written since was there all along. */
  lemma {:induction false} WasThere(hash: Hash, limits: Limits, ss: seq<State>, acts: seq<Action>, z: nat, k: nat,
                                    i: nat, id: EntryId)
    requires LockRun(hash, limits, ss, acts) && z <= k <= |acts| && i < |ss[0].shards| && Unwritten(acts, z, k, id)
    requires i < |ss[k].shards| && id in ss[k].shards[i].entries
    ensures i < |ss[z].shards| && id in ss[z].shards[i].entries
    ensures ss[k].shards[i].entries[id].tags == ss[z].shards[i].entries[id].tags
    decreases k
  {
    hide LockStep;
    if z < k {
      Shape(hash, limits, ss, acts, k);
      Shape(hash, limits, ss, acts, k - 1);
      assert LockStep(hash, limits, ss[k - 1], acts[k - 1], ss[k]);
      EntryStep(hash, limits, ss[k - 1], acts[k - 1], ss[k], i, id);
      WasThere(hash, limits, ss, acts, z, k - 1, i, id);
    }
  }

  lemma HeldAllAlong(hash: Hash, limits: Limits, ss: seq<State>, acts: seq<Action>, x: nat, z: nat, y: nat, i: nat,
                     id: EntryId, t: TagId)
    requires LockRun(hash, limits, ss, acts) && x <= z <= y <= |acts| && Unwritten(acts, x, y, id)
    requires Holds(ss[x], i, id, t) && i < |ss[0].shards| && i < |ss[y].shards| && id in ss[y].shards[i].entries
    ensures Holds(ss[z], i, id, t)
  {
    hide LockRun;
    WasThere(hash, limits, ss, acts, z, y, i, id);
    WasThere(hash, limits, ss, acts, x, y, i, id);
  }

  /** If the shard is on the list of the invalidation, the entry is gone when it returns. */
  lemma ListedIsGone(hash: Hash, limits: Limits, ss: seq<State>, acts: seq<Action>, x: nat, y: nat, c: nat, t: TagId,
                     i: nat, id: EntryId)
    requires LockRun(hash, limits, ss, acts) && Spans(acts, x, y, c, t) && Unwritten(acts, x, y, id)
    requires i < |ss[0].shards| && Holds(ss[x], i, id, t) && i in Routes(ss[x].directory, t)
    ensures i < |ss[y].shards| && id !in ss[y].shards[i].entries
  {
    hide LockStep, Present;
    Shape(hash, limits, ss, acts, y);
    assert LockStep(hash, limits, ss[x], acts[x], ss[x + 1]) && LockStep(hash, limits, ss[y], acts[y], ss[y + 1]);
    BeginAwaits(hash, limits, ss[x], acts[x], ss[x + 1], i);
    EndStep(hash, limits, ss[y], acts[y], ss[y + 1]);
    var z := FlightVisits(hash, limits, ss, acts, x + 1, y + 1, c, i, t);
    if id in ss[y].shards[i].entries {
      var k := if z <= y then z else y;
      HeldAllAlong(hash, limits, ss, acts, x, k, y, i, id, t);
      HoldsIsPresent(ss[k], i, id, t);
      SamePresent(ss[y], ss[y + 1], i, t);
    }
  }

  lemma EndStep(hash: Hash, limits: Limits, s: State, a: Action, s': State)
    requires Wellformed(s) && LockStep(hash, limits, s, a, s') && a.End?
    ensures s'.shards == s.shards && a.c !in s'.flights
  {
  }

  lemma SamePresent(s: State, s': State, i: nat, t: TagId)
    requires s.shards == s'.shards && i < |s.shards|
    ensures Present(s, i, t) == Present(s', i, t)
  {
  }

  // ----- An invalidation that returns early -----

  ghost predicate RealRoutes(s: State) {
    forall t, i :: i in Routes(s.directory, t) ==> i < |s.shards|
  }

  lemma {:induction false} RoutesAreReal(hash: Hash, limits: Limits, ss: seq<State>, acts: seq<Action>, k: nat)
    requires LockRun(hash, limits, ss, acts) && k <= |acts|
    ensures RealRoutes(ss[k])
  {
    hide LockStep;
    if k > 0 {
      RoutesAreReal(hash, limits, ss, acts, k - 1);
      assert LockStep(hash, limits, ss[k - 1], acts[k - 1], ss[k]);
      RoutesStayReal(hash, limits, ss[k - 1], acts[k - 1], ss[k]);
    }
  }

  lemma RoutesStayReal(hash: Hash, limits: Limits, s: State, a: Action, s': State)
    requires Wellformed(s) && LockStep(hash, limits, s, a, s') && RealRoutes(s)
    ensures RealRoutes(s')
  {
    hide Step;
    forall t, i | i in Routes(s'.directory, t)
      ensures i < |s'.shards|
    {
      assert i in Routes(s.directory, t) || (a.Land? && i == a.i);
    }
  }

  ghost predicate Extends(hash: Hash, limits: Limits, ss: seq<State>, acts: seq<Action>, ss': seq<State>,
                          acts': seq<Action>)
  {
    LockRun(hash, limits, ss', acts') && ss <= ss' && acts <= acts'
  }

  lemma OneStepMore(hash: Hash, limits: Limits, ss: seq<State>, acts: seq<Action>, a: Action, s: State)
    requires LockRun(hash, limits, ss, acts) && Wellformed(ss[|acts|]) && LockStep(hash, limits, ss[|acts|], a, s)
    ensures Extends(hash, limits, ss, acts, ss + [s], acts + [a])
  {
    hide LockStep;
    var more, all := ss + [s], acts + [a];
    forall k | 0 <= k < |all|
      ensures Wellformed(more[k]) && LockStep(hash, limits, more[k], all[k], more[k + 1])
    {
      assert k < |acts| ==> more[k] == ss[k] && more[k + 1] == ss[k + 1] && all[k] == acts[k];
    }
  }

  /** A flight may visit all shards on its list at once; the others stay as they are. */
  lemma {:induction false} VisitsAll(hash: Hash, limits: Limits, ss: seq<State>, acts: seq<Action>, c: nat, t: TagId,
                                     left: set<nat>, i: nat)
    returns (ss': seq<State>, acts': seq<Action>)
    requires LockRun(hash, limits, ss, acts) && Wellformed(ss[|acts|]) && i < |ss[|acts|].shards| && i !in left
    requires c in ss[|acts|].flights && ss[|acts|].flights[c] == Flight(t, left)
    requires forall k :: k in left ==> k < |ss[|acts|].shards|
    ensures Extends(hash, limits, ss, acts, ss', acts') && Wellformed(ss'[|acts'|])
    ensures forall z :: |acts| <= z < |acts'| ==> acts'[z].Visit?
    ensures |ss'[|acts'|].shards| == |ss[|acts|].shards| && ss'[|acts'|].shards[i] == ss[|acts|].shards[i]
    ensures c in ss'[|acts'|].flights && ss'[|acts'|].flights[c] == Flight(t, {})
    decreases left
  {
    hide LockRun, InvalidateView;
    LockRunSize(hash, limits, ss, acts);
    if left == {} {
      ss', acts' := ss, acts;
    } else {
      var s := ss[|acts|];
      var k :| k in left;
      var s' := s.(shards := s.shards[k := InvalidateView(s.shards[k], t)],
                   flights := s.flights[c := Flight(t, left - {k})]);
      OneStepMore(hash, limits, ss, acts, Visit(c, k), s');
      ss', acts' := VisitsAll(hash, limits, ss + [s'], acts + [Visit(c, k)], c, t, left - {k}, i);
    }
  }

  lemma LockRunSize(hash: Hash, limits: Limits, ss: seq<State>, acts: seq<Action>)
    requires LockRun(hash, limits, ss, acts)
    ensures |ss| == |acts| + 1
  {
  }

  /** An invalidation may begin and return without the entries of a shard that is not on its list being touched. */
  lemma ReturnsEarly(hash: Hash, limits: Limits, ss: seq<State>, acts: seq<Action>, c: nat, t: TagId, i: nat)
    returns (ss': seq<State>, acts': seq<Action>, y: nat)
    requires LockRun(hash, limits, ss, acts) && c !in ss[|acts|].flights
    requires i < |ss[0].shards| && i !in Routes(ss[|acts|].directory, t)
    ensures Extends(hash, limits, ss, acts, ss', acts') && Spans(acts', |acts|, y, c, t)
    ensures forall z :: |acts| < z < y ==> acts'[z].Visit?
    ensures i < |ss[|acts|].shards| == |ss'[y].shards| && ss'[y].shards[i] == ss[|acts|].shards[i]
  {
    hide LockRun;
    LockRunSize(hash, limits, ss, acts);
    Shape(hash, limits, ss, acts, |acts|);
    RoutesAreReal(hash, limits, ss, acts, |acts|);
    var s := ss[|acts|];
    var list := Routes(s.directory, t);
    var s' := s.(directory := s.directory - {t}, flights := s.flights[c := Flight(t, list)]);
    OneStepMore(hash, limits, ss, acts, Begin(c, t), s');
    var ms, ma := VisitsAll(hash, limits, ss + [s'], acts + [Begin(c, t)], c, t, list, i);
    LockRunSize(hash, limits, ms, ma);
    y := |ma|;
    var m := ms[y];
    OneStepMore(hash, limits, ms, ma, End(c), m.(flights := m.flights - {c}));
    ss', acts' := ms + [m.(flights := m.flights - {c})], ma + [End(c)];
  }

  /** Whatever happens next, once invalidation `c` of `t` has begun now and returned, the entry is gone. */
  ghost predicate GoneOnReturn(hash: Hash, limits: Limits, ss: seq<State>, acts: seq<Action>, c: nat, t: TagId, i: nat,
                               id: EntryId)
  {
    forall ss': seq<State>, acts': seq<Action>, y: nat ::
      Returning(hash, limits, ss, acts, ss', acts', y, c, t, id) && i < |ss'[y].shards| ==>
        id !in ss'[y].shards[i].entries
  }

  /** The run goes on with an invalidation `c` of `t` that returns at step `y`, and no write of `id` meanwhile. */
  ghost predicate Returning(hash: Hash, limits: Limits, ss: seq<State>, acts: seq<Action>, ss': seq<State>,
                            acts': seq<Action>, y: nat, c: nat, t: TagId, id: EntryId)
  {
    && Extends(hash, limits, ss, acts, ss', acts') && y < |ss'|
    && Spans(acts', |acts|, y, c, t) && Unwritten(acts', |acts|, y, id)
  }

  /**
    Exactly when the caller of an invalidation may rely on its return: an entry with the tag that is
    not written meanwhile is gone by then in every continuation if and only if the
    directory had its shard when the call began.  In an ordered run a settled entry
    whose shard it did not have is awaited by an earlier invalidation of the tag.
   */
  lemma ReturnMeansGoneIff(hash: Hash, limits: Limits, ss: seq<State>, acts: seq<Action>, c: nat, t: TagId, i: nat,
                           id: EntryId)
    requires LockRun(hash, limits, ss, acts) && c !in ss[|acts|].flights
    requires i < |ss[0].shards| && Holds(ss[|acts|], i, id, t)
    ensures GoneOnReturn(hash, limits, ss, acts, c, t, i, id) <==> i in Routes(ss[|acts|].directory, t)
    ensures forall o: nat, a: nat :: Settled(ss, acts, o, a, |acts|, i, id, t) && Ordered(ss[a], acts[a]) ==>
              i in Routes(ss[|acts|].directory, t) || InFlight(ss[|acts|], i, t)
  {
    hide LockRun, Ordered, InFlight, Lands, Said;
    LockRunSize(hash, limits, ss, acts);
    var x := |acts|;
    if i in Routes(ss[x].directory, t) {
      forall ss': seq<State>, acts': seq<Action>, y: nat
        | Returning(hash, limits, ss, acts, ss', acts', y, c, t, id) && i < |ss'[y].shards|
        ensures id !in ss'[y].shards[i].entries
      {
        assert ss'[x] == ss[x] && ss'[0] == ss[0];
        ListedIsGone(hash, limits, ss', acts', x, y, c, t, i, id);
      }
    } else {
      var ss', acts', y := ReturnsEarly(hash, limits, ss, acts, c, t, i);
      LockRunSize(hash, limits, ss', acts');
      assert Returning(hash, limits, ss, acts, ss', acts', y, c, t, id);
      assert id in ss'[y].shards[i].entries;
    }
    forall o: nat, a: nat | Settled(ss, acts, o, a, x, i, id, t) && Ordered(ss[a], acts[a])
      ensures i in Routes(ss[x].directory, t) || InFlight(ss[x], i, t)
    {
      SettledIsReached(hash, limits, ss, acts, o, a, x, i, id, t);
    }
  }

  // ----- Within one run -----

  /** Step `z` visits shard `i` for an invalidation of `t`. */
  predicate VisitsFor(ss: seq<State>, acts: seq<Action>, z: nat, i: nat, t: TagId) {
    && z < |acts| < |ss|
    && acts[z].Visit? && acts[z].i == i && acts[z].c in ss[z].flights && ss[z].flights[acts[z].c].tag == t
  }

  /** Between the two steps nothing but a visit for `t` takes the entry away. */
  predicate Spared(ss: seq<State>, acts: seq<Action>, x: nat, y: nat, i: nat, id: EntryId, t: TagId) {
    forall z :: x <= z < y && z + 1 < |ss| && Takes(ss[z], ss[z + 1], i, id) ==> VisitsFor(ss, acts, z, i, t)
  }

  predicate Takes(s: State, s': State, i: nat, id: EntryId) {
    i < |s.shards| && i < |s'.shards| && id in s.shards[i].entries && id !in s'.shards[i].entries
  }

  lemma VisitClears(hash: Hash, limits: Limits, s: State, a: Action, s': State, i: nat, t: TagId)
    requires Wellformed(s) && LockStep(hash, limits, s, a, s')
    requires a.Visit? && a.i == i && a.c in s.flights && s.flights[a.c].tag == t
    ensures i < |s'.shards| && !Present(s', i, t)
  {
    assert Tagged(InvalidateView(s.shards[i], t).entries, t) == {};
  }

  lemma {:induction false} StaysUnvisited(hash: Hash, limits: Limits, ss: seq<State>, acts: seq<Action>, x: nat, k: nat,
                                          i: nat, id: EntryId, t: TagId)
    requires LockRun(hash, limits, ss, acts) && x <= k <= |acts| && i < |ss[0].shards|
    requires Holds(ss[x], i, id, t) && Spared(ss, acts, x, k, i, id, t)
    requires forall z :: x <= z < k ==> !VisitsFor(ss, acts, z, i, t)
    ensures i < |ss[k].shards| && id in ss[k].shards[i].entries
  {
    hide LockStep, VisitsFor;
    Shape(hash, limits, ss, acts, k);
    if x < k {
      Shape(hash, limits, ss, acts, k - 1);
      StaysUnvisited(hash, limits, ss, acts, x, k - 1, i, id, t);
      assert !Takes(ss[k - 1], ss[k], i, id);
    }
  }

  lemma {:induction false} StillAwaited(hash: Hash, limits: Limits, ss: seq<State>, acts: seq<Action>, x: nat, k: nat,
                                        d: nat, i: nat, t: TagId)
    requires LockRun(hash, limits, ss, acts) && x <= k <= |acts| && Awaits(ss[x], d, i, t)
    requires forall z :: x <= z <= k ==> i < |ss[z].shards| && Present(ss[z], i, t)
    ensures Awaits(ss[k], d, i, t)
  {
    hide LockStep, Present;
    if x < k {
      StillAwaited(hash, limits, ss, acts, x, k - 1, d, i, t);
      assert LockStep(hash, limits, ss[k - 1], acts[k - 1], ss[k]);
      FlightStep(hash, limits, ss[k - 1], acts[k - 1], ss[k], d, i, t);
    }
  }

  /** Another invalidation of `t` waited to visit the shard when `c` began, and still does when `c` returns. */
  ghost predicate AwaitedThroughout(ss: seq<State>, x: nat, y: nat, c: nat, i: nat, t: TagId)
    requires x < |ss| && y < |ss|
  {
    exists d: nat :: d != c && Awaits(ss[x], d, i, t) && Awaits(ss[y], d, i, t)
  }

  /**
    In an ordered run, a settled entry that nothing else takes away is still there when the
    invalidation of its tag returns if and only if another invalidation of the tag awaited
    the shard when this one began and still does, and none has visited the shard since.
   */
  lemma SurvivesIff(hash: Hash, limits: Limits, ss: seq<State>, acts: seq<Action>, o: nat, a: nat, x: nat, y: nat,
                    c: nat, t: TagId, i: nat, id: EntryId)
    requires LockRun(hash, limits, ss, acts) && i < |ss[0].shards|
    requires Settled(ss, acts, o, a, x, i, id, t) && Ordered(ss[a], acts[a])
    requires Spans(acts, x, y, c, t) && Unwritten(acts, x, y, id) && Spared(ss, acts, x, y, i, id, t)
    ensures i < |ss[y].shards|
    ensures id in ss[y].shards[i].entries <==>
              && AwaitedThroughout(ss, x, y, c, i, t)
              && forall z :: x <= z < y ==> !VisitsFor(ss, acts, z, i, t)
  {
    hide LockRun, Ordered, Lands, Said, VisitsFor, Present, Spans;
    LockRunSize(hash, limits, ss, acts);
    SpansIn(acts, x, y, c, t);
    Shape(hash, limits, ss, acts, y);
    assert Holds(ss[x], i, id, t);
    if id in ss[y].shards[i].entries {
      SurvivorIsAwaited(hash, limits, ss, acts, o, a, x, y, c, t, i, id);
    } else if forall z :: x <= z < y ==> !VisitsFor(ss, acts, z, i, t) {
      StaysUnvisited(hash, limits, ss, acts, x, y, i, id, t);
    }
  }

  lemma SpansIn(acts: seq<Action>, x: nat, y: nat, c: nat, t: TagId)
    requires Spans(acts, x, y, c, t)
    ensures x < y < |acts|
  {
  }

  lemma SurvivorIsAwaited(hash: Hash, limits: Limits, ss: seq<State>, acts: seq<Action>, o: nat, a: nat, x: nat, y: nat,
                          c: nat, t: TagId, i: nat, id: EntryId)
    requires LockRun(hash, limits, ss, acts) && i < |ss[0].shards|
    requires Settled(ss, acts, o, a, x, i, id, t) && Ordered(ss[a], acts[a])
    requires Spans(acts, x, y, c, t) && Unwritten(acts, x, y, id)
    requires i < |ss[y].shards| && id in ss[y].shards[i].entries
    ensures AwaitedThroughout(ss, x, y, c, i, t)
    ensures forall z :: x <= z < y ==> !VisitsFor(ss, acts, z, i, t)
  {
    hide LockStep, Ordered, Lands, Said, Present, Holds;
    assert Holds(ss[x], i, id, t);
    forall z | x <= z <= y
      ensures i < |ss[z].shards| && Present(ss[z], i, t)
    {
      HeldAllAlong(hash, limits, ss, acts, x, z, y, i, id, t);
      HoldsIsPresent(ss[z], i, id, t);
      Shape(hash, limits, ss, acts, z);
    }
    forall z | x <= z < y
      ensures !VisitsFor(ss, acts, z, i, t)
    {
      assert LockStep(hash, limits, ss[z], acts[z], ss[z + 1]);
      if VisitsFor(ss, acts, z, i, t) {
        VisitClears(hash, limits, ss[z], acts[z], ss[z + 1], i, t);
      }
    }
    if i in Routes(ss[x].directory, t) {
      ListedIsGone(hash, limits, ss, acts, x, y, c, t, i, id);
    }
    SettledIsReached(hash, limits, ss, acts, o, a, x, i, id, t);
    var d := Awaiting(ss[x], i, t);
    assert LockStep(hash, limits, ss[x], acts[x], ss[x + 1]);
    BeginsFresh(hash, limits, ss[x], acts[x], ss[x + 1]);
    StillAwaited(hash, limits, ss, acts, x, y, d, i, t);
  }

  lemma BeginsFresh(hash: Hash, limits: Limits, s: State, a: Action, s': State)
    requires Wellformed(s) && LockStep(hash, limits, s, a, s') && a.Begin?
    ensures a.c !in s.flights
  {
  }

  // ----- A run in which the second invalidation returns first -----

  function Flying(v: View, dir: Directory, flights: map<nat, Flight>): State {
    State([v], dir, [[]], flights)
  }

  lemma FiveSteps(hash: Hash, limits: Limits, ss: seq<State>, acts: seq<Action>)
    requires |ss| == 6 && |acts| == 5 && Initial(ss[0])
    requires Wellformed(ss[1]) && Wellformed(ss[2]) && Wellformed(ss[3]) && Wellformed(ss[4])
    requires LockStep(hash, limits, ss[0], acts[0], ss[1]) && LockStep(hash, limits, ss[1], acts[1], ss[2])
    requires LockStep(hash, limits, ss[2], acts[2], ss[3]) && LockStep(hash, limits, ss[3], acts[3], ss[4])
    requires LockStep(hash, limits, ss[4], acts[4], ss[5])
    ensures LockRun(hash, limits, ss, acts)
  {
    hide LockStep;
  }

  /**
    A tagged write lands; one invalidation of the tag begins, then another, which
    finds no route and returns.  The update landed long before it began, every update
    landed in order, and the entry is still there.
   */
  lemma SecondReturnsFirst(hash: Hash, limits: Limits, cmd: PutCommand, now: U64)
    returns (ss: seq<State>, acts: seq<Action>)
    requires Admission(limits, cmd).Ok? && cmd.tags != []
    ensures LockRun(hash, limits, ss, acts) && |acts| == 5
    ensures forall k :: 0 <= k < 5 ==> Ordered(ss[k], acts[k])
    ensures var t := TagId(cmd.id.ns, cmd.tags[0]);
            Settled(ss, acts, 0, 1, 3, 0, cmd.id, t) && Spans(acts, 3, 4, 2, t) && Holds(ss[4], 0, cmd.id, t)
  {
    hide LockStep, LockRun, EntryMemory, Admission, Step;
    var t := TagId(cmd.id.ns, cmd.tags[0]);
    var tags := TagsOf(cmd.id.ns, cmd.tags);
    var routed := RoutedToZero(tags);
    var add := Update(tags, {});
    var v := Stored(cmd, now, 0);
    var one, two := Flight(t, {0}), Flight(t, {});
    assert t in tags && routed[t] == {0};
    ss := [Lone(EMPTY, map[], []), Lone(v, map[], [] + [add]), Lone(v, routed, []),
           Flying(v, routed - {t}, map[1 := one]),
           Flying(v, routed - {t}, map[1 := one, 2 := two]), Flying(v, routed - {t}, map[1 := one])];
    acts := [Call(0, PutEvent(cmd, now)), Land(0, 0), Begin(1, t), Begin(2, t), End(2)];
    WriteLands(hash, limits, cmd, now, v, tags, routed, add);
    BeginsAre(hash, limits, v, routed, t, one, two);
    FiveSteps(hash, limits, ss, acts);
    PutSays(ss, acts, cmd, now, t);
  }

  lemma WriteLands(hash: Hash, limits: Limits, cmd: PutCommand, now: U64, v: View, tags: set<TagId>, routed: Directory,
                   add: Update)
    requires Admission(limits, cmd).Ok? && tags == TagsOf(cmd.id.ns, cmd.tags) && routed == RoutedToZero(tags)
    requires v == Stored(cmd, now, 0) && add == Update(tags, {})
    ensures LockStep(hash, limits, Lone(EMPTY, map[], []), Call(0, PutEvent(cmd, now)), Lone(v, map[], [] + [add]))
    ensures LockStep(hash, limits, Lone(v, map[], [] + [add]), Land(0, 0), Lone(v, routed, []))
  {
    LonePut(hash, limits, cmd, now, 0, map[], []);
    assert Without([] + [add], 0) == [];
    LoneLand(hash, limits, v, map[], [] + [add], 0, tags, routed);
    hide Step, Admission, Rerouted;
  }

  lemma BeginsAre(hash: Hash, limits: Limits, v: View, routed: Directory, t: TagId, one: Flight, two: Flight)
    requires t in routed && routed[t] == {0} && one == Flight(t, {0}) && two == Flight(t, {})
    ensures LockStep(hash, limits, Lone(v, routed, []), Begin(1, t), Flying(v, routed - {t}, map[1 := one]))
    ensures LockStep(hash, limits, Flying(v, routed - {t}, map[1 := one]), Begin(2, t),
                     Flying(v, routed - {t}, map[1 := one, 2 := two]))
    ensures LockStep(hash, limits, Flying(v, routed - {t}, map[1 := one, 2 := two]), End(2),
                     Flying(v, routed - {t}, map[1 := one]))
  {
    assert routed - {t} - {t} == routed - {t};
    assert map[1 := one][2 := two] - {2} == map[1 := one];
    assert map[1 := one][2 := two] == map[1 := one, 2 := two];
  }

  lemma PutSays(ss: seq<State>, acts: seq<Action>, cmd: PutCommand, now: U64, t: TagId)
    requires |acts| > 1 && |ss| > |acts| && acts[0] == Call(0, PutEvent(cmd, now)) && acts[1] == Land(0, 0)
    requires |ss[0].shards| == 1 && |ss[1].shards| == 1 && t in TagsOf(cmd.id.ns, cmd.tags)
    ensures Said(ss, acts, 0, 0, t) == Some(true) && Lands(ss, acts, 1, 0, 0)
  {
    assert Queues(ss, acts, 0, 0);
    assert Origins(ss, acts, 0, 0) == [];
    assert Origins(ss, acts, 1, 0) == [] + [0];
  }
}
