/**
  The sharded cache at lock granularity. A write or delete holds its shard's
  lock, releases it, and only then takes the directory's lock; an invalidation
  takes the directory's lock first and then visits shard after shard. Calls
  interleave freely between those critical sections.
 */
module LockMachine {
  import opened Base
  import opened EngineSpec
  import opened EngineRuns
  import opened ShardedSpec
  import opened ShardedRuns

  /** A directory update whose shard step is done and which has not landed yet. */
  datatype Update = Update(adds: set<TagId>, drops: set<TagId>)

  /** An invalidation that has taken its tag out of the directory; `left` are the shards still to visit. */
  datatype Flight = Flight(tag: TagId, left: set<nat>)

  datatype State = State(shards: seq<View>, directory: Directory, queues: seq<seq<Update>>, flights: map<nat, Flight>)

  datatype Action =
    | Call(i: nat, e: Event)
    | Land(i: nat, k: nat)
    | Begin(c: nat, tag: TagId)
    | Visit(c: nat, i: nat)
    | End(c: nat)

  function Without<T>(q: seq<T>, k: nat): seq<T>
    requires k < |q|
  {
    q[..k] + q[k + 1..]
  }

  /** What the shard step of call `e` leaves to be done in the directory. */
  function Queued(v: View, e: Event, v': View): seq<Update> {
    if (e.op.Put? || e.op.Delete? || e.op.Complete?)
    then [Update(Adds(e), Drops(v, Subject(e.op).value, v'))]
    else []
  }

  ghost predicate Wellformed(s: State) {
    |s.shards| == |s.queues| > 0
  }

  ghost predicate CallStep(hash: Hash, limits: Limits, s: State, i: nat, e: Event, s': State)
    requires Wellformed(s)
  {
    && i < |s.shards| == |s'.shards| && !e.op.Invalidate?
    && (Subject(e.op).Some? ==> Route(hash, |s.shards|, Subject(e.op).value) == i)
    && Step(ShardLimits(limits, |s.shards|), s.shards[i], e, s'.shards[i])
    && s' == s.(shards := s.shards[i := s'.shards[i]],
                queues := s.queues[i := s.queues[i] + Queued(s.shards[i], e, s'.shards[i])])
  }

  ghost predicate LandStep(s: State, i: nat, k: nat, s': State)
    requires Wellformed(s)
  {
    && i < |s.shards| && k < |s.queues[i]|
    && Rerouted(s.directory, i, s.queues[i][k].adds, s.queues[i][k].drops, s'.directory)
    && s' == s.(directory := s'.directory, queues := s.queues[i := Without(s.queues[i], k)])
  }

  ghost predicate VisitStep(s: State, c: nat, i: nat, s': State)
    requires Wellformed(s)
  {
    && c in s.flights && i < |s.shards| && i in s.flights[c].left
    && var f := s.flights[c];
       s' == s.(shards := s.shards[i := InvalidateView(s.shards[i], f.tag)],
                flights := s.flights[c := f.(left := f.left - {i})])
  }

  ghost predicate LockStep(hash: Hash, limits: Limits, s: State, a: Action, s': State)
    requires Wellformed(s)
  {
    match a
    case Call(i, e) => CallStep(hash, limits, s, i, e, s')
    case Land(i, k) => LandStep(s, i, k, s')
    case Begin(c, t) =>
      && c !in s.flights
      && s' == s.(directory := s.directory - {t}, flights := s.flights[c := Flight(t, Routes(s.directory, t))])
    case Visit(c, i) => VisitStep(s, c, i, s')
    case End(c) => c in s.flights && s.flights[c].left == {} && s' == s.(flights := s.flights - {c})
  }

  // ----- Order of landing -----

  /** What an update does to one tag's route for its shard; additions win over removals. */
  function Effect(u: Update, t: TagId): Option<bool> {
    if t in u.adds then Some(true) else if t in u.drops then Some(false) else None
  }

  predicate Clash(u: Update, w: Update, t: TagId) {
    Effect(u, t).Some? && Effect(w, t).Some? && Effect(u, t) != Effect(w, t)
  }

  /** Update `k` may land now: it overtakes no earlier one that says otherwise about some tag. */
  ghost predicate InOrder(q: seq<Update>, k: nat)
    requires k < |q|
  {
    forall j, t :: 0 <= j < k ==> !Clash(q[j], q[k], t)
  }

  ghost predicate Ordered(s: State, a: Action) {
    a.Land? && a.i < |s.queues| && a.k < |s.queues[a.i]| ==> InOrder(s.queues[a.i], a.k)
  }

  function LastEffect(q: seq<Update>, t: TagId): Option<bool> {
    if q == [] then None
    else if Effect(q[|q| - 1], t).Some? then Effect(q[|q| - 1], t)
    else LastEffect(q[..|q| - 1], t)
  }

  /** Whether a route that is now `routed` will be there once `q` has landed in order. */
  predicate RoutedAfter(routed: bool, q: seq<Update>, t: TagId) {
    var last := LastEffect(q, t);
    if last.Some? then last.value else routed
  }

  // ----- Coverage -----

  predicate InFlight(s: State, i: nat, t: TagId) {
    exists c :: c in s.flights && s.flights[c].tag == t && i in s.flights[c].left
  }

  predicate Present(s: State, i: nat, t: TagId)
    requires i < |s.shards|
  {
    Tagged(s.shards[i].entries, t) != {}
  }

  /** A present tag is routed or about to be, or an invalidation of it has still to visit the shard. */
  predicate CoveredAt(s: State, i: nat, t: TagId)
    requires i < |s.shards| == |s.queues|
  {
    Present(s, i, t) ==> RoutedAfter(i in Routes(s.directory, t), s.queues[i], t) || InFlight(s, i, t)
  }

  ghost predicate Covered(s: State) {
    && Wellformed(s)
    && NoEmptyRoute(s.directory)
    && forall i, t :: 0 <= i < |s.shards| ==> CoveredAt(s, i, t)
  }

  ghost predicate Quiescent(s: State) {
    s.flights == map[] && forall i :: 0 <= i < |s.queues| ==> s.queues[i] == []
  }

  // ----- Every action keeps coverage -----

  lemma {:induction false} LastEffectWitness(q: seq<Update>, t: TagId) returns (j: nat)
    requires LastEffect(q, t).Some?
    ensures j < |q| && Effect(q[j], t) == LastEffect(q, t)
  {
    j := |q| - 1;
    if Effect(q[j], t).None? {
      j := LastEffectWitness(q[..j], t);
    }
  }

  /** Landing in order changes nothing about where a route will end up. */
  lemma {:induction false} LandKeepsOutcome(routed: bool, q: seq<Update>, k: nat, t: TagId)
    requires k < |q| && InOrder(q, k)
    ensures var now := if Effect(q[k], t).Some? then Effect(q[k], t).value else routed;
            RoutedAfter(now, Without(q, k), t) == RoutedAfter(routed, q, t)
  {
    var n := |q| - 1;
    if k == n {
      assert Without(q, k) == q[..n];
      if LastEffect(q[..n], t).Some? {
        var j := LastEffectWitness(q[..n], t);
        assert !Clash(q[j], q[k], t);
      }
    } else {
      assert InOrder(q[..n], k) by {
        forall j, u | 0 <= j < k ensures !Clash(q[..n][j], q[..n][k], u) {
          assert !Clash(q[j], q[k], u);
        }
      }
      LandKeepsOutcome(routed, q[..n], k, t);
      assert Without(q, k)[..n - 1] == Without(q[..n], k);
      assert Without(q, k)[n - 1] == q[n];
    }
  }

  lemma QueuedCovers(limits: Limits, v: View, e: Event, v': View, routed: bool, q: seq<Update>, t: TagId)
    requires Step(limits, v, e, v') && !e.op.Invalidate?
    requires Tagged(v'.entries, t) != {}
    ensures RoutedAfter(routed, q + Queued(v, e, v'), t) || Tagged(v.entries, t) != {}
    ensures RoutedAfter(routed, q, t) ==> RoutedAfter(routed, q + Queued(v, e, v'), t)
  {
    TagsAfter(limits, v, e, v', t);
    var u := Queued(v, e, v');
    if u == [] {
      assert q + u == q;
    } else {
      assert (q + u)[..|q|] == q && (q + u)[|q|] == u[0];
    }
  }

  lemma CallCovers(hash: Hash, limits: Limits, s: State, i: nat, e: Event, s': State)
    requires Covered(s) && CallStep(hash, limits, s, i, e, s')
    ensures Covered(s')
  {
    forall j, t | 0 <= j < |s.shards|
      ensures CoveredAt(s', j, t)
    {
      assert CoveredAt(s, j, t);
      assert InFlight(s', j, t) == InFlight(s, j, t);
      if j == i && Present(s', i, t) {
        QueuedCovers(ShardLimits(limits, |s.shards|), s.shards[i], e, s'.shards[i],
                     i in Routes(s.directory, t), s.queues[i], t);
      }
    }
  }

  lemma LandCovers(s: State, i: nat, k: nat, s': State)
    requires Covered(s) && LandStep(s, i, k, s') && InOrder(s.queues[i], k)
    ensures Covered(s')
  {
    forall j, t | 0 <= j < |s.shards|
      ensures CoveredAt(s', j, t)
    {
      assert CoveredAt(s, j, t);
      assert InFlight(s', j, t) == InFlight(s, j, t);
      if j == i {
        LandKeepsOutcome(i in Routes(s.directory, t), s.queues[i], k, t);
      }
    }
  }

  lemma BeginCovers(s: State, c: nat, u: TagId, s': State)
    requires Covered(s) && c !in s.flights
    requires s' == s.(directory := s.directory - {u}, flights := s.flights[c := Flight(u, Routes(s.directory, u))])
    ensures Covered(s')
  {
    forall j, t | 0 <= j < |s.shards|
      ensures CoveredAt(s', j, t)
    {
      assert CoveredAt(s, j, t);
      if InFlight(s, j, t) {
        var d :| d in s.flights && s.flights[d].tag == t && j in s.flights[d].left;
        assert d in s'.flights && s'.flights[d] == s.flights[d];
      }
      if t == u && j in Routes(s.directory, u) {
        assert c in s'.flights && s'.flights[c].tag == t && j in s'.flights[c].left;
      }
    }
  }

  lemma VisitCovers(s: State, c: nat, i: nat, s': State)
    requires Covered(s) && VisitStep(s, c, i, s')
    ensures Covered(s')
  {
    forall j, t | 0 <= j < |s.shards|
      ensures CoveredAt(s', j, t)
    {
      assert CoveredAt(s, j, t);
      assert Tagged(s'.shards[j].entries, t) <= Tagged(s.shards[j].entries, t);
      if InFlight(s, j, t) && Present(s', j, t) {
        var d :| d in s.flights && s.flights[d].tag == t && j in s.flights[d].left;
        assert d in s'.flights && s'.flights[d].tag == t;
        assert j in s'.flights[d].left;
      }
    }
  }

  lemma EndCovers(s: State, c: nat, s': State)
    requires Covered(s) && c in s.flights && s.flights[c].left == {} && s' == s.(flights := s.flights - {c})
    ensures Covered(s')
  {
    forall j, t | 0 <= j < |s.shards|
      ensures CoveredAt(s', j, t)
    {
      assert CoveredAt(s, j, t);
      if InFlight(s, j, t) {
        var d :| d in s.flights && s.flights[d].tag == t && j in s.flights[d].left;
        assert d in s'.flights && s'.flights[d] == s.flights[d];
      }
    }
  }

  lemma ActionCovers(hash: Hash, limits: Limits, s: State, a: Action, s': State)
    requires Covered(s) && LockStep(hash, limits, s, a, s') && Ordered(s, a)
    ensures Covered(s')
  {
    match a {
      case Call(i, e) => CallCovers(hash, limits, s, i, e, s');
      case Land(i, k) => LandCovers(s, i, k, s');
      case Begin(c, t) => BeginCovers(s, c, t, s');
      case Visit(c, i) => VisitCovers(s, c, i, s');
      case End(c) => EndCovers(s, c, s');
    }
  }

  // ----- Whole runs, any interleaving -----

  ghost predicate Initial(s: State) {
    && Wellformed(s)
    && (forall i :: 0 <= i < |s.shards| ==> s.shards[i] == EMPTY)
    && s.directory == map[]
    && Quiescent(s)
  }

  ghost predicate LockRun(hash: Hash, limits: Limits, ss: seq<State>, acts: seq<Action>) {
    && |ss| == |acts| + 1
    && Initial(ss[0])
    && forall k :: 0 <= k < |acts| ==> Wellformed(ss[k]) && LockStep(hash, limits, ss[k], acts[k], ss[k + 1])
  }

  /** If no update overtakes a clashing one, every tag is covered in every state of every interleaving. */
  lemma {:induction false} TagsAlwaysCovered(hash: Hash, limits: Limits, ss: seq<State>, acts: seq<Action>, k: nat)
    requires LockRun(hash, limits, ss, acts) && k <= |acts|
    requires forall j :: 0 <= j < k ==> Ordered(ss[j], acts[j])
    ensures Covered(ss[k])
  {
    if k > 0 {
      TagsAlwaysCovered(hash, limits, ss, acts, k - 1);
      ActionCovers(hash, limits, ss[k - 1], acts[k - 1], ss[k]);
    }
  }

  /** So once nothing is pending, every shard that holds a tag is routed for it. */
  lemma NothingHiddenAtRest(hash: Hash, limits: Limits, ss: seq<State>, acts: seq<Action>, k: nat, i: nat, t: TagId)
    requires LockRun(hash, limits, ss, acts) && k <= |acts|
    requires forall j :: 0 <= j < k ==> Ordered(ss[j], acts[j])
    requires Quiescent(ss[k]) && i < |ss[k].shards|
    ensures Present(ss[k], i, t) ==> i in Routes(ss[k].directory, t)
  {
    TagsAlwaysCovered(hash, limits, ss, acts, k);
    assert CoveredAt(ss[k], i, t);
  }

  // ----- Without the order -----

  /** The critical section at step `o` left a directory update for shard `i` behind. */
  ghost predicate Queues(ss: seq<State>, acts: seq<Action>, o: nat, i: nat) {
    && o < |acts| < |ss| && i < |ss[o].shards| && i < |ss[o + 1].shards|
    && acts[o].Call? && acts[o].i == i
    && Queued(ss[o].shards[i], acts[o].e, ss[o + 1].shards[i]) != []
  }

  function UpdateOf(ss: seq<State>, acts: seq<Action>, o: nat, i: nat): Update
    requires Queues(ss, acts, o, i)
  {
    Queued(ss[o].shards[i], acts[o].e, ss[o + 1].shards[i])[0]
  }

  /** What the update of critical section `o` says about tag `t` on shard `i`, if there is one and it names the tag. */
  ghost function Said(ss: seq<State>, acts: seq<Action>, o: nat, i: nat, t: TagId): Option<bool> {
    if Queues(ss, acts, o, i) then Effect(UpdateOf(ss, acts, o, i), t) else None
  }

  /** The critical sections whose updates wait in the queue of shard `i` in state `k`, in queue order. */
  ghost function Origins(ss: seq<State>, acts: seq<Action>, k: nat, i: nat): seq<nat>
    requires k <= |acts| < |ss|
  {
    if k == 0 then []
    else
      var before := Origins(ss, acts, k - 1, i);
      if Queues(ss, acts, k - 1, i) then before + [k - 1]
      else if acts[k - 1].Land? && acts[k - 1].i == i && acts[k - 1].k < |before| then Without(before, acts[k - 1].k)
      else before
  }

  /** Step `x` lands the update that critical section `o` left for shard `i`. */
  ghost predicate Lands(ss: seq<State>, acts: seq<Action>, x: nat, i: nat, o: nat) {
    && x < |acts| < |ss|
    && acts[x].Land? && acts[x].i == i
    && var origins := Origins(ss, acts, x, i);
       acts[x].k < |origins| && origins[acts[x].k] == o
  }

  lemma {:induction false} Shape(hash: Hash, limits: Limits, ss: seq<State>, acts: seq<Action>, k: nat)
    requires LockRun(hash, limits, ss, acts) && k <= |acts|
    ensures |ss[k].shards| == |ss[k].queues| == |ss[0].shards| > 0
  {
    hide Step;
    if k > 0 {
      Shape(hash, limits, ss, acts, k - 1);
      assert LockStep(hash, limits, ss[k - 1], acts[k - 1], ss[k]);
    }
  }

  /** The queue holds the updates of these critical sections before step `k`, oldest first. */
  ghost predicate Fits(ss: seq<State>, acts: seq<Action>, k: nat, i: nat, origins: seq<nat>, queue: seq<Update>) {
    && |origins| == |queue|
    && (forall q :: 0 <= q < |origins| ==> FitsAt(ss, acts, k, i, origins[q], queue[q]))
    && (forall p, q :: 0 <= p < q < |origins| ==> origins[p] < origins[q])
  }

  ghost predicate FitsAt(ss: seq<State>, acts: seq<Action>, k: nat, i: nat, o: nat, u: Update) {
    o < k && Queues(ss, acts, o, i) && u == UpdateOf(ss, acts, o, i)
  }

  lemma FitsLonger(ss: seq<State>, acts: seq<Action>, k: nat, i: nat, origins: seq<nat>, queue: seq<Update>)
    requires Fits(ss, acts, k, i, origins, queue)
    ensures Fits(ss, acts, k + 1, i, origins, queue)
    ensures Queues(ss, acts, k, i) ==> Fits(ss, acts, k + 1, i, origins + [k], queue + [UpdateOf(ss, acts, k, i)])
    ensures forall q :: 0 <= q < |queue| ==> Fits(ss, acts, k + 1, i, Without(origins, q), Without(queue, q))
  {
    hide Queues;
    assert forall q :: 0 <= q < |origins| ==> FitsAt(ss, acts, k, i, origins[q], queue[q]);
  }

  /** How one step changes one queue. */
  lemma QueueStep(hash: Hash, limits: Limits, s: State, a: Action, s': State, i: nat)
    requires Wellformed(s) && LockStep(hash, limits, s, a, s') && i < |s.shards|
    ensures Wellformed(s') && |s'.shards| == |s.shards|
    ensures s'.queues[i] ==
            if a.Call? && a.i == i then s.queues[i] + Queued(s.shards[i], a.e, s'.shards[i])
            else if a.Land? && a.i == i && a.k < |s.queues[i]| then Without(s.queues[i], a.k)
            else s.queues[i]
  {
    hide Step, Rerouted;
  }

  lemma {:induction false} OriginsFit(hash: Hash, limits: Limits, ss: seq<State>, acts: seq<Action>, k: nat, i: nat)
    requires LockRun(hash, limits, ss, acts) && k <= |acts| && i < |ss[0].shards|
    ensures i < |ss[k].queues| && Fits(ss, acts, k, i, Origins(ss, acts, k, i), ss[k].queues[i])
  {
    hide LockStep, Queued, Fits;
    Shape(hash, limits, ss, acts, k);
    if k == 0 {
      NothingWaits(ss, acts, i);
    } else {
      OriginsFit(hash, limits, ss, acts, k - 1, i);
      Shape(hash, limits, ss, acts, k - 1);
      assert LockStep(hash, limits, ss[k - 1], acts[k - 1], ss[k]);
      QueueStep(hash, limits, ss[k - 1], acts[k - 1], ss[k], i);
      FitsLonger(ss, acts, k - 1, i, Origins(ss, acts, k - 1, i), ss[k - 1].queues[i]);
      if acts[k - 1].Call? {
        QueuedOne(ss[k - 1].shards[i], acts[k - 1], ss[k].shards[i]);
        assert ss[k - 1].queues[i] + [] == ss[k - 1].queues[i];
      }
      FitsSize(ss, acts, k - 1, i, Origins(ss, acts, k - 1, i), ss[k - 1].queues[i]);
    }
  }

  lemma NothingWaits(ss: seq<State>, acts: seq<Action>, i: nat)
    ensures Fits(ss, acts, 0, i, [], [])
  {
  }

  lemma FitsSize(ss: seq<State>, acts: seq<Action>, k: nat, i: nat, origins: seq<nat>, queue: seq<Update>)
    requires Fits(ss, acts, k, i, origins, queue)
    ensures |origins| == |queue|
  {
  }

  lemma QueuedOne(v: View, a: Action, v': View)
    requires a.Call?
    ensures var u := Queued(v, a.e, v'); u == [] || u == [u[0]]
  {
  }

  /** The last critical section before state `k` whose update names `t` on shard `i`. */
  ghost function LastNaming(ss: seq<State>, acts: seq<Action>, k: nat, i: nat, t: TagId): Option<nat>
    requires k <= |acts| < |ss|
  {
    if k == 0 then None
    else if Said(ss, acts, k - 1, i, t).Some? then Some(k - 1)
    else LastNaming(ss, acts, k - 1, i, t)
  }

  lemma {:induction false} LastNamingIs(ss: seq<State>, acts: seq<Action>, k: nat, i: nat, t: TagId)
    requires k <= |acts| < |ss|
    ensures var n := LastNaming(ss, acts, k, i, t);
            && (n.Some? ==> n.value < k && Said(ss, acts, n.value, i, t).Some?)
            && forall o :: (if n.Some? then n.value + 1 else 0) <= o < k ==> Said(ss, acts, o, i, t).None?
  {
    hide Said;
    if k > 0 {
      LastNamingIs(ss, acts, k - 1, i, t);
    }
  }

  /** How one step changes which tags a shard has. */
  lemma PresentStep(hash: Hash, limits: Limits, s: State, a: Action, s': State, i: nat, t: TagId)
    requires Wellformed(s) && LockStep(hash, limits, s, a, s') && |s'.shards| == |s.shards| && i < |s.shards|
    requires Present(s', i, t)
    ensures a.Call? && a.i == i ==>
              var u := Queued(s.shards[i], a.e, s'.shards[i]);
              if u == [] then Present(s, i, t)
              else Effect(u[0], t) == Some(true) || (Present(s, i, t) && Effect(u[0], t).None?)
    ensures !(a.Call? && a.i == i) ==> Present(s, i, t)
  {
    if a.Call? && a.i == i {
      TagsAfter(ShardLimits(limits, |s.shards|), s.shards[i], a.e, s'.shards[i], t);
    } else if a.Visit? && a.i == i {
      assert Tagged(s'.shards[i].entries, t) <= Tagged(s.shards[i].entries, t);
    }
  }

  /** A tag that is present was added by the last critical section that named it. */
  lemma {:induction false} PresentWasAdded(hash: Hash, limits: Limits, ss: seq<State>, acts: seq<Action>, k: nat,
                                           i: nat, t: TagId)
    requires LockRun(hash, limits, ss, acts) && k <= |acts| && i < |ss[k].shards| && Present(ss[k], i, t)
    ensures var n := LastNaming(ss, acts, k, i, t); n.Some? && Said(ss, acts, n.value, i, t) == Some(true)
  {
    hide LockStep, Effect, Queued;
    Shape(hash, limits, ss, acts, k);
    if k > 0 {
      Shape(hash, limits, ss, acts, k - 1);
      assert LockStep(hash, limits, ss[k - 1], acts[k - 1], ss[k]);
      PresentStep(hash, limits, ss[k - 1], acts[k - 1], ss[k], i, t);
      if Present(ss[k - 1], i, t) {
        PresentWasAdded(hash, limits, ss, acts, k - 1, i, t);
      }
    }
  }

  /** A tag absent at `x` and present at `k` was added by a critical section in between. */
  lemma {:induction false} AddedSince(hash: Hash, limits: Limits, ss: seq<State>, acts: seq<Action>, x: nat, k: nat,
                                      i: nat, t: TagId)
    requires LockRun(hash, limits, ss, acts) && x <= k <= |acts| && i < |ss[0].shards|
    requires i < |ss[x].shards| && i < |ss[k].shards| && !Present(ss[x], i, t) && Present(ss[k], i, t)
    ensures exists o :: x <= o < k && Said(ss, acts, o, i, t).Some?
  {
    hide LockStep, Effect, Queued;
    Shape(hash, limits, ss, acts, k);
    Shape(hash, limits, ss, acts, k - 1);
    assert LockStep(hash, limits, ss[k - 1], acts[k - 1], ss[k]);
    PresentStep(hash, limits, ss[k - 1], acts[k - 1], ss[k], i, t);
    if Present(ss[k - 1], i, t) {
      AddedSince(hash, limits, ss, acts, x, k - 1, i, t);
    } else {
      assert Said(ss, acts, k - 1, i, t).Some?;
    }
  }

  /** An update that no longer waits has landed, after its critical section. */
  lemma {:induction false} HasLanded(ss: seq<State>, acts: seq<Action>, k: nat, i: nat, o: nat) returns (x: nat)
    requires o < k <= |acts| < |ss| && Queues(ss, acts, o, i) && o !in Origins(ss, acts, k, i)
    ensures o < x < k && Lands(ss, acts, x, i, o)
  {
    hide Queues;
    var before := Origins(ss, acts, k - 1, i);
    if o in before {
      x := k - 1;
      OriginsBelow(ss, acts, x, i, o);
    } else {
      assert o < k - 1;
      x := HasLanded(ss, acts, k - 1, i, o);
    }
  }

  lemma {:induction false} OriginsBelow(ss: seq<State>, acts: seq<Action>, k: nat, i: nat, o: nat)
    requires k <= |acts| < |ss| && o in Origins(ss, acts, k, i)
    ensures o < k
  {
    hide Queues;
    if k > 0 && o in Origins(ss, acts, k - 1, i) {
      OriginsBelow(ss, acts, k - 1, i, o);
    }
  }

  // ----- Exactly when an entry is out of reach -----

  /**
    What the update landed by step `x` says about tag `t` on shard `i`, if the step lands one there that
    names the tag.
   */
  ghost function Landed(ss: seq<State>, acts: seq<Action>, x: nat, i: nat, t: TagId): Option<bool>
    requires x < |acts| < |ss|
  {
    var origins := Origins(ss, acts, x, i);
    if acts[x].Land? && acts[x].i == i && acts[x].k < |origins| then Said(ss, acts, origins[acts[x].k], i, t) else None
  }

  /** How one step changes one route. */
  lemma RouteStep(hash: Hash, limits: Limits, ss: seq<State>, acts: seq<Action>, x: nat, i: nat, t: TagId)
    requires LockRun(hash, limits, ss, acts) && x < |acts| && i < |ss[0].shards|
    ensures i in Routes(ss[x + 1].directory, t) <==>
              if acts[x].Begin? && acts[x].tag == t then false
              else if Landed(ss, acts, x, i, t).Some? then Landed(ss, acts, x, i, t) == Some(true)
              else i in Routes(ss[x].directory, t)
  {
    hide Step;
    OriginsFit(hash, limits, ss, acts, x, i);
    assert LockStep(hash, limits, ss[x], acts[x], ss[x + 1]);
    if acts[x].Land? && acts[x].i == i {
      var q := acts[x].k;
      assert FitsAt(ss, acts, x, i, Origins(ss, acts, x, i)[q], ss[x].queues[i][q]);
    }
  }

  lemma {:induction false} StaysUnrouted(hash: Hash, limits: Limits, ss: seq<State>, acts: seq<Action>, b: nat, k: nat,
                                         i: nat, t: TagId)
    requires LockRun(hash, limits, ss, acts) && b < k <= |acts| && i < |ss[0].shards|
    requires Landed(ss, acts, b, i, t) == Some(false)
    requires forall x :: b < x < k ==> Landed(ss, acts, x, i, t) != Some(true)
    ensures i !in Routes(ss[k].directory, t)
  {
    hide LockStep, Landed;
    RouteStep(hash, limits, ss, acts, k - 1, i, t);
    if b < k - 1 {
      StaysUnrouted(hash, limits, ss, acts, b, k - 1, i, t);
    }
  }

  /** A route that is lost without a landing is lost to an invalidation that found it. */
  lemma {:induction false} LostToInvalidation(hash: Hash, limits: Limits, ss: seq<State>, acts: seq<Action>, x: nat,
                                              k: nat, i: nat, t: TagId)
    returns (y: nat)
    requires LockRun(hash, limits, ss, acts) && x <= k <= |acts| && i < |ss[0].shards|
    requires i in Routes(ss[x].directory, t) && i !in Routes(ss[k].directory, t)
    requires forall z :: x <= z < k ==> Landed(ss, acts, z, i, t).None?
    ensures x <= y < k && acts[y].Begin? && acts[y].tag == t && i in Routes(ss[y].directory, t)
  {
    hide LockStep, Landed;
    RouteStep(hash, limits, ss, acts, k - 1, i, t);
    if i in Routes(ss[k - 1].directory, t) {
      y := k - 1;
    } else {
      y := LostToInvalidation(hash, limits, ss, acts, x, k - 1, i, t);
    }
  }

  predicate Awaits(s: State, c: nat, i: nat, t: TagId) {
    c in s.flights && s.flights[c].tag == t && i in s.flights[c].left
  }

  /** An invalidation under way keeps a shard on its list until it visits it. */
  lemma FlightStep(hash: Hash, limits: Limits, s: State, a: Action, s': State, c: nat, i: nat, t: TagId)
    requires Wellformed(s) && LockStep(hash, limits, s, a, s') && Awaits(s, c, i, t)
    ensures Awaits(s', c, i, t) || (a == Visit(c, i) && i < |s'.shards| && !Present(s', i, t))
  {
    hide Step, Rerouted;
    if a == Visit(c, i) {
      assert Tagged(InvalidateView(s.shards[i], t).entries, t) == {};
    }
  }

  /** So once it is over, there was a moment at which the shard had no entry with the tag. */
  lemma {:induction false} FlightVisits(hash: Hash, limits: Limits, ss: seq<State>, acts: seq<Action>, x: nat, k: nat,
                                        c: nat, i: nat, t: TagId)
    returns (z: nat)
    requires LockRun(hash, limits, ss, acts) && x <= k <= |acts|
    requires Awaits(ss[x], c, i, t) && c !in ss[k].flights
    ensures x < z <= k && i < |ss[z].shards| && !Present(ss[z], i, t)
    decreases k - x
  {
    hide LockStep;
    assert LockStep(hash, limits, ss[x], acts[x], ss[x + 1]);
    FlightStep(hash, limits, ss[x], acts[x], ss[x + 1], c, i, t);
    if Awaits(ss[x + 1], c, i, t) {
      z := FlightVisits(hash, limits, ss, acts, x + 1, k, c, i, t);
    } else {
      z := x + 1;
    }
  }

  /** The last landing before state `k` that names `t` on shard `i`, given that there is one. */
  lemma {:induction false} LastLanding(ss: seq<State>, acts: seq<Action>, a: nat, k: nat, i: nat, t: TagId)
    returns (b: nat)
    requires a < k <= |acts| < |ss| && Landed(ss, acts, a, i, t).Some?
    ensures a <= b < k && Landed(ss, acts, b, i, t).Some?
    ensures forall x :: b < x < k ==> Landed(ss, acts, x, i, t).None?
  {
    hide Landed;
    b := k - 1;
    if Landed(ss, acts, b, i, t).None? {
      b := LastLanding(ss, acts, a, k - 1, i, t);
    }
  }

  /**
    The addition of critical section `u` landed at step `a`, before the removal
    that the earlier critical section `w` left behind, which landed at step `b`;
    and no addition landed after that.
   */
  ghost predicate Overtaken(ss: seq<State>, acts: seq<Action>, k: nat, i: nat, t: TagId, w: nat, u: nat, a: nat, b: nat)
    requires k <= |acts| < |ss|
  {
    && w < u && a < b < k
    && Lands(ss, acts, a, i, u) && Said(ss, acts, u, i, t) == Some(true)
    && Lands(ss, acts, b, i, w) && Said(ss, acts, w, i, t) == Some(false)
    && forall x :: b < x < k ==> Landed(ss, acts, x, i, t) != Some(true)
  }

  lemma OvertakenIsHidden(hash: Hash, limits: Limits, ss: seq<State>, acts: seq<Action>, k: nat, i: nat, t: TagId,
                          w: nat, u: nat, a: nat, b: nat)
    requires LockRun(hash, limits, ss, acts) && k <= |acts| && i < |ss[0].shards|
    requires Overtaken(ss, acts, k, i, t, w, u, a, b)
    ensures i !in Routes(ss[k].directory, t)
  {
    hide LockStep, Said, Origins;
    StaysUnrouted(hash, limits, ss, acts, b, k, i, t);
  }

  /** At rest a present tag was added by a section whose update has landed, and no later section named it. */
  lemma PresentHasLanded(hash: Hash, limits: Limits, ss: seq<State>, acts: seq<Action>, k: nat, i: nat, t: TagId)
    returns (u: nat, a: nat)
    requires LockRun(hash, limits, ss, acts) && k <= |acts| && Quiescent(ss[k])
    requires i < |ss[k].shards| && Present(ss[k], i, t)
    ensures u < a < k && Lands(ss, acts, a, i, u) && Said(ss, acts, u, i, t) == Some(true)
    ensures forall o :: u < o < k ==> Said(ss, acts, o, i, t).None?
  {
    hide LockStep, Said, Present;
    Shape(hash, limits, ss, acts, k);
    PresentWasAdded(hash, limits, ss, acts, k, i, t);
    LastNamingIs(ss, acts, k, i, t);
    u := LastNaming(ss, acts, k, i, t).value;
    OriginsFit(hash, limits, ss, acts, k, i);
    FitsSize(ss, acts, k, i, Origins(ss, acts, k, i), ss[k].queues[i]);
    SaidQueues(ss, acts, u, i, t);
    a := HasLanded(ss, acts, k, i, u);
  }

  lemma SaidQueues(ss: seq<State>, acts: seq<Action>, o: nat, i: nat, t: TagId)
    requires Said(ss, acts, o, i, t).Some?
    ensures Queues(ss, acts, o, i)
  {
  }

  /** If the last landing about a present tag is an addition, the tag is routed at rest. */
  lemma AddedLastIsRouted(hash: Hash, limits: Limits, ss: seq<State>, acts: seq<Action>, k: nat, i: nat, t: TagId,
                          u: nat, b: nat)
    requires LockRun(hash, limits, ss, acts) && k <= |acts| && Quiescent(ss[k])
    requires i < |ss[k].shards| && Present(ss[k], i, t)
    requires forall o :: u < o < k ==> Said(ss, acts, o, i, t).None?
    requires u < b < k && Landed(ss, acts, b, i, t) == Some(true)
    requires forall x :: b < x < k ==> Landed(ss, acts, x, i, t).None?
    ensures i in Routes(ss[k].directory, t)
  {
    hide LockStep, Said, Present, Landed;
    Shape(hash, limits, ss, acts, k);
    if i !in Routes(ss[k].directory, t) {
      RouteStep(hash, limits, ss, acts, b, i, t);
      BeginIsNotLanding(ss, acts, b, i, t);
      var y := LostToInvalidation(hash, limits, ss, acts, b + 1, k, i, t);
      assert LockStep(hash, limits, ss[y], acts[y], ss[y + 1]);
      BeginAwaits(hash, limits, ss[y], acts[y], ss[y + 1], i);
      var z := FlightVisits(hash, limits, ss, acts, y + 1, k, acts[y].c, i, t);
      AddedSince(hash, limits, ss, acts, z, k, i, t);
      assert false;
    }
  }

  lemma BeginIsNotLanding(ss: seq<State>, acts: seq<Action>, b: nat, i: nat, t: TagId)
    requires b < |acts| < |ss| && Landed(ss, acts, b, i, t).Some?
    ensures !acts[b].Begin?
  {
  }

  lemma BeginAwaits(hash: Hash, limits: Limits, s: State, a: Action, s': State, i: nat)
    requires Wellformed(s) && LockStep(hash, limits, s, a, s') && a.Begin? && i in Routes(s.directory, a.tag)
    ensures Awaits(s', a.c, i, a.tag)
  {
  }

  /**
    Exactly when an entry ends up out of reach of an invalidation of one of its
    tags, over every interleaving and with no assumption on the order: a removal
    left by an earlier critical section landed after the addition of a later one,
    and no addition landed after it.
   */
  lemma HiddenIff(hash: Hash, limits: Limits, ss: seq<State>, acts: seq<Action>, k: nat, i: nat, t: TagId)
    requires LockRun(hash, limits, ss, acts) && k <= |acts| && Quiescent(ss[k])
    requires i < |ss[k].shards| && Present(ss[k], i, t)
    ensures i !in Routes(ss[k].directory, t) <==>
              exists w: nat, u: nat, a: nat, b: nat :: Overtaken(ss, acts, k, i, t, w, u, a, b)
  {
    hide LockStep, Said, Present, Quiescent;
    Shape(hash, limits, ss, acts, k);
    forall w: nat, u: nat, a: nat, b: nat | Overtaken(ss, acts, k, i, t, w, u, a, b)
      ensures i !in Routes(ss[k].directory, t)
    {
      OvertakenIsHidden(hash, limits, ss, acts, k, i, t, w, u, a, b);
    }
    if i !in Routes(ss[k].directory, t) {
      var u, a := PresentHasLanded(hash, limits, ss, acts, k, i, t);
      var b := LastLanding(ss, acts, a, k, i, t);
      if Landed(ss, acts, b, i, t) == Some(true) {
        AddedLastIsRouted(hash, limits, ss, acts, k, i, t, u, b);
        assert false;
      }
      var w := Origins(ss, acts, b, i)[acts[b].k];
      OriginsBelow(ss, acts, b, i, w);
      var said := Said(ss, acts, w, i, t);
      assert Landed(ss, acts, b, i, t) == said == Some(said.value);
      assert !said.value;
      assert Landed(ss, acts, a, i, t) == Some(true);
      assert w < u && a < b;
      assert Lands(ss, acts, b, i, w);
      assert Overtaken(ss, acts, k, i, t, w, u, a, b);
    }
  }

  /** The addition that overtakes the removal is a step out of order, so ordered runs hide nothing. */
  lemma OvertakingIsDisorder(hash: Hash, limits: Limits, ss: seq<State>, acts: seq<Action>, k: nat, i: nat, t: TagId,
                             w: nat, u: nat, a: nat, b: nat)
    requires LockRun(hash, limits, ss, acts) && k <= |acts| && i < |ss[0].shards|
    requires Overtaken(ss, acts, k, i, t, w, u, a, b)
    ensures !Ordered(ss[a], acts[a])
  {
    hide LockRun, Fits, Said, Ordered;
    OriginsFit(hash, limits, ss, acts, a, i);
    OriginsBelow(ss, acts, a, i, u);
    StillWaits(ss, acts, a, b, i, w);
    OutOfOrder(ss, acts, a, i, t, Origins(ss, acts, a, i), w, u);
  }

  lemma OutOfOrder(ss: seq<State>, acts: seq<Action>, a: nat, i: nat, t: TagId, origins: seq<nat>, w: nat, u: nat)
    requires a < |acts| < |ss| && i < |ss[a].queues| && Fits(ss, acts, a, i, origins, ss[a].queues[i])
    requires acts[a].Land? && acts[a].i == i && acts[a].k < |origins| && origins[acts[a].k] == u && w in origins
    requires w < u
    requires Said(ss, acts, u, i, t) == Some(true) && Said(ss, acts, w, i, t) == Some(false)
    ensures !Ordered(ss[a], acts[a])
  {
    hide Queues;
    var queue, q := ss[a].queues[i], acts[a].k;
    var p :| 0 <= p < |origins| && origins[p] == w;
    assert FitsAt(ss, acts, a, i, origins[p], queue[p]) && FitsAt(ss, acts, a, i, origins[q], queue[q]);
    assert Clash(queue[p], queue[q], t);
    assert p < q;
  }

  /** An update that lands at `b` waits in every state from its critical section on. */
  lemma {:induction false} StillWaits(ss: seq<State>, acts: seq<Action>, x: nat, b: nat, i: nat, w: nat)
    requires w < x <= b < |acts| < |ss| && w in Origins(ss, acts, b, i)
    ensures w in Origins(ss, acts, x, i)
    decreases b - x
  {
    hide Queues;
    if x < b {
      assert w in Origins(ss, acts, b - 1, i);
      StillWaits(ss, acts, x, b - 1, i, w);
    }
  }

  /** One shard, one key: stored with a tag, deleted, and stored again. */
  function Stored(cmd: PutCommand, now: U64, access: U64): View {
    View(map[cmd.id := NewEntry(cmd, now, access)], map[], SatAdd(access, 1))
  }

  function Lone(v: View, dir: Directory, q: seq<Update>): State {
    State([v], dir, [q], map[])
  }

  function PutEvent(cmd: PutCommand, now: U64): Event {
    Event(Put(cmd), now, PutReply(Ok(0)), {}, [])
  }

  function DeleteEvent(cmd: PutCommand, now: U64): Event {
    Event(Delete(cmd.id), now, DeleteReply(true), {}, [])
  }

  lemma LonePut(hash: Hash, limits: Limits, cmd: PutCommand, now: U64, access: U64, dir: Directory, q: seq<Update>)
    requires Admission(limits, cmd).Ok?
    ensures LockStep(hash, limits, Lone(View(map[], map[], access), dir, q), Call(0, PutEvent(cmd, now)),
                     Lone(Stored(cmd, now, access), dir, q + [Update(TagsOf(cmd.id.ns, cmd.tags), {})]))
  {
    var v := View(map[], map[], access);
    assert ShardLimits(limits, 1) == limits;
    assert Remove(v, cmd.id) == v && RemoveAll(v, {}) == v;
    assert Elements<EntryId>([]) == {};
    assert v.entries - {} == v.entries;
  }

  lemma LoneDelete(hash: Hash, limits: Limits, cmd: PutCommand, now: U64, access: U64, dir: Directory, q: seq<Update>)
    ensures LockStep(hash, limits, Lone(Stored(cmd, now, access), dir, q), Call(0, DeleteEvent(cmd, now)),
                     Lone(View(map[], map[], SatAdd(access, 1)), dir, q + [Update({}, TagsOf(cmd.id.ns, cmd.tags))]))
  {
    var v, v' := Stored(cmd, now, access), View(map[], map[], SatAdd(access, 1));
    assert DeleteView(v, cmd.id).entries == map[];
    assert forall t :: Tagged(v'.entries, t) == {};
    assert Drops(v, cmd.id, v') == TagsOf(cmd.id.ns, cmd.tags);
  }

  function RoutedToZero(tags: set<TagId>): Directory {
    map t | t in tags :: {0}
  }

  /** Landing an addition of all tags, or a removal of all of them, in a one-shard cache. */
  lemma LoneLand(hash: Hash, limits: Limits, v: View, dir: Directory, q: seq<Update>, k: nat, tags: set<TagId>,
                 dir': Directory)
    requires k < |q|
    requires dir == map[] || dir == RoutedToZero(tags)
    requires (q[k] == Update(tags, {}) && dir' == RoutedToZero(tags)) || (q[k] == Update({}, tags) && dir' == map[])
    ensures LockStep(hash, limits, Lone(v, dir, q), Land(0, k), Lone(v, dir', Without(q, k)))
  {
  }

  lemma SixSteps(hash: Hash, limits: Limits, ss: seq<State>, acts: seq<Action>)
    requires |ss| == 7 && |acts| == 6 && Initial(ss[0])
    requires Wellformed(ss[1]) && Wellformed(ss[2]) && Wellformed(ss[3]) && Wellformed(ss[4]) && Wellformed(ss[5])
    requires LockStep(hash, limits, ss[0], acts[0], ss[1]) && LockStep(hash, limits, ss[1], acts[1], ss[2])
    requires LockStep(hash, limits, ss[2], acts[2], ss[3]) && LockStep(hash, limits, ss[3], acts[3], ss[4])
    requires LockStep(hash, limits, ss[4], acts[4], ss[5]) && LockStep(hash, limits, ss[5], acts[5], ss[6])
    ensures LockRun(hash, limits, ss, acts)
  {
  }

  /**
    The order matters: delete's shard step, put's shard step, put's directory
    step, delete's directory step is a run of the locks alone, and it ends at
    rest with a stored entry whose tag no route leads to.
   */
  lemma OvertakingHidesAnEntry(hash: Hash, limits: Limits, cmd: PutCommand, now: U64)
    returns (ss: seq<State>, acts: seq<Action>)
    requires Admission(limits, cmd).Ok? && cmd.tags != []
    ensures LockRun(hash, limits, ss, acts) && |acts| == 6
    ensures Quiescent(ss[6]) && |ss[6].shards| == 1
    ensures Present(ss[6], 0, TagId(cmd.id.ns, cmd.tags[0]))
    ensures 0 !in Routes(ss[6].directory, TagId(cmd.id.ns, cmd.tags[0]))
  {
    hide LockStep, LockRun, Stored, Wellformed, EntryMemory, Admission, Rerouted;
    var tags := TagsOf(cmd.id.ns, cmd.tags);
    var routed := RoutedToZero(tags);
    var add, drop := Update(tags, {}), Update({}, tags);
    var v1, v2, v3 := Stored(cmd, now, 0), View(map[], map[], 1), Stored(cmd, now, 1);
    ss := [Lone(EMPTY, map[], []), Lone(v1, map[], [] + [add]), Lone(v1, routed, []), Lone(v2, routed, [] + [drop]),
           Lone(v3, routed, [drop] + [add]), Lone(v3, routed, [drop]), Lone(v3, map[], [])];
    acts := [Call(0, PutEvent(cmd, now)), Land(0, 0), Call(0, DeleteEvent(cmd, now)), Call(0, PutEvent(cmd, now)),
             Land(0, 1), Land(0, 0)];
    LonePut(hash, limits, cmd, now, 0, map[], []);
    LoneDelete(hash, limits, cmd, now, 0, routed, []);
    LonePut(hash, limits, cmd, now, 1, routed, [drop]);
    assert [] + [drop] == [drop];
    assert Without([] + [add], 0) == [] && Without([drop] + [add], 1) == [drop] && Without([drop], 0) == [];
    LoneLand(hash, limits, v1, map[], [] + [add], 0, tags, routed);
    LoneLand(hash, limits, v3, routed, [drop] + [add], 1, tags, routed);
    LoneLand(hash, limits, v3, routed, [drop], 0, tags, map[]);
    SixSteps(hash, limits, ss, acts);
    StoredHasTags(cmd, now, 1);
  }

  lemma StoredHasTags(cmd: PutCommand, now: U64, access: U64)
    requires cmd.tags != []
    ensures Tagged(Stored(cmd, now, access).entries, TagId(cmd.id.ns, cmd.tags[0])) != {}
  {
    assert cmd.id in Tagged(Stored(cmd, now, access).entries, TagId(cmd.id.ns, cmd.tags[0]));
  }
}
