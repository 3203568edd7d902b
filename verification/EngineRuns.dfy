/**
  What every call keeps, and what that means over whole runs of one engine:
  memory stays within its limit, access stamps stay distinct, eviction is
  sampled LRU, and an accepted put is readable at once.
 */
module EngineRuns {
  import opened Base
  import opened EngineSpec

  // ----- What a step can touch -----

  /** The one key a call names, if it names one. */
  function Subject(op: Op): Option<EntryId> {
    match op
    case Put(cmd) => Some(cmd.id)
    case Get(id, _) => Some(id)
    case Delete(id) => Some(id)
    case Invalidate(_) => None
    case Start(id, _) => Some(id)
    case Complete(_, cmd) => Some(cmd.id)
    case Reclaim(_) => None
  }

  /** The write a call performed, if it performed one. */
  function Written(e: Event): Option<PutCommand> {
    match (e.op, e.reply)
    case (Put(cmd), PutReply(Ok(_))) => Some(cmd)
    case (Complete(_, cmd), CompleteReply(Ok(_))) => Some(cmd)
    case _ => None
  }

  predicate SamePayload(a: Entry, b: Entry) {
    a.(lastAccess := 0) == b.(lastAccess := 0)
  }

  /** Away from `x`, only losses; at `x`, the write, or the old entry perhaps with a new stamp. */
  ghost predicate Frame(v: View, x: Option<EntryId>, written: Option<PutCommand>, now: U64, v': View) {
    && v.nextAccess <= v'.nextAccess
    && (forall id :: id in v'.entries && x != Some(id) ==> id in v.entries && v'.entries[id] == v.entries[id])
    && (x.Some? && written.None? && x.value in v'.entries ==>
          && x.value in v.entries
          && SamePayload(v.entries[x.value], v'.entries[x.value])
          && (v'.entries[x.value] == v.entries[x.value] || Restamped(v, x.value, v')))
    && (written.Some? ==>
          && x == Some(written.value.id)
          && x.value in v'.entries
          && v'.entries[x.value] == NewEntry(written.value, now, v.nextAccess)
          && Restamped(v, x.value, v'))
  }

  predicate Restamped(v: View, x: EntryId, v': View) {
    x in v'.entries && v'.entries[x].lastAccess == v.nextAccess && SatAdd(v.nextAccess, 1) <= v'.nextAccess
  }

  lemma StepFrame(limits: Limits, v: View, e: Event, v': View)
    requires Step(limits, v, e, v')
    ensures Frame(v, Subject(e.op), Written(e), e.now, v')
  {
    match e.op {
      case Complete(token, cmd) =>
        var (w, accepted) := ConsumeLease(v, cmd.id, token, e.now);
        if accepted {
          PutFrame(limits, w, cmd, e.now, e.reclaimed, e.evicted, InnerPut(e.reply.done), v');
        }
      case Put(cmd) => PutFrame(limits, v, cmd, e.now, e.reclaimed, e.evicted, e.reply.put, v');
      case Start(id, ttl) => StartFrame(v, id, ttl, e.now);
      case _ =>
    }
  }

  lemma PutFrame(limits: Limits, v: View, cmd: PutCommand, now: U64, reclaimed: set<EntryId>, evicted: seq<EntryId>,
                 r: Result<nat, PutError>, v': View)
    requires PutStep(limits, v, cmd, now, reclaimed, evicted, r, v')
    ensures Frame(v, Some(cmd.id), if r.Ok? then Some(cmd) else None, now, v')
  {
  }

  lemma StartFrame(v: View, id: EntryId, ttl: U64, now: U64)
    ensures Frame(v, Some(id), None, now, StartLease(v, id, ttl, now).0)
  {
    if id in v.entries && StateAt(v.entries[id], now) != Expired {
      assert Restamped(v, id, Touch(v, id));
    }
  }

  /** An entry disappears only by delete, matching invalidation, eviction, or when due. */
  lemma StepLoss(limits: Limits, v: View, e: Event, v': View, id: EntryId)
    requires Step(limits, v, e, v')
    requires id in v.entries && id !in v'.entries
    ensures || e.op == Delete(id)
            || (e.op.Invalidate? && HasTag(id, v.entries[id], e.op.tag))
            || id in e.evicted
            || IsDue(v.entries[id], e.now)
  {
  }

  // ----- Invariants of the state -----

  ghost predicate Charged(entries: Entries) {
    forall id :: id in entries ==> entries[id].memory == EntryMemory(id, entries[id].value, entries[id].tags)
  }

  /** Until the access counter saturates, stamps are below it and pairwise distinct. */
  ghost predicate Distinct(v: View) {
    v.nextAccess < U64_MAX ==>
      && (forall id :: id in v.entries ==> v.entries[id].lastAccess < v.nextAccess)
      && (forall a, b :: a in v.entries && b in v.entries && a != b ==>
            v.entries[a].lastAccess != v.entries[b].lastAccess)
  }

  ghost predicate Inv(limits: Limits, v: View) {
    Memory(v.entries) <= limits.maxMemory && Charged(v.entries) && Distinct(v)
  }

  lemma {:induction false} MemoryWithout(entries: Entries, ids: set<EntryId>)
    ensures Memory(entries - ids) <= Memory(entries)
    decreases entries.Keys
  {
    if forall id :: id in entries ==> id !in ids {
      assert entries - ids == entries;
    } else {
      var id :| id in entries && id in ids;
      TotalRemove(entries, MemoryOf, id);
      MemoryWithout(entries - {id}, ids);
      assert entries - {id} - ids == entries - ids;
    }
  }

  lemma MemoryTouched(v: View, id: EntryId)
    requires id in v.entries
    ensures Memory(Touch(v, id).entries) == Memory(v.entries)
  {
    assert Touch(v, id).entries - {id} == v.entries - {id};
    TotalRemove(v.entries, MemoryOf, id);
    TotalRemove(Touch(v, id).entries, MemoryOf, id);
  }

  lemma PutMemory(limits: Limits, v: View, cmd: PutCommand, now: U64, reclaimed: set<EntryId>, evicted: seq<EntryId>,
                  r: Result<nat, PutError>, v': View)
    requires PutStep(limits, v, cmd, now, reclaimed, evicted, r, v')
    ensures r.Ok? ==> Memory(v'.entries) <= limits.maxMemory
  {
    if r.Ok? {
      var left := Cleared(v, cmd, reclaimed, evicted);
      assert left.entries == Remove(v, cmd.id).entries - reclaimed - Elements(evicted);
      TotalInsert(left.entries, MemoryOf, cmd.id, NewEntry(cmd, now, left.nextAccess));
    }
  }

  lemma StartMemory(v: View, id: EntryId, ttl: U64, now: U64)
    ensures Memory(StartLease(v, id, ttl, now).0.entries) <= Memory(v.entries)
  {
    MemoryWithout(v.entries, {id});
    if id in v.entries {
      MemoryTouched(v, id);
    }
  }

  lemma GetMemory(v: View, id: EntryId, now: U64, update: bool)
    ensures Memory(GetView(v, id, now, update).entries) <= Memory(v.entries)
  {
    MemoryWithout(v.entries, {id});
    if id in v.entries {
      MemoryTouched(v, id);
    }
  }

  lemma StepMemory(limits: Limits, v: View, e: Event, v': View)
    requires Step(limits, v, e, v')
    requires Memory(v.entries) <= limits.maxMemory
    ensures Memory(v'.entries) <= limits.maxMemory
  {
    match e.op {
      case Put(cmd) => PutMemory(limits, v, cmd, e.now, e.reclaimed, e.evicted, e.reply.put, v');
      case Get(id, update) => GetMemory(v, id, e.now, update);
      case Delete(id) => MemoryWithout(v.entries, {id});
      case Invalidate(t) => MemoryWithout(v.entries, Tagged(v.entries, t));
      case Start(id, ttl) => StartMemory(v, id, ttl, e.now);
      case Complete(token, cmd) =>
        var (w, accepted) := ConsumeLease(v, cmd.id, token, e.now);
        if accepted {
          PutMemory(limits, w, cmd, e.now, e.reclaimed, e.evicted, InnerPut(e.reply.done), v');
        }
      case Reclaim(_) => MemoryWithout(v.entries, e.reclaimed);
    }
  }

  lemma StepKeeps(limits: Limits, v: View, e: Event, v': View)
    requires Step(limits, v, e, v') && Inv(limits, v)
    ensures Inv(limits, v')
  {
    StepFrame(limits, v, e, v');
    FrameCharged(v, Subject(e.op), Written(e), e.now, v');
    FrameDistinct(v, Subject(e.op), Written(e), e.now, v');
    StepMemory(limits, v, e, v');
  }

  lemma FrameCharged(v: View, x: Option<EntryId>, written: Option<PutCommand>, now: U64, v': View)
    requires Frame(v, x, written, now, v') && Charged(v.entries)
    ensures Charged(v'.entries)
  {
  }

  lemma FrameDistinct(v: View, x: Option<EntryId>, written: Option<PutCommand>, now: U64, v': View)
    requires Frame(v, x, written, now, v') && Distinct(v)
    ensures Distinct(v')
  {
    if v'.nextAccess < U64_MAX {
      forall id | id in v'.entries
        ensures v'.entries[id].lastAccess < v'.nextAccess
        ensures v'.entries[id].lastAccess == v.nextAccess || (id in v.entries && v'.entries[id] == v.entries[id])
        ensures v'.entries[id].lastAccess == v.nextAccess ==> x == Some(id)
      {
      }
    }
  }

  /** In every state of every run, memory is within the limit, charges are the estimates, stamps are distinct. */
  lemma {:induction false} RunKeeps(limits: Limits, vs: seq<View>, es: seq<Event>, i: nat)
    requires Run(limits, vs, es) && i <= |es|
    ensures Inv(limits, vs[i])
  {
    if i > 0 {
      RunKeeps(limits, vs, es, i - 1);
      StepKeeps(limits, vs[i - 1], es[i - 1], vs[i]);
    }
  }

  // ----- Reclaim -----

  lemma SoonerTotal(at: U64, a: EntryId, later: U64, b: EntryId)
    requires (at, a) != (later, b)
    ensures Sooner(at, a, later, b) <==> !Sooner(later, b, at, a)
  {
    LessTotal(a.ns, b.ns);
    LessTotal(a.key, b.key);
  }

  lemma SoonerTransitive(at: U64, a: EntryId, mid: U64, b: EntryId, later: U64, c: EntryId)
    requires Sooner(at, a, mid, b) && Sooner(mid, b, later, c)
    ensures Sooner(at, a, later, c)
  {
    if at == mid == later {
      if Less(a.ns, b.ns) && Less(b.ns, c.ns) {
        LessTransitive(a.ns, b.ns, c.ns);
      } else if a.ns == b.ns == c.ns {
        LessTransitive(a.key, b.key, c.key);
      }
    }
  }

  lemma OutsideOf<T>(a: set<T>, b: set<T>) returns (x: T)
    requires |a| == |b| && a != b
    ensures x in a && x !in b
  {
    if a <= b {
      SubsetCardinality(a, b);
    }
    x :| x in a && x !in b;
  }

  /** What reclaim removes is determined by what is stored, the budget and the time. */
  lemma ReclaimDetermined(v: View, budget: nat, now: U64, r: set<EntryId>, w: View, r': set<EntryId>, w': View)
    requires ReclaimStep(v, budget, now, r, w) && ReclaimStep(v, budget, now, r', w')
    ensures r == r' && w == w'
  {
    if r != r' {
      var a := OutsideOf(r, r');
      var b := OutsideOf(r', r);
      assert GoesFirst(v.entries, a, b) && GoesFirst(v.entries, b, a);
      SoonerTotal(RemovableAt(v.entries[a]).value, a, RemovableAt(v.entries[b]).value, b);
      assert false;
    }
  }

  // ----- Put -----

  /** Saturating at each addition is saturating once: the charge is the true size, cut off at the 64-bit maximum. */
  lemma ChargeIsSize(id: EntryId, value: Bytes, tags: seq<Text>)
    ensures EntryMemory(id, value, tags) ==
            Min(U64_MAX, ENTRY_OVERHEAD_BYTES + |id.ns| + |id.key| + |value| + SumLengths(tags))
  {
  }

  /**
    A put succeeds exactly when value and estimate fit; the third error never
    occurs; a rejected put changes nothing; an accepted one is a hit at once,
    with every other surviving entry untouched.
   */
  lemma PutOutcome(limits: Limits, vs: seq<View>, es: seq<Event>, i: nat, cmd: PutCommand)
    requires Run(limits, vs, es) && i < |es| && es[i].op == Put(cmd)
    ensures es[i].reply.PutReply?
    ensures var size, r := EntryMemory(cmd.id, cmd.value, cmd.tags), es[i].reply.put;
            && (r.Ok? <==> |cmd.value| <= limits.maxValue && size <= limits.maxMemory)
            && (r.Err? ==> !r.error.InsufficientMemory? && vs[i + 1] == vs[i])
            && (r.Err? && r.error.ValueTooLarge? <==> |cmd.value| > limits.maxValue)
            && (r.Ok? ==>
                  && GetResult(vs[i + 1], cmd.id, es[i].now) == Hit(cmd.value)
                  && Memory(vs[i + 1].entries) <= limits.maxMemory
                  && forall id :: id in vs[i + 1].entries && id != cmd.id ==>
                       id in vs[i].entries && vs[i + 1].entries[id] == vs[i].entries[id])
  {
    assert Step(limits, vs[i], es[i], vs[i + 1]);
    StepFrame(limits, vs[i], es[i], vs[i + 1]);
    RunKeeps(limits, vs, es, i + 1);
  }

  // ----- Eviction -----

  function Newer(entries: Entries, x: EntryId): set<EntryId>
    requires x in entries
  {
    set y | y in entries && entries[x].lastAccess < entries[y].lastAccess
  }

  /** Making room leaves nothing due, and each victim is picked while the write still does not fit. */
  lemma EvictionStart(limits: Limits, v: View, cmd: PutCommand, now: U64, reclaimed: set<EntryId>,
                      evicted: seq<EntryId>, r: Result<nat, PutError>, v': View, k: nat)
    requires PutStep(limits, v, cmd, now, reclaimed, evicted, r, v')
    requires k < |evicted|
    ensures var size := EntryMemory(cmd.id, cmd.value, cmd.tags);
            var all := v.entries - {cmd.id} - reclaimed;
            && reclaimed == Due(v.entries - {cmd.id}, now)
            && EvictedAt(all, evicted, k, size, limits.maxMemory)
            && Memory(all - Elements(evicted)) + size <= limits.maxMemory
  {
    var size := EntryMemory(cmd.id, cmd.value, cmd.tags);
    var kept := v.entries - {cmd.id};
    assert EvictedAt(kept - reclaimed, evicted, k, size, limits.maxMemory);
    MemoryWithout(kept - reclaimed, Elements(evicted[..k]));
    MemoryWithout(kept, reclaimed);
  }

  /**
    Eviction number `k` of a write in a run: nothing left is due, the write
    still does not fit, and the victim has at least `min(16, n) - 1` strictly
    more recently used entries beside it; with at most sixteen entries left
    that is every other one. After the last eviction the write fits.
   */
  lemma EvictionIsSampledLru(limits: Limits, vs: seq<View>, es: seq<Event>, i: nat, k: nat)
    requires Run(limits, vs, es) && i < |es|
    requires vs[i].nextAccess < U64_MAX
    requires k < |es[i].evicted|
    ensures Written(es[i]).Some?
    ensures var cmd, evicted := Written(es[i]).value, es[i].evicted;
            var size := EntryMemory(cmd.id, cmd.value, cmd.tags);
            var all := vs[i].entries - {cmd.id} - es[i].reclaimed;
            var left := Left(all, evicted, k);
            && Due(left, es[i].now) == {}
            && Memory(left) + size > limits.maxMemory >= Memory(all - Elements(evicted)) + size
            && evicted[k] in left
            && |Newer(left, evicted[k])| >= Min(LRU_SAMPLE_SIZE, |left|) - 1
            && (|left| <= LRU_SAMPLE_SIZE ==> Newer(left, evicted[k]) == left.Keys - {evicted[k]})
  {
    hide Step, Memory, LeastOfSample;
    var v, e, v' := vs[i], es[i], vs[i + 1];
    assert Step(limits, v, e, v');
    StepEvicts(limits, v, e, v', k);
    RunKeeps(limits, vs, es, i);
    var left := Left(v.entries - {Written(e).value.id} - e.reclaimed, e.evicted, k);
    assert LeastOfSample(left, e.evicted[k]);
    PickedIsThere(left, e.evicted[k]);
    NewerCount(left, e.evicted[k]);
  }

  lemma PickedIsThere(entries: Entries, x: EntryId)
    requires LeastOfSample(entries, x)
    ensures x in entries
  {
  }

  /** Only a write evicts, and each of its evictions is one of making room. */
  lemma StepEvicts(limits: Limits, v: View, e: Event, v': View, k: nat)
    requires Step(limits, v, e, v') && k < |e.evicted|
    ensures Written(e).Some?
    ensures var cmd := Written(e).value;
            var size := EntryMemory(cmd.id, cmd.value, cmd.tags);
            var all := v.entries - {cmd.id} - e.reclaimed;
            && e.reclaimed == Due(v.entries - {cmd.id}, e.now)
            && EvictedAt(all, e.evicted, k, size, limits.maxMemory)
            && Memory(all - Elements(e.evicted)) + size <= limits.maxMemory
  {
    hide Memory, EvictedAt, EntryMemory;
    match e.op {
      case Put(cmd) =>
        EvictionStart(limits, v, cmd, e.now, e.reclaimed, e.evicted, e.reply.put, v', k);
      case Complete(token, cmd) =>
        var w := ConsumeLease(v, cmd.id, token, e.now).0;
        EvictionStart(limits, w, cmd, e.now, e.reclaimed, e.evicted, InnerPut(e.reply.done), v', k);
      case _ =>
    }
  }

  lemma NewerCount(entries: Entries, x: EntryId)
    requires LeastOfSample(entries, x)
    requires forall y :: y in entries && y != x ==> entries[y].lastAccess != entries[x].lastAccess
    ensures |Newer(entries, x)| >= Min(LRU_SAMPLE_SIZE, |entries|) - 1
    ensures |entries| <= LRU_SAMPLE_SIZE ==> Newer(entries, x) == entries.Keys - {x}
  {
    assert NotOlder(entries, x) == Newer(entries, x) + {x};
    SubsetCardinality(NotOlder(entries, x), entries.Keys);
  }
}
