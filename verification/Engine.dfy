/**
  The engine with its redundant indexes, updated in place. `Valid` says that
  every index is exactly what the entries imply; every method keeps it and makes
  one `EngineSpec.Step`.
 */
module Engine {
  import opened Base
  import opened EngineSpec
  import EngineRuns

  datatype ExpiryKey = ExpiryKey(at: U64, id: EntryId)

  /** One key per entry that can expire. */
  function ExpiryKeys(entries: Entries): set<ExpiryKey> {
    set id | id in entries && RemovableAt(entries[id]).Some? :: ExpiryKey(RemovableAt(entries[id]).value, id)
  }

  lemma ExpiryKeysMember(entries: Entries, k: ExpiryKey)
    ensures k in ExpiryKeys(entries) <==> k.id in entries && RemovableAt(entries[k.id]) == Some(k.at)
  {
    if k.id in entries && RemovableAt(entries[k.id]) == Some(k.at) {
      assert k == ExpiryKey(RemovableAt(entries[k.id]).value, k.id);
    }
  }

  /** Taking one entry out takes out its key, if it had one, and no other. */
  lemma ExpiryKeysDrop(entries: Entries, hole: set<EntryId>, id: EntryId)
    requires id in entries
    ensures var at := RemovableAt(entries[id]);
            ExpiryKeys(entries - {id} - hole) ==
            ExpiryKeys(entries - hole) - (if at.Some? then {ExpiryKey(at.value, id)} else {})
  {
    forall k: ExpiryKey
      ensures k in ExpiryKeys(entries - {id} - hole) <==> k in ExpiryKeys(entries - hole) && k.id != id
    {
      ExpiryKeysMember(entries - {id} - hole, k);
      ExpiryKeysMember(entries - hole, k);
    }
    forall k: ExpiryKey | k in ExpiryKeys(entries - hole) && k.id == id
      ensures RemovableAt(entries[id]) == Some(k.at)
    {
      ExpiryKeysMember(entries - hole, k);
    }
  }

  lemma NoHole(entries: Entries, hole: set<EntryId>)
    requires hole !! entries.Keys
    ensures entries - hole == entries
  {
  }

  lemma HoleClosed(v: View, hole: set<EntryId>)
    ensures RemoveAll(v, hole).entries - hole == RemoveAll(v, hole).entries - {}
  {
  }

  /** `gone`, all due, has been taken off the front of the expiry index, leaving `index`. */
  ghost predicate Popped(entries: Entries, now: U64, gone: set<EntryId>, index: set<ExpiryKey>) {
    && gone <= Due(entries, now)
    && index == ExpiryKeys(entries - gone)
    && forall a, k :: a in gone && k in index ==> Sooner(RemovableAt(entries[a]).value, a, k.at, k.id)
  }

  lemma PopOne(entries: Entries, now: U64, gone: set<EntryId>, index: set<ExpiryKey>, key: ExpiryKey)
    requires Popped(entries, now, gone, index)
    requires key in index && key.at <= now && forall j :: j in index && j != key ==> KeyLess(key, j)
    ensures key.id !in gone
    ensures Popped(entries, now, gone + {key.id}, index - {key})
  {
    ExpiryKeysMember(entries - gone, key);
    ExpiryKeysDrop(entries - gone, {}, key.id);
    assert entries - gone - {key.id} - {} == entries - (gone + {key.id});
    assert entries - gone - {} == entries - gone;
  }

  /** Popping stops early only when nothing due is left. */
  lemma PoppedAll(v: View, now: U64, budget: nat, gone: set<EntryId>, index: set<ExpiryKey>)
    requires Popped(v.entries, now, gone, index)
    requires |gone| <= budget
    requires |gone| == budget || forall k :: k in index ==> k.at > now
    ensures ReclaimStep(v, budget, now, gone, RemoveAll(v, gone))
  {
    var due := Due(v.entries, now);
    forall b | b in due - gone
      ensures RemovableAt(v.entries[b]).value <= now
      ensures ExpiryKey(RemovableAt(v.entries[b]).value, b) in index
    {
      ExpiryKeysMember(v.entries - gone, ExpiryKey(RemovableAt(v.entries[b]).value, b));
    }
    forall a, b | a in gone && b in due - gone
      ensures GoesFirst(v.entries, a, b)
    {
      assert ExpiryKey(RemovableAt(v.entries[b]).value, b) in index;
    }
    SubsetCardinality(gone, due);
    if |gone| != budget {
      forall b | b in due
        ensures b in gone
      {
        ExpiryKeysMember(v.entries - gone, ExpiryKey(RemovableAt(v.entries[b]).value, b));
      }
      assert gone == due;
    }
  }

  function TagIds(ns: Text, tags: seq<Text>): (r: seq<TagId>)
    ensures Elements(r) == TagsOf(ns, tags)
  {
    var r := seq(|tags|, i requires 0 <= i < |tags| => TagId(ns, tags[i]));
    assert forall i :: 0 <= i < |tags| ==> r[i] == TagId(ns, tags[i]);
    assert forall t :: t in TagsOf(ns, tags) ==> exists i :: 0 <= i < |tags| && tags[i] == t.tag && r[i] == t;
    r
  }

  type TagIndex = map<TagId, set<EntryId>>

  function Lookup(index: TagIndex, t: TagId): set<EntryId> {
    if t in index then index[t] else {}
  }

  predicate NoEmptySet(index: TagIndex) {
    forall t :: t in index ==> index[t] != {}
  }

  /** The tag index is the inverse of the entries' tags, has no empty set, and lacks `hole`. */
  ghost predicate TagsExact(index: TagIndex, entries: Entries, hole: set<TagId>) {
    && NoEmptySet(index)
    && forall t :: Lookup(index, t) == if t in hole then {} else Tagged(entries, t)
  }

  /** `index'` is `index` with `id` taken out under each of `tags`. */
  ghost predicate Unindexed(index: TagIndex, index': TagIndex, id: EntryId, tags: seq<Text>) {
    && NoEmptySet(index')
    && forall t :: Lookup(index', t) == Lookup(index, t) - if t.ns == id.ns && t.tag in tags then {id} else {}
  }

  lemma TagsExactWithout(index: TagIndex, index': TagIndex, entries: Entries, hole: set<TagId>, id: EntryId)
    requires id in entries
    requires TagsExact(index, entries, hole)
    requires Unindexed(index, index', id, entries[id].tags)
    ensures TagsExact(index', entries - {id}, hole)
  {
    forall t: TagId
      ensures Tagged(entries - {id}, t) == Tagged(entries, t) - if HasTag(id, entries[id], t) then {id} else {}
    {
    }
  }

  /** `index'` is `index` with `id` added under each of `tags`. */
  ghost predicate Indexed(index: TagIndex, index': TagIndex, id: EntryId, tags: seq<Text>) {
    && NoEmptySet(index')
    && forall t :: Lookup(index', t) == Lookup(index, t) + if t.ns == id.ns && t.tag in tags then {id} else {}
  }

  lemma TagsExactWith(index: TagIndex, index': TagIndex, entries: Entries, id: EntryId, e: Entry)
    requires id !in entries
    requires TagsExact(index, entries, {})
    requires Indexed(index, index', id, e.tags)
    ensures TagsExact(index', entries[id := e], {})
  {
    forall t: TagId
      ensures Tagged(entries[id := e], t) == Tagged(entries, t) + if HasTag(id, e, t) then {id} else {}
    {
    }
  }

  lemma ExpiryKeysWith(entries: Entries, id: EntryId, e: Entry)
    requires id !in entries
    ensures ExpiryKeys(entries[id := e]) ==
            ExpiryKeys(entries) + (if RemovableAt(e).Some? then {ExpiryKey(RemovableAt(e).value, id)} else {})
  {
    ExpiryKeysDrop(entries[id := e], {}, id);
    assert entries[id := e] - {id} - {} == entries;
    assert entries[id := e] - {} == entries[id := e];
    if RemovableAt(e).Some? {
      ExpiryKeysMember(entries[id := e], ExpiryKey(RemovableAt(e).value, id));
    }
  }

  lemma InsertKeeps(index: TagIndex, index': TagIndex, entries: Entries, id: EntryId, e: Entry)
    requires id !in entries
    requires TagsExact(index, entries, {})
    requires Indexed(index, index', id, e.tags)
    ensures var more := entries[id := e];
            && TagsExact(index', more, {})
            && ExpiryKeys(more - {}) ==
               ExpiryKeys(entries - {}) + (if RemovableAt(e).Some? then {ExpiryKey(RemovableAt(e).value, id)} else {})
            && Memory(more) == Memory(entries) + e.memory
            && Cost(more) == Cost(entries) + CostOf(e)
  {
    TagsExactWith(index, index', entries, id, e);
    ExpiryKeysWith(entries, id, e);
    NoHole(entries, {});
    NoHole(entries[id := e], {});
    TotalInsert(entries, MemoryOf, id, e);
    TotalInsert(entries, CostOf, id, e);
  }

  lemma RemoveKeeps(index: TagIndex, index': TagIndex, entries: Entries, id: EntryId, tagHole: set<TagId>,
                    expiryHole: set<EntryId>)
    requires id in entries
    requires TagsExact(index, entries, tagHole)
    requires Unindexed(index, index', id, entries[id].tags)
    ensures var less, at := entries - {id}, RemovableAt(entries[id]);
            && TagsExact(index', less, tagHole)
            && ExpiryKeys(less - expiryHole) ==
               ExpiryKeys(entries - expiryHole) - (if at.Some? then {ExpiryKey(at.value, id)} else {})
            && Memory(less) == Memory(entries) - entries[id].memory
            && Cost(less) == Cost(entries) - CostOf(entries[id])
  {
    TagsExactWithout(index, index', entries, tagHole, id);
    ExpiryKeysDrop(entries, expiryHole, id);
    TotalRemove(entries, MemoryOf, id);
    TotalRemove(entries, CostOf, id);
  }

  /** `id` is the least recently used of the entries looked at, and `unseen` are the others. */
  ghost predicate Sampled(entries: Entries, sample: set<EntryId>, unseen: set<EntryId>, id: EntryId) {
    && unseen !! sample && unseen + sample == entries.Keys && id in sample
    && forall y :: y in sample ==> entries[id].lastAccess <= entries[y].lastAccess
  }

  lemma SampleOne(entries: Entries, sample: set<EntryId>, unseen: set<EntryId>, id: EntryId, next: EntryId)
    requires Sampled(entries, sample, unseen, id) && next in unseen
    ensures |sample + {next}| == |sample| + 1 && id in entries && next in entries
    ensures Sampled(entries, sample + {next}, unseen - {next},
                    if entries[next].lastAccess < entries[id].lastAccess then next else id)
  {
  }

  lemma FullSample(entries: Entries, sample: set<EntryId>, x: EntryId)
    requires x in sample && sample <= entries.Keys
    requires |sample| == LRU_SAMPLE_SIZE || sample == entries.Keys
    requires forall y :: y in sample ==> entries[x].lastAccess <= entries[y].lastAccess
    ensures LeastOfSample(entries, x)
  {
    SubsetCardinality(sample, NotOlder(entries, x));
  }

  ghost predicate EvictedSoFar(v: View, victims: seq<EntryId>, size: nat, maxMemory: nat, left: View) {
    Evicting(v.entries, victims, size, maxMemory) && left == RemoveAll(v, Elements(victims))
  }

  lemma EvictingMore(v: View, victims: seq<EntryId>, size: nat, maxMemory: nat, left: View, x: EntryId)
    requires EvictedSoFar(v, victims, size, maxMemory, left)
    requires Memory(left.entries) + size > maxMemory && LeastOfSample(left.entries, x)
    ensures EvictedSoFar(v, victims + [x], size, maxMemory, Remove(left, x))
  {
    var more := victims + [x];
    forall k | 0 <= k < |more|
      ensures EvictedAt(v.entries, more, k, size, maxMemory)
    {
      if k == |victims| {
        assert more[..k] == victims;
      } else {
        assert EvictedAt(v.entries, victims, k, size, maxMemory);
        assert more[..k] == victims[..k];
      }
    }
    RemoveAllTwice(v, Elements(victims), {x});
    assert Elements(more) == Elements(victims) + {x};
  }

  lemma EvictedMemory(entries: Entries, size: nat, maxMemory: nat)
    requires size <= maxMemory < Memory(entries) + size
    ensures entries.Keys != {}
  {
  }

  /** A new access stamp changes no index and no sum. */
  lemma TouchKeeps(entries: Entries, id: EntryId, access: U64)
    requires id in entries
    ensures var touched := entries[id := entries[id].(lastAccess := access)];
            && (forall t :: Tagged(touched, t) == Tagged(entries, t))
            && ExpiryKeys(touched - {}) == ExpiryKeys(entries - {})
            && Memory(touched) == Memory(entries)
            && Cost(touched) == Cost(entries)
  {
    var touched := entries[id := entries[id].(lastAccess := access)];
    assert touched - {id} == entries - {id};
    TotalRemove(entries, MemoryOf, id);
    TotalRemove(touched, MemoryOf, id);
    TotalRemove(entries, CostOf, id);
    TotalRemove(touched, CostOf, id);
    forall k: ExpiryKey
      ensures k in ExpiryKeys(touched - {}) <==> k in ExpiryKeys(entries - {})
    {
      ExpiryKeysMember(touched - {}, k);
      ExpiryKeysMember(entries - {}, k);
    }
  }

  lemma TagsExactHole(index: TagIndex, v: View, t: TagId)
    requires TagsExact(index, v.entries, {})
    ensures TagsExact(index - {t}, v.entries, {t})
    ensures Tagged(v.entries, t) == Lookup(index, t) <= v.entries.Keys
    ensures t !in index ==> Tagged(v.entries, t) == {} && InvalidateView(v, t) == v
  {
    assert RemoveAll(v, {}) == v;
    forall u: TagId | u != t
      ensures Lookup(index - {t}, u) == Lookup(index, u)
    {
    }
  }

  lemma TagsExactNoHole(index: TagIndex, v: View, t: TagId)
    requires TagsExact(index, InvalidateView(v, t).entries, {t})
    ensures TagsExact(index, InvalidateView(v, t).entries, {})
  {
    assert Tagged(InvalidateView(v, t).entries, t) == {};
  }

  /** The overhead bounds the number of entries, so a budget of `usize::MAX` never binds. */
  lemma {:induction false} ChargedCount(entries: Entries)
    ensures |entries.Keys| <= Memory(entries)
    decreases entries.Keys
  {
    if entries.Keys != {} {
      var id :| id in entries;
      TotalRemove(entries, MemoryOf, id);
      ChargedCount(entries - {id});
      assert (entries - {id}).Keys == entries.Keys - {id};
    }
  }

  ghost predicate CostExact(total: nat, entries: Entries, saturated: bool) {
    && total <= Min(Cost(entries), U64_MAX)
    && (!saturated ==> total == Cost(entries))
  }

  predicate KeyLess(j: ExpiryKey, k: ExpiryKey) {
    Sooner(j.at, j.id, k.at, k.id)
  }

  lemma {:induction false} LeastKey(keys: set<ExpiryKey>) returns (k: ExpiryKey)
    requires keys != {}
    ensures k in keys && forall j :: j in keys && j != k ==> KeyLess(k, j)
  {
    hide KeyLess;
    k :| k in keys;
    var others := keys - {k};
    assert forall j :: j in keys ==> j == k || j in others;
    if others != {} {
      var least := LeastKey(others);
      KeysTotal(least, k);
      if KeyLess(least, k) {
        k := least;
      } else {
        forall j | j in keys && j != k
          ensures KeyLess(k, j)
        {
          if j != least {
            KeysTransitive(k, least, j);
          }
        }
      }
    }
  }

  lemma KeysTotal(j: ExpiryKey, k: ExpiryKey)
    requires j != k
    ensures KeyLess(j, k) || KeyLess(k, j)
  {
    EngineRuns.SoonerTotal(j.at, j.id, k.at, k.id);
  }

  lemma KeysTransitive(i: ExpiryKey, j: ExpiryKey, k: ExpiryKey)
    requires KeyLess(i, j) && KeyLess(j, k)
    ensures KeyLess(i, k)
  {
    EngineRuns.SoonerTransitive(i.at, i.id, j.at, j.id, k.at, k.id);
  }

  lemma RemoveShape(v: View, id: EntryId)
    ensures Remove(v, id) == if id in v.entries then View(v.entries - {id}, v.leases - {id}, v.nextAccess) else v
  {
    if id in v.entries {
      assert {id} * v.entries.Keys == {id};
    } else {
      assert {id} * v.entries.Keys == {};
      assert v.entries - {id} == v.entries;
    }
  }

  lemma RemoveAllTwice(v: View, a: set<EntryId>, b: set<EntryId>)
    ensures RemoveAll(RemoveAll(v, a), b) == RemoveAll(v, a + b)
  {
    assert v.entries - a - b == v.entries - (a + b);
    assert v.leases - (a * v.entries.Keys) - (b * (v.entries - a).Keys) == v.leases - ((a + b) * v.entries.Keys);
  }

  class Engine {
    var entries: map<EntryId, Entry>
    var leases: map<EntryId, Lease>
    var tagIndex: TagIndex
    var expiryIndex: set<ExpiryKey>
    const limits: Limits
    var memoryUsed: nat
    var costTotal: nat
    var nextAccess: U64
    var expirations: nat
    var evictions: nat

    /** Whether the true cost sum has ever been above `u64::MAX`. */
    ghost var costSaturated: bool

    function Contents(): View
      reads this
    {
      View(entries, leases, nextAccess)
    }

    /** All indexes are exact, except that `tagHole` and `expiryHole` have been taken out. */
    ghost predicate Consistent(tagHole: set<TagId>, expiryHole: set<EntryId>)
      reads this
    {
      && limits.maxMemory < U64_MAX
      && TagsExact(tagIndex, entries, tagHole)
      && expiryIndex == ExpiryKeys(entries - expiryHole)
      && memoryUsed == Memory(entries) <= limits.maxMemory
      && CostExact(costTotal, entries, costSaturated)
    }

    ghost predicate Valid()
      reads this
    {
      Consistent({}, {})
    }

    constructor (limits: Limits)
      requires limits.maxMemory < U64_MAX
      ensures Valid() && Contents() == EMPTY && this.limits == limits && !costSaturated
      ensures expirations == evictions == 0
    {
      entries, leases, tagIndex, expiryIndex := map[], map[], map[], {};
      this.limits := limits;
      memoryUsed, costTotal, nextAccess, expirations, evictions := 0, 0, 0, 0, 0;
      costSaturated := false;
    }

    /** The tag loop of entry removal; a tag listed twice, or already taken out, is skipped. */
    method UnindexTags(id: EntryId, tags: seq<Text>)
      requires NoEmptySet(tagIndex)
      modifies `tagIndex
      ensures Unindexed(old(tagIndex), tagIndex, id, tags)
    {
      for i := 0 to |tags|
        invariant Unindexed(old(tagIndex), tagIndex, id, tags[..i])
      {
        var t := TagId(id.ns, tags[i]);
        if t in tagIndex {
          var ids := tagIndex[t] - {id};
          tagIndex := if ids == {} then tagIndex - {t} else tagIndex[t := ids];
        }
      }
      assert tags[..|tags|] == tags;
    }

    method RemoveEntry(id: EntryId, ghost tagHole: set<TagId>, ghost expiryHole: set<EntryId>) returns (existed: bool)
      requires Consistent(tagHole, expiryHole)
      modifies this
      ensures Consistent(tagHole, expiryHole)
      ensures existed == (id in old(entries))
      ensures Contents() == Remove(old(Contents()), id)
      ensures expirations == old(expirations) && evictions == old(evictions) && costSaturated == old(costSaturated)
    {
      RemoveShape(Contents(), id);
      if id !in entries {
        return false;
      }
      ghost var before := entries;
      var tags := entries[id].tags;
      Unlink(id);
      UnindexTags(id, tags);
      RemoveKeeps(old(tagIndex), tagIndex, before, id, tagHole, expiryHole);
      return true;
    }

    /** Entry removal up to its tag loop: table, lease, sums and expiry index. */
    method Unlink(id: EntryId)
      requires id in entries
      modifies `entries, `leases, `memoryUsed, `costTotal, `expiryIndex
      ensures entries == old(entries) - {id} && leases == old(leases) - {id}
      ensures memoryUsed == SatSub(old(memoryUsed), old(entries)[id].memory)
      ensures costTotal == SatSub(old(costTotal), CostOf(old(entries)[id]))
      ensures var at := RemovableAt(old(entries)[id]);
              expiryIndex == old(expiryIndex) - if at.Some? then {ExpiryKey(at.value, id)} else {}
    {
      var entry := entries[id];
      entries := entries - {id};
      leases := leases - {id};
      memoryUsed := SatSub(memoryUsed, entry.memory);
      costTotal := SatSub(costTotal, if entry.cost.Some? then entry.cost.value else 0);
      if RemovableAt(entry).Some? {
        expiryIndex := expiryIndex - {ExpiryKey(RemovableAt(entry).value, id)};
      }
    }

    /** The front of the ordered expiry index. */
    method FirstKey() returns (first: Option<ExpiryKey>)
      ensures first.None? <==> expiryIndex == {}
      ensures first.Some? ==>
                && first.value in expiryIndex
                && forall j :: j in expiryIndex && j != first.value ==> KeyLess(first.value, j)
    {
      if expiryIndex == {} {
        return None;
      }
      ghost var _ := LeastKey(expiryIndex);
      var key :| key in expiryIndex && forall j :: j in expiryIndex && j != key ==> KeyLess(key, j);
      return Some(key);
    }

    /** First loop of reclaim: takes due keys off the front of the expiry index, which then misses them. */
    method PopDue(budget: nat, now: U64) returns (expired: seq<EntryId>, ghost gone: set<EntryId>)
      requires expiryIndex == ExpiryKeys(entries)
      modifies `expiryIndex
      ensures gone == Elements(expired) && |gone| == |expired|
      ensures forall i, j :: 0 <= i < j < |expired| ==> expired[i] != expired[j]
      ensures ReclaimStep(Contents(), budget, now, gone, RemoveAll(Contents(), gone))
      ensures expiryIndex == ExpiryKeys(entries - gone)
    {
      expired := [];
      gone := {};
      assert entries - gone == entries;
      while |expired| < budget
        invariant gone == Elements(expired) && |gone| == |expired| <= budget
        invariant forall i, j :: 0 <= i < j < |expired| ==> expired[i] != expired[j]
        invariant Popped(entries, now, gone, expiryIndex)
        decreases expiryIndex
      {
        var first := FirstKey();
        if first.None? {
          break;
        }
        var key := first.value;
        if key.at > now {
          break;
        }
        PopOne(entries, now, gone, expiryIndex, key);
        expiryIndex := expiryIndex - {key};
        expired := expired + [key.id];
        gone := gone + {key.id};
      }
      PoppedAll(Contents(), now, budget, gone, expiryIndex);
    }

    /** The removal loop of reclaim and of tag invalidation: every listed entry goes and is counted. */
    method RemoveEach(ids: seq<EntryId>, ghost tagHole: set<TagId>, ghost expiryHole: set<EntryId>)
      returns (removed: nat)
      requires Consistent(tagHole, expiryHole)
      requires Elements(ids) <= entries.Keys
      requires forall i, j :: 0 <= i < j < |ids| ==> ids[i] != ids[j]
      modifies this
      ensures Consistent(tagHole, expiryHole)
      ensures Contents() == RemoveAll(old(Contents()), Elements(ids))
      ensures removed == |ids|
      ensures expirations == old(expirations) && evictions == old(evictions) && costSaturated == old(costSaturated)
    {
      removed := 0;
      ghost var before := Contents();
      ghost var done: set<EntryId> := {};
      assert RemoveAll(before, done) == before;
      for i := 0 to |ids|
        invariant Consistent(tagHole, expiryHole)
        invariant done == Elements(ids[..i])
        invariant Contents() == RemoveAll(before, done)
        invariant removed == i
        invariant expirations == old(expirations) && evictions == old(evictions) && costSaturated == old(costSaturated)
      {
        var existed := RemoveEntry(ids[i], tagHole, expiryHole);
        RemoveAllTwice(before, done, {ids[i]});
        done := done + {ids[i]};
        if existed {
          removed := removed + 1;
        }
      }
      assert ids[..|ids|] == ids;
    }

    /** Second loop of reclaim, which closes the hole in the expiry index. */
    method RemovePopped(expired: seq<EntryId>, ghost gone: set<EntryId>) returns (removed: nat)
      requires Consistent({}, gone)
      requires gone == Elements(expired) <= entries.Keys
      requires forall i, j :: 0 <= i < j < |expired| ==> expired[i] != expired[j]
      modifies this
      ensures Valid()
      ensures Contents() == RemoveAll(old(Contents()), gone)
      ensures removed == |expired| && expirations == old(expirations) + removed
      ensures evictions == old(evictions) && costSaturated == old(costSaturated)
    {
      removed := RemoveEach(expired, {}, gone);
      expirations := expirations + removed;
      HoleClosed(old(Contents()), gone);
    }

    method RemoveExpired(budget: nat, now: U64) returns (removed: nat, ghost gone: set<EntryId>)
      requires Valid()
      modifies this
      ensures Valid()
      ensures ReclaimStep(old(Contents()), budget, now, gone, Contents())
      ensures removed == |gone|
      ensures expirations == old(expirations) + removed
      ensures evictions == old(evictions) && costSaturated == old(costSaturated)
    {
      NoHole(entries, {});
      var expired;
      expired, gone := PopDue(budget, now);
      removed := RemovePopped(expired, gone);
    }

    /** An entry with the smallest access stamp among those one bounded scan sees. */
    method LeastRecentlyUsed() returns (victim: Option<EntryId>)
      ensures victim.None? <==> entries.Keys == {}
      ensures victim.Some? ==> LeastOfSample(entries, victim.value)
    {
      if entries.Keys == {} {
        return None;
      }
      var id :| id in entries.Keys;
      var unseen, seen := entries.Keys - {id}, 1;
      ghost var sample := {id};
      while seen < LRU_SAMPLE_SIZE && unseen != {}
        invariant seen == |sample| <= LRU_SAMPLE_SIZE && Sampled(entries, sample, unseen, id)
        decreases unseen
      {
        var next :| next in unseen;
        SampleOne(entries, sample, unseen, id, next);
        unseen, sample, seen := unseen - {next}, sample + {next}, seen + 1;
        if entries[next].lastAccess < entries[id].lastAccess {
          id := next;
        }
      }
      FullSample(entries, sample, id);
      return Some(id);
    }

    /** One round of the eviction loop; false when there was nothing to evict. */
    method EvictOne() returns (victim: Option<EntryId>)
      requires Valid()
      modifies this
      ensures Valid()
      ensures victim.None? <==> old(entries).Keys == {}
      ensures victim.Some? ==> LeastOfSample(old(entries), victim.value)
      ensures Contents() == if victim.Some? then Remove(old(Contents()), victim.value) else old(Contents())
      ensures evictions == old(evictions) + if victim.Some? then 1 else 0
      ensures expirations == old(expirations) && costSaturated == old(costSaturated)
    {
      victim := LeastRecentlyUsed();
      if victim.Some? {
        var existed := RemoveEntry(victim.value, {}, {});
        if existed {
          evictions := evictions + 1;
        } else {
          victim := None;
        }
      }
    }

    method EvictUntilFits(size: Charge) returns (evicted: nat, ghost victims: seq<EntryId>)
      requires Valid() && size <= limits.maxMemory
      modifies this
      ensures Valid()
      ensures Evicts(old(entries), victims, size, limits.maxMemory)
      ensures Contents() == RemoveAll(old(Contents()), Elements(victims))
      ensures evicted == |victims| && evictions == old(evictions) + evicted
      ensures expirations == old(expirations) && costSaturated == old(costSaturated)
    {
      evicted := 0;
      victims := [];
      ghost var before := Contents();
      assert RemoveAll(before, {}) == before;
      while SatAdd(memoryUsed, size) > limits.maxMemory
        invariant Valid()
        invariant EvictedSoFar(before, victims, size, limits.maxMemory, Contents())
        invariant evicted == |victims| && evictions == old(evictions) + evicted
        invariant expirations == old(expirations) && costSaturated == old(costSaturated)
        decreases entries.Keys
      {
        EvictedMemory(entries, size, limits.maxMemory);
        ghost var left := Contents();
        var victim := EvictOne();
        if victim.None? {
          break;
        }
        EvictingMore(before, victims, size, limits.maxMemory, left, victim.value);
        evicted := evicted + 1;
        victims := victims + [victim.value];
      }
    }

    method IndexTags(id: EntryId, tags: seq<Text>)
      requires NoEmptySet(tagIndex)
      modifies `tagIndex
      ensures Indexed(old(tagIndex), tagIndex, id, tags)
    {
      for i := 0 to |tags|
        invariant Indexed(old(tagIndex), tagIndex, id, tags[..i])
      {
        var t := TagId(id.ns, tags[i]);
        tagIndex := tagIndex[t := Lookup(tagIndex, t) + {id}];
      }
      assert tags[..|tags|] == tags;
    }

    method ReclaimAll(now: U64) returns (ghost gone: set<EntryId>)
      requires Valid()
      modifies this
      ensures Valid()
      ensures gone == Due(old(entries), now)
      ensures Contents() == RemoveAll(old(Contents()), gone)
      ensures expirations == old(expirations) + |gone|
      ensures evictions == old(evictions) && costSaturated == old(costSaturated)
    {
      ChargedCount(entries);
      SubsetCardinality(Due(entries, now), entries.Keys);
      var removed;
      removed, gone := RemoveExpired(U64_MAX, now);
      SubsetCardinality(gone, Due(old(entries), now));
    }

    /** The part of a put that makes room: the old entry goes, then due entries, then sampled ones. */
    method MakeRoom(cmd: PutCommand, size: Charge, now: U64)
      returns (evicted: nat, ghost reclaimed: set<EntryId>, ghost victims: seq<EntryId>)
      requires Valid() && size <= limits.maxMemory
      modifies this
      ensures Valid()
      ensures var kept := Remove(old(Contents()), cmd.id).entries;
              && reclaimed == (if Memory(kept) + size > limits.maxMemory then Due(kept, now) else {})
              && Evicts(kept - reclaimed, victims, size, limits.maxMemory)
      ensures Contents() == Cleared(old(Contents()), cmd, reclaimed, victims)
      ensures evicted == |victims|
      ensures expirations == old(expirations) + |reclaimed| && evictions == old(evictions) + evicted
      ensures costSaturated == old(costSaturated)
    {
      var _ := RemoveEntry(cmd.id, {}, {});
      reclaimed := {};
      ghost var kept := Contents();
      assert RemoveAll(kept, {}) == kept;
      if SatAdd(memoryUsed, size) > limits.maxMemory {
        reclaimed := ReclaimAll(now);
      }
      evicted, victims := EvictUntilFits(size);
    }

    /** The part of a put that stores the entry and enters it in every index. */
    method Insert(cmd: PutCommand, size: Charge, now: U64)
      requires Valid() && cmd.id !in entries
      requires size == EntryMemory(cmd.id, cmd.value, cmd.tags) && Memory(entries) + size <= limits.maxMemory
      modifies this
      ensures Valid()
      ensures Contents() == Store(old(Contents()), cmd, now)
      ensures costSaturated == (old(costSaturated) || Cost(entries) > U64_MAX)
      ensures expirations == old(expirations) && evictions == old(evictions)
    {
      var entry := NewEntry(cmd, now, nextAccess);
      IndexTags(cmd.id, cmd.tags);
      InsertKeeps(old(tagIndex), tagIndex, entries, cmd.id, entry);
      Link(cmd.id, entry);
      costSaturated := costSaturated || Cost(entries) > U64_MAX;
    }

    /** Storing an entry after its tag loop: access counter, table, sums and expiry index. */
    method Link(id: EntryId, entry: Entry)
      modifies `entries, `nextAccess, `memoryUsed, `costTotal, `expiryIndex
      ensures entries == old(entries)[id := entry]
      ensures nextAccess == SatAdd(old(nextAccess), 1)
      ensures memoryUsed == SatAdd(old(memoryUsed), entry.memory)
      ensures costTotal == SatAdd(old(costTotal), CostOf(entry))
      ensures var at := RemovableAt(entry);
              expiryIndex == old(expiryIndex) + if at.Some? then {ExpiryKey(at.value, id)} else {}
    {
      nextAccess := SatAdd(nextAccess, 1);
      if RemovableAt(entry).Some? {
        expiryIndex := expiryIndex + {ExpiryKey(RemovableAt(entry).value, id)};
      }
      entries := entries[id := entry];
      memoryUsed := SatAdd(memoryUsed, entry.memory);
      costTotal := SatAdd(costTotal, if entry.cost.Some? then entry.cost.value else 0);
    }

    method Put(cmd: PutCommand, now: U64)
      returns (r: Result<nat, PutError>, ghost reclaimed: set<EntryId>, ghost victims: seq<EntryId>)
      requires Valid()
      modifies this
      ensures Valid()
      ensures Step(limits, old(Contents()), Event(EngineSpec.Put(cmd), now, PutReply(r), reclaimed, victims),
                   Contents())
      ensures expirations == old(expirations) + |reclaimed| && evictions == old(evictions) + |victims|
      ensures costSaturated == (old(costSaturated) || (r.Ok? && Cost(entries) > U64_MAX))
    {
      reclaimed, victims := {}, [];
      if |cmd.value| > limits.maxValue {
        return Err(ValueTooLarge(|cmd.value|, limits.maxValue)), {}, [];
      }
      var size := EntryMemory(cmd.id, cmd.value, cmd.tags);
      if size > limits.maxMemory {
        return Err(ValueTooLargeForMemory(size, limits.maxMemory)), {}, [];
      }
      var evicted;
      evicted, reclaimed, victims := MakeRoom(cmd, size, now);
      if SatAdd(memoryUsed, size) > limits.maxMemory {
        r := Err(InsufficientMemory(size, memoryUsed, limits.maxMemory));
      } else {
        Insert(cmd, size, now);
        r := Ok(evicted);
      }
    }

    method Get(id: EntryId, now: U64, update: bool) returns (outcome: GetOutcome)
      requires Valid()
      modifies this
      ensures Valid()
      ensures Step(limits, old(Contents()), Event(EngineSpec.Get(id, update), now, GetReply(outcome), {}, []),
                   Contents())
      ensures expirations == old(expirations) && evictions == old(evictions) && costSaturated == old(costSaturated)
    {
      if id !in entries {
        return Miss;
      }
      match StateAt(entries[id], now) {
        case Expired =>
          var _ := RemoveEntry(id, {}, {});
          outcome := Miss;
        case Fresh =>
          outcome := Hit(entries[id].value);
          if update {
            RecordAccess(id);
          }
        case Aged =>
          outcome := Stale(entries[id].value);
          if update {
            RecordAccess(id);
          }
      }
    }

    method RecordAccess(id: EntryId)
      requires Valid()
      modifies this
      ensures Valid()
      ensures Contents() == if id in old(entries) then Touch(old(Contents()), id) else old(Contents())
      ensures expirations == old(expirations) && evictions == old(evictions) && costSaturated == old(costSaturated)
    {
      if id !in entries {
        return;
      }
      TouchKeeps(entries, id, nextAccess);
      var access := nextAccess;
      nextAccess := SatAdd(nextAccess, 1);
      entries := entries[id := entries[id].(lastAccess := access)];
    }

    method Delete(id: EntryId, now: U64) returns (existed: bool)
      requires Valid()
      modifies this
      ensures Valid()
      ensures Step(limits, old(Contents()), Event(EngineSpec.Delete(id), now, DeleteReply(existed), {}, []), Contents())
      ensures expirations == old(expirations) && evictions == old(evictions) && costSaturated == old(costSaturated)
    {
      leases := leases - {id};
      existed := RemoveEntry(id, {}, {});
    }

    method InvalidateTag(t: TagId, now: U64) returns (removed: nat)
      requires Valid()
      modifies this
      ensures Valid()
      ensures Step(limits, old(Contents()), Event(Invalidate(t), now, CountReply(removed), {}, []), Contents())
      ensures expirations == old(expirations) && evictions == old(evictions) && costSaturated == old(costSaturated)
    {
      ghost var before := Contents();
      TagsExactHole(tagIndex, before, t);
      if t !in tagIndex {
        return 0;
      }
      var ids := tagIndex[t];
      tagIndex := tagIndex - {t};
      var order := Iterate(ids);
      removed := RemoveEach(order, {t}, {});
      TagsExactNoHole(tagIndex, before, t);
    }

    /** The tags of the entry, in its own order, or none if there is no entry. */
    method TagIdsForEntry(id: EntryId) returns (tags: seq<TagId>)
      ensures Elements(tags) == if id in entries then TagsOf(id.ns, entries[id].tags) else {}
    {
      if id !in entries {
        return [];
      }
      return TagIds(id.ns, entries[id].tags);
    }

    method HasTagId(t: TagId) returns (held: bool)
      requires Valid()
      ensures held <==> Tagged(entries, t) != {}
    {
      assert Lookup(tagIndex, t) == Tagged(entries, t);
      held := t in tagIndex && tagIndex[t] != {};
    }

    predicate ActiveLease(id: EntryId, now: U64)
      reads this
    {
      LeaseActive(Contents(), id, now)
    }

    method CreateLease(id: EntryId, ttl: U64, now: U64) returns (token: Text)
      requires Valid()
      modifies `leases, `nextAccess
      ensures Valid()
      ensures token == LeaseToken(old(nextAccess))
      ensures Contents() == Grant(old(Contents()), id, ttl, now)
    {
      token := LeaseToken(nextAccess);
      nextAccess := SatAdd(nextAccess, 1);
      leases := leases[id := Lease(token, SatAdd(now, ttl))];
    }

    method StartLease(id: EntryId, ttl: U64, now: U64) returns (outcome: LeaseOutcome)
      requires Valid()
      modifies this
      ensures Valid()
      ensures Step(limits, old(Contents()), Event(Start(id, ttl), now, StartReply(outcome), {}, []), Contents())
      ensures expirations == old(expirations) && evictions == old(evictions) && costSaturated == old(costSaturated)
    {
      var active := ActiveLease(id, now);
      if id in entries {
        var value := entries[id].value;
        match StateAt(entries[id], now) {
          case Fresh =>
            RecordAccess(id);
            return LeaseHit(value);
          case Aged =>
            RecordAccess(id);
            if active {
              return LeaseStale(value);
            }
            var token := CreateLease(id, ttl, now);
            return Granted(token, Some(value));
          case Expired =>
            if active {
              return Denied;
            }
            var _ := RemoveEntry(id, {}, {});
        }
      }
      if ActiveLease(id, now) {
        return Denied;
      }
      var token := CreateLease(id, ttl, now);
      return Granted(token, None);
    }

    /** The token check of a completion; an accepted token and a lease that has run out are both removed. */
    method TakeLease(id: EntryId, token: Text, now: U64) returns (accepted: bool)
      requires Valid()
      modifies `leases
      ensures Valid()
      ensures (Contents(), accepted) == ConsumeLease(old(Contents()), id, token, now)
    {
      if !ActiveLease(id, now) {
        leases := leases - {id};
        return false;
      }
      if leases[id].token != token {
        return false;
      }
      leases := leases - {id};
      return true;
    }

    method CompleteLease(token: Text, cmd: PutCommand, now: U64)
      returns (r: Result<nat, CompleteError>, ghost reclaimed: set<EntryId>, ghost victims: seq<EntryId>)
      requires Valid()
      modifies this
      ensures Valid()
      ensures Step(limits, old(Contents()), Event(Complete(token, cmd), now, CompleteReply(r), reclaimed, victims),
                   Contents())
      ensures expirations == old(expirations) + |reclaimed| && evictions == old(evictions) + |victims|
      ensures costSaturated == (old(costSaturated) || (r.Ok? && Cost(entries) > U64_MAX))
    {
      var accepted := TakeLease(cmd.id, token, now);
      if !accepted {
        return Err(InvalidLeaseToken), {}, [];
      }
      var put;
      put, reclaimed, victims := Put(cmd, now);
      r := match put case Ok(n) => Ok(n) case Err(error) => Err(PutFailed(error));
    }

    method ReclaimExpired(budget: nat, now: U64) returns (removed: nat, ghost gone: set<EntryId>)
      requires Valid()
      modifies this
      ensures Valid()
      ensures Step(limits, old(Contents()), Event(Reclaim(budget), now, CountReply(removed), gone, []), Contents())
      ensures expirations == old(expirations) + removed
      ensures evictions == old(evictions) && costSaturated == old(costSaturated)
    {
      removed, gone := RemoveExpired(budget, now);
    }
  }
}
