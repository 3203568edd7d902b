/**
  The cache engine as a state machine over values: what each call of
  `Engine` does to the stored entries, the leases and the access counter.
  The redundant indexes are left to the class in `Engine.dfy`, which is proved
  to follow these steps.
 */
module EngineSpec {
  import opened Base

  const ENTRY_OVERHEAD_BYTES: nat := 96
  const LRU_SAMPLE_SIZE: nat := 16

  /** What an entry is charged: never less than the fixed overhead. */
  type Charge = n: nat | ENTRY_OVERHEAD_BYTES <= n <= U64_MAX witness 96

  // ----- Entities -----

  datatype EntryId = EntryId(ns: Text, key: Bytes)

  datatype TagId = TagId(ns: Text, tag: Text)

  datatype Entry = Entry(
    value: Bytes,
    expiresAt: Option<U64>,
    staleUntil: Option<U64>,
    tags: seq<Text>,
    cost: Option<U64>,
    memory: Charge,
    lastAccess: U64)

  datatype Lease = Lease(token: Text, expiresAt: U64)

  datatype Limits = Limits(maxMemory: nat, maxValue: nat)

  datatype PutCommand = PutCommand(
    id: EntryId,
    value: Bytes,
    ttl: Option<U64>,
    staleTtl: Option<U64>,
    tags: seq<Text>,
    cost: Option<U64>)

  datatype PutError =
    | ValueTooLarge(valueBytes: nat, maxValueBytes: nat)
    | ValueTooLargeForMemory(entryBytes: nat, maxMemoryBytes: nat)
    | InsufficientMemory(requiredBytes: nat, memoryUsed: nat, maxMemoryBytes: nat)

  datatype CompleteError = InvalidLeaseToken | PutFailed(error: PutError)

  datatype GetOutcome = Hit(value: Bytes) | Stale(value: Bytes) | Miss

  datatype LeaseOutcome =
    | LeaseHit(value: Bytes)
    | LeaseStale(value: Bytes)
    | Granted(token: Text, staleValue: Option<Bytes>)
    | Denied

  datatype EntryState = Fresh | Aged | Expired

  // ----- Pure helpers of the source -----

  function SumLengths(tags: seq<Text>): nat {
    if tags == [] then 0 else |tags[0]| + SumLengths(tags[1..])
  }

  function EntryMemory(id: EntryId, value: Bytes, tags: seq<Text>): Charge {
    SatAdd(SatAdd(SatAdd(SatAdd(ENTRY_OVERHEAD_BYTES, |id.ns|), |id.key|), |value|), SumLengths(tags))
  }

  function TagsOf(ns: Text, tags: seq<Text>): set<TagId> {
    set tag | tag in tags :: TagId(ns, tag)
  }

  function RemovableAt(e: Entry): Option<U64> {
    if e.staleUntil.Some? then e.staleUntil else e.expiresAt
  }

  function StateAt(e: Entry, now: U64): EntryState {
    if e.expiresAt.None? || now <= e.expiresAt.value then Fresh
    else if e.staleUntil.Some? && now <= e.staleUntil.value then Aged
    else Expired
  }

  /** Reclaim may take an entry from its removable time on, the instant itself included. */
  predicate IsDue(e: Entry, now: U64) {
    RemovableAt(e).Some? && RemovableAt(e).value <= now
  }

  /** The order of ids: by namespace, then by key. */
  predicate IdLess(a: EntryId, b: EntryId) {
    Less(a.ns, b.ns) || (a.ns == b.ns && Less(a.key, b.key))
  }

  /** The order of the expiry index: by time, then by id. */
  predicate Sooner(at: U64, a: EntryId, later: U64, b: EntryId) {
    at < later || (at == later && IdLess(a, b))
  }

  /** Whether reclaim takes entry `a` before entry `b`. */
  predicate GoesFirst(entries: Entries, a: EntryId, b: EntryId)
    requires a in entries && b in entries && RemovableAt(entries[a]).Some? && RemovableAt(entries[b]).Some?
  {
    Sooner(RemovableAt(entries[a]).value, a, RemovableAt(entries[b]).value, b)
  }

  function Decimal(n: nat): Text {
    (if n < 10 then [] else Decimal(n / 10)) + [48 + n % 10]
  }

  /** The text `lease-<n>`. */
  function LeaseToken(n: nat): Text {
    [108, 101, 97, 115, 101, 45] + Decimal(n)
  }

  // ----- State -----

  type Entries = map<EntryId, Entry>

  datatype View = View(entries: Entries, leases: map<EntryId, Lease>, nextAccess: U64)

  const EMPTY := View(map[], map[], 0)

  function MemoryOf(e: Entry): nat {
    e.memory
  }

  function CostOf(e: Entry): nat {
    if e.cost.Some? then e.cost.value else 0
  }

  ghost function Memory(entries: Entries): nat {
    Total(entries, MemoryOf)
  }

  ghost function Cost(entries: Entries): nat {
    Total(entries, CostOf)
  }

  predicate HasTag(id: EntryId, e: Entry, t: TagId) {
    id.ns == t.ns && t.tag in e.tags
  }

  function Tagged(entries: Entries, t: TagId): set<EntryId> {
    set id | id in entries && HasTag(id, entries[id], t)
  }

  function Due(entries: Entries, now: U64): set<EntryId> {
    set id | id in entries && IsDue(entries[id], now)
  }

  function RemoveAll(v: View, ids: set<EntryId>): View {
    v.(entries := v.entries - ids, leases := v.leases - (ids * v.entries.Keys))
  }

  /** Removing an absent entry does nothing: its lease stays. */
  function Remove(v: View, id: EntryId): View {
    RemoveAll(v, {id})
  }

  function Touch(v: View, id: EntryId): View
    requires id in v.entries
  {
    v.(entries := v.entries[id := v.entries[id].(lastAccess := v.nextAccess)],
       nextAccess := SatAdd(v.nextAccess, 1))
  }

  // ----- Reads and deletes -----

  function GetView(v: View, id: EntryId, now: U64, update: bool): View {
    if id !in v.entries then v
    else if StateAt(v.entries[id], now) == Expired then Remove(v, id)
    else if update then Touch(v, id)
    else v
  }

  function GetResult(v: View, id: EntryId, now: U64): GetOutcome {
    if id !in v.entries then Miss
    else match StateAt(v.entries[id], now)
      case Expired => Miss
      case Fresh => Hit(v.entries[id].value)
      case Aged => Stale(v.entries[id].value)
  }

  function DeleteView(v: View, id: EntryId): View {
    Remove(v.(leases := v.leases - {id}), id)
  }

  function InvalidateView(v: View, t: TagId): View {
    RemoveAll(v, Tagged(v.entries, t))
  }

  // ----- Leases -----

  predicate LeaseActive(v: View, id: EntryId, now: U64) {
    id in v.leases && now <= v.leases[id].expiresAt
  }

  function Grant(v: View, id: EntryId, ttl: U64, now: U64): View {
    v.(leases := v.leases[id := Lease(LeaseToken(v.nextAccess), SatAdd(now, ttl))],
       nextAccess := SatAdd(v.nextAccess, 1))
  }

  function StartLease(v: View, id: EntryId, ttl: U64, now: U64): (View, LeaseOutcome) {
    var active := LeaseActive(v, id, now);
    if id !in v.entries then
      if active then (v, Denied)
      else (Grant(v, id, ttl, now), Granted(LeaseToken(v.nextAccess), None))
    else
      var value := v.entries[id].value;
      match StateAt(v.entries[id], now)
      case Fresh => (Touch(v, id), LeaseHit(value))
      case Aged =>
        var w := Touch(v, id);
        if active then (w, LeaseStale(value))
        else (Grant(w, id, ttl, now), Granted(LeaseToken(w.nextAccess), Some(value)))
      case Expired =>
        if active then (v, Denied)
        else
          var w := Remove(v, id);
          (Grant(w, id, ttl, now), Granted(LeaseToken(w.nextAccess), None))
  }

  /** `w` is the state when the token has been checked, before the inner put. */
  function ConsumeLease(v: View, id: EntryId, token: Text, now: U64): (r: (View, bool)) {
    if !LeaseActive(v, id, now) then (v.(leases := v.leases - {id}), false)
    else if v.leases[id].token != token then (v, false)
    else (v.(leases := v.leases - {id}), true)
  }

  // ----- Reclaim -----

  /** Exactly `min(budget, due)` due entries go, in the order of the expiry index. */
  predicate ReclaimStep(v: View, budget: nat, now: U64, removed: set<EntryId>, v': View) {
    && removed <= Due(v.entries, now)
    && |removed| == Min(budget, |Due(v.entries, now)|)
    && (forall a, b :: a in removed && b in Due(v.entries, now) - removed ==> GoesFirst(v.entries, a, b))
    && v' == RemoveAll(v, removed)
  }

  // ----- Put -----

  /** The entries used at or after the last use of `x`, itself included. */
  function NotOlder(entries: Entries, x: EntryId): set<EntryId>
    requires x in entries
  {
    set y | y in entries && entries[x].lastAccess <= entries[y].lastAccess
  }

  /** What a scan of at most sixteen entries can pick: nothing in some full sample is older than `x`. */
  predicate LeastOfSample(entries: Entries, x: EntryId) {
    x in entries && |NotOlder(entries, x)| >= Min(LRU_SAMPLE_SIZE, |entries|)
  }

  /**
    `victims`, in order, are evicted one scan at a time: each while `size` more
    bytes do not fit yet, and they fit once the last one is gone.
   */
  ghost predicate Evicts(entries: Entries, victims: seq<EntryId>, size: nat, maxMemory: nat) {
    && Evicting(entries, victims, size, maxMemory)
    && Memory(entries - Elements(victims)) + size <= maxMemory
  }

  ghost predicate Evicting(entries: Entries, victims: seq<EntryId>, size: nat, maxMemory: nat) {
    forall k :: 0 <= k < |victims| ==> EvictedAt(entries, victims, k, size, maxMemory)
  }

  /** The entries still present when victim `k` is chosen. */
  function Left(entries: Entries, victims: seq<EntryId>, k: nat): Entries
    requires k <= |victims|
  {
    entries - Elements(victims[..k])
  }

  /** Victim `k` goes while there is still no room, and is least of some sample of what is left. */
  ghost predicate EvictedAt(entries: Entries, victims: seq<EntryId>, k: nat, size: nat, maxMemory: nat)
    requires k < |victims|
  {
    var left := Left(entries, victims, k);
    Memory(left) + size > maxMemory && LeastOfSample(left, victims[k])
  }

  function NewEntry(cmd: PutCommand, now: U64, access: U64): Entry {
    var expiresAt := if cmd.ttl.Some? then Some(SatAdd(now, cmd.ttl.value)) else None;
    var staleUntil :=
      if expiresAt.Some? && cmd.staleTtl.Some? then Some(SatAdd(expiresAt.value, cmd.staleTtl.value)) else None;
    Entry(cmd.value, expiresAt, staleUntil, cmd.tags, cmd.cost, EntryMemory(cmd.id, cmd.value, cmd.tags), access)
  }

  function Store(v: View, cmd: PutCommand, now: U64): View {
    v.(entries := v.entries[cmd.id := NewEntry(cmd, now, v.nextAccess)],
       nextAccess := SatAdd(v.nextAccess, 1))
  }

  function Admission(limits: Limits, cmd: PutCommand): Result<(), PutError> {
    var size := EntryMemory(cmd.id, cmd.value, cmd.tags);
    if |cmd.value| > limits.maxValue then Err(ValueTooLarge(|cmd.value|, limits.maxValue))
    else if size > limits.maxMemory then Err(ValueTooLargeForMemory(size, limits.maxMemory))
    else Ok(())
  }

  /** The state once room has been made: replaced entry, due entries and victims gone. */
  function Cleared(v: View, cmd: PutCommand, reclaimed: set<EntryId>, evicted: seq<EntryId>): View {
    RemoveAll(RemoveAll(Remove(v, cmd.id), reclaimed), Elements(evicted))
  }

  ghost predicate PutStep(limits: Limits, v: View, cmd: PutCommand, now: U64, reclaimed: set<EntryId>,
                          evicted: seq<EntryId>, r: Result<nat, PutError>, v': View)
  {
    match Admission(limits, cmd)
    case Err(error) => r == Err(error) && v' == v && reclaimed == {} && evicted == []
    case Ok(_) =>
      var size := EntryMemory(cmd.id, cmd.value, cmd.tags);
      var kept := Remove(v, cmd.id).entries;
      && reclaimed == (if Memory(kept) + size > limits.maxMemory then Due(kept, now) else {})
      && Evicts(kept - reclaimed, evicted, size, limits.maxMemory)
      && r == Ok(|evicted|)
      && v' == Store(Cleared(v, cmd, reclaimed, evicted), cmd, now)
  }

  // ----- The engine as one labelled transition relation -----

  datatype Op =
    | Put(cmd: PutCommand)
    | Get(id: EntryId, update: bool)
    | Delete(id: EntryId)
    | Invalidate(tag: TagId)
    | Start(id: EntryId, leaseTtl: U64)
    | Complete(token: Text, cmd: PutCommand)
    | Reclaim(budget: nat)

  datatype Reply =
    | PutReply(put: Result<nat, PutError>)
    | GetReply(got: GetOutcome)
    | DeleteReply(existed: bool)
    | CountReply(count: nat)
    | StartReply(lease: LeaseOutcome)
    | CompleteReply(done: Result<nat, CompleteError>)

  /** One call: what was asked, when, what was answered, and which entries made room for it. */
  datatype Event = Event(op: Op, now: U64, reply: Reply, reclaimed: set<EntryId>, evicted: seq<EntryId>)

  ghost predicate Step(limits: Limits, v: View, e: Event, v': View) {
    match e.op
    case Put(cmd) =>
      e.reply.PutReply? && PutStep(limits, v, cmd, e.now, e.reclaimed, e.evicted, e.reply.put, v')
    case Get(id, update) =>
      Quiet(e) && e.reply == GetReply(GetResult(v, id, e.now)) && v' == GetView(v, id, e.now, update)
    case Delete(id) =>
      Quiet(e) && e.reply == DeleteReply(id in v.entries) && v' == DeleteView(v, id)
    case Invalidate(t) =>
      Quiet(e) && e.reply == CountReply(|Tagged(v.entries, t)|) && v' == InvalidateView(v, t)
    case Start(id, ttl) =>
      var (w, outcome) := StartLease(v, id, ttl, e.now);
      Quiet(e) && e.reply == StartReply(outcome) && v' == w
    case Complete(token, cmd) =>
      && e.reply.CompleteReply?
      && var (w, accepted) := ConsumeLease(v, cmd.id, token, e.now);
         if !accepted then Quiet(e) && e.reply.done == Err(InvalidLeaseToken) && v' == w
         else
           && e.reply.done != Err(InvalidLeaseToken)
           && PutStep(limits, w, cmd, e.now, e.reclaimed, e.evicted, InnerPut(e.reply.done), v')
    case Reclaim(budget) =>
      && e.evicted == []
      && e.reply == CountReply(|e.reclaimed|)
      && ReclaimStep(v, budget, e.now, e.reclaimed, v')
  }

  /** The result of the put inside a completion whose token was accepted. */
  function InnerPut(done: Result<nat, CompleteError>): Result<nat, PutError>
    requires done != Err(InvalidLeaseToken)
  {
    match done
    case Ok(n) => Ok(n)
    case Err(PutFailed(error)) => Err(error)
  }

  predicate Quiet(e: Event) {
    e.reclaimed == {} && e.evicted == []
  }

  /** A run of whole calls: `vs[i]` is the state before event `i`; time never goes back. */
  ghost predicate Run(limits: Limits, vs: seq<View>, es: seq<Event>) {
    && |vs| == |es| + 1
    && vs[0] == EMPTY
    && (forall i :: 0 <= i < |es| ==> Step(limits, vs[i], es[i], vs[i + 1]))
    && (forall i, j :: 0 <= i < j < |es| ==> es[i].now <= es[j].now)
  }
}
