/**
  One native connection as a state machine: frames are answered inline, in
  order, until a read delivers more than one at once; from then on each frame
  gets its own task, and a writer joins finished responses into larger writes.
  Tasks, the writer and other connections interleave freely.
 */
module Connection {
  import opened Base
  import opened Wire
  import opened Codec
  import opened CodecProofs
  import opened Framing
  import opened Server
  import opened ShardedSpec
  import E = EngineSpec

  const MAX_IN_FLIGHT: nat := 128
  const MAX_WRITE_FRAMES: nat := 32
  const MAX_WRITE_BYTES: nat := 64 * 1024

  /** What stays fixed over a connection. */
  datatype Setup = Setup(hash: Hash, limits: E.Limits, debug: Debug, max: nat)

  /** The bytes answering the frame that arrived at position `index`. */
  datatype Reply = Reply(index: nat, bytes: Bytes)

  /** A spawned task keeps its permit until after its response is in the channel. */
  datatype Task = Running(frame: Bytes) | Finished(bytes: Bytes) | Sent

  datatype State = State(
    batches: seq<seq<Bytes>>,
    pending: seq<Bytes>,
    next: nat,
    pipelined: bool,
    tasks: map<nat, Task>,
    channel: seq<Reply>,
    batch: seq<Reply>,
    writes: seq<seq<Reply>>,
    cache: Sharded)

  function Start(batches: seq<seq<Bytes>>, cache: Sharded): State {
    State(batches, [], 0, false, map[], [], [], [], cache)
  }

  /** The peer has closed, every task is done, and the writer has nothing left. */
  predicate Drained(s: State) {
    s.batches == [] && s.pending == [] && s.tasks == map[] && s.channel == [] && s.batch == []
  }

  function Joined(replies: seq<Reply>): Bytes {
    if replies == [] then [] else replies[0].bytes + Joined(replies[1..])
  }

  /** Whether the writer looks for one more response before it writes. */
  predicate MayTake(batch: seq<Reply>) {
    |batch| < MAX_WRITE_FRAMES && |Joined(batch)| < MAX_WRITE_BYTES
  }

  // ----- Steps -----

  datatype Action =
    | TakeBatch
    | Inline(now: U64, bytes: Bytes, cache: Sharded)
    | Spawn
    | Execute(index: nat, now: U64, bytes: Bytes, cache: Sharded)
    | Send(index: nat)
    | Release(index: nat)
    | Receive
    | Coalesce
    | Flush
    | Elsewhere(event: E.Event, cache: Sharded)

  ghost predicate Responds(setup: Setup, s: Sharded, frame: Bytes, now: U64, bytes: Bytes, s': Sharded) {
    Answers(setup.hash, setup.limits, setup.debug, setup.max, s, frame, now, Some(bytes), s')
  }

  ghost predicate Enabled(setup: Setup, s: State, a: Action) {
    match a
    case TakeBatch => s.pending == [] && s.batches != []
    case Inline(now, bytes, cache) =>
      !s.pipelined && s.pending != [] && Responds(setup, s.cache, s.pending[0], now, bytes, cache)
    case Spawn => s.pipelined && s.pending != [] && |s.tasks| < MAX_IN_FLIGHT
    case Execute(i, now, bytes, cache) =>
      i in s.tasks && s.tasks[i].Running? && Responds(setup, s.cache, s.tasks[i].frame, now, bytes, cache)
    case Send(i) => i in s.tasks && s.tasks[i].Finished? && |s.channel| < MAX_IN_FLIGHT
    case Release(i) => i in s.tasks && s.tasks[i].Sent?
    case Receive => s.batch == [] && s.channel != []
    case Coalesce => s.batch != [] && MayTake(s.batch) && s.channel != []
    case Flush => s.batch != [] && (MayTake(s.batch) ==> s.channel == [])
    case Elsewhere(e, cache) => Called(setup.hash, setup.limits, s.cache, e, cache)
  }

  ghost function Apply(setup: Setup, s: State, a: Action): State
    requires Enabled(setup, s, a)
  {
    match a
    case TakeBatch =>
      s.(pending := s.batches[0], batches := s.batches[1..], pipelined := s.pipelined || |s.batches[0]| > 1)
    case Inline(now, bytes, cache) =>
      s.(pending := s.pending[1..], next := s.next + 1, writes := s.writes + [[Reply(s.next, bytes)]], cache := cache)
    case Spawn =>
      s.(pending := s.pending[1..], next := s.next + 1, tasks := s.tasks[s.next := Running(s.pending[0])])
    case Execute(i, now, bytes, cache) => s.(tasks := s.tasks[i := Finished(bytes)], cache := cache)
    case Send(i) => s.(tasks := s.tasks[i := Sent], channel := s.channel + [Reply(i, s.tasks[i].bytes)])
    case Release(i) => s.(tasks := s.tasks - {i})
    case Receive => s.(batch := [s.channel[0]], channel := s.channel[1..])
    case Coalesce => s.(batch := s.batch + [s.channel[0]], channel := s.channel[1..])
    case Flush => s.(writes := s.writes + [s.batch], batch := [])
    case Elsewhere(e, cache) => s.(cache := cache)
  }

  ghost predicate Run(setup: Setup, batches: seq<seq<Bytes>>, states: seq<State>, actions: seq<Action>) {
    && |states| == |actions| + 1
    && (exists cache :: states[0] == Start(batches, cache))
    && forall i :: 0 <= i < |actions| ==>
         Enabled(setup, states[i], actions[i]) && states[i + 1] == Apply(setup, states[i], actions[i])
  }

  // ----- What every step keeps -----

  function Flat(writes: seq<seq<Reply>>): seq<Reply> {
    if writes == [] then [] else Flat(writes[..|writes| - 1]) + writes[|writes| - 1]
  }

  /** Every response on its way out, oldest first. */
  function Issued(s: State): seq<Reply> {
    Flat(s.writes) + s.batch + s.channel
  }

  /** How many frames are answered inline: the leading reads that delivered one frame each. */
  function Leading(batches: seq<seq<Bytes>>): nat {
    if batches == [] || |batches[0]| != 1 then 0 else 1 + Leading(batches[1..])
  }

  predicate Waiting(tasks: map<nat, Task>, i: nat) {
    i in tasks && !tasks[i].Sent?
  }

  ghost predicate IsIssued(issued: seq<Reply>, i: nat) {
    exists p :: 0 <= p < |issued| && issued[p].index == i
  }

  predicate Distinct(issued: seq<Reply>) {
    forall p, q :: 0 <= p < q < |issued| ==> issued[p].index != issued[q].index
  }

  /** Each frame handed out so far is either still with its task or issued once. */
  ghost predicate Accounted(frames: seq<Bytes>, next: nat, tasks: map<nat, Task>, issued: seq<Reply>) {
    && next <= |frames|
    && Distinct(issued)
    && (forall p :: 0 <= p < |issued| ==> issued[p].index < next)
    && (forall i :: i in tasks ==> i < next && (tasks[i].Running? ==> tasks[i].frame == frames[i]))
    && (forall i :: 0 <= i < next ==> (IsIssued(issued, i) <==> !Waiting(tasks, i)))
  }

  /** The inline answers come first, in the order of their requests. */
  predicate InOrder(issued: seq<Reply>, n: nat) {
    n <= |issued| && forall p :: 0 <= p < n ==> issued[p].index == p
  }

  ghost predicate Bounded(s: State) {
    && |s.tasks| <= MAX_IN_FLIGHT
    && |s.channel| <= MAX_IN_FLIGHT
    && |s.batch| <= MAX_WRITE_FRAMES
    && forall w :: w in s.writes ==> 1 <= |w| <= MAX_WRITE_FRAMES
  }

  /** Before the switch nothing runs beside the reader, and `inline` frames in all are answered before it. */
  ghost predicate Modes(s: State, inline: nat) {
    if s.pipelined then inline <= s.next
    else
      && s.tasks == map[] && s.channel == [] && s.batch == []
      && |s.pending| <= 1
      && s.next + |s.pending| + Leading(s.batches) == inline
  }

  predicate NoneEmpty(batches: seq<seq<Bytes>>) {
    forall i :: 0 <= i < |batches| ==> batches[i] != []
  }

  ghost predicate Inv(frames: seq<Bytes>, inline: nat, s: State) {
    && s.next <= |frames|
    && s.pending + Flatten(s.batches) == frames[s.next..]
    && NoneEmpty(s.batches)
    && Modes(s, inline)
    && Bounded(s)
    && Accounted(frames, s.next, s.tasks, Issued(s))
    && InOrder(Issued(s), Min(inline, s.next))
  }

  // ----- Bookkeeping, one kind of step at a time -----

  lemma IssueOne(issued: seq<Reply>, r: Reply)
    requires Distinct(issued) && !IsIssued(issued, r.index)
    ensures Distinct(issued + [r])
    ensures forall i :: IsIssued(issued + [r], i) <==> IsIssued(issued, i) || i == r.index
  {
    var more := issued + [r];
    forall i
      ensures IsIssued(more, i) <==> IsIssued(issued, i) || i == r.index
    {
      if IsIssued(issued, i) {
        var p :| 0 <= p < |issued| && issued[p].index == i;
        assert more[p].index == i;
      }
      assert more[|issued|] == r;
    }
  }

  lemma AccountInline(frames: seq<Bytes>, next: nat, issued: seq<Reply>, bytes: Bytes)
    requires Accounted(frames, next, map[], issued) && next < |frames|
    ensures Accounted(frames, next + 1, map[], issued + [Reply(next, bytes)])
  {
    IssueOne(issued, Reply(next, bytes));
  }

  lemma AccountSpawn(frames: seq<Bytes>, next: nat, tasks: map<nat, Task>, issued: seq<Reply>)
    requires Accounted(frames, next, tasks, issued) && next < |frames|
    ensures Accounted(frames, next + 1, tasks[next := Running(frames[next])], issued)
  {
  }

  lemma AccountExecute(frames: seq<Bytes>, next: nat, tasks: map<nat, Task>, issued: seq<Reply>, i: nat, bytes: Bytes)
    requires Accounted(frames, next, tasks, issued) && i in tasks && tasks[i].Running?
    ensures Accounted(frames, next, tasks[i := Finished(bytes)], issued)
  {
    var after := tasks[i := Finished(bytes)];
    assert forall j :: Waiting(after, j) <==> Waiting(tasks, j);
  }

  lemma AccountSend(frames: seq<Bytes>, next: nat, tasks: map<nat, Task>, issued: seq<Reply>, i: nat)
    requires Accounted(frames, next, tasks, issued) && i in tasks && tasks[i].Finished?
    ensures Accounted(frames, next, tasks[i := Sent], issued + [Reply(i, tasks[i].bytes)])
  {
    assert Waiting(tasks, i);
    IssueOne(issued, Reply(i, tasks[i].bytes));
    var after := tasks[i := Sent];
    assert forall j :: Waiting(after, j) <==> Waiting(tasks, j) && j != i;
  }

  lemma AccountRelease(frames: seq<Bytes>, next: nat, tasks: map<nat, Task>, issued: seq<Reply>, i: nat)
    requires Accounted(frames, next, tasks, issued) && i in tasks && tasks[i].Sent?
    ensures Accounted(frames, next, tasks - {i}, issued)
  {
    var after := tasks - {i};
    assert forall j :: Waiting(after, j) <==> Waiting(tasks, j);
  }

  // ----- Nothing is lost, doubled or reordered on the way out -----

  lemma FlatAppend(writes: seq<seq<Reply>>, w: seq<Reply>)
    ensures Flat(writes + [w]) == Flat(writes) + w
  {
    assert (writes + [w])[..|writes|] == writes;
  }

  lemma MoveOne(sent: seq<Reply>, batch: seq<Reply>, channel: seq<Reply>)
    requires channel != []
    ensures sent + (batch + [channel[0]]) + channel[1..] == sent + batch + channel
  {
  }

  /** The writer moves responses towards the socket and changes nothing about them. */
  lemma WriterKeeps(setup: Setup, s: State, a: Action)
    requires Enabled(setup, s, a) && (a.Receive? || a.Coalesce? || a.Flush?)
    ensures Issued(Apply(setup, s, a)) == Issued(s)
  {
    hide Flat;
    if a.Flush? {
      FlatAppend(s.writes, s.batch);
    } else {
      MoveOne(Flat(s.writes), s.batch, s.channel);
      assert a.Receive? ==> s.batch + [s.channel[0]] == [s.channel[0]];
    }
  }

  /**
    A new response goes to the end of the line: through the channel, or straight to the socket while
    nothing else runs.
   */
  lemma IssuedAtEnd(setup: Setup, s: State, a: Action)
    requires Enabled(setup, s, a)
    requires a.Send? || (a.Inline? && s.batch == [] && s.channel == [])
    ensures Issued(Apply(setup, s, a)) ==
            Issued(s) + [if a.Send? then Reply(a.index, s.tasks[a.index].bytes) else Reply(s.next, a.bytes)]
  {
    if a.Inline? {
      FlatAppend(s.writes, [Reply(s.next, a.bytes)]);
      assert Issued(s) == Flat(s.writes);
    }
  }

  lemma TakeFirst(pending: seq<Bytes>, batches: seq<seq<Bytes>>)
    requires pending == [] && batches != [] && NoneEmpty(batches)
    ensures pending + Flatten(batches) == batches[0] + Flatten(batches[1..])
    ensures NoneEmpty(batches[1..]) && batches[0] != []
    ensures Leading(batches) == if |batches[0]| > 1 then 0 else 1 + Leading(batches[1..])
  {
  }

  lemma TakeBatchKeeps(setup: Setup, frames: seq<Bytes>, inline: nat, s: State)
    requires Inv(frames, inline, s) && Enabled(setup, s, TakeBatch)
    ensures Inv(frames, inline, Apply(setup, s, TakeBatch))
  {
    hide Accounted, Flat, Flatten, Leading, InOrder;
    var s' := Apply(setup, s, TakeBatch);
    assert Issued(s') == Issued(s);
    TakeFirst(s.pending, s.batches);
  }

  lemma TakeFrame(pending: seq<Bytes>, later: seq<Bytes>, frames: seq<Bytes>, next: nat)
    requires next <= |frames| && pending != [] && pending + later == frames[next..]
    ensures next < |frames| && pending[0] == frames[next] && pending[1..] + later == frames[next + 1..]
  {
    assert (pending + later)[0] == pending[0] && frames[next..][0] == frames[next];
    assert (pending + later)[1..] == pending[1..] + later && frames[next..][1..] == frames[next + 1..];
  }

  lemma InlineKeeps(setup: Setup, frames: seq<Bytes>, inline: nat, s: State, a: Action)
    requires Inv(frames, inline, s) && a.Inline? && Enabled(setup, s, a)
    ensures Inv(frames, inline, Apply(setup, s, a))
  {
    hide Accounted, Answers;
    TakeFrame(s.pending, Flatten(s.batches), frames, s.next);
    IssuedAtEnd(setup, s, a);
    AccountInline(frames, s.next, Issued(s), a.bytes);
    CountInline(frames, s.next, Issued(s));
  }

  /** With no task about, the frames issued are all the frames handed out, in as many places. */
  lemma CountInline(frames: seq<Bytes>, next: nat, issued: seq<Reply>)
    requires Accounted(frames, next, map[], issued)
    ensures |issued| == next
  {
    IndexSet(issued);
    var ids := Indexes(issued);
    assert forall i :: 0 <= i < next ==> IsIssued(issued, i);
    assert ids == Below(next);
  }

  ghost function Indexes(issued: seq<Reply>): set<nat> {
    set p | 0 <= p < |issued| :: issued[p].index
  }

  /** The positions below `n`. */
  ghost function Below(n: nat): (r: set<nat>)
    ensures |r| == n && forall i :: i in r <==> 0 <= i < n
  {
    if n == 0 then {} else Below(n - 1) + {n - 1}
  }

  lemma {:induction false} IndexSet(issued: seq<Reply>)
    requires Distinct(issued)
    ensures |Indexes(issued)| == |issued|
    ensures forall i :: i in Indexes(issued) <==> IsIssued(issued, i)
  {
    if issued != [] {
      var k := |issued| - 1;
      IndexSet(issued[..k]);
      assert Indexes(issued) == Indexes(issued[..k]) + {issued[k].index};
      assert issued[k].index !in Indexes(issued[..k]);
    }
  }

  lemma SpawnKeeps(setup: Setup, frames: seq<Bytes>, inline: nat, s: State)
    requires Inv(frames, inline, s) && Enabled(setup, s, Spawn)
    ensures Inv(frames, inline, Apply(setup, s, Spawn))
  {
    hide Accounted, Flatten, Flat;
    TakeFrame(s.pending, Flatten(s.batches), frames, s.next);
    AccountSpawn(frames, s.next, s.tasks, Issued(s));
    assert Issued(Apply(setup, s, Spawn)) == Issued(s);
  }

  lemma ExecuteKeeps(setup: Setup, frames: seq<Bytes>, inline: nat, s: State, a: Action)
    requires Inv(frames, inline, s) && a.Execute? && Enabled(setup, s, a)
    ensures Inv(frames, inline, Apply(setup, s, a))
  {
    hide Accounted, Answers, Flatten, Flat;
    AccountExecute(frames, s.next, s.tasks, Issued(s), a.index, a.bytes);
    assert Issued(Apply(setup, s, a)) == Issued(s);
    assert s.tasks[a.index := Finished(a.bytes)].Keys == s.tasks.Keys;
  }

  lemma SendKeeps(setup: Setup, frames: seq<Bytes>, inline: nat, s: State, a: Action)
    requires Inv(frames, inline, s) && a.Send? && Enabled(setup, s, a)
    ensures Inv(frames, inline, Apply(setup, s, a))
  {
    hide Accounted, Flatten, Flat;
    IssuedAtEnd(setup, s, a);
    AccountSend(frames, s.next, s.tasks, Issued(s), a.index);
    assert s.tasks[a.index := Sent].Keys == s.tasks.Keys;
  }

  lemma ReleaseKeeps(setup: Setup, frames: seq<Bytes>, inline: nat, s: State, a: Action)
    requires Inv(frames, inline, s) && a.Release? && Enabled(setup, s, a)
    ensures Inv(frames, inline, Apply(setup, s, a))
  {
    hide Accounted, Flatten, Flat;
    AccountRelease(frames, s.next, s.tasks, Issued(s), a.index);
    assert Issued(Apply(setup, s, a)) == Issued(s);
    assert (s.tasks - {a.index}).Keys == s.tasks.Keys - {a.index};
  }

  /** Every step, in any interleaving, keeps the account of frames and responses. */
  lemma StepKeeps(setup: Setup, frames: seq<Bytes>, inline: nat, s: State, a: Action)
    requires Inv(frames, inline, s) && Enabled(setup, s, a)
    ensures Inv(frames, inline, Apply(setup, s, a))
  {
    match a {
      case TakeBatch => TakeBatchKeeps(setup, frames, inline, s);
      case Inline(_, _, _) => InlineKeeps(setup, frames, inline, s, a);
      case Receive => WriterKeeps(setup, s, a);
      case Coalesce => WriterKeeps(setup, s, a);
      case Flush => WriterKeeps(setup, s, a);
      case Elsewhere(_, _) => assert Issued(Apply(setup, s, a)) == Issued(s);
      case Spawn => SpawnKeeps(setup, frames, inline, s);
      case Execute(_, _, _, _) => ExecuteKeeps(setup, frames, inline, s, a);
      case Send(_) => SendKeeps(setup, frames, inline, s, a);
      case Release(_) => ReleaseKeeps(setup, frames, inline, s, a);
    }
  }

  lemma StartIsAccounted(batches: seq<seq<Bytes>>, cache: Sharded)
    requires NoneEmpty(batches)
    ensures Inv(Flatten(batches), Leading(batches), Start(batches, cache))
  {
    hide Accounted, Flatten, Leading, Issued;
    NothingIssued(Flatten(batches));
    StartIssuesNothing(batches, cache);
    assert [] + Flatten(batches) == Flatten(batches)[0..];
  }

  lemma StartIssuesNothing(batches: seq<seq<Bytes>>, cache: Sharded)
    ensures Issued(Start(batches, cache)) == []
  {
  }

  lemma NothingIssued(frames: seq<Bytes>)
    ensures Accounted(frames, 0, map[], [])
  {
  }

  lemma {:induction false} RunKeeps(setup: Setup, batches: seq<seq<Bytes>>, states: seq<State>, actions: seq<Action>,
                                    k: nat)
    requires Run(setup, batches, states, actions) && k < |states|
    requires NoneEmpty(batches)
    ensures Inv(Flatten(batches), Leading(batches), states[k])
  {
    hide Inv, Enabled, Apply;
    if k == 0 {
      var cache :| states[0] == Start(batches, cache);
      StartIsAccounted(batches, cache);
    } else {
      RunKeeps(setup, batches, states, actions, k - 1);
      StepKeeps(setup, Flatten(batches), Leading(batches), states[k - 1], actions[k - 1]);
    }
  }

  // ----- Which step made which response -----

  /** Step `j` executes the frame at position `i`: inline, or in its own task. */
  predicate Executes(states: seq<State>, actions: seq<Action>, j: nat, i: nat) {
    && j < |actions| < |states|
    && ((actions[j].Inline? && states[j].next == i) || (actions[j].Execute? && actions[j].index == i))
  }

  /** Step `j` of the run made this response, from the cache as it was then, and left the cache as it is afterwards. */
  ghost predicate MadeAt(setup: Setup, frames: seq<Bytes>, states: seq<State>, actions: seq<Action>, j: nat, r: Reply) {
    && j < |actions| < |states| && r.index < |frames|
    && Executes(states, actions, j, r.index)
    && actions[j].bytes == r.bytes
    && Responds(setup, states[j].cache, frames[r.index], actions[j].now, r.bytes, states[j + 1].cache)
  }

  /** The response exists: with its task, or on its way out. */
  predicate Held(s: State, r: Reply) {
    r in Issued(s) || (r.index in s.tasks && s.tasks[r.index] == Finished(r.bytes))
  }

  /** A response appears in one way only: by executing its frame. */
  lemma HeldFrom(setup: Setup, s: State, a: Action, r: Reply)
    requires Enabled(setup, s, a) && Held(Apply(setup, s, a), r)
    requires a.Inline? ==> s.batch == [] && s.channel == []
    ensures || Held(s, r)
            || (a.Inline? && r == Reply(s.next, a.bytes))
            || (a.Execute? && r == Reply(a.index, a.bytes))
  {
    hide Flat, Responds;
    match a {
      case Inline(_, _, _) => IssuedAtEnd(setup, s, a);
      case Send(_) => IssuedAtEnd(setup, s, a);
      case Receive => WriterKeeps(setup, s, a);
      case Coalesce => WriterKeeps(setup, s, a);
      case Flush => WriterKeeps(setup, s, a);
      case _ => assert Issued(Apply(setup, s, a)) == Issued(s);
    }
  }

  /** The frame an executing step works on. */
  function FrameOf(s: State, a: Action): Bytes {
    if a.Inline? && s.pending != [] then s.pending[0]
    else if a.Execute? && a.index in s.tasks && s.tasks[a.index].Running? then s.tasks[a.index].frame
    else []
  }

  /** What a step executes is the frame at that position, on the cache of that moment. */
  lemma ExecutedFrame(setup: Setup, frames: seq<Bytes>, inline: nat, s: State, a: Action)
    requires Inv(frames, inline, s) && Enabled(setup, s, a) && (a.Inline? || a.Execute?)
    ensures var i := if a.Inline? then s.next else a.index;
            && i < |frames| && FrameOf(s, a) == frames[i]
            && Responds(setup, s.cache, frames[i], a.now, a.bytes, Apply(setup, s, a).cache)
    ensures a.Inline? ==> s.batch == [] && s.channel == []
  {
    hide Responds, Flatten, Flat;
    if a.Inline? {
      TakeFrame(s.pending, Flatten(s.batches), frames, s.next);
    }
  }

  lemma NothingHeld(batches: seq<seq<Bytes>>, cache: Sharded, r: Reply)
    ensures !Held(Start(batches, cache), r)
  {
    assert Issued(Start(batches, cache)) == [];
  }

  /** Every response in any state of any run was made by an earlier step of that run, for its own frame. */
  lemma {:induction false} MadeBefore(setup: Setup, batches: seq<seq<Bytes>>, states: seq<State>, actions: seq<Action>,
                                      k: nat, r: Reply) returns (j: nat)
    requires Run(setup, batches, states, actions) && NoneEmpty(batches) && k < |states|
    requires Held(states[k], r)
    ensures j < k && MadeAt(setup, Flatten(batches), states, actions, j, r)
  {
    hide Inv, Responds, Held, Enabled, Apply;
    if k == 0 {
      var cache :| states[0] == Start(batches, cache);
      NothingHeld(batches, cache, r);
      assert false;
    }
    var s, a := states[k - 1], actions[k - 1];
    RunKeeps(setup, batches, states, actions, k - 1);
    if a.Inline? || a.Execute? {
      ExecutedFrame(setup, Flatten(batches), Leading(batches), s, a);
    }
    HeldFrom(setup, s, a, r);
    if Held(s, r) {
      j := MadeBefore(setup, batches, states, actions, k - 1, r);
    } else {
      j := k - 1;
    }
  }

  /** The frame at position `i` has been executed. */
  predicate Done(s: State, i: nat) {
    i < s.next && !(i in s.tasks && s.tasks[i].Running?)
  }

  lemma DoneStep(setup: Setup, s: State, a: Action, i: nat)
    requires Enabled(setup, s, a)
    ensures s.next <= Apply(setup, s, a).next
    ensures Done(s, i) ==> Done(Apply(setup, s, a), i)
    ensures a.Inline? && s.next == i && i !in s.tasks ==> !Done(s, i) && Done(Apply(setup, s, a), i)
    ensures a.Execute? && a.index == i && i < s.next ==> !Done(s, i) && Done(Apply(setup, s, a), i)
  {
    hide Responds, Called;
  }

  lemma {:induction false} DoneStays(setup: Setup, batches: seq<seq<Bytes>>, states: seq<State>, actions: seq<Action>,
                                     j: nat, k: nat, i: nat)
    requires Run(setup, batches, states, actions) && j <= k < |states|
    ensures states[j].next <= states[k].next
    ensures Done(states[j], i) ==> Done(states[k], i)
  {
    hide Enabled, Apply, Done;
    if j < k {
      DoneStays(setup, batches, states, actions, j, k - 1, i);
      DoneStep(setup, states[k - 1], actions[k - 1], i);
    }
  }

  /** Executing a frame is what makes it done. */
  lemma ExecutingDoes(setup: Setup, batches: seq<seq<Bytes>>, states: seq<State>, actions: seq<Action>, j: nat, i: nat)
    requires Run(setup, batches, states, actions) && NoneEmpty(batches) && Executes(states, actions, j, i)
    ensures !Done(states[j], i) && Done(states[j + 1], i)
    ensures i <= states[j].next && (actions[j].Execute? ==> i < states[j].next && Leading(batches) <= i)
  {
    hide Apply, Done, Responds, Flat, Flatten;
    RunKeeps(setup, batches, states, actions, j);
    assert Enabled(setup, states[j], actions[j]);
    DoneStep(setup, states[j], actions[j], i);
    if actions[j].Execute? {
      assert Waiting(states[j].tasks, i);
      TaskIsPipelined(Flatten(batches), Leading(batches), states[j], i);
    }
  }

  lemma TaskIsPipelined(frames: seq<Bytes>, inline: nat, s: State, i: nat)
    requires Inv(frames, inline, s) && Waiting(s.tasks, i)
    ensures inline <= i < s.next
  {
    hide Flatten;
    forall p | 0 <= p < Min(inline, s.next)
      ensures IsIssued(Issued(s), p)
    {
      assert Issued(s)[p].index == p;
    }
  }

  /** No frame is executed by two steps. */
  lemma ExecutedOnce(setup: Setup, batches: seq<seq<Bytes>>, states: seq<State>, actions: seq<Action>, j: nat, k: nat,
                     i: nat)
    requires Run(setup, batches, states, actions) && NoneEmpty(batches)
    requires Executes(states, actions, j, i) && Executes(states, actions, k, i)
    ensures j == k
  {
    hide Done;
    ExecutingDoes(setup, batches, states, actions, j, i);
    ExecutingDoes(setup, batches, states, actions, k, i);
    if j < k {
      DoneStays(setup, batches, states, actions, j + 1, k, i);
    } else if k < j {
      DoneStays(setup, batches, states, actions, k + 1, j, i);
    }
  }

  /** A frame answered inline is executed before every frame that came after it. */
  lemma InlineBeforeLater(setup: Setup, batches: seq<seq<Bytes>>, states: seq<State>, actions: seq<Action>, j: nat,
                          i: nat, k: nat, m: nat)
    requires Run(setup, batches, states, actions) && NoneEmpty(batches)
    requires Executes(states, actions, j, i) && Executes(states, actions, k, m) && i < m && i < Leading(batches)
    ensures j < k
  {
    hide Run;
    ExecutingDoes(setup, batches, states, actions, j, i);
    ExecutingDoes(setup, batches, states, actions, k, m);
    if k <= j {
      DoneStays(setup, batches, states, actions, k, j, i);
    }
  }

  // ----- Main results -----

  /** Some step of the run made the response, from the cache of that step. */
  ghost predicate MadeInRun(setup: Setup, frames: seq<Bytes>, states: seq<State>, actions: seq<Action>, r: Reply) {
    exists j: nat :: MadeAt(setup, frames, states, actions, j, r)
  }

  /** Each frame is executed by one step only, and those answered inline before all that follow them. */
  ghost predicate ExecutedInOrder(states: seq<State>, actions: seq<Action>, inline: nat) {
    && (forall j: nat, k: nat, i: nat :: Executes(states, actions, j, i) && Executes(states, actions, k, i) ==> j == k)
    && (forall j: nat, k: nat, i: nat, m: nat ::
          Executes(states, actions, j, i) && Executes(states, actions, k, m) && i < m && i < inline ==> j < k)
  }

  /**
    What the socket has carried when the connection is done: for each frame one
    response, made by the one step that executed it on the cache of that moment;
    the inline ones first and in request order, then the others in some order,
    in writes of at most 32 responses.
   */
  ghost predicate AllAnswered(setup: Setup, frames: seq<Bytes>, inline: nat, states: seq<State>, actions: seq<Action>)
    requires |actions| < |states|
  {
    var writes := states[|actions|].writes;
    var out := Flat(writes);
    && |out| == |frames|
    && Distinct(out)
    && (forall p :: 0 <= p < |out| ==> out[p].index < |frames| && MadeInRun(setup, frames, states, actions, out[p]))
    && ExecutedInOrder(states, actions, inline)
    && InOrder(out, inline)
    && forall w :: w in writes ==> 1 <= |w| <= MAX_WRITE_FRAMES
  }

  lemma DrainedMeansAll(frames: seq<Bytes>, inline: nat, s: State)
    requires Inv(frames, inline, s) && Drained(s)
    ensures var out := Flat(s.writes);
            && |out| == |frames| && Distinct(out) && InOrder(out, inline) && Issued(s) == out
            && (forall p :: 0 <= p < |out| ==> out[p].index < |frames|)
            && forall w :: w in s.writes ==> 1 <= |w| <= MAX_WRITE_FRAMES
  {
    hide Flat, Flatten;
    var out := Flat(s.writes);
    assert s.next == |frames| by {
      NoBatches(s.batches);
      assert |s.pending + Flatten(s.batches)| == 0;
    }
    assert Issued(s) == out;
    CountInline(frames, s.next, out);
  }

  lemma NoBatches(batches: seq<seq<Bytes>>)
    requires batches == []
    ensures Flatten(batches) == [] && Leading(batches) == 0
  {
  }

  lemma AllExecutedInOrder(setup: Setup, batches: seq<seq<Bytes>>, states: seq<State>, actions: seq<Action>)
    requires Run(setup, batches, states, actions) && NoneEmpty(batches)
    ensures ExecutedInOrder(states, actions, Leading(batches))
  {
    hide Run, Executes;
    forall j: nat, k: nat, i: nat | Executes(states, actions, j, i) && Executes(states, actions, k, i)
      ensures j == k
    {
      ExecutedOnce(setup, batches, states, actions, j, k, i);
    }
    forall j: nat, k: nat, i: nat, m: nat
      | Executes(states, actions, j, i) && Executes(states, actions, k, m) && i < m && i < Leading(batches)
      ensures j < k
    {
      InlineBeforeLater(setup, batches, states, actions, j, i, k, m);
    }
  }

  lemma EveryFrameAnsweredOnce(setup: Setup, batches: seq<seq<Bytes>>, states: seq<State>, actions: seq<Action>)
    requires Run(setup, batches, states, actions) && NoneEmpty(batches)
    requires Drained(states[|actions|])
    ensures AllAnswered(setup, Flatten(batches), Leading(batches), states, actions)
  {
    hide Inv, Enabled, Apply, MadeAt, ExecutedInOrder;
    var frames, s := Flatten(batches), states[|actions|];
    RunKeeps(setup, batches, states, actions, |actions|);
    DrainedMeansAll(frames, Leading(batches), s);
    AllExecutedInOrder(setup, batches, states, actions);
    var out := Flat(s.writes);
    forall p | 0 <= p < |out|
      ensures MadeInRun(setup, frames, states, actions, out[p])
    {
      assert out[p] in Issued(s);
      var j := MadeBefore(setup, batches, states, actions, |actions|, out[p]);
      assert MadeAt(setup, frames, states, actions, j, out[p]);
    }
  }

  // ----- Every run gets there -----

  predicate AwaitsExecution(s: State) {
    (!s.pipelined && s.pending != []) || exists i :: i in s.tasks && s.tasks[i].Running?
  }

  /** Until it is drained, a connection can always take a step, or has a request to execute. */
  lemma NeverStuck(setup: Setup, s: State)
    requires Bounded(s) && !Drained(s)
    ensures AwaitsExecution(s) || exists a: Action :: !a.Elsewhere? && Enabled(setup, s, a)
  {
    if AwaitsExecution(s) {
    } else if s.batch != [] {
      assert Enabled(setup, s, Coalesce) || Enabled(setup, s, Flush);
    } else if s.channel != [] {
      assert Enabled(setup, s, Receive);
    } else if s.tasks != map[] {
      var i :| i in s.tasks;
      assert Enabled(setup, s, Send(i)) || Enabled(setup, s, Release(i));
    } else if s.pending != [] {
      assert Enabled(setup, s, Spawn);
    } else {
      assert Enabled(setup, s, TakeBatch);
    }
  }

  function Weight(t: Task): nat {
    match t
    case Running(_) => 6
    case Finished(_) => 5
    case Sent => 1
  }

  function Frames(batches: seq<seq<Bytes>>): nat {
    |Flatten(batches)|
  }

  /** An upper bound on the steps still to take. */
  ghost function Work(s: State): nat {
    7 * (|s.pending| + Frames(s.batches)) + |s.batches| + Total(s.tasks, Weight) + 3 * |s.channel| + 2 * |s.batch|
  }

  lemma StepWorks(setup: Setup, s: State, a: Action)
    requires Enabled(setup, s, a)
    requires a.Spawn? ==> s.next !in s.tasks
    ensures var w := Work(Apply(setup, s, a)); if a.Elsewhere? then w == Work(s) else w < Work(s)
  {
    match a {
      case Spawn => TotalInsert(s.tasks, Weight, s.next, Running(s.pending[0]));
      case Execute(i, _, bytes, _) => TotalReplace(s.tasks, i, Finished(bytes));
      case Send(i) => TotalReplace(s.tasks, i, Sent);
      case Release(i) => TotalRemove(s.tasks, Weight, i);
      case _ =>
    }
  }

  lemma TotalReplace(tasks: map<nat, Task>, i: nat, t: Task)
    requires i in tasks
    ensures Total(tasks[i := t], Weight) == Total(tasks, Weight) - Weight(tasks[i]) + Weight(t)
  {
    TotalRemove(tasks, Weight, i);
    TotalRemove(tasks[i := t], Weight, i);
    assert tasks[i := t] - {i} == tasks - {i};
  }

  function OwnSteps(actions: seq<Action>): nat {
    if actions == [] then 0
    else OwnSteps(actions[..|actions| - 1]) + if actions[|actions| - 1].Elsewhere? then 0 else 1
  }

  /** A connection takes a bounded number of steps, whatever else goes on in the server. */
  lemma {:induction false} RunsEnd(setup: Setup, batches: seq<seq<Bytes>>, states: seq<State>, actions: seq<Action>,
                                   k: nat)
    requires Run(setup, batches, states, actions) && NoneEmpty(batches) && k <= |actions|
    ensures OwnSteps(actions[..k]) + Work(states[k]) <= 7 * Frames(batches) + |batches|
  {
    hide Enabled, Apply, Inv;
    if k == 0 {
      assert actions[..0] == [];
    } else {
      RunsEnd(setup, batches, states, actions, k - 1);
      SpawnsNew(setup, batches, states, actions, k - 1);
      StepWorks(setup, states[k - 1], actions[k - 1]);
      assert actions[..k][..k - 1] == actions[..k - 1];
    }
  }

  lemma SpawnsNew(setup: Setup, batches: seq<seq<Bytes>>, states: seq<State>, actions: seq<Action>, k: nat)
    requires Run(setup, batches, states, actions) && NoneEmpty(batches) && k < |states|
    ensures states[k].next !in states[k].tasks
  {
    hide Run;
    RunKeeps(setup, batches, states, actions, k);
  }

  // ----- Joining responses into one write -----

  /** As many queued responses are joined to the first, in order, as the two limits allow. */
  predicate Coalesced(first: Bytes, queue: seq<Bytes>, batch: Bytes, taken: nat) {
    && taken <= |queue| && 1 + taken <= MAX_WRITE_FRAMES
    && batch == first + Concat(queue[..taken])
    && (forall k :: 0 <= k < taken ==> |first + Concat(queue[..k])| < MAX_WRITE_BYTES)
    && (taken == |queue| || 1 + taken == MAX_WRITE_FRAMES || |batch| >= MAX_WRITE_BYTES)
  }

  /** The writer takes what is queued, in order, until its batch is full or the queue is empty. */
  method CoalesceResponses(first: Bytes, queue: seq<Bytes>) returns (batch: Bytes, taken: nat)
    ensures Coalesced(first, queue, batch, taken)
  {
    batch, taken := first, 0;
    assert first + [] == first;
    while 1 + taken < MAX_WRITE_FRAMES && |batch| < MAX_WRITE_BYTES
      invariant taken <= |queue| && 1 + taken <= MAX_WRITE_FRAMES
      invariant batch == first + Concat(queue[..taken])
      invariant forall k :: 0 <= k < taken ==> |first + Concat(queue[..k])| < MAX_WRITE_BYTES
      decreases MAX_WRITE_FRAMES - taken
    {
      if taken == |queue| {
        break;
      }
      var exceeds := |batch| + |queue[taken]| > MAX_WRITE_BYTES;
      ConcatAppend(queue[..taken], queue[taken]);
      Assoc(first, Concat(queue[..taken]), queue[taken]);
      assert queue[..taken + 1] == queue[..taken] + [queue[taken]];
      batch := batch + queue[taken];
      taken := taken + 1;
      if exceeds {
        break;
      }
    }
  }

  function BytesOf(replies: seq<Reply>): seq<Bytes> {
    seq(|replies|, i requires 0 <= i < |replies| => replies[i].bytes)
  }

  /** The state after `k` responses were joined to the batch. */
  function Taking(s: State, k: nat): State
    requires k <= |s.channel|
  {
    s.(batch := s.batch + s.channel[..k], channel := s.channel[k..])
  }

  lemma {:induction false} JoinedBytes(r: Reply, queue: seq<Reply>, k: nat)
    requires k <= |queue|
    ensures Joined([r] + queue[..k]) == r.bytes + Concat(BytesOf(queue)[..k])
  {
    assert ([r] + queue[..k])[1..] == queue[..k];
    JoinedConcat(queue[..k]);
    assert BytesOf(queue[..k]) == BytesOf(queue)[..k];
  }

  lemma {:induction false} JoinedConcat(queue: seq<Reply>)
    ensures Joined(queue) == Concat(BytesOf(queue))
  {
    if queue != [] {
      JoinedConcat(queue[1..]);
      assert BytesOf(queue)[1..] == BytesOf(queue[1..]);
    }
  }

  /**
    What the loop returns is the batch of the machine after as many joining steps as are enabled, ready
    to be written.
   */
  lemma CoalescedBySteps(setup: Setup, s: State, r: Reply, batch: Bytes, taken: nat, k: nat)
    requires s.batch == [r] && Coalesced(r.bytes, BytesOf(s.channel), batch, taken) && k <= taken
    ensures k < taken ==>
              Enabled(setup, Taking(s, k), Coalesce) && Apply(setup, Taking(s, k), Coalesce) == Taking(s, k + 1)
    ensures k == taken ==> Enabled(setup, Taking(s, k), Flush) && !Enabled(setup, Taking(s, k), Coalesce)
    ensures k == taken ==> Joined(Taking(s, k).batch) == batch && Taking(s, 0) == s
  {
    hide Joined, Concat;
    JoinedBytes(r, s.channel, k);
    if k < taken {
      assert s.channel[..k + 1] == s.channel[..k] + [s.channel[k]];
      assert s.batch + s.channel[..k + 1] == s.batch + s.channel[..k] + [s.channel[k]];
      assert s.channel[k..][1..] == s.channel[k + 1..];
    }
    assert s.batch + s.channel[..0] == s.batch;
  }

  // ----- What the peer reads -----

  function Payloads(replies: seq<Reply>): seq<Bytes> {
    if replies == [] then []
    else (if replies[0].bytes == [] then [] else [replies[0].bytes]) + Payloads(replies[1..])
  }

  /** The bytes written fall apart again into exactly the responses that have any, in the order they were issued. */
  lemma SocketParses(replies: seq<Reply>, max: nat)
    requires forall p :: 0 <= p < |replies| ==> replies[p].bytes == [] || IsFrame(replies[p].bytes, max)
    ensures Joined(replies) == Concat(Payloads(replies))
    ensures ParseAll(Joined(replies), max) == Parsed(Payloads(replies), [], false)
  {
    JoinedPayloads(replies);
    PayloadFrames(replies, max);
    ParseConcat(Payloads(replies), max);
  }

  lemma {:induction false} JoinedPayloads(replies: seq<Reply>)
    ensures Joined(replies) == Concat(Payloads(replies))
  {
    if replies != [] {
      JoinedPayloads(replies[1..]);
      var others := Payloads(replies[1..]);
      if replies[0].bytes == [] {
        assert [] + others == others && [] + Concat(others) == Concat(others);
      } else {
        assert ([replies[0].bytes] + others)[1..] == others;
      }
    }
  }

  lemma {:induction false} PayloadFrames(replies: seq<Reply>, max: nat)
    requires forall p :: 0 <= p < |replies| ==> replies[p].bytes == [] || IsFrame(replies[p].bytes, max)
    ensures forall i :: 0 <= i < |Payloads(replies)| ==> IsFrame(Payloads(replies)[i], max)
  {
    hide IsFrame;
    if replies != [] {
      PayloadFrames(replies[1..], max);
    }
  }

  lemma EncodedIsFrame(f: ResponseFrame)
    requires Fits(f.payload)
    ensures IsFrame(EncodeResponseFrame(f), U32_LIMIT - 1)
  {
    var payload := EncodeResponse(f.payload);
    HeaderFields(KIND_RESPONSE, f.command, f.requestId, |payload|, payload);
    Widths();
    NumberRoundTrip(4, |payload|);
  }

  /**
    What `bytes` say about `frame`, executed on cache `s` and leaving `s'`: no bytes for a
    frame without the magic; otherwise one response frame under the request's id and
    command, with the cache's answer to the request or the error of decoding it.
   */
  ghost predicate SaysFor(setup: Setup, s: Sharded, frame: Bytes, now: U64, bytes: Bytes, s': Sharded) {
    if !HasMagic(frame) then bytes == [] && s' == s
    else
      var r := DecodeResponseFrame(bytes, U32_LIMIT - 1);
      && IsFrame(bytes, U32_LIMIT - 1)
      && r.Ok? && r.value.requestId == RequestId(frame) && r.value.command == AnswerCommand(frame)
      && match DecodeRequestFrame(frame, setup.max)
         case Ok(f) => Serves(setup.hash, setup.limits, s, f.payload, now, r.value.payload, s')
         case Err(error) => s' == s && r.value.payload == ErrorResponse(DecodeErrorCode(error), setup.debug(error))
  }

  lemma AnswerSays(setup: Setup, s: Sharded, frame: Bytes, now: U64, bytes: Bytes, s': Sharded)
    requires GoodDebug(setup.debug) && Responds(setup, s, frame, now, bytes, s')
    ensures SaysFor(setup, s, frame, now, bytes, s')
    ensures bytes == [] || IsFrame(bytes, U32_LIMIT - 1)
  {
    AnswerReadsBack(setup.hash, setup.limits, setup.debug, setup.max, s, frame, now, bytes, s', []);
    assert bytes + [] == bytes;
    if HasMagic(frame) {
      ResponseReencodes(bytes, U32_LIMIT - 1);
      EncodedIsFrame(DecodeResponseFrame(bytes, U32_LIMIT - 1).value);
    }
  }

  /** Some step of the run made this response, and it says what the cache of that step answered. */
  ghost predicate SaidInRun(setup: Setup, frames: seq<Bytes>, states: seq<State>, actions: seq<Action>, r: Reply) {
    exists j: nat ::
      && MadeAt(setup, frames, states, actions, j, r)
      && SaysFor(setup, states[j].cache, frames[r.index], actions[j].now, r.bytes, states[j + 1].cache)
  }

  lemma MadeIsSaid(setup: Setup, frames: seq<Bytes>, states: seq<State>, actions: seq<Action>, j: nat, r: Reply)
    requires GoodDebug(setup.debug) && MadeAt(setup, frames, states, actions, j, r)
    ensures SaidInRun(setup, frames, states, actions, r)
    ensures r.bytes == [] || IsFrame(r.bytes, U32_LIMIT - 1)
  {
    hide SaysFor, Responds;
    AnswerSays(setup, states[j].cache, frames[r.index], actions[j].now, r.bytes, states[j + 1].cache);
  }

  // ----- From the bytes received to the bytes sent -----

  lemma {:induction false} DeliversNoneEmpty(buffer: Bytes, incoming: seq<Bytes>, max: nat)
    ensures NoneEmpty(Deliver(buffer, incoming, max).batches)
    decreases |incoming|, |buffer|
  {
    var p := ParseAll(buffer, max);
    if !p.oversize {
      if p.frames != [] {
        Shrinks(buffer, max);
        DeliversNoneEmpty(p.rest, incoming, max);
      } else if incoming != [] {
        DeliversNoneEmpty(buffer + incoming[0], incoming[1..], max);
      }
    }
  }

  /**
    However the peer's stream was split into reads, and however tasks,
    writer and other connections took turns: once the connection is done, the
    peer can cut the bytes sent to it into one response for each complete frame
    it sent with the right magic, under that frame's id, with what the cache
    answered when that frame was executed, and nothing else.
   */
  lemma StreamIsAnswered(setup: Setup, incoming: seq<Bytes>, states: seq<State>, actions: seq<Action>)
    requires GoodDebug(setup.debug)
    requires !ParseAll(Concat(incoming), setup.max).oversize
    requires Run(setup, Deliver([], incoming, setup.max).batches, states, actions)
    requires Drained(states[|actions|])
    ensures var frames := ParseAll(Concat(incoming), setup.max).frames;
            var out := Flat(states[|actions|].writes);
            && AllAnswered(setup, frames, Leading(Deliver([], incoming, setup.max).batches), states, actions)
            && ParseAll(Joined(out), U32_LIMIT - 1) == Parsed(Payloads(out), [], false)
            && forall p :: 0 <= p < |out| ==> SaidInRun(setup, frames, states, actions, out[p])
  {
    var writes := states[|actions|].writes;
    hide Run, Deliver, ParseAll, MadeAt, Flat, SaidInRun, ExecutedInOrder;
    var d := Deliver([], incoming, setup.max);
    DeliversNoneEmpty([], incoming, setup.max);
    NothingYet(setup.max);
    SplitIndependent([], incoming, setup.max);
    assert [] + Concat(incoming) == Concat(incoming);
    EveryFrameAnsweredOnce(setup, d.batches, states, actions);
    var frames, out := ParseAll(Concat(incoming), setup.max).frames, Flat(writes);
    forall p | 0 <= p < |out|
      ensures SaidInRun(setup, frames, states, actions, out[p])
      ensures out[p].bytes == [] || IsFrame(out[p].bytes, U32_LIMIT - 1)
    {
      var j: nat :| MadeAt(setup, frames, states, actions, j, out[p]);
      MadeIsSaid(setup, frames, states, actions, j, out[p]);
    }
    SocketParses(out, U32_LIMIT - 1);
  }
}
