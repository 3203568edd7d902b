# Cachebox, modelled and proved in Dafny

Cachebox is an in-memory cache served over a binary protocol. This project
models its cache engine, the sharded front end, the wire codec, the connection
layer, the pipelining client, the lease-based get-or-set loop and the
normalisation behind AI cache keys, and proves what they promise over every
input and every run. `dafny verify dfyconfig.toml` checks all of it.

## How it is built

**Engine** (`EngineSpec`, `Engine`, `EngineRuns`, `Leases`). The engine's
behaviour is one labelled step relation over values: entries, leases and the
access counter. The class `Engine` keeps the source's redundant state (entries,
leases, tag index, expiry index, memory and cost totals, access counter,
statistics) and updates it in place. Its `Valid()` says each index is exact, and
every public method is proved to make one step of the relation. The results about
runs quantify over all sequences of steps.

**Sharding** (`ShardedSpec`, `ShardedEngine` in `Sharded.dfy`, `ShardedRuns`,
`Reference`, `Served`, `Progress`, `LockMachine`, `LockReturns`). First with whole
calls as atomic steps, refined by a class over the engine class and compared with
an independent reading of the call history; each shard makes a run of one engine,
and every call has a step. Then at lock granularity, where a write's shard step and
its directory step are separate and anything may come between them.

**Dogpile** (`Dogpile`). Any number of clients in the get-or-set loop against
the lease state machine of one engine, with other traffic between any two steps.

**Codec** (`Wire`, `Codec`, `CodecProofs`, `CodecImpl`). The format as pure
encoders and decoders that are inverse to each other, and the cursor and the
buffer writer as classes that follow it.

**Connection** (`Framing`, `Server`, `ServerLaws`, `ServerImpl`, `Connection`,
`Completion`). Cutting the stream into frames, answering one frame on the real cache
object, and the connection as a state machine of reader, tasks, channel and writer,
which can always be brought to its end.

**Client** (`Pipelining`, `Client`, `History`, `EndToEnd`). Request ids, the
out-of-order matcher, and theorems from the client's requests through split reads,
interleaved tasks and joined writes back to the client's result, against the
history of all calls on the cache.

**AI keys** (`Json`, `Normalise`). Canonical JSON and the normalised bytes of
prompts and embedding inputs, shown to be readable in one way only.

## What turned out not to hold as stated

- The directory can lose a route. `docs/internals.md:107-110` says that stale
  routes cannot hide matching entries. With the shard lock released before the
  directory is updated, a delete's update can land after the update of a later
  put. `OvertakingHidesAnEntry` gives the run, `HiddenIff` says over all runs
  exactly when an entry ends up hidden, and `TagsAlwaysCovered` that nothing is while
  updates land in order.
- `docs/internals.md:95-98` also says that routes are removed when expiry or
  eviction empties a shard of a tag. The code only does so for the entry a call
  names. `ReclaimedRouteStays` gives the run, `RouteDroppedIff` the exact condition.
- When an invalidation returns, an entry stored long before may still be there: an
  earlier invalidation of the same tag may have taken the route and not have visited
  the shard yet. `SecondReturnsFirst` gives the run, `ReturnMeansGoneIff` says exactly
  when a caller may rely on the return, `SurvivesIff` when an entry survives it.
- Frames that are complete when a forbidden length is seen in the same buffer are
  dropped. `CloseDropsAFrame` gives one, `AllDeliveredIff` the exact condition.
- Lease tokens repeat once the access counter has reached its maximum.
  `TokenIssuedTwice` gives the run, `TokenReissuedIff` says exactly when, over all
  runs. Across shards they repeat at once (`ShardsShareTokens`, `SameTokenIff`).
- A missing optional text and the text `<none>` normalise alike (`NoneCollides`);
  `PromptIff` and `EmbeddingIff` are exact about it.

## Conventions

Strings are their UTF-8 bytes. Machine arithmetic is written out: saturating
additions, truncated lengths, ids modulo 2^64. The clock is a parameter of each
call and does not go back over a run. Iteration over hash maps and hash sets is
an arbitrary order. The hash that places keys is an arbitrary function of
namespace and key.

## Model

| member | source | states |
|---|---|---|
| `LockMachine.TagsAlwaysCovered` | src/engine.rs:104-232 | At lock granularity, in every interleaving in which no directory update overtakes a clashing one of its shard, every tag present in a shard is routed, about to be routed by a pending update, or awaited by an invalidation in flight. |
| `LockMachine.NothingHiddenAtRest` | src/engine.rs:104-232 | So once nothing is pending, every shard that holds a tag is routed for it. |
| `LockMachine.HiddenIff` | src/engine.rs:104-201 | Exactly when, over every interleaving, a stored entry ends up out of reach of an invalidation of its tag: a removal left by an earlier critical section landed after the addition of a later one, and no addition landed after it. |
| `LockMachine.OvertakingIsDisorder` | src/engine.rs:118-121 | That addition landed out of order, so runs in order hide nothing. |
| `LockMachine.PresentWasAdded` | src/engine.rs:108-121 | In every state of every interleaving, a tag present in a shard was added by the last critical section that named it. |
| `LockMachine.LandKeepsOutcome` | src/engine.rs:315-334 | Landing a pending update that overtakes no clashing one leaves the final routing of every tag unchanged. |
| `LockMachine.OvertakingHidesAnEntry` | src/engine.rs:118-121 | The order is needed: for any tagged write that fits there is a six-step run that ends at rest with the entry stored and unrouted. |
| `LockReturns.ReturnMeansGoneIff` | src/engine.rs:179-201 | What a caller may rely on when an invalidation returns: an entry with the tag, not written meanwhile, is gone by then in every continuation exactly when the directory had its shard as the call began; in an ordered run a landed entry whose shard it did not have is awaited by an earlier invalidation of the tag. |
| `LockReturns.SurvivesIff` | src/engine.rs:179-201 | In an ordered run a landed entry that nothing else takes is still there when the invalidation of its tag returns exactly when another invalidation of the tag awaited the shard as this one began and still does, and none has visited the shard since. |
| `LockReturns.SettledIsReached` | src/engine.rs:104-201 | In an ordered run the shard of an entry whose update has landed is routed for its tag or awaited by an invalidation, in every state in which it is stored. |
| `LockReturns.ListedIsGone` | src/engine.rs:192-200 | If an invalidation finds the shard in the directory, the entry is gone when it returns. |
| `LockReturns.SecondReturnsFirst` | src/engine.rs:184-200 | The run: a tagged write lands, one invalidation of the tag begins, a second one begins, finds no route and returns, and the entry is still there. |
| `Reference.SubMapOfReference` | src/engine.rs:84-232 | After every run of whole calls, what a shard holds for a key is the latest accepted write of exactly that key with no later delete or matching invalidation in the history. |
| `Reference.MissingOnlyIfLost` | src/engine.rs:374-546 | A key the history says is stored is missing only because a call evicted that very write or removed it at or after its removable time; it was the latest write before and after that call, and the key has not been in its shard since. |
| `Reference.ReadsLatestWrite` | src/engine.rs:483-517 | The reply to every get of every run, exactly: the latest accepted write of that key in the state its lifetimes give it, and a miss just when there is none, it has expired, or that write was lost and has been missing since. |
| `Reference.LeaseReadsLatestWrite` | src/engine.rs:562-605 | The same, exactly, for what lease requests show of the stored value: the hit, the stale value, the stale value that comes with a grant, or nothing. |
| `Reference.LatestSince` | src/engine.rs:374-546 | A write stays the latest while later calls do not rewrite or delete its key or invalidate one of the tags it was written with. |
| `Reference.LatestStands` | src/engine.rs:374-546 | And what the history has as the latest was written by such a call. |
| `Reference.LostIff` | src/engine.rs:374-546 | A write that stands has been lost exactly when some call after it evicted it or removed it when due. |
| `Reference.ReadsOwnWrite` | src/engine.rs:483-517 | A get after a write that no call between rewrites, deletes or invalidates answers exactly by the lifetimes of that write, unless a call between the two evicted it or removed it when due, and then it misses. |
| `Served.ShardRuns` | src/engine.rs:104-302 | Each shard of every run of the cache makes a run of one engine with its share of the memory, and each call of the cache has its place in it. |
| `Served.SecondGrant` | src/engine.rs:203-208 | For the cache that is served: two grants for a key by the deadline of the first have between them a completion, a delete of the key, or the removal of an existing entry of it. |
| `Served.AcceptedWasGranted` | src/engine.rs:210-232 | A completion the cache accepts presents the token of a grant on that very key, by its deadline, with no grant or accepted completion for the key in between. |
| `Served.SameTokenIff` | src/engine.rs:791-802 | Two grants of the cache carry the same token exactly when the counters of their shards stood at the same number, which on one shard is the last one. |
| `Served.AcceptedOnce` | src/engine.rs:615-622 | No token but the one with the last number is accepted twice for keys of one shard. |
| `Served.ShardsShareTokens` | src/engine.rs:791-802 | Across shards tokens do repeat: the first grants of two shards carry the same one. |
| `Served.ServedPut` | src/engine.rs:104-123 | A put to the cache succeeds exactly when the value fits and the estimate is at most the rounded-up share of the memory limit, and is then a hit in its shard; a refused one leaves the shard as it was. |
| `Served.ServedLru` | src/engine.rs:731-753 | Whatever the cache evicts has at least min(16, n) - 1 strictly more recently used entries beside it in its shard. |
| `Dogpile.FactoryRunsOnce` | clients/python/python/cachebox/cache.py:301-358 | With any number of clients on one absent key, in every calm interleaving the factory runs at most once and whoever returns gets its value. |
| `Dogpile.LateAskRunsTwice` | clients/python/python/cachebox/cache.py:318-355 | The deadline is needed: a client asking one millisecond after it makes the factory run a second time. |
| `ShardedRuns.InvalidateIsScan` | src/engine.rs:179-201 | In every run an invalidation counts exactly the entries with that tag in that namespace over all shards, removes them and nothing else, as a scan of every shard would. |
| `ShardedRuns.CountIsScan` | src/engine.rs:192-200 | Counting over the routed shards only is counting over all shards when the directory misses none. |
| `ShardedRuns.RunKeepsShardedInv` | src/engine.rs:104-232 | Every state of every run: keys sit in the shard they hash to, the directory misses no shard holding a tag and has no empty route, and each shard keeps the engine invariant. |
| `ShardedRuns.ReclaimCount` | src/engine.rs:284-302 | A budgeted reclaim over n shards removes exactly min(budget, due), and in each shard the first ones by removable time, namespace and key. |
| `ShardedRuns.BudgetSplit` | src/engine.rs:288-301 | Passing what is left of the budget from shard to shard gives min(budget, total due). |
| `ShardedRuns.RouteDroppedIff` | src/engine.rs:110-121 | When a call leaves a shard without a tag it had, the route goes exactly when the call invalidates the tag or is a write or delete naming an entry of the shard that had it. |
| `ShardedRuns.ReclaimedRouteStays` | src/engine.rs:284-302 | A tagged entry that is stored and then reclaimed leaves its route behind. |
| `ShardedRuns.MemoryWithinLimit` | src/engine.rs:88-96 | Over every run, memory summed over n shards stays at or below the configured limit plus n - 1. |
| `Leases.NoSecondGrant` | src/engine.rs:562-605 | Two grants for a key by the deadline of the first have between them a completion, a delete of the key, or the removal of an existing entry of it. |
| `Leases.LeaseHeld` | src/engine.rs:782-802 | Until one of those happens the granted lease is the one held. |
| `Leases.AbsentKeyLeaseSurvives` | src/engine.rs:699-703 | A lease on an absent key survives every get, reclaim, eviction and invalidation until a put, a completion, a delete or a new grant for that key. |
| `Leases.TokenReissuedIff` | src/engine.rs:791-802 | Two grants of any run carry the same token exactly when the first was made with the access counter at its maximum. |
| `Leases.TokenIssuedTwice` | src/engine.rs:791-802 | Such runs exist: there is a run that grants a key the same token twice. |
| `Leases.TokensNeverReissued` | src/engine.rs:792-793 | No token but the one with the last number is issued twice, on any key. |
| `Leases.AcceptedTokenWasGranted` | src/engine.rs:607-633 | A completion accepted in any run presents the token of a grant on that very key, by that grant's deadline. |
| `Leases.TokenAcceptedOnce` | src/engine.rs:615-622 | No token but the one with the last number is accepted twice in a run. |
| `Leases.LiveTokensDistinct` | src/engine.rs:791-802 | All tokens held at any moment differ, except ones with the last number. |
| `Leases.LeaseTokenInjective` | src/engine.rs:792 | The text of a token determines its number. |
| `EngineRuns.PutOutcome` | src/engine.rs:374-455 | In every run a put succeeds exactly when the value and the estimated entry fit; InsufficientMemory never occurs; a rejected put changes nothing; an accepted one is at once a Hit. |
| `EngineRuns.ChargeIsSize` | src/engine.rs:956-962 | The charge of an entry is its true size cut off at the 64-bit maximum. |
| `EngineRuns.ReclaimDetermined` | src/engine.rs:675-697 | What a reclaim removes is determined by the entries, the budget and the time. |
| `EngineRuns.EvictionIsSampledLru` | src/engine.rs:731-753 | Each entry evicted in any run has at least min(16, n) - 1 strictly more recently used entries beside it; with n at most 16 it is the least recently used one. |
| `EngineRuns.EvictionStart` | src/engine.rs:395-408 | Eviction starts only when no due entry remains, goes on only while the write does not fit, and stops as soon as it does. |
| `EngineRuns.RunKeeps` | src/engine.rs:374-802 | In every state of every run memory is within the limit and access stamps are pairwise distinct and below the counter until it saturates. |
| `EngineRuns.StepFrame` | src/engine.rs:374-802 | What any call leaves alone: entries other than the one it names only disappear, payloads never change in place, and stamps change only for that entry. |
| `EngineRuns.StepLoss` | src/engine.rs:374-697 | An entry disappears only through a delete, a matching invalidation, an eviction, or a call at or after its removable time. |
| `Engine.Engine.constructor` | src/engine.rs:359-372 | The empty engine: all indexes exact and empty. |
| `Engine.Engine.UnindexTags` | src/engine.rs:715-726 | Takes one entry out of the sets of its tags, duplicates included, and drops sets that become empty. |
| `Engine.Engine.Unlink` | src/engine.rs:700-713 | Takes an entry out of the map, its lease, its memory, its cost and its expiry key, and touches nothing else. |
| `Engine.Engine.RemoveEntry` | src/engine.rs:699-729 | Removes an entry with its lease and keeps every index exact, also while a caller's loop has one index open; reports whether it existed. |
| `Engine.Engine.FirstKey` | src/engine.rs:679-681 | The first expiry key by removable time, then namespace, then key, if there is any. |
| `Engine.Engine.PopDue` | src/engine.rs:678-687 | Pops exactly min(budget, due) due keys in the order of the index, and leaves the expiry index exact for the rest. |
| `Engine.Engine.RemoveEach` | src/engine.rs:540-544 | Removes every listed entry and counts them. |
| `Engine.Engine.RemovePopped` | src/engine.rs:689-696 | Removes the popped entries, after which all indexes are exact again. |
| `Engine.Engine.RemoveExpired` | src/engine.rs:675-697 | Removes exactly min(budget, due) entries, the first ones by removable time, namespace and key. |
| `Engine.Engine.LeastRecentlyUsed` | src/engine.rs:747-753 | Returns an entry that some full sample of sixteen contains nothing older than, and none only when there is no entry. |
| `Engine.Engine.EvictOne` | src/engine.rs:734-742 | Removes such an entry and counts the eviction. |
| `Engine.Engine.EvictUntilFits` | src/engine.rs:731-745 | Evicts one sample minimum after another, each only while the incoming bytes do not fit, until they do. |
| `Engine.Engine.IndexTags` | src/engine.rs:421-429 | Adds the entry to the set of each of its tags. |
| `Engine.Engine.ReclaimAll` | src/engine.rs:396-399 | Removes exactly the due entries. |
| `Engine.Engine.MakeRoom` | src/engine.rs:395-400 | Replaced entry gone, then due entries if still needed, then victims: the room a write needs. |
| `Engine.Engine.Link` | src/engine.rs:431-453 | Stores the entry, stamps it, and adds its memory, cost and expiry key. |
| `Engine.Engine.Insert` | src/engine.rs:410-454 | Stores the new entry with all indexes exact; the cost total stays exact until the true sum first passes the 64-bit maximum. |
| `Engine.Engine.Put` | src/engine.rs:374-455 | Refines the put step of the model and keeps every index exact. |
| `Engine.Engine.Get` | src/engine.rs:483-517 | Refines the get step: Fresh and Stale are served and stamped, an expired entry is removed with its lease. |
| `Engine.Engine.RecordAccess` | src/engine.rs:755-769 | Stamps an existing entry with the next access number. |
| `Engine.Engine.Delete` | src/engine.rs:520-524 | Refines the delete step: the lease goes in any case, the entry if there is one. |
| `Engine.Engine.InvalidateTag` | src/engine.rs:530-546 | Removes and counts exactly the entries with the tag, although the tag index is open while it loops. |
| `Engine.Engine.TagIdsForEntry` | src/engine.rs:548-554 | The tags of an entry, none if it is absent. |
| `Engine.Engine.HasTagId` | src/engine.rs:556-560 | Whether any entry has the tag. |
| `Engine.Engine.CreateLease` | src/engine.rs:791-802 | Grants a lease under the next token with a saturating deadline. |
| `Engine.Engine.StartLease` | src/engine.rs:562-605 | Refines the lease request step in all five outcomes. |
| `Engine.Engine.TakeLease` | src/engine.rs:611-622 | Consumes the lease exactly when it is active and the token matches; drops an inactive one. |
| `Engine.Engine.CompleteLease` | src/engine.rs:607-633 | Refines the completion step: the lease is consumed even if the inner put is rejected. |
| `Engine.Engine.ReclaimExpired` | src/engine.rs:659-665 | Refines the reclaim step and reports the number removed. |
| `Engine.PoppedAll` | src/engine.rs:678-687 | Popping from the front until the budget is used or nothing is due yields exactly min(budget, due) earliest entries. |
| `Engine.InsertKeeps` | src/engine.rs:421-453 | Adding an entry keeps the tag index its exact inverse, the expiry index exact and the memory sum right. |
| `Engine.RemoveKeeps` | src/engine.rs:699-729 | Removing one keeps them too. |
| `ShardedEngine.ShardedEngine.constructor` | src/engine.rs:88-102 | n empty shards with an equal, rounded-up share of the memory limit and an empty directory. |
| `ShardedEngine.ShardedEngine.UpdateTagRoutes` | src/engine.rs:315-334 | Removals first, then additions, for one shard; no empty route is left. |
| `ShardedEngine.ShardedEngine.WithoutEntries` | src/engine.rs:113-117 | Of the listed tags exactly those no entry of the shard has. |
| `ShardedEngine.ShardedEngine.PutInShard` | src/engine.rs:108-118 | The critical section of a write: one engine step, and the tags the entry had before. |
| `ShardedEngine.ShardedEngine.CompleteInShard` | src/engine.rs:214-227 | The same for a lease completion. |
| `ShardedEngine.ShardedEngine.FinishWrite` | src/engine.rs:120-121 | The directory update that follows turns the shard step into one step of the sharded model and keeps its invariant. |
| `ShardedEngine.ShardedEngine.Put` | src/engine.rs:104-123 | Refines the sharded put step. |
| `ShardedEngine.ShardedEngine.Get` | src/engine.rs:125-154 | Refines the sharded get step, with or without an access stamp. |
| `ShardedEngine.ShardedEngine.Delete` | src/engine.rs:156-173 | Refines the sharded delete step. |
| `ShardedEngine.ShardedEngine.StartLease` | src/engine.rs:203-208 | Refines the sharded lease request step. |
| `ShardedEngine.ShardedEngine.CompleteLease` | src/engine.rs:210-232 | Refines the sharded completion step. |
| `ShardedEngine.ShardedEngine.InvalidateListed` | src/engine.rs:192-200 | Visits each routed shard once, in any order, and sums what they removed. |
| `ShardedEngine.ShardedEngine.InvalidateTag` | src/engine.rs:179-201 | Refines the sharded invalidation step. |
| `ShardedEngine.ShardedEngine.ReclaimNextShard` | src/engine.rs:294-299 | One shard reclaims with what is left of the budget. |
| `ShardedEngine.ShardedEngine.ReclaimEach` | src/engine.rs:288-301 | The loop over the shards, which stops looking once the budget is used up. |
| `ShardedEngine.ShardedEngine.ReclaimExpired` | src/engine.rs:284-302 | Refines the sharded reclaim step. |
| `ShardedRuns.StepKeepsShardedInv` | src/engine.rs:104-302 | Every whole call keeps placement, routing and the engine invariant of each shard. |
| `ShardedRuns.TagsAfter` | src/engine.rs:108-121 | A tag present in a shard after a call was present before or is one the call wrote. |
| `Wire.NumberRoundTrip` | crates/cachebox-protocol/src/lib.rs:953-963 | A number that fits is read back from its big-endian bytes. |
| `Wire.BytesRoundTrip` | crates/cachebox-protocol/src/lib.rs:890-903 | Every byte string is the encoding of the number it reads as. |
| `Wire.NamesAreUtf8` | crates/cachebox-protocol/src/lib.rs:857-869 | A valid namespace or tag is valid UTF-8. |
| `Codec.CommandFromId` | crates/cachebox-protocol/src/lib.rs:38-49 | The command with that id, or an error exactly when no command has it. |
| `Codec.ErrorFromId` | crates/cachebox-protocol/src/lib.rs:241-256 | The error code with that id, or an error exactly when no code has it. |
| `CodecProofs.RequestRoundTrip` | crates/cachebox-protocol/src/lib.rs:278-301 | Decoding the encoding of a well-formed request gives it back, whatever bytes follow and whatever the ignored cost bytes are. |
| `CodecProofs.RequestRoundTripIff` | crates/cachebox-protocol/src/lib.rs:278-301 | And of no other request: a zero lifetime, too many tags, an empty batch, a bad name or a field too long is not given back. |
| `CodecProofs.RequestReencodes` | crates/cachebox-protocol/src/lib.rs:646-699 | Every accepted request is well-formed and its input starts with its encoding, for some value of the ignored cost bytes. |
| `CodecProofs.IgnoredPosition` | crates/cachebox-protocol/src/lib.rs:785-789 | The ignored bytes are eight bytes in one place, and nothing else in the encoding depends on them. |
| `CodecProofs.ResponseRoundTrip` | crates/cachebox-protocol/src/lib.rs:383-406 | Decoding the encoding of a well-formed response gives it back, whatever bytes follow. |
| `CodecProofs.ResponseRoundTripIff` | crates/cachebox-protocol/src/lib.rs:383-406 | And of no other response. |
| `CodecProofs.ResponseReencodes` | crates/cachebox-protocol/src/lib.rs:701-760 | Every accepted response is well-formed and its input starts with its encoding. |
| `CodecProofs.MetadataReads` | crates/cachebox-protocol/src/lib.rs:776-808 | Metadata without zero TTLs and with at most 65535 valid tags is read back. |
| `CodecProofs.MetadataAccepted` | crates/cachebox-protocol/src/lib.rs:776-808 | Only such metadata is accepted, and only from its encoding. |
| `CodecProofs.FrameOpens` | crates/cachebox-protocol/src/lib.rs:528-569 | A frame built around a payload opens to its command, id and payload. |
| `CodecProofs.FrameAccepted` | crates/cachebox-protocol/src/lib.rs:528-569 | An opened frame is the encoding of what it opened to. |
| `CodecImpl.Cursor.ReadU8` | crates/cachebox-protocol/src/lib.rs:881-888 | Reads what the field reader of the format reads, or fails with its error, and advances past it. |
| `CodecImpl.Cursor.ReadBorrowedExact` | crates/cachebox-protocol/src/lib.rs:931-942 | Reads what the field reader of the format reads, or fails with its error; the slice stands for the same bytes. |
| `CodecImpl.Cursor.ReadNumber` | crates/cachebox-protocol/src/lib.rs:890-903 | Reads what the field reader of the format reads, or fails with its error, and advances past it. |
| `CodecImpl.Cursor.ReadBool` | crates/cachebox-protocol/src/lib.rs:905-911 | Reads what the field reader of the format reads, or fails with its error, and advances past it. |
| `CodecImpl.Cursor.ReadBytes` | crates/cachebox-protocol/src/lib.rs:913-916 | Reads what the field reader of the format reads, or fails with its error, and advances past it. |
| `CodecImpl.Cursor.ReadString` | crates/cachebox-protocol/src/lib.rs:918-920 | Reads what the field reader of the format reads, or fails with its error, and advances past it. |
| `CodecImpl.Cursor.ReadBorrowedBytes` | crates/cachebox-protocol/src/lib.rs:922-925 | Reads what the field reader of the format reads, or fails with its error; the slice stands for the same bytes. |
| `CodecImpl.Cursor.ReadBorrowedString` | crates/cachebox-protocol/src/lib.rs:927-929 | Reads what the field reader of the format reads, or fails with its error; the slice stands for the same bytes. |
| `CodecImpl.Cursor.ReadNamespace` | crates/cachebox-protocol/src/lib.rs:825-831 | Reads what the field reader of the format reads, or fails with its error, and advances past it. |
| `CodecImpl.Cursor.ReadTag` | crates/cachebox-protocol/src/lib.rs:833-839 | Reads what the field reader of the format reads, or fails with its error, and advances past it. |
| `CodecImpl.Cursor.ReadBorrowedNamespace` | crates/cachebox-protocol/src/lib.rs:841-847 | Reads what the field reader of the format reads, or fails with its error; the slice stands for the same bytes. |
| `CodecImpl.Cursor.ReadBorrowedTag` | crates/cachebox-protocol/src/lib.rs:849-855 | Reads what the field reader of the format reads, or fails with its error; the slice stands for the same bytes. |
| `CodecImpl.Cursor.ReadTags` | crates/cachebox-protocol/src/lib.rs:791-795 | The loop over tags reads the list the format defines, or fails where it does. |
| `CodecImpl.Cursor.ReadKeys` | crates/cachebox-protocol/src/lib.rs:598-601 | The loop over batch keys likewise. |
| `CodecImpl.Cursor.ReadItems` | crates/cachebox-protocol/src/lib.rs:448-457 | The loop over batch items likewise. |
| `CodecImpl.Cursor.ReadMetadata` | crates/cachebox-protocol/src/lib.rs:776-808 | Reads the metadata the format defines, or fails with its error. |
| `CodecImpl.Cursor.DecodeRequestPayload` | crates/cachebox-protocol/src/lib.rs:571-644 | Reads the request payload of each command, or fails with the first error in field order. |
| `CodecImpl.Cursor.DecodeResponsePayload` | crates/cachebox-protocol/src/lib.rs:441-492 | Reads the response payload, where status 0 announces a list for a batch get. |
| `CodecImpl.DecodeRequest` | crates/cachebox-protocol/src/lib.rs:278-301 | The cursor-based decoder is the decoder of the format. |
| `CodecImpl.DecodeResponse` | crates/cachebox-protocol/src/lib.rs:383-406 | The same for responses. |
| `CodecImpl.DecodeHotPayload` | crates/cachebox-protocol/src/lib.rs:319-353 | The four hot payloads are read in place, with the owned reader's fields or its error. |
| `CodecImpl.DecodeBorrowedRequest` | crates/cachebox-protocol/src/lib.rs:303-364 | On every byte string the borrowed decoder gives the owned decoder's fields or error for the four hot commands, and nothing for the other three exactly when header, length and command are valid. |
| `CodecImpl.Writer.WriteBytes` | crates/cachebox-protocol/src/lib.rs:969-976 | Appends a length-prefixed field. |
| `CodecImpl.Writer.WriteEach` | crates/cachebox-protocol/src/lib.rs:816-818 | Appends a list of fields, in order. |
| `CodecImpl.Writer.WriteMetadata` | crates/cachebox-protocol/src/lib.rs:810-823 | Appends the encoding of the metadata, with zeros for an absent cost. |
| `CodecImpl.Writer.WriteBody` | crates/cachebox-protocol/src/lib.rs:646-699 | Appends what follows the namespace of a request. |
| `CodecImpl.Writer.WriteRequest` | crates/cachebox-protocol/src/lib.rs:646-699 | Appends the encoding of a request payload. |
| `CodecImpl.Writer.WriteItems` | crates/cachebox-protocol/src/lib.rs:744-757 | Appends the items of a batch, in order. |
| `CodecImpl.Writer.WriteGrant` | crates/cachebox-protocol/src/lib.rs:725-735 | Appends a granted lease with or without a stale value. |
| `CodecImpl.Writer.WriteResponse` | crates/cachebox-protocol/src/lib.rs:701-760 | Appends the encoding of a response payload. |
| `CodecImpl.Writer.BeginFrame` | crates/cachebox-protocol/src/lib.rs:502-510 | Clears the buffer and writes a header of length zero. |
| `CodecImpl.Writer.PatchLength` | crates/cachebox-protocol/src/lib.rs:511-518 | Overwriting the four length bytes afterwards gives the frame of the payload. |
| `CodecImpl.Writer.EncodeRequestInto` | crates/cachebox-protocol/src/lib.rs:372-381 | The buffer holds exactly the frame of the request, whatever it held before. |
| `CodecImpl.Writer.EncodeResponseInto` | crates/cachebox-protocol/src/lib.rs:414-439 | The same for a response. |
| `Framing.SplitIndependent` | src/server.rs:524-584 | However reads split a stream: within the length limit the framing loop delivers exactly the frames of a one-at-a-time parser on the whole stream and keeps exactly its rest; on a forbidden length it closes, having delivered only frames before it. |
| `Framing.SplitsAgree` | src/server.rs:524-584 | Two ways of splitting the same stream deliver the same frames, and frames plus rest make up the bytes received. |
| `Framing.DeliveredUpTo` | src/server.rs:534-546 | Exactly what is delivered before a close: the frames complete in the last buffer that showed no forbidden length. |
| `Framing.AllDeliveredIff` | src/server.rs:555-563 | All frames before a forbidden length are delivered exactly when some read ends behind the last of them and before the forbidden header is complete. |
| `Framing.CloseDropsAFrame` | src/server.rs:561-563 | A read with a complete frame and then a forbidden header delivers nothing. |
| `Framing.ParseConserves` | src/server.rs:552-578 | The frames found and the rest, put together, are the buffer. |
| `Framing.ParseMore` | src/server.rs:534-546 | Bytes that arrive later change nothing that was already decided. |
| `Framing.ParseConcat` | src/server.rs:552-578 | Frames sent one after the other are cut into the same frames again. |
| `Framing.FindCompleteFrames` | src/server.rs:552-578 | The scan finds the ranges of all complete frames, asks for more when there is none, and closes on a forbidden length. |
| `Framing.ScanCuts` | src/server.rs:571-572 | The ranges cut the buffer into the parsed frames and end where the rest begins. |
| `Framing.FrameReader.ReadFrameRanges` | src/server.rs:524-547 | Reads until there is a frame, the stream ends or a length is forbidden, without changing what will be delivered in all. |
| `Framing.FrameReader.DrainFrameRanges` | src/server.rs:580-584 | Drops everything up to the end of the last range. |
| `Framing.FrameReader.NextBatch` | src/server.rs:414-470 | One turn of the connection loop hands out exactly the next batch and leaves the rest of the delivery to come. |
| `Server.AnswerReadsBack` | src/server.rs:586-633 | The answer to a frame with the right magic decodes, whatever follows it, to one response under that frame's id and command, with the cache's reply or the decode error; any other frame changes nothing and gets no bytes. |
| `Server.AcceptedHeader` | crates/cachebox-protocol/src/lib.rs:278-301 | A decoded request carries the id and command its header shows, and the magic. |
| `Server.ReplyIsGood` | src/server.rs:686-960 | Every reply of the cache that fits a frame becomes a well-formed response. |
| `ServerImpl.ExecuteFrame` | src/server.rs:586-633 | Decode, run on the cache object, encode: whichever decoder a frame went through, the bytes and the new cache are ones the server model allows. |
| `ServerImpl.BorrowedIsOwned` | src/server.rs:593-633 | What the borrowed decoder returned determines the owned request or the owned error. |
| `ServerImpl.Serve` | src/server.rs:724-830 | Each request makes the one cache call its command stands for and answers with that call's reply. |
| `ServerImpl.ServeView` | src/server.rs:686-716 | The same for the four hot requests served from slices. |
| `ServerImpl.ServeBatch` | src/server.rs:758-780 | A batch get reads its keys one after the other and answers in key order. |
| `ServerImpl.ServeGet` | src/server.rs:832-896 | A get answers Hit, Stale or Miss as the cache does. |
| `ServerImpl.ServeDelete` | src/server.rs:695-699 | A delete says whether there was an entry. |
| `ServerImpl.ServeInvalidate` | src/server.rs:700-708 | An invalidation answers its count, clamped to 32 bits. |
| `ServerImpl.ServeLeaseStart` | src/server.rs:898-926 | A lease request answers with its outcome; the stale allowance is ignored. |
| `ServerImpl.ServePut` | src/server.rs:733-752 | A put answers the number evicted, clamped to 32 bits, or the error. |
| `ServerImpl.ServeLeaseComplete` | src/server.rs:795-828 | A completion likewise, or an invalid token. |
| `ServerImpl.AnswerError` | src/server.rs:962-987 | A decode error is answered under the frame's own id if it has the magic, and with nothing otherwise. |
| `ServerLaws.StoredIsServed` | src/server.rs:733-752 | A value stored by a put or a completion is served to a get for its time to live, then as stale for its stale time, and then not at all. |
| `ServerLaws.InvalidatedIsGone` | src/server.rs:781-788 | Invalidating any of its tags afterwards is counted and makes the get miss. |
| `ServerLaws.DeletedIsGone` | src/server.rs:753-757 | After a delete a get misses, and the delete said whether there was an entry. |
| `ServerLaws.GrantedTokenCompletes` | src/server.rs:795-828 | After a grant, a completion is refused as invalid exactly when its token is another or it comes after the deadline. |
| `ServerLaws.RefusedIff` | src/server.rs:811-822 | A completion is refused as invalid exactly when the key has no lease, its lease has run out, or its token is another. |
| `Connection.StreamIsAnswered` | src/server.rs:395-522 | For every split of a stream within the length limit and every interleaving of tasks, writer and other connections, once the connection is drained the bytes sent can be cut into exactly one response per complete frame with the right magic, under its request's id, saying what the cache answered at the step of the run that executed the frame. |
| `Connection.EveryFrameAnsweredOnce` | src/server.rs:395-522 | Every drained run has written exactly one response to each frame, made by the one step that executed it on the cache of that moment: the inline ones first in request order, then a permutation of the others, in writes of one to 32 responses; inline frames are executed before all later ones. |
| `Connection.MadeBefore` | src/server.rs:414-482 | Every response in any state of any run was made by an earlier step of that run, executing its own frame on the cache as it was then. |
| `Connection.ExecutedOnce` | src/server.rs:414-482 | No frame is executed by two steps. |
| `Connection.InlineBeforeLater` | src/server.rs:421-438 | A frame answered inline is executed before every frame that came after it. |
| `Connection.RunKeeps` | src/server.rs:412-484 | In every state of every run each frame handed out is with its task or issued once, at most 128 tasks hold permits, at most 128 responses are queued and at most 32 are being joined. |
| `Connection.StepKeeps` | src/server.rs:412-522 | Every step of reader, tasks, writer or other connections keeps that account. |
| `Connection.WriterKeeps` | src/server.rs:488-522 | Receiving, joining and writing neither lose, double nor reorder responses. |
| `Connection.NeverStuck` | src/server.rs:452-477 | Until it is drained a connection can take a step or has a request to execute: permits and channel cannot deadlock. |
| `Progress.EveryCallHasAStep` | src/engine.rs:104-302 | Every operation has an outcome in every state a run can reach, at any time: room can always be made for a write that fits, and the directory updated. |
| `Progress.RoomIsMade` | src/engine.rs:731-745 | Evicting least recently used entries one by one makes room for any size within the limit. |
| `Completion.AlwaysAStep` | src/server.rs:412-497 | If the responses fit their length fields, a connection that is not drained has a step of its own to take, executing a request included. |
| `Completion.CanBeDrained` | src/server.rs:412-522 | Then every state a connection can reach can be brought to its end by steps of its own. |
| `Completion.SmallCacheFits` | src/server.rs:586-633 | Responses do fit when the memory limit is below 2^32, those to a batch if as many values of that size would. |
| `Connection.RunsEnd` | src/server.rs:412-497 | A connection takes at most seven steps per frame and one per batch. |
| `Connection.CoalesceResponses` | src/server.rs:504-522 | The join takes queued responses in order, at most 31 after the first, none once 64 KiB are reached, and stops only for these reasons or an empty queue. |
| `Connection.CoalescedBySteps` | src/server.rs:504-522 | What that join returns is the batch of the connection after as many joining steps as are enabled, ready to be written. |
| `Connection.SocketParses` | src/server.rs:488-522 | The bytes written fall apart into the responses that have any, in the order issued. |
| `Connection.AnswerSays` | src/server.rs:586-633 | An answer carries one response frame under the id and command of its frame, with what the given cache answered or the error of decoding; no bytes without the magic. |
| `History.CachesAreARun` | src/server.rs:414-482 | The calls before a connection, those of its steps and those made elsewhere are one run of the sharded cache, and the caches of the connection are states of that run. |
| `History.ServeContinues` | src/server.rs:724-830 | Serving a request is making its calls: one, or one get per key of a batch. |
| `Pipelining.IdsClashIff` | clients/rust/cachebox-client/src/lib.rs:402-403 | Request ids are never zero, and two clash exactly when a multiple of 2^64 - 1 requests apart. |
| `Pipelining.ExpectedIsExact` | clients/rust/cachebox-client/src/lib.rs:399-404 | A batch registers each of its requests under its own id, with its position and command. |
| `Pipelining.AcceptedIff` | clients/rust/cachebox-client/src/lib.rs:496-514 | All responses are accepted exactly when each answers a request of the batch under its command and none twice; then each slot holds what they say for it. |
| `Pipelining.FinishDelivers` | clients/rust/cachebox-client/src/lib.rs:516-528 | n accepted responses to n requests fill every slot: the result is all payloads in request order or the error of the lowest-index failed request, never a missing payload. |
| `Pipelining.OrderIrrelevant` | clients/rust/cachebox-client/src/lib.rs:496-528 | Two arrival orders of the same responses are both accepted or both refused, and give the same result. |
| `Client.PipelinedResponseMatcher.constructor` | clients/rust/cachebox-client/src/lib.rs:484-494 | All slots empty. |
| `Client.PipelinedResponseMatcher.Push` | clients/rust/cachebox-client/src/lib.rs:496-514 | Fills the slot of the request answered, or refuses an unknown id or another command, having forgotten the id. |
| `Client.PipelinedResponseMatcher.Finish` | clients/rust/cachebox-client/src/lib.rs:516-528 | The first error by index, otherwise the payloads in order. |
| `Client.NativeClient.EncodeBatch` | clients/rust/cachebox-client/src/lib.rs:399-414 | Takes one id per request and writes the frames in request order. |
| `Client.NativeClient.ReadResponseFrame` | clients/rust/cachebox-client/src/lib.rs:434-448 | Reads one frame by its declared length and decodes it, or reports the end of the stream or the decode error. |
| `Client.NativeClient.RequestPipelined` | clients/rust/cachebox-client/src/lib.rs:390-424 | Writes all frames, reads as many responses, and returns what the matcher makes of them. |
| `EndToEnd.PipelinedBatchReturns` | clients/rust/cachebox-client/src/lib.rs:390-424 | A batch sent on a fresh connection, split anywhere, served in any interleaving, returns in request order, for each request, the response the cache of this run gave at the one step that executed it, or the error of the first request that failed. |
| `EndToEnd.ClientReadsLatestWrite` | clients/rust/cachebox-client/src/lib.rs:390-424 | All calls before and during the session are one run of the cache in which every request of the batch has its place, and what the client's answer shows to a get, to each key of a batch and to a lease request is exactly the latest write of that key before that place, unless it has expired or was lost; calls of inline requests stand before those of later ones. |
| `EndToEnd.GetSeesPut` | clients/rust/cachebox-client/src/lib.rs:390-424 | A get after a put or a completion in that history, with no call between them that rewrites or deletes the key or invalidates a tag of the write, is answered with the stored value exactly for as long as it lives, unless a call between the two evicted it or removed it when due, and then with a miss. |
| `EndToEnd.LoneGetSession` | clients/rust/cachebox-client/src/lib.rs:390-424 | Sessions exist: one get sent to an empty server, from its frame to the written miss. |
| `EndToEnd.SessionExists` | clients/rust/cachebox-client/src/lib.rs:390-424 | Every batch of well-formed requests, split anywhere, on any sound cache, can be brought through a session, if the responses fit. |
| `EndToEnd.ExchangeIsPushAll` | clients/rust/cachebox-client/src/lib.rs:418-422 | Reading and matching in turns equals matching all that was sent. |
| `Normalise.PromptIff` | clients/rust/cachebox-client/src/ai.rs:248-281 | Two prompts normalise to the same bytes exactly when they are equal up to JSON object key order and up to a missing text and the text <none>. |
| `Normalise.EmbeddingIff` | clients/rust/cachebox-client/src/ai.rs:283-304 | The same for embedding inputs. |
| `Normalise.KindsDiffer` | clients/rust/cachebox-client/src/ai.rs:248-304 | A prompt and an embedding input never share their bytes. |
| `Normalise.NoneCollides` | clients/rust/cachebox-client/src/ai.rs:328-333 | A missing model version and the model version <none> do share them. |
| `Normalise.Peel` | clients/rust/cachebox-client/src/ai.rs:339-348 | Fields of the same names are read off the front in one way only. |
| `Json.CanonicalIff` | clients/rust/cachebox-client/src/ai.rs:350-381 | Two JSON values have the same canonical text exactly when they differ at most in the order of object keys, at any depth. |
| `Json.ValueText` | clients/rust/cachebox-client/src/ai.rs:350-381 | A value can be read off the front of a text in one way only. |
| `Json.QuotedText` | clients/rust/cachebox-client/src/ai.rs:355-357 | An escaped string ends at its first unescaped quote and determines the string. |
| `Json.SortSorts` | clients/rust/cachebox-client/src/ai.rs:367-368 | Sorting by key puts fields with distinct keys in strictly increasing order. |
| `Json.SortMultiset` | clients/rust/cachebox-client/src/ai.rs:367-368 | Sorting keeps every field once. |
| `Normalise.Normaliser.AppendU64` | clients/rust/cachebox-client/src/ai.rs:346-348 | Appends a count. |
| `Normalise.Normaliser.AppendBytes` | clients/rust/cachebox-client/src/ai.rs:339-344 | Appends a named, length-prefixed field. |
| `Normalise.Normaliser.AppendOptional` | clients/rust/cachebox-client/src/ai.rs:328-333 | Appends the text, or <none>. |
| `Normalise.Normaliser.AppendJson` | clients/rust/cachebox-client/src/ai.rs:321-326 | Appends the canonical text, or <none>. |
| `Normalise.Normaliser.AppendJsonMap` | clients/rust/cachebox-client/src/ai.rs:306-319 | Appends the count and every pair in key order. |
| `Normalise.Normaliser.AppendMessages` | clients/rust/cachebox-client/src/ai.rs:274-279 | Appends the count and every message in order. |
| `Normalise.NormalizePrompt` | clients/rust/cachebox-client/src/ai.rs:248-281 | Writes exactly the fields of the prompt, in order. |
| `Normalise.NormalizeEmbedding` | clients/rust/cachebox-client/src/ai.rs:283-304 | Writes exactly the fields of the embedding input, in order. |

## Left out

- Engine.Engine.Put: one clock value stands for the two readings of the source, its own and that of the reclaim inside it.
- Engine.Engine.StartLease: one clock value stands for the readings of the lease test, the entry state and the new deadline.
- Engine.Engine.CompleteLease: one clock value stands for the readings of the lease test and of the put inside it.
- ServerImpl.ServeBatch: one clock value for all keys and no other call between the reads, while the source reads the clock for each key and lets other calls in between.
- Limits of `usize::MAX`: `max_memory_bytes` is taken to be smaller, as the saturating memory sum could not exceed it.
- EngineRuns.EvictionIsSampledLru: for states in which `next_access` has not reached its maximum, after which stamps repeat.
- Served.ServedLru: likewise, for the counter of the shard that is written to.
- Served.AcceptedOnce: for keys of one shard; shards number their tokens independently, so a token text can be accepted once in each.
- Completion.CanBeDrained: for frames whose responses fit their length fields, as a longer response makes the encoder abort; `SmallCacheFits` says when they do.
- Lock poisoning, task panics and I/O errors: runs in which one occurs are not described; a response too large for its length field, which makes the encoder abort, is modelled as no answer.
- Lock granularity inside the server model: a request is one whole call; the finer interleaving is treated in `LockMachine` on its own.
- Sockets, task scheduling and fairness: reads are a list of byte strings, and steps come in any order; every run is shown to be finite and every state to lead to the end, but not that the scheduler goes there.
- The derived debug text in decode error responses: a parameter, assumed to be valid UTF-8 shorter than 2^32 bytes.
- JSON numbers are identified with the text they print as; the float printer is not part of the model.
- `sort_by_key` is modelled by insertion sort; only that the result is the sorted permutation matters.
- The 128-bit digest of normalised bytes: collisions cannot be excluded, so nothing is proved about it.
- Metrics, statistics snapshots, the admin HTTP surface, configuration, benchmarks and scripts: sums and plumbing that would only add easy members.
- The Python codec, pools, serializers and key builders: the codec repeats the Rust one, and the rest wraps sockets and libraries.
- The asynchronous Python client and the single-request path of the Rust client: the same protocol with one request at a time.
- Stream capture and generation helpers: settled by one branch each.
- Dogpile.FactoryRunsOnce: holds for calm runs, in which pending leases have not run out, the completing write fits and stays fresh, and no other call writes, deletes or removes the key; without the deadline it fails, as `LateAskRunsTwice` shows.
- EndToEnd.ClientReadsLatestWrite: the clock does not go back from step to step, and the calls made before the connection are a run of the cache; the times of steps on different threads are taken in the order of the steps.
