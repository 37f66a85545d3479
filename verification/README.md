# cachier, modelled in Dafny

A model of the core of `cachier`, a Go key-value cache. The model has five parts, one Dafny module each, plus small support modules:

- **`WriteQueue`** (`write_queue.go`): the coalescing write-behind queue.
  - It is a FIFO log of Set / Delete / DeletePredicate / Purge operations plus an overlay map of values not yet written.
  - A new operation first drops every queued operation it overrides.
  - The writer drains the log through `StartWriting` / `DoneWriting`.
  - Go compares operations and overlay values by pointer. Here every operation carries a fresh id, and every overlay entry records the id of the Set that wrote it.
- **`BoundedQueue`** (`interface.go`): the write queue the generic `Cache[T]` uses.
  - It is a capacity-bounded map of pending values, a set of keys whose write was refused or failed, and one slot for the pair being written.
- **`CacheFacade`** (`interface.go`): the `Cache[T]` facade over an abstract storage engine.
  - The engine maps each key to a `*T`, a bare `T`, or a value of another type. Failures can be injected per key, for `Keys` and for `Purge`.
  - `Drain` is one full pass of the background write loop.
  - `CacheFacadeLemmas` relates several calls: read-your-writes, indirect links, compute-once, and what a drain leaves behind.
- **`CacheWithSubcache`** (`cache_with_subcache.go`): an L1 subcache in front of a backing cache.
  - The file is written against an older, non-generic `*Cache` holding `interface{}` values (cache_with_subcache.go:5-6, 11), and interface.go:17-19 describes it as a storage engine. The model builds both tiers on the generic `Cache[T]` facade above; see "Left out".
- **`Compression`** (`compression/compression.go`): the compression engine.
  - It keeps a provider registry keyed by id and a size threshold.
  - It appends a self-describing footer: a single 0 byte for uncompressed data, else the original length as a little-endian `uint64` followed by the provider id.
- **`Providers`** (`compression/provider.go`): the built-in providers with their 9-byte metadata trailer. The zstd, s2 and lz4 codecs are uninterpreted functions.
- **Support modules:**
  - `Wrappers`: `Option`, `Result`.
  - `Collections`: map-order enumeration of a set, counting, cardinality facts.
  - `LittleEndian`: Go's `encoding/binary` little-endian `uint64`, and the `uint64(int)` / `int(uint64)` conversions.

How the model treats the Go code:

- Everything runs sequentially. Per-key locks, the queue mutex and the engine mutex become no-ops.
- Go map iteration order is left open. Such an operation is a method that picks an arbitrary element with `:|`, and its contract holds for every order.
- A Go panic on a reachable input becomes a precondition:
  - `StartWriting` while a write is in flight.
  - An empty input to `extractFooter` or to the no-compression `Decompress`.
  - An unregistered provider chosen by `Compress`.
  - A negative size allocated by the zstd and lz4 decoders.

Where the two write queues differ, or a comment in the code says something the code does not do, the model follows the code:

- **Failed writes.** In `write_queue.go`, `DoneWriting(false)` (write_queue.go:265-284) clears only the writer slot, so the failed operation stays at the front of the log and is written again by the next pass. The `Cache[T]` of `interface.go` uses its own bounded queue, whose `DoneWriting(false)` (interface.go:209-219) marks the key invalid; the pair was already taken out of the map by `StartWriting`, so it is never retried (`CacheFacadeLemmas.FailedWriteNotRetried`).
- **Subcache `Set` order.** `Set` writes the subcache first and returns early if that fails; only then does it write the backing cache (cache_with_subcache.go:24-29).
- **Removing the front operation.** A completed write is not the only way the front of the log goes away: coalescing a new operation and `Purge` can drop it while it is being written. `DoneWriting` therefore pops the front only when it is still the operation being written (write_queue.go:269-273).
- **`StartWriting`.** Both queues' comment says it removes the oldest pair. The log queue's version (write_queue.go:245-262) leaves the operation in place until `DoneWriting`; the bounded queue's version (interface.go:194-206) removes some pair in Go map order, not the oldest.
- **Full queue.** The comment on `Enqueue` (interface.go:69) says a full queue overwrites its oldest entry. The code instead marks the new key invalid and keeps every pending value (interface.go:75-79).

Quirks kept as written:

- **`Cache.CountPredicate` counts queued keys twice.** It adds the queue's matches to the matches over `Keys()`, and `Keys()` already lists the queue's keys.
- **A validator rejection is not cached.** `GetOrComputeEx` recomputes the value but does not write it. It returns the value alongside the lookup's error, which is nil.
- **A nil `Set` changes meaning after a drain.** Before the write loop runs, a nil value reads as NotFound. Once written, the engine hands back a typed nil `*T`, which reads as `(nil, nil)` (`CacheFacadeLemmas.GetAfterDrain`).

## Model

| member | source | states |
|---|---|---|
| WriteQueue.New | write_queue.go:117-122 | a new queue is empty and already satisfies the overlay/log invariant |
| WriteQueue.RemoveOverridden | write_queue.go:125-135 | the survivors are exactly the queued operations the new one does not include |
| WriteQueue.RemoveOverriddenInOrder | write_queue.go:125-135 | the survivors keep their original relative order |
| WriteQueue.RemoveOverriddenInPlace | write_queue.go:125-135 | the in-place index loop (remove at `i`, else advance) computes exactly the survivors of `RemoveOverridden` |
| WriteQueue.AnyIncludesKey | write_queue.go:146-152 | the scan over the queue reports whether some queued operation marks the key |
| WriteQueue.Get | write_queue.go:140-155 | an overlay hit returns its stored value (nil included) as found; otherwise found holds iff some queued operation includes the key, with a nil value |
| WriteQueue.Set | write_queue.go:158-167 | the new Set ends the log; every earlier Set/Delete of the key is gone and all other operations survive in order; the overlay maps the key to the new value and nothing else changes |
| WriteQueue.Delete | write_queue.go:170-179 | the new Delete ends the log; every earlier Set/Delete of the key is gone, the rest survive in order; the key leaves the overlay |
| WriteQueue.DeletePredicate | write_queue.go:182-195 | exactly the queued Sets/Deletes whose key matches are dropped (predicate and purge operations stay), survivors keep their order, and exactly the matching keys leave the overlay |
| WriteQueue.Purge | write_queue.go:221-230 | the log becomes the single Purge and the overlay empties |
| WriteQueue.CountPredicate | write_queue.go:206-218 | the count is the number of overlay keys matching the predicate, never more than `Count` |
| WriteQueue.Keys | write_queue.go:233-243 | lists each overlay key exactly once, so its length is `Count` |
| WriteQueue.StartWriting | write_queue.go:246-262 | on an empty log nothing changes; otherwise the oldest operation is handed out and marked in flight without being removed |
| WriteQueue.DoneWriting | write_queue.go:265-284 | clears the writer slot; a failure changes nothing else; an operation no longer queued changes nothing else; success with the in-flight operation at the front pops exactly it |
| WriteQueueLemmas.RemoveOverriddenKeepsApart | write_queue.go:125-135 | coalescing keeps ids distinct and at most one Set/Delete per key |
| WriteQueueLemmas.SetPreservesValid | write_queue.go:158-167 | Set keeps the invariant: a key is in the overlay with a value iff a Set of it with that value is queued |
| WriteQueueLemmas.DeletePreservesValid | write_queue.go:170-179 | Delete keeps the overlay/log invariant |
| WriteQueueLemmas.DeletePredicatePreservesValid | write_queue.go:182-195 | DeletePredicate keeps the overlay/log invariant |
| WriteQueueLemmas.PurgePreservesValid | write_queue.go:221-230 | Purge keeps the overlay/log invariant |
| WriteQueueLemmas.DoneWritingPreservesValid | write_queue.go:265-284 | completing a write, on success or failure, keeps the overlay/log invariant |
| WriteQueueLemmas.GetFoundIffLogged | write_queue.go:140-155 | in a valid queue a key is found iff a queued operation mentions it, and a non-nil value found comes from a queued Set of that key |
| WriteQueueLemmas.GetAfterSet | write_queue.go:158-167 | read-your-writes: after Set the key reads back the value (nil too) as found, and every other key reads as before |
| WriteQueueLemmas.GetAfterDelete | write_queue.go:170-179 | after Delete the key reads as found-but-nil and every other key reads as before |
| WriteQueueLemmas.GetAfterDeletePredicate | write_queue.go:182-195 | after DeletePredicate matching keys read as found-but-nil and the others read as before |
| WriteQueueLemmas.GetAfterPurge | write_queue.go:221-230 | after Purge the log is a single Purge and every key reads as found-but-nil |
| WriteQueueLemmas.DrainStep | write_queue.go:246-284 | one successful start/done round hands out the front operation, pops it, keeps the invariant and clears a written Set's overlay entry; a failed round restores the queue exactly |
| WriteQueueLemmas.DrainAll | write_queue.go:246-284 | draining to empty hands the operations to the writer in FIFO order and leaves an empty log; from a valid queue the result is valid with an empty overlay |
| WriteQueueLemmas.OverlayNoLargerThanLog | write_queue.go:287-292 | of the two counts `GetStats` reports, the overlay's never exceeds the log's in a valid queue |
| BoundedQueue.New | interface.go:57-67 | a non-positive size becomes 100; the new queue is empty and within its bound |
| BoundedQueue.Enqueue | interface.go:70-84 | a key already pending or a queue with room stores the value and clears the key's invalid mark; otherwise only the key is marked invalid; the size bound is kept |
| BoundedQueue.Delete | interface.go:110-115 | the key leaves both the pending values and the invalid keys; every other key reads as before |
| BoundedQueue.DeletePredicate | interface.go:118-135 | removes exactly the matching pending and invalid keys, leaves no match behind, and lists them once each, pending ones first, as many as there were |
| BoundedQueue.Purge | interface.go:170-175 | empties the pending values and invalid keys but keeps the pair being written |
| BoundedQueue.Keys | interface.go:178-192 | lists pending, invalid and in-flight keys; its length is `Count` and, for every predicate, its matches are `CountPredicate` |
| BoundedQueue.StartWriting | interface.go:195-206 | moves one pending pair into the writer slot (none if empty); when no write was in flight, no key's read changes |
| BoundedQueue.DoneWriting | interface.go:209-219 | clears the writer slot; a failed write leaves its key marked invalid |
| CacheFacade.MakeCache | interface.go:244-255 | the new cache has an empty queue of size 1000, so every read goes to the engine |
| CacheFacade.Get | interface.go:494-523 | a pending or in-flight value answers first, nil reading as NotFound; an invalid key reads as NotFound; otherwise a broken key gives its backend error, a missing key NotFound, a stored `*T` its value, and anything else WrongDataType (exactly then); error replies carry no value |
| CacheFacade.PeekAsWritten | interface.go:447-470 | a queue hit reads as in `Get`; otherwise a broken key gives its backend error, a missing key NotFound, a bare `T` its value and anything else NotFound; never WrongDataType |
| CacheFacade.Peek | interface.go:447-470 | corrected `Peek`: exactly `Get` with WrongDataType turned into NotFound |
| CacheFacade.Set | interface.go:287-291 | never touches the engine; an accepted key reads back its value (nil reads NotFound); a refused key reads NotFound unless in flight; other keys read as before |
| CacheFacade.Delete | interface.go:473-478 | the key leaves the queue even when the engine fails; the engine's error is returned; after success the key reads NotFound unless in flight; other keys read as before |
| CacheFacade.Purge | interface.go:481-484 | the queue's values and invalid keys are dropped; the engine's error is returned; after success every key not in flight or broken reads NotFound |
| CacheFacade.Keys | interface.go:487-491 | the queue's keys followed by the engine's keys; for every predicate the matches are the queue's plus the engine's |
| CacheFacade.CountPredicate | interface.go:419-434 | on success twice the queue's matches plus the engine's; a `Keys` failure gives 0 and the error |
| CacheFacade.DeleteQueued | interface.go:376 | the queue half: the engine is untouched, no matching key stays pending or invalid, and the listed keys are the pending matches then the invalid matches |
| CacheFacade.DeleteListed | interface.go:378-394 | the engine half: a `Keys` failure returns its error having deleted nothing; otherwise the deleted keys are matching, unbroken and listed by `Keys`, the store loses exactly them, an error comes from a matching broken listed key, and on success no matching key remains |
| CacheFacade.DeleteMatching | interface.go:383-394 | walks the listed keys in order: succeeds iff no matching listed key is broken, then having deleted every match in listing order; otherwise stops at the first matching broken key, returns its error, and has deleted exactly the matches listed before it; the store loses exactly the deleted keys |
| CacheFacade.DeletePredicate | interface.go:376-397 | matching keys leave the queue; `removed` is the queue's pending matches, then its invalid matches, then the keys deleted from the engine, which are matching, unbroken, stored or in flight, and exactly the keys the store loses; a `Keys` failure returns its error with only the queue part; otherwise an error comes from a matching broken key, and on success no matching key remains in the engine |
| CacheFacade.GetOrCompute | interface.go:260-284 | a hit is returned without evaluating; on any lookup error the evaluator's value is enqueued and returned, and its error is returned with nothing cached |
| CacheFacade.GetIndirect | interface.go:301-314 | without a resolver it is `Get`; a lookup error is returned as is; error replies carry no value |
| CacheFacade.SetIndirect | interface.go:317-336 | never touches the engine; without a resolver, a generator or a generated link value it is a plain `Set` |
| CacheFacade.GetOrComputeEx | interface.go:346-373 | a validated hit is returned without evaluating; an evaluator error is returned uncached; a value is written (through `SetIndirect`, if the approver agrees) only after exactly NotFound, otherwise returned with the lookup's error |
| CacheFacade.Drain | interface.go:569-586 | after one pass every pending value is in the engine unless the engine refused it, refused keys are marked invalid, and the queue is empty |
| CacheFacadeLemmas.GetIndirectFuelMonotone | interface.go:301-314 | once a chain resolves, more fuel gives the same answer |
| CacheFacadeLemmas.GetIndirectTwoCycle | interface.go:301-314 | two keys linking to each other never resolve, whatever the fuel |
| CacheFacadeLemmas.GetIndirectEndsAtUnlinked | interface.go:301-314 | a successful indirect read is the plain read of a key whose value is not a link, reached from the starting key by a chain of at most `fuel` links (`LinksTo`) |
| CacheFacadeLemmas.SetIndirectLinkedRoundTrip | interface.go:317-336 | with room for both keys, a value stored through a generated link reads back through `GetIndirect` in one hop |
| CacheFacadeLemmas.SetIndirectPlainRoundTrip | interface.go:317-336 | an unlinked non-nil, non-link value stored by `SetIndirect` reads back without following a link |
| CacheFacadeLemmas.GetOrComputeComputesOnce | interface.go:260-284 | after one successful computation of an accepted non-nil value, the next call is a hit that does not evaluate |
| CacheFacadeLemmas.GetAfterDrain | interface.go:569-586 | after a pass a written key reads the stored value (nil as `(nil, nil)`), and a key the engine refused reads NotFound |
| CacheFacadeLemmas.PeekAsWrittenMissesDrainedValue | interface.go:458-468 | after a pass a written non-nil value reads back through `Get` and `Peek` but is NotFound through `PeekAsWritten` |
| CacheFacadeLemmas.DrainKeepsOtherReads | interface.go:569-586 | a pass changes no read of a key that was not pending |
| CacheFacadeLemmas.FailedWriteNotRetried | interface.go:569-586 | a refused write is not retried by the next pass and keeps reading NotFound |
| CacheWithSubcache.Get | cache_with_subcache.go:10-12 | a subcache hit answers alone; otherwise the backing cache's reply is returned and, on success, copied into the subcache; the backing cache is never changed |
| CacheWithSubcache.PeekAsWritten | cache_with_subcache.go:15-21 | as written, over the source's `Cache.Peek` on both tiers: the subcache's answer when it has one, else the backing cache's; never WrongDataType |
| CacheWithSubcache.PeekAsWrittenSkipsSubcache | cache_with_subcache.go:16-20 | after a subcache write-loop pass, a value the subcache stored is returned by the corrected `Peek` but skipped by `PeekAsWritten`, which answers from the backing cache |
| CacheWithSubcache.Peek | cache_with_subcache.go:15-21 | corrected: the same tiering over the corrected `Cache.Peek`, so whatever the subcache's `Get` returns successfully is the answer; never WrongDataType |
| CacheWithSubcache.Set | cache_with_subcache.go:24-29 | neither engine is touched; a non-nil value accepted by a tier's queue reads back from that tier; other keys read as before |
| CacheWithSubcache.Delete | cache_with_subcache.go:32-37 | the backing cache first; on its error the subcache is untouched and that error is returned, else the subcache's error; on success the key is absent from both tiers |
| CacheWithSubcache.DeleteErrorAndFrame | cache_with_subcache.go:32-37 | a tiered delete fails exactly when either engine refuses the key, the backing engine's error taking precedence; no engine's failures and no other key's reads change |
| CacheWithSubcache.Keys | cache_with_subcache.go:40-42 | exactly the backing cache's keys and error |
| CacheWithSubcache.DeleteAll | cache_with_subcache.go:50-54 | succeeds exactly when every listed key's delete succeeds in both tiers; then every listed key is absent from both tiers and other keys read as before; on an error there is a first failing index whose tiered error is returned, every earlier key is absent from both tiers, and every key not at or before that index reads as before |
| CacheWithSubcache.Purge | cache_with_subcache.go:45-56 | a `Keys` failure is returned with nothing changed; otherwise the listed keys are deleted in some listing order with `DeleteAll`'s ordered contract, the purge succeeds exactly when no listed key is refused by either engine, and on success keys only the subcache holds survive |
| Compression.GetInt | compression/compression.go:44-56 | a missing key is ParamNotFound, a non-int value ParamNotInt with 0, an int is returned |
| Compression.GetIntWithDefault | compression/compression.go:60-66 | a missing key gives the default with no error, an int value is returned, any other value gives 0 with ParamNotInt; it fails exactly when the value is not an int |
| Compression.AddFooter | compression/compression.go:231-252 | appends 1 byte for id 0 and 9 otherwise, keeping the payload as a prefix and ending in the id |
| Compression.ExtractFooter | compression/compression.go:259-277 | fails (MissingFooter) exactly when a non-zero id ends an input shorter than 9 bytes; otherwise returns the trailing id and the payload before the footer |
| Compression.ExtractAddFooter | compression/compression.go:231-277 | for a non-zero id the footer reads back the payload, id and every 64-bit length |
| Compression.ExtractAddFooterUncompressed | compression/compression.go:231-277 | for id 0 the footer reads back the payload, and the size is the payload's length |
| Compression.AddExtractFooter | compression/compression.go:231-277 | every input `ExtractFooter` accepts is what `AddFooter` writes for the parts it extracted |
| Compression.CompressWith | compression/compression.go:128-133 | a provider error passes through; otherwise the output is the provider's output plus the footer ending in its id |
| Compression.Compress | compression/compression.go:117-134 | routes inputs of at most `minInputSize` bytes to the no-compression provider and the rest to the default |
| Compression.CompressWithProvider | compression/compression.go:139-160 | an unregistered id fails only above the threshold; otherwise it is `Compress` with that id as the default |
| Compression.Decompress | compression/compression.go:164-178 | a bad footer is MissingFooter, an unregistered id ProviderNotFound, otherwise the provider decompresses the payload with the size hint |
| Compression.DecompressCompress | compression/compression.go:117-178 | `Decompress(Compress(x)) == x` when the chosen provider round-trips `x` |
| Compression.CompressSmallInput | compression/compression.go:117-134 | at or below the threshold an identity no-compression provider gives the input plus the byte 0 |
| Compression.AddProvider | compression/compression.go:181-190 | registers the provider under its id, keeps the others and the default, and keeps every provider under its own id |
| Compression.AddDefaultProvider | compression/compression.go:193-203 | registers the provider and makes it the default |
| Compression.SetMinInputSize | compression/compression.go:207-210 | changes the threshold and nothing else |
| Compression.SetDefaultProvider | compression/compression.go:214-228 | an unregistered id is ProviderNotFound with the engine unchanged; otherwise the default becomes the id |
| Compression.NewEngine | compression/compression.go:81-113 | id 0 gives no engine and no error; an id not built in gives ProviderNotFound; success iff configuration and `minInputLen` are fine, with the built-ins registered and the threshold defaulting to 1024 |
| Providers.IdsDistinct | compression/provider.go:14-35 | two providers share an id iff they are of the same kind |
| Providers.GetMetadata | compression/provider.go:192-203 | the trailer is 9 bytes: the length as `uint64` little-endian, then the id |
| Providers.ExtractMetadata | compression/provider.go:205-212 | fails exactly below 9 bytes; otherwise strips 9 bytes without checking the id |
| Providers.ExtractGetMetadata | compression/provider.go:192-212 | a trailer `GetMetadata` writes reads back the payload and every 64-bit length |
| Providers.GetExtractMetadata | compression/provider.go:192-212 | every input long enough is a payload followed by the trailer `GetMetadata` writes for its fields |
| Providers.MetadataIsFooter | compression/provider.go:192-203 | for a non-zero id the trailer is byte for byte the engine's footer |
| Providers.Compress | compression/provider.go:42-170 | no compression appends the id byte; the others append the trailer to the codec's output; every output ends with the provider's id |
| Providers.Decompress | compression/provider.go:47-185 | no compression drops the last byte; the others need a 9-byte trailer and decode the payload (s2 without a size hint) |
| Providers.DecompressCompress | compression/provider.go:42-185 | `Decompress(Compress(x)) == x`: always for no compression, and whenever the codec round-trips `x` for the others |
| LittleEndian.ToInt64 | compression/compression.go:274-276 | Go's `int(u)`: values from 2^63 up turn negative and `uint64` of the result gives `u` back |
| LittleEndian.Int64RoundTrip | compression/compression.go:242-276 | `int(uint64(n)) == n` for every 64-bit `int` |
| LittleEndian.PutUint64 | compression/compression.go:242 | 8 bytes that `Uint64` reads back as the same value |
| LittleEndian.PutUint64OfUint64 | compression/compression.go:274 | every 8 bytes are the encoding of the value they decode to |

## Left out

- Locks and concurrency: per-key locks (utils/mutex_map.go), the queue mutexes and the compression engine's mutex are dropped. Every operation runs to completion on its own.
- The ticker in the write loop: `Drain` is one pass, and when it runs is left to the caller.
- The goroutine in `GetOrCompute`: its enqueue happens synchronously before the call returns.
- The storage engines (lru.go, redis.go) and logger.go: the engine is an abstract map with injected failures. Engine-side compression, marshalling and LRU eviction are not modelled.
- `DeleteWithPrefix`, `DeleteRegExp`, `CountRegExp`: these only build a predicate for `DeletePredicate` / `CountPredicate`. Predicates are total functions, so regular-expression compile errors are not modelled.
- The codec wrappers in the repository's top-level compression.go and the zstd, s2 and lz4 library calls: the codecs are uninterpreted functions. The round-trip lemmas take the codec's own round trip as a hypothesis.
- The built-in provider table of `NewEngine`: it is a parameter, since its definition is not part of this model.
- Compression.NewEngine: states only whether each provider's `Configure` fails, not how configuring changes a provider.
- `SetCompressionLevel`: a zstd provider's level is the `level` field of `Zstd(level)`. The setter itself is not a separate operation.
- `ErrCompressionParamNil`: declared in the source but never returned.
- Provider-side constants: provider.go uses a trailer size, an id length and a missing-metadata error that are declared outside the shown files. They are taken to be 9, 1 and a distinct error.
- The dead `len(input) < 1` check in `extractFooter`: the preceding index already requires a non-empty input.
- `addFooter` / `getMetadata` errors: writing to an in-memory buffer never fails, so both are total.
- The reflection branch of `getNoLock` for non-pointer types: the value tested is always a typed nil `*T`, so only the `*T` branch is reachable.
- CacheFacade.GetIndirect: bounded by `fuel`. `None` stands for the source's unbounded recursion on a link cycle of two or more keys. `GetOrComputeEx` inherits the same bound.
- CacheWithSubcache: cache_with_subcache.go uses the non-generic `*Cache` and `interface{}` values (lines 5-6 and 11), which the generic `Cache[T]` of interface.go:236 has replaced; interface.go:17-19 presents it as a storage engine. Both tiers are modelled as the generic facade, so what `Peek` and `Get` do on each tier is that facade's behaviour, not the older `*Cache`'s, which is not part of this model.
- CacheWithSubcache.Set: the source returns early on a subcache `Set` error. The facade's `Set` never fails, so that branch is not modelled.
- `GetType` / `GetKey` of the queued operations: these are the constructors and the `key` field of `Op`.
- `WriteQueue.Count`, `WriteQueue.GetStats`, `BoundedQueue.Get`, `BoundedQueue.Count` and `BoundedQueue.CountPredicate` carry no contract of their own. They are pinned down by `Keys`, `StartWriting`, `Delete` and `OverlayNoLargerThanLog`, which state their results.

## Findings

| source | as written | input that shows it | evidently intended | confidence | as-written member | corrected member |
|---|---|---|---|---|---|---|
| interface.go:458-468 | `Peek` asserts the engine's value to be a bare `T`, but the write loop stores the `*T` it was given (interface.go:578) | `Set(k, v)` with non-nil `v`, one write-loop pass with the engine accepting, then `Peek(k)`: NotFound, while `Get(k)` returns `v` | assert `*T` as `getNoLock` does, so `Peek` agrees with `Get` except that a type mismatch reads as NotFound | medium; not executed | CacheFacadeLemmas.PeekAsWrittenMissesDrainedValue | CacheFacade.Peek |
| cache_with_subcache.go:16-20 | the subcache is read through `Cache.Peek`, which misses every value a write-loop pass has stored | `Set(k, v)` with non-nil `v`, one subcache write-loop pass, then `Peek(k)`: the backing cache answers, although the subcache holds `v` | read each tier with the corrected `Cache.Peek`, so a value the subcache holds is returned | medium; not executed; a consequence of the row above once both tiers are taken to be generic `Cache[T]`s | CacheWithSubcache.PeekAsWrittenSkipsSubcache | CacheWithSubcache.Peek |
