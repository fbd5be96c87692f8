# A verified model of go-cache

This project models the parts of the Bose go-cache library that keep state, and proves what they promise.
Every statement is about all inputs, all runs, all interleavings and all choices the eviction policy can make.

- **The expiring in-memory store** (`inmemory.go`). `StoreSpec` describes it as a state machine over resident
  entries; `InMemory` holds the objects and methods that change a shared bounded map in place, each proved to
  be one transition of that machine; `Driver` shows that any calls on such an object make a run of it.
  `LastWrites` shows that the store refines a plain map of last successful writes, `Expiry` what expiry means over
  whole runs, `ReadBack` what callers get back of what they wrote, `Counters` the 64-bit counter arithmetic,
  `Interleavings` what survives when operations interleave at the granularity of single LRU calls and clock
  readings (`CounterRaces` and `Removals` when that goes wrong and when it cannot, `Uninterrupted` that operations
  nobody interrupts are those of the sequential store), `Janitor` the stop protocol of the background sweeper.
- **Encryption** (`generic.go`, `pkcs.go`). `Pkcs` is the padding, `Crypto` the key derivation and CBC over any
  invertible block cipher, `GenericSpec` and `Generic` the cache that uses them, `Transparency` the theorem that
  encryption cannot be observed, `CacheReadBack` what a cache returns of what was set and for how long,
  `CacheDriver` the proof that calls on cache objects are the runs these speak of.
- **The page cache** (`galapagos_gin/cache/cache.go`). `PageCache` has the caching writer and one request
  through `CachePage`; `PageRuns` has any number of interleaved requests, with or without the mutex; `PageAlone`
  shows that the two agree on a request nobody interrupts.

How the model is set up:

- Instants are nanoseconds since the Unix epoch; the clock never goes back and every reading is a separate one.
  Stamps are whole seconds, as stored. Go's `int` is 64 bits wide, and wrap-around and truncating division are
  written out. `time.Unix(s, 0)` is taken as the instant `s` seconds after the epoch, without the library's own
  internal overflow.
- The ARC cache is a bounded map whose `Add` may drop any other keys, and drops at least one when a new key meets
  a full map. What it drops is part of each event.
- Dynamic types are a tagged datatype. A failed type assertion, an index out of range and a partial cipher
  block are modelled as a panic, not excluded.
- The block cipher is any pair of functions where opening undoes sealing; gob is any partial encoder with a
  non-empty output that decoding undoes.
- A page in the cache points at the live header map of the response that wrote it, as in the code, where the
  map is stored by reference.

Where code and documentation part ways, the model follows the code:

- The README presents expiry as a property of the store. Only `Get` and the sweep look at it, so `Add`, `Replace`,
  `Update`, `Delete`, `Increment` and `Decrement` treat an expired entry as present until a sweep removes it;
  `AnswersAreIdealIff` and `RunIsIdealIff` give the exact condition for a call and for a run, `IdealAfterSweep`
  what the janitor restores. The test that
  adds a key again after its expiry depends on the janitor for that reason.
- `Increment` and `Decrement` are a read followed by a write, so concurrent ones can be lost (`IncrementsCanBeLost`).
  One operation counts from the resident value if and only if it read that value, or, for a Decrement, both values
  are cut off at zero (`HeldIncrementLandsIff`, `HeldDecrementLandsIff`); a run of Increments adds up if and only if
  each of them had read the value it found (`IncrementsAllCountIff`). Callers lose nothing if they run one counter
  operation per key at a time, whatever Gets and sweeps do meanwhile (`DisciplineLosesNothing`).
- Reading an expired entry, judging it and removing it are separate steps, so the removal can drop a fresh write
  (`FreshWriteCanBeRemoved`); it does so if and only if a write landed since the reading and the last one to land is
  unexpired (`RemovalDropsFreshIff`).
- `Decrement` by 2^63 or more adds (`DecrementIsSaturatingIff`).
- `FOREVER` means "never" only as the duration of a call; as the store's default it is a negative duration, and the
  entry expires within the second of its write (`ExpiryOfAnySign`).
- `AddExistingEntry` with the current second means "use the default", and with 0 ("never") it holds only if no
  second passes between two clock readings (`ExistingExpiryIff`, `ExistingForeverIff`).
- A `stopJanitor` that comes before the goroutine has made its channel blocks for good (`EarlyStopBlocksForGood`);
  any other can complete exactly as long as no stop has completed yet (`PendingStopCompletesIff`).
- Each write replaces the cached chunk, so a response sent in two non-empty writes is cached truncated;
  `CachedBodyIsWholeIff` says exactly when the cached body is the body that was sent.
- Without the mutex a page can be produced again over a fresh copy (`HandlerRerunWithoutLock`); `StaysOut` and
  `EntersOverFreshIff` say exactly which requests can do so, with or without the mutex.

## Model

| member | source | states |
|---|---|---|
| `Driver.Drive` | inmemory.go:79-230 | Any sequence of calls on a store object makes a run with those replies that ends in its contents; the object never exceeds maxEntries; on a new store the contents are the last successful writes. |
| `StoreSpec.StepFits` | inmemory.go:41-49 | No event exceeds maxEntries if the bounded map drops a resident whenever a new key meets a full map. |
| `LastWrites.StoreRefinesLastWrites` | inmemory.go:79-230 | After every sequential run and every eviction choice, what is resident is exactly the last successful write to its key; a remembered key that is not resident was dropped or has expired; residency stays within maxEntries, by induction from the eviction rule. |
| `LastWrites.GetAnswersLastWrite` | inmemory.go:79-104 | After any run a Get hits if and only if the key's last write since its last Delete or Flush was not dropped and has not expired, and delivers that write. |
| `Expiry.StampsStay` | inmemory.go:175-211 | No run without a Set, Add, Replace or Update of a key changes the stamps the key carries. |
| `Expiry.NoRevival` | inmemory.go:79-230 | Once expired, a key never hits again in any run without a fresh write to it. |
| `Expiry.LifetimeOverRuns` | inmemory.go:79-124 | A write at w for d > 0, given or by default, is never returned after w+d in any run; if nothing drops it, it is found up to w+d-2s, or w+d-1s for whole seconds. |
| `Expiry.AnswersAreIdealIff` | inmemory.go:142-211 | A call is answered as by an ideal time-to-live map if and only if it is a Get, Set, Flush or sweep or its key is not expired-but-resident. |
| `Expiry.RunIsIdealIff` | inmemory.go:79-230 | Over a whole run every reply is that of an ideal time-to-live map pruned at each reading if and only if no Add, Replace, Update, Delete, Increment or Decrement meets an expired-but-resident key. |
| `Expiry.IdealAfterSweep` | inmemory.go:220-230 | Right after a sweep, clock unmoved, every operation has the reply and the effect of the ideal time-to-live map. |
| `Expiry.CounterOverRuns` | inmemory.go:176-211 | An undisturbed counter is the fold of its own Increments and Decrements, stamps untouched, whatever happens to other keys. |
| `ReadBack.WrittenIsRead` | inmemory.go:79-124 | After a successful Set, Add or Replace of v and any run that leaves the key alone but may read and count it, every kind of Get finds exactly v (an integer after its Increments and Decrements) with the second of the write and the second it ends, up to an exact last instant, then misses; a string, integer or page only into its own type, a whole entry always, another target is not supported. |
| `ReadBack.CounterAnswersNewValue` | inmemory.go:176-211 | A counter operation answers, unsigned, what the next Get delivers; on anything else than an integer it is refused and the entry stays. |
| `ReadBack.WrittenIsHeld` | inmemory.go:142-173 | After a write, and any run without a call on the key, a Flush, a sweep or its eviction, Add is refused and changes nothing while Replace, Update and Delete succeed, however long the key has been expired. |
| `ReadBack.MissClearsTheWay` | inmemory.go:79-217 | After a Delete, a Flush or a missed Get, and any run that does not write the key, every call on it is answered as if it had never been there. |
| `Entries.ExpiryInstant` | inmemory.go:105-124 | The exact instant from which an entry is expired, with both truncations, for a given duration and for the default one. |
| `Entries.ExpiryOfAnySign` | inmemory.go:105-117 | The same for durations of either sign: an end at the epoch means never, and FOREVER does so only when given, not as the default. |
| `Entries.LifetimeBound` | generic.go:174-180 | Expired after w+d, not expired up to w+d-2s (w+d-1s for whole seconds); FOREVER never expires; TimeAdded is the second of the write. |
| `Counters.IncrementsAddUp` | inmemory.go:176-190 | Any sequence of Increments adds its sum modulo 2^64. |
| `Counters.DecrementsSaturate` | inmemory.go:193-211 | Any sequence of Decrements below 2^63 yields max(0, v - sum), from below zero too. |
| `Counters.DecrementIsSaturatingIff` | inmemory.go:202-206 | A Decrement saturates at zero if and only if its amount is below 2^63 or the value is no more than the amount minus 2^64; otherwise it adds what is missing to 2^64. |
| `Counters.DecrementUndoesIncrementIff` | inmemory.go:185-206 | Decrement undoes Increment by the same amount if and only if the sum did not overflow or the amount is 2^63 or more. |
| `StoreSpec.SweepIsExact` | inmemory.go:220-230 | However keys are ordered and the clock advances, a sweep leaves nothing already expired at its start, removes only what is expired by its end, and changes no survivor. |
| `InMemory.NewInMemoryStore` | inmemory.go:41-76 | Refuses a size that is not positive, otherwise an empty store with these settings on this clock; a janitor exactly for a positive cleanup interval. |
| `InMemory.InMemoryStore.Get` | inmemory.go:79-104 | One Get transition: hit, miss, removal when expired, unsupported target, failed assertion. |
| `InMemory.InMemoryStore.DoAddSet` | inmemory.go:105-124 | Stores the payload under fresh stamps for FOREVER, a given and the default duration; drops only other keys. |
| `InMemory.InMemoryStore.Set` | inmemory.go:137-139 | One Set transition. |
| `InMemory.InMemoryStore.Add` | inmemory.go:142-147 | One Add transition: refused for a resident key. |
| `InMemory.InMemoryStore.Replace` | inmemory.go:150-155 | One Replace transition: refused for a key that is not resident. |
| `InMemory.InMemoryStore.Update` | inmemory.go:158-164 | One Update transition: the caller's entry, stamps included. |
| `InMemory.InMemoryStore.Delete` | inmemory.go:167-173 | One Delete transition. |
| `InMemory.InMemoryStore.Increment` | inmemory.go:176-190 | One counter transition: wrapped sum, old stamps, unsigned reply. |
| `InMemory.InMemoryStore.Decrement` | inmemory.go:193-211 | One counter transition: floor at zero, old stamps, unsigned reply. |
| `InMemory.InMemoryStore.Flush` | inmemory.go:214-217 | Empties the store. |
| `InMemory.InMemoryStore.Keys` | inmemory.go:127-129 | Each resident key once, and no other. |
| `InMemory.InMemoryStore.Len` | inmemory.go:132-134 | The number of resident entries, at most the size. |
| `InMemory.InMemoryStore.DeleteExpired` | inmemory.go:220-230 | The sweep loop visits each resident key once and meets the sweep promise between the clock at its start and at its end. |
| `Interleavings.CounterProvenance` | inmemory.go:105-248 | In every interleaving of clients and sweeps, a resident entry is a logged base write to its key; a counter is that write folded through distinct logged counter operations on the key, with that write's stamps. |
| `Interleavings.GetsAreExplained` | inmemory.go:79-104 | In every interleaving, a Get delivers exactly the entry it read if that is unexpired at its own reading, and that entry is such a write to its key. |
| `Uninterrupted.UninterruptedIsSequential` | inmemory.go:79-217 | However long its steps take, an operation nobody interrupts is one sequential transition at the one clock reading it took, reply included. |
| `Uninterrupted.UninterruptedSweep` | inmemory.go:220-230 | Under every schedule of its steps and the clock, a sweep nobody interrupts ends within three steps per key and two more, is a sequential sweep of the keys it listed, and keeps its promise. |
| `CounterRaces.IncrementsCanBeLost` | inmemory.go:177-187 | An interleaving of two Increments by one, both answered 1, that leaves the counter at 1. |
| `CounterRaces.HeldIncrementLandsIff` | inmemory.go:177-187 | A held Increment by n leaves the resident value plus n, wrapped, if and only if the value it read is the resident one. |
| `CounterRaces.HeldDecrementLandsIff` | inmemory.go:194-208 | A held Decrement leaves what it would make of the resident value if and only if it read that value or both are cut off at zero. |
| `CounterRaces.IncrementsAllCountIff` | inmemory.go:176-190 | Over every run in which only Increments change the key and their sum does not overflow, the counter ends at its start plus the sum of all that landed if and only if each had read the value it found. |
| `CounterRaces.CleanCountersAddUp` | inmemory.go:176-211 | If every counter operation on a key writes over the entry it read and nothing else changes it, the counter is its start folded through all operations that landed, in landing order, stamps unchanged. |
| `CounterRaces.DisciplineLosesNothing` | inmemory.go:176-230 | In every interleaving with one counter operation on the key at a time, no other write or deletion of it, no Flush and no eviction of it, an unexpired counter loses no operation; Gets of it, sweeps and other keys run freely. |
| `Removals.RemovalDropsFreshIff` | inmemory.go:80-84 | In every interleaving the removal after an expiry judgement drops the key whatever it holds, and drops an unexpired entry if and only if a write to it landed since the entry was read and the last one to land is unexpired. |
| `Removals.FreshWriteCanBeRemoved` | inmemory.go:80-84 | An interleaving in which a Set answered Done is dropped by a Get that judged the entry before it. |
| `Janitor.StopProtocol` | inmemory.go:237-260 | A stop completes only after the channel was made and after every begun sweep ended; afterwards no sweep begins and no second stop completes. |
| `Janitor.EarlyStopBlocksForGood` | inmemory.go:250-252 | A stop called before the channel was made never completes, in any interleaving. |
| `Janitor.EarlyStopHappens` | inmemory.go:254-260 | Such a call can be the first thing that happens. |
| `Janitor.PendingStopCompletesIff` | inmemory.go:237-260 | A pending stop can still complete in some continuation if and only if it was called after the channel was made and no stop has completed. |
| `Pkcs.PaddedShape` | pkcs.go:38-46 | A whole number of blocks, the input in front, one to blockSize bytes longer, each of them the low byte of that number. |
| `Pkcs.UnpaddingInvertsIff` | pkcs.go:26-46 | Unpadding inverts Padding if and only if the input is non-empty and the pad length fits a byte; for the empty input the padding error. |
| `Pkcs.UnpaddingShape` | pkcs.go:26-35 | Unpadding succeeds with u if and only if u is a non-empty prefix shorter by at most one block and the last byte says by how much; otherwise the padding error, on nothing a panic. |
| `Pkcs.PaddingInjective` | pkcs.go:38-46 | Distinct inputs have distinct paddings for block sizes up to 256. |
| `Pkcs.PaddingCollidesBeyond256` | pkcs.go:40-41 | Beyond 256 two distinct inputs collide, so the bound is exact. |
| `Crypto.KeyAndIV` | generic.go:84-97 | The in-place swap over two aliased slices makes both the reversed first 16 bytes, byte i being byte 15 - i of the secret; the secret is not written; shorter secrets are refused. |
| `Crypto.CbcRoundTrip` | generic.go:100-130 | CBC decryption undoes CBC encryption for any invertible block cipher. |
| `Crypto.CbcIsChainedIff` | generic.go:110-112 | The encryption of whole blocks is the one byte sequence in which each block is sealed over the ciphertext block before it, the first over the IV. |
| `Crypto.XorAt` | generic.go:110-112 | The exclusive or of two blocks has a bit set exactly where they differ. |
| `Crypto.EncryptByteArray` | generic.go:100-113 | Fills a new buffer with the CBC encryption, each block sealed over the ciphertext block before it, the first over the IV; data and secret are only read; a short secret is refused, a partial block panics. |
| `Crypto.DecryptByteArray` | generic.go:116-130 | Fills a new buffer with the CBC decryption, so the stored ciphertext is never disturbed; a short secret is refused, a partial block panics. |
| `Crypto.EntryRoundTrip` | generic.go:132-171 | Decrypting with any secret sharing 16 bytes returns the data, or the padding error exactly when it was empty. |
| `Crypto.EncryptedIsChained` | generic.go:132-150 | An encrypted entry is the padded data chained under the reversed first 16 bytes of the secret, which are also the IV, told by positions. |
| `GenericSpec.ExistingExpiryIff` | generic.go:228-237 | The stored expiry is the requested one plus the seconds between the two readings if and only if the request is not the first-read second or the default adds nothing. |
| `GenericSpec.ExistingForeverIff` | generic.go:228-237 | A request for "never" stays so if and only if no second passes between the two readings. |
| `Generic.GenericCache.WithPool` | generic.go:56-67 | One pool, no read side, default duration in wrapped nanoseconds. |
| `Generic.GenericCache.WithMultiPools` | generic.go:70-74 | A read side over the second pool with the same parameters and no read side of its own. |
| `Generic.GenericCache.Set` | generic.go:305-343 | Encodes and encrypts entries when asked, reports encode, secret and missing-store errors, then one store Set with the chosen duration. |
| `Generic.GenericCache.NewEntry` | generic.go:183-193 | Stamps from one clock reading and the chosen duration, with or without a store. |
| `Generic.GenericCache.Get` | generic.go:487-531 | One store Get, then decryption and decoding; all error and panic cases. |
| `Generic.GenericCache.Exists` | generic.go:279-302 | Terminates through the read side and answers as a Get there. |
| `Generic.GenericCache.Delete` | generic.go:261-276 | Passes the store's answer through. |
| `Generic.GenericCache.Flush` | generic.go:474-484 | Empties the store, or reports that there is none. |
| `Generic.GenericCache.AddExistingEntry` | generic.go:228-237 | Stores the entry for the remaining seconds of its own reading, stamped at the store's later one; panics without a store. |
| `Generic.ExistsAgreesWithGet` | generic.go:279-302 | Over two pools with equal contents, clock unmoved, Exists finds a key exactly when Get succeeds, with the same entry. |
| `Transparency.EncryptionIsTransparentIff` | generic.go:279-343 | Over every run of Set, Get, Exists, Delete, Flush and sweeps, an encrypting and a plain cache give equal replies if and only if every entry set is encodable under a secret of at least 16 bytes. |
| `Transparency.RefusedWhenNotSealable` | generic.go:318-336 | What cannot be sealed the plain cache accepts and the encrypting one refuses, contents unchanged, with the encoder's error before that of the secret. |
| `CacheReadBack.SetIsGot` | generic.go:305-343 | In any run of a cache, plain or encrypting, the last entry set under a key is got back with its data and stamps until the exact last instant of its duration (the caller's, else the cache's default, else the store's) if nothing dropped it, and is missed afterwards. |
| `CacheReadBack.BareIsNotSealed` | generic.go:318-343 | A bare value is stored as it is even with encryption; a Get of it as an entry panics on what is no whole number of blocks and reports a short secret. |
| `CacheDriver.DriveCache` | generic.go:261-343 | Any calls on a new cache object, encrypting or not, are such a run, with its replies and contents. |
| `PageCache.CachedWriter.constructor` | galapagos_gin/cache/cache.go:76-78 | Status 0, nothing written. |
| `PageCache.CachedWriter.WriteHeader` | galapagos_gin/cache/cache.go:80-84 | Remembers the status and passes it on. |
| `PageCache.CachedWriter.Write` | galapagos_gin/cache/cache.go:94-137 | Passes the bytes on with the count and error of the writer below and, if all were taken, replaces the key's entry by this chunk alone, stamped now. |
| `PageCache.ReplayHeaders` | galapagos_gin/cache/cache.go:206-210 | In whatever order the map is iterated, each cached value comes after those already set, and nothing else changes. |
| `PageCache.RunHandler` | galapagos_gin/cache/cache.go:189-192 | Any handler: its status and bytes reach the writer below, and the key holds its last taken chunk with the status and the stamps of that moment, pointing at the final header map. |
| `PageCache.CachedBodyIsWholeIff` | galapagos_gin/cache/cache.go:94-137 | The cached body is the body that was sent if and only if nothing but the last taken write sent any bytes. |
| `PageCache.CachePage` | galapagos_gin/cache/cache.go:169-216 | Replays a page and leaves the store alone exactly if it is resident, unexpired and its header map has a non-empty first value for x-okay-to-cache; panics on an unexpired entry that is no page; or else lets the handler send its response and leave its last chunk. |
| `PageCache.LookupLeads` | galapagos_gin/cache/cache.go:186-214 | The verdict of a lookup in terms of the resident entry and the header map it points at. |
| `PageRuns.LookupSeesLastWrite` | galapagos_gin/cache/cache.go:186 | In every run a request that has looked did so at one step of its own: it found what was resident then and noted the last write to its key at that moment. |
| `PageRuns.ServedIsLastWrite` | galapagos_gin/cache/cache.go:169-216 | In every run, other clients included, a request is served if and only if its lookup found an unexpired page whose header map has a non-empty first value for x-okay-to-cache; the reply is the most recent single write at that lookup, by another request, its headers those of the live map, equal to the stored ones unless changed later. |
| `PageRuns.LockExcludes` | galapagos_gin/cache/cache.go:219-227 | The mutex is held exactly by the one request inside the wrapper. |
| `PageRuns.OneHandlerAtATime` | galapagos_gin/cache/cache.go:219-227 | At most one handler executes at a time. |
| `PageRuns.StaysOut` | galapagos_gin/cache/cache.go:169-216 | With or without the mutex and however many requests are in the handler, while a fresh page stays a request enters the handler for its key only if at the start it was in it or past a lookup that did not find this page. |
| `PageRuns.EntersOverFreshIff` | galapagos_gin/cache/cache.go:186-202 | Over a fresh page a step takes a request into the handler and leaves the page fresh if and only if its lookup found nothing or an unexpired page that is not okay-to-cache. |
| `PageRuns.HeadersStillDuringReplay` | galapagos_gin/cache/cache.go:204-227 | Under the mutex no header map changes while a page is being replayed. |
| `PageRuns.HandlerNotRerun` | galapagos_gin/cache/cache.go:169-227 | Once a running handler's okay-to-cache page is in the store, no other request for the key enters the handler while that entry stays resident, unexpired and not overwritten. |
| `PageRuns.HandlerRerunWithoutLock` | galapagos_gin/cache/cache.go:169-216 | Without the mutex, a schedule from the start that puts a second request into the handler over a fresh page, for every lifetime that outlasts the moment of the write. |
| `PageAlone.RequestAlone` | galapagos_gin/cache/cache.go:169-216 | The steps of a request nobody interrupts, with pauses anywhere, lead to the verdict, contents and header maps that CachePage promises. |

## Left out

- Redis and Sentinel pools, environment lookup and Kubernetes detection (`redispool.go`), and the Redis-only calls of `generic.go`: input, output and configuration.
- The victim choice of ARC: its source is not part of this model, only the bounded-map contract.
- AES, HMAC, SHA-1, URL escaping and `GetKey`: keys are taken as given, the cipher as any invertible one.
- The wire format of gob.
- `GenericCache.Add`, `Replace`, `Increment` and `Decrement`: they pass straight to the store. With encryption on they store plain data, so the transparency theorem is about `Set`.
- Get of `GenericCache` into anything but an entry: it passes straight to the store.
- Metrics, logging, tracing, `SiteCache`, the `Cache` middleware and the example program.
- The timing of the finalizer that calls `stopJanitor`: only the stop itself is modelled.
- Interleavings.CounterProvenance: ignores the size bound, so it covers more evictions than can happen.
- PageRuns.ServedIsLastWrite: the header map is read in one step when the reply is decided, not name by name during the replay; under the mutex that is the same (`HeadersStillDuringReplay`).
- PageCache.CachedWriter.Write: the chunk is stored as a value, so a caller that reuses its byte slice after writing is not captured; of the writer below only status, bytes, count and error are kept. An in-memory store never refuses a Set, so the error return of `WriteString` does not arise.
- Header names are taken as already canonical.
