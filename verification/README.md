# Verified model of the cache server

A model, in Dafny 4.11, of a multi-threaded cache server that speaks the memcached text protocol and RESP
and runs on io_uring or mio. `dafny verify dfyconfig.toml` checks all of it.

| file | what it models |
|---|---|
| `Base.dfy`, `Decimal.dfy` | bytes, 64-bit wrap-around, the CRLF scanner, UTF-8, decimal text of integers |
| `Resp.dfy` | the RESP encoder and incremental parser |
| `RespWire.dfy` | the RESP wire format as a relation, without the parser, and the parser decided by it |
| `Memcached.dfy` | the two-pass memcached parser |
| `MemcachedCommands.dfy` | the memcached commands without data: what a client writes, and every line that is accepted |
| `StorageSpec.dfy` | the storage as values: every operation, legal evictions, runs of calls |
| `StorageHistory.dfy`, `StorageLru.dfy`, `StorageAccounting.dfy` | what holds over every sequential run |
| `StorageSelfEviction.dfy` | when a call evicts its own key, told from the state before it |
| `StorageLimit.dfy` | when a call evicts, and the limit on the bytes held over every run |
| `Storage.dfy` | the storage as a class whose ghost history ties each method to those runs |
| `StorageConcurrent.dfy` | the storage under k threads, one step per atomic load or counter write |
| `Request.dfy` | storage commands and incr/decr between parser and storage |
| `RequestNumbers.dfy` | which stored values incr and decr take for a number |
| `RequestReplies.dfy` | replies to get and gets, and what a client reads after a storage request, from bytes to bytes |
| `Buffers.dfy` | the buffer pool, buffer chains, scatter-gather views |
| `BufRing.dfy` | the provided-buffer ring with its wrapping 16-bit tail |
| `UringSpec.dfy`, `UringTokens.dfy`, `UringBuffers.dfy`, `UringBounds.dfy` | the io_uring worker: its steps, and what holds over every run |
| `UringPrivate.dfy` | one connection's input and output on every run, while its buffers are its own |
| `UringLedger.dfy` | what a connection's completions add up to, and that the worker's state agrees with it on every run |
| `UringDoubleFree.dfy` | how a failed write is reached and what it leads to |
| `Uring.dfy` | the io_uring worker as a class |
| `MioSpec.dfy`, `Mio.dfy` | the mio worker's use of its pool: steps, conservation over runs, the class |
| `ChainWrite.dfy`, `MioResponses.dfy` | sending a large response from a chain on the mio worker: one response, and whole runs |
| `MioInput.dfy`, `MioReplies.dfy` | which received bytes each request is processed on, and what is sent of its response, on the mio worker, over whole runs |

How the imperative parts are set up: a datatype holds the state, functions say what one step does to it, lemmas
prove what every run keeps, and a class with the program's own fields has methods whose postconditions equate
its fields with that function of the old ones. The kernel, the pollers, the slabs' choice of key and the map's
iteration order are nondeterministic.

Arithmetic on lengths and counters wraps at 2^64, as in a build without overflow checks; an index out of bounds and an
expiry time past the clock's range are outcomes of their own (`Panicked`, `Panics`). Runs of the storage consist of
answered calls; a call that panics has changed nothing.

Six claims one might expect of the code are false of it. The code is modelled as it is, and each has an input that
shows it and its exact condition:

* the byte counter drifts when a `cas` evicts its own key (`StorageAccounting.CasLeaks`). A key is *doomed* when
  evicting every unexpired key used less recently does not make room at any point, which is decided before the call; a
  call evicts its own live key if and only if it is doomed (`StorageSelfEviction.EvictsItselfIff`), and the counter is
  exact if and only if the cas calls on doomed keys since the last flush hid a multiple of 2^64 bytes
  (`StorageSelfEviction.CounterExactIff`). By the same condition an append or prepend to a live key answers NOT_STORED
  and destroys the item (`StorageSelfEviction.ExtendIff`);
* a failed or zero-length write on the io_uring worker frees its buffer twice. Under every configuration with at least
  three buffers a run reaches one, as the end of the empty reply to a request, and from the first one of any run nine
  events make two connections share a buffer, one send bytes of the other's input and the other lose its input
  (`UringDoubleFree.DoubleFreeReached`, `UringDoubleFree.FailedWriteHarms`). On every run the buffers accounted for are
  the pool plus one per failed write, and the pool is partitioned if and only if no write has failed so far
  (`UringBounds.PopulationLaw`, `UringBounds.PartitionIff`);
* `io_slices` is right for every contents of a chain if and only if the offset is 0, or a buffer boundary with at
  least one full buffer left (`Buffers.ResumesIff`); at some of the other offsets it offers nothing and the response
  is never finished (`ChainWrite.StuckIff`, `ChainWrite.StuckExample`);
* the mio worker does not process every byte it receives: the bytes a response leaves behind, a pipelined request for
  one, are moved to the front of the read buffer, but the fill level is 0 again once the response is written. What a
  reading connection holds is what its requests have not used up if and only if every response so far used up all the
  bytes at hand (`MioInput.NothingSkippedIff`); a run of three events skips a request under every configuration
  (`MioInput.PipelinedRequestSkipped`). The io_uring worker keeps them (`UringLedger.ExactBeforeFailure`);
* the second pass of the memcached parser does not wait for the data when the announced length makes the sum wrap
  (`Memcached.SecondPassWraps`): for a length of 2^64 - 2 it completes on the command line alone
  (`Memcached.CompletesWithoutData`);
* a storage request is not always answered: set, add, replace and cas panic if and only if they reach their store with an
  expiry time past the clock's range (`StorageHistory.PanicsIff`, `Request.ProcessStorage`), as
  `set k 0 18446744073709551615 1` does (`Request.LateSetExample`).

## Model

| member | source | states |
|---|---|---|
| Base.FindCrlfFrom | src/protocols/resp/parser.rs:133-135 | the result is the first CRLF at or after the start, and none is reported only when there is none |
| Base.FindCrlfExtend | src/protocols/resp/parser.rs:133-135 | more input never moves the first CRLF |
| Decimal.UnsignedRoundTrip | src/request.rs:685-701 | printing an unsigned number and parsing it gives it back |
| Decimal.I64RoundTrip | src/protocols/resp/parser.rs:170-173 | the same for every i64, the minimum included |
| Decimal.ParseUnsignedIff | src/protocols/memcached/parser.rs:242-265 | a text is read as an unsigned number exactly when it is that number printed, perhaps behind leading zeros and a plus sign, and in range |
| Decimal.ParseI64Iff | src/protocols/resp/parser.rs:187-190 | the same for i64, with a minus sign |
| Resp.EncodeInto | src/protocols/resp/parser.rs:32-71 | appends exactly the encoding of the frame, arrays element by element, and keeps what was in the buffer |
| Resp.ParseFrame | src/protocols/resp/parser.rs:117-130 | the dispatch to a line, integer, bulk and array parser of its own computes the recursive definition of parsing for every buffer, and terminates; what that definition accepts and refuses is decided by `RespWire.ParseIff`, `RespWire.ErrorIff` and `RespWire.IncompleteIff` |
| Resp.ParseBulkFrame | src/protocols/resp/parser.rs:180-216 | the same for a bulk string: null, incomplete, missing CRLF or exactly its data, decided by the same three |
| Resp.ParseArrayFrame | src/protocols/resp/parser.rs:219-259 | the same for an array: null, or the result of its element loop |
| Resp.ParseElements | src/protocols/resp/parser.rs:219-259 | the loop that pushes frames and advances an offset computes the recursive definition of an array's elements |
| Resp.ParseStable | src/protocols/resp/parser.rs:117-259 | once a buffer parses as complete or as an error, any extension parses to the same result |
| Resp.ChunkingIndependence | src/protocols/resp/parser.rs:117-259 | frames decoded, bytes left over and the error that stops a stream do not depend on how it was split into reads |
| Resp.RoundTrip | src/protocols/resp/parser.rs:32-259 | every nested frame without CRLF in its simple strings parses back from its encoding, consuming exactly it, whatever follows |
| Resp.StrictPrefixIncomplete | src/protocols/resp/parser.rs:117-259 | every strict prefix of an encoded frame is incomplete, never an error or another frame |
| Resp.ParsedIsEncodable | src/protocols/resp/parser.rs:117-259 | every frame the parser returns is in the round-trip domain |
| Resp.CanonicalForm | src/protocols/resp/parser.rs:32-259 | re-encoding a parsed frame is canonical: it parses back, and two inputs mean the same frame iff the re-encodings are equal |
| RespWire.ParseIff | src/protocols/resp/parser.rs:117-259 | the parser completes with a frame after c bytes if and only if those bytes are that frame on the wire: type byte, text or number line, data and CRLF, the elements' bytes one after the other |
| RespWire.ErrorIff | src/protocols/resp/parser.rs:117-259 | each error is reported if and only if the input is broken in that way: unknown type byte, line not UTF-8 or no number, data not followed by CRLF, or, behind complete elements, an element broken in that way |
| RespWire.IncompleteIff | src/protocols/resp/parser.rs:117-259 | more input is awaited if and only if the first line, the announced data or an announced element has not arrived |
| RespWire.EncodedIsWire | src/protocols/resp/parser.rs:32-71 | the encoder writes the wire format |
| RespWire.PrefixFree | src/protocols/resp/parser.rs:117-259 | no frame's bytes are another frame's, or the beginning of another's |
| Memcached.ParseGetLoop | src/protocols/memcached/parser.rs:202-224 | the key loop returns all keys in order when each has at most 250 bytes, refuses the first that is longer, and refuses a line without keys |
| Memcached.FirstPassNeverStores | src/protocols/memcached/parser.rs:157-302 | the first pass never completes a storage command and never panics |
| Memcached.TwoPassAgreement | src/protocols/memcached/parser.rs:394-538 | with all data present, the second pass completes with that length, that consumption and a legal key, or rejects exactly when CRLF is missing behind the data |
| Memcached.SecondPassWaits | src/protocols/memcached/parser.rs:457-461 | with data missing and a length that does not wrap, the second pass reports incomplete |
| Memcached.SecondPassWraps | src/protocols/memcached/parser.rs:457-472 | when the length wraps: exactly when the second pass panics, completes with no data, waits or rejects |
| Memcached.CompletesWithoutData | src/protocols/memcached/parser.rs:457-538 | every well-formed storage request announcing 2^64 - 2 bytes completes on its command line alone |
| Memcached.CompletesWithoutDataExample | src/protocols/memcached/parser.rs:457-538 | the request `set k 0 0 18446744073709551614` and CRLF, with no data, completes |
| Memcached.ParseStable | src/protocols/memcached/parser.rs:157-199 | once the command line is there, more input changes neither the first pass nor a completed second one |
| Memcached.SplitJoin | src/protocols/memcached/parser.rs:173 | splitting words, free of every Unicode white-space character, that were joined by single spaces gives the words back |
| Memcached.StoreRequestRoundTrip | src/protocols/memcached/parser.rs:157-538 | a well-formed set, add, replace, append, prepend or cas request with arbitrary data bytes is understood as written by both passes, its token included, and its data block is the data sent |
| MemcachedCommands.CommandRoundTrip | src/protocols/memcached/parser.rs:157-391 | every get, gets, delete, incr, decr, flush_all, stats, version and quit, with and without noreply, is read back from the line a client writes for it, consuming exactly that line |
| MemcachedCommands.BareFlushRoundTrip | src/protocols/memcached/parser.rs:374-391 | flush_all without a delay has delay 0 |
| MemcachedCommands.GetLine | src/protocols/memcached/parser.rs:202-224 | a get or gets of any words completes with exactly those keys when all are short enough, and is refused for the first that is too long otherwise |
| MemcachedCommands.KeyedLine | src/protocols/memcached/parser.rs:305-371 | a delete, incr or decr line is refused exactly when a word is missing, the key is too long or the amount is no number, in this order |
| MemcachedCommands.AcceptedIff | src/protocols/memcached/parser.rs:157-391 | any input completes with a command if and only if the words of its first line say that command, in whatever letter case |
| StorageSpec.RemoveAllEffect | src/storage.rs:407-420 | removing keys drops exactly those keys, keeps every other item and its access number, and takes no token |
| StorageHistory.RunMirrors | src/storage.rs:170-404 | after every run each item held is the one its answered calls determine, and the token counter is one plus the stored calls |
| StorageHistory.NoStaleHits | src/storage.rs:126-167 | a hit is exactly the replay of the stored calls on its key, value, flags, expiry and token, and is unexpired |
| StorageHistory.HitsAppend | src/storage.rs:143-167 | a lookup of several keys is the lookups of its parts one after the other, down to single keys (`StorageHistory.HitsOne`) |
| StorageHistory.SetThenGet | src/storage.rs:113-204 | a set value is a hit until its time to live is over and a miss from then on, unless its expiry time is past the clock's range, when the set panics and changes nothing |
| StorageHistory.PanicsIff | src/storage.rs:113-123 | a call panics exactly when it reaches its store with an expiry time past the clock's range: set always, add if the key is not live, replace if it is, cas if it is live with its token |
| StorageHistory.LiveTokens | src/storage.rs:101-103 | live tokens are at least 1, below the counter and pairwise distinct |
| StorageHistory.CasFreeOfAba | src/storage.rs:236-286 | a cas stored with the token of an earlier hit means no write, delete or flush of the key in between, and the item read is still there |
| StorageHistory.CasZeroNeverStored | src/protocols/memcached/parser.rs:523-524 | a cas whose token text did not parse is never stored |
| StorageLru.LruAgreesOnRuns | src/storage.rs:106-111 | after every run the sequence-number map orders the held keys exactly as a plain recency list of the calls does |
| StorageLru.LookupEffect | src/storage.rs:143-167 | a lookup removes exactly the expired ones among the keys it is asked for, changes no item and takes no token |
| StorageLru.VictimIsHead | src/storage.rs:423-447 | the victim is the least recently used unexpired key, an expired one only when no unexpired one is left |
| StorageLru.EvictionOrder | src/storage.rs:407-447 | at a fixed clock the loop evicts exactly the shortest prefix of the unexpired recency list that makes room, expired keys only after it |
| StorageLru.EvictionFollowsRecency | src/storage.rs:407-447 | the same for every call of every run, against the recency list of the calls before it |
| StorageAccounting.ShortfallStep | src/storage.rs:184-302 | one call changes the counter's shortfall only by a self-evicting cas, by the replaced item's size, or by flush_all, to zero |
| StorageAccounting.AccountingOnRuns | src/storage.rs:170-488 | after every run the counter is short of the bytes held by exactly the bytes leaked since the last flush, modulo 2^64 |
| StorageAccounting.CounterExactIffNoLeak | src/storage.rs:257-284 | the counter equals the bytes held if and only if nothing leaked modulo 2^64, read off the calls' evictions |
| StorageAccounting.CasLeaks | src/storage.rs:257-284 | for every configuration, key and values: after a set that fits and a cas that does not fit even alone, the counter is short by exactly the item the set stored |
| StorageSelfEviction.EvictsItselfIff | src/storage.rs:407-447 | a call that makes room evicts its own live key if and only if the key is doomed in the state before the call |
| StorageSelfEviction.SelfEvictingIff | src/storage.rs:257-284 | a cas stores over an item it has itself evicted if and only if its key is doomed |
| StorageSelfEviction.ExtendIff | src/storage.rs:305-404 | append and prepend store if and only if the key is live and not doomed; whenever they do not store, the key is gone |
| StorageSelfEviction.ExtendStoredIff | src/storage.rs:305-404 | in terms of the limit: they store if and only if the key is live and evicting some of the unexpired keys used less recently, perhaps none, brings the counter plus the new bytes within it |
| StorageSelfEviction.DoomedIsLeaked | src/storage.rs:257-284 | over every run the leaked bytes are those of the cas calls on doomed keys |
| StorageSelfEviction.CounterExactIff | src/storage.rs:257-284 | the counter equals the bytes held if and only if the cas calls on doomed keys since the last flush hid a multiple of 2^64 bytes |
| StorageSelfEviction.CasKeepsCounterIff | src/storage.rs:257-284 | one cas keeps an exact counter exact if and only if its key is not doomed |
| StorageLimit.EvictsStops | src/storage.rs:407-420 | the loop evicts if and only if something is held and the need does not fit, no more than needed, until it fits or nothing is left |
| StorageLimit.EvictionIff | src/storage.rs:170-404 | a call evicts if and only if it gets to its store, something is held and the counter plus its bytes is over the limit |
| StorageLimit.StoredWithinLimit | src/storage.rs:305-404 | a stored append or prepend leaves the counter within the limit, and so does a stored cas unless it evicted everything |
| StorageLimit.SetWithinLimit | src/storage.rs:170-204 | a stored set, add or replace leaves an exact counter exact and within the larger of the limit and its item |
| StorageLimit.MemoryBound | src/storage.rs:170-488 | after every run, cas included, the bytes held are at most the larger of the limit and the largest item stored, plus the leaked bytes |
| StorageLimit.CounterBound | src/storage.rs:170-488 | a run on which nothing leaked ends with an exact counter within that bound |
| Storage.Storage.constructor | src/storage.rs:84-98 | starts empty, with token 1 and an empty history |
| Storage.Storage.FindLruKey | src/storage.rs:423-447 | returns nothing exactly when the storage is empty, otherwise a legal victim, in whatever order the map is scanned |
| Storage.Storage.EnsureMemoryAvailable | src/storage.rs:407-420 | the loop terminates having removed a legal eviction sequence and nothing else |
| Storage.Storage.GetItem | src/storage.rs:126-140 | hits exactly a live key with its item, which is the replay of the history; extends the run by this call |
| Storage.Storage.GetItems | src/storage.rs:143-167 | returns the live items in request order; extends the run by this call |
| Storage.Storage.SetItem | src/storage.rs:170-204 | stored, and the run extended by this call, or a panic that changes nothing, exactly when the expiry time is past the clock's range; evicts exactly when it stores and the sum is over the limit, and leaves an exact counter within the limit or at the item's size |
| Storage.Storage.AddItem | src/storage.rs:207-219 | not stored exactly when the key is live; otherwise stored or panicking, and within the limit, as set is |
| Storage.Storage.ReplaceItem | src/storage.rs:222-233 | not stored exactly when the key is not live; otherwise stored or panicking, and within the limit, as set is |
| Storage.Storage.CompareAndSwap | src/storage.rs:236-286 | with a live key and this token: stored, or, when the expiry time is past the clock's range, a panic that changes nothing but poisons the data lock; neither otherwise; evicts its own key exactly when that is doomed; the counter is then within the limit unless everything was evicted |
| Storage.Storage.DeleteItem | src/storage.rs:289-302 | deleted exactly when the key was held; extends the run by this call |
| Storage.Storage.Extend | src/storage.rs:305-404 | stored exactly when the key is live and not doomed, and then the item has the bytes behind or in front and a new token, and keeps flags and expiry; otherwise the key is gone; evicts exactly when the key is live and the sum is over the limit, and when stored leaves the counter within the limit |
| Storage.Storage.Flush | src/storage.rs:479-488 | empties map and counter; extends the run by this call |
| StorageConcurrent.StepKeepsInv | src/storage.rs:170-204 | every step of every thread keeps exact accounting, the lock discipline and the overshoot bound |
| StorageConcurrent.BoundedOvershoot | src/storage.rs:407-420 | in every state of every interleaving without cas, counter plus promised bytes is at most max(limit, N) + (k-1)N; with one thread at most max(limit, N) |
| StorageConcurrent.ExactWhenUnlocked | src/storage.rs:184-302 | whenever the data lock is free the counter is exactly the bytes held |
| StorageConcurrent.NoUnderflow | src/storage.rs:187-191 | no subtraction from the counter underflows |
| StorageConcurrent.BoundAttained | src/storage.rs:182-194 | for every number of threads, every limit and every request size large compared to keys and overhead, some run ends with all threads idle and the counter at the bound |
| Request.ExecuteStorageCommand | src/request.rs:465-568 | each storage command performs its one storage operation and panics exactly when that does; which operation it is, and what it does with data, flags and time to live, is stated by `Request.StoreEffect` and `Request.RequestOpOf` |
| Request.StoreEffect | src/request.rs:465-568 | for each command on every run, exactly when it stores and when it panics, told from the state before it, and what the key then holds: the data, flags and expiry time of the command, or, for append and prepend, the old flags and expiry time and the joined value; an append or prepend that does not store leaves the key absent |
| Request.ProcessStorage | src/request.rs:139-179 | exactly when a request is too large, needs a chain, panics (its length overflows, or its command reaches its store with an expiry time past the clock's range), waits or is executed; executed with the data bytes of the buffer and consuming exactly the request |
| Request.RequestOpOf | src/request.rs:153-160 | a well-formed request, written out, stands for the operation of its verb with its own key, data, flags, time to live and token |
| Request.LateSetPanics | src/storage.rs:113-123 | every well-formed set request whose time to live exceeds the clock's range panics, in every state and at every time |
| Request.LateSetExample | src/storage.rs:113-123 | the request `set k 0 18446744073709551615 1` with data `x` does |
| RequestReplies.ExecuteGet | src/request.rs:364-394 | get and gets look up the keys and answer one block per live key, in request order, and the end line |
| RequestReplies.ReplyRoundTrip | src/protocols/memcached/parser.rs:558-575 | whatever bytes the values hold, a client that reads each value by its announced length gets exactly the items' keys, flags and values back, and their tokens from gets |
| RequestReplies.GetOne | src/request.rs:366-376 | the line `get k` is answered with the key's value and flags if it is live, and with the end line otherwise |
| RequestReplies.GetReads | src/request.rs:364-394 | from the bytes of a get or gets line of any legal keys to what the client reads: exactly the live ones, in the order asked for |
| RequestReplies.SetThenGetBytes | src/request.rs:111-179 | from bytes to bytes, in every state: after a well-formed set request, a get answers exactly its data and flags until its time to live ends and nothing from then on; when its expiry time is past the clock's range it panics |
| RequestReplies.StoreThenGetBytes | src/request.rs:465-568 | on every run, for each of the six storage requests that is stored: a get answers the new value with the flags and until the end the request asks for, which append and prepend keep as they were |
| Request.HandleIncrDecr | src/request.rs:671-707 | one get, and one set of the new text when the value is a number; a panic exactly when that set panics |
| Request.CounterArithmetic | src/request.rs:671-707 | any sequence of incr and decr leaves the decimal text of the fold modulo 2^64 and clamped at 0, and each reply prints it; only a default time to live past the clock's range makes one panic, which leaves the text |
| RequestNumbers.NumberInIff | src/request.rs:675-696 | incr and decr take a value for a number if and only if it is a decimal text of it, within 64 bits, with any Unicode white space around it |
| Buffers.BufferPool.constructor | src/runtime/buffer.rs:37-51 | all buffers have the size and every index is free once |
| Buffers.BufferPool.Alloc | src/runtime/buffer.rs:56-58 | pops the last free index, or nothing when there is none |
| Buffers.BufferPool.Free | src/runtime/buffer.rs:64-67 | pushes the index |
| Buffers.BufferPool.AllocMany | src/runtime/buffer.rs:119-128 | all or nothing; what is handed out and what stays free is what was free |
| Buffers.BufferPool.FreeMany | src/runtime/buffer.rs:131-136 | pushes all indices in order |
| Buffers.BufferChain.CurrentBufferAndOffset | src/runtime/buffer.rs:246-267 | the last buffer behind its bytes, or a fresh one when that is full or missing; nothing only when the pool is empty |
| Buffers.BufferChain.Append | src/runtime/buffer.rs:225-241 | contents grow by exactly as much of the data as the last buffer and the free ones have room for, which decides success; no index is lost and no buffer outside the chain changes |
| Buffers.BufferChain.AppendSeries | src/runtime/buffer.rs:225-241 | a series of appends adds exactly that much of the concatenation of its inputs |
| Buffers.BufferChain.Assemble | src/runtime/buffer.rs:284-296 | returns the contents |
| Buffers.BufferChain.AsContiguous | src/runtime/buffer.rs:273-281 | returns the contents, by whichever path |
| Buffers.BufferChain.Chunks | src/runtime/buffer.rs:302-312 | one chunk per buffer, concatenating to the contents |
| Buffers.BufferChain.IoSlices | src/runtime/buffer.rs:317-348 | non-empty slices that concatenate to what the skip-and-gather scan selects |
| Buffers.GatherResumes | src/runtime/buffer.rs:317-348 | from offset 0, or a boundary with a full buffer left, the slices are exactly the contents from there |
| Buffers.GatherFails | src/runtime/buffer.rs:327-337 | at every other offset below the length some contents come out wrong |
| Buffers.ResumesIff | src/runtime/buffer.rs:317-348 | both directions in one statement |
| Buffers.BufferChain.Release | src/runtime/buffer.rs:359-364 | every buffer goes back to the pool and the chain is empty |
| BufRing.MaskIsMod | src/runtime/uring/buf_ring.rs:169 | masking with a power of two less one is the remainder |
| BufRing.WrapKeepsSlot | src/runtime/uring/buf_ring.rs:168-180 | the 16-bit wrap of the tail does not change the slot |
| BufRing.Ring.constructor | src/runtime/uring/buf_ring.rs:101-104 | all buffers are in the ring, in order |
| BufRing.Ring.AddBuffer | src/runtime/uring/buf_ring.rs:167-187 | appends to what the kernel will see and overwrites no entry it has not taken, across wrap-around |
| BufRing.Ring.Recycle | src/runtime/uring/buf_ring.rs:162-164 | a held id returns to the ring; every id stays in the ring or with one handler |
| UringTokens.StepKeepsTokens | src/runtime/uring/event_loop.rs:118-188 | every completion keeps the one-operation-per-connection correspondence |
| UringTokens.OneOperationInFlight | src/runtime/uring/event_loop.rs:191-489 | in every state of every run exactly one accept is outstanding and each connection has exactly one operation, matching its phase and buffer |
| UringTokens.CompletionFindsItsConnection | src/runtime/uring/event_loop.rs:136-186 | a completion's token is known and its connection is there in the phase it was submitted in |
| UringTokens.NoDeadBranchTaken | src/runtime/uring/event_loop.rs:137-143 | on runs the unknown-token and missing-connection branches are never taken |
| UringBuffers.BuffersKeptIff | src/runtime/uring/event_loop.rs:445-489 | a step keeps buffer exclusivity and both flow equations if and only if it is not a failed write |
| UringBuffers.FailedWriteFreesTwice | src/runtime/uring/event_loop.rs:454-462 | a failed or zero-length write leaves its index twice on the free list |
| UringBuffers.FailedWriteEffect | src/runtime/uring/event_loop.rs:454-462 | the free list then ends with the write buffer twice and the accumulation buffer once |
| UringDoubleFree.FailedWriteHarms | src/runtime/uring/event_loop.rs:445-489 | from the first failed write of any run, nine further events make two connections use one buffer, one send bytes that are not its response and the other hold bytes it did not receive |
| UringDoubleFree.FailedWriteReached | src/runtime/uring/event_loop.rs:374-400 | under every configuration a run reaches a failed write, the end of an empty reply |
| UringDoubleFree.DoubleFreeReached | src/runtime/uring/event_loop.rs:235-489 | both together, for every configuration with three buffers, a provided buffer and two connections, and all requests and replies that fit |
| UringBounds.PopulationLaw | src/runtime/uring/event_loop.rs:289-489 | in every state of every run, free, accumulation and write buffers together are the pool size plus the failed writes so far |
| UringBounds.PartitionIff | src/runtime/uring/event_loop.rs:289-489 | in every state of every run the pool is partitioned if and only if no write has failed so far |
| UringBounds.StepKeepsBounds | src/runtime/uring/event_loop.rs:118-188 | every step, failed writes included, keeps all indices in the pool and all counts within their buffer |
| UringBounds.AccumulationBounded | src/runtime/uring/event_loop.rs:309-328 | on every run, for every connection, what is accumulated and what is being sent fits its buffer |
| UringBuffers.PoolPartition | src/runtime/uring/event_loop.rs:289-362 | before the first failed write, free list, accumulation buffers and write buffers partition the pool |
| UringBuffers.InputConserved | src/runtime/uring/event_loop.rs:309-409 | before the first failed write, bytes copied in are bytes consumed followed by the accumulated ones; how many are consumed is stated by `UringLedger.LedgerHolds` |
| UringBuffers.SendIntegrity | src/runtime/uring/event_loop.rs:473-486 | before the first failed write, bytes sent are a prefix of the responses in order, and all of them when reading again |
| UringBuffers.InFlightBufferUntouched | src/runtime/uring/event_loop.rs:377-400 | before the first failed write, no step alters a buffer being written out for another connection |
| UringPrivate.PrivateIntegrity | src/runtime/uring/event_loop.rs:309-489 | on every run, failed writes or not, while a connection's buffers are neither free nor another's: received bytes are consumed ones followed by accumulated ones, and sent bytes are a prefix of its responses, all of them when reading again; which bytes these are is stated by `UringLedger.PrivateExact` |
| UringLedger.LedgerHolds | src/runtime/uring/event_loop.rs:309-489 | on every run, for every connection: what it received, used up, owes and sent is what its completions add up to, and what is left to process is what was received and not used up |
| UringLedger.PrivateExact | src/runtime/uring/event_loop.rs:377-412 | while its buffers are its own, a connection holds exactly the received bytes its requests have not used up, and has sent exactly the first bytes of its responses that the kernel reported |
| UringLedger.ExactBeforeFailure | src/runtime/uring/event_loop.rs:377-412 | the same for every connection before the first failed write |
| UringLedger.StaysOpenIff | src/runtime/uring/event_loop.rs:235-489 | on every run, exactly when a completion leaves its connection open, and whether it then writes the whole response, writes on or reads |
| UringBuffers.RingConserved | src/runtime/uring/event_loop.rs:157-174 | in every state of every run each provided buffer is in the ring or held once |
| Uring.EventLoop.constructor | src/runtime/uring/event_loop.rs:97-109 | the worker starts with one accept outstanding and every invariant true |
| Uring.EventLoop.KernelSelects | src/runtime/uring/event_loop.rs:530-536 | the kernel's choice of a provided buffer is the step's, keeps the worker's invariants and puts the buffer into a handler's hands |
| Uring.EventLoop.OnAccept | src/runtime/uring/event_loop.rs:191-233 | the accept is re-armed; a new connection, if there is room, gets its first read |
| Uring.EventLoop.OnRead | src/runtime/uring/event_loop.rs:235-332 | on every path the new state is that of the step, and a provided buffer goes back to the ring exactly once |
| Uring.EventLoop.OnProcessed | src/runtime/uring/event_loop.rs:334-443 | the same from the write-buffer allocation on, for every processing outcome; a connection that stays open keeps accumulated what the request did not use up |
| Uring.EventLoop.ShiftAccumulated | src/runtime/uring/event_loop.rs:381-388 | takes the consumed count off the accumulated one, down to 0, and the bytes that stay are the old ones from that count on, in order |
| Uring.EventLoop.OnWrite | src/runtime/uring/event_loop.rs:445-489 | the same for complete, partial and failed writes |
| Uring.EventLoop.CloseConnection | src/runtime/uring/event_loop.rs:591-612 | the connection is gone and its write and accumulation buffers are freed |
| Uring.EventLoop.OnCompletion | src/runtime/uring/event_loop.rs:118-188 | one turn of the loop is the step and keeps tokens and bounds, also after failed writes; a valid worker stays valid if and only if it was not a failed write |
| MioSpec.NeedChainMakesRoom | src/runtime/mio/event_loop.rs:324-364 | a request that needs a chain keeps its connection if and only if its value is not too large and the pool has the missing buffers, all or none; read buffer and chain then have room for the whole request, and `MioSpec.ChainBuffersFit` says the chain is no longer than needed |
| MioSpec.StepKeepsInv | src/runtime/mio/event_loop.rs:166-553 | every step keeps each index in exactly one place and the write-chain marker discipline |
| MioSpec.PoolPartition | src/runtime/mio/event_loop.rs:183-553 | in every state of every run each index is free once or owned once, by one role of one connection; a write chain exists exactly while writing with the marker |
| MioSpec.AllClosedAllFree | src/runtime/mio/event_loop.rs:532-553 | when every connection is closed the pool is fully available |
| Mio.EventLoop.constructor | src/runtime/mio/event_loop.rs:119-121 | starts with every index free |
| Mio.EventLoop.AcceptOne | src/runtime/mio/event_loop.rs:178-210 | two buffers and a connection, or nothing taken |
| Mio.EventLoop.AcceptPending | src/runtime/mio/event_loop.rs:175-230 | a prefix of the pending sockets becomes fresh connections with two buffers each, the rest are refused only because the worker is full, and existing connections are unchanged |
| Mio.EventLoop.OnReadable | src/runtime/mio/event_loop.rs:263-450 | pool and connection end up as the step says, for every read result and processing outcome; the chain of a large response holds exactly its bytes, and no buffer outside it changes |
| Mio.EventLoop.OnInput | src/runtime/mio/event_loop.rs:263-450 | with the bytes: the read buffer ends up as the event says, the rest moved to its front when there is a response, and no buffer changes but the connection's own and those it takes |
| ChainWrite.SentIsPrefix | src/runtime/mio/event_loop.rs:471-526 | for one response: while every partial write ends at a resumable offset, the bytes sent are a prefix of the response, and all of it at the end |
| MioResponses.ResponseUnderWay | src/runtime/mio/event_loop.rs:263-526 | on every run of the worker, whatever other connections do: the chain of a large response under way holds its bytes, and with resumable offsets so far the bytes sent are its prefix |
| MioResponses.ResponseDelivered | src/runtime/mio/event_loop.rs:505-526 | on every run, with resumable offsets, a response that is no longer being sent was sent whole |
| MioReplies.ReplyDelivered | src/runtime/mio/event_loop.rs:365-526 | on every run, whatever other connections do: what the socket took of a response in the write buffer is its first bytes, as many as are counted as written, and all of it once it is no longer being sent |
| MioInput.HeldSinceResponse | src/runtime/mio/event_loop.rs:263-450 | on every run, whatever other connections do: a reading connection holds exactly the bytes received since the read that led to its last response |
| MioInput.NothingSkippedIff | src/runtime/mio/event_loop.rs:365-519 | on every run: these are the bytes its requests have not used up if and only if every response so far used up all the bytes at hand; otherwise exactly the bytes those responses left are skipped |
| MioInput.PipelinedRequestSkipped | src/runtime/mio/event_loop.rs:365-519 | under every configuration, for every first read of which the request leaves a part: a run of three events ends with the connection reading from an empty buffer and that part skipped |
| ChainWrite.FirstWrongOffset | src/runtime/mio/event_loop.rs:478-490 | at the first offset that is not resumable, for some contents what was sent is right and what is offered next is not the rest |
| ChainWrite.StuckIff | src/runtime/mio/event_loop.rs:478-480 | nothing is offered although bytes are left, exactly when less than a buffer is left and skipping that much per buffer uses up the chain |
| ChainWrite.StuckForever | src/runtime/mio/event_loop.rs:478-526 | a write event leaves the sender unchanged if and only if it is stuck |
| ChainWrite.StuckConnection | src/runtime/mio/event_loop.rs:478-526 | a stuck connection keeps its state and buffers at every writable event |
| Mio.EventLoop.OnWritable | src/runtime/mio/event_loop.rs:452-530 | the same for blocked, failed, partial and complete writes |
| Mio.EventLoop.CloseConnection | src/runtime/mio/event_loop.rs:532-553 | both buffers and both chains go back to the pool |

## Left out

- Clock: one reading, in whole seconds, is taken per storage call (two for incr and decr), where the code reads it at each expiry test; runs may use any readings.
- StorageConcurrent.BoundedOvershoot: leaves out cas, whose release of the lock between uncharging and inserting breaks the accounting; also leaves out deadlock freedom and lock poisoning.
- StorageConcurrent.BoundAttained: needs requests at least twice as large as the overhead plus keys of as many lengths as there are items.
- Storage.Storage.CompareAndSwap: what later calls do once a panicking cas has poisoned the data lock is not modelled.
- StorageHistory.NoStaleHits: speaks of runs in which neither 64-bit counter has wrapped, and so do the results on recency and on doomed keys.
- StorageLimit.MemoryBound: takes for granted that at each call the bytes held and the bytes to be added are together below 2^64.
- StorageConcurrent.Step: keeps no access order and treats expiry tests and the choice of victim as arbitrary, which only adds behaviours.
- UringBuffers.InputConserved: stops at the first failed write, because the corruption after it is real (see `UringDoubleFree.FailedWriteHarms`); so do `UringBuffers.PoolPartition`, `UringBuffers.SendIntegrity` and `UringBuffers.InFlightBufferUntouched`; `UringPrivate.PrivateIntegrity` goes on behind it.
- Mio.EventLoop.OnReadable: keeps track of who owns each buffer and of the bytes of a large response; the bytes of the connection's own two buffers are added by `Mio.EventLoop.OnInput`.
- Buffers.BufferChain.Append: requires a chain whose buffers are all in use; appending after `clear` or `push_buffer` left several empty buffers is excluded.
- Request.ProcessStorage: the fixed texts of its replies and the truncation of a reply to the output buffer are not modelled.
- Memcached.TwoPassAgreement: letter case is ASCII only, which changes the text of no known command; error messages are reduced to their kind; a build with overflow checks, which would panic where a sum wraps, is not modelled.
- Item fields: `last_accessed` is never read by the program and is not modelled; nor is `cleanup_expired`, which nothing calls.
- Execution of delete, flush, stats and version commands and of RESP commands beyond parsing: would only add easy members.
- Sockets, polling, failure to register an accepted socket, submission-queue overflow, raw pointers, memory-allocation failure, configuration, logging, the ping and echo protocols.
