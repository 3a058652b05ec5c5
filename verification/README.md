# Verified models of six cores of the Telegram client library

The Dafny modules beside this file model six parts of the repository that carry an algorithm or
a protocol, and prove what those parts promise for every input, every run and every interleaving.

- **The allocation profiler** (`ProbeTable`, `HashTable`, `AllocationLedger`, `Counting`): an
  insert-only hash table probed by many threads at once, and the byte accounting on top of it.
- **The single-producer single-consumer ring** (`BufferQueue`), its variant with a sleeping
  reader (`FdQueue`), and the echo benchmark: its protocol over ideal queues (`EchoProtocol`) and
  the same threads access by access over two real queues of either kind (`EchoSystem`).
- **The TL code generator** (`TlGenerator`, `TlWriter`, `TlCodec`, `TlRoundTrip`, `TlSample`,
  `TlStrings`, `TlTyping`, `TlReread`): from schema combinators to store and fetch code. Small programs stand for the
  generated C++ and are interpreted over byte strings, following Telegram's "Binary Data
  Serialization", section on boxed and bare types.
- **MTProto session state** (`DuplicateChecker`, `MessageIds`, `ServerSalts`, `AuthData`,
  `CryptoPacket`): the replay window, the server clock, outgoing identifiers, salts, and the
  packing of messages into containers; compare "Security Guidelines for Client Developers",
  section "Checking msg_id", and "Mobile Protocol: Detailed Description", sections "Message
  Identifier (msg_id)" and "Message Sequence Number (msg_seqno)".
- **The source splitter** (`DisjointSets`, `Packing`, `SplitFile`): union-find and longest-first
  packing.
- **The key exchange** (`BigNum`, `DhHandshake`, `Handshake`): Diffie-Hellman agreement and the
  five-state client of "Creating an Authorization Key".

`Bytes`, `Bits` and `Options` hold little-endian numbers, bit arithmetic and the option type.

Threads are modelled as interleavings of atomic accesses: a deterministic step function of the
state and the moving thread, folded over an arbitrary sequence of moves. Code that changes fields
in place is a class whose methods are proved equal to functions of the old state; the theorems
are lemmas about those functions. Random bits, clock readings, hashes, encryption and parsing
verdicts of foreign libraries are parameters.

## What the proofs found

- Two calls of `get_ht_pos` with the same backtrace may return different slots: with one thread
  only if its hash is 0, with two or more whatever its hash, save for the hash of unknown callers
  (`ProbeTable.CallsAgreeIff`). The run of two threads that shows it
  (`ProbeTable.TwoThreadsDisagree`) lets the table pass half full between the size test of one
  call and its swap. Other than by such a redirection of one of the calls it happens for hash 0
  only (`ProbeTable.DifferIffOneRedirected`).
- The echo benchmark exchanges one query per connection even when none is asked for, and works
  for up to 128 connections, not more (`EchoProtocol.AskedForIff`,
  `EchoProtocol.NoneAskedOneExchanged`, `EchoProtocol.ChecksFailIff`).
- A constructor with a conditional TL flag of boxed type can have a store half and no fetch half
  (`TlGenerator.FetchExistsIff`, `TlSample.FlaggedHasNoFetch`); a vector of elements without bytes
  that is followed by fewer bytes than it has elements, and a flag word with bit 31 set, are stored
  but cannot be fetched (`TlRoundTrip.FetchUndoesStore` with the inputs of
  `TlSample.UnitVectorIsLost` and `TlSample.NegativeNoteIsLost`).
- A packet's single message is taken for a container if its body starts with the container
  constructor (`CryptoPacket.BareRoundTripIff`, `CryptoPacket.LookalikeIsLost`).
- A Diffie-Hellman exchange that is saved and restored forgets an announced hash of `g_a`
  (`DhHandshake.RestoredIsSameIff`, `DhHandshake.MismatchIsForgotten`).
- A key exchange message with modulus zero ends the program before its checks run
  (`Handshake.AbortsIff`, `Handshake.ZeroModulusEndsRun`).

## Model

| member | source | states |
|---|---|---|
| ProbeTable.GetHash | td/memprof/memprof.cpp:132-138 | The loop over at most six return addresses yields the 64-bit wrapping hash of the backtrace. |
| ProbeTable.UnknownHash | td/memprof/memprof.cpp:164-167 | The backtrace of unknown callers has the fixed nonzero hash 3600631632233801934. |
| ProbeTable.EveryHashExists | td/memprof/memprof.cpp:132-138 | Any five return addresses extend by a sixth to a backtrace with any given 64-bit hash, 0 (the mark of an empty slot) included. |
| ProbeTable.StepKeepsInv | td/memprof/memprof.cpp:154-191 | Every atomic step of any thread keeps the invariant: slots on the cyclic probe path before a stored hash hold other, nonzero hashes; `ht_size` lags the occupied slots by the pending increments only. |
| ProbeTable.HashUnique | td/memprof/memprof.cpp:154-191 | In every state that satisfies the invariant, hence every reachable one, a nonzero hash occupies at most one slot. |
| ProbeTable.OccupancyBound | td/memprof/memprof.cpp:161-163 | Occupied slots never exceed half the table plus the threads plus one, so the 70% assertion holds. |
| ProbeTable.AdvanceOk | td/memprof/memprof.cpp:178-189 | A probe that moves on never wraps a second time (the abort is unreachable) and gets one slot nearer its end. |
| ProbeTable.EveryRunIsSafe | td/memprof/memprof.cpp:154-191 | For any interleaving of any calls by T threads, 5·(T + 1) < HT_MAX_SIZE: no abort, unique slots, bounded occupancy. |
| ProbeTable.StepsOfACall | td/memprof/memprof.cpp:154-191 | A call begins with the hash given, keeps it through a redirection, and ends only by returning one slot, which holds that hash or the one of unknown callers; no step touches another thread. |
| ProbeTable.CallsAgreeIff | td/memprof/memprof.cpp:154-191 | For T threads, calls with one and the same hash return one and the same slot in all runs if and only if it is the hash of unknown callers, or T = 1 and the hash is not 0. |
| ProbeTable.DifferIffOneRedirected | td/memprof/memprof.cpp:160-168 | In every run two calls with the same nonzero hash return different slots exactly when one of them, and not the other, was redirected to unknown callers; so at most two slots are ever returned for it. |
| ProbeTable.LoneCallsAgree | td/memprof/memprof.cpp:158-176 | A lone thread is redirected for a nonzero hash on all its calls or on none. |
| ProbeTable.TwoThreadsDisagree | td/memprof/memprof.cpp:158-176 | For two or more threads and every hash but that of unknown callers, a run in which one call passes the size test, the table grows past half full, another call with the hash is redirected and returns, and then the first takes its own slot. |
| ProbeTable.SettlementsAgreeIffNonzero | td/memprof/memprof.cpp:154-191 | All calls that settle on one hash, after any redirection, return one slot in all interleavings if and only if the hash is not 0. |
| ProbeTable.ZeroHashMoves | td/memprof/memprof.cpp:158-176 | A run of one thread in which hash 0 settles first on slot 0 and later on slot 1. |
| ProbeTable.StepLowersWork | td/memprof/memprof.cpp:157-190 | A bound on the steps a call still needs drops with each own step and is never raised by other threads, despite failed swaps and the lagging size. |
| ProbeTable.EveryCallEnds | td/memprof/memprof.cpp:154-191 | However the others interleave, a call takes at most 10·HT_MAX_SIZE + 10 own steps, the returning one included. |
| ProbeTable.NotStored | td/memprof/memprof.cpp:158-160 | A probe that reaches an empty slot, in any state of the concurrent table, proves its hash is nowhere in it. |
| HashTable.InsertKeepsInv | td/memprof/memprof.cpp:171-176 | Taking that slot keeps the probe-path and occupancy invariants. |
| HashTable.HashTable.GetHtPos | td/memprof/memprof.cpp:154-191 | The loop in place, undisturbed, for every hash: returns the slot of the hash, or of unknown callers when the table is half full and the hash is new; a stored hash changes nothing, any other (0 always) takes one empty slot and one unit of size. |
| AllocationLedger.ChargeConserves | td/memprof/memprof.cpp:203-211 | Registering a block keeps each slot equal to the sum of its live blocks modulo the word; it aborts exactly when the 32-bit size is negative. |
| AllocationLedger.DischargeConserves | td/memprof/memprof.cpp:203-211 | Releasing keeps conservation; the underflow assertion fires exactly when the slot total, having overflowed the word, is below the block, and never while all live bytes fit the word. |
| AllocationLedger.StepConserves | td/memprof/memprof.cpp:215-286 | `malloc`, `free` and `realloc` (new block charged before the old one is released) keep conservation. |
| AllocationLedger.ProfilersAgree | td/memprof/memprof_stat.cpp:39-127 | Over any run the sum over the table equals the single counter of the simpler profiler modulo the word, which never aborts earlier. |
| AllocationLedger.NoAbort | td/memprof/memprof.cpp:203-211 | From any conserved table one legal event with a request below 2^31 bytes and live bytes within the word does not abort. |
| AllocationLedger.ModestRunsNeverAbort | td/memprof/memprof.cpp:203-286 | Hence no run of such events ever aborts, and the blocks the profiler accounts for are exactly the live ones. |
| AllocationLedger.Profiler.Register | td/memprof/memprof.cpp:203-207 | In place: adds the block to its slot, or reports the failed size assertion and changes nothing. |
| AllocationLedger.Profiler.Unregister | td/memprof/memprof.cpp:208-210 | In place: subtracts the block, reporting the underflow assertion. |
| AllocationLedger.Profiler.UsedMemory | td/memprof/memprof.cpp:193-201 | The loop that skips empty slots returns the total of all slots modulo the word. |
| BufferQueue.GuardsExact | td/benchmark/bench_queue.cpp:242-256 | The wrapped 32-bit comparisons and signed differences decide the unbounded ones, for cached indices however stale. |
| BufferQueue.StepRefinesFifo | td/benchmark/bench_queue.cpp:258-282 | Each access refines an unbounded queue: put appends, get takes the oldest, index exchanges change nothing; the invariant is kept across wraps of the counters. |
| BufferQueue.PutSlotIsFree | td/benchmark/bench_queue.cpp:271-273 | A put never overwrites an unread item. |
| BufferQueue.EveryRunIsFifo | td/benchmark/bench_queue.cpp:211-328 | In every interleaving of any length the values read are a prefix of the values written, at most 1024 behind. |
| BufferQueue.PutFailsIff | td/benchmark/bench_queue.cpp:314-323 | After re-reading the reader's index a put fails exactly when 1024 items are unread as far as the reader has published. |
| BufferQueue.Queue.constructor | td/benchmark/bench_queue.cpp:237-240 | The initial ring is empty and satisfies the invariant. |
| BufferQueue.Queue.DoPutUnsafe | td/benchmark/bench_queue.cpp:271-273 | In place: one put of the model, invariant kept. |
| BufferQueue.Queue.DoFlushWriter | td/benchmark/bench_queue.cpp:275-277 | In place: publishes the writing position. |
| BufferQueue.Queue.DoUpdateWriter | td/benchmark/bench_queue.cpp:279-282 | In place: re-reads the reader's index; the answer is the true number of free slots it reveals. |
| BufferQueue.Queue.DoGetUnsafe | td/benchmark/bench_queue.cpp:258-260 | In place: returns the oldest unread item and only advances the reader. |
| BufferQueue.Queue.DoFlushReader | td/benchmark/bench_queue.cpp:262-264 | In place: publishes the reading position. |
| BufferQueue.Queue.DoUpdateReader | td/benchmark/bench_queue.cpp:266-269 | In place: re-reads the writer's index; the answer is the number of published unread items. |
| BufferQueue.Queue.DoPut | td/benchmark/bench_queue.cpp:314-328 | `put`: appends and publishes, or stops exactly when the ring is full as far as the reader has published. |
| BufferQueue.Queue.WaitReader | td/benchmark/bench_queue.cpp:284-292 | The polling loop ends with the number of published unread items, having read nothing. |
| BufferQueue.Queue.DoGet | td/benchmark/bench_queue.cpp:294-312 | `get`: polls until an item is published, whatever the writer puts before each poll, then removes and returns the oldest and publishes the position. |
| FdQueue.WriterKeepsInv | td/benchmark/bench_queue.cpp:347-354 | Every access of a putting writer keeps the wake-up invariant. |
| FdQueue.ReaderKeepsInv | td/benchmark/bench_queue.cpp:404-426 | Every access of a getting reader, polling, sleeping or taking, keeps the wake-up invariant. |
| FdQueue.SleepingQueueIsFifo | td/benchmark/bench_queue.cpp:335-431 | The handshake adds no behaviour to the ring: runs project to ring runs, so delivery stays first-in first-out. |
| FdQueue.NoLostWakeUp | td/benchmark/bench_queue.cpp:347-354 | When the reader is blocked on a zero eventfd although an item is published, the writer is between its publish and its pending eventfd write, and its next one or two steps write the token. |
| FdQueue.NoSleepNoToken | td/benchmark/bench_queue.cpp:347-354 | A reader that never gives up polling is never sent a token, in any interleaving. |
| FdQueue.BlockedIsWoken | td/benchmark/bench_queue.cpp:350-353 | In any interleaving two moves of the writer wake a reader that is blocked beside a published item. |
| FdQueue.AwakeIsServed | td/benchmark/bench_queue.cpp:404-426 | Once an item is published, a reader that is not blocked takes the oldest one within four of its own moves, in any interleaving. |
| FdQueue.PublishedIsServed | td/benchmark/bench_queue.cpp:347-426 | From any state with a published item: after two writer moves and then four reader moves, in any interleaving, the oldest has been taken. |
| FdQueue.BlockedReaderWaits | td/benchmark/bench_queue.cpp:419-423 | A blocked reader changes nothing. |
| FdQueue.WokenReaderTakes | td/benchmark/bench_queue.cpp:419-425 | A woken reader with a published item takes the oldest one within four of its own moves, whatever the writer does in between. |
| FdQueue.LeftoverTokenIsHarmless | td/benchmark/bench_queue.cpp:419-423 | A token with nothing published costs the reader one check, whatever the writer does between its two moves: it takes an item that has come meanwhile, and otherwise waits again for a token written meanwhile; nothing is delivered or lost. |
| FdQueue.NeverStuck | td/benchmark/bench_queue.cpp:347-426 | Unless everything put has been delivered and the reader sleeps, some thread has a step. |
| EchoProtocol.DecodesIff | td/benchmark/bench_queue.cpp:710-711 | A 32-bit message holds its connection and query number exactly for connections below 128. |
| EchoProtocol.OrderChecksExact | td/benchmark/bench_queue.cpp:705-743 | In any state each side goes on with a message exactly when it is the next one of an existing connection, and stops otherwise. |
| EchoProtocol.StepKeepsInv | td/benchmark/bench_queue.cpp:705-743 | Each step of client or server keeps: every open, unfinished connection has exactly one message in flight, whose numbers match both counters. |
| EchoProtocol.EveryRunIsSafe | td/benchmark/bench_queue.cpp:712-713 | With at most 128 connections no range or order check fails, and the queues together never hold more messages than connections. |
| EchoProtocol.OneMessageInFlight | td/benchmark/bench_queue.cpp:705-743 | In every reachable state one message, and only one, is under way for each opened, unfinished connection. |
| EchoProtocol.EveryRunEnds | td/benchmark/bench_queue.cpp:705-743 | No schedule contains more than 4·rounds·n + n + 3 steps that are not waiting. |
| EchoProtocol.QuietMeansDone | td/benchmark/bench_queue.cpp:708-743 | When neither thread can move both have left their loops, the queues are empty and every connection made its number of exchanges. |
| EchoProtocol.AskedForIff | td/benchmark/bench_queue.cpp:715-739 | Where a run comes to rest every connection has made `queries_n` exchanges if and only if at least one query is asked for. |
| EchoProtocol.NoneAskedOneExchanged | td/benchmark/bench_queue.cpp:705-743 | A schedule of one connection asked for nothing that comes to rest after one exchange. |
| EchoProtocol.ChecksFailIff | td/benchmark/bench_queue.cpp:705-743 | Some schedule fails an order check if and only if there are more than 128 connections. |
| EchoSystem.StepSimulates | td/benchmark/bench_queue.cpp:705-743 | Client and server, one atomic access at a time over two real queues, plain or sleeping: each access is one step of the protocol over ideal queues or none, and keeps the queues' and threads' invariants. |
| EchoSystem.EveryRunSimulates | td/benchmark/bench_queue.cpp:679-743 | Every run over the real queues stands for a run of the protocol. |
| EchoSystem.PutNeverFails | td/benchmark/bench_queue.cpp:314-323 | In every such run with at most 128 connections no put reaches its fatal branch and no order check fails. |
| EchoSystem.MoveLowers | td/benchmark/bench_queue.cpp:705-743 | Every access that changes anything lowers a measure, tokens and re-checks included. |
| EchoSystem.StuckIsDone | td/benchmark/bench_queue.cpp:705-743 | When neither thread can move both have left their loops and every queue operation: no deadlock, no lost wake-up. |
| EchoSystem.EveryFairRunEnds | td/benchmark/bench_queue.cpp:705-743 | Every fair schedule, over plain and over sleeping queues, ends within a stated number of stretches, with all exchanges made and the queues empty. |
| TlStrings.StringRoundTrip | td/tdutils/td/utils/tl_parsers.h:126-162 | Every string the storer accepts is fetched back in each of its three length forms, with its padding; the encoding is a whole number of words. |
| TlStrings.PaddedWithZeros | td/tdutils/td/utils/tl_storers.h:53-89 | What follows a stored text is zeros, fewer than four, up to a whole word. |
| TlStrings.StoredSizeExact | td/tdutils/td/utils/tl_storers.h:125-136 | The length computed before storing a text is the number of bytes written. |
| TlStrings.FetchedText | td/tdutils/td/utils/tl_parsers.h:126-162 | Whatever bytes a text is fetched from: it is a part of them, what follows is untouched, and storing it again takes no more room. |
| Bits.BitOfSetBit | td/td/generate/tl_writer_cpp.cpp:504-512 | Setting bit i of a flag word changes bit i and no other. |
| Bits.SetBitAgain | td/td/generate/tl_writer_cpp.cpp:504-512 | Setting a bit that is set changes nothing. |
| Bits.XorBits | td/td/mtproto/AuthData.cpp:115-117 | The exclusive or of two numbers, bit by bit. |
| TlGenerator.TypeSupportedIff | td/tdtl/td/tl/tl_writer.cpp:39-60 | A type expression is supported exactly when nothing inside it, at any depth, is a type variable or an unknown or complex type. |
| TlGenerator.CombinatorSupportedIff | td/tdtl/td/tl/tl_writer.cpp:62-131 | A constructor is supported exactly when the type expressions of its fields, of array elements and of its result are. |
| TlGenerator.ExpectedIsFirst | td/td/generate/tl_writer_cpp.cpp:193-209 | The constructor id the fetch half expects, if it expects one, is that of the first supported constructor, the one the store half writes. |
| TlGenerator.VectorId | td/td/generate/tl_writer_cpp.cpp:198-205 | For a template type both halves use its only constructor. |
| TlGenerator.HalvesAgree | td/td/generate/tl_writer_cpp.cpp:382-411 | Whenever both halves can be generated for a type expression they agree on widths, boxing and constructor ids at every level, vectors and polymorphic types included. |
| TlGenerator.FieldAgrees | td/td/generate/tl_writer_cpp.cpp:439-530 | Field by field both halves mark the same variables, use the same guard, and agree on what is written and read. |
| TlGenerator.ProgramsAgree | td/tdtl/td/tl/tl_generate.cpp:224-276 | For a supported constructor whose two functions can be generated: statement by statement agreement, and every variable is defined once and before it guards a field. |
| TlGenerator.BoxedFlagHasNoFetch | td/td/generate/tl_writer_cpp.cpp:243-252 | A constructor with a conditional flag of boxed type gets no fetch half, since the parse library has no class for it. |
| TlGenerator.StoredFlags | td/td/generate/tl_writer_cpp.cpp:503-514 | In any store half a flag word is combined with exactly the conditional fields of type True, bare or boxed, of its variable. |
| TlGenerator.FetchExistsIff | td/td/generate/tl_writer_cpp.cpp:185-299 | A constructor that can be stored can be fetched if and only if each flag is bare and each other field is of a type that is bare only where it can be and has one identifier where its box needs one, inside vectors too. |
| TlSample.FlaggedHasNoFetch | td/td/generate/tl_writer_cpp.cpp:473-486 | A schema with a supported constructor whose conditional boxed flag leaves it with a store half and no fetch half. |
| TlWriter.FieldStoreInPlace | td/td/generate/tl_writer_cpp.cpp:439-530 | Generating one field's store, marking `is_stored` in place, equals the specification. |
| TlWriter.FieldFetchInPlace | td/td/generate/tl_writer_cpp.cpp:216-299 | Generating one field's fetch, marking `is_stored` in place, equals the specification. |
| TlWriter.CollectFlags | td/td/generate/tl_writer_cpp.cpp:503-514 | The loop over the other fields collects exactly the flags kept in the variable, in order. |
| TlWriter.WriteConstructorStore | td/tdtl/td/tl/tl_generate.cpp:253-274 | The loop over the fields with the final check that all variables are stored yields the store program. |
| TlWriter.WriteConstructorFetch | td/tdtl/td/tl/tl_generate.cpp:224-251 | The same for the fetch program. |
| TlRoundTrip.FindsConstructor | td/td/generate/tl_writer_cpp.cpp:682-698 | The polymorphic fetch switch, and the single-constructor shortcut, find the constructor that was stored. |
| TlRoundTrip.FetchUndoesStore | td/td/tl/tl_object_parse.h:19-148 | For every schema both halves compile for and every storable value: fetching the stored bytes gives the value with flags combined into their words and absent fields defaulted, and leaves what follows; it fails exactly when a flag word is negative or a vector has more elements than bytes left. |
| TlRoundTrip.StoreAgain | td/td/tl/tl_object_store.h:18-84 | Storing what was fetched writes identical bytes. |
| TlRoundTrip.ObjectComesBack | td/td/generate/tl_writer_cpp.cpp:216-530 | The object that comes back, field by field: each flag word has the bits of the stored one and of every true flag, no others; each flag is its bit of that word; any other field is itself if its bit is set and empty otherwise. |
| TlRoundTrip.TrueFlagsSurvive | td/td/generate/tl_writer_cpp.cpp:503-514 | Every flag that is true in the stored object is true in the fetched one. |
| TlRoundTrip.DefaultIsEmpty | td/td/generate/tl_writer_cpp.cpp:252-254 | An absent field is set to zero, false, no text, no elements or no object, as its class says. |
| TlRoundTrip.BoolBytes | td/td/tl/tl_object_store.h:40-50 | The four bytes of true and of false. |
| TlRoundTrip.BoxedBeginsWithId | td/td/generate/tl_writer_cpp.cpp:405-437 | A boxed value begins with the identifier of its own constructor, whether its type has one or several. |
| TlTyping.StoredIff | td/td/tl/tl_object_store.h:18-84 | A value can be stored exactly when it fits its class: numbers their width, texts below 2^32 bytes, vectors below 2^31 elements, objects a supported constructor and every field that is there. |
| TlReread.StoreUndoesFetch | td/td/tl/tl_object_parse.h:19-148 | For any bytes at all that the fetch half accepts: the value is canonical and can be stored, takes no more room, and is stored as the very bytes read exactly when each text among them was in its stored form. |
| TlRoundTrip.TypeRoundTrip | td/td/generate/tl_writer_cpp.cpp:185-214 | Both facts for the classes chosen for a type expression. |
| TlSample.SampleIsReady | td/td/generate/tl_writer_cpp.cpp:216-530 | Both halves can be generated for a schema with a flag word, a true-flag, a conditional number, a boxed vector and a conditional nested object, so the assumptions of the round trip can be met. |
| TlRoundTrip.EmptyElementsAreLost | td/td/tl/tl_object_parse.h:120-136 | A vector of elements that take no bytes cannot be read back when nothing follows it. |
| TlSample.UnitVectorIsLost | td/td/tl/tl_object_parse.h:120-136 | A vector of one argument-less bare object is stored and cannot be fetched back. |
| TlRoundTrip.SolidVectorsAreReadable | td/td/tl/tl_object_parse.h:125-128 | Elements of at least one byte always pass the length test. |
| TlRoundTrip.NegativeFlagsAreLost | td/td/generate/tl_writer_cpp.cpp:285-287 | An object any of whose flag words has its top bit set cannot be read back. |
| TlSample.NegativeNoteIsLost | td/td/generate/tl_writer_cpp.cpp:285-287 | An object with flag word 2^31 is stored and cannot be fetched back. |
| DuplicateChecker.ArrayVerdict | td/td/mtproto/AuthData.cpp:25-45 | One call, in terms of every id ever offered: accepted exactly when new and, once N are kept, above the oldest kept; the array stays the sorted top of all ids offered. |
| DuplicateChecker.ArrayIsTop | td/td/mtproto/AuthData.cpp:19-46 | After any sequence of ids the array is the sorted top k of all of them, min(N, all) ≤ k ≤ 2N. |
| DuplicateChecker.ArraySize | td/td/mtproto/AuthData.cpp:25-45 | The exact size: of the ids accepted nothing is dropped but N at a time, and only when 2N are kept. |
| DuplicateChecker.OldEqualsNew | td/benchmark/bench_misc.cpp:486-531 | The two set-based checkers give the same answers and keep the same sets. |
| DuplicateChecker.SetVerdict | td/benchmark/bench_misc.cpp:486-503 | The set checker accepts exactly new ids above the least of its N, and keeps the N greatest ever offered. |
| DuplicateChecker.OldIsTop | td/benchmark/bench_misc.cpp:481-508 | After any sequence the set holds the N greatest ids offered, or all of them. |
| DuplicateChecker.Sandwich | td/benchmark/bench_misc.cpp:589-622 | For every history and N: what the N-set accepts the array accepts, and what the array accepts the 2N-set accepts. |
| DuplicateChecker.MessageIdDuplicateChecker.Find | td/td/mtproto/AuthData.cpp:38 | Binary search returns the lower bound. |
| DuplicateChecker.MessageIdDuplicateChecker.DropLowerHalf | td/td/mtproto/AuthData.cpp:25-28 | In place: a full array keeps its upper half. |
| DuplicateChecker.MessageIdDuplicateChecker.InsertAt | td/td/mtproto/AuthData.cpp:42-44 | In place: shifts the tail and inserts the id. |
| DuplicateChecker.MessageIdDuplicateChecker.Check | td/td/mtproto/AuthData.h:44-54 | The whole check on the array equals the specification and keeps the array sorted. |
| DuplicateChecker.IdDuplicateCheckerOld.Check | td/benchmark/bench_misc.cpp:486-503 | The first set checker in place equals its specification. |
| DuplicateChecker.IdDuplicateCheckerNew.Check | td/benchmark/bench_misc.cpp:516-531 | The second set checker in place equals its specification. |
| MessageIds.NextIdBounds | td/td/mtproto/AuthData.cpp:107-125 | One new id is a multiple of four, exceeds the last one, and is near the clock or at most 8192 past the last one. |
| MessageIds.IncreasesIff | td/td/mtproto/AuthData.cpp:118-121 | The new id exceeds the last one exactly unless the 64-bit sum wraps. |
| MessageIds.NextIdBits | td/td/mtproto/AuthData.cpp:107-125 | The whole id bit by bit: the clock reading with bits 2 to 21 flipped by the random number and bits 0 and 1 cleared, or else eight times one to 1024 beyond the last id, as the ten highest random bits say. |
| MessageIds.EveryRunIncreases | td/td/mtproto/AuthData.cpp:107-125 | Whatever the clock does: divisible by four, strictly increasing, ahead of the largest reading by less than 2^22 + 8192 per call. |
| MessageIds.EveryRunDistinct | td/td/mtproto/AuthData.cpp:107-125 | Any two ids of a run differ, in the order of the calls. |
| MessageIds.CreatedValid | td/td/mtproto/AuthData.cpp:127-131 | With a clock that never goes back the first 15,728,128 ids pass the outbound time check when created. |
| MessageIds.ValidInTicks | td/td/mtproto/AuthData.cpp:127-137 | The two time tests in units of 2^-32 s: between 150 or 300 seconds in the past and 30 in the future. |
| MessageIds.UsableFor150Seconds | td/td/mtproto/AuthData.cpp:127-131 | An id taken from the clock passes the outbound test for 149.99 seconds and fails it from 150.01 seconds on. |
| ServerSalts.UpdateChoosesLatest | td/td/mtproto/AuthData.cpp:169-175 | The pop loop leaves in force the supplied salt with the greatest start before now; the former one stays exactly when none has started. |
| ServerSalts.UpdatesCompose | td/td/mtproto/AuthData.cpp:169-175 | Two updates equal one at the later time. |
| ServerSalts.StepwiseIsOneShot | td/td/mtproto/AuthData.cpp:169-175 | Any sequence of updates equals the one-shot choice at the latest time seen. |
| ServerSalts.SetFutureReplaces | td/td/mtproto/AuthData.cpp:91-99 | Supplied salts replace the schedule: those not started are kept in order, the latest started one comes into force, or the old one stays just when none has started; an empty supply changes nothing. |
| ServerSalts.SetCurrentStays | td/td/mtproto/AuthData.h:225-235 | A salt set by hand stays in force and is reported usable for exactly its first 540 seconds. |
| AuthData.EstimateTracksMaximum | td/td/mtproto/AuthData.cpp:70-89 | From a reset on the clock estimate never decreases, is one of the observed differences, and is at most 1e-4 below any of them. |
| AuthData.ChangeReported | td/td/mtproto/AuthData.cpp:70-83 | The answer tells exactly whether the estimate was set to the observed difference. |
| AuthData.ResetForgets | td/td/mtproto/AuthData.cpp:85-89 | A reset puts the given difference in force until the next one observed, which replaces it whatever it is. |
| AuthData.TimeCheckExact | td/td/mtproto/AuthData.cpp:153-164 | Of the inbound time test only the lower half can fail: a packet past the duplicate check is rejected exactly when its id is 300 seconds old or more. |
| AuthData.ClockAfterPacket | td/td/mtproto/AuthData.cpp:153-164 | The first packet since a reset is accepted and sets the server clock to the whole seconds of its id; a later one does so when it is ahead by more than the tolerance and leaves the estimate alone otherwise. |
| AuthData.PacketVerdict | td/td/mtproto/AuthData.cpp:139-167 | The verdict on any packet in any session state in terms of session, parity, the ids seen and the new clock, and what each verdict leaves behind. |
| AuthData.WindowOverRun | td/td/mtproto/AuthData.cpp:139-167 | Over any run of packets, session changes and clock updates the window is the top of the ids that reached it. |
| AuthData.AcceptedAtMostOnce | td/td/mtproto/AuthData.cpp:139-167 | No id is ever accepted twice, also after the window has dropped it. |
| AuthData.AuthData.constructor | td/td/mtproto/AuthData.cpp:48-52 | A fresh session, whose random first salt has expired already. |
| AuthData.AuthData.UpdateServerTimeDifference | td/td/mtproto/AuthData.cpp:70-83 | In place: the update and its answer equal the specification. |
| AuthData.AuthData.ResetServerTimeDifference | td/td/mtproto/AuthData.cpp:85-89 | In place: replaces the estimate and forgets that it was updated. |
| AuthData.AuthData.Check | td/td/mtproto/AuthData.cpp:139-167 | `check_packet` in place, in the order of its checks, equals the specification. |
| AuthData.AuthData.NextMessageId | td/td/mtproto/AuthData.cpp:107-125 | In place: issues the next id and remembers it. |
| AuthData.AuthData.NextSeqNo | td/td/mtproto/AuthData.h:267-274 | In place: odd numbers for content, which advance the counter by two. |
| AuthData.AuthData.UpdateSalt | td/td/mtproto/AuthData.cpp:169-175 | The pop loop in place equals the specification. |
| AuthData.AuthData.SetFutureSalts | td/td/mtproto/AuthData.cpp:91-99 | In place: the sorted schedule, already updated; an empty list changes nothing. |
| AuthData.AuthData.SetServerSalt | td/td/mtproto/AuthData.h:225-231 | In place: a salt valid for 600 seconds and no schedule. |
| AuthData.AuthData.GetServerSalt | td/td/mtproto/AuthData.h:220-223 | In place: updates, then answers the salt in force. |
| CryptoPacket.InvokeAfterRoundTrip | td/td/mtproto/CryptoStorer.h:109-129 | The ids a query waits for are read back from its prefix, none, one or many. |
| CryptoPacket.NumbersAscend | td/td/mtproto/CryptoStorer.h:34-71 | Service messages numbered in a row get strictly ascending ids above the last one issued. |
| CryptoPacket.NumberedBelow | td/td/mtproto/AuthData.h:267-274 | After any sequence of numbered queries and built packets, every query numbered so far has an id at most the last issued and a sequence number at most, or below if content-related, the current one. |
| CryptoPacket.PacketOrder | td/td/mtproto/CryptoStorer.h:205-253 | Service ids ascend in written order and exceed all queries'; the container's id exceeds every nested id and its sequence number is at least every nested one. |
| CryptoPacket.EveryPacketInOrder | td/td/mtproto/CryptoStorer.h:205-253 | Over every session, any sequence of numbered queries and built packets, a packet of queries numbered in that session satisfies this order. |
| CryptoPacket.SeqNoCountsContent | td/td/mtproto/AuthData.h:267-274 | Over every session that began at zero a sequence number is twice the number of content-related messages before, plus one for such a message itself. |
| CryptoPacket.StoreWritesAll | td/td/mtproto/CryptoStorer.h:249-326 | The kind chosen always names a part (the fall-through is unreachable), and a bare packet is exactly its one message. |
| CryptoPacket.KindIff | td/td/mtproto/CryptoStorer.h:249-285 | A packet is wrapped exactly when it has several messages or its one query is out of the time window; otherwise the kind names the one part there is. |
| CryptoPacket.OuterMessage | td/td/mtproto/CryptoStorer.h:291-326 | On the wire is one message: the container under the identifier and sequence number drawn last, or the bare message under its own. |
| CryptoPacket.DecodedIsEncoded | td/td/mtproto/CryptoStorer.h:34-71 | Conversely, only what messages are encoded as is read as messages. |
| CryptoPacket.PacketDecodedIsEncoded | td/td/mtproto/CryptoStorer.h:188-203 | Whatever is received came in one message: itself, or a container of exactly the messages received. |
| CryptoPacket.ContainerRoundTrip | td/td/mtproto/CryptoStorer.h:188-203 | A container is opened to exactly the messages put in. |
| CryptoPacket.BareRoundTripIff | td/td/mtproto/CryptoStorer.h:291-326 | A message sent bare is received as itself exactly when its body does not start with the container constructor. |
| CryptoPacket.LookalikeIsLost | td/td/mtproto/CryptoStorer.h:291-326 | A packet of one query whose data reads as an empty container: it is sent bare and received as no message at all. |
| CryptoPacket.PacketRoundTrip | td/td/mtproto/CryptoStorer.h:205-326 | The receiver of the written bytes gets the queries and then the numbered service messages, `cnt_` of them, no more and no less; only a body sent bare must not start with the container constructor. |
| CryptoPacket.QueryArrives | td/td/mtproto/CryptoStorer.h:131-165 | Each query arrives in its place under its own number, behind the header and the ids it waits for, which can be told from its data. |
| CryptoPacket.PartsArrive | td/td/mtproto/CryptoStorer.h:205-326 | Each service message asked for arrives at the place of its kind: the acknowledgement right behind the queries, the ping last. |
| CryptoPacket.NumberAll | td/td/mtproto/CryptoStorer.h:37-44 | Drawing the numbers from the session data in place equals the specification. |
| CryptoPacket.BuildPacket | td/td/mtproto/CryptoStorer.h:205-289 | The packet constructor, mutating the session data, equals the specification. |
| DisjointSets.DisjointSet.Find | td/SplitSource.php:3-8 | Terminates, answers the root, rewrites links only to roots, and changes no element's root. |
| DisjointSets.DisjointSet.Union | td/SplitSource.php:10-21 | Merges exactly the two sets, however the random choice falls. |
| DisjointSets.RepIsRoot | td/SplitSource.php:3-8 | Following parent links ends in the element's representative. |
| DisjointSets.RootUnique | td/SplitSource.php:3-8 | That end is determined by the parents alone. |
| DisjointSets.CompressKeepsForest | td/SplitSource.php:5 | Path compression changes no representative. |
| DisjointSets.Unite | td/SplitSource.php:177-184 | After the loops two functions share a root if and only if a chain of shared dependency names links them. |
| SplitFile.CollectSets | td/SplitSource.php:185-195 | Each set lists exactly the functions of one root, in file order, with the sum of their lengths. |
| SplitFile.ArsortIsStable | td/SplitSource.php:196 | Sorting keeps sets of equal size in their former order. |
| SplitFile.AllIdsWritten | td/SplitSource.php:198-204 | The files together hold each function of the groups exactly once. |
| SplitFile.GroupInFile | td/SplitSource.php:198-204 | Each set stands in its file in one piece, behind all sets placed there earlier. |
| SplitFile.LoadIsTextSize | td/SplitSource.php:198-204 | The size kept for a file is the size of the text written to it. |
| SplitFile.Split | td/SplitSource.php:152-204 | Refuses exactly when there are fewer functions than files; otherwise classes of linked functions stay whole, each function is in exactly one file, and packing is greedy on classes sorted longest first. |
| SplitFile.SplitIsBalanced | td/SplitSource.php:196-204 | The produced files meet the longest-first bound against every other distribution of the same groups. |
| Packing.ListBound | td/SplitSource.php:200-204 | m · load ≤ total + (m − 1) · largest group, in whatever order the groups come. |
| Packing.WithinTwiceBest | td/SplitSource.php:200-204 | Hence every file is within 2 − 1/m of any possible split. |
| Packing.BigLastFits | td/SplitSource.php:196-204 | A last group over a third of an achievable bound still finds a file within that bound. |
| Packing.LongestFirstBound | td/SplitSource.php:196-204 | Longest first: every file is within 4/3 − 1/(3m) of any possible split. |
| Packing.FirstMin | td/SplitSource.php:201 | Finds the first of the smallest files. |
| Packing.Pack | td/SplitSource.php:200-204 | The packing loop is greedy and its sizes are the loads. |
| BigNum.BinaryRoundTrip | td/tdutils/td/utils/BigNum.cpp:87-89 | The minimal big-endian form is read back as the number and has no leading zero. |
| BigNum.StringRoundTripIff | td/tdutils/td/utils/BigNum.cpp:87-89 | A string survives reading and writing exactly when it has no leading zero byte. |
| BigNum.ExactRoundTrip | td/tdutils/td/utils/BigNum.cpp:202-213 | The zero-padded form is read back as the same number. |
| BigNum.ExponentsCommute | td/td/mtproto/DhHandshake.cpp:212-217 | Modular powers of modular powers do not depend on the order of the exponents. |
| DhHandshake.KeyFits | td/td/mtproto/DhHandshake.cpp:219-220 | With a modulus of at most 2048 bits the key always fits its 256 bytes. |
| DhHandshake.KeysAgree | td/td/mtproto/DhHandshake.cpp:128-176 | Two parties with the same g and p that send each other `get_g_b` compute the same 256-byte key and id, for all secret exponents. |
| DhHandshake.KeyIsPower | td/td/mtproto/DhHandshake.cpp:212-223 | The key bytes, read as a number, are g^(ab) mod p. |
| DhHandshake.KeyIdBytes | td/td/mtproto/DhHandshake.cpp:225-229 | The identifier is bytes 12 to 19 of the key's digest. |
| DhHandshake.CheckedNumbersAreProper | td/td/mtproto/DhHandshake.cpp:95-126 | Numbers that pass the checks lie strictly between 1 and p − 1, and match the announced hash if there was one. |
| DhHandshake.ChecksPassIff | td/td/mtproto/DhHandshake.cpp:95-126 | The checks pass exactly for a modulus of 2048 bits with a good verdict, unless skipped, and both public numbers at least 2^1984 away from 0 and from it. |
| DhHandshake.HashDecides | td/td/mtproto/DhHandshake.cpp:151-190 | The number that arrives is refused for its hash exactly when one was announced and its digest is another. |
| DhHandshake.AbortsIff | td/td/mtproto/DhHandshake.cpp:95-100 | The checks end the program exactly when the configuration check is skipped, the hash is in order and the modulus is not of 2048 bits. |
| DhHandshake.RestoreUndoesSave | td/td/mtproto/DhHandshake.h:52-98 | A saved exchange is restored in full, except that an announced hash of g_a is forgotten. |
| DhHandshake.RestoredIsSameIff | td/td/mtproto/DhHandshake.h:52-98 | The restored exchange is the saved one exactly when no hash was announced; it never reports a hash mismatch. |
| DhHandshake.MismatchIsForgotten | td/td/mtproto/DhHandshake.h:52-98 | For any digest function, an exchange whose announced hash does not match is refused by the checks before it is saved and not for the hash after it is loaded. |
| DhHandshake.DhHandshake.SetConfig | td/td/mtproto/DhHandshake.cpp:128-143 | In place: prime, generator, exponent and g^b mod p. |
| DhHandshake.DhHandshake.SetGAHash | td/td/mtproto/DhHandshake.cpp:151-156 | In place: announces the hash, not yet matched. |
| DhHandshake.DhHandshake.SetGA | td/td/mtproto/DhHandshake.cpp:158-166 | In place: stores g_a and compares its digest with the announced hash. |
| DhHandshake.DhHandshake.RunChecks | td/td/mtproto/DhHandshake.cpp:183-195 | Hash, configuration (size of the modulus first) and range checks in the program's order, for a modulus of any size. |
| DhHandshake.DhHandshake.GenKey | td/td/mtproto/DhHandshake.cpp:219-229 | The key and identifier of the specification. |
| Handshake.StepKeepsInv | td/td/mtproto/Handshake.cpp:327-345 | Every event keeps: exactly the answers that lead to the phase were accepted since the last start, with the right nonces, and the last query is the one whose answer is awaited. |
| Handshake.EveryRun | td/td/mtproto/Handshake.cpp:86-345 | So in every run with any errors, disconnects and resumptions. |
| Handshake.ResumeResends | td/td/mtproto/Handshake.cpp:299-313 | In every waiting phase of every run the last query is the complete request for the awaited answer; `resume` resends exactly it and changes nothing. |
| Handshake.FinishMeans | td/td/mtproto/Handshake.cpp:163-277 | A finished run accepted, since its last start, one resPQ, one DH answer and one confirmation with that start's nonce and that resPQ's server nonce; its key is g_a^b mod p in 256 bytes, with the identifier, confirmation bytes, salt bits, lifetime and clock difference that follow from those three messages. |
| Handshake.AbortsIff | td/td/mtproto/Handshake.cpp:327-338 | A message stops the program exactly when none is expected or an otherwise accepted DH answer has modulus zero. |
| Handshake.ZeroModulusEndsRun | td/td/mtproto/Handshake.cpp:223-226 | A run of three events, start, resPQ, DH answer with an empty prime, that the last one ends. |
| Handshake.RefusalStartsOver | td/td/mtproto/Handshake.cpp:340-343 | A refused message sends nothing, leaves no query and the full time, and the next `resume` starts afresh. |
| Handshake.DropStartsOver | td/td/mtproto/Handshake.cpp:61-66 | So do a dropped connection and a `resume` after the end. |
| Handshake.ConfirmedIff | td/td/mtproto/Handshake.cpp:256-277 | A confirmation is accepted exactly with both nonces and the 16 bytes computed from the new nonce and the key. |
| Handshake.ResPqAcceptedIff | td/td/mtproto/Handshake.cpp:86-161 | Exactly which resPQ is accepted, the state after it, and the request sent, which can be read back. |
| Handshake.DhAcceptedIff | td/td/mtproto/Handshake.cpp:163-254 | Exactly which DH answer is accepted, in numbers, and the request sent, which can be read back. |
| Handshake.InnerSizeExact | td/td/mtproto/Handshake.cpp:113-131 | The size compared with 144 is that of the serialized inner data. |
| Handshake.TimeoutCounts | td/td/mtproto/Handshake.cpp:56-59 | The time runs from the call that set it: six tenths of it for the resPQ, eight tenths for the DH answer. |
| Handshake.QueryRoundTrip | td/td/mtproto/Handshake.cpp:287-293 | Each of the three requests is read back in full: nonces, factors, fingerprint and encrypted data. |
| Handshake.HonestServerHasTheKey | td/td/mtproto/Handshake.cpp:225-230 | If the accepted DH answer carries an honest server's number, client and server hold the same key and id. |
| Handshake.AuthKeyHandshake.SendQuery | td/td/mtproto/Handshake.cpp:287-293 | In place: remembers the encoded query and sends exactly it. |
| Handshake.AuthKeyHandshake.HandleResPq | td/td/mtproto/Handshake.cpp:86-161 | In place: equals the specification, including fields changed before an error. |
| Handshake.AuthKeyHandshake.HandleServerDhParams | td/td/mtproto/Handshake.cpp:163-254 | In place: equals the specification, including fields changed before an error. |
| Handshake.AuthKeyHandshake.HandleDhGenResponse | td/td/mtproto/Handshake.cpp:256-285 | In place: equals the specification. |
| Handshake.AuthKeyHandshake.ReceiveMessage | td/td/mtproto/Handshake.cpp:327-345 | In place: dispatch by phase, and an error clears everything. |
| Handshake.AuthKeyHandshake.StartHandshake | td/td/mtproto/Handshake.cpp:315-325 | In place: a new nonce and query, or an error that clears when already started. |
| Handshake.AuthKeyHandshake.ResumeHandshake | td/td/mtproto/Handshake.cpp:299-313 | In place: start, clear or resend. |

## Left out

- HashTable.HashTable.GetHtPos: the call of one undisturbed thread; concurrent calls are the state machine of `ProbeTable`, where the table is a sequence and not an array.
- BufferQueue.Queue.DoGet: the writer's part while the reader polls is given as the batches it puts before each poll, at least one of them with an item, as otherwise the loop never ends; full interleavings are those of `Run`.
- EchoProtocol.StepKeepsInv: the loops of client and server are steps of a state machine; `EchoSystem` refines it to single accesses, with a thread's work on its own variables joined to the access that moves a message.
- MessageIds.CreatedValid: doubles are reals, so the rounding of `server_time * 2^32` and of the identifier divided by 2^32 is not modelled; the same holds for the clock estimate and the salts.
- AuthData.AuthData.NextMessageId: assumes a server clock between 1970 and the end of the 64-bit identifier range, where the conversion to an unsigned integer is defined.
- AuthData.AuthData.SetFutureSalts: the library sort is given by any result that is a permutation in the comparison's order.
- CryptoPacket.PacketRoundTrip: the service objects arrive serialized and query data already compressed; message counts stay below 2^31 and bodies below 2^32 bytes.
- CryptoPacket.EveryPacketInOrder: assumes room in the 64-bit word for the identifiers the session draws.
- CryptoPacket.NumberAll: the parts draw their numbers in one loop in the order of the constructor's members, all at one clock reading.
- TlRoundTrip.FetchUndoesStore: `fuel` bounds the nesting of objects, any value from the nesting depth of the object on gives the same result; conditional `#` fields are excluded, as the generated store leaves their variable unset when the field is absent.
- TlReread.StoreUndoesFetch: the input is shorter than 2^31 bytes, as otherwise a vector of 2^31 elements without bytes could be read that the store half refuses.
- TlGenerator.ProgramsAgree: fields of variable type (functions that wrap other functions) are outside the model; the front end that marks complex types and counts constructors is given by `WellFormed`.
- TlStrings.StringRoundTrip: `TlBufferParser`, which replaces zero bytes and cuts invalid UTF-8 in strings, is not modelled, nor is the text of the generated C++, JNI, .NET, Java and documentation.
- SplitFile.Split: starts from the lengths of the functions and the functions per dependency name; the regular expressions and the line scanning that find them, and the pruning of headers, are not modelled.
- Handshake.EveryRun: parsing, RSA, AES-IGE, factorization and the verdict on the prime are inputs; each event reads the clock once; taking the key out of a finished handshake is not an event.
- DhHandshake.CheckedNumbersAreProper: the residue table of `check_config` and primality are one given verdict; that the table matches quadratic residues is number theory outside the code.
- DhHandshake.KeysAgree: hashes are arbitrary functions, modular powers are those of mathematics and not of the big-number library.
- Weak memory ordering: all atomic accesses are sequentially consistent, and the eventfd counter does not saturate.
- Stack walking, alignment, real memory blocks and `backtrace` fields of the profiler; `memalign`, `calloc` and the operators `new` and `delete` only forward to what is modelled.
- `FdQueue`, the pipe and ring variants next to the modelled queues, and `client_run2`, which sends several queries per connection at once.
- Actors, connections and transports around the session and the handshake, logging, the Flutter application, the proxies and the remaining benchmarks.
