# Packet buffer ownership: a verified model

This project models, in Dafny, the parts of a zero-copy networking library that decide who owns a packet
buffer and how packed header state is laid out, and proves properties of that model.

* **The free-buffer queue** (`bags`, `queue_*`, `mpsc`, `channel`). Free buffers are recycled through a
  multi-producer queue: every producer handle has a local batch of up to 16 elements, every thread an SPSC ring
  of 16-wide groups, a locked registry lists the rings, and the consumer has a cache of 1024 elements.
  `QueueMachine` is the queue as a state machine of atomic steps over any number of threads, handles and clones.
  `Mpsc` is the program's own form (objects updated in place), and `Channel` proves that every call of the
  program is a run of machine steps, so that what is proved of all runs holds of the program.
* **The two backends** (`holdings`, `netmap_*`, `xsk_rings`, `fill_ring`, `af_xdp_*`). `NetmapMachine` and
  `AfXdpMachine` say where every buffer is over whole runs of receives, refills, sends, flushes, token and payload
  moves, context clones and drops, and kernel moves. `NetmapRing`, `NetmapSock`, `XskRings` and `AfXdpSock` are the
  imperative rings and sockets. Their calls are runs of the machines: `NetmapSock.Sock.RecvToken` with
  `NetmapMachine.RecvIsRun`; and `AfXdpRuns`, which relates the values of a socket (`AfXdpView`) to a machine state.
* **Tokens** (`token`). Linearity and pool isolation over any number of sockets of any backends.
* **Reference-counted packet buffers** (`mbuf_*`, `linked_lists`, `refcnt_race`). Attach, detach, prefree and
  free over direct, indirect and external-buffer mbufs; segment chains with 16- and 32-bit lengths; and the
  read-then-subtract protocol under every interleaving of threads.
* **Bit packing** (`bits`, `bitfield`, `packing`, `offload`, `l2tp`). The generated bit-field unit in both byte
  orders, and its agreement with shift-and-or packing.

Counting is by a predicate: `Count(s, p)` is how many elements of `s` satisfy `p`. A statement "for every `p`"
or "for every value `v`" about counts is a statement about bags.

`hide` statements keep definitions that a proof does not need away from the solver; they assume nothing.

## What is false of the code, and exactly when

* A send of the AF_XDP backend takes its transmit slot before it looks for a free frame. Without one the slot
  keeps an old address and is submitted all the same: that frame is then in two places
  (`AfXdpMachine.SendWithoutFrameDuplicates`). A send keeps every frame in one place if and only if a free
  frame is in the cache or in any ring (`AfXdpCalls.SendKeepsPartitionIff`).
* The comment in `refill_fill_ring` reads the argument of `nb_free` as an upper bound; the ring may report more.
  The refill fails if and only if it reports more entries than there are frames to be had
  (`AfXdpSock.UmemManager.RefillFillRing`); at the end of `create`, with the default fill ring of 2048 entries, it
  succeeds if and only if there are fewer than 16 frames or at least 2048 (`AfXdpView.CreateSucceedsIff`).
* A refill that fails leaves its entries reserved. The next one that succeeds submits as many entries as it has
  reserved, but from the oldest reserved one on: entries the failed refill did not write go to the kernel with
  the address they had before, and that frame is then in two places (`AfXdpMachine.SubmitUnwrittenDuplicates`,
  with the example `FillRings.RefillExample`). A refill keeps every frame in one place if and only if it fails or
  all old reservations it submits were written (`AfXdpCalls.RefillKeepsPartitionIff`); so it does when there are
  none and the ring reports no more entries than there are free frames, which can be checked before the call, and
  then it leaves none (`AfXdpRuns.CleanRecvKeeps`).
* A refill that fails when the kernel has emptied the fill ring, and that reserves all of it, is a dead end: the
  kernel gets no frame again, while every later refill reports success (`AfXdpCalls.FailedRefillSticksIff`,
  `AfXdpMachine.StuckForever`, `AfXdpView.StuckRefillDoesNothing`).
* `complete_tx` ends with a flush, which loses nothing if and only if the batch and the completions together make
  whole groups of 16 (`QueueBursts.BurstLosesNothingIff`).
* The debug assertions of the bit-field unit let a field run over the end of its storage by up to seven bits
  (`Bitfields.AssertionsTooWeak`, with an example).
* The documentation of `Token` says that dropping one panics in debug builds; it has no destructor, so the buffer
  is lost. The machines have an event for it, and count the buffer as lost.
* Pool ids are 32-bit counters, one for each backend, and a token does not say of which backend it is: a context
  accepts a token if and only if its number in its own backend differs from that of the receiving socket in its
  own by a multiple of 2^32 (`Tokens.AcceptedIff`). The first contexts of two backends accept each other's tokens
  (`Tokens.FirstContextsCollide`).
* `Payload::new` does not look at the pool id: a buffer received on one socket can be released to the pool of
  another (`Tokens.UncheckedReleasesElsewhere`, `Tokens.ConstructThenDrop`). Every release of a run goes to an
  agreeing context if and only if every unchecked construction, and every direct call of `Context::release`, used a
  context for which `check_token` holds, which the caller can test first (`Tokens.AlwaysAgreeingIffCareful`).
* `Token::new` and `Context::release` are public and safe, so a token can be copied, and a buffer released while its
  token is still held. Every receive has exactly one owner if and only if the run did neither
  (`Tokens.OneOwnerIffNoCopies`).
* The flags have a frame size, but the area is registered without a configuration, so the kernel's chunks have its
  default size whatever the flags say. With smaller frames two frames lie in one chunk: every chunk is in one place
  at most if and only if there is at most one frame or the frame size is at least that of a chunk
  (`AfXdpMachine.ChunkInOnePlaceIff`).
* The two bytes of the L2TPv2 flags word, sent as they are stored, have the flags in the wrong octet
  (`L2tp.FlagsOnTheWire`); after a byte swap they are where the standard wants them (`L2tp.FlagsAfterByteSwap`).
* A 16-bit reference counter wraps: adding or giving up references keeps the counters right if and only if the
  counter stays between 1 and 65535 (`MbufRuns.AdjustKeepsIff`, `MbufRuns.AdjustExtKeepsIff`, `MbufRuns.AttachKeepsIff`).

## Model

| member | source | states |
|---|---|---|
| QueueMachine.StepInv | mpsc/src/lib.rs:66-166 | Every atomic step of any thread keeps the structural invariant: registered rings are exactly those of live per-thread producers and listed once, rings hold whole groups within capacity, batches hold at most 16, the cache at most 1024. |
| QueueMachine.RunInv | mpsc/src/lib.rs:66-166 | The invariant holds after every run of registrations, pushes, flushes, clones, drops and drains. |
| QueueMachine.ToSimdGroups | mpsc/src/lib.rs:154-166 | Cutting a batch gives its full groups of 16 in order; groups followed by the remainder are the batch. |
| QueueMachine.WithoutRemovesOne | mpsc/src/consumer_registry.rs:41-50 | `retain` on a duplicate-free registry deletes exactly the entry asked for and keeps the order. |
| QueueAccounting.StepCounts | mpsc/src/lib.rs:93-166 | For every predicate, one step changes the number of elements held by exactly what it pushes and pops. |
| QueueAccounting.Accounting | mpsc/src/lib.rs:93-166 | In every reachable state pushed = popped + cached + in rings + in local batches + discarded, as bags. |
| QueueProperties.FlushAllOrNothing | mpsc/src/lib.rs:110-131 | A flush of a batch delivers it as one group or discards all of it; the remainder has length mod 16. |
| QueueProperties.LossCauses | mpsc/src/lib.rs:66-70 | The discarded history grows only by a flush remainder, a group refused by a full ring, or the groups left in an unregistered ring, and by exactly that. |
| QueueProperties.PushLosesIff | mpsc/src/lib.rs:93-105 | A push loses something if and only if it flushes a full batch into a full ring, and then exactly that batch; the batch then holds 1 to 16 elements. |
| QueueProperties.RingAndBatch | mpsc/src/lib.rs:119-130 | A handle's batch and any thread's ring together never hold more than what is inside the queue. |
| QueueProperties.FullBatchFindsRoom | mpsc/src/lib.rs:119-130 | While at most as many elements as the ring capacity are inside, the ring of every thread has room for a full batch. |
| QueueProperties.RegistryAgreement | mpsc/src/consumer_registry.rs:36-50 | In every reachable state the registered identities are distinct and are those of the live per-thread producers, one ring per thread. |
| QueueProperties.UnregisterDeletesOne | mpsc/src/lib.rs:66-70 | Dropping a per-thread producer removes exactly one entry, so the length assertion never fails. |
| QueueProperties.DrainedIsPrefix | mpsc/src/consumer_registry.rs:66-80 | In every reachable state what was drained from a registered ring is a prefix of what was enqueued, the rest is queued in order, and the cache holds at most 1024. |
| QueueProperties.DrainAllTakesPrefix | mpsc/src/consumer_registry.rs:66-80 | A whole drain moves exactly the longest prefix of the registry-ordered groups that fits, from any cache length, and leaves the others in order. |
| QueueProperties.DrainFills | mpsc/src/consumer_registry.rs:66-80 | After a whole drain, from any cache length, either no group is left in any ring or the cache of 1024 has no room for one more group of 16. |
| QueueProperties.SyncIsDrainAll | mpsc/src/consumer_registry.rs:53-80 | The ring-by-ring steps inside the lock together do what the whole drain does. |
| QueueProperties.SeedingDelivers | src/netmap/mod.rs:25-28 | Pushing n elements and flushing delivers exactly the first 16 * (n / 16) of them in order and discards the others. |
| QueueBursts.PushAllMoves | mpsc/src/lib.rs:93-131 | A burst of pushes moves the batch and the new elements towards the ring in order, losing nothing while the ring has room for all whole groups. |
| QueueBursts.BurstDelivers | src/af_xdp/mod.rs:168-188 | While the ring has room, a burst of pushes and a flush on a handle that already holds a batch delivers all whole groups in order and loses exactly the last (batch + n) mod 16. |
| QueueBursts.BurstLosesNothingIff | src/af_xdp/mod.rs:168-188 | While the ring has room, such a burst loses nothing if and only if batch and burst make whole groups. |
| QueueBursts.BurstInv | src/af_xdp/mod.rs:168-188 | A burst of pushes and a flush keep the queue's invariant. |
| QueueBursts.PushedEnd | src/af_xdp/mod.rs:168-188 | Pushing one by one, the ring being created when first needed, and flushing is the burst. |
| QueueSupply.SyncKeepsSupply | mpsc/src/lib.rs:54-56 | A synchronisation keeps the number of obtainable elements and finds some whenever there are any. |
| QueueSupply.PopKeepsSupply | mpsc/src/lib.rs:40-45 | A pop fails if and only if cache and rings are empty, and otherwise takes one obtainable element. |
| QueueSupply.PopManyFinds | src/af_xdp/mod.rs:150-161 | n pops find exactly min(n, obtainable) elements. |
| Mpsc.SpscRing.EnqueueMany | mpsc/src/spsc.rs:18-20 | The ring takes as many groups as fit, in order, and reports how many; it leaves some out only when it is full. |
| Mpsc.SpscRing.Pop | mpsc/src/consumer_registry.rs:70-70 | Takes the oldest group. |
| Mpsc.ConsumerRegistry.Push | mpsc/src/consumer_registry.rs:36-38 | Appends a ring to the registry. |
| Mpsc.ConsumerRegistry.Remove | mpsc/src/consumer_registry.rs:41-50 | Deletes exactly one entry and its ring, keeping the order of the others. |
| Mpsc.PopAll | mpsc/src/consumer_registry.rs:66-80 | The loop over the registry computes the whole drain, taking only fronts of rings, and stops short of emptying them only when no further group fits. |
| Mpsc.DrainOneRing | mpsc/src/consumer_registry.rs:68-78 | Takes groups from the front of one ring until it is empty or less than 16 of the 1024 cache entries are left. |
| Mpsc.ToSimdGroupsOf | mpsc/src/lib.rs:154-166 | The loop computes the full groups. |
| Mpsc.Producer.Flush | mpsc/src/lib.rs:110-131 | Empties the batch, creating and registering the thread's ring on first use, and hands the groups to that ring. |
| Mpsc.Producer.Push | mpsc/src/lib.rs:93-105 | At most one flush, always of 16 elements, then the append; the retry loop ends. |
| Mpsc.Producer.Clone | mpsc/src/lib.rs:134-143 | A clone shares everything but its own empty batch. |
| Mpsc.Consumer.Sync | mpsc/src/lib.rs:54-56 | Refills the cache by a whole drain; a group is left in a ring only when no further group fits. |
| Mpsc.Consumer.Pop | mpsc/src/lib.rs:40-45 | Returns the newest cached element, synchronising an empty cache first. |
| Channel.Channel.Push | mpsc/src/lib.rs:93-105 | The program's push is the machine's push on the state the objects stand for. |
| Channel.Channel.Flush | mpsc/src/lib.rs:110-131 | The program's flush is the machine's flush. |
| Channel.Channel.Sync | mpsc/src/lib.rs:54-56 | The program's synchronisation is the machine's run of drain steps. |
| Channel.Channel.Pop | mpsc/src/lib.rs:40-45 | The program's pop is the machine's, with the same result. |
| Channel.Channel.Clone | mpsc/src/lib.rs:134-143 | A clone is the machine's new handle with an empty batch. |
| Channel.Channel.DropHandle | mpsc/src/lib.rs:145-152 | Dropping a handle flushes it first. |
| Channel.Channel.DropPerThread | mpsc/src/lib.rs:66-70 | Dropping a per-thread producer is the machine's unregistration. |
| Channel.Channel.DropAll | mpsc/src/lib.rs:145-152 | After the last handle every per-thread producer goes and the registry is empty. |
| NetmapRing.PendingIsInterval | netmap_rs/src/context.rs:340-366 | Stepping the head visits exactly the slots head, head + 1, ... modulo the ring size before the tail. |
| NetmapRing.PendingDistinct | netmap_rs/src/context.rs:340-366 | No slot of a ring is visited twice. |
| NetmapRing.NextTakesFirst | netmap_rs/src/context.rs:552-595 | A step yields exactly the first pending slot of all rings, and nothing if and only if none is pending; it changes no slot and no tail. |
| NetmapRing.YieldsPending | netmap_rs/src/context.rs:552-595 | n steps yield the first n pending slots, and nothing more once all were yielded. |
| NetmapRing.NothingPending | netmap_rs/src/context.rs:552-595 | Nothing is pending if and only if every bound ring from the current one on has its head at its tail. |
| NetmapRing.PendingFromDistinct | netmap_rs/src/context.rs:552-595 | Every slot between head and tail of every bound ring is pending, each once. |
| NetmapRing.SyncKeepsPending | netmap_rs/src/context.rs:498-514 | A synchronisation only adds pending slots behind those that were pending; afterwards every slot from the head up to the kernel's new tail is pending. |
| NetmapRing.MarkedBits | netmap_rs/src/context.rs:411-411 | Marking sets bit 0 of the flags and keeps every other bit. |
| NetmapRing.RawRing.Step | netmap_rs/src/context.rs:340-366 | Takes the slot at the head and advances head and cur with wrap-around, or does nothing at the tail. |
| NetmapRing.RawRing.UpdateBuffer | netmap_rs/src/context.rs:402-419 | Replaces the slot's buffer, sets bit 0 of its flags, and keeps every other bit, length and pointer. |
| NetmapRing.Receiver.Rewrite | netmap_rs/src/context.rs:402-419 | Rewriting a slot of one ring leaves every other slot and the cursor alone. |
| NetmapRing.Receiver.RxSync | netmap_rs/src/context.rs:509-514 | Every ring gets the kernel's tail; nothing else changes. |
| NetmapRing.Receiver.NextSlot | netmap_rs/src/context.rs:552-595 | The loop over the rings computes the receiver's step. |
| NetmapRing.Receiver.Reset | netmap_rs/src/context.rs:498-506 | Starts over at the first ring; tails change only by the synchronisation. |
| NetmapRing.Port.ExtraBuffers | netmap_rs/src/context.rs:87-108 | Collects the list of extra buffers, which are distinct, and empties it. |
| LinkedLists.ChainDistinct | netmap_rs/src/context.rs:88-104 | A linked list that ends visits no address twice. |
| NetmapMachine.SwapCounts | src/netmap/mod.rs:92-111 | A receive exchanges one slot's buffer against one free buffer; nothing else moves. |
| NetmapMachine.StepConserves | src/netmap/mod.rs:19-131 | No step creates, destroys or copies a buffer, and the number of buffers in slots is constant. |
| NetmapMachine.EveryBufferInOnePlace | src/netmap/mod.rs:92-131 | Over every run every buffer of the port is in exactly one of: slot, local batch, ring, cache, discarded, token, payload, lost. |
| NetmapMachine.SlotsNeverShare | src/netmap/mod.rs:92-111 | In every reachable state no two receive slots hold the same buffer. |
| NetmapMachine.OutsideIsExtra | src/netmap/mod.rs:20-35 | The number of buffers outside the slots is always the number of extra buffers. |
| NetmapMachine.FlushNeverRefused | src/netmap/mod.rs:22-22 | In every reachable state a full batch finds room in the ring of its thread, so its flush loses nothing. |
| NetmapMachine.RecvIsRun | src/netmap/mod.rs:119-131 | A whole receive call, with each of its exits, is a run of the machine's steps. |
| NetmapMachine.CreatedIsFresh | src/netmap/mod.rs:20-35 | The constructor brings the queue into the state the run theorems start from. |
| NetmapCalls.RecvOutcome | src/netmap/mod.rs:92-131 | No packet if and only if nothing is pending after starting over; no memory if and only if no buffer is to be had, the slot then being used up with its buffer in place; otherwise the slot's buffer and length are reported, the slot gets the free buffer and is marked as changed, and no other slot gets another buffer. |
| NetmapCalls.RecvReturns | src/netmap/mod.rs:119-131 | In terms of heads and tails: the call starts over if every ring from the current one on is exhausted, reports no packet if and only if the new tails are at the heads as well, and otherwise takes the head slot of the first ring with a packet. |
| NetmapSock.NewCtx | src/netmap/mod.rs:20-35 | The seeding loop and the flush deliver the first 16 * (n / 16) extra buffers in order and lose the rest. |
| NetmapSock.Ctx.Release | src/netmap/mod.rs:44-47 | Releasing a buffer is one push of the machine. |
| NetmapSock.Sock.TakeSlot | src/netmap/mod.rs:119-130 | Takes the next slot as the machine does, starting over once. |
| NetmapSock.Sock.RecvInner | src/netmap/mod.rs:92-111 | Exchanges the slot's buffer and returns its token, or reports no memory and leaves the slot's buffer. |
| NetmapSock.Sock.RecvToken | src/netmap/mod.rs:119-131 | The receive of the program is the machine's receive call; it returns each error exactly under its condition on heads, tails and free buffers, and else the token of the head slot of the first ring with a packet, with that slot's buffer and length and the socket's pool id. |
| NetmapSock.RecvIsReturned | src/netmap/mod.rs:92-131 | What a receive returns, said of heads, tails and slots only: each error with its exact condition, and else a token with the buffer and the length of the head slot of the first ring with a packet, and the pool id. |
| Tokens.ReleasedAtMostOnce | src/api/token.rs:50-115 | After every run that copies no token and releases none by hand, the buffer of every receive is in exactly one of token, payload, released, gone: released at most once, and exactly once when its life ended as a dropped payload. |
| Tokens.OneOwnerIffNoCopies | src/api/token.rs:50-115 | After any run every receive has exactly one owner if and only if the run copied no token and released none by hand. |
| Tokens.AcceptedIff | src/api/context.rs:14-28 | In every reachable state a context accepts a token if and only if the numbers of context and receiving socket in their backends agree modulo 2^32. |
| Tokens.ReleasedToOwnPool | src/api/context.rs:14-28 | Over careful runs a buffer is only released to a context whose number agrees modulo 2^32 with that of the socket that received it; with at most 2^32 sockets and the same backend, only to that socket. |
| Tokens.AlwaysAgreeingIffCareful | src/api/token.rs:65-72 | Throughout a run every payload and every release has a context with the pool id of its token if and only if every unchecked construction and every release by hand used a context for which `check_token` holds (a careful run). |
| Tokens.ConstructThenDrop | src/api/token.rs:65-72 | Building a payload without the check and dropping it releases to an agreeing context if and only if the check would have succeeded. |
| Tokens.UncheckedReleasesElsewhere | src/api/token.rs:111-115 | A buffer received on the first socket of a backend, made a payload of the second without the check and dropped, is released to the second. |
| Tokens.OwnSocketIsUnique | src/netmap/mod.rs:21-23 | The sockets of one backend have different numbers. |
| Tokens.FirstContextsCollide | src/af_xdp/mod.rs:31-39 | The first contexts of two backends release each other's buffers. |
| Tokens.SamePool | src/netmap/mod.rs:21-23 | Two contexts have equal ids if and only if their numbers in their backends differ by a multiple of 2^32. |
| Tokens.WrappedIdsCollide | src/af_xdp/mod.rs:31-39 | A context created 2^32 later in a backend accepts the tokens of an earlier one. |
| Tokens.IntoTokenRoundTrip | src/api/token.rs:65-82 | Converting a payload to a token and consuming it with the same context releases nothing and gives the payload back if the context agrees; a payload built without the check loses its token otherwise. |
| XskRings.ProdRing.NbFree | libxdp-sys/xdp-tools/headers/xdp/xsk.h:92-110 | Reports the free entries known if they are at least as many as asked for, and otherwise all that the kernel has freed, which may be more. |
| XskRings.ProdRing.Reserve | libxdp-sys/xdp-tools/headers/xdp/xsk.h:124-133 | Reserves all or nothing, and nothing exactly when fewer entries are free by the kernel's position. |
| XskRings.ProdRing.Submit | libxdp-sys/xdp-tools/headers/xdp/xsk.h:135-141 | Moves the producer position by exactly the number submitted. |
| XskRings.TxRing.Sync | src/af_xdp/wrapper.rs:362-368 | Submits exactly the slots handed out since the last submission. |
| XskRings.TxRing.Advance | src/af_xdp/wrapper.rs:371-400 | Hands out slots in reservation order, keeps reserved = submitted + to flush + cached, and submits only what was handed out; nothing is handed out only if fewer than 64 entries are free. |
| XskRings.TxRing.HandedOutIsFree | src/af_xdp/wrapper.rs:371-400 | The entry handed out is none that the kernel still has to read. |
| XskRings.TxRing.KernelConsumes | src/af_xdp/wrapper.rs:362-400 | The kernel may consume submitted entries at any moment between calls. |
| XskRings.ConsRing.Peek | libxdp-sys/xdp-tools/headers/xdp/xsk.h:112-153 | Reads as many of the entries known as were asked for; with none known, it looks at the kernel's position first. Nothing only when nothing is available. |
| XskRings.ConsRing.Get | libxdp-sys/xdp-tools/headers/xdp/xsk.h:79-85 | The entry of an unreleased position is what the kernel put there. |
| XskRings.ConsRing.Release | libxdp-sys/xdp-tools/headers/xdp/xsk.h:160-166 | Releases exactly that many entries, never one that was not read. |
| XskRings.ConsRing.KernelPut | src/af_xdp/wrapper.rs:260-291 | An arrival overwrites no entry that is still to be read. |
| XskRings.RxRing.FillReversed | src/af_xdp/wrapper.rs:271-284 | The reverse loop leaves the batch reversed in the cache. |
| XskRings.RxRing.Advance | src/af_xdp/wrapper.rs:260-291 | Returns the descriptors in exactly the kernel's order, each once, nothing only when all were returned; an empty cache is refilled with up to 32 of the entries known, which are released once. |
| XskRings.RxRing.Arrive | src/af_xdp/wrapper.rs:246-291 | Arrivals at any moment disturb neither the cache nor what was returned. |
| XskRings.Apart | libxdp-sys/xdp-tools/headers/xdp/xsk.h:55-85 | Positions less than one turn of the ring apart are different entries. |
| FillRings.SubmitCounts | src/af_xdp/mod.rs:163-163 | Submitting entries that were all written moves frames and copies none. |
| FillRings.FailedRefillLeaves | src/af_xdp/mod.rs:149-161 | A failed refill leaves its entries reserved, those it found no frame for with their old content. |
| FillRings.RefillCoversIff | src/af_xdp/mod.rs:149-163 | A refill submits written entries only, exactly when the old reservations it submits were written. |
| FillRings.NoReservationsLeftIff | src/af_xdp/mod.rs:129-165 | A refill leaves no reservation if and only if there was none and it found a frame for each entry. |
| FillRings.RefillExample | src/af_xdp/mod.rs:129-165 | A refill after a failed one hands the kernel an address the program has already received. |
| AfXdpMachine.StepConserves | src/af_xdp/mod.rs:123-303 | No step but a send without a frame or a submission of unwritten entries creates, destroys or copies a frame, for every predicate on frames. |
| AfXdpMachine.EveryFrameInOnePlace | src/af_xdp/mod.rs:123-252 | Over every run without such a step, with frames of the size of the kernel's chunks, every frame is in exactly one place: queue, discarded, fill ring (submitted or reserved), receive, transmit or completion ring, their caches, token, payload, lost. |
| AfXdpMachine.ChunksConserved | src/af_xdp/mod.rs:123-252 | For any frame size: over every run without such a step as many addresses lie in each chunk of the kernel as after seeding. |
| AfXdpMachine.ChunkInOnePlaceIff | src/af_xdp/mod.rs:305-321 | For any frame size: over every run without such a step no chunk of the kernel is in two places if and only if there is at most one frame or the frame size is at least that of a chunk. |
| AfXdpMachine.FlushNeverRefused | src/af_xdp/mod.rs:312-312 | In every state of such a run a full batch finds room in the ring of its thread. |
| AfXdpMachine.CompletionsFit | src/af_xdp/mod.rs:168-188 | In every state of such a run all waiting completions and the batch find room in the ring they are pushed to. |
| AfXdpMachine.SendWithoutFrameDuplicates | src/af_xdp/mod.rs:221-230 | A send without a free frame puts the frame of an old descriptor in two places. |
| AfXdpMachine.SubmitUnwrittenDuplicates | src/af_xdp/mod.rs:163-163 | A submission that covers an unwritten entry puts the frame of its old address in two places. |
| AfXdpMachine.PartitionKeptIff | src/af_xdp/mod.rs:129-285 | A step keeps every frame in one place if and only if it is neither of those two. |
| AfXdpMachine.AlwaysPartitionIff | src/af_xdp/mod.rs:123-303 | A whole run keeps every frame in one place throughout if and only if it has no such step. |
| AfXdpMachine.RunPartition | src/af_xdp/mod.rs:123-303 | Runs without such a step reach only states where every frame is in one place. |
| AfXdpMachine.StuckForever | src/af_xdp/mod.rs:129-165 | Once the kernel has nothing to receive into and the whole fill ring is reserved, no run ever receives again. |
| AfXdpMachine.CreatedIsFresh | src/af_xdp/mod.rs:312-321 | Seeding in the constructor gives the state the run theorems start from. |
| AfXdpCalls.RefillIsRun | src/af_xdp/mod.rs:129-165 | Every refill, with each of its exits and whatever earlier refills left, is a run. |
| AfXdpCalls.RefillKeepsPartitionIff | src/af_xdp/mod.rs:129-165 | A refill keeps every frame in one place if and only if it fails or the old reservations it submits were all written. |
| AfXdpCalls.RefillLeavesNoneIff | src/af_xdp/mod.rs:129-165 | No reservation is left if and only if there was none and the ring reported no more entries than frames, or there was no frame at all. |
| AfXdpCalls.FailedRefillPoisons | src/af_xdp/mod.rs:149-163 | After a failed refill the next one that submits beyond the entries it wrote duplicates a frame, whatever happens in between. |
| AfXdpCalls.FailedRefillSticksIff | src/af_xdp/mod.rs:149-161 | A failed refill is a dead end if and only if the kernel has emptied the ring and the call reserves all of it. |
| AfXdpCalls.SendKeepsPartitionIff | src/af_xdp/mod.rs:273-285 | A send that has a slot keeps every frame in one place if and only if a free frame was to be had. |
| AfXdpView.RefillAppends | src/af_xdp/mod.rs:149-163 | What a successful refill hands to the kernel, entry by entry: the frames taken, except for old reservations, which have what they had. |
| AfXdpView.RefillReserves | src/af_xdp/mod.rs:129-165 | With frames to be had a refill reserves the free entries it knows of if they cover the cache, and else every entry the kernel has freed; it fails if and only if these are more than the frames to be had, and then submits nothing. |
| AfXdpView.StuckRefillDoesNothing | src/af_xdp/mod.rs:144-147 | In the dead end a refill reports success and does nothing. |
| AfXdpView.FirstRefill | src/af_xdp/mod.rs:337-337 | On a fresh fill ring a refill succeeds if and only if there is no frame or a frame for every entry. |
| AfXdpView.CreateSucceedsIff | src/af_xdp/mod.rs:305-337 | With the default fill ring creation's refill succeeds if and only if there are fewer than 16 or at least 2048 frames. |
| AfXdpView.RecycledDelivers | src/af_xdp/mod.rs:168-188 | Recycling delivers the whole groups of the batch and the completions in order and loses the rest, while the ring has room. |
| AfXdpView.RecvReturns | src/af_xdp/mod.rs:259-271 | A token if and only if a descriptor was not returned yet, with its address and length and the socket's pool id; otherwise the refill error if and only if more entries were reserved than there are frames. |
| AfXdpView.FilledWith | src/af_xdp/mod.rs:221-252 | Filling a slot takes the newest cached frame, after a synchronisation of an empty cache, and writes it with the length; options and all other entries stay. It fails, writing nothing, if and only if there is no frame to be had. |
| AfXdpView.SendReturns | src/af_xdp/mod.rs:273-285 | No memory if and only if neither before nor after the flush a slot was reserved or 64 entries free; otherwise the next slot is handed out and filled, after submitting what was handed out if none was reserved. |
| AfXdpSock.UmemManager.FillReserved | src/af_xdp/mod.rs:150-161 | The loop writes the popped frames to the reserved entries in order and fails if and only if there are fewer frames than entries. |
| AfXdpSock.UmemManager.RefillFillRing | src/af_xdp/mod.rs:129-165 | The whole effect of a refill on queue and fill ring, with all exits; it fails if and only if the ring reports more entries than there are frames. |
| AfXdpSock.UmemManager.CompleteTx | src/af_xdp/mod.rs:168-188 | Recycles completions in order through handle 0, 64 of those known or all of them if fewer, exactly as a burst of pushes and a flush; every entry is released once. |
| AfXdpSock.Sock.RecvToken | src/af_xdp/mod.rs:259-271 | Returns the next descriptor in kernel order as a token; when there is none refills and reports which of the two errors. |
| AfXdpSock.Sock.SendInner | src/af_xdp/mod.rs:221-252 | Writes a free frame and the length to the slot, or fails and leaves the old address in it. |
| AfXdpSock.Sock.NextSlot | src/af_xdp/wrapper.rs:371-400 | Takes the next slot in order, submitting what was handed out when none is left; none only with fewer than 64 free entries. |
| AfXdpSock.Sock.TrySend | src/af_xdp/mod.rs:274-275 | One attempt: a slot and its filling, or no slot. |
| AfXdpSock.Sock.Flush | src/af_xdp/mod.rs:287-303 | Submits exactly what was handed out and recycles the completions. |
| AfXdpSock.Sock.Send | src/af_xdp/mod.rs:273-285 | Takes a slot, flushing once if none is to be had, and fills it; all exits. |
| AfXdpRuns.RefilledIsCall | src/af_xdp/mod.rs:129-165 | What the socket's refill does to queue and fill ring is what the machine's does, old reservations included. |
| AfXdpRuns.RecvIsRun | src/af_xdp/mod.rs:259-271 | Every receive is a run of the machine that adds to the program's tokens exactly the frame of the token returned and leaves payloads, lost and submitted frames alone. |
| AfXdpRuns.FlushIsRun | src/af_xdp/mod.rs:287-303 | Every flush is a run that copies no frame, submits everything handed out, in order, and leaves what the program holds alone. |
| AfXdpRuns.TryIsRun | src/af_xdp/mod.rs:274-275 | Every attempt to send is a run that submits everything handed out before if no reserved slot is left and nothing otherwise, leaves what the program holds alone, and copies no frame if and only if there is no slot or a free frame for it. |
| AfXdpRuns.WholeSendIsRun | src/af_xdp/mod.rs:273-285 | Every send is a run that leaves what the program holds alone, submits everything handed out before if no reserved slot is left and nothing otherwise, and copies no frame if and only if it does not report that there is no free frame. |
| AfXdpRuns.KernelReceiveIsStep | src/af_xdp/wrapper.rs:246-291 | The kernel receiving a packet into the fill ring's first entry is a step. |
| AfXdpRuns.KernelTransmitIsStep | src/af_xdp/mod.rs:168-188 | The kernel completing a frame is a step. |
| AfXdpRuns.RecvKeepsPartitionIff | src/af_xdp/mod.rs:259-271 | A receive keeps every frame in one place if and only if it finds a descriptor, its refill fails, or the old reservations it submits were written. |
| AfXdpRuns.CleanRecvKeeps | src/af_xdp/mod.rs:259-271 | Without old reservations and with no more entries reported than free frames a receive keeps every frame in one place and leaves no reservation. |
| AfXdpRuns.CreatedRepresents | src/af_xdp/mod.rs:305-337 | A created socket stands for the state the run theorems start from. |
| MbufHeap.AttachInv | dpdk-sys/wow.h:1165-1195 | Attaching, to a direct, indirect or external-buffer mbuf, keeps the counter invariant while the counter shared is below 65535. |
| MbufHeap.AddedWraps | dpdk-sys/wow.h:397-414 | Counter updates are addition modulo 2^16, for all operands. |
| MbufHeap.AttachExtInv | dpdk-sys/wow.h:1086-1103 | Attaching an external buffer keeps the counter invariant. |
| MbufHeap.TargetOk | dpdk-sys/wow.h:215-219 | The mbuf found by address arithmetic is direct and in use: depth one. |
| MbufHeap.DetachInv | dpdk-sys/wow.h:1255-1292 | Detaching keeps the invariant, including when it returns the direct mbuf to its pool or fires the callback. |
| MbufHeap.FreeInv | dpdk-sys/wow.h:1346-1404 | Freeing a segment keeps the invariant. |
| MbufRuns.CountersMeanReferences | dpdk-sys/wow.h:1165-1292 | In every reachable state each mbuf in use counts its handles plus its clones, every indirect mbuf points at a direct one in use, and each external buffer counts its users and references. |
| MbufRuns.InPoolIff | dpdk-sys/wow.h:1346-1404 | An mbuf is in its pool if and only if nothing refers to it, and then it has refcnt 1, next NULL, one segment and no attachment. |
| MbufRuns.CallbackOnce | dpdk-sys/wow.h:1204-1212 | An external buffer's callback has been called exactly once if nothing refers to it, and never otherwise. |
| MbufRuns.EverythingReturned | dpdk-sys/wow.h:1415-1427 | When the program holds nothing, every mbuf is clean in its pool and every callback was made. |
| MbufRuns.StepPuts | dpdk-sys/wow.h:1220-1235 | What a step puts into pools was in use, is put once, and into its own pool. |
| MbufRuns.ReturnedOncePerAllocation | dpdk-sys/wow.h:1346-1427 | Over every run an mbuf is put back exactly once for each allocation, the last time still to come while it is in use. |
| MbufRuns.AdjustKeepsIff | dpdk-sys/wow.h:397-414 | Adding or giving up references, by any 16-bit value, keeps the counters right if and only if the counter stays between 1 and 65535. |
| MbufRuns.AdjustExtKeepsIff | dpdk-sys/wow.h:495-507 | The same for the references to an external buffer. |
| MbufRuns.AttachKeepsIff | dpdk-sys/wow.h:1165-1195 | Attaching keeps the counters right if and only if the counter it increases is below its limit. |
| MbufOps.FreeAllLegal | dpdk-sys/wow.h:1415-1427 | Freeing the segments of a packet in order is legal at every segment, whatever is freed before. |
| MbufOps.FreeKeepsOther | dpdk-sys/wow.h:1415-1427 | Freeing one segment neither frees nor unlinks another the program holds. |
| MbufOps.Memory.RefcntUpdate | dpdk-sys/wow.h:397-414 | Both ways of updating add in 16 bits. |
| MbufOps.Memory.ExtRefcntUpdate | dpdk-sys/wow.h:495-507 | The same for external buffers. |
| MbufOps.Memory.RawFree | dpdk-sys/wow.h:623-630 | Puts the mbuf into its own pool. |
| MbufOps.Memory.FreeExtbuf | dpdk-sys/wow.h:1204-1212 | Drops one user and calls back at zero. |
| MbufOps.Memory.FreeDirect | dpdk-sys/wow.h:1220-1235 | Drops one reference of the direct mbuf and returns it clean at zero. |
| MbufOps.Memory.Detach | dpdk-sys/wow.h:1255-1292 | Drops the attachment and restores the mbuf's own buffer. |
| MbufOps.Memory.PrefreeSeg | dpdk-sys/wow.h:1346-1387 | Returns the mbuf, ready for its pool, if and only if this was the last reference, also when others drop references between the read and the subtraction. |
| MbufOps.Memory.FreeSeg | dpdk-sys/wow.h:1398-1404 | Counts down, or detaches, unlinks and returns. |
| MbufOps.Memory.Free | dpdk-sys/wow.h:1415-1427 | The loop frees every segment of the chain once, in order, and ends. |
| MbufOps.Memory.AttachExtbuf | dpdk-sys/wow.h:1086-1103 | Points the mbuf at the external buffer: `MbufSharing.ExternalBufferOnly` says what it is then. |
| MbufOps.Memory.Attach | dpdk-sys/wow.h:1165-1195 | Shares the buffer of the other mbuf, directly or through the mbuf that embeds it. |
| MbufOps.Memory.PktRefcntUpdate | dpdk-sys/wow.h:1499-1506 | Updates the counter of every segment once and changes nothing else. |
| MbufOps.Memory.AllocBulk | dpdk-sys/wow.h:929-969 | Allocates all or none; the unrolled loop resets every mbuf once and ends exactly at the count. |
| MbufOps.Memory.ResetMbuf | dpdk-sys/wow.h:862-892 | Resets every field the source resets. |
| MbufChain.EditKeepsPacket | dpdk-sys/wow.h:1588-1695 | Changing the data of one segment within its buffer loses no bits in any cast, keeps the packet invariant, and changes no other field of any mbuf. |
| MbufChain.PacketLengthFits | dpdk-sys/wow.h:1763-1786 | The total length of a packet is at most 65535 * 65535 and fits 32 bits. |
| MbufChain.PacketLengthIsBytes | dpdk-sys/wow.h:1763-1786 | The total length of a packet is the number of its bytes. |
| MbufChain.PrependKeeps | dpdk-sys/wow.h:1588-1604 | Prepend fails if and only if the headroom is short; else the packet's bytes gain those before the data. |
| MbufChain.AppendKeeps | dpdk-sys/wow.h:1621-1636 | Append fails if and only if the tailroom is short; else the packet's bytes gain those behind the data. |
| MbufChain.AdjustKeeps | dpdk-sys/wow.h:1652-1666 | Adj fails if and only if the first segment is short; else the packet's bytes lose the first ones. |
| MbufChain.TrimKeeps | dpdk-sys/wow.h:1682-1695 | Trim fails if and only if the last segment is short; else the packet's bytes lose the last ones. |
| MbufChain.PrependAdjust | dpdk-sys/wow.h:1588-1666 | Prepend and adj of the same length undo each other, in both orders. |
| MbufChain.AppendTrim | dpdk-sys/wow.h:1621-1695 | Append and trim of the same length undo each other, in both orders. |
| MbufChain.ChainKeeps | dpdk-sys/wow.h:1763-1786 | Chain fails if and only if there are more than 65535 segments; else the result is a packet with the segments, length and bytes of both, and no other field of any mbuf changes. |
| MbufChain.LastSeg | dpdk-sys/wow.h:1545-1551 | The walk ends at the last segment. |
| MbufChain.Prepend | dpdk-sys/wow.h:1588-1604 | Computes the prepended packet and the new start. |
| MbufChain.Append | dpdk-sys/wow.h:1621-1636 | Computes the appended packet and the start of the new bytes. |
| MbufChain.Adjust | dpdk-sys/wow.h:1652-1666 | Computes the adjusted packet and the new start. |
| MbufChain.Trim | dpdk-sys/wow.h:1682-1695 | Computes the trimmed packet. |
| MbufChain.Chain | dpdk-sys/wow.h:1763-1786 | Computes the chained packet or reports the overflow. |
| MbufSharing.CloneSeesSameBytes | dpdk-sys/wow.h:1165-1195 | A clone is a one-segment packet on exactly the bytes of the mbuf it is attached to, with the same buffer, header and flags; no other mbuf changes but for one counter. |
| MbufSharing.AttachDetach | dpdk-sys/wow.h:1165-1292 | Detaching undoes attaching: counters, pools and callbacks as before, and the mbuf has its own buffer back, empty, without flags. |
| MbufSharing.ExternalBufferOnly | dpdk-sys/wow.h:1086-1103 | After attaching an external buffer the mbuf is an empty segment whose buffer is exactly the given bytes, with offset 0; nothing else changes. |
| MbufSharing.AttachExtDetach | dpdk-sys/wow.h:1086-1292 | Detaching an external buffer gives the mbuf its own buffer back, empty, and leaves its other fields and all other mbufs alone; the callback is made if and only if that was the last use. |
| MbufSharing.DetachIndirect | dpdk-sys/wow.h:1207-1292 | Detaching an indirect mbuf writes only its buffer description, offset, length and flags, and one counter; the embedding mbuf goes to its pool, unlinked and otherwise as it was, if and only if that was its last reference. |
| MbufSharing.FreeDirectSegment | dpdk-sys/wow.h:1346-1427 | Freeing a direct segment unlinks it and puts it into its own pool, or gives up one reference; nothing else changes. |
| MbufSharing.FreshPacket | dpdk-sys/wow.h:862-913 | A freshly allocated mbuf is a packet of one empty segment with the default headroom, without flags or header; no other mbuf changes. |
| RefcntRace.ReleasedExactlyOnce | dpdk-sys/wow.h:1346-1387 | With a 16-bit counter that no addition takes beyond its limit, under every interleaving of any number of threads the mbuf is released exactly once, when the last handle goes. |
| RefcntRace.StepInv | dpdk-sys/wow.h:397-414 | A thread that reads 1 holds the only handle until it is done, so skipping the atomic operation is safe. |
| Bitfields.BitfieldUnit.GetBit | dpdk-sys/miao.c:19-30 | Reads the stored bit, in both byte orders. |
| Bitfields.BitfieldUnit.SetBit | dpdk-sys/miao.c:32-47 | Changes one stored bit and no other. |
| Bitfields.BitfieldUnit.Get | dpdk-sys/miao.c:49-65 | The accumulating loop computes the value of the field. |
| Bitfields.BitfieldUnit.Set | dpdk-sys/miao.c:67-81 | The loop stores the lowest bits of the value in the field and changes no other bit. |
| Bitfields.RoundTrip | dpdk-sys/miao.c:49-81 | Get after set gives the value modulo 2^width, for every offset, width and byte order. |
| Bitfields.NonInterference | dpdk-sys/miao.c:49-81 | Set does not change any disjoint field. |
| Bitfields.WriteBack | dpdk-sys/miao.c:49-81 | Writing back what a field holds changes nothing. |
| Bitfields.AssertionsTooWeak | dpdk-sys/miao.c:50-52 | Under the debug assertions a field is in the storage if and only if it ends within it; they allow up to seven bits more. |
| Bitfields.AssertionsTooWeakExample | dpdk-sys/miao.c:68-70 | Offset 4, width 5 in one byte passes the assertions and runs over the end. |
| Packing.PackedField | dpdk-sys/wow.h:1809-1820 | In a word packed by shift and or every field holds the bits of its own value: fields do not overlap. |
| Packing.PackedIsSum | dpdk-sys/wow.h:1809-1820 | Without overlap, or-ing is adding. |
| Packing.PackingsAgree | dpdk-sys/miao.c:49-81 | Storage filled field by field is the little-endian bytes of the shifted-or word. |
| Packing.WordBits | dpdk-sys/miao.c:19-30 | Bit j of the storage is bit j of the word from its least significant end, or on a big-endian target from its most significant end. |
| Packing.FieldIsShift | dpdk-sys/miao.c:19-65 | Reading a field is shifting and masking the word the target reads from the storage, in both byte orders. |
| Offload.TxOffloadPacks | dpdk-sys/wow.h:1809-1820 | The 64-bit shifts of the offload word lose nothing for values within their widths. |
| Offload.TxOffloadIsSum | dpdk-sys/wow.h:1809-1820 | The offload word is the sum of its fields times 1, 2^7, 2^16, 2^24, 2^40, 2^49 and 2^56: no bits overlap. |
| Offload.NewBitfield1 | dpdk-sys/miao.c:13330-13364 | The storage holds all six fields, each modulo its width. |
| Offload.L2Len | dpdk-sys/miao.c:13264-13266 | The accessor reads its field, bits 0 to 6; the other five are alike. |
| Offload.WordIsStorage | dpdk-sys/wow.h:1809-1820 | The little-endian bytes of the offload word are the storage of `new_bitfield_1` and the unused byte. |
| Offload.AccessorsReturnArguments | dpdk-sys/miao.c:13264-13322 | Each accessor, on the bytes of the word, returns the original argument. |
| L2tp.NewBitfield1 | dpdk-sys/miao.c:1909-1958 | The storage holds all nine fields, each modulo its width. |
| L2tp.AccessorsReturnArguments | dpdk-sys/miao.c:1808-1906 | Each accessor returns its argument modulo the width, in both byte orders. |
| L2tp.FlagsAfterByteSwap | dpdk-sys/miao.c:1808-1958 | The word a little-endian target reads, the header word after a byte swap, has T, L, S, O, P and the version at the bits of section 3.1 of RFC 2661. |
| L2tp.WireIsSwapped | dpdk-sys/miao.c:1779-1779 | Bit i of the word on the wire is bit (i + 8) mod 16 of the word read from the storage. |
| L2tp.FlagsOnTheWire | dpdk-sys/miao.c:1779-1779 | Sent as they are stored, the bytes have T at header bit 8 and the version in the first octet. |

## Left out

- Weak memory: each operation on an SPSC ring and each section under the registry lock is one atomic step.
- ringbuf, libxdp and the kernels beyond their interface: a ring is a bounded first-in first-out queue, a kernel a nondeterministic step.
- The registry's limit of 4096 rings: registering beyond it panics; runs that do are not legal.
- FFI and system effects: mapping, ioctl, sendto, program loading, page allocation.
- Index wrap at 2^32 of the AF_XDP ring positions: positions are unbounded. The ring sizes are powers of two, so `idx & mask` is the remainder.
- Kernel moves in the middle of an AF_XDP call: the positions a call reads are its parameters, and the kernel's own steps lie between calls.
- Copying of packet bytes into frames, and the requirement that a payload fits into its frame.
- MbufHeap.AttachInv: for counters below the 16-bit limit; `MbufRuns.AttachKeepsIff` says that this is needed.
- Tokens.ReleasedAtMostOnce: for runs that neither copy a token nor release one by hand; tokens forged with other fields than those of a token held, and descriptors made up for `Context::release`, are no event.
- Tokens.ReleasedToOwnPool: for careful runs; `Tokens.AlwaysAgreeingIffCareful` says that this is needed.
- NetmapMachine.EveryBufferInOnePlace: for programs that neither forge tokens nor call `Context::release` themselves, and whose payloads all pass the check of their pool.
- AfXdpMachine.EveryFrameInOnePlace: for such programs; the frame size is the kernel's chunk size (4096 by default), which `AfXdpMachine.ChunkInOnePlaceIff` frees.
- AfXdpMachine.CreatedIsFresh: the number of frames times the frame size is below 2^32, so that the cast of addresses to `u32` in `alloc_frame` loses nothing.
- RefcntRace.ReleasedExactlyOnce: for additions below the 16-bit limit; `MbufRuns.AdjustKeepsIff` says that this is needed.
- Buffers exchanged between receive slots by the kernel itself, as netmap pipes do: the slots' buffers change only by receives.
- The slot lookup of the netmap ring iterator returning nothing: the kernel keeps head and tail within the ring.
- The netmap transmitter's cursor and the copying send of netmap, which moves no buffer.
- The wrappers over DPDK in Rust, pcap, metadata, hints, errors and the benchmark programs.
- Pinned external-buffer pools and functions that are only declared (clone, copy, linearize).
- Header fields copied by attach, as one opaque value; IO addresses.
- Statistics of the AF_XDP socket.
- Setters of single bit-field accessors, which are the field writes already modelled.
