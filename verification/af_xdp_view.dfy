/** What the calls of the AF_XDP socket do to the queue and the rings, as relations between their values. */
module AfXdpView {
  import opened Bags
  import opened QueueMachine
  import opened QueueProperties
  import opened QueueBursts
  import opened QueueSupply
  import opened XskRings
  import T = Tokens

  const COMPLETE_BATCH: nat := 64
  const FILL_SIZE: nat := 2048

  /** Ring entries after the addresses `xs` were written from position `idx` on. */
  function Written(entries: seq<Desc>, idx: nat, xs: seq<int>): (r: seq<Desc>)
    requires |entries| > 0
    ensures |r| == |entries|
  {
    if xs == [] then entries else
    Written(entries, idx, xs[..|xs| - 1])[Entry(idx + |xs| - 1, |entries|) := Desc(xs[|xs| - 1], 0, 0)]
  }

  /** The addresses of `n` descriptors of a stream. */
  function Stretch(stream: seq<Desc>, lo: nat, n: nat): (r: seq<int>)
    requires lo + n <= |stream|
    ensures |r| == n
  {
    seq(n, k requires 0 <= k < n => stream[lo + k].addr)
  }

  /** The addresses at the positions from `lo` to `hi`. */
  function Addresses(entries: seq<Desc>, lo: nat, hi: nat): seq<int>
    requires |entries| > 0 && lo <= hi
  {
    seq(hi - lo, k requires 0 <= k < hi - lo => entries[Entry(lo + k, |entries|)].addr)
  }

  lemma {:induction false} WrittenAt(entries: seq<Desc>, lo: nat, idx: nat, xs: seq<int>, i: nat)
    requires |entries| > 0 && lo <= idx && lo <= i < idx + |xs| <= lo + |entries|
    ensures Written(entries, idx, xs)[Entry(i, |entries|)].addr ==
      if i < idx then entries[Entry(i, |entries|)].addr else xs[i - idx]
  {
    hide Entry;
    if xs != [] {
      var last := idx + |xs| - 1;
      if i < last {
        Apart(i, last, |entries|);
        WrittenAt(entries, lo, idx, xs[..|xs| - 1], i);
      }
    }
  }

  datatype FillView = FillView(entries: seq<Desc>, producer: nat, cachedProd: nat, cachedCons: nat, size: nat)

  /**
    What one refill does to the queue and the fill ring.  Nothing is done when no free frame or no free entry
    is found.  Otherwise as many entries are reserved as the ring reports, frames are written to them in order,
    and all are submitted if there were frames for all of them; else the call fails and submits nothing.
  */
  ghost predicate Refilled<R>(q: Queue<R>, f: FillView, consumer: nat, q': Queue<R>, f': FillView, ok: bool)
    requires CanPop(q) && |f.entries| > 0
  {
    var q1 := Looked(q);
    var available := FreeEntries(f.cachedProd, f.cachedCons, f.size, consumer, |q1.cached|);
    && f'.size == f.size
    && if |q1.cached| == 0 || available <= 0 then
         ok && q' == q1 && f'.entries == f.entries && f'.producer == f.producer && f'.cachedProd == f.cachedProd
       else
         var (q2, xs) := PopMany(q1, available);
         && q' == q2 && f'.entries == Written(f.entries, f.cachedProd, xs)
         && f'.cachedProd == f.cachedProd + available
         && (ok <==> available <= Obtainable(q))
         && f'.producer == f.producer + (if ok then available else 0)
  }

  /** The positions of a fill ring: submitted, reserved, and what the kernel has released. */
  ghost predicate FillViewOk(f: FillView, consumer: nat) {
    |f.entries| == f.size > 0 && consumer <= f.producer <= f.cachedProd <= f.cachedCons <= consumer + f.size
  }

  /** How many entries a refill reserves: what the ring reports, unless there is nothing to be had. */
  ghost function Reported<R>(q: Queue<R>, f: FillView, consumer: nat): (n: nat)
    requires CanPop(q) && FillViewOk(f, consumer)
    ensures f.cachedProd + n <= consumer + f.size
    ensures FreeEntries(f.cachedProd, f.cachedCons, f.size, consumer, |Looked(q).cached|) >= 0
    ensures Looked(q).cached != [] ==> n == FreeEntries(f.cachedProd, f.cachedCons, f.size, consumer, |Looked(q).cached|)
  {
    if Looked(q).cached == [] then 0 else FreeEntries(f.cachedProd, f.cachedCons, f.size, consumer, |Looked(q).cached|)
  }

  /**
    What a successful refill hands to the kernel, behind what the kernel had: entry by entry from the old producer
    on, the frame written by this call if the entry was reserved by it, and what the entry held before if not.
    Without old reservations these are exactly the frames taken.
  */
  lemma {:induction false} RefillAppends<R>(q: Queue<R>, f: FillView, consumer: nat, q': Queue<R>, f': FillView)
    requires CanPop(q) && FillViewOk(f, consumer) && Refilled(q, f, consumer, q', f', true)
    ensures var n := Reported(q, f, consumer); var xs := PopMany(Looked(q), n).1;
      && f'.producer == f.producer + n && |f'.entries| == |f.entries| && |xs| == n
      && Addresses(f'.entries, consumer, f.producer) == Addresses(f.entries, consumer, f.producer)
      && (forall k :: 0 <= k < n ==>
            Addresses(f'.entries, f.producer, f'.producer)[k] == (
              if f.producer + k < f.cachedProd then f.entries[Entry(f.producer + k, f.size)].addr
              else xs[f.producer + k - f.cachedProd]))
      && (f.producer == f.cachedProd ==> Addresses(f'.entries, f.producer, f'.producer) == xs)
  {
    hide Inv, SyncCall, PopCall, Obtainable, Entry;
    var n := Reported(q, f, consumer);
    var q1 := Looked(q);
    PopManyFinds(q1, n);
    var xs := PopMany(q1, n).1;
    if n == 0 { assert PopMany(q1, 0) == (q1, []); }
    hide Looked, PopMany;
    assert f'.entries == Written(f.entries, f.cachedProd, xs);
    forall i | consumer <= i < f.cachedProd + n
      ensures f'.entries[Entry(i, f.size)].addr == if i < f.cachedProd then f.entries[Entry(i, f.size)].addr else xs[i - f.cachedProd]
    {
      WrittenAt(f.entries, consumer, f.cachedProd, xs, i);
    }
  }

  /** A refill fails exactly when the ring reports more entries than there are frames to be had, and asked for some. */
  lemma RefillFailsIff<R>(q: Queue<R>, f: FillView, consumer: nat, q': Queue<R>, f': FillView, ok: bool)
    requires CanPop(q) && FillViewOk(f, consumer) && Refilled(q, f, consumer, q', f', ok)
    ensures !ok <==>
      (&& Looked(q).cached != []
       && FreeEntries(f.cachedProd, f.cachedCons, f.size, consumer, |Looked(q).cached|) > Obtainable(q))
    ensures FreeEntries(f.cachedProd, f.cachedCons, f.size, consumer, |Looked(q).cached|) <= |Looked(q).cached| ==> ok
  {
    hide Inv, SyncCall, PopMany, Written;
    assert |Looked(q).cached| <= Obtainable(Looked(q));
  }

  /**
    How many entries a refill reserves, and what it submits.  With no frame to be had it does nothing.  Otherwise it
    reserves the free entries it knows of, if they cover what the cache holds after a synchronisation of an empty
    one; and if they do not, it looks at the kernel's position and reserves every entry that is free.  It fails
    exactly when there are fewer frames than entries reserved, and then submits nothing.
  */
  lemma {:induction false} RefillReserves<R>(q: Queue<R>, f: FillView, consumer: nat, q': Queue<R>, f': FillView, ok: bool)
    requires CanPop(q) && FillViewOk(f, consumer) && Refilled(q, f, consumer, q', f', ok)
    ensures Obtainable(q) == 0 ==> ok && f'.cachedProd == f.cachedProd && f'.entries == f.entries
    ensures Obtainable(q) > 0 ==>
      var wanted := |(if q.cached == [] then SyncCall(q) else q).cached|;
      && 0 < wanted <= CACHE
      && f'.cachedProd == (if f.cachedCons - f.cachedProd >= wanted then f.cachedCons else consumer + f.size)
      && (ok <==> f'.cachedProd - f.cachedProd <= Obtainable(q))
    ensures f'.producer == f.producer + (if ok then f'.cachedProd - f.cachedProd else 0)
  {
    hide SyncCall, PopMany, Written, Obtainable;
    LookedFinds(q);
  }

  lemma LookedFinds<R>(q: Queue<R>)
    requires CanPop(q)
    ensures Looked(q).cached == [] <==> Obtainable(q) == 0
  {
    SyncKeepsSupply(q);
  }

  /**
    The dead end: when the kernel has emptied the ring and refills that failed have reserved all of it, a refill
    reports success and does nothing; the kernel, having nothing to read, stays where it is.
  */
  lemma StuckRefillDoesNothing<R>(q: Queue<R>, f: FillView, consumer: nat, q': Queue<R>, f': FillView, ok: bool)
    requires CanPop(q) && FillViewOk(f, consumer) && Refilled(q, f, consumer, q', f', ok)
    requires f.producer == consumer && f.cachedProd == consumer + f.size
    ensures ok && q' == Looked(q) && f' == f.(cachedCons := f'.cachedCons)
  {
    hide Inv, SyncCall, PopMany, Written;
  }

  /** The first refill of a ring succeeds exactly when there is no frame at all, or a frame for every entry of the ring. */
  lemma FirstRefill<R>(q: Queue<R>, f: FillView, q': Queue<R>, f': FillView, ok: bool)
    requires CanPop(q) && |f.entries| == f.size > 0 && f.producer == f.cachedProd == 0 && f.cachedCons == f.size
    requires Refilled(q, f, 0, q', f', ok)
    ensures ok <==> Obtainable(q) == 0 || Obtainable(q) >= f.size
  {
    hide Inv, SyncCall, PopMany, Written, Obtainable, Refilled;
    LookedFinds(q);
    RefillFailsIff(q, f, 0, q', f', ok);
  }

  lemma {:induction false} SeededSupply<R>(q: Queue<R>, num: nat, t: nat, xs: seq<int>)
    requires SeedResult(q, num, t, xs)
    ensures CanPop(q) && Obtainable(q) == |xs| - |xs| % BATCH
  {
    CanPopIff(q);
    if t !in q.slots {
      assert GroupsInOrder(q) == [];
    } else {
      assert q.slots[t] in q.slots.Values;
      var groups := q.rings[q.slots[t]].groups;
      assert GroupsInOrder(q) == [groups];
      assert Flatten([groups]) == groups;
      FlattenLength(groups);
    }
  }

  /**
    Creating a socket: with the default fill ring of 2048 entries the refill at the end of `create` succeeds
    exactly for fewer than 16 frames, or when the whole groups of 16 make at least 2048.
  */
  lemma {:induction false} CreateSucceedsIff<R>(q: Queue<R>, num: nat, t: nat, xs: seq<int>, f: FillView, q': Queue<R>, f': FillView, ok: bool)
    requires SeedResult(q, num, t, xs) && |xs| == num && CanPop(q)
    requires |f.entries| == f.size == FILL_SIZE && f.producer == f.cachedProd == 0 && f.cachedCons == f.size
    requires Refilled(q, f, 0, q', f', ok)
    ensures ok <==> num < BATCH || num >= FILL_SIZE
  {
    hide SeedResult, Refilled, CanPop, Obtainable;
    SeededSupply(q, num, t, xs);
    FirstRefill(q, f, q', f', ok);
  }

  // ----- whole calls -----------------------------------------------------------------------------------

  /**
    The values of a socket: the queue; the fill ring, with the kernel's position in it; the receive ring, with how
    many descriptors were released and returned; the transmit ring, with how many slots were submitted, handed out
    and reserved; and the completion ring.
  */
  datatype SockView<R(==)> = SockView(
    q: Queue<R>, fill: FillView, fillCons: nat,
    rxStream: seq<Desc>, rxReleased: nat, rxReturned: nat,
    txEntries: seq<Desc>, txProducer: nat, txHandedOut: nat, txReserved: nat,
    cqStream: seq<Desc>, cqConsumer: nat)

  datatype RecvResult = Received(token: T.Token) | ErrRefill | ErrNoPackets
  datatype SendResult = Sent | ErrNoFrames | ErrNoMemory

  /** `recv_token`: the next descriptor in kernel order; when all were returned, a refill, and one of two errors. */
  ghost predicate RecvDone<R>(s: SockView<R>, s': SockView<R>, index: nat, r: RecvResult)
    requires CanPop(s.q) && |s.fill.entries| > 0 && s.rxReturned <= |s.rxStream|
  {
    if s.rxReturned < |s.rxStream| then
      var d := s.rxStream[s.rxReturned];
      && r == Received(T.Token(d.addr, d.len, index))
      && s.rxReleased <= s'.rxReleased <= |s.rxStream| && s.rxReturned < s'.rxReleased
      && s' == s.(rxReturned := s.rxReturned + 1, rxReleased := s'.rxReleased)
    else
      && !r.Received? && Refilled(s.q, s.fill, s.fillCons, s'.q, s'.fill, r == ErrNoPackets)
      && s' == s.(q := s'.q, fill := s'.fill)
  }

  /** The queue after the completions `frames` were pushed through handle 0 by thread `t`, and flushed. */
  ghost predicate Recycled<R>(q: Queue<R>, q': Queue<R>, t: nat, frames: seq<int>) {
    if frames == [] then q' == q else
    t in q'.slots && CanBurst(q, 0, t, q'.slots[t]) && q' == Burst(q, 0, t, q'.slots[t], frames)
  }

  /** As long as the ring has room: whole groups are delivered in order and the rest is lost. */
  lemma {:induction false} RecycledDelivers<R>(q: Queue<R>, q': Queue<R>, t: nat, frames: seq<int>)
    requires Inv(q) && Recycled(q, q', t, frames) && frames != []
    requires 0 < |q.batches| && GroupCount(q, t) + (|q.batches[0]| + |frames|) / BATCH <= q.capacity
    ensures BurstResult(q, q', 0, t, q.batches[0] + frames)
  {
    hide Inv, Burst;
    BurstDelivers(q, 0, t, q'.slots[t], frames);
  }

  lemma {:induction false} RecycledCanPop<R>(q: Queue<R>, q': Queue<R>, t: nat, frames: seq<int>)
    requires CanPop(q) && Recycled(q, q', t, frames)
    ensures CanPop(q')
  {
    hide Inv, Burst;
    if frames != [] {
      BurstInv(q, 0, t, q'.slots[t], frames);
      BurstKeepsDrain(q, 0, t, q'.slots[t], frames);
      CanPopIff(q');
    }
  }

  /** `flush`: submits exactly what was handed out, and recycles completions. */
  ghost predicate FlushDone<R>(s: SockView<R>, s': SockView<R>, t: nat, frames: seq<int>) {
    && s.cqConsumer + |frames| <= |s.cqStream| && |frames| <= COMPLETE_BATCH
    && frames == Stretch(s.cqStream, s.cqConsumer, |frames|)
    && (frames == [] <==> s.cqConsumer == |s.cqStream|)
    && Recycled(s.q, s'.q, t, frames)
    && s' == s.(q := s'.q, txProducer := s.txHandedOut, cqConsumer := s.cqConsumer + |frames|)
  }

  /** A free frame was written to the slot, or there was none and the slot still holds what an earlier send left in it. */
  ghost predicate Filled<R>(q: Queue<R>, entries: seq<Desc>, slot: nat, len: nat, q': Queue<R>, entries': seq<Desc>, r: SendResult)
    requires CanPop(q) && |entries| > 0
  {
    var (q1, addr) := PopCall(q);
    var e := Entry(slot, |entries|);
    && q' == q1
    && match addr
       case None => r == ErrNoFrames && Obtainable(q) == 0 && entries' == entries
       case Some(a) => r == Sent && entries' == entries[e := Desc(a, len, entries[e].options)]
  }

  /** Whether the transmit ring has a slot: one reserved earlier, or 64 free entries. */
  predicate HasSlot<R(==)>(s: SockView<R>, consumer: nat) {
    s.txHandedOut < s.txReserved || consumer + |s.txEntries| - s.txReserved >= TX_BATCH
  }

  /**
    Taking a slot: the next one in order.  With none reserved, what was handed out is submitted first, and 64
    entries are reserved.
  */
  ghost predicate SlotTaken<R>(s: SockView<R>, s': SockView<R>, consumer: nat) {
    && (if s.txHandedOut < s.txReserved then s'.txProducer == s.txProducer && s'.txReserved == s.txReserved
        else s'.txProducer == s.txHandedOut && s'.txReserved == s.txReserved + (if HasSlot(s, consumer) then TX_BATCH else 0))
    && s' == s.(txHandedOut := s.txHandedOut + (if HasSlot(s, consumer) then 1 else 0),
                txProducer := s'.txProducer, txReserved := s'.txReserved)
  }

  /** Filling the slot handed out last. */
  ghost predicate SlotFilled<R>(s: SockView<R>, s': SockView<R>, len: nat, r: SendResult)
    requires CanPop(s.q) && |s.txEntries| > 0 && s.txHandedOut > 0
  {
    Filled(s.q, s.txEntries, s.txHandedOut - 1, len, s'.q, s'.txEntries, r) && s' == s.(q := s'.q, txEntries := s'.txEntries)
  }

  /** One attempt to send: taking a slot, and filling it; `ErrNoMemory` stands for no slot. */
  ghost predicate TryDone<R>(s: SockView<R>, taken: SockView<R>, s': SockView<R>, len: nat, txCons: nat, r: SendResult) {
    && SlotTaken(s, taken, txCons) && |taken.txEntries| > 0
    && if HasSlot(s, txCons) then CanPop(taken.q) && SlotFilled(taken, s', len, r) else r == ErrNoMemory && s' == taken
  }

  /**
    `send`, with the values it passes through: after taking a slot; and, if there was none, after the flush and after
    taking one then.
  */
  ghost predicate SendDone<R>(s: SockView<R>, taken: SockView<R>, flushed: SockView<R>, again: SockView<R>, s': SockView<R>,
      t: nat, len: nat, txCons: nat, txCons': nat, frames: seq<int>, r: SendResult)
  {
    if HasSlot(s, txCons) then TryDone(s, taken, s', len, txCons, r)
    else
      TryDone(s, taken, taken, len, txCons, ErrNoMemory) && FlushDone(taken, flushed, t, frames)
      && TryDone(flushed, again, s', len, txCons', r)
  }

  // ----- what the program gets -------------------------------------------------------------------------

  /**
    A receive yields a token exactly when a descriptor was not yet returned: with the address and the length of the
    oldest one, and the socket's pool id.  Otherwise it reports that the refill failed, exactly if entries were
    reserved for which there is no frame, or that there was no packet.
  */
  lemma {:induction false} RecvReturns<R>(s: SockView<R>, s': SockView<R>, index: nat, r: RecvResult)
    requires CanPop(s.q) && FillViewOk(s.fill, s.fillCons) && s.rxReturned <= |s.rxStream| && RecvDone(s, s', index, r)
    ensures r.Received? <==> s.rxReturned < |s.rxStream|
    ensures r.Received? ==>
      && r.token.idx == s.rxStream[s.rxReturned].addr && r.token.len == s.rxStream[s.rxReturned].len && r.token.pool == index
      && s'.rxReturned == s.rxReturned + 1 && s'.rxStream == s.rxStream
      && s'.q == s.q && s'.fill == s.fill && s'.txEntries == s.txEntries && s'.cqConsumer == s.cqConsumer
    ensures !r.Received? ==>
      && (r == ErrRefill <==> s'.fill.cachedProd - s.fill.cachedProd > Obtainable(s.q))
      && s'.rxReturned == s.rxReturned && s'.txEntries == s.txEntries && s'.cqConsumer == s.cqConsumer
  {
    hide Inv, SyncCall, Obtainable, Refilled;
    if !r.Received? { RefillReserves(s.q, s.fill, s.fillCons, s'.q, s'.fill, r == ErrNoPackets); }
  }

  /** The frame a send takes: the newest of the cache, after a synchronisation of an empty one. */
  lemma {:induction false} FilledWith<R>(q: Queue<R>, entries: seq<Desc>, slot: nat, len: nat, q': Queue<R>, entries': seq<Desc>, r: SendResult)
    requires CanPop(q) && |entries| > 0 && Filled(q, entries, slot, len, q', entries', r)
    ensures r == (if Obtainable(q) == 0 then ErrNoFrames else Sent)
    ensures r == ErrNoFrames ==> entries' == entries
    ensures r == Sent ==>
      var cached := (if q.cached == [] then SyncCall(q) else q).cached; var e := slot % |entries|;
      && cached != [] && q'.cached == cached[..|cached| - 1] && |entries'| == |entries|
      && entries'[e].addr == cached[|cached| - 1] && entries'[e].len == len && entries'[e].options == entries[e].options
      && (forall k :: 0 <= k < |entries| && k != e ==> entries'[k] == entries[k])
  {
    hide Inv, SyncCall, Obtainable;
    PopKeepsSupply(q);
  }

  /**
    A send reports that there is no memory exactly when neither before nor after the flush a slot was reserved or 64
    entries were free.  Otherwise it hands out the next slot, after submitting what was handed out if none was
    reserved, and fills it; only that entry of the ring changes.
  */
  lemma {:induction false} SendReturns<R>(s: SockView<R>, taken: SockView<R>, flushed: SockView<R>, again: SockView<R>, s': SockView<R>,
      t: nat, len: nat, txCons: nat, txCons': nat, frames: seq<int>, r: SendResult)
    requires CanPop(s.q) && |s.txEntries| > 0 && s.txHandedOut <= s.txReserved
    requires SendDone(s, taken, flushed, again, s', t, len, txCons, txCons', frames, r)
    ensures var n := |s.txEntries|; var first := s.txHandedOut < s.txReserved || txCons + n - s.txReserved >= 64;
      && (r == ErrNoMemory <==> !first && txCons' + n - s.txReserved < 64)
      && s'.txHandedOut == s.txHandedOut + (if r == ErrNoMemory then 0 else 1)
      && s'.txProducer == (if s.txHandedOut < s.txReserved then s.txProducer else s.txHandedOut)
      && (r != ErrNoMemory ==>
            var q := if first then s.q else flushed.q;
            CanPop(q) && Filled(q, s.txEntries, s.txHandedOut, len, s'.q, s'.txEntries, r))
      && (r == ErrNoMemory ==> s'.txEntries == s.txEntries && s'.q == flushed.q)
      && (!first ==> Recycled(s.q, flushed.q, t, frames))
  {
    hide Inv, CanPop, PopCall, Obtainable, Recycled, Stretch, Entry;
  }
}
