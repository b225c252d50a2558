/** The AF_XDP socket: refilling the fill ring, recycling completions, receiving, sending and flushing. */
module AfXdpSock {
  import opened Bags
  import opened QueueMachine
  import opened QueueProperties
  import opened QueueBursts
  import opened QueueSupply
  import opened XskRings
  import opened AfXdpView
  import T = Tokens
  import C = Channel
  import M = Mpsc

  ghost function FillOf(fq: ProdRing): FillView
    reads fq
  {
    FillView(fq.entries, fq.producer, fq.cachedProd, fq.cachedCons, fq.size)
  }

  /** The free-frame side of a socket: fill ring, completion ring, and the consumer end of the queue. */
  class UmemManager {
    const fq: ProdRing
    const cq: ConsRing
    const channel: C.Channel

    constructor (fq: ProdRing, cq: ConsRing, channel: C.Channel)
      ensures this.fq == fq && this.cq == cq && this.channel == channel
    {
      this.fq, this.cq, this.channel := fq, cq, channel;
    }

    /** Fills `available` reserved entries from position `idx` on; stops when no free frame is left. */
    method FillReserved(idx: nat, available: nat) returns (ok: bool)
      requires channel.Valid() && CanPop(channel.state) && |fq.entries| == fq.size > 0
      modifies channel`state, channel.consumer, channel.registry.list, fq`entries
      ensures channel.Valid() && CanPop(channel.state)
      ensures var (q, xs) := PopMany(old(channel.state), available);
        channel.state == q && fq.entries == Written(old(fq.entries), idx, xs)
      ensures ok <==> available <= Obtainable(old(channel.state))
    {
      hide Inv, C.Channel.Valid, Obtainable, PopCall, Entry;
      ghost var q0, entries := channel.state, fq.entries;
      PopManyFinds(q0, available);
      assert PopMany(q0, 0) == (q0, []);
      for i := 0 to available
        invariant channel.Valid() && CanPop(channel.state) && |fq.entries| == fq.size
        invariant i <= Obtainable(q0)
        invariant PopMany(q0, i).0 == channel.state && |PopMany(q0, i).1| == i
        invariant fq.entries == Written(entries, idx, PopMany(q0, i).1)
      {
        PopOneMore(q0, i);
        PopManyFinds(q0, i + 1);
        var addr := channel.Pop();
        if addr == None {
          PopManyStops(q0, i, available);
          return false;
        }
        fq.SetEntry(idx + i, Desc(addr.value, 0, 0));
        assert PopMany(q0, i + 1).1[..i] == PopMany(q0, i).1;
      }
      return true;
    }

    /**
      Hands free frames to the kernel.  The number of entries reserved is what the ring reports, which may
      exceed what was asked for: the call fails exactly when it exceeds the number of frames to be had, and
      then the frames already written are neither submitted nor given back.
    */
    method RefillFillRing(consumer: nat) returns (ok: bool)
      requires channel.Valid() && CanPop(channel.state) && fq.Valid(consumer)
      modifies channel`state, channel.consumer, channel.registry.list, fq`entries, fq`cachedProd, fq`cachedCons, fq`producer
      ensures channel.Valid() && CanPop(channel.state) && fq.Valid(consumer)
      ensures Refilled(old(channel.state), old(FillOf(fq)), consumer, channel.state, FillOf(fq), ok)
    {
      hide Inv, C.Channel.Valid, Obtainable, PopMany, Written, Addresses, PopCall, SyncCall;
      SyncKeepsSupply(channel.state);
      channel.StateTables();
      var wanted := |channel.consumer.cached|;
      if wanted == 0 {
        channel.Sync();
        channel.StateTables();
        wanted := |channel.consumer.cached|;
      }
      if wanted == 0 { return true; }
      var available := fq.NbFree(wanted, consumer);
      if available == 0 { return true; }
      var reserved, idx := fq.Reserve(available, consumer);
      assert reserved == available;
      ok := FillReserved(idx, available);
      if ok { fq.Submit(available); }
    }

    /** Recycles up to 64 completed frames through handle 0, then flushes. */
    method CompleteTx(t: nat, producer: nat) returns (ghost frames: seq<int>)
      requires channel.Valid() && Inv(channel.state) && cq.Valid() && producer == |cq.stream| && cq.cachedCons == cq.consumer
      requires 0 in channel.state.alive && |channel.handles| > 0 && channel.state.drain == None
      requires t in channel.perThread.slots || |channel.registry.list| < MAX_RINGS
      modifies channel`state, channel.handles[0], channel.perThread, channel.registry, channel.perThread.Own(t)
      modifies cq`cachedProd, cq`cachedCons, cq`consumer
      ensures channel.Valid() && cq.Valid() && cq.cachedCons == cq.consumer
      ensures cq.consumer == old(cq.consumer) + |frames| && |frames| <= COMPLETE_BATCH
      ensures |frames| == Min(COMPLETE_BATCH,
        (if old(cq.cachedCons) == old(cq.cachedProd) then |cq.stream| else old(cq.cachedProd)) - old(cq.cachedCons))
      ensures cq.consumer <= |cq.stream| && frames == Stretch(cq.stream, old(cq.consumer), |frames|)
      ensures frames == [] <==> old(cq.consumer) == |cq.stream|
      ensures Recycled(old(channel.state), channel.state, t, frames)
      ensures forall r :: r in channel.registry.list ==> r in old(channel.registry.list) || fresh(r)
    {
      hide Inv, C.Channel.Valid, Entry, Window, PushedSoFar, Burst;
      var completed, idx := cq.Peek(COMPLETE_BATCH, producer);
      frames := [];
      if completed == 0 { return; }
      frames := Stretch(cq.stream, idx, completed);
      channel.ProducersValid(0);
      PushedNothing(channel.state, 0, t);
      PushCompleted(t, idx, completed, channel.state, frames);
      cq.Release(completed);
      FlushPushed(channel, t, old(channel.state), frames);
    }

    /** Pushes the addresses of `completed` entries from position `idx` on. */
    method PushCompleted(t: nat, idx: nat, completed: nat, ghost q0: Queue<M.SpscRing>, ghost frames: seq<int>)
      requires channel.Valid() && |channel.handles| > 0
      requires t in channel.perThread.slots || |channel.registry.list| < MAX_RINGS
      requires cq.Valid() && cq.consumer <= idx <= idx + completed <= |cq.stream|
      requires frames == Stretch(cq.stream, idx, completed) && PushedSoFar(q0, channel.state, 0, t, [])
      modifies channel`state, channel.handles[0], channel.perThread, channel.registry, channel.perThread.Own(t)
      ensures channel.Valid() && (t in channel.perThread.slots || |channel.registry.list| < MAX_RINGS)
      ensures fresh(channel.perThread.Own(t) - old(channel.perThread.Own(t)))
      ensures forall r :: r in channel.registry.list ==> r in old(channel.registry.list) || fresh(r)
      ensures PushedSoFar(q0, channel.state, 0, t, frames)
    {
      hide Inv, C.Channel.Valid, Entry, Window, PushedSoFar, Stretch;
      assert frames[..0] == [];
      for i := 0 to completed
        invariant channel.Valid() && (t in channel.perThread.slots || |channel.registry.list| < MAX_RINGS)
        invariant fresh(channel.perThread.Own(t) - old(channel.perThread.Own(t)))
        invariant forall r :: r in channel.registry.list ==> r in old(channel.registry.list) || fresh(r)
        invariant PushedSoFar(q0, channel.state, 0, t, frames[..i])
      {
        var d := cq.Get(idx + i);
        StretchSnoc(cq.stream, idx, completed, i);
        PushOne(channel, t, d.addr, q0, frames[..i]);
      }
      assert frames[..completed] == frames;
    }
  }

  lemma StretchSnoc(stream: seq<Desc>, lo: nat, n: nat, i: nat)
    requires lo + n <= |stream| && i < n
    ensures Stretch(stream, lo, n)[..i + 1] == Stretch(stream, lo, n)[..i] + [stream[lo + i].addr]
  {}

  /** One push of a burst on handle 0. */
  method PushOne(channel: C.Channel, t: nat, x: int, ghost q0: Queue<M.SpscRing>, ghost xs: seq<int>)
    requires channel.Valid() && |channel.handles| > 0 && PushedSoFar(q0, channel.state, 0, t, xs)
    requires t in channel.perThread.slots || |channel.registry.list| < MAX_RINGS
    modifies channel`state, channel.handles[0], channel.perThread, channel.registry, channel.perThread.Own(t)
    ensures channel.Valid() && (t in channel.perThread.slots || |channel.registry.list| < MAX_RINGS)
    ensures fresh(channel.perThread.Own(t) - old(channel.perThread.Own(t)))
    ensures forall r :: r in channel.registry.list ==> r in old(channel.registry.list) || fresh(r)
    ensures PushedSoFar(q0, channel.state, 0, t, xs + [x])
  {
    hide Inv, C.Channel.Valid, PushAll, Quiet, PushCall;
    ghost var q := channel.state;
    channel.StateTables();
    BatchFits(q, 0);
    channel.Push(0, t, x);
    channel.StateTables();
    if |q.batches[0]| < BATCH {
      PushedOneQuiet(q0, q, 0, t, xs, x);
    } else {
      CallsKeepSlots(q, 0, t, channel.perThread.slots[t], x);
      PushedOneFull(q0, q, 0, t, channel.perThread.slots[t], xs, x);
    }
  }

  method FlushPushed(channel: C.Channel, t: nat, ghost q0: Queue<M.SpscRing>, ghost xs: seq<int>)
    requires channel.Valid() && |channel.handles| > 0 && PushedSoFar(q0, channel.state, 0, t, xs) && xs != []
    requires t in channel.perThread.slots || |channel.registry.list| < MAX_RINGS
    modifies channel`state, channel.handles[0], channel.perThread, channel.registry, channel.perThread.Own(t)
    ensures channel.Valid() && Recycled(q0, channel.state, t, xs)
    ensures forall r :: r in channel.registry.list ==> r in old(channel.registry.list) || fresh(r)
  {
    hide Inv, C.Channel.Valid, PushAll, Quiet, Burst, FlushCall;
    ghost var q := channel.state;
    channel.StateTables();
    PushedBatch(q0, q, 0, t, xs);
    channel.Flush(0, t);
    channel.StateTables();
    CallsKeepSlots(q, 0, t, channel.perThread.slots[t], 0);
    PushedEnd(q0, q, 0, t, channel.perThread.slots[t], xs);
  }

  /** A socket; handle 0 of the channel is its own context. */
  class Sock {
    const rx: RxRing
    const tx: TxRing
    const umem: UmemManager
    const index: nat

    constructor (rx: RxRing, tx: TxRing, umem: UmemManager, index: nat)
      ensures this.rx == rx && this.tx == tx && this.umem == umem && this.index == index
    {
      this.rx, this.tx, this.umem, this.index := rx, tx, umem, index;
    }

    /** The values of the socket; `fillCons` and `txCons` are the kernel's positions in the rings it consumes. */
    ghost function View(fillCons: nat): SockView<M.SpscRing>
      requires rx.Valid()
      reads umem.channel, umem.fq, rx, rx.rx, tx, tx.tx, umem.cq
    {
      SockView(umem.channel.state, FillOf(umem.fq), fillCons,
        rx.rx.stream, rx.rx.consumer, rx.Returned(),
        tx.tx.entries, tx.tx.producer, tx.HandedOut(), tx.tx.cachedProd,
        umem.cq.stream, umem.cq.consumer)
    }

    /** The rings are four different ones, and valid. */
    ghost predicate RingsOk(fillCons: nat, txCons: nat)
      reads umem.fq, rx, rx.rx, tx, tx.tx, umem.cq
    {
      && rx.rx != umem.cq && tx.tx != umem.fq
      && rx.Valid() && tx.Valid(txCons) && umem.fq.Valid(fillCons)
      && umem.cq.Valid() && umem.cq.cachedCons == umem.cq.consumer
    }

    /**
      Returns the next descriptor in kernel order; when all were returned, refills the fill ring and tries once
      more.  `producer` is the kernel's position in the receive ring.
    */
    method RecvToken(producer: nat, fillCons: nat, ghost txCons: nat) returns (r: RecvResult)
      requires RingsOk(fillCons, txCons) && producer == |rx.rx.stream|
      requires umem.channel.Valid() && CanPop(umem.channel.state)
      modifies rx`cached, rx.rx`cachedProd, rx.rx`cachedCons, rx.rx`consumer
      modifies umem.channel`state, umem.channel.consumer, umem.channel.registry.list
      modifies umem.fq`entries, umem.fq`cachedProd, umem.fq`cachedCons, umem.fq`producer
      ensures RingsOk(fillCons, txCons) && umem.channel.Valid() && CanPop(umem.channel.state)
      ensures RecvDone(old(View(fillCons)), View(fillCons), index, r)
    {
      hide Inv, C.Channel.Valid, Obtainable, PopMany, Written, PopCall, SyncCall, Refilled, Window;
      var d := rx.Advance(producer);
      if d == None {
        var ok := umem.RefillFillRing(fillCons);
        if !ok { return ErrRefill; }
        d := rx.Advance(producer);
        if d == None { return ErrNoPackets; }
      }
      r := Received(T.Token(d.value.addr, d.value.len, index));
    }

    /** Fills the slot handed out last with a free frame; without one the slot keeps the address it had. */
    method SendInner(slot: nat, len: nat, ghost fillCons: nat, ghost txCons: nat) returns (r: SendResult)
      requires RingsOk(fillCons, txCons) && slot + 1 == tx.HandedOut()
      requires umem.channel.Valid() && CanPop(umem.channel.state)
      modifies umem.channel`state, umem.channel.consumer, umem.channel.registry.list, tx.tx`entries
      ensures RingsOk(fillCons, txCons) && umem.channel.Valid() && CanPop(umem.channel.state)
      ensures SlotFilled(old(View(fillCons)), View(fillCons), len, r)
    {
      hide Inv, C.Channel.Valid, Entry, PopCall, Window;
      PopKeepsSupply(umem.channel.state);
      var addr := umem.channel.Pop();
      if addr == None { return ErrNoFrames; }
      tx.tx.SetEntry(slot, Desc(addr.value, len, tx.tx.entries[Entry(slot, tx.tx.size)].options));
      r := Sent;
    }

    /** Submits what was handed out and recycles what the kernel has completed; `producer` is its position there. */
    method Flush(t: nat, producer: nat, ghost fillCons: nat, ghost txCons: nat) returns (ghost frames: seq<int>)
      requires RingsOk(fillCons, txCons) && producer == |umem.cq.stream|
      requires umem.channel.Valid() && CanPop(umem.channel.state)
      requires 0 in umem.channel.state.alive && |umem.channel.handles| > 0
      requires t in umem.channel.perThread.slots || |umem.channel.registry.list| < MAX_RINGS
      modifies tx`toFlush, tx.tx`producer
      modifies umem.channel`state, umem.channel.handles[0], umem.channel.perThread, umem.channel.registry, umem.channel.perThread.Own(t)
      modifies umem.cq`cachedProd, umem.cq`cachedCons, umem.cq`consumer
      ensures RingsOk(fillCons, txCons) && umem.channel.Valid() && CanPop(umem.channel.state)
      ensures FlushDone(old(View(fillCons)), View(fillCons), t, frames)
      ensures tx.tx.producer == tx.HandedOut() == old(tx.HandedOut())
      ensures forall r :: r in umem.channel.registry.list ==> r in old(umem.channel.registry.list) || fresh(r)
    {
      hide Inv, C.Channel.Valid, Entry, Window, Burst;
      tx.Sync(txCons);
      frames := umem.CompleteTx(t, producer);
      RecycledCanPop(old(umem.channel.state), umem.channel.state, t, frames);
    }

    /** Takes a slot, if the transmit ring has one. */
    method NextSlot(txCons: nat, ghost fillCons: nat) returns (slot: Option<nat>)
      requires RingsOk(fillCons, txCons)
      modifies tx`toFlush, tx`cached, tx.tx`producer, tx.tx`cachedCons, tx.tx`cachedProd
      ensures RingsOk(fillCons, txCons)
      ensures SlotTaken(old(View(fillCons)), View(fillCons), txCons)
      ensures slot == None <==> !HasSlot(old(View(fillCons)), txCons)
      ensures slot != None ==> slot.value + 1 == tx.HandedOut()
      ensures slot == None ==> tx.HandedOut() == old(tx.HandedOut())
    {
      hide Entry, Window;
      slot := tx.Advance(txCons);
    }

    /** Takes a slot and fills it; without a slot nothing but the submission happens. */
    method TrySend(len: nat, txCons: nat, ghost fillCons: nat) returns (r: SendResult, ghost taken: SockView<M.SpscRing>)
      requires RingsOk(fillCons, txCons) && umem.channel.Valid() && CanPop(umem.channel.state)
      modifies tx`toFlush, tx`cached, tx.tx`producer, tx.tx`cachedCons, tx.tx`cachedProd, tx.tx`entries
      modifies umem.channel`state, umem.channel.consumer, umem.channel.registry.list
      ensures RingsOk(fillCons, txCons) && umem.channel.Valid() && CanPop(umem.channel.state)
      ensures TryDone(old(View(fillCons)), taken, View(fillCons), len, txCons, r)
      ensures r == ErrNoMemory <==> !HasSlot(old(View(fillCons)), txCons)
      ensures r == ErrNoMemory ==> taken == View(fillCons) && tx.HandedOut() == old(tx.HandedOut())
      ensures r == ErrNoMemory ==> umem.channel.state == old(umem.channel.state)
    {
      hide Inv, C.Channel.Valid, Entry, Window, PopCall, Obtainable;
      var slot := NextSlot(txCons, fillCons);
      taken := View(fillCons);
      if slot == None { return ErrNoMemory, taken; }
      r := SendInner(slot.value, len, fillCons, txCons);
    }

    /**
      Takes a slot, flushing once if none is to be had, and fills it.  `txCons` and `txCons'` are the kernel's positions
      in the transmit ring before and after the flush, `producer` its position in the completion ring.
    */
    method Send(t: nat, len: nat, txCons: nat, txCons': nat, producer: nat, ghost fillCons: nat)
        returns (r: SendResult, ghost taken: SockView<M.SpscRing>, ghost flushed: SockView<M.SpscRing>,
                 ghost again: SockView<M.SpscRing>, ghost frames: seq<int>)
      requires RingsOk(fillCons, txCons) && producer == |umem.cq.stream| && txCons <= txCons' <= tx.HandedOut()
      requires umem.channel.Valid() && CanPop(umem.channel.state)
      requires 0 in umem.channel.state.alive && |umem.channel.handles| > 0
      requires HasSlot(View(fillCons), txCons) || t in umem.channel.perThread.slots || |umem.channel.registry.list| < MAX_RINGS
      modifies tx`toFlush, tx`cached, tx.tx`producer, tx.tx`cachedCons, tx.tx`cachedProd, tx.tx`entries
      modifies umem.channel`state, umem.channel.handles[0], umem.channel.perThread, umem.channel.registry, umem.channel.perThread.Own(t)
      modifies umem.cq`cachedProd, umem.cq`cachedCons, umem.cq`consumer
      modifies umem.channel.consumer, umem.channel.registry.list
      ensures rx.Valid() && umem.channel.Valid() && CanPop(umem.channel.state)
      ensures SendDone(old(View(fillCons)), taken, flushed, again, View(fillCons), t, len, txCons, txCons', frames, r)
    {
      hide Inv, C.Channel.Valid, TryDone, FlushDone, CanPop, Obtainable, HasSlot, TxRing.Valid, ProdRing.Valid, ConsRing.Valid, RxRing.Valid;
      frames := [];
      r, taken := TrySend(len, txCons, fillCons);
      flushed, again := taken, taken;
      if r == ErrNoMemory {
        frames := Flush(t, producer, fillCons, txCons);
        flushed := View(fillCons);
        tx.KernelConsumes(txCons, txCons');
        ghost var list := umem.channel.registry.list;
        assert forall i :: 0 <= i < |list| ==> list[i] in old(umem.channel.registry.list) || fresh(list[i]);
        r, again := TrySend(len, txCons', fillCons);
      }
    }
  }
}
