/** What a receive call of the netmap backend returns, and why. */
module NetmapCalls {
  import opened Bags
  import opened QueueMachine
  import opened QueueProperties
  import opened QueueSupply
  import opened NetmapRing
  import opened NetmapMachine
  import Bits

  /** The receiver a call takes its slot from: started over and synchronised if nothing was pending. */
  ghost function Source(rx: Rx, tails: seq<nat>): (rx': Rx)
    requires RxWf(rx) && |tails| == |rx.rings| && TailsForward(Next(rx).0.rings, tails)
    ensures RxWf(rx')
  {
    NextTakesFirst(rx);
    if PendingAll(rx) != [] then rx else
    var skipped := Next(rx).0;
    skipped.(rings := WithTails(skipped.rings, tails), ringIdx := skipped.first, open := true)
  }

  /** Rewriting a slot changes nothing that decides what is pending. */
  lemma {:induction false} RewriteKeepsPending(r: RingView, r': RingView)
    requires RingWf(r) && r'.head == r.head && r'.tail == r.tail && |r'.slots| == |r.slots|
    ensures RingWf(r') && Pending(r') == Pending(r)
  {
    PendingIsInterval(r);
    PendingIsInterval(r');
  }

  lemma {:induction false} RewrittenPending(rx: Rx, p: Place, buf: int)
    requires RxWf(rx) && InRange(rx, p)
    ensures RxWf(Rewritten(rx, p, buf)) && PendingAll(Rewritten(rx, p, buf)) == PendingAll(rx)
  {
    var rx' := Rewritten(rx, p, buf);
    forall k | 0 <= k < |rx.rings| ensures RingWf(rx'.rings[k]) && Pending(rx'.rings[k]) == Pending(rx.rings[k]) {
      RewriteKeepsPending(rx.rings[k], rx'.rings[k]);
    }
    if rx.open { PendingFromFrame(rx.rings, rx'.rings, rx.ringIdx, rx.last); }
  }

  lemma {:induction false} TakeCallTakesFirst<R>(n: Net<R>, tails: seq<nat>)
    requires NetInv(n) && n.slot == None
    requires |tails| == |n.rx.rings| && TailsForward(Next(n.rx).0.rings, tails)
    ensures var src, n' := Source(n.rx, tails), TakeCall(n, tails);
      && n' == n.(rx := n'.rx, slot := n'.slot)
      && (n'.slot == None <==> PendingAll(src) == [])
      && Same(src.rings, n'.rx.rings)
      && (n'.slot.Some? ==> PendingAll(src) == [n'.slot.value] + PendingAll(n'.rx) && InRange(src, n'.slot.value))
  {
    NextTakesFirst(n.rx);
    NextInRange(n.rx);
    var src := Source(n.rx, tails);
    NextTakesFirst(src);
    NextInRange(src);
  }

  /**
    A receive call yields the first pending slot, after starting over if none was: it reports no packet if and
    only if none is pending then either, and no memory if and only if there is no free buffer to be had; in
    both of the other cases the slot is used up.  A packet is reported with the slot's buffer and length, and
    the slot gets the free buffer; no other slot changes.
  */
  lemma {:induction false} RecvOutcome<R>(n: Net<R>, tails: seq<nat>)
    requires NetInv(n) && n.slot == None && n.q.drain == None && CanPop(n.q)
    requires |tails| == |n.rx.rings| && TailsForward(Next(n.rx).0.rings, tails)
    ensures var src := Source(n.rx, tails); var (n', outcome) := RecvCall(n, tails);
      && (outcome == NoPacket <==> PendingAll(src) == [])
      && (outcome == OutOfMemory <==> PendingAll(src) != [] && Obtainable(n.q) == 0)
      && (outcome.Received? <==> PendingAll(src) != [] && Obtainable(n.q) > 0)
      && RxWf(n'.rx) && (PendingAll(src) != [] ==> PendingAll(n'.rx) == PendingAll(src)[1..])
      && (!outcome.Received? ==> SlotBufs(n'.rx.rings) == SlotBufs(src.rings) && n'.tokens == n.tokens)
      && (outcome.Received? ==>
            var p := PendingAll(src)[0];
            InRange(src, p) && Exchanged(n, n', outcome, src.rings[p.ring].slots[p.slot], p, SlotBufs(src.rings)))
  {
    hide Inv, SyncCall, Next, PendingAll, Obtainable, Source, TailsForward;
    TakeCallTakesFirst(n, tails);
    var n1 := TakeCall(n, tails);
    hide TakeCall;
    SameSlots(Source(n.rx, tails).rings, n1.rx.rings);
    if n1.slot.Some? { FinishOutcome(n1); }
  }

  /** Whether a call starts over: nothing lies between head and tail of any ring from the current one on. */
  lemma {:induction false} StartsOver(rx: Rx, tails: seq<nat>)
    requires RxWf(rx) && |tails| == |rx.rings| && TailsForward(Next(rx).0.rings, tails)
    ensures PendingAll(rx) == [] <==> !rx.open || forall k :: rx.ringIdx <= k <= rx.last ==> rx.rings[k].head == rx.rings[k].tail
    ensures PendingAll(rx) != [] ==> Source(rx, tails) == rx
    ensures PendingAll(rx) == [] ==>
      var src := Source(rx, tails);
      src.open && src.ringIdx == src.first == rx.first && src.last == rx.last && src.rings == WithTails(rx.rings, tails)
  {
    NextTakesFirst(rx);
    if rx.open { NothingPending(rx.rings, rx.ringIdx, rx.last); }
    if PendingAll(rx) == [] { NothingTaken(rx); }
  }

  /**
    `at` is the slot at the head of the first ring with a packet: from the current ring on, or, when starting over
    (`again`), from the first ring on with the synchronised tails.
  */
  ghost predicate HeadOfFirst(rx: Rx, tails: seq<nat>, again: bool, at: Place)
    requires |tails| == |rx.rings|
  {
    && (if again then rx.first else rx.ringIdx) <= at.ring <= rx.last < |rx.rings|
    && at.slot == rx.rings[at.ring].head && at.slot < |rx.rings[at.ring].slots|
    && at.slot != (if again then tails[at.ring] else rx.rings[at.ring].tail)
    && forall k :: (if again then rx.first else rx.ringIdx) <= k < at.ring ==>
         rx.rings[k].head == (if again then tails[k] else rx.rings[k].tail)
  }

  lemma {:induction false} ReadyIsHeadOfFirst(rx: Rx, tails: seq<nat>, again: bool, at: Place)
    requires RxWf(rx) && |tails| == |rx.rings|
    requires again ==> FirstReady(WithTails(rx.rings, tails), rx.first, rx.last, at)
    requires !again ==> FirstReady(rx.rings, rx.ringIdx, rx.last, at)
    ensures HeadOfFirst(rx, tails, again, at)
  {
    var rings := WithTails(rx.rings, tails);
    assert forall k :: 0 <= k < |rings| ==> rings[k].head == rx.rings[k].head && rings[k].tail == tails[k];
  }

  /** The first pending slot of the receiver a call takes its slot from. */
  lemma {:induction false} SourceFirst(rx: Rx, tails: seq<nat>)
    requires RxWf(rx) && |tails| == |rx.rings| && TailsForward(Next(rx).0.rings, tails)
    ensures var again, src := PendingAll(rx) == [], Source(rx, tails);
      && (PendingAll(src) == [] <==> again && forall k :: rx.first <= k <= rx.last ==> rx.rings[k].head == tails[k])
      && (PendingAll(src) != [] ==>
            HeadOfFirst(rx, tails, again, PendingAll(src)[0]))
      && |src.rings| == |rx.rings| && (forall k :: 0 <= k < |rx.rings| ==> src.rings[k].slots == rx.rings[k].slots)
  {
    hide Next, Source, TailsForward, PendingFrom;
    StartsOver(rx, tails);
    var src := Source(rx, tails);
    if PendingAll(rx) == [] {
      assert forall k :: 0 <= k < |rx.rings| ==> src.rings[k].head == rx.rings[k].head && src.rings[k].tail == tails[k];
    }
    if src.open {
      NothingPending(src.rings, src.ringIdx, src.last);
      if PendingAll(src) != [] {
        FirstPending(src.rings, src.ringIdx, src.last);
        ReadyIsHeadOfFirst(rx, tails, PendingAll(rx) == [], PendingAll(src)[0]);
      }
    }
  }

  /**
    A receive call in terms of heads and tails.  It starts over (`again`) if every ring from the current one on has
    its head at its tail.  It reports no packet exactly if after that the synchronised tails are at the heads as well;
    otherwise `at` is the head slot of the first ring that has a packet, and without a free buffer to be had it
    reports no memory.
  */
  lemma {:induction false} RecvReturns<R>(n: Net<R>, tails: seq<nat>) returns (again: bool, at: Place)
    requires NetInv(n) && n.slot == None && n.q.drain == None && CanPop(n.q)
    requires |tails| == |n.rx.rings| && TailsForward(Next(n.rx).0.rings, tails)
    ensures again <==> !n.rx.open || forall k :: n.rx.ringIdx <= k <= n.rx.last ==> n.rx.rings[k].head == n.rx.rings[k].tail
    ensures var rx := n.rx; var (n', outcome) := RecvCall(n, tails);
      && (outcome == NoPacket <==> again && forall k :: rx.first <= k <= rx.last ==> rx.rings[k].head == tails[k])
      && (outcome == OutOfMemory <==> outcome != NoPacket && Obtainable(n.q) == 0)
      && (outcome.Received? ==>
            && HeadOfFirst(rx, tails, again, at) && InRange(rx, at)
            && Exchanged(n, n', outcome, rx.rings[at.ring].slots[at.slot], at, SlotBufs(rx.rings)))
  {
    hide Inv, RecvCall, Next, PendingFrom, PendingAll, Obtainable, Source, TailsForward, HeadOfFirst, Exchanged;
    RecvOutcome(n, tails);
    StartsOver(n.rx, tails);
    SourceFirst(n.rx, tails);
    var src := Source(n.rx, tails);
    again := PendingAll(n.rx) == [];
    at := if PendingAll(src) == [] then Place(0, 0) else PendingAll(src)[0];
    SameSlots(n.rx.rings, src.rings);
  }

  /** Length and pointer are kept, the slot is marked as changed, and every other flag is as before. */
  ghost predicate MarkedChanged(slot: Slot, got: Slot) {
    && got.len == slot.len && got.ptr == slot.ptr
    && Bits.Bit(got.flags, 0) && forall i: nat :: i > 0 ==> Bits.Bit(got.flags, i) == Bits.Bit(slot.flags, i)
  }

  /** One slot's buffer was exchanged for one free buffer, and reported with its length. */
  ghost predicate Exchanged<R>(n: Net<R>, n': Net<R>, outcome: Outcome, slot: Slot, p: Place, bufs: seq<seq<int>>) {
    && outcome == Received(slot.bufIdx, slot.len) && n'.tokens == n.tokens + [slot.bufIdx]
    && CanPop(n.q) && Looked(n.q).cached != [] && InRange(n'.rx, p)
    && p.ring < |bufs| && p.slot < |bufs[p.ring]|
    && var free := Looked(n.q).cached[|Looked(n.q).cached| - 1];
       var got := n'.rx.rings[p.ring].slots[p.slot];
       got.bufIdx == free && MarkedChanged(slot, got)
       && SlotBufs(n'.rx.rings) == bufs[p.ring := bufs[p.ring][p.slot := free]]
  }

  lemma {:induction false} FinishOutcome<R>(n: Net<R>)
    requires NetInv(n) && n.slot.Some? && n.q.drain == None && CanPop(n.q)
    ensures var (n', outcome) := FinishCall(n); var p := n.slot.value;
      && outcome != NoPacket && (outcome == OutOfMemory <==> Obtainable(n.q) == 0)
      && RxWf(n'.rx) && PendingAll(n'.rx) == PendingAll(n.rx)
      && (outcome == OutOfMemory ==> n'.rx == n.rx && n'.tokens == n.tokens)
      && (outcome.Received? ==> Exchanged(n, n', outcome, n.rx.rings[p.ring].slots[p.slot], p, SlotBufs(n.rx.rings)))
  {
    hide Inv, SyncCall, PendingAll, Obtainable;
    SyncKeepsSupply(n.q);
    ObtainableCached(n.q);
    var (n', outcome) := FinishCall(n);
    if outcome.Received? {
      var free := Looked(n.q).cached[|Looked(n.q).cached| - 1];
      RewrittenPending(n.rx, n.slot.value, free);
      RewrittenSlots(n.rx, n.slot.value, free);
      var p := n.slot.value;
      MarkedBits(n.rx.rings[p.ring].slots[p.slot].flags);
    }
  }

  lemma ObtainableCached<R>(q: Queue<R>)
    ensures q.cached != [] ==> Obtainable(q) > 0
  {}
}
