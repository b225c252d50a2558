/**
  The netmap backend over whole runs: where every buffer is.  Buffers move between the slots of the receive
  rings, the queue of free buffers, and the tokens and payloads of the program.
*/
module NetmapMachine {
  import opened Bags
  import opened QueueMachine
  import opened QueueAccounting
  import opened QueueProperties
  import opened NetmapRing
  import opened Holdings

  /** `slot` is the slot a receive call has taken and not yet finished with; `lost` holds buffers of dropped tokens. */
  datatype Net<R(==)> = Net(q: Queue<R>, rx: Rx, slot: Option<Place>, tokens: seq<int>, payloads: seq<Payload>, lost: seq<int>)

  datatype NetEvent<R> =
    | QueueStep(e: Event<R>)
    | TakeSlot
    | ResetRx(tails: seq<nat>)
    | SwapBuffer
    | NoMemory
    | Consume(i: nat, h: nat)
    | IntoToken(i: nat)
    | DropPayload(i: nat, t: nat)
    | LoseToken(i: nat)

  predicate InRange(rx: Rx, p: Place) {
    p.ring < |rx.rings| && p.slot < |rx.rings[p.ring].slots|
  }

  ghost predicate Enabled<R>(n: Net<R>, e: NetEvent<R>) {
    match e
    case QueueStep(e) =>
      && !e.Push? && !e.PopCached? && QueueMachine.Enabled(n.q, e)
      && (e.DropHandle? ==> !Borrowed(n.payloads, e.h))
    case TakeSlot => n.slot == None && RxWf(n.rx)
    case ResetRx(tails) => n.slot == None && |tails| == |n.rx.rings| && TailsForward(n.rx.rings, tails)
    case SwapBuffer => n.slot.Some? && InRange(n.rx, n.slot.value) && QueueMachine.Enabled(n.q, PopCached)
    case NoMemory => n.slot.Some? && n.q.cached == []
    case Consume(i, h) => i < |n.tokens| && h in n.q.alive
    case IntoToken(i) => i < |n.payloads|
    case DropPayload(i, t) =>
      i < |n.payloads| && QueueMachine.Enabled(n.q, Push(n.payloads[i].handle, t, n.payloads[i].buf))
    case LoseToken(i) => i < |n.tokens|
  }

  ghost function Step<R>(n: Net<R>, e: NetEvent<R>): Net<R>
    requires Enabled(n, e)
  {
    match e
    case QueueStep(e) => n.(q := QueueMachine.Step(n.q, e))
    case TakeSlot => var (rx, place) := Next(n.rx); n.(rx := rx, slot := place)
    case ResetRx(tails) =>
      n.(rx := n.rx.(rings := WithTails(n.rx.rings, tails), ringIdx := n.rx.first, open := true))
    case SwapBuffer =>
      var p := n.slot.value;
      n.(q := QueueMachine.Step(n.q, PopCached),
         rx := Rewritten(n.rx, p, n.q.cached[|n.q.cached| - 1]),
         tokens := n.tokens + [n.rx.rings[p.ring].slots[p.slot].bufIdx],
         slot := None)
    case NoMemory => n.(slot := None)
    case Consume(i, h) => n.(tokens := Drop(n.tokens, i), payloads := n.payloads + [Payload(n.tokens[i], h)])
    case IntoToken(i) => n.(payloads := Drop(n.payloads, i), tokens := n.tokens + [n.payloads[i].buf])
    case DropPayload(i, t) =>
      n.(payloads := Drop(n.payloads, i),
         q := QueueMachine.Step(n.q, Push(n.payloads[i].handle, t, n.payloads[i].buf)))
    case LoseToken(i) => n.(tokens := Drop(n.tokens, i), lost := n.lost + [n.tokens[i]])
  }

  ghost predicate Legal<R>(n: Net<R>, es: seq<NetEvent<R>>)
    decreases |es|
  {
    es == [] || (Enabled(n, es[0]) && Legal(Step(n, es[0]), es[1..]))
  }

  ghost function Exec<R>(n: Net<R>, es: seq<NetEvent<R>>): Net<R>
    requires Legal(n, es)
    decreases |es|
  {
    if es == [] then n else Exec(Step(n, es[0]), es[1..])
  }

  // ----- where the buffers are -------------------------------------------------------------------------

  function Bufs(slots: seq<Slot>): seq<int> {
    seq(|slots|, k requires 0 <= k < |slots| => slots[k].bufIdx)
  }

  function SlotBufs(rings: seq<RingView>): seq<seq<int>> {
    seq(|rings|, i requires 0 <= i < |rings| => Bufs(rings[i].slots))
  }

  /** How many buffers satisfying `p` are anywhere but in a receive slot. */
  function Outside<R>(n: Net<R>, p: int -> bool): nat {
    Held(n.q, p) + Count(n.tokens, p) + Count(PayloadBufs(n.payloads), p) + Count(n.lost, p)
  }

  function InSlots<R>(n: Net<R>, p: int -> bool): nat {
    CountAll(SlotBufs(n.rx.rings), p)
  }

  ghost predicate NetInv<R>(n: Net<R>) {
    && Inv(n.q) && RxWf(n.rx)
    && (n.slot.Some? ==> InRange(n.rx, n.slot.value))
    && (forall i :: 0 <= i < |n.payloads| ==> n.payloads[i].handle in n.q.alive)
  }

  lemma SameSlots(rings: seq<RingView>, rings': seq<RingView>)
    requires |rings'| == |rings| && forall i :: 0 <= i < |rings| ==> rings'[i].slots == rings[i].slots
    ensures SlotBufs(rings') == SlotBufs(rings)
  {}

  lemma RewrittenSlots(rx: Rx, p: Place, buf: int)
    requires InRange(rx, p)
    ensures var was := SlotBufs(rx.rings);
      SlotBufs(Rewritten(rx, p, buf).rings) == was[p.ring := was[p.ring][p.slot := buf]]
  {
    var slots := rx.rings[p.ring].slots;
    assert forall s: Slot :: Bufs(slots[p.slot := s]) == Bufs(slots)[p.slot := s.bufIdx];
  }

  /** Taking a slot changes no slot, and the slot taken exists. */
  lemma {:induction false} NextInRange(rx: Rx)
    requires RxWf(rx)
    ensures var (rx', place) := Next(rx); RxWf(rx') && (place.Some? ==> InRange(rx', place.value))
    ensures SlotBufs(Next(rx).0.rings) == SlotBufs(rx.rings)
  {
    NextTakesFirst(rx);
    var (rx', place) := Next(rx);
    SameSlots(rx.rings, rx'.rings);
    if place.Some? {
      assert PendingAll(rx)[0] == place.value;
      PendingPlaces(rx.rings, rx.ringIdx, rx.last, 0);
      var ring := rx.rings[place.value.ring];
      PendingIsInterval(ring);
    }
  }

  /** The receive exchanges the buffer of one slot against one free buffer. */
  lemma {:induction false} SwapCounts<R>(n: Net<R>, p: int -> bool)
    requires NetInv(n) && Enabled(n, SwapBuffer)
    ensures Outside(Step(n, SwapBuffer), p) + InSlots(Step(n, SwapBuffer), p) == Outside(n, p) + InSlots(n, p)
    ensures InSlots(Step(n, SwapBuffer), x => true) == InSlots(n, x => true)
  {
    var place, x := n.slot.value, n.q.cached[|n.q.cached| - 1];
    var was := SlotBufs(n.rx.rings);
    var buf := was[place.ring][place.slot];
    RewrittenSlots(n.rx, place, x);
    CountAllUpdate(was, place.ring, was[place.ring][place.slot := x], p);
    CountUpdate(was[place.ring], place.slot, x, p);
    CountAllUpdate(was, place.ring, was[place.ring][place.slot := x], x => true);
    CountUpdate(was[place.ring], place.slot, x, x => true);
    PopCounts(n.q, p);
    CountSnoc(n.tokens, buf, p);
  }

  lemma ConsumeCounts<R>(n: Net<R>, i: nat, h: nat, p: int -> bool)
    requires Enabled(n, Consume(i, h))
    ensures Outside(Step(n, Consume(i, h)), p) == Outside(n, p)
  {
    CountAt(n.tokens, i, p);
    PayloadsSnoc(n.payloads, Payload(n.tokens[i], h));
    CountSnoc(PayloadBufs(n.payloads), n.tokens[i], p);
  }

  lemma IntoTokenCounts<R>(n: Net<R>, i: nat, p: int -> bool)
    requires Enabled(n, IntoToken(i))
    ensures Outside(Step(n, IntoToken(i)), p) == Outside(n, p)
  {
    PayloadsDrop(n.payloads, i);
    CountAt(PayloadBufs(n.payloads), i, p);
    CountSnoc(n.tokens, n.payloads[i].buf, p);
  }

  lemma LoseTokenCounts<R>(n: Net<R>, i: nat, p: int -> bool)
    requires Enabled(n, LoseToken(i))
    ensures Outside(Step(n, LoseToken(i)), p) == Outside(n, p)
  {
    CountAt(n.tokens, i, p);
    CountSnoc(n.lost, n.tokens[i], p);
  }

  lemma DropPayloadCounts<R>(n: Net<R>, i: nat, t: nat, p: int -> bool)
    requires NetInv(n) && Enabled(n, DropPayload(i, t))
    ensures Outside(Step(n, DropPayload(i, t)), p) == Outside(n, p)
  {
    PayloadsDrop(n.payloads, i);
    CountAt(PayloadBufs(n.payloads), i, p);
    PushCounts(n.q, n.payloads[i].handle, t, n.payloads[i].buf, p);
  }

  /** No step creates, destroys or copies a buffer, and the number of buffers in slots never changes. */
  lemma {:induction false} StepConserves<R>(n: Net<R>, e: NetEvent<R>, p: int -> bool)
    requires NetInv(n) && Enabled(n, e)
    ensures Outside(Step(n, e), p) + InSlots(Step(n, e), p) == Outside(n, p) + InSlots(n, p)
    ensures InSlots(Step(n, e), x => true) == InSlots(n, x => true)
  {
    match e
    case QueueStep(e) => StepCounts(n.q, e, p);
    case TakeSlot => NextInRange(n.rx);
    case ResetRx(tails) => SameSlots(n.rx.rings, Step(n, e).rx.rings);
    case SwapBuffer => SwapCounts(n, p);
    case NoMemory =>
    case DropPayload(i, t) => DropPayloadCounts(n, i, t, p);
    case Consume(i, h) => ConsumeCounts(n, i, h, p);
    case IntoToken(i) => IntoTokenCounts(n, i, p);
    case LoseToken(i) => LoseTokenCounts(n, i, p);
  }

  lemma StepNetInv<R>(n: Net<R>, e: NetEvent<R>)
    requires NetInv(n) && Enabled(n, e)
    ensures NetInv(Step(n, e)) && Step(n, e).q.capacity == n.q.capacity
  {
    match e
    case QueueStep(e) => StepInv(n.q, e); AliveAfter(n.q, e);
    case TakeSlot => NextInRange(n.rx);
    case SwapBuffer => StepInv(n.q, PopCached);
    case DropPayload(i, t) =>
      var push := Push(n.payloads[i].handle, t, n.payloads[i].buf);
      StepInv(n.q, push);
      AliveAfter(n.q, push);
    case _ =>
  }

  lemma {:induction false} RunConserves<R>(n: Net<R>, es: seq<NetEvent<R>>, p: int -> bool)
    requires NetInv(n) && Legal(n, es)
    ensures var n' := Exec(n, es);
      && NetInv(n') && n'.q.capacity == n.q.capacity
      && Outside(n', p) + InSlots(n', p) == Outside(n, p) + InSlots(n, p)
      && InSlots(n', x => true) == InSlots(n, x => true)
    decreases |es|
  {
    if es != [] {
      StepNetInv(n, es[0]);
      StepConserves(n, es[0], p);
      RunConserves(Step(n, es[0]), es[1..], p);
    }
  }

  // ----- a receive call --------------------------------------------------------------------------------

  datatype Outcome = NoPacket | OutOfMemory | Received(buf: int, len: nat)

  /** Taking a slot, starting over once if none is pending. */
  ghost function TakeCall<R>(n: Net<R>, tails: seq<nat>): (n': Net<R>)
    requires NetInv(n) && n.slot == None
    requires |tails| == |n.rx.rings| && TailsForward(Next(n.rx).0.rings, tails)
    ensures NetInv(n') && n'.q == n.q
  {
    NextInRange(n.rx);
    var n1 := Step(n, TakeSlot);
    if n1.slot.Some? then n1 else
    NextInRange(Step(n1, ResetRx(tails)).rx);
    Step(Step(n1, ResetRx(tails)), TakeSlot)
  }

  /** `recv_inner`: exchanging the buffer of the slot taken, if a free one can be had. */
  ghost function FinishCall<R>(n: Net<R>): (Net<R>, Outcome)
    requires NetInv(n) && n.slot.Some? && n.q.drain == None
  {
    RegisteredHaveRings(n.q);
    SyncIsDrainAll(n.q);
    var n' := if n.q.cached == [] then n.(q := SyncCall(n.q)) else n;
    if n'.q.cached == [] then (Step(n', NetEvent.NoMemory), OutOfMemory) else
    var slot := n'.rx.rings[n'.slot.value.ring].slots[n'.slot.value.slot];
    (Step(n', SwapBuffer), Received(slot.bufIdx, slot.len))
  }

  /** `recv_token`. */
  ghost function RecvCall<R>(n: Net<R>, tails: seq<nat>): (Net<R>, Outcome)
    requires NetInv(n) && n.slot == None && n.q.drain == None
    requires |tails| == |n.rx.rings| && TailsForward(Next(n.rx).0.rings, tails)
  {
    var n' := TakeCall(n, tails);
    if n'.slot == None then (n', NoPacket) else FinishCall(n')
  }

  lemma {:induction false} ExecAppend<R>(n: Net<R>, a: seq<NetEvent<R>>, b: seq<NetEvent<R>>)
    requires Legal(n, a) && Legal(Exec(n, a), b)
    ensures Legal(n, a + b) && Exec(n, a + b) == Exec(Exec(n, a), b)
    decreases |a|
  {
    if a == [] {
      assert a + b == b;
    } else {
      assert (a + b)[0] == a[0] && (a + b)[1..] == a[1..] + b;
      ExecAppend(Step(n, a[0]), a[1..], b);
    }
  }

  lemma {:induction false} ExecOne<R>(n: Net<R>, e: NetEvent<R>, n': Net<R>)
    requires Enabled(n, e) && n' == Step(n, e)
    ensures Legal(n, [e]) && Exec(n, [e]) == n'
  {
    assert [e][1..] == [];
  }

  /** The steps of a consumer, as steps of the backend. */
  function Lifted<R>(es: seq<Event<R>>): seq<NetEvent<R>>
    decreases |es|
  {
    if es == [] then [] else [QueueStep(es[0])] + Lifted(es[1..])
  }

  lemma {:induction false} LiftRun<R>(n: Net<R>, es: seq<Event<R>>)
    requires OnlyDrains(es) && QueueMachine.Legal(n.q, es)
    ensures Legal(n, Lifted(es)) && Exec(n, Lifted(es)) == n.(q := QueueMachine.Exec(n.q, es))
    decreases |es|
  {
    if es != [] {
      var n' := n.(q := QueueMachine.Step(n.q, es[0]));
      LiftRun(n', es[1..]);
      assert Lifted(es)[1..] == Lifted(es[1..]);
    }
  }

  /** Every receive call is a run of atomic steps, so what holds in all runs holds after any number of calls. */
  lemma {:induction false} RecvIsRun<R>(n: Net<R>, tails: seq<nat>) returns (es: seq<NetEvent<R>>)
    requires NetInv(n) && n.slot == None && n.q.drain == None
    requires |tails| == |n.rx.rings| && TailsForward(Next(n.rx).0.rings, tails)
    ensures Legal(n, es) && Exec(n, es) == RecvCall(n, tails).0
  {
    hide Inv, Next, SyncCall, RxWf, QueueMachine.Step, WithTails;
    RegisteredHaveRings(n.q);
    NextInRange(n.rx);
    StepNetInv(n, TakeSlot);
    var n1 := Step(n, TakeSlot);
    es := [TakeSlot];
    ExecOne(n, TakeSlot, n1);
    if n1.slot == None {
      var n1' := Step(n1, ResetRx(tails));
      StepNetInv(n1, ResetRx(tails));
      NextInRange(n1'.rx);
      StepNetInv(n1', TakeSlot);
      ExecOne(n1, ResetRx(tails), n1');
      ExecAppend(n, es, [ResetRx(tails)]);
      es := es + [ResetRx(tails)];
      ExecOne(n1', TakeSlot, Step(n1', TakeSlot));
      ExecAppend(n, es, [TakeSlot]);
      es := es + [TakeSlot];
    }
    var n2 := Exec(n, es);
    if n2.slot == None { return; }
    SyncIsDrainAll(n2.q);
    if n2.q.cached == [] {
      var drains := SyncIsRun(n2.q);
      LiftRun(n2, drains);
      var sync := Lifted(drains);
      ExecAppend(n, es, sync);
      es := es + sync;
    }
    var n3 := Exec(n, es);
    var last := if n3.q.cached == [] then NetEvent.NoMemory else SwapBuffer;
    ExecOne(n3, last, Step(n3, last));
    ExecAppend(n, es, [last]);
    es := es + [last];
  }

  lemma RegisteredHaveRings<R>(q: Queue<R>)
    requires Inv(q)
    ensures forall r :: r in q.registry ==> r in q.rings
  {
    forall r | r in q.registry ensures r in q.rings.Keys {}
  }

  // ----- whole runs from a freshly created socket ------------------------------------------------------

  /** A socket just created: the extra buffers were pushed one by one on handle 0 and flushed by thread `t`. */
  ghost predicate Fresh<R>(n: Net<R>, extra: seq<int>, t: nat) {
    && SeedResult(n.q, |extra|, t, extra) && RxWf(n.rx)
    && n.slot == None && n.tokens == [] && n.payloads == [] && n.lost == []
  }

  /** `Ctx::new` brings the queue into such a state. */
  lemma CreatedIsFresh<R>(extra: seq<int>, t: nat, r: R, rx: Rx)
    requires RxWf(rx)
    ensures Fresh(Net(Seeded(|extra|, t, r, extra), rx, None, [], [], []), extra, t)
  {
    hide Seeded;
    SeedingDelivers(|extra|, t, r, extra);
  }

  /** The buffers the port starts with: those of its receive slots, and the extra ones. */
  function Everything(extra: seq<int>, rx: Rx): seq<int> {
    Flatten(SlotBufs(rx.rings)) + extra
  }

  /**
    Whole-run ownership: over any run of receives (with both exits), consumes, token conversions, payload and
    token drops, context clones and drops, flushes and synchronisations, every buffer of the port is in
    exactly one place: a slot, the queue, a token, a payload, or lost; and nothing else is in any place.
  */
  lemma {:induction false} EveryBufferInOnePlace<R>(n0: Net<R>, extra: seq<int>, t: nat, es: seq<NetEvent<R>>, v: int)
    requires Fresh(n0, extra, t) && Distinct(Everything(extra, n0.rx)) && Legal(n0, es)
    ensures var n := Exec(n0, es); var p := x => x == v;
      InSlots(n, p) + Inside(n.q, p) + Count(n.q.discarded, p) + Count(n.tokens, p) + Count(PayloadBufs(n.payloads), p)
        + Count(n.lost, p) == if v in Everything(extra, n0.rx) then 1 else 0
  {
    var p := x => x == v;
    SeedResultHolds(n0.q, t, extra, p);
    RunConserves(n0, es, p);
    CountConcat(Flatten(SlotBufs(n0.rx.rings)), extra, p);
    CountFlatten(SlotBufs(n0.rx.rings), p);
    DistinctCount(Everything(extra, n0.rx), v);
  }

  /** No two receive slots, in one ring or in two, ever hold the same buffer. */
  lemma {:induction false} SlotsNeverShare<R>(n0: Net<R>, extra: seq<int>, t: nat, es: seq<NetEvent<R>>, a: Place, b: Place)
    requires Fresh(n0, extra, t) && Distinct(Everything(extra, n0.rx)) && Legal(n0, es)
    requires var rx' := Exec(n0, es).rx; InRange(rx', a) && InRange(rx', b) && a != b
    ensures var rings := Exec(n0, es).rx.rings;
      rings[a.ring].slots[a.slot].bufIdx != rings[b.ring].slots[b.slot].bufIdx
  {
    var n := Exec(n0, es);
    var bufs := SlotBufs(n.rx.rings);
    var v := bufs[a.ring][a.slot];
    EveryBufferInOnePlace(n0, extra, t, es, v);
    if bufs[b.ring][b.slot] == v {
      CountAllAtMostOnce(bufs, x => x == v, a.ring, a.slot, b.ring, b.slot);
    }
  }

  /** The number of buffers outside the receive slots is always the number of extra buffers. */
  lemma {:induction false} OutsideIsExtra<R>(n0: Net<R>, extra: seq<int>, t: nat, es: seq<NetEvent<R>>)
    requires Fresh(n0, extra, t) && Legal(n0, es)
    ensures var n := Exec(n0, es);
      NetInv(n) && n.q.capacity == |extra| && Outside(n, x => true) == |extra|
  {
    var p := (x: int) => true;
    SeedResultHolds(n0.q, t, extra, p);
    CountEverything(extra, p);
    RunConserves(n0, es, p);
  }

  /** Overflow is impossible: whenever a full batch is flushed its ring has room, so the flush loses nothing. */
  lemma {:induction false} FlushNeverRefused<R>(n0: Net<R>, extra: seq<int>, t: nat, es: seq<NetEvent<R>>, h: nat, u: nat)
    requires Fresh(n0, extra, t) && Legal(n0, es)
    requires var q := Exec(n0, es).q;
      h < |q.batches| && HasRing(q, u) && |q.batches[h]| == BATCH
    ensures var q := Exec(n0, es).q;
      && |q.rings[q.slots[u]].groups| < q.capacity
      && Loss(q, h, u) == [] && Flushed(q, h, u).discarded == q.discarded
      && Flushed(q, h, u).rings[q.slots[u]].groups == q.rings[q.slots[u]].groups + [q.batches[h]]
  {
    var n := Exec(n0, es);
    OutsideIsExtra(n0, extra, t, es);
    FullBatchFindsRoom(n.q, h, u);
    FlushAllOrNothing(n.q, h, u);
  }
}
