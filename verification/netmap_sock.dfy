/** The netmap socket and its context, over the queue and ring objects. */
module NetmapSock {
  import opened Bags
  import opened QueueMachine
  import opened QueueProperties
  import opened NetmapRing
  import opened NetmapMachine
  import opened NetmapCalls
  import opened QueueSupply
  import T = Tokens
  import M = Mpsc
  import C = Channel

  /** A context handle: a producer handle of the channel of free buffers, and the pool id. */
  class Ctx {
    const channel: C.Channel
    const handle: nat
    const index: nat

    constructor (channel: C.Channel, handle: nat, index: nat)
      ensures this.channel == channel && this.handle == handle && this.index == index
    {
      this.channel, this.handle, this.index := channel, handle, index;
    }

    /** Returns a buffer to the pool: one push, running on thread `t`. */
    method Release(t: nat, buf: int)
      requires channel.Valid() && Inv(channel.state) && handle in channel.state.alive
      requires handle < |channel.handles|
      requires |channel.state.batches[handle]| == BATCH && t !in channel.perThread.slots ==> |channel.registry.list| < MAX_RINGS
      modifies channel`state, channel.handles[handle], channel.perThread, channel.registry, channel.perThread.Own(t)
      ensures channel.Valid()
      ensures |old(channel.state).batches[handle]| < BATCH ==> channel.state == QueueMachine.Step(old(channel.state), Push(handle, t, buf))
      ensures |old(channel.state).batches[handle]| == BATCH ==>
        && t in channel.perThread.slots && CanEnsure(old(channel.state), handle, t, channel.perThread.slots[t])
        && channel.state == PushCall(old(channel.state), handle, t, channel.perThread.slots[t], buf)
    {
      channel.Push(handle, t, buf);
    }
  }

  /** `Ctx::new`: seeds the queue with the extra buffers and flushes once, on thread `t`. */
  method NewCtx(counter: nat, indexes: seq<nat>, t: nat) returns (ctx: Ctx)
    ensures fresh(ctx) && fresh(ctx.channel) && ctx.channel.Valid()
    ensures ctx.index == T.PoolId(counter) && ctx.handle == 0
    ensures SeedResult(ctx.channel.state, |indexes|, t, indexes)
    ensures var m := |indexes| - |indexes| % BATCH;
      Delivered(ctx.channel.state, t) == indexes[..m] && ctx.channel.state.discarded == indexes[m..]
  {
    hide Inv, C.Channel.Valid, Seeding, SeedResult;
    var channel := new C.Channel(|indexes|);
    SeedNothing<M.SpscRing>(|indexes|, t);
    assert SeedingTo(channel.state, |indexes|, t, []);
    for i := 0 to |indexes|
      invariant fresh(channel) && fresh(channel.registry) && fresh(channel.perThread)
      invariant |channel.handles| == 1 && fresh(channel.handles[0]) && fresh(channel.perThread.Own(t))
      invariant channel.Valid() && SeedingTo(channel.state, |indexes|, t, indexes[..i])
    {
      SeedOne(channel, |indexes|, t, indexes[..i], indexes[i]);
      PrefixSnoc(indexes, i);
    }
    assert indexes[..|indexes|] == indexes;
    SeedLast(channel, |indexes|, t, indexes);
    SeedParts(channel.state, t, indexes);
    ctx := new Ctx(channel, 0, T.PoolId(counter));
  }

  lemma SeedParts<R>(q: Queue<R>, t: nat, xs: seq<int>)
    requires SeedResult(q, |xs|, t, xs)
    ensures var m := |xs| - |xs| % BATCH; Delivered(q, t) == xs[..m] && q.discarded == xs[m..]
  {}

  lemma PrefixSnoc(xs: seq<nat>, i: nat)
    requires i < |xs|
    ensures xs[..i + 1] == xs[..i] + [xs[i]]
  {}

  method SeedOne(channel: C.Channel, ghost capacity: nat, t: nat, ghost xs: seq<int>, x: int)
    requires channel.Valid() && |channel.handles| > 0
    requires SeedingTo(channel.state, capacity, t, xs) && |xs| < capacity
    modifies channel`state, channel.handles[0], channel.perThread, channel.registry, channel.perThread.Own(t)
    ensures channel.Valid() && SeedingTo(channel.state, capacity, t, xs + [x])
    ensures fresh(channel.perThread.Own(t) - old(channel.perThread.Own(t)))
  {
    hide Inv, C.Channel.Valid, SeedingTo, Seeding;
    ghost var q := channel.state;
    SeedingFacts(q, capacity, t, xs);
    channel.StateTables();
    channel.Push(0, t, x);
    if |q.batches[0]| < BATCH {
      SeedNext(q, capacity, t, xs, x);
    } else {
      SeedNextFull(q, capacity, t, channel.perThread.slots[t], xs, x);
    }
  }

  method SeedLast(channel: C.Channel, ghost capacity: nat, t: nat, ghost xs: seq<int>)
    requires channel.Valid() && |channel.handles| > 0
    requires SeedingTo(channel.state, capacity, t, xs) && |xs| <= capacity
    modifies channel`state, channel.handles[0], channel.perThread, channel.registry, channel.perThread.Own(t)
    ensures channel.Valid() && SeedResult(channel.state, capacity, t, xs)
  {
    hide Inv, C.Channel.Valid, SeedingTo, Seeding, SeedResult;
    ghost var q := channel.state;
    SeedingFacts(q, capacity, t, xs);
    channel.StateTables();
    channel.Flush(0, t);
    if xs == [] {
      SeedFinishNothing(q, capacity, t);
    } else {
      SeedFinishSome(q, capacity, t, channel.perThread.slots[t], xs);
    }
  }

  ghost predicate SeedingTo<R>(q: Queue<R>, capacity: nat, t: nat, xs: seq<int>) {
    Seeding(q, capacity, t, xs) && (xs != [] ==> q.batches[0] != [])
  }

  lemma SeedingFacts<R>(q: Queue<R>, capacity: nat, t: nat, xs: seq<int>)
    requires SeedingTo(q, capacity, t, xs)
    ensures Inv(q) && 0 in q.alive && |q.batches| == 1 && |q.registry| <= 1 && |q.batches[0]| <= BATCH
    ensures xs == [] <==> q.batches[0] == []
  {}

  lemma SeedNext<R>(q: Queue<R>, capacity: nat, t: nat, xs: seq<int>, x: int)
    requires SeedingTo(q, capacity, t, xs) && |q.batches[0]| < BATCH
    ensures SeedingTo(QueueMachine.Step(q, Push(0, t, x)), capacity, t, xs + [x])
  {
    SeedAppend(q, capacity, t, xs, x);
  }

  lemma SeedNextFull<R>(q: Queue<R>, capacity: nat, t: nat, r: R, xs: seq<int>, x: int)
    requires SeedingTo(q, capacity, t, xs) && |q.batches[0]| == BATCH && CanEnsure(q, 0, t, r) && |xs| < capacity
    ensures SeedingTo(PushCall(q, 0, t, r, x), capacity, t, xs + [x])
  {
    assert (xs + [x])[..|xs|] == xs;
    SeedPush(q, capacity, t, r, xs + [x]);
  }

  lemma SeedFinishSome<R>(q: Queue<R>, capacity: nat, t: nat, r: R, xs: seq<int>)
    requires SeedingTo(q, capacity, t, xs) && CanEnsure(q, 0, t, r) && |xs| <= capacity && xs != []
    ensures CanFlushCall(q, 0, t, r) && SeedResult(FlushCall(q, 0, t, r), capacity, t, xs)
  {
    SeedFinish(q, capacity, t, r, xs);
  }

  lemma SeedFinishNothing<R>(q: Queue<R>, capacity: nat, t: nat)
    requires SeedingTo(q, capacity, t, [])
    ensures SeedResult(q, capacity, t, [])
  {}

  datatype RecvResult = ErrNoPacket | ErrNoMemory | Ok(token: T.Token)

  /** A socket: the receiver, and a context whose channel is also consumed here. */
  class Sock {
    const rx: Receiver
    const ctx: Ctx

    constructor (rx: Receiver, ctx: Ctx)
      ensures this.rx == rx && this.ctx == ctx
    {
      this.rx, this.ctx := rx, ctx;
    }

    /** Exchanges the buffer of the slot at `place` against a free one; without a free one the slot keeps its buffer. */
    method RecvInner(place: Place) returns (r: RecvResult)
      requires ctx.channel.Valid() && rx.Valid()
      requires NetInv(Snapshot(ctx.channel.state, rx.Value(), Some(place))) && ctx.channel.state.drain == None
      modifies ctx.channel`state, ctx.channel.consumer, ctx.channel.registry.list, rx.Arrays()
      ensures ctx.channel.Valid() && rx.Valid()
      ensures var (n, outcome) := FinishCall(Snapshot(old(ctx.channel.state), old(rx.Value()), Some(place)));
        ctx.channel.state == n.q && rx.Value() == n.rx && r == ResultOf(outcome, ctx.index)
    {
      hide Inv, C.Channel.Valid, PopCall, Distinct, M.Contents, FinishCall, RxWf, SyncCall;
      FinishIsPop(ctx.channel.state, rx.Value(), place);
      var free := ctx.channel.Pop();
      if free == None { return ErrNoMemory; }
      var slot := rx.rings[place.ring].slots[place.slot];
      rx.Rewrite(place, free.value);
      r := Ok(T.Token(slot.bufIdx, slot.len, ctx.index));
    }

    /** The next slot, starting over and synchronising once if none is pending. */
    method TakeSlot(tails: seq<nat>, ghost q: Queue<M.SpscRing>) returns (place: Option<Place>)
      requires rx.Valid() && NetInv(Snapshot(q, rx.Value(), None))
      requires |tails| == |rx.rings| && TailsForward(Next(rx.Value()).0.rings, tails)
      modifies rx`ringIdx, rx`curRing, rx.rings`head, rx.rings`cur, rx.rings`tail
      ensures rx.Valid() && Snapshot(q, rx.Value(), place) == TakeCall(Snapshot(q, old(rx.Value()), None), tails)
    {
      hide Inv, Distinct, Next, RxWf;
      NextInRange(rx.Value());
      place := rx.NextSlot();
      if place == None {
        rx.Reset(tails);
        NextInRange(rx.Value());
        place := rx.NextSlot();
      }
    }

    /** `recv_token`: the call is exactly the machine's receive call; what it returns is stated by `Returned`. */
    method RecvToken(tails: seq<nat>) returns (r: RecvResult, ghost again: bool, ghost at: Place)
      requires ctx.channel.Valid() && rx.Valid()
      requires NetInv(Snapshot(ctx.channel.state, rx.Value(), None)) && ctx.channel.state.drain == None
      requires |tails| == |rx.rings| && TailsForward(Next(rx.Value()).0.rings, tails)
      modifies ctx.channel`state, ctx.channel.consumer, ctx.channel.registry.list
      modifies rx`ringIdx, rx`curRing, rx.rings`head, rx.rings`cur, rx.rings`tail, rx.Arrays()
      ensures ctx.channel.Valid() && rx.Valid()
      ensures var (n, outcome) := RecvCall(Snapshot(old(ctx.channel.state), old(rx.Value()), None), tails);
        ctx.channel.state == n.q && rx.Value() == n.rx && r == ResultOf(outcome, ctx.index)
      ensures Returned(old(rx.Value()), tails, Obtainable(old(ctx.channel.state)), ctx.index, rx.Value(), r, again, at)
    {
      hide Inv, C.Channel.Valid, FinishCall, TakeCall, NetInv, Distinct, M.Contents, Next, RxWf, RecvCall, Returned;
      ghost var n := Snapshot(ctx.channel.state, rx.Value(), None);
      again, at := RecvIsReturned(n, tails, ctx.index);
      RecvSplits(n, tails);
      var place := TakeSlot(tails, ctx.channel.state);
      if place == None { return ErrNoPacket, again, at; }
      r := RecvInner(place.value);
    }
  }

  /** The machine state a socket is in while the program holds nothing. */
  ghost function Snapshot<R>(q: Queue<R>, rx: Rx, slot: Option<Place>): Net<R> {
    Net(q, rx, slot, [], [], [])
  }

  /**
    What a receive returns.  It starts over (`again`) if every ring from the current one on has its head at its tail;
    there is no packet exactly if the synchronised tails are at the heads as well, and no memory if no buffer is to be
    had.  Otherwise `at` is the slot at the head of the first ring with a packet: the token has its buffer and length
    and the socket's pool id, and the slot keeps its length and pointer and is marked as changed.
  */
  ghost predicate Returned(was: Rx, tails: seq<nat>, obtainable: nat, index: nat, now: Rx, r: RecvResult, again: bool, at: Place) {
    && was.first <= was.last < |was.rings| == |tails| && |now.rings| == |was.rings|
    && (was.open ==> was.ringIdx <= was.last)
    && (again <==> !was.open || forall k :: was.ringIdx <= k <= was.last ==> was.rings[k].head == was.rings[k].tail)
    && (r == ErrNoPacket <==> again && forall k :: was.first <= k <= was.last ==> was.rings[k].head == tails[k])
    && (r == ErrNoMemory <==> r != ErrNoPacket && obtainable == 0)
    && (r.Ok? ==>
          && HeadOfFirst(was, tails, again, at) && |now.rings[at.ring].slots| == |was.rings[at.ring].slots|
          && var slot, got := was.rings[at.ring].slots[at.slot], now.rings[at.ring].slots[at.slot];
             && r.token.idx == slot.bufIdx && r.token.len == slot.len && r.token.pool == index
             && MarkedChanged(slot, got))
  }

  lemma {:induction false} RecvIsReturned<R>(n: Net<R>, tails: seq<nat>, index: nat) returns (again: bool, at: Place)
    requires NetInv(n) && n.slot == None && n.q.drain == None
    requires |tails| == |n.rx.rings| && TailsForward(Next(n.rx).0.rings, tails)
    ensures var (n', outcome) := RecvCall(n, tails);
      Returned(n.rx, tails, Obtainable(n.q), index, n'.rx, ResultOf(outcome, index), again, at)
  {
    hide RecvCall, Obtainable, Next, TailsForward, Looked, Inv, MarkedChanged;
    CanPopIff(n.q);
    again, at := RecvReturns(n, tails);
    RecvKeepsShape(n, tails);
  }

  /** The rings of a receiver keep their number and their sizes. */
  lemma {:induction false} RecvKeepsShape<R>(n: Net<R>, tails: seq<nat>)
    requires NetInv(n) && n.slot == None && n.q.drain == None
    requires |tails| == |n.rx.rings| && TailsForward(Next(n.rx).0.rings, tails)
    ensures var (n', outcome) := RecvCall(n, tails);
      |n'.rx.rings| == |n.rx.rings| && forall k :: 0 <= k < |n.rx.rings| ==> |n'.rx.rings[k].slots| == |n.rx.rings[k].slots|
  {
    hide Inv, Next, TailsForward, SyncCall;
    TakeKeepsShape(n, tails);
    var n1 := TakeCall(n, tails);
    hide TakeCall;
  }

  lemma {:induction false} TakeKeepsShape<R>(n: Net<R>, tails: seq<nat>)
    requires NetInv(n) && n.slot == None
    requires |tails| == |n.rx.rings| && TailsForward(Next(n.rx).0.rings, tails)
    ensures var n' := TakeCall(n, tails);
      |n'.rx.rings| == |n.rx.rings| && forall k :: 0 <= k < |n.rx.rings| ==> |n'.rx.rings[k].slots| == |n.rx.rings[k].slots|
  {
    hide Inv, Next;
    NextTakesFirst(n.rx);
    if Next(n.rx).1 == None {
      NextTakesFirst(NetmapMachine.Step(NetmapMachine.Step(n, TakeSlot), ResetRx(tails)).rx);
    }
  }

  lemma RecvSplits<R>(n: Net<R>, tails: seq<nat>)
    requires NetInv(n) && n.slot == None && n.q.drain == None
    requires |tails| == |n.rx.rings| && TailsForward(Next(n.rx).0.rings, tails)
    ensures var n' := TakeCall(n, tails); RecvCall(n, tails) == if n'.slot == None then (n', NoPacket) else FinishCall(n')
  {}

  function ResultOf(outcome: Outcome, pool: nat): RecvResult {
    match outcome
    case NoPacket => ErrNoPacket
    case OutOfMemory => ErrNoMemory
    case Received(buf, len) => Ok(T.Token(buf, len, pool))
  }

  lemma FinishIsPop<R>(q: Queue<R>, rx: Rx, place: Place)
    requires NetInv(Snapshot(q, rx, Some(place))) && q.drain == None
    ensures forall r :: r in q.registry ==> r in q.rings
    ensures var (n, outcome) := FinishCall(Snapshot(q, rx, Some(place))); var (q', x) := PopCall(q);
      var slot := rx.rings[place.ring].slots[place.slot];
      && n.q == q'
      && n.rx == (if x == None then rx else Rewritten(rx, place, x.value))
      && outcome == (if x == None then OutOfMemory else Received(slot.bufIdx, slot.len))
  {
    hide Inv, SyncCall, RxWf;
    RegisteredHaveRings(q);
    SyncIsDrainAll(q);
  }
}
