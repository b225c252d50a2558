/**
  The AF_XDP backend over whole runs: where every frame is.  A frame is identified by its address divided by
  the frame size, because the kernel may move the start of a packet inside its frame.
*/
module AfXdpMachine {
  import opened Bags
  import Bits
  import opened QueueMachine
  import opened QueueAccounting
  import opened QueueProperties
  import opened Holdings
  import opened FillRings

  /**
    `fill` is the fill ring; `rx`, `submitted` and `completion` are the contents of the kernel's other rings;
    `rxCache` the descriptors read but not yet returned; `handed` the addresses in the transmit slots handed out
    and not yet submitted.  `slots` is the memory of the transmit ring, in which the slot handed out next is
    number `next`.
  */
  datatype Xdp<R(==)> = Xdp(
    frameSize: nat, q: Queue<R>,
    fill: FillRing, rx: seq<int>, rxCache: seq<int>,
    tokens: seq<int>, payloads: seq<Payload>,
    handed: seq<int>, submitted: seq<int>, completion: seq<int>,
    slots: seq<int>, next: nat, lost: seq<int>)

  datatype XdpEvent<R> =
    | QueueStep(e: Event<R>)
    | RefillReserve(n: nat)
    | RefillTake
    | RefillSubmit
    | RefillFail
    | KernelReceive(addr: int)
    | RxPeek(n: nat)
    | RxTake
    | Send
    | SendWithoutFrame
    | TxSync
    | KernelTransmit(i: nat)
    | CompletePush(t: nat)
    | Consume(i: nat, h: nat)
    | IntoToken(i: nat)
    | DropPayload(i: nat, t: nat)
    | LoseToken(i: nat)

  predicate CanSend<R(==)>(x: Xdp<R>) { x.slots != [] }

  predicate Enabled<R(==)>(x: Xdp<R>, e: XdpEvent<R>) {
    match e
    case QueueStep(e) =>
      && !e.Push? && !e.PopCached? && QueueMachine.Enabled(x.q, e)
      && (e.DropHandle? ==> !Borrowed(x.payloads, e.h))
    case RefillReserve(n) => CanReserve(x.fill, n)
    case RefillTake => CanWrite(x.fill) && QueueMachine.Enabled(x.q, PopCached)
    case RefillSubmit => CanSubmit(x.fill)
    case RefillFail => CanWrite(x.fill) && x.q.cached == []
    case KernelReceive(addr) =>
      x.frameSize > 0 && x.fill.kernel != [] && addr / x.frameSize == x.fill.kernel[0] / x.frameSize
    case RxPeek(n) => n <= |x.rx|
    case RxTake => x.rxCache != []
    case Send => CanSend(x) && QueueMachine.Enabled(x.q, PopCached)
    case SendWithoutFrame => CanSend(x) && x.q.cached == []
    case TxSync => true
    case KernelTransmit(i) => i < |x.submitted|
    case CompletePush(t) => x.completion != [] && QueueMachine.Enabled(x.q, Push(0, t, x.completion[0]))
    case Consume(i, h) => i < |x.tokens| && h in x.q.alive
    case IntoToken(i) => i < |x.payloads|
    case DropPayload(i, t) =>
      i < |x.payloads| && QueueMachine.Enabled(x.q, Push(x.payloads[i].handle, t, x.payloads[i].buf))
    case LoseToken(i) => i < |x.tokens|
  }

  function Newest<R>(q: Queue<R>): int
    requires q.cached != []
  {
    q.cached[|q.cached| - 1]
  }

  function Step<R>(x: Xdp<R>, e: XdpEvent<R>): Xdp<R>
    requires Enabled(x, e)
  {
    match e
    case QueueStep(e) => x.(q := QueueMachine.Step(x.q, e))
    case RefillReserve(n) => x.(fill := Reserve(x.fill, n))
    case RefillTake => x.(q := QueueMachine.Step(x.q, PopCached), fill := Write(x.fill, Newest(x.q)))
    case RefillSubmit => x.(fill := Submit(x.fill))
    case RefillFail => x.(fill := Fail(x.fill))
    case KernelReceive(addr) => x.(fill := x.fill.(kernel := x.fill.kernel[1..]), rx := x.rx + [addr])
    case RxPeek(n) => x.(rx := x.rx[n..], rxCache := x.rxCache + x.rx[..n])
    case RxTake => x.(rxCache := x.rxCache[1..], tokens := x.tokens + [x.rxCache[0]])
    case Send =>
      x.(q := QueueMachine.Step(x.q, PopCached), handed := x.handed + [Newest(x.q)],
         slots := x.slots[x.next % |x.slots| := Newest(x.q)], next := x.next + 1)
    case SendWithoutFrame => x.(handed := x.handed + [x.slots[x.next % |x.slots|]], next := x.next + 1)
    case TxSync => x.(submitted := x.submitted + x.handed, handed := [])
    case KernelTransmit(i) =>
      x.(submitted := Drop(x.submitted, i), completion := x.completion + [x.submitted[i]])
    case CompletePush(t) =>
      x.(q := QueueMachine.Step(x.q, Push(0, t, x.completion[0])), completion := x.completion[1..])
    case Consume(i, h) => x.(tokens := Drop(x.tokens, i), payloads := x.payloads + [Payload(x.tokens[i], h)])
    case IntoToken(i) => x.(payloads := Drop(x.payloads, i), tokens := x.tokens + [x.payloads[i].buf])
    case DropPayload(i, t) =>
      x.(payloads := Drop(x.payloads, i),
         q := QueueMachine.Step(x.q, Push(x.payloads[i].handle, t, x.payloads[i].buf)))
    case LoseToken(i) => x.(tokens := Drop(x.tokens, i), lost := x.lost + [x.tokens[i]])
  }

  predicate Legal<R(==)>(x: Xdp<R>, es: seq<XdpEvent<R>>)
    decreases |es|
  {
    es == [] || (Enabled(x, es[0]) && Legal(Step(x, es[0]), es[1..]))
  }

  function Exec<R>(x: Xdp<R>, es: seq<XdpEvent<R>>): Xdp<R>
    requires Legal(x, es)
    decreases |es|
  {
    if es == [] then x else Exec(Step(x, es[0]), es[1..])
  }

  // ----- where the frames are --------------------------------------------------------------------------

  function InFrame(frameSize: nat, v: int): int -> bool {
    a => frameSize > 0 && a / frameSize == v
  }

  function InKernel<R(==)>(x: Xdp<R>, p: int -> bool): nat {
    CountRing(x.fill, p) + Count(x.rx, p) + Count(x.rxCache, p)
      + Count(x.handed, p) + Count(x.submitted, p) + Count(x.completion, p)
  }

  function InProgram<R(==)>(x: Xdp<R>, p: int -> bool): nat {
    Count(x.tokens, p) + Count(PayloadBufs(x.payloads), p) + Count(x.lost, p)
  }

  /** In how many places there are addresses satisfying `p`. */
  function Total<R>(x: Xdp<R>, p: int -> bool): nat {
    Held(x.q, p) + InKernel(x, p) + InProgram(x, p)
  }

  /** `p` does not tell addresses in the same frame apart. */
  ghost predicate OnFrames(p: int -> bool, frameSize: nat) {
    forall a: int, b: int :: frameSize > 0 && a / frameSize == b / frameSize ==> p(a) == p(b)
  }

  ghost predicate XdpInv<R>(x: Xdp<R>) {
    Inv(x.q) && FillOk(x.fill) && forall i :: 0 <= i < |x.payloads| ==> x.payloads[i].handle in x.q.alive
  }

  /** Moving the first element of one place to the end of another. */
  lemma MoveFirst(a: seq<int>, b: seq<int>, v: int, p: int -> bool)
    requires a != [] && p(v) == p(a[0])
    ensures Count(a, p) + Count(b, p) == Count(a[1..], p) + Count(b + [v], p)
  {
    CountAt(a, 0, p);
    assert a[..0] + a[1..] == a[1..];
    CountSnoc(b, v, p);
  }

  lemma MoveAt(a: seq<int>, i: nat, b: seq<int>, p: int -> bool)
    requires i < |a|
    ensures Count(a, p) + Count(b, p) == Count(Drop(a, i), p) + Count(b + [a[i]], p)
  {
    CountAt(a, i, p);
    CountSnoc(b, a[i], p);
  }

  lemma MovePrefix(a: seq<int>, n: nat, b: seq<int>, p: int -> bool)
    requires n <= |a|
    ensures Count(a, p) + Count(b, p) == Count(a[n..], p) + Count(b + a[..n], p)
  {
    assert a == a[..n] + a[n..];
    CountConcat(a[..n], a[n..], p);
    CountConcat(b, a[..n], p);
  }

  lemma PayloadToPlace(ps: seq<Payload>, i: nat, b: seq<int>, p: int -> bool)
    requires i < |ps|
    ensures Count(PayloadBufs(ps), p) == Count(PayloadBufs(Drop(ps, i)), p) + (if p(ps[i].buf) then 1 else 0)
    ensures Count(b + [ps[i].buf], p) == Count(b, p) + (if p(ps[i].buf) then 1 else 0)
  {
    PayloadsDrop(ps, i);
    CountAt(PayloadBufs(ps), i, p);
    CountSnoc(b, ps[i].buf, p);
  }

  /** The steps that copy no frame: a send has found one, and a submission covers only entries that were written. */
  predicate Keeps<R(==)>(x: Xdp<R>, e: XdpEvent<R>) {
    !e.SendWithoutFrame? && (e.RefillSubmit? ==> CoversWritten(x.fill, x.fill.batch))
  }

  /** No step but a send without a frame or a submission of unwritten entries creates, destroys or copies a frame. */
  lemma {:induction false} StepConserves<R>(x: Xdp<R>, e: XdpEvent<R>, p: int -> bool)
    requires XdpInv(x) && Enabled(x, e) && Keeps(x, e) && OnFrames(p, x.frameSize)
    ensures Total(Step(x, e), p) == Total(x, p)
  {
    hide Inv, Held, QueueMachine.Step, QueueMachine.Enabled, CountRing, FillOk, CoversWritten, Submit, Write, Reserve;
    match e
    case QueueStep(e) => QueueCounts(x.q, e, p);
    case RxPeek(n) => MovePrefix(x.rx, n, x.rxCache, p);
    case RxTake => MoveFirst(x.rxCache, x.tokens, x.rxCache[0], p);
    case Send => NewestCounts(x.q, x.handed, p);
    case TxSync => CountConcat(x.submitted, x.handed, p);
    case KernelTransmit(i) => MoveAt(x.submitted, i, x.completion, p);
    case KernelReceive(addr) => ReceiveCounts(x.fill, x.rx, addr, p);
    case CompletePush(t) =>
      MoveFirst(x.completion, [], x.completion[0], p);
      CountSnoc([], x.completion[0], p);
      PushCounts(x.q, 0, t, x.completion[0], p);
    case _ => if OfRefill(e) { RefillConserves(x, e, p); } else { ProgramConserves(x, e, p); }
  }

  predicate OfRefill<R>(e: XdpEvent<R>) { e.RefillReserve? || e.RefillTake? || e.RefillSubmit? || e.RefillFail? }

  lemma {:induction false} RefillConserves<R>(x: Xdp<R>, e: XdpEvent<R>, p: int -> bool)
    requires XdpInv(x) && Enabled(x, e) && Keeps(x, e) && OfRefill(e)
    ensures Total(Step(x, e), p) == Total(x, p)
  {
    hide Inv, Held, QueueMachine.Step, QueueMachine.Enabled, CountRing, FillOk, CoversWritten, Submit, Write, Reserve;
    match e
    case RefillReserve(n) => ReserveCounts(x.fill, n, p);
    case RefillTake =>
      NewestCounts(x.q, [], p);
      CountSnoc([], Newest(x.q), p);
      WriteCounts(x.fill, Newest(x.q), p);
    case RefillSubmit => SubmitCounts(x.fill, p);
    case RefillFail => FailCounts(x.fill, p);
  }

  lemma {:induction false} ProgramConserves<R>(x: Xdp<R>, e: XdpEvent<R>, p: int -> bool)
    requires XdpInv(x) && Enabled(x, e) && (e.Consume? || e.IntoToken? || e.DropPayload? || e.LoseToken?)
    ensures Total(Step(x, e), p) == Total(x, p)
  {
    hide Inv, Held, QueueMachine.Step, QueueMachine.Enabled, CountRing;
    match e
    case Consume(i, h) =>
      MoveAt(x.tokens, i, PayloadBufs(x.payloads), p);
      PayloadsSnoc(x.payloads, Payload(x.tokens[i], h));
    case IntoToken(i) => PayloadToPlace(x.payloads, i, x.tokens, p);
    case DropPayload(i, t) =>
      PayloadToPlace(x.payloads, i, [], p);
      PushCounts(x.q, x.payloads[i].handle, t, x.payloads[i].buf, p);
    case LoseToken(i) => MoveAt(x.tokens, i, x.lost, p);
  }

  lemma FailCounts(f: FillRing, p: int -> bool)
    ensures CountRing(Fail(f), p) == CountRing(f, p)
  {}

  lemma ReceiveCounts(f: FillRing, rx: seq<int>, a: int, p: int -> bool)
    requires f.kernel != [] && p(a) == p(f.kernel[0])
    ensures CountRing(f, p) + Count(rx, p) == CountRing(f.(kernel := f.kernel[1..]), p) + Count(rx + [a], p)
  {
    MoveFirst(f.kernel, rx, a, p);
  }

  lemma QueueCounts<R>(q: Queue<R>, e: Event<R>, p: int -> bool)
    requires Inv(q) && QueueMachine.Enabled(q, e) && !e.Push? && !e.PopCached?
    ensures Held(QueueMachine.Step(q, e), p) == Held(q, p)
  {
    StepCounts(q, e, p);
  }

  lemma NewestCounts<R>(q: Queue<R>, to: seq<int>, p: int -> bool)
    requires Inv(q) && QueueMachine.Enabled(q, PopCached)
    ensures q.cached != []
    ensures Held(QueueMachine.Step(q, PopCached), p) + Count(to + [Newest(q)], p) == Held(q, p) + Count(to, p)
  {
    PopCounts(q, p);
    CountSnoc(to, Newest(q), p);
  }

  lemma {:induction false} StepXdpInv<R>(x: Xdp<R>, e: XdpEvent<R>)
    requires XdpInv(x) && Enabled(x, e)
    ensures XdpInv(Step(x, e)) && Step(x, e).q.capacity == x.q.capacity && Step(x, e).frameSize == x.frameSize
  {
    hide Inv, QueueMachine.Step;
    match e
    case QueueStep(e) => StepInv(x.q, e); AliveAfter(x.q, e);
    case RefillTake => StepInv(x.q, PopCached); AliveAfter(x.q, PopCached);
    case Send => StepInv(x.q, PopCached); AliveAfter(x.q, PopCached);
    case CompletePush(t) =>
      var push := Push(0, t, x.completion[0]);
      StepInv(x.q, push);
      AliveAfter(x.q, push);
    case DropPayload(i, t) =>
      var push := Push(x.payloads[i].handle, t, x.payloads[i].buf);
      StepInv(x.q, push);
      AliveAfter(x.q, push);
    case _ =>
  }

  /** A run all of whose sends find a free frame and all of whose submissions cover written entries. */
  predicate Sound<R(==)>(x: Xdp<R>, es: seq<XdpEvent<R>>)
    requires Legal(x, es)
    decreases |es|
  {
    es == [] || (Keeps(x, es[0]) && Sound(Step(x, es[0]), es[1..]))
  }

  lemma {:induction false} RunConserves<R>(x: Xdp<R>, es: seq<XdpEvent<R>>, p: int -> bool)
    requires XdpInv(x) && Legal(x, es) && Sound(x, es) && OnFrames(p, x.frameSize)
    ensures var x' := Exec(x, es);
      XdpInv(x') && x'.q.capacity == x.q.capacity && x'.frameSize == x.frameSize && Total(x', p) == Total(x, p)
    decreases |es|
  {
    if es != [] {
      hide Total, XdpInv, OnFrames, Enabled, Step, Keeps;
      StepXdpInv(x, es[0]);
      StepConserves(x, es[0], p);
      RunConserves(Step(x, es[0]), es[1..], p);
    }
  }

  // ----- whole runs from a freshly created socket ------------------------------------------------------

  /** The addresses the constructor pushes. */
  function FrameAddrs(num: nat, frameSize: nat): (s: seq<int>)
    ensures |s| == num && forall i :: 0 <= i < num ==> s[i] == i * frameSize
  {
    seq(num, i => i * frameSize)
  }

  /**
    `Sock::create` up to the seeding: `num` frames on the queue, ring memory zeroed.  The frames are `spacing` apart,
    while `frameSize` is the size of the kernel's chunks.
  */
  ghost predicate FreshSpaced<R>(x: Xdp<R>, num: nat, spacing: nat, t: nat) {
    && x.frameSize > 0 && SeedResult(x.q, num, t, FrameAddrs(num, spacing))
    && FreshFill(x.fill) && x.rx == [] && x.rxCache == [] && x.tokens == [] && x.payloads == []
    && x.handed == [] && x.submitted == [] && x.completion == [] && x.lost == []
    && x.next == 0 && (forall k :: 0 <= k < |x.slots| ==> x.slots[k] == 0)
  }

  /** The two sizes agree. */
  ghost predicate Fresh<R>(x: Xdp<R>, num: nat, t: nat) { FreshSpaced(x, num, x.frameSize, t) }

  ghost predicate FreshFill(f: FillRing) {
    f.mem != [] && (forall k :: 0 <= k < |f.mem| ==> f.mem[k] == 0)
    && f.at == 0 && f.kernel == [] && f.reserved == [] && f.batch == 0 && f.written == 0
  }

  lemma CreatedIsFresh<R>(num: nat, frameSize: nat, fillSize: nat, txSize: nat, t: nat, r: R)
    requires frameSize > 0 && fillSize > 0
    ensures Fresh(Xdp(frameSize, Seeded(num, t, r, FrameAddrs(num, frameSize)),
      FillRing(seq(fillSize, i => 0), 0, [], [], 0, 0), [], [], [], [], [], [], [], seq(txSize, i => 0), 0, []), num, t)
  {
    hide Seeded, SeedResult;
    SeedingDelivers(num, t, r, FrameAddrs(num, frameSize));
  }

  lemma FrameOf(i: nat, frameSize: nat)
    requires frameSize > 0
    ensures (i * frameSize) / frameSize == i
  {
    DivideBack(i, frameSize, i * frameSize);
  }

  lemma DivideBack(i: nat, f: nat, n: nat)
    requires f > 0 && n == i * f
    ensures n / f == i
  {
    var k: int := i - n / f;
    assert n == (n / f) * f + n % f;
    assert k * f == n % f by { assert k * f == i * f - (n / f) * f; }
    assert k >= 1 ==> k * f >= f;
    assert k <= -1 ==> k * f + f <= 0;
  }

  lemma {:induction false} FramesOnce(num: nat, frameSize: nat, v: int)
    requires frameSize > 0
    ensures Count(FrameAddrs(num, frameSize), InFrame(frameSize, v)) == if 0 <= v < num then 1 else 0
  {
    if num > 0 {
      FramesOnce(num - 1, frameSize, v);
      FrameOf(num - 1, frameSize);
      assert FrameAddrs(num, frameSize) == FrameAddrs(num - 1, frameSize) + [(num - 1) * frameSize];
      CountSnoc(FrameAddrs(num - 1, frameSize), (num - 1) * frameSize, InFrame(frameSize, v));
    }
  }

  /**
    Whole-run ownership: over any sound run of receives, refills, sends, flushes, payload and token moves and
    kernel moves, every frame is in exactly one place: a batch, ring or the cache of the queue, discarded,
    the fill, receive, transmit or completion ring, a cache of those, a token or a payload, or lost.
  */
  lemma {:induction false} EveryFrameInOnePlace<R>(x0: Xdp<R>, num: nat, t: nat, es: seq<XdpEvent<R>>, v: int)
    requires Fresh(x0, num, t) && Legal(x0, es) && Sound(x0, es)
    ensures var x := Exec(x0, es); var p := InFrame(x0.frameSize, v);
      Inside(x.q, p) + Count(x.q.discarded, p) + InKernel(x, p) + InProgram(x, p) == if 0 <= v < num then 1 else 0
  {
    var p := InFrame(x0.frameSize, v);
    FreshTotal(x0, num, t, p);
    FramesOnce(num, x0.frameSize, v);
    RunConserves(x0, es, p);
  }

  lemma {:induction false} FreshTotal<R>(x: Xdp<R>, num: nat, t: nat, p: int -> bool)
    requires Fresh(x, num, t)
    ensures XdpInv(x) && x.q.capacity == num && Total(x, p) == Count(FrameAddrs(num, x.frameSize), p)
  {
    SpacedTotal(x, num, x.frameSize, t, p);
  }

  lemma {:induction false} SpacedTotal<R>(x: Xdp<R>, num: nat, spacing: nat, t: nat, p: int -> bool)
    requires FreshSpaced(x, num, spacing, t)
    ensures XdpInv(x) && x.q.capacity == num && Total(x, p) == Count(FrameAddrs(num, spacing), p)
  {
    SeedResultHolds(x.q, t, FrameAddrs(num, spacing), p);
    hide Inv, Held;
    assert PayloadBufs(x.payloads) == [];
  }

  // ----- chunks of another size than the frames ----------------------------------------------------------

  /** Over any sound run as many addresses lie in a chunk of the kernel as there were at the start. */
  lemma {:induction false} ChunksConserved<R>(x0: Xdp<R>, num: nat, spacing: nat, t: nat, es: seq<XdpEvent<R>>, v: int)
    requires FreshSpaced(x0, num, spacing, t) && Legal(x0, es) && Sound(x0, es)
    ensures Total(Exec(x0, es), InFrame(x0.frameSize, v)) == Count(FrameAddrs(num, spacing), InFrame(x0.frameSize, v))
  {
    SpacedTotal(x0, num, spacing, t, InFrame(x0.frameSize, v));
    RunConserves(x0, es, InFrame(x0.frameSize, v));
  }

  /**
    No chunk is in two places if and only if there is at most one frame or the frames are at least a chunk apart:
    a frame size below that of the kernel's chunks lets two frames share a chunk from the start.
  */
  lemma {:induction false} ChunkInOnePlaceIff<R>(x0: Xdp<R>, num: nat, spacing: nat, t: nat, es: seq<XdpEvent<R>>)
    requires FreshSpaced(x0, num, spacing, t) && Legal(x0, es) && Sound(x0, es)
    ensures (forall v: int :: Total(Exec(x0, es), InFrame(x0.frameSize, v)) <= 1) <==> num <= 1 || spacing >= x0.frameSize
  {
    hide Total, FreshSpaced, Legal, Sound, Exec;
    var c, x := x0.frameSize, Exec(x0, es);
    PositiveSize(x0, num, spacing, t);
    forall v: int ensures Total(x, InFrame(c, v)) == Count(FrameAddrs(num, spacing), InFrame(c, v)) {
      ChunksConserved(x0, num, spacing, t, es, v);
    }
    if num <= 1 || spacing >= c {
      forall v: int ensures Count(FrameAddrs(num, spacing), InFrame(c, v)) <= 1 { ChunksApart(num, spacing, c, v); }
    } else {
      ChunkShared(num, spacing, c);
    }
  }

  lemma PositiveSize<R>(x: Xdp<R>, num: nat, spacing: nat, t: nat)
    requires FreshSpaced(x, num, spacing, t)
    ensures x.frameSize > 0
  {}

  lemma {:induction false} ChunkShared(num: nat, spacing: nat, c: nat)
    requires num >= 2 && spacing < c
    ensures Count(FrameAddrs(num, spacing), InFrame(c, 0)) >= 2
  {
    var addrs, p := FrameAddrs(num, spacing), InFrame(c, 0);
    assert addrs[0] == 0 && addrs[1] == spacing && p(0) && p(spacing);
    if Count(addrs, p) <= 1 { CountAtMostOnce(addrs, p, 0, 1); }
  }

  /** Adding at least a chunk moves to a later chunk. */
  lemma NextChunk(a: nat, d: nat, c: nat)
    requires d >= c > 0
    ensures (a + d) / c >= a / c + 1
  {
    var q, q' := a / c, (a + d) / c;
    assert a == q * c + a % c && a + d == q' * c + (a + d) % c;
    var k: int := q' - q;
    assert k * c == d + a % c - (a + d) % c;
    Bits.Multiples(k, c);
  }

  lemma {:induction false} LaterChunks(i: nat, j: nat, spacing: nat, c: nat)
    requires i < j && spacing >= c > 0
    ensures (i * spacing) / c < (j * spacing) / c
    decreases j
  {
    if i < j - 1 { LaterChunks(i, j - 1, spacing, c); }
    NextChunk((j - 1) * spacing, spacing, c);
    assert (j - 1) * spacing + spacing == j * spacing;
  }

  lemma {:induction false} ChunksApart(num: nat, spacing: nat, c: nat, v: int)
    requires c > 0 && (num <= 1 || spacing >= c)
    ensures Count(FrameAddrs(num, spacing), InFrame(c, v)) <= 1
  {
    if num > 0 {
      var addrs, p := FrameAddrs(num, spacing), InFrame(c, v);
      var front := FrameAddrs(num - 1, spacing);
      assert addrs == front + [(num - 1) * spacing];
      CountSnoc(front, (num - 1) * spacing, p);
      if p((num - 1) * spacing) {
        forall i | 0 <= i < num - 1 ensures !p(front[i]) { LaterChunks(i, num - 1, spacing, c); }
        CountNothing(front, p);
      } else {
        ChunksApart(num - 1, spacing, c, v);
      }
    }
  }

  /** Overflow is impossible: whenever a full batch is flushed its ring has room, so the flush loses nothing. */
  lemma {:induction false} FlushNeverRefused<R>(x0: Xdp<R>, num: nat, t: nat, es: seq<XdpEvent<R>>, h: nat, u: nat)
    requires Fresh(x0, num, t) && Legal(x0, es) && Sound(x0, es)
    requires var q := Exec(x0, es).q; h < |q.batches| && HasRing(q, u) && |q.batches[h]| == BATCH
    ensures var q := Exec(x0, es).q;
      && |q.rings[q.slots[u]].groups| < q.capacity
      && Loss(q, h, u) == [] && Flushed(q, h, u).discarded == q.discarded
      && Flushed(q, h, u).rings[q.slots[u]].groups == q.rings[q.slots[u]].groups + [q.batches[h]]
  {
    var p := (a: int) => true;
    FreshTotal(x0, num, t, p);
    CountEverything(FrameAddrs(num, x0.frameSize), p);
    RunConserves(x0, es, p);
    var q := Exec(x0, es).q;
    FullBatchFindsRoom(q, h, u);
    FlushAllOrNothing(q, h, u);
  }

  /** The completions waiting, the batch they are pushed onto and the ring they go to are disjoint: there is room for all. */
  lemma {:induction false} CompletionsFit<R>(x0: Xdp<R>, num: nat, t: nat, es: seq<XdpEvent<R>>, h: nat, u: nat)
    requires Fresh(x0, num, t) && Legal(x0, es) && Sound(x0, es)
    requires h < |Exec(x0, es).q.batches|
    ensures var x := Exec(x0, es);
      GroupCount(x.q, u) + (|x.q.batches[h]| + |x.completion|) / BATCH <= x.q.capacity
  {
    var p := (a: int) => true;
    FreshTotal(x0, num, t, p);
    CountEverything(FrameAddrs(num, x0.frameSize), p);
    RunConserves(x0, es, p);
    var x := Exec(x0, es);
    CountEverything(x.completion, p);
    RingAndBatch(x.q, h, u);
  }

  // ----- the two steps that copy a frame ---------------------------------------------------------------

  ghost predicate AllFrames(addrs: seq<int>, frameSize: nat, num: nat) {
    frameSize > 0 && forall k :: 0 <= k < |addrs| ==> 0 <= addrs[k] / frameSize < num
  }

  /** What fill and transmit ring hold are addresses of frames, from the start or from earlier refills and sends. */
  ghost predicate MemoryHoldsFrames<R>(x: Xdp<R>, num: nat) {
    AllFrames(x.slots, x.frameSize, num) && AllFrames(x.fill.mem, x.frameSize, num)
  }

  /** Every address in the cache is that of a frame, because every place only holds frames. */
  lemma NewestIsFrame<R>(x: Xdp<R>, num: nat)
    requires x.frameSize > 0 && x.q.cached != []
    requires var v := Newest(x.q) / x.frameSize; Total(x, InFrame(x.frameSize, v)) == if 0 <= v < num then 1 else 0
    ensures 0 <= Newest(x.q) / x.frameSize < num
  {
    var p := InFrame(x.frameSize, Newest(x.q) / x.frameSize);
    CountAt(x.q.cached, |x.q.cached| - 1, p);
  }

  ghost predicate Partition<R>(x: Xdp<R>, num: nat) {
    x.frameSize > 0 && forall v: int :: Total(x, InFrame(x.frameSize, v)) == if 0 <= v < num then 1 else 0
  }

  lemma {:induction false} StepPartition<R>(x: Xdp<R>, e: XdpEvent<R>, num: nat)
    requires XdpInv(x) && Partition(x, num) && MemoryHoldsFrames(x, num) && Enabled(x, e) && Keeps(x, e)
    ensures Partition(Step(x, e), num) && MemoryHoldsFrames(Step(x, e), num) && XdpInv(Step(x, e))
  {
    hide Total, XdpInv;
    StepXdpInv(x, e);
    forall v: int ensures Total(Step(x, e), InFrame(x.frameSize, v)) == Total(x, InFrame(x.frameSize, v)) {
      StepConserves(x, e, InFrame(x.frameSize, v));
    }
    if e.Send? || e.RefillTake? { NewestIsFrame(x, num); }
  }

  /**
    A send that found its slot before finding that there is no free frame leaves an old address in the slot:
    the frame of that address is then in two places.
  */
  lemma SendWithoutFrameDuplicates<R>(x: Xdp<R>, num: nat)
    requires Partition(x, num) && MemoryHoldsFrames(x, num) && Enabled(x, SendWithoutFrame)
    ensures var v := x.slots[x.next % |x.slots|] / x.frameSize;
      0 <= v < num && Total(Step(x, SendWithoutFrame), InFrame(x.frameSize, v)) == 2
  {
    var a := x.slots[x.next % |x.slots|];
    CountSnoc(x.handed, a, InFrame(x.frameSize, a / x.frameSize));
  }

  /**
    A submission that covers an entry left behind unwritten hands the kernel what was in it before: the frame of
    that address is then in two places.
  */
  lemma {:induction false} SubmitUnwrittenDuplicates<R>(x: Xdp<R>, k: nat, num: nat)
    requires XdpInv(x) && Partition(x, num) && MemoryHoldsFrames(x, num) && Enabled(x, RefillSubmit)
    requires k < x.fill.batch && x.fill.reserved[k] == None
    ensures var v := Content(x.fill, k) / x.frameSize;
      0 <= v < num && Total(Step(x, RefillSubmit), InFrame(x.frameSize, v)) >= 2
  {
    var a := Content(x.fill, k);
    SubmitAddsStale(x.fill, k, InFrame(x.frameSize, a / x.frameSize));
    hide CountRing, Submit, Held;
  }

  /**
    One step keeps every frame in exactly one place if and only if it is neither a send without a frame nor a
    submission of an entry that was not written.
  */
  lemma {:induction false} PartitionKeptIff<R>(x: Xdp<R>, e: XdpEvent<R>, num: nat)
    requires XdpInv(x) && Partition(x, num) && MemoryHoldsFrames(x, num) && Enabled(x, e)
    ensures Partition(Step(x, e), num) <==> Keeps(x, e)
  {
    hide Total, XdpInv, MemoryHoldsFrames;
    if e.SendWithoutFrame? {
      SendWithoutFrameDuplicates(x, num);
    } else if Keeps(x, e) {
      StepPartition(x, e, num);
    } else {
      var k :| 0 <= k < x.fill.batch && k < |x.fill.reserved| && !x.fill.reserved[k].Some?;
      SubmitUnwrittenDuplicates(x, k, num);
    }
  }

  /** Every state of the run has every frame in exactly one place. */
  ghost predicate AlwaysPartition<R>(x: Xdp<R>, es: seq<XdpEvent<R>>, num: nat)
    requires Legal(x, es)
    decreases |es|
  {
    Partition(x, num) && (es != [] ==> AlwaysPartition(Step(x, es[0]), es[1..], num))
  }

  /** A run keeps every frame in exactly one place throughout if and only if it is sound. */
  lemma {:induction false} AlwaysPartitionIff<R>(x0: Xdp<R>, num: nat, t: nat, es: seq<XdpEvent<R>>)
    requires Fresh(x0, num, t) && num > 0 && Legal(x0, es)
    ensures AlwaysPartition(x0, es, num) <==> Sound(x0, es)
  {
    FreshPartition(x0, num, t);
    hide Fresh, Partition, MemoryHoldsFrames, XdpInv, Legal;
    RunKeepsIff(x0, num, es);
  }

  lemma {:induction false} RunKeepsIff<R>(x: Xdp<R>, num: nat, es: seq<XdpEvent<R>>)
    requires XdpInv(x) && Partition(x, num) && MemoryHoldsFrames(x, num) && Legal(x, es)
    ensures AlwaysPartition(x, es, num) <==> Sound(x, es)
    decreases |es|
  {
    hide XdpInv, Partition, MemoryHoldsFrames, Enabled, Step, Keeps;
    if es != [] {
      PartitionKeptIff(x, es[0], num);
      if Keeps(x, es[0]) {
        StepPartition(x, es[0], num);
        RunKeepsIff(Step(x, es[0]), num, es[1..]);
      }
    }
  }

  /** The states reached by sound runs are such states. */
  lemma {:induction false} RunPartition<R>(x0: Xdp<R>, num: nat, t: nat, es: seq<XdpEvent<R>>)
    requires Fresh(x0, num, t) && num > 0 && Legal(x0, es) && Sound(x0, es)
    ensures var x := Exec(x0, es); XdpInv(x) && Partition(x, num) && MemoryHoldsFrames(x, num)
  {
    FreshPartition(x0, num, t);
    hide Fresh, Partition, MemoryHoldsFrames, XdpInv, Legal, Exec, InFrame;
    StepsPartition(x0, num, es);
  }

  lemma {:induction false} FreshPartition<R>(x: Xdp<R>, num: nat, t: nat)
    requires Fresh(x, num, t) && num > 0
    ensures XdpInv(x) && Partition(x, num) && MemoryHoldsFrames(x, num)
  {
    var fs := x.frameSize;
    forall v: int ensures Total(x, InFrame(fs, v)) == if 0 <= v < num then 1 else 0 {
      FreshTotal(x, num, t, InFrame(fs, v));
      FramesOnce(num, fs, v);
    }
    FreshTotal(x, num, t, a => true);
    assert 0 / fs == 0;
  }

  lemma {:induction false} StepsPartition<R>(x: Xdp<R>, num: nat, es: seq<XdpEvent<R>>)
    requires XdpInv(x) && Partition(x, num) && MemoryHoldsFrames(x, num) && Legal(x, es) && Sound(x, es)
    ensures XdpInv(Exec(x, es)) && Partition(Exec(x, es), num) && MemoryHoldsFrames(Exec(x, es), num)
    decreases |es|
  {
    if es != [] {
      hide XdpInv, Partition, MemoryHoldsFrames, Enabled, Step, Keeps;
      StepPartition(x, es[0], num);
      StepsPartition(Step(x, es[0]), num, es[1..]);
    }
  }

  // ----- the dead end ----------------------------------------------------------------------------------

  /** The kernel has nothing to receive into, and every entry of the fill ring is reserved by refills that gave up. */
  predicate Stuck<R(==)>(x: Xdp<R>) {
    x.fill.kernel == [] && |x.fill.reserved| == |x.fill.mem| && x.fill.batch == 0 && x.fill.written == 0
  }

  /** From then on no run hands the kernel another frame: nothing is ever received again. */
  lemma {:induction false} StuckForever<R>(x: Xdp<R>, es: seq<XdpEvent<R>>)
    requires Stuck(x) && Legal(x, es)
    ensures Stuck(Exec(x, es)) && forall k :: 0 <= k < |es| ==> !es[k].KernelReceive? && !es[k].RefillTake?
    decreases |es|
  {
    if es != [] {
      StuckStep(x, es[0]);
      StuckForever(Step(x, es[0]), es[1..]);
      assert es == [es[0]] + es[1..];
    }
  }

  lemma StuckStep<R>(x: Xdp<R>, e: XdpEvent<R>)
    requires Stuck(x) && Enabled(x, e)
    ensures Stuck(Step(x, e)) && !e.KernelReceive? && !e.RefillTake?
  {
    hide QueueMachine.Step, QueueMachine.Enabled;
    assert Blank(0) == [];
  }
}
