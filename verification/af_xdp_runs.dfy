/** The calls of the AF_XDP socket, and the moves of the kernel, are runs of the machine. */
module AfXdpRuns {
  import opened Bags
  import opened QueueMachine
  import opened QueueProperties
  import opened QueueBursts
  import opened QueueSupply
  import opened XskRings
  import opened AfXdpView
  import opened FillRings
  import opened AfXdpCalls
  import opened X = AfXdpMachine

  function Addrs(entries: seq<Desc>): (s: seq<int>)
    ensures |s| == |entries|
  {
    seq(|entries|, k requires 0 <= k < |entries| => entries[k].addr)
  }

  // ----- the fill ring ---------------------------------------------------------------------------------

  /** `r` is the fill ring with these positions and entries; written entries hold what was written to them. */
  ghost predicate FillMatches(entries: seq<Desc>, consumer: nat, producer: nat, reserved: nat, r: FillRing) {
    && |entries| > 0 && consumer <= producer <= reserved <= consumer + |entries|
    && r.mem == Addrs(entries) && r.at == producer && FillOk(r)
    && r.kernel == Addresses(entries, consumer, producer) && |r.reserved| == reserved - producer
    && (forall k :: 0 <= k < |r.reserved| && r.reserved[k].Some? ==>
          r.reserved[k].value == entries[Entry(producer + k, |entries|)].addr)
  }

  lemma {:induction false} MatchReserve(entries: seq<Desc>, consumer: nat, producer: nat, reserved: nat, r: FillRing, n: nat)
    requires FillMatches(entries, consumer, producer, reserved, r) && CanReserve(r, n) && reserved + n <= consumer + |entries|
    ensures FillMatches(entries, consumer, producer, reserved + n, Reserve(r, n))
  {
    hide Entry;
  }

  lemma {:induction false} MatchWrite(entries: seq<Desc>, consumer: nat, producer: nat, reserved: nat, r: FillRing, a: int)
    requires FillMatches(entries, consumer, producer, reserved, r) && CanWrite(r)
    ensures var idx := producer + NextEntry(r);
      FillMatches(entries[Entry(idx, |entries|) := Desc(a, 0, 0)], consumer, producer, reserved, Write(r, a))
  {
    hide Entry;
    var idx := producer + NextEntry(r);
    var entries' := entries[Entry(idx, |entries|) := Desc(a, 0, 0)];
    forall i | consumer <= i < reserved && i != idx ensures Entry(i, |entries|) != Entry(idx, |entries|) {
      if i < idx { Apart(i, idx, |entries|); } else { Apart(idx, i, |entries|); }
    }
    assert Addrs(entries') == Addrs(entries)[Entry(idx, |entries|) := a];
    assert Addresses(entries', consumer, producer) == Addresses(entries, consumer, producer);
  }

  lemma {:induction false} MatchWriteAll(entries: seq<Desc>, consumer: nat, producer: nat, reserved: nat, r: FillRing, xs: seq<int>)
    requires FillMatches(entries, consumer, producer, reserved, r) && r.written + |xs| <= r.batch
    ensures var first := reserved - r.batch + r.written;
      first >= 0 && FillMatches(Written(entries, first, xs), consumer, producer, reserved, WriteAll(r, xs))
  {
    if xs != [] {
      var front := xs[..|xs| - 1];
      MatchWriteAll(entries, consumer, producer, reserved, r, front);
      hide Entry, FillMatches;
      var first := reserved - r.batch + r.written;
      MatchGives(entries, consumer, producer, reserved, r);
      MatchWrite(Written(entries, first, front), consumer, producer, reserved, WriteAll(r, front), xs[|xs| - 1]);
    }
  }

  lemma MatchGives(entries: seq<Desc>, consumer: nat, producer: nat, reserved: nat, r: FillRing)
    requires FillMatches(entries, consumer, producer, reserved, r)
    ensures |r.reserved| == reserved - producer && FillOk(r)
  {}

  /** The contents the kernel finds are those of the entries, written or not. */
  lemma {:induction false} MatchContents(entries: seq<Desc>, consumer: nat, producer: nat, reserved: nat, r: FillRing, n: nat)
    requires FillMatches(entries, consumer, producer, reserved, r) && n <= |r.reserved|
    ensures Contents(r, n) == Addresses(entries, producer, producer + n)
  {
    if n > 0 {
      MatchContents(entries, consumer, producer, reserved, r, n - 1);
      hide Entry;
      assert Content(r, n - 1) == entries[Entry(producer + (n - 1), |entries|)].addr;
      assert Addresses(entries, producer, producer + n) == Addresses(entries, producer, producer + (n - 1)) + [Content(r, n - 1)];
    }
  }

  lemma {:induction false} MatchSubmit(entries: seq<Desc>, consumer: nat, producer: nat, reserved: nat, r: FillRing)
    requires FillMatches(entries, consumer, producer, reserved, r) && CanSubmit(r)
    ensures FillMatches(entries, consumer, producer + r.batch, reserved, Submit(r))
  {
    MatchContents(entries, consumer, producer, reserved, r, r.batch);
    hide Entry;
    assert Addresses(entries, consumer, producer + r.batch)
        == Addresses(entries, consumer, producer) + Addresses(entries, producer, producer + r.batch);
    forall k | 0 <= k < |Submit(r).reserved| && Submit(r).reserved[k].Some?
      ensures Submit(r).reserved[k].value == entries[Entry(producer + r.batch + k, |entries|)].addr
    {
      assert Submit(r).reserved[k] == r.reserved[r.batch + k];
    }
  }

  lemma MatchFail(entries: seq<Desc>, consumer: nat, producer: nat, reserved: nat, r: FillRing)
    requires FillMatches(entries, consumer, producer, reserved, r)
    ensures FillMatches(entries, consumer, producer, reserved, Fail(r))
  {
    hide Entry;
  }

  ghost predicate ViewMatches(f: FillView, consumer: nat, r: FillRing) {
    FillViewOk(f, consumer) && FillMatches(f.entries, consumer, f.producer, f.cachedProd, r) && r.batch == 0 && r.written == 0
  }

  /** What the socket's refill does to the queue and the fill ring is what the machine's does, stale entries included. */
  lemma {:induction false} RefilledIsCall<R>(x: Xdp<R>, f: FillView, consumer: nat, q': Queue<R>, f': FillView, ok: bool)
    requires CanPop(x.q) && ViewMatches(f, consumer, x.fill) && FillViewOk(f', consumer)
    requires Refilled(x.q, f, consumer, q', f', ok)
    ensures var n := Reported(x.q, f, consumer);
      && FillOk(x.fill) && CanReserve(x.fill, n)
      && RefillCall(x, n).q == q' && ViewMatches(f', consumer, RefillCall(x, n).fill)
      && (ok <==> Obtainable(x.q) == 0 || n <= Obtainable(x.q))
  {
    hide Inv, SyncCall, PopCall, PopMany, Obtainable, Entry, FillMatches;
    var n := Reported(x.q, f, consumer);
    MatchGives(f.entries, consumer, f.producer, f.cachedProd, x.fill);
    MatchKernel(f.entries, consumer, f.producer, f.cachedProd, x.fill);
    PopIsLookThenTake(x.q);
    if Looked(x.q).cached != [] && n > 0 {
      RefillFinds(x.q, n);
      ReserveOk(x.fill, n);
      var xs := PopMany(Looked(x.q), n).1;
      MatchReserve(f.entries, consumer, f.producer, f.cachedProd, x.fill, n);
      MatchWriteAll(f.entries, consumer, f.producer, f.cachedProd + n, Reserve(x.fill, n), xs);
      var r := WriteAll(Reserve(x.fill, n), xs);
      if |xs| == n {
        MatchSubmit(f'.entries, consumer, f.producer, f'.cachedProd, r);
      } else {
        MatchFail(f'.entries, consumer, f.producer, f'.cachedProd, r);
      }
    }
  }

  lemma MatchKernel(entries: seq<Desc>, consumer: nat, producer: nat, reserved: nat, r: FillRing)
    requires FillMatches(entries, consumer, producer, reserved, r)
    ensures |r.kernel| == producer - consumer && |r.mem| == |entries|
  {}

  // ----- the whole socket ------------------------------------------------------------------------------

  /** From position `lo` of a stream to its end. */
  function Rest(stream: seq<Desc>, lo: nat): seq<int>
    requires lo <= |stream|
  {
    Stretch(stream, lo, |stream| - lo)
  }

  /** The machine state `x` is what the values `s` of a socket stand for. */
  ghost predicate Represents<R>(s: SockView<R>, x: Xdp<R>) {
    && x.q == s.q && CanPop(s.q) && ViewMatches(s.fill, s.fillCons, x.fill)
    && RxMatches(s, x) && TxMatches(s, x)
    && s.cqConsumer <= |s.cqStream| && x.completion == Rest(s.cqStream, s.cqConsumer)
  }

  ghost predicate RxMatches<R>(s: SockView<R>, x: Xdp<R>) {
    && s.rxReturned <= s.rxReleased <= |s.rxStream| && x.rx == Rest(s.rxStream, s.rxReleased)
    && x.rxCache == Stretch(s.rxStream, s.rxReturned, s.rxReleased - s.rxReturned)
  }

  ghost predicate TxMatches<R>(s: SockView<R>, x: Xdp<R>) {
    && |s.txEntries| > 0 && s.txProducer <= s.txHandedOut <= s.txReserved <= s.txProducer + |s.txEntries|
    && x.slots == Addrs(s.txEntries) && x.next == s.txHandedOut
    && x.handed == Addresses(s.txEntries, s.txProducer, s.txHandedOut)
  }

  /** Neither payloads nor lost frames changed. */
  predicate SameHoldings<R(==)>(x: Xdp<R>, x': Xdp<R>) { x'.payloads == x.payloads && x'.lost == x.lost && x'.frameSize == x.frameSize }

  /** A receive is a run: a descriptor is taken from the cache, which is refilled before; or the fill ring is refilled. */
  lemma {:induction false} RecvIsRun<R>(s: SockView<R>, x: Xdp<R>, s': SockView<R>, index: nat, r: RecvResult)
      returns (es: seq<XdpEvent<R>>)
    requires Represents(s, x) && RecvDone(s, s', index, r) && FillViewOk(s'.fill, s'.fillCons)
    ensures X.Legal(x, es) && Represents(s', X.Exec(x, es))
    ensures s.rxReturned < |s.rxStream| ==> NoCopying(es)
    ensures X.Exec(x, es).tokens == x.tokens + (if r.Received? then [r.token.idx] else [])
    ensures SameHoldings(x, X.Exec(x, es)) && X.Exec(x, es).submitted == x.submitted
    ensures s.rxReturned == |s.rxStream| ==>
      (&& FillOk(x.fill) && CanReserve(x.fill, Reported(s.q, s.fill, s.fillCons))
       && X.Exec(x, es) == RefillCall(x, Reported(s.q, s.fill, s.fillCons))
       && (r == ErrRefill <==> Reported(s.q, s.fill, s.fillCons) > Obtainable(s.q)))
  {
    hide Inv, Obtainable, SyncCall, PopCall, PopMany, FillMatches, Entry, Refilled;
    if s.rxReturned < |s.rxStream| {
      es := TakeIsRun(s, x, s');
    } else {
      RefilledIsCall(x, s.fill, s.fillCons, s'.q, s'.fill, r == ErrNoPackets);
      var n := Reported(s.q, s.fill, s.fillCons);
      CallCanPop(x, n);
      LookedFinds(x.q);
      es := RefillIsRun(x, n);
    }
  }

  lemma {:induction false} CallCanPop<R>(x: Xdp<R>, n: nat)
    requires CanPop(x.q) && FillOk(x.fill) && CanReserve(x.fill, n)
    ensures CanPop(RefillCall(x, n).q)
  {
    hide Inv, Obtainable, SyncCall, PopCall, PopMany;
    RefillFinds(x.q, n);
  }

  lemma {:induction false} TakeIsRun<R>(s: SockView<R>, x: Xdp<R>, s': SockView<R>) returns (es: seq<XdpEvent<R>>)
    requires Represents(s, x) && s.rxReturned < |s.rxStream|
    requires s.rxReleased <= s'.rxReleased <= |s.rxStream| && s.rxReturned < s'.rxReleased
    requires s' == s.(rxReturned := s.rxReturned + 1, rxReleased := s'.rxReleased)
    ensures X.Legal(x, es) && NoCopying(es) && Represents(s', X.Exec(x, es))
    ensures X.Exec(x, es).tokens == x.tokens + [s.rxStream[s.rxReturned].addr]
    ensures SameHoldings(x, X.Exec(x, es)) && X.Exec(x, es).submitted == x.submitted
  {
    hide CanPop, ViewMatches, QueueMachine.Enabled, QueueMachine.Step, Addresses, Addrs;
    var n := s'.rxReleased - s.rxReleased;
    assert Rest(s.rxStream, s.rxReleased)[n..] == Rest(s.rxStream, s'.rxReleased);
    assert x.rxCache + x.rx[..n] == Stretch(s.rxStream, s.rxReturned, s'.rxReleased - s.rxReturned);
    var x1 := X.Step(x, RxPeek(n));
    ExecOne(x, RxPeek(n), x1);
    ThenOne(x, [RxPeek(n)], RxTake);
    es := [RxPeek(n)] + [RxTake];
    assert x1.rxCache[1..] == Stretch(s.rxStream, s.rxReturned + 1, s'.rxReleased - (s.rxReturned + 1));
  }

  // ----- sending ---------------------------------------------------------------------------------------

  /** Submitting everything handed out. */
  lemma {:induction false} SubmitRepresents<R>(s: SockView<R>, x: Xdp<R>)
    requires Represents(s, x) && s.txReserved <= s.txHandedOut + |s.txEntries|
    ensures X.Enabled(x, TxSync) && Represents(s.(txProducer := s.txHandedOut), X.Step(x, TxSync))
  {
    hide CanPop, ViewMatches, Entry;
    assert Addresses(s.txEntries, s.txHandedOut, s.txHandedOut) == [];
  }

  /** What is known of a transmit ring whose positions the socket keeps valid. */
  ghost predicate TxOk<R>(s: SockView<R>) {
    |s.txEntries| > 0 && s.txProducer <= s.txHandedOut <= s.txReserved <= s.txProducer + |s.txEntries|
  }

  /** Taking a slot and filling it: the machine's send, with a frame or without. */
  lemma {:induction false} SlotRepresents<R>(s: SockView<R>, x: Xdp<R>, taken: SockView<R>, s': SockView<R>, len: nat, r: SendResult)
    requires Represents(s, x) && TxOk(taken) && taken.txHandedOut == s.txHandedOut + 1
    requires taken == s.(txHandedOut := taken.txHandedOut, txReserved := taken.txReserved)
    requires SlotFilled(taken, s', len, r)
    ensures CanSend(x) && Represents(s', SendCall(x))
  {
    hide Inv, SyncCall, PopCall, Obtainable, Looked, ViewMatches, X.Step, QueueMachine.Step, HasSlot;
    PopIsLookThenTake(s.q);
    PopKeepsSupply(s.q);
    SendCallIs(x);
    hide SendCall;
    var q1 := Looked(s.q);
    var a := if q1.cached != [] then Some(Newest(q1)) else None;
    HandOut(s, taken, s', a);
    hide Addresses, Addrs, Stretch;
    assert x.slots[x.next % |x.slots|] == Addrs(s.txEntries)[Entry(s.txHandedOut, |s.txEntries|)];
  }

  /** What a send changes. */
  lemma {:induction false} SendCallIs<R>(x: Xdp<R>)
    requires CanPop(x.q) && CanSend(x)
    ensures var (q, a) := PopCall(x.q); var at := x.next % |x.slots|;
      SendCall(x) == if a == None then x.(q := q, handed := x.handed + [x.slots[at]], next := x.next + 1)
                     else x.(q := q, handed := x.handed + [a.value], slots := x.slots[at := a.value], next := x.next + 1)
  {
    PopIsLookThenTake(x.q);
    hide Inv, SyncCall, PopCall, Obtainable;
  }

  /** The last step of a send: with the newest free frame, or without a frame. */
  ghost function LastOfSend<R>(x: Xdp<R>): XdpEvent<R>
    requires CanPop(x.q)
  {
    if Looked(x.q).cached != [] then Send else SendWithoutFrame
  }

  lemma {:induction false} LastOfSendIs<R>(x: Xdp<R>)
    requires CanPop(x.q) && CanSend(x)
    ensures var x1, last := x.(q := Looked(x.q)), LastOfSend(x);
      && X.Enabled(x1, last) && X.Step(x1, last) == SendCall(x) && (Keeps(x1, last) <==> Obtainable(x.q) > 0)
    ensures SameProgram(x, SendCall(x)) && SendCall(x).submitted == x.submitted
  {
    PopIsLookThenTake(x.q);
    hide Inv, SyncCall, PopCall, Obtainable, Looked;
  }

  /** Such a send is a run, and one that copies no frame if and only if there is a free frame. */
  lemma {:induction false} SendIsRun<R>(x: Xdp<R>) returns (es: seq<XdpEvent<R>>)
    requires CanPop(x.q) && CanSend(x)
    ensures X.Legal(x, es) && X.Exec(x, es) == SendCall(x)
    ensures Sound(x, es) <==> Obtainable(x.q) > 0
  {
    hide Inv, SyncCall, PopCall, Obtainable, Looked, LastOfSend, SendCall, X.Step, X.Enabled, Keeps, CanSend;
    LastOfSendIs(x);
    es := LookIsRun(x);
    NoCopyingIsSound(x, es);
    ThenOne(x, es, LastOfSend(x));
    SoundThenOne(x, es, LastOfSend(x));
    es := es + [LastOfSend(x)];
  }

  /** Filling a slot that was taken is a run. */
  lemma {:induction false} SlotIsRun<R>(s: SockView<R>, x: Xdp<R>, taken: SockView<R>, s': SockView<R>, len: nat, r: SendResult)
      returns (es: seq<XdpEvent<R>>)
    requires Represents(s, x) && TxOk(taken) && taken.txHandedOut == s.txHandedOut + 1
    requires taken == s.(txHandedOut := taken.txHandedOut, txReserved := taken.txReserved)
    requires SlotFilled(taken, s', len, r)
    ensures X.Legal(x, es) && Represents(s', X.Exec(x, es)) && (Sound(x, es) <==> Obtainable(s.q) > 0)
    ensures SameProgram(x, X.Exec(x, es)) && X.Exec(x, es).submitted == x.submitted
  {
    SlotRepresents(s, x, taken, s', len, r);
    hide SlotFilled, SendCall, Obtainable, Inv, Looked, PopCall, SyncCall, RxMatches, TxMatches, ViewMatches;
    LastOfSendIs(x);
    es := SendIsRun(x);
  }

  lemma {:induction false} SoundThenOne<R>(x: Xdp<R>, a: seq<XdpEvent<R>>, e: XdpEvent<R>)
    requires X.Legal(x, a) && X.Enabled(X.Exec(x, a), e) && Sound(x, a)
    ensures X.Legal(x, a + [e]) && (Sound(x, a + [e]) <==> Keeps(X.Exec(x, a), e))
    decreases |a|
  {
    hide X.Step, X.Enabled, Keeps;
    ThenOne(x, a, e);
    if a == [] {
      assert [e][1..] == [] && [] + [e] == [e];
    } else {
      assert (a + [e])[0] == a[0] && (a + [e])[1..] == a[1..] + [e];
      SoundThenOne(X.Step(x, a[0]), a[1..], e);
    }
  }

  /** The slots handed out and not submitted, and the memory of the ring, after one more slot was filled or not. */
  lemma {:induction false} HandOut<R>(s: SockView<R>, taken: SockView<R>, s': SockView<R>, a: Option<int>)
    requires TxOk(taken) && taken.txHandedOut == s.txHandedOut + 1 && s.txProducer <= s.txHandedOut
    requires taken == s.(txHandedOut := taken.txHandedOut, txReserved := taken.txReserved)
    requires s'.txProducer == s.txProducer && s'.txHandedOut == taken.txHandedOut
    requires var e := Entry(s.txHandedOut, |s.txEntries|);
      if a == None then s'.txEntries == s.txEntries
      else |s'.txEntries| == |s.txEntries| && s'.txEntries[e].addr == a.value && s'.txEntries == s.txEntries[e := s'.txEntries[e]]
    ensures var e := Entry(s.txHandedOut, |s.txEntries|);
      && Addrs(s'.txEntries) == (if a == None then Addrs(s.txEntries) else Addrs(s.txEntries)[e := a.value])
      && Addresses(s'.txEntries, s.txProducer, s.txHandedOut + 1)
         == Addresses(s.txEntries, s.txProducer, s.txHandedOut) + [if a == None then Addrs(s.txEntries)[e] else a.value]
  {
    hide Entry;
    forall i | s.txProducer <= i < s.txHandedOut ensures Entry(i, |s.txEntries|) != Entry(s.txHandedOut, |s.txEntries|) {
      Apart(i, s.txHandedOut, |s.txEntries|);
    }
  }

  lemma {:induction false} SoundAppend<R>(x: Xdp<R>, a: seq<XdpEvent<R>>, b: seq<XdpEvent<R>>)
    requires X.Legal(x, a) && X.Legal(X.Exec(x, a), b)
    ensures X.Legal(x, a + b) && X.Exec(x, a + b) == X.Exec(X.Exec(x, a), b)
    ensures Sound(x, a + b) <==> Sound(x, a) && Sound(X.Exec(x, a), b)
    decreases |a|
  {
    hide X.Step, X.Enabled, Keeps;
    ExecAppend(x, a, b);
    if a == [] {
      assert a + b == b;
    } else {
      assert (a + b)[0] == a[0] && (a + b)[1..] == a[1..] + b;
      SoundAppend(X.Step(x, a[0]), a[1..], b);
    }
  }

  predicate SameProgram<R(==)>(x: Xdp<R>, x': Xdp<R>) { x'.tokens == x.tokens && SameHoldings(x, x') }

  /** What is submitted after a slot was asked for: everything handed out, if there was none left. */
  function NowSubmitted<R(==)>(s: SockView<R>, x: Xdp<R>): seq<int> {
    x.submitted + (if s.txHandedOut < s.txReserved then [] else x.handed)
  }

  /** Submitting, if there is no slot left that was reserved earlier, is a run. */
  lemma {:induction false} SubmitIsRun<R>(s: SockView<R>, x: Xdp<R>) returns (es: seq<XdpEvent<R>>)
    requires Represents(s, x)
    ensures var s1 := if s.txHandedOut < s.txReserved then s else s.(txProducer := s.txHandedOut);
      X.Legal(x, es) && Sound(x, es) && Represents(s1, X.Exec(x, es)) && X.Exec(x, es).q == x.q
    ensures SameProgram(x, X.Exec(x, es)) && X.Exec(x, es).submitted == NowSubmitted(s, x)
    ensures s.txHandedOut == s.txReserved ==> X.Exec(x, es).handed == []
  {
    if s.txHandedOut < s.txReserved {
      es := [];
    } else {
      SubmitRepresents(s, x);
      hide Represents;
      es := [TxSync];
      ExecOne(x, TxSync, X.Step(x, TxSync));
      NoCopyingIsSound(x, es);
    }
  }

  /** One attempt to send is a run, and one that copies no frame if and only if there is no slot or a free frame for it. */
  lemma {:induction false} TryIsRun<R>(s: SockView<R>, x: Xdp<R>, taken: SockView<R>, s': SockView<R>, len: nat, txCons: nat, r: SendResult)
      returns (es: seq<XdpEvent<R>>)
    requires Represents(s, x) && TryDone(s, taken, s', len, txCons, r) && txCons <= s.txProducer
    ensures X.Legal(x, es) && Represents(s', X.Exec(x, es))
    ensures Sound(x, es) <==> !HasSlot(s, txCons) || Obtainable(s.q) > 0
    ensures SameProgram(x, X.Exec(x, es)) && X.Exec(x, es).submitted == NowSubmitted(s, x)
    ensures !HasSlot(s, txCons) ==> X.Exec(x, es).handed == []
  {
    es := SubmitIsRun(s, x);
    var x1 := X.Exec(x, es);
    var s1 := if s.txHandedOut < s.txReserved then s else s.(txProducer := s.txHandedOut);
    if HasSlot(s, txCons) {
      TakenOk(s, x, taken, txCons);
      hide Represents, SlotFilled, Obtainable, Inv;
      var rest := SlotIsRun(s1, x1, taken, s', len, r);
      SoundAppend(x, es, rest);
      es := es + rest;
    }
  }

  lemma TakenOk<R>(s: SockView<R>, x: Xdp<R>, taken: SockView<R>, txCons: nat)
    requires Represents(s, x) && SlotTaken(s, taken, txCons) && HasSlot(s, txCons) && txCons <= s.txProducer
    ensures TxOk(taken) && CanPop(x.q)
  {
    hide CanPop, ViewMatches, Addresses, Addrs, Stretch;
  }

  // ----- completions -----------------------------------------------------------------------------------

  /** Creating the ring of thread `t`, if it has none, is a run. */
  lemma {:induction false} EnsureIsRun<R>(x: Xdp<R>, t: nat, r: R) returns (es: seq<XdpEvent<R>>)
    requires CanEnsure(x.q, 0, t, r)
    ensures X.Legal(x, es) && NoCopying(es) && X.Exec(x, es) == x.(q := Ensured(x.q, 0, t, r))
  {
    es := [];
    if t !in x.q.slots {
      var e := QueueStep(Register(0, t, r));
      ExecOne(x, e, X.Step(x, e));
      es := [e];
    }
  }

  /** Pushing the first `n` completions is a run. */
  lemma {:induction false} CompletionsAreRun<R>(x: Xdp<R>, t: nat, r: R, n: nat) returns (es: seq<XdpEvent<R>>)
    requires Inv(x.q) && CanBurst(x.q, 0, t, r) && n <= |x.completion|
    ensures X.Legal(x, es) && NoCopying(es)
    ensures X.Exec(x, es) == x.(q := PushAll(x.q, 0, t, r, x.completion[..n]), completion := x.completion[n..])
  {
    if n == 0 {
      es := [];
    } else {
      hide Inv;
      es := CompletionsAreRun(x, t, r, n - 1);
      var x1, a := X.Exec(x, es), x.completion[n - 1];
      assert x.completion[..n] == x.completion[..n - 1] + [a] && x1.completion[0] == a && x1.completion[1..] == x.completion[n..];
      PushAllSnoc(x.q, 0, t, r, x.completion[..n - 1], a);
      PushAllInv(x.q, 0, t, r, x.completion[..n - 1]);
      hide PushAll;
      var rest := CompletionIsRun(x1, t, r);
      ExecAppend(x, es, rest);
      es := es + rest;
    }
  }

  lemma {:induction false} CompletionIsRun<R>(x: Xdp<R>, t: nat, r: R) returns (es: seq<XdpEvent<R>>)
    requires Inv(x.q) && CanBurst(x.q, 0, t, r) && x.completion != []
    ensures X.Legal(x, es) && NoCopying(es)
    ensures X.Exec(x, es) == x.(q := PushCall(x.q, 0, t, r, x.completion[0]), completion := x.completion[1..])
  {
    BatchFits(x.q, 0);
    hide Inv;
    es := [];
    if |x.q.batches[0]| == BATCH { es := EnsureIsRun(x, t, r); }
    hide Flushed;
    ThenOne(x, es, CompletePush(t));
    es := es + [CompletePush(t)];
  }

  /** A flush of the socket is a run that copies no frame, and submits everything handed out. */
  lemma {:induction false} FlushIsRun<R>(s: SockView<R>, x: Xdp<R>, s': SockView<R>, t: nat, frames: seq<int>)
      returns (es: seq<XdpEvent<R>>)
    requires Represents(s, x) && FlushDone(s, s', t, frames)
    ensures X.Legal(x, es) && Sound(x, es) && Represents(s', X.Exec(x, es))
    ensures SameProgram(x, X.Exec(x, es)) && X.Exec(x, es).submitted == x.submitted + x.handed && X.Exec(x, es).handed == []
  {
    SubmitRepresents(s, x);
    var s1, x1 := s.(txProducer := s.txHandedOut), X.Step(x, TxSync);
    ExecOne(x, TxSync, x1);
    es := [TxSync];
    NoCopyingIsSound(x, es);
    if frames != [] {
      CompletedFrames(s1, x1, frames);
      hide ViewMatches, RxMatches, TxMatches;
      var rest := RecycleIsRun(x1, s'.q, t, frames);
      RecycledCanPop(x1.q, s'.q, t, frames);
      NoCopyingIsSound(x1, rest);
      SoundAppend(x, es, rest);
      es := es + rest;
      Recycling(s1, x1, s', frames);
    }
  }

  lemma CompletedFrames<R>(s: SockView<R>, x: Xdp<R>, frames: seq<int>)
    requires Represents(s, x) && s.cqConsumer + |frames| <= |s.cqStream| && frames == Stretch(s.cqStream, s.cqConsumer, |frames|)
    ensures |frames| <= |x.completion| && x.completion[..|frames|] == frames
    ensures x.completion[|frames|..] == Rest(s.cqStream, s.cqConsumer + |frames|)
  {
    hide CanPop, ViewMatches, RxMatches, TxMatches;
  }

  lemma Recycling<R>(s: SockView<R>, x: Xdp<R>, s': SockView<R>, frames: seq<int>)
    requires Represents(s, x) && CanPop(s'.q) && s' == s.(q := s'.q, cqConsumer := s.cqConsumer + |frames|)
    requires |frames| <= |x.completion| && s.cqConsumer + |frames| <= |s.cqStream|
    requires x.completion[|frames|..] == Rest(s.cqStream, s.cqConsumer + |frames|)
    ensures Represents(s', x.(q := s'.q, completion := x.completion[|frames|..]))
  {
    hide CanPop, ViewMatches;
  }

  /** Recycling completions is a run: pushes, with the ring created when first needed, and the flush. */
  lemma {:induction false} RecycleIsRun<R>(x: Xdp<R>, q': Queue<R>, t: nat, frames: seq<int>) returns (es: seq<XdpEvent<R>>)
    requires CanPop(x.q) && frames != [] && |frames| <= |x.completion| && x.completion[..|frames|] == frames
    requires Recycled(x.q, q', t, frames)
    ensures X.Legal(x, es) && NoCopying(es)
    ensures X.Exec(x, es) == x.(q := q', completion := x.completion[|frames|..])
  {
    hide Inv;
    var r := q'.slots[t];
    es := CompletionsAreRun(x, t, r, |frames|);
    PushAllInv(x.q, 0, t, r, frames);
    hide PushAll;
    var x1 := X.Exec(x, es);
    var ensure := EnsureIsRun(x1, t, r);
    ExecAppend(x, es, ensure);
    es := es + ensure;
    hide Flushed;
    var flush := QueueStep(QueueMachine.Event.Flush(0, t));
    ThenOne(x, es, flush);
    es := es + [flush];
  }

  /** A whole send is a run, and one that copies no frame if and only if the slot it gets, if any, gets a free frame. */
  lemma {:induction false} WholeSendIsRun<R>(s: SockView<R>, x: Xdp<R>, taken: SockView<R>, flushed: SockView<R>, again: SockView<R>,
      s': SockView<R>, t: nat, len: nat, txCons: nat, txCons': nat, frames: seq<int>, r: SendResult)
      returns (es: seq<XdpEvent<R>>)
    requires Represents(s, x) && txCons <= s.txProducer && txCons' <= s.txHandedOut
    requires SendDone(s, taken, flushed, again, s', t, len, txCons, txCons', frames, r)
    ensures X.Legal(x, es) && Represents(s', X.Exec(x, es))
    ensures Sound(x, es) <==> r != ErrNoFrames
    ensures SameProgram(x, X.Exec(x, es)) && X.Exec(x, es).submitted == NowSubmitted(s, x)
  {
    hide Represents, FlushDone, Obtainable, Inv, CanPop;
    if HasSlot(s, txCons) {
      es := TryIsRun(s, x, taken, s', len, txCons, r);
      SlotOutcome(s, taken, s', len, txCons, r);
    } else {
      es := TryIsRun(s, x, taken, taken, len, txCons, ErrNoMemory);
      var second := FlushIsRun(taken, X.Exec(x, es), flushed, t, frames);
      SoundAppend(x, es, second);
      es := es + second;
      FlushSubmits(taken, flushed, t, frames);
      var third := TryIsRun(flushed, X.Exec(x, es), again, s', len, txCons', r);
      SlotOutcome(flushed, again, s', len, txCons', r);
      SoundAppend(x, es, third);
      es := es + third;
    }
  }

  lemma FlushSubmits<R>(s: SockView<R>, s': SockView<R>, t: nat, frames: seq<int>)
    requires FlushDone(s, s', t, frames)
    ensures s'.txProducer == s.txHandedOut
  {}

  lemma SlotOutcome<R>(s: SockView<R>, taken: SockView<R>, s': SockView<R>, len: nat, txCons: nat, r: SendResult)
    requires TryDone(s, taken, s', len, txCons, r)
    ensures (r == ErrNoMemory <==> !HasSlot(s, txCons)) && (HasSlot(s, txCons) ==> CanPop(s.q))
    ensures HasSlot(s, txCons) ==> (r == ErrNoFrames <==> Obtainable(s.q) == 0)
  {
    if HasSlot(s, txCons) { PopKeepsSupply(s.q); }
    hide Inv, SyncCall, PopCall, Obtainable;
  }

  // ----- the kernel ------------------------------------------------------------------------------------

  /** The kernel receives into the first entry of the fill ring and shows the descriptor in the receive ring. */
  lemma {:induction false} KernelReceiveIsStep<R>(s: SockView<R>, x: Xdp<R>, d: Desc)
    requires Represents(s, x) && s.fillCons < s.fill.producer && x.frameSize > 0
    requires d.addr / x.frameSize == s.fill.entries[Entry(s.fillCons, |s.fill.entries|)].addr / x.frameSize
    ensures X.Enabled(x, KernelReceive(d.addr))
    ensures Represents(s.(fillCons := s.fillCons + 1, rxStream := s.rxStream + [d]), X.Step(x, KernelReceive(d.addr)))
  {
    hide CanPop, Addrs, Entry, FillOk;
    var rest := x.fill.(kernel := x.fill.kernel[1..]);
    assert Addresses(s.fill.entries, s.fillCons, s.fill.producer)[1..] == Addresses(s.fill.entries, s.fillCons + 1, s.fill.producer);
    ShorterOk(x.fill);
    assert Rest(s.rxStream + [d], s.rxReleased) == Rest(s.rxStream, s.rxReleased) + [d.addr];
    assert Stretch(s.rxStream + [d], s.rxReturned, s.rxReleased - s.rxReturned)
        == Stretch(s.rxStream, s.rxReturned, s.rxReleased - s.rxReturned);
  }

  lemma ShorterOk(f: FillRing)
    requires FillOk(f) && f.kernel != []
    ensures FillOk(f.(kernel := f.kernel[1..]))
  {}

  /** The kernel completes a frame that was submitted. */
  lemma {:induction false} KernelTransmitIsStep<R>(s: SockView<R>, x: Xdp<R>, i: nat, d: Desc)
    requires Represents(s, x) && i < |x.submitted| && d.addr == x.submitted[i]
    ensures X.Enabled(x, KernelTransmit(i))
    ensures Represents(s.(cqStream := s.cqStream + [d]), X.Step(x, KernelTransmit(i)))
  {
    hide CanPop, ViewMatches, RxMatches, TxMatches;
    assert Rest(s.cqStream + [d], s.cqConsumer) == Rest(s.cqStream, s.cqConsumer) + [d.addr];
    RxTxSame(s, x, s.(cqStream := s.cqStream + [d]), X.Step(x, KernelTransmit(i)));
  }

  lemma RxTxSame<R>(s: SockView<R>, x: Xdp<R>, s': SockView<R>, x': Xdp<R>)
    requires RxMatches(s, x) && TxMatches(s, x) && s' == s.(cqStream := s'.cqStream)
    requires x' == x.(submitted := x'.submitted, completion := x'.completion)
    ensures RxMatches(s', x') && TxMatches(s', x')
  {}

  // ----- when a receive keeps every frame in one place ---------------------------------------------------

  /**
    A receive keeps every frame in exactly one place if and only if it finds a descriptor, or its refill fails, or
    the entries the refill submits were all written.
  */
  lemma {:induction false} RecvKeepsPartitionIff<R>(s: SockView<R>, x: Xdp<R>, s': SockView<R>, index: nat, r: RecvResult, num: nat)
      returns (es: seq<XdpEvent<R>>)
    requires Represents(s, x) && RecvDone(s, s', index, r) && FillViewOk(s'.fill, s'.fillCons)
    requires XdpInv(x) && Partition(x, num) && MemoryHoldsFrames(x, num)
    ensures X.Legal(x, es) && Represents(s', X.Exec(x, es))
    ensures Partition(X.Exec(x, es), num) <==>
      (s.rxReturned < |s.rxStream| || r == ErrRefill || CoversWritten(x.fill, Reported(s.q, s.fill, s.fillCons)))
  {
    hide XdpInv, Partition, MemoryHoldsFrames, Obtainable, Inv, Represents, RecvDone, CanPop;
    es := RecvIsRun(s, x, s', index, r);
    GivesQueue(s, x, s', index, r);
    if s.rxReturned < |s.rxStream| {
      NoCopyingIsSound(x, es);
      StepsPartition(x, num, es);
    } else {
      RefillKeepsPartitionIff(x, Reported(s.q, s.fill, s.fillCons), num);
    }
  }

  lemma GivesQueue<R>(s: SockView<R>, x: Xdp<R>, s': SockView<R>, index: nat, r: RecvResult)
    requires Represents(s, x) && RecvDone(s, s', index, r)
    ensures x.q == s.q && CanPop(s.q) && FillViewOk(s.fill, s.fillCons) && s.rxReturned <= |s.rxStream| && (r == ErrRefill ==> s.rxReturned == |s.rxStream|)
  {}

  /**
    A ring without old reservations stays so, and a receive keeps every frame in one place, as long as the ring
    reports no more free entries than there are free frames: both can be checked before the call.
  */
  lemma {:induction false} CleanRecvKeeps<R>(s: SockView<R>, x: Xdp<R>, s': SockView<R>, index: nat, r: RecvResult, num: nat)
      returns (es: seq<XdpEvent<R>>)
    requires Represents(s, x) && RecvDone(s, s', index, r) && FillViewOk(s'.fill, s'.fillCons)
    requires XdpInv(x) && Partition(x, num) && MemoryHoldsFrames(x, num)
    requires s.fill.producer == s.fill.cachedProd && Reported(s.q, s.fill, s.fillCons) <= Obtainable(s.q)
    ensures X.Legal(x, es) && Represents(s', X.Exec(x, es)) && Partition(X.Exec(x, es), num)
    ensures r != ErrRefill && s'.fill.producer == s'.fill.cachedProd
  {
    hide XdpInv, Partition, MemoryHoldsFrames, Obtainable, Inv, RxMatches, TxMatches;
    es := RecvKeepsPartitionIff(s, x, s', index, r, num);
    assert x.fill.reserved == [];
    var _ := RecvIsRun(s, x, s', index, r);
    if s.rxReturned == |s.rxStream| { RefillStaysClean(s.q, s.fill, s.fillCons, s'.q, s'.fill, r == ErrNoPackets); }
  }

  lemma RefillStaysClean<R>(q: Queue<R>, f: FillView, consumer: nat, q': Queue<R>, f': FillView, ok: bool)
    requires CanPop(q) && FillViewOk(f, consumer) && Refilled(q, f, consumer, q', f', ok)
    requires f.producer == f.cachedProd && Reported(q, f, consumer) <= Obtainable(q)
    ensures ok && f'.producer == f'.cachedProd
  {
    hide Inv, SyncCall, PopMany, Written, Obtainable;
  }

  // ----- creation --------------------------------------------------------------------------------------

  ghost predicate Zeroed(entries: seq<Desc>) { entries != [] && forall k :: 0 <= k < |entries| ==> entries[k].addr == 0 }

  /** A socket just created, its rings empty and their memory zeroed. */
  ghost predicate JustCreated<R>(s: SockView<R>, num: nat, t: nat, frameSize: nat) {
    && SeedResult(s.q, num, t, FrameAddrs(num, frameSize))
    && Zeroed(s.fill.entries) && s.fill == FillView(s.fill.entries, 0, 0, |s.fill.entries|, |s.fill.entries|) && s.fillCons == 0
    && s.rxStream == [] && s.rxReleased == 0 && s.rxReturned == 0
    && Zeroed(s.txEntries) && s.txProducer == s.txHandedOut == s.txReserved == 0
    && s.cqStream == [] && s.cqConsumer == 0
  }

  /** It stands for the state that the run theorems start from. */
  lemma {:induction false} CreatedRepresents<R>(s: SockView<R>, num: nat, t: nat, frameSize: nat) returns (x: Xdp<R>)
    requires JustCreated(s, num, t, frameSize) && frameSize > 0
    ensures X.Fresh(x, num, t) && Represents(s, x)
  {
    SeededSupply(s.q, num, t, FrameAddrs(num, frameSize));
    hide SeedResult, CanPop, Obtainable, Entry;
    x := Xdp(frameSize, s.q, FillRing(Addrs(s.fill.entries), 0, [], [], 0, 0), [], [], [], [], [], [], [],
      Addrs(s.txEntries), 0, []);
  }
}
