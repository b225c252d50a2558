/** The calls of the AF_XDP backend as runs of atomic steps, and when a send keeps every frame in one place. */
module AfXdpCalls {
  import opened Bags
  import opened QueueMachine
  import opened QueueProperties
  import opened QueueSupply
  import opened FillRings
  import opened AfXdpMachine

  lemma {:induction false} ExecAppend<R>(x: Xdp<R>, a: seq<XdpEvent<R>>, b: seq<XdpEvent<R>>)
    requires AfXdpMachine.Legal(x, a) && AfXdpMachine.Legal(AfXdpMachine.Exec(x, a), b)
    ensures AfXdpMachine.Legal(x, a + b) && AfXdpMachine.Exec(x, a + b) == AfXdpMachine.Exec(AfXdpMachine.Exec(x, a), b)
    decreases |a|
  {
    hide AfXdpMachine.Step, AfXdpMachine.Enabled;
    if a == [] {
      assert a + b == b;
    } else {
      assert (a + b)[0] == a[0] && (a + b)[1..] == a[1..] + b;
      ExecAppend(AfXdpMachine.Step(x, a[0]), a[1..], b);
    }
  }

  lemma {:induction false} ExecOne<R>(x: Xdp<R>, e: XdpEvent<R>, x': Xdp<R>)
    requires AfXdpMachine.Enabled(x, e) && x' == AfXdpMachine.Step(x, e)
    ensures AfXdpMachine.Legal(x, [e]) && AfXdpMachine.Exec(x, [e]) == x'
  {
    assert [e][1..] == [];
  }

  lemma {:induction false} ThenOne<R>(x: Xdp<R>, a: seq<XdpEvent<R>>, e: XdpEvent<R>)
    requires AfXdpMachine.Legal(x, a) && AfXdpMachine.Enabled(AfXdpMachine.Exec(x, a), e)
    ensures AfXdpMachine.Legal(x, a + [e])
    ensures AfXdpMachine.Exec(x, a + [e]) == AfXdpMachine.Step(AfXdpMachine.Exec(x, a), e)
  {
    hide AfXdpMachine.Step, AfXdpMachine.Enabled;
    var x' := AfXdpMachine.Exec(x, a);
    ExecOne(x', e, AfXdpMachine.Step(x', e));
    ExecAppend(x, a, [e]);
  }

  /** No step of the run is one that can copy a frame. */
  predicate NoCopying<R(==)>(es: seq<XdpEvent<R>>) {
    forall k :: 0 <= k < |es| ==> !es[k].SendWithoutFrame? && !es[k].RefillSubmit?
  }

  lemma {:induction false} NoCopyingIsSound<R>(x: Xdp<R>, es: seq<XdpEvent<R>>)
    requires AfXdpMachine.Legal(x, es) && NoCopying(es)
    ensures Sound(x, es)
    decreases |es|
  {
    hide AfXdpMachine.Step, AfXdpMachine.Enabled;
    if es != [] {
      assert NoCopying(es[1..]);
      NoCopyingIsSound(AfXdpMachine.Step(x, es[0]), es[1..]);
    }
  }

  /** The steps of a consumer, as steps of the backend. */
  function Lifted<R>(es: seq<Event<R>>): seq<XdpEvent<R>>
    decreases |es|
  {
    if es == [] then [] else [QueueStep(es[0])] + Lifted(es[1..])
  }

  lemma {:induction false} LiftRun<R>(x: Xdp<R>, es: seq<Event<R>>)
    requires OnlyDrains(es) && QueueMachine.Legal(x.q, es)
    ensures AfXdpMachine.Legal(x, Lifted(es)) && AfXdpMachine.Exec(x, Lifted(es)) == x.(q := QueueMachine.Exec(x.q, es))
    ensures NoCopying(Lifted(es))
    decreases |es|
  {
    if es != [] {
      var x' := x.(q := QueueMachine.Step(x.q, es[0]));
      LiftRun(x', es[1..]);
      assert Lifted(es)[1..] == Lifted(es[1..]);
    }
  }

  /** Looking for free frames, which synchronises an empty cache, is a run. */
  lemma {:induction false} LookIsRun<R>(x: Xdp<R>) returns (es: seq<XdpEvent<R>>)
    requires CanPop(x.q)
    ensures AfXdpMachine.Legal(x, es) && AfXdpMachine.Exec(x, es) == x.(q := Looked(x.q)) && NoCopying(es)
  {
    es := [];
    if x.q.cached == [] {
      var drains := SyncIsRun(x.q);
      LiftRun(x, drains);
      es := Lifted(drains);
    }
  }

  lemma PopIsLookThenTake<R>(q: Queue<R>)
    requires CanPop(q)
    ensures Looked(q).drain == None
    ensures PopCall(q) == if Looked(q).cached == [] then (Looked(q), None)
      else (QueueMachine.Step(Looked(q), PopCached), Some(Newest(Looked(q))))
    ensures Looked(q).cached == [] <==> Obtainable(q) == 0
  {
    SyncKeepsSupply(q);
  }

  /** Taking one frame and writing it to the next entry reserved. */
  lemma {:induction false} TakingOneIsRun<R>(x: Xdp<R>) returns (es: seq<XdpEvent<R>>)
    requires CanPop(x.q) && Obtainable(x.q) > 0 && FillOk(x.fill) && x.fill.written < x.fill.batch
    ensures AfXdpMachine.Legal(x, es) && NoCopying(es) && PopCall(x.q).1.Some? && CanWrite(x.fill)
    ensures AfXdpMachine.Exec(x, es) == x.(q := PopCall(x.q).0, fill := Write(x.fill, PopCall(x.q).1.value))
  {
    hide Inv, Obtainable, Looked, PopCall, SyncCall, FillOk, Write;
    PopIsLookThenTake(x.q);
    PopKeepsSupply(x.q);
    ReservedIsThere(x.fill);
    es := LookIsRun(x);
    ThenOne(x, es, RefillTake);
    es := es + [RefillTake];
  }

  /** Taking `n` frames and writing them to the entries reserved, as long as there are that many frames, is a run. */
  lemma {:induction false} TakingIsRun<R>(x: Xdp<R>, n: nat) returns (es: seq<XdpEvent<R>>)
    requires CanPop(x.q) && n <= Obtainable(x.q) && FillOk(x.fill) && x.fill.written + n <= x.fill.batch
    ensures AfXdpMachine.Legal(x, es) && NoCopying(es) && |PopMany(x.q, n).1| == n
    ensures AfXdpMachine.Exec(x, es) == x.(q := PopMany(x.q, n).0, fill := WriteAll(x.fill, PopMany(x.q, n).1))
    decreases n
  {
    hide Inv, Obtainable, Looked, PopCall, SyncCall, WriteAll, FillOk;
    PopManyFinds(x.q, n);
    if n == 0 {
      es := [];
      WriteNone(x.fill);
      assert PopMany(x.q, 0) == (x.q, []);
    } else {
      PopKeepsSupply(x.q);
      PopManyFirst(x.q, n);
      hide PopMany, Write;
      es := TakingOneIsRun(x);
      var x1 := AfXdpMachine.Exec(x, es);
      var v := PopCall(x.q).1.value;
      WriteAllFirst(x.fill, v, PopMany(x1.q, n - 1).1);
      var rest := TakingIsRun(x1, n - 1);
      ExecAppend(x, es, rest);
      es := es + rest;
    }
  }

  lemma PopManyFirst<R>(q: Queue<R>, n: nat)
    requires CanPop(q) && n > 0
    ensures CanPop(PopCall(q).0)
    ensures var (q1, x) := PopCall(q);
      PopMany(q, n) == if x == None then (q1, []) else (PopMany(q1, n - 1).0, [x.value] + PopMany(q1, n - 1).1)
  {
    PopKeepsSupply(q);
    hide Inv, PopCall, Obtainable;
  }

  lemma WriteNone(f: FillRing)
    requires FillOk(f)
    ensures WriteAll(f, []) == f
  {}

  lemma ReservedIsThere(f: FillRing)
    requires FillOk(f)
    ensures f.batch <= |f.reserved| && f.mem != []
  {}

  /** A whole refill for which the ring reported `n` free entries, up to its submission or failure. */
  ghost function AfterWriting<R>(x: Xdp<R>, n: nat): (x': Xdp<R>)
    requires CanPop(x.q) && FillOk(x.fill) && CanReserve(x.fill, n)
  {
    PopManyFinds(Looked(x.q), n);
    var (q, xs) := PopMany(Looked(x.q), n);
    x.(q := q, fill := WriteAll(Reserve(x.fill, n), xs))
  }

  /** `refill_fill_ring` when the ring reports `n` free entries. */
  ghost function RefillCall<R>(x: Xdp<R>, n: nat): Xdp<R>
    requires CanPop(x.q) && FillOk(x.fill) && CanReserve(x.fill, n)
  {
    if Looked(x.q).cached == [] || n == 0 then x.(q := Looked(x.q)) else
    PopManyFinds(Looked(x.q), n);
    var (q, xs) := PopMany(Looked(x.q), n);
    x.(q := q, fill := Refill(x.fill, n, xs))
  }

  /** What a refill finds: as many frames as entries, if there are that many; and if not, nothing is left to be had. */
  lemma {:induction false} RefillFinds<R>(q: Queue<R>, n: nat)
    requires CanPop(q)
    ensures var (q', xs) := PopMany(Looked(q), n);
      && |xs| == Min(n, Obtainable(q)) && CanPop(q') && (n > Obtainable(q) ==> q'.cached == [])
  {
    hide Inv, PopCall, SyncCall, Looked, PopMany;
    var q1 := Looked(q);
    PopManyFinds(q1, n);
    var q' := PopMany(q1, n).0;
    if n > Obtainable(q) { NothingCached(q'); }
  }

  lemma NothingCached<R>(q: Queue<R>)
    requires Obtainable(q) == 0
    ensures q.cached == []
  {}

  /** Reserving, and writing all frames found, is a run that can copy nothing. */
  lemma {:induction false} WritingIsRun<R>(x: Xdp<R>, n: nat) returns (es: seq<XdpEvent<R>>)
    requires CanPop(x.q) && FillOk(x.fill) && CanReserve(x.fill, n)
    ensures AfXdpMachine.Legal(x, es) && NoCopying(es) && AfXdpMachine.Exec(x, es) == AfterWriting(x, n)
  {
    hide Inv, Obtainable, PopCall, SyncCall, PopMany, WriteAll, FillOk;
    es := LookIsRun(x);
    var q1 := Looked(x.q);
    ReserveOk(x.fill, n);
    hide Looked, Reserve;
    ThenOne(x, es, RefillReserve(n));
    es := es + [RefillReserve(n)];
    var x1 := AfXdpMachine.Exec(x, es);
    var m := Min(n, Obtainable(q1));
    var rest := TakingIsRun(x1, m);
    ExecAppend(x, es, rest);
    es := es + rest;
    PopManyFinds(q1, n);
    PopManyFinds(q1, m);
    if m < n {
      // The pop that finds nothing.
      PopKeepsSupply(PopMany(q1, m).0);
      PopManyStops(q1, m, n);
      var x2 := AfXdpMachine.Exec(x, es);
      PopIsLookThenTake(x2.q);
      var look := LookIsRun(x2);
      ExecAppend(x, es, look);
      es := es + look;
    }
  }

  lemma ReserveOk(f: FillRing, n: nat)
    requires FillOk(f) && CanReserve(f, n)
    ensures FillOk(Reserve(f, n)) && Reserve(f, n).written == 0 && Reserve(f, n).batch == n
  {}

  /** Every refill, whether it succeeds, fails or has nothing to do, is a run of atomic steps. */
  lemma {:induction false} RefillIsRun<R>(x: Xdp<R>, n: nat) returns (es: seq<XdpEvent<R>>)
    requires CanPop(x.q) && FillOk(x.fill) && CanReserve(x.fill, n)
    ensures AfXdpMachine.Legal(x, es) && AfXdpMachine.Exec(x, es) == RefillCall(x, n)
  {
    hide Inv, Obtainable, PopCall, SyncCall, PopMany, WriteAll, Looked;
    if Looked(x.q).cached == [] || n == 0 {
      es := LookIsRun(x);
    } else {
      es := WritingIsRun(x, n);
      RefillFinds(x.q, n);
      ReserveOk(x.fill, n);
      var last := if n <= Obtainable(x.q) then RefillSubmit else RefillFail;
      ThenOne(x, es, last);
      es := es + [last];
    }
  }

  /**
    A refill keeps every frame in exactly one place if and only if it fails, or none of the entries it submits was
    left behind unwritten by an earlier refill.
  */
  lemma {:induction false} RefillKeepsPartitionIff<R>(x: Xdp<R>, n: nat, num: nat)
    requires XdpInv(x) && Partition(x, num) && MemoryHoldsFrames(x, num)
    requires CanPop(x.q) && FillOk(x.fill) && CanReserve(x.fill, n)
    ensures Partition(RefillCall(x, n), num) <==> n > Obtainable(x.q) || CoversWritten(x.fill, n)
  {
    hide XdpInv, Partition, MemoryHoldsFrames, Obtainable, PopCall, Inv, SyncCall, PopMany, WriteAll;
    PopIsLookThenTake(x.q);
    if Looked(x.q).cached == [] || n == 0 {
      var es := LookIsRun(x);
      NoCopyingIsSound(x, es);
      StepsPartition(x, num, es);
    } else {
      var es := WritingIsRun(x, n);
      NoCopyingIsSound(x, es);
      StepsPartition(x, num, es);
      RefillFinds(x.q, n);
      ReserveOk(x.fill, n);
      hide Looked;
      var x1 := AfterWriting(x, n);
      if n <= Obtainable(x.q) {
        RefillCoversIff(x.fill, n, PopMany(Looked(x.q), n).1);
        PartitionKeptIff(x1, RefillSubmit, num);
      } else {
        PartitionKeptIff(x1, RefillFail, num);
      }
    }
  }

  /**
    A refill of a ring without old reservations that reports no more entries than there are frames keeps every frame
    in one place and leaves no reservation; with old reservations, or too few frames, some reservation stays.
  */
  lemma {:induction false} RefillLeavesNoneIff<R>(x: Xdp<R>, n: nat)
    requires CanPop(x.q) && FillOk(x.fill) && CanReserve(x.fill, n)
    ensures RefillCall(x, n).fill.reserved == [] <==>
      (x.fill.reserved == [] && (n <= Obtainable(x.q) || Obtainable(x.q) == 0))
  {
    hide Inv, PopCall, SyncCall, PopMany, Obtainable, WriteAll;
    PopIsLookThenTake(x.q);
    RefillFinds(x.q, n);
    NoReservationsLeftIff(x.fill, n, PopMany(Looked(x.q), n).1);
  }

  /**
    After a failed refill, the next one that reserves more entries than were left behind written and finds frames
    for them puts a frame in two places, whatever happened to the queue and the other rings in between.
  */
  lemma {:induction false} FailedRefillPoisons<R>(x: Xdp<R>, n: nat, x': Xdp<R>, n': nat, num: nat)
    requires CanPop(x.q) && FillOk(x.fill) && CanReserve(x.fill, n) && 0 < Obtainable(x.q) < n
    requires x'.fill.reserved == RefillCall(x, n).fill.reserved
    requires XdpInv(x') && Partition(x', num) && MemoryHoldsFrames(x', num)
    requires CanPop(x'.q) && FillOk(x'.fill) && CanReserve(x'.fill, n')
    requires |x.fill.reserved| + Obtainable(x.q) < n' <= Obtainable(x'.q)
    ensures !Partition(RefillCall(x', n'), num)
  {
    hide XdpInv, Partition, MemoryHoldsFrames, Obtainable, PopCall, Inv, SyncCall, PopMany, Refill;
    PopIsLookThenTake(x.q);
    RefillFinds(x.q, n);
    FailedRefillLeaves(x.fill, n, PopMany(Looked(x.q), n).1);
    RefillKeepsPartitionIff(x', n', num);
    assert x'.fill.reserved[|x.fill.reserved| + Obtainable(x.q)] == None;
  }

  /** A failed refill ends in the dead end if and only if the kernel has emptied the ring and the call reserves all of it. */
  lemma {:induction false} FailedRefillSticksIff<R>(x: Xdp<R>, n: nat)
    requires CanPop(x.q) && FillOk(x.fill) && CanReserve(x.fill, n) && 0 < Obtainable(x.q) < n
    ensures Stuck(RefillCall(x, n)) <==> x.fill.kernel == [] && |x.fill.reserved| + n == |x.fill.mem|
  {
    hide Obtainable, PopCall, Inv, SyncCall, PopMany;
    PopIsLookThenTake(x.q);
    RefillFinds(x.q, n);
    ReserveOk(x.fill, n);
  }

  /** A send that has found a slot: it looks for a free frame, and hands the slot out in any case. */
  ghost function SendCall<R>(x: Xdp<R>): Xdp<R>
    requires CanPop(x.q) && CanSend(x)
  {
    var x1 := x.(q := Looked(x.q));
    if x1.q.cached != [] then AfXdpMachine.Step(x1, Send) else AfXdpMachine.Step(x1, SendWithoutFrame)
  }

  /**
    A send keeps every frame in exactly one place if and only if there was a free frame in the cache or in any
    ring when it looked.
  */
  lemma {:induction false} SendKeepsPartitionIff<R>(x: Xdp<R>, num: nat)
    requires XdpInv(x) && Partition(x, num) && MemoryHoldsFrames(x, num) && CanPop(x.q) && CanSend(x)
    ensures Partition(SendCall(x), num) <==> Obtainable(x.q) > 0
  {
    hide XdpInv, Partition, MemoryHoldsFrames, Obtainable, PopCall, Inv;
    PopIsLookThenTake(x.q);
    var es := LookIsRun(x);
    NoCopyingIsSound(x, es);
    StepsPartition(x, num, es);
    hide Looked;
    var x1 := x.(q := Looked(x.q));
    PartitionKeptIff(x1, if x1.q.cached != [] then Send else SendWithoutFrame, num);
  }
}
