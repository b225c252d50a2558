/** What holds over whole runs of the reference-counted packet buffers. */
module MbufRuns {
  import opened Bags
  import opened MbufHeap

  lemma {:induction false} StepInv(w: World, e: Event)
    requires Inv(w) && Enabled(w, e)
    ensures Inv(Step(w, e))
  {
    match e
    case AllocMbuf(a) => AllocInv(w, a);
    case NewExternal(s) => NewExternalInv(w, s);
    case AttachExt(a, s, buf, len) => AttachExtInv(w, a, s, buf, len);
    case AttachTo(i, a) => AttachInv(w, i, a);
    case DetachFrom(a) => DetachInv(w, a);
    case Adjust(a, value) => AdjustInv(w, a, value);
    case AdjustExt(s, value) => AdjustExtInv(w, s, value);
    case Free(a) => FreeInv(w, a);
    case Link(a, next, nbSegs) => LinkInv(w, a, next, nbSegs);
  }

  ghost predicate Legal(w: World, es: seq<Event>)
    decreases |es|
  {
    es == [] || (Enabled(w, es[0]) && Legal(Step(w, es[0]), es[1..]))
  }

  ghost function Exec(w: World, es: seq<Event>): World
    requires Legal(w, es)
    decreases |es|
  {
    if es == [] then w else Exec(Step(w, es[0]), es[1..])
  }

  lemma {:induction false} RunInv(w: World, es: seq<Event>)
    requires Inv(w) && Legal(w, es)
    ensures Inv(Exec(w, es))
    decreases |es|
  {
    hide Inv, Enabled, Step;
    if es != [] {
      StepInv(w, es[0]);
      RunInv(Step(w, es[0]), es[1..]);
    }
  }

  /** All mbufs in their pools, no external buffer yet. */
  ghost predicate Start(w: World) {
    && w.handles.Keys == w.m.at.Keys == w.m.free && 0 !in w.m.at
    && w.shares == map[] && w.m.ext == map[] && w.m.puts == []
    && (forall a :: a in w.m.at ==> w.handles[a] == 0 && LayoutOk(w.m, a) && Clean(w.m, a))
  }

  lemma StartInv(w: World)
    requires Start(w)
    ensures Inv(w)
  {
    assert forall d :: Clones(w.m, d) == {};
    assert forall s :: Users(w.m, s) == {};
  }

  /**
    The reference-count invariant in every reachable state: outside its pool an mbuf counts the program's
    handles plus the indirect mbufs attached to it; an indirect mbuf is attached to a direct one, also when it
    was attached to an indirect one; an external buffer counts the mbufs using it plus the program's references.
  */
  lemma {:induction false} CountersMeanReferences(w0: World, es: seq<Event>)
    requires Start(w0) && Legal(w0, es)
    ensures var w := Exec(w0, es);
      && (forall a :: a in w.m.at && a !in w.m.free ==>
            a in w.handles && 1 <= w.m.at[a].refcnt == w.handles[a] + |Clones(w.m, a)|)
      && (forall a :: a in w.m.at && a !in w.m.free && w.m.at[a].indirect ==>
            FromIndirect(w.m.at[a]) in w.m.at && FromIndirect(w.m.at[a]) !in w.m.free && Direct(w.m.at[FromIndirect(w.m.at[a])]))
      && (forall s :: s in w.m.ext ==> s in w.shares && w.m.ext[s].refcnt == w.shares[s] + |Users(w.m, s)|)
  {
    StartInv(w0);
    RunInv(w0, es);
    InvMeans(Exec(w0, es));
  }

  lemma InvMeans(w: World)
    requires Inv(w)
    ensures forall a :: a in w.m.at && a !in w.m.free ==>
      a in w.handles && 1 <= w.m.at[a].refcnt == w.handles[a] + |Clones(w.m, a)|
    ensures forall a :: a in w.m.at && a !in w.m.free && w.m.at[a].indirect ==>
      FromIndirect(w.m.at[a]) in w.m.at && FromIndirect(w.m.at[a]) !in w.m.free && Direct(w.m.at[FromIndirect(w.m.at[a])])
    ensures forall s :: s in w.m.ext ==> s in w.shares && w.m.ext[s].refcnt == w.shares[s] + |Users(w.m, s)|
  {
    hide Clones, Users;
    assert forall a :: a in w.m.at ==> MbufOk(w, a);
    assert forall s :: s in w.m.ext ==> SharedOk(w, s);
  }

  /** An mbuf is in its pool exactly when nothing refers to it, and then it is as the pool keeps mbufs. */
  lemma {:induction false} InPoolIff(w0: World, es: seq<Event>, a: nat)
    requires Start(w0) && Legal(w0, es) && a in Exec(w0, es).m.at
    ensures var w := Exec(w0, es);
      && a in w.handles
      && (a in w.m.free <==> w.handles[a] == 0 && Clones(w.m, a) == {})
      && (a in w.m.free ==> Clean(w.m, a))
  {
    StartInv(w0);
    RunInv(w0, es);
    hide Clones, Users;
    assert MbufOk(Exec(w0, es), a);
  }

  /** An external buffer's callback was called exactly once if nothing refers to the buffer, and never otherwise. */
  lemma {:induction false} CallbackOnce(w0: World, es: seq<Event>, s: nat)
    requires Start(w0) && Legal(w0, es) && s in Exec(w0, es).m.ext
    ensures var w := Exec(w0, es);
      s in w.shares && w.m.ext[s].calls == if w.shares[s] == 0 && Users(w.m, s) == {} then 1 else 0
  {
    StartInv(w0);
    RunInv(w0, es);
    hide Clones, Users;
    assert SharedOk(Exec(w0, es), s);
  }

  /** When the program has dropped all its references, everything is back: every mbuf in its pool, every callback made. */
  lemma {:induction false} EverythingReturned(w0: World, es: seq<Event>)
    requires Start(w0) && Legal(w0, es)
    requires var w := Exec(w0, es); (forall a :: a in w.handles ==> w.handles[a] == 0) && (forall s :: s in w.shares ==> w.shares[s] == 0)
    ensures var w := Exec(w0, es);
      w.m.free == w.m.at.Keys && (forall a :: a in w.m.at ==> Clean(w.m, a)) && (forall s :: s in w.m.ext ==> w.m.ext[s].calls == 1)
  {
    StartInv(w0);
    RunInv(w0, es);
    var w := Exec(w0, es);
    forall a | a in w.m.at ensures a in w.m.free && Clean(w.m, a) {
      if a !in w.m.free { SomeHandle(w, a); }
      assert MbufOk(w, a);
    }
    forall s | s in w.m.ext ensures w.m.ext[s].calls == 1 {
      assert Users(w.m, s) == {};
      assert SharedOk(w, s);
    }
  }

  /** A clone has no clones, so it has a handle. */
  lemma CloneHasHandle(w: World, c: nat)
    requires Inv(w) && c in w.m.at && c !in w.m.free && w.m.at[c].indirect
    ensures c in w.handles && w.handles[c] >= 1
  {
    assert MbufOk(w, c);
    NoneAttachedTo(w, c);
    assert Clones(w.m, c) == {};
  }

  /** As long as an mbuf is in use the program holds a handle, on it or on a clone of it. */
  lemma SomeHandle(w: World, a: nat)
    requires Inv(w) && a in w.m.at && a !in w.m.free
    ensures exists x :: x in w.handles && w.handles[x] >= 1
  {
    assert MbufOk(w, a);
    if w.handles[a] == 0 {
      assert |Clones(w.m, a)| > 0;
      var c :| c in Clones(w.m, a);
      CloneHasHandle(w, c);
    }
  }

  // ----- exactly-once return ---------------------------------------------------------------------------

  function PutOf(a: nat): ((nat, nat)) -> bool { (p: (nat, nat)) => p.1 == a }

  function Put(puts: seq<(nat, nat)>): set<nat> { set p | p in puts :: p.1 }

  function Allocated(e: Event): set<nat> { if e.AllocMbuf? then {e.a} else {} }

  /** What a detach puts into pools: the direct mbuf, if this was its last reference. */
  ghost function TargetPut(m: Mem, a: nat): seq<(nat, nat)>
    requires a in m.at
  {
    var d := FromIndirect(m.at[a]);
    if m.at[a].indirect && d in m.at && m.at[d].refcnt == 1 then [(m.at[d].pool, d as nat)] else []
  }

  /** What a step puts into pools. */
  ghost function NewPuts(w: World, e: Event): seq<(nat, nat)>
    requires Enabled(w, e)
  {
    match e
    case DetachFrom(a) => TargetPut(w.m, a)
    case Free(a) => if w.m.at[a].refcnt == 1 then TargetPut(w.m, a) + [(w.m.at[a].pool, a)] else []
    case _ => []
  }

  /**
    The mbufs `puts` went, in this order, each once and each to the pool it came from, from use into their
    pools; those in `taken` were allocated; no other mbuf entered or left a pool.
  */
  ghost predicate PutsOk(m: Mem, m': Mem, taken: set<nat>, puts: seq<(nat, nat)>) {
    && m'.puts == m.puts + puts && m'.free == m.free - taken + Put(puts)
    && (forall k :: 0 <= k < |puts| ==> puts[k].1 in m.at && puts[k].1 !in m.free && puts[k].0 == m.at[puts[k].1].pool)
    && (forall k, l :: 0 <= k < l < |puts| ==> puts[k].1 != puts[l].1)
  }

  lemma NoPuts(m: Mem, m': Mem, taken: set<nat>)
    requires m'.puts == m.puts && m'.free == m.free - taken
    ensures PutsOk(m, m', taken, [])
  {}

  lemma DetachPuts(w: World, a: nat)
    requires Inv(w) && Enabled(w, DetachFrom(a))
    ensures PutsOk(w.m, Step(w, DetachFrom(a)).m, {}, TargetPut(w.m, a))
  {
    hide Clones, Users, SharedOk, MbufOk, Step;
    if w.m.at[a].external {
      SharedSource(w, a);
      DetachIsSharedDrop(w, a);
      NoPuts(w.m, Step(w, DetachFrom(a)).m, {});
    } else {
      TargetOk(w, a);
      DetachIsIndirectDrop(w, a);
      if w.m.at[FromIndirect(w.m.at[a])].refcnt == 1 {
        assert Put(TargetPut(w.m, a)) == {FromIndirect(w.m.at[a])};
      } else {
        NoPuts(w.m, Step(w, DetachFrom(a)).m, {});
      }
    }
  }

  lemma ReturnPuts(m: Mem, m': Mem, a: nat, puts: seq<(nat, nat)>, pool: nat)
    requires PutsOk(m, m', {}, puts) && a in m.at && a !in m.free && a !in Put(puts) && a in m'.at
    requires m'.at[a].pool == m.at[a].pool == pool
    ensures PutsOk(m, PutBack(m'.(at := m'.at[a := Unlinked(m'.at[a])]), a), {}, puts + [(pool, a)])
  {
    assert Put(puts + [(pool, a)]) == Put(puts) + {a};
    assert forall k :: 0 <= k < |puts| ==> puts[k].1 in Put(puts);
  }

  lemma FreePuts(w: World, a: nat)
    requires Inv(w) && Enabled(w, Free(a)) && w.m.at[a].refcnt == 1
    ensures PutsOk(w.m, Step(w, Free(a)).m, {}, TargetPut(w.m, a) + [(w.m.at[a].pool, a)])
  {
    hide Inv, Step, PutsOk;
    FreeIsReturn(w, a);
    if Direct(w.m.at[a]) {
      NoPuts(w.m, w.m, {});
      ReturnPuts(w.m, w.m, a, [], w.m.at[a].pool);
      assert TargetPut(w.m, a) == [];
    } else {
      DetachPuts(w, a);
      DetachKeeps(w, a);
      DetachKeepsPool(w, a);
      ReturnPuts(w.m, Step(w, DetachFrom(a)).m, a, TargetPut(w.m, a), w.m.at[a].pool);
    }
  }

  lemma DetachKeepsPool(w: World, a: nat)
    requires Inv(w) && Enabled(w, DetachFrom(a))
    ensures a in Step(w, DetachFrom(a)).m.at && Step(w, DetachFrom(a)).m.at[a].pool == w.m.at[a].pool
    ensures a !in Put(TargetPut(w.m, a))
  {
    hide Clones, Users, SharedOk, MbufOk, Added;
    if w.m.at[a].external { SharedSource(w, a); } else { TargetOk(w, a); }
  }

  /** What is put into pools by one step was outside them and goes back once, each mbuf to its own pool. */
  lemma {:induction false} StepPuts(w: World, e: Event)
    requires Inv(w) && Enabled(w, e)
    ensures PutsOk(w.m, Step(w, e).m, Allocated(e), NewPuts(w, e))
  {
    match e
    case DetachFrom(a) => DetachPuts(w, a);
    case Free(a) =>
      if w.m.at[a].refcnt == 1 { FreePuts(w, a); } else { NoPuts(w.m, Step(w, e).m, {}); }
    case _ => NoPuts(w.m, Step(w, e).m, Allocated(e));
  }

  /** How often `a` was allocated. */
  function Allocations(es: seq<Event>, a: nat): nat
    decreases |es|
  {
    if es == [] then 0 else (if es[0] == AllocMbuf(a) then 1 else 0) + Allocations(es[1..], a)
  }

  lemma {:induction false} CountPuts(puts: seq<(nat, nat)>, a: nat)
    requires forall k, l :: 0 <= k < l < |puts| ==> puts[k].1 != puts[l].1
    ensures Count(puts, PutOf(a)) == if a in Put(puts) then 1 else 0
  {
    if puts != [] {
      var front, last := puts[..|puts| - 1], puts[|puts| - 1];
      CountPuts(front, a);
      assert puts == front + [last];
      assert Put(puts) == Put(front) + {last.1};
    }
  }

  lemma StepBalance(w: World, e: Event, a: nat)
    requires Inv(w) && Enabled(w, e)
    ensures var w' := Step(w, e);
      Count(w'.m.puts, PutOf(a)) + (if a in w.m.free then 1 else 0)
        == Count(w.m.puts, PutOf(a)) + (if e == AllocMbuf(a) then 1 else 0) + (if a in w'.m.free then 1 else 0)
  {
    hide Inv, Step;
    StepPuts(w, e);
    CountConcat(w.m.puts, NewPuts(w, e), PutOf(a));
    CountPuts(NewPuts(w, e), a);
    assert a in Put(NewPuts(w, e)) ==> exists k :: 0 <= k < |NewPuts(w, e)| && NewPuts(w, e)[k].1 == a;
  }

  /**
    Exactly-once return, whatever the order in which packets and clones are freed: an mbuf was put back once for
    every time it was allocated, except that the last return is still to come while it is in use.
  */
  lemma {:induction false} ReturnedOncePerAllocation(w: World, es: seq<Event>, a: nat)
    requires Inv(w) && Legal(w, es)
    ensures var w' := Exec(w, es);
      Count(w'.m.puts, PutOf(a)) + (if a in w.m.free then 1 else 0)
        == Count(w.m.puts, PutOf(a)) + Allocations(es, a) + (if a in w'.m.free then 1 else 0)
    decreases |es|
  {
    hide Inv, Step, Enabled;
    if es != [] {
      StepInv(w, es[0]);
      StepBalance(w, es[0], a);
      ReturnedOncePerAllocation(Step(w, es[0]), es[1..], a);
    }
  }

  // ----- the limit of the counters ---------------------------------------------------------------------

  lemma WrapsToZero()
    ensures Added(COUNT_MAX, 1) == 0
  {}

  /** `rte_mbuf_refcnt_update`, whatever the counter; the program gains or gives up that many handles. */
  ghost function Adjusted(w: World, a: nat, value: int): World
    requires Held(w, a) && w.handles[a] + value >= 0
  {
    w.(m := SetCount(w.m, a, Added(w.m.at[a].refcnt, value)), handles := w.handles[a := w.handles[a] + value])
  }

  /** Adding references, or giving some up, keeps the invariant if and only if the 16-bit counter stays between 1 and its limit. */
  lemma {:induction false} AdjustKeepsIff(w: World, a: nat, value: int)
    requires Inv(w) && Held(w, a) && w.handles[a] + value >= 0 && -32768 <= value <= 32767
    ensures Inv(Adjusted(w, a, value)) <==> 1 <= w.m.at[a].refcnt + value <= COUNT_MAX
  {
    hide Inv, Added;
    if 1 <= w.m.at[a].refcnt + value <= COUNT_MAX {
      AdjustInv(w, a, value);
    } else {
      AdjustOutOfRange(w, a, value);
    }
  }

  lemma {:induction false} AdjustOutOfRange(w: World, a: nat, value: int)
    requires Inv(w) && Held(w, a) && w.handles[a] + value >= 0 && -32768 <= value <= 32767
    requires !(1 <= w.m.at[a].refcnt + value <= COUNT_MAX)
    ensures !Inv(Adjusted(w, a, value))
  {
    hide Inv, Added, Clones;
    InUseCount(w, a);
    var w' := Adjusted(w, a, value);
    SameSets(w.m, w'.m);
    NoWrapBy(w.m.at[a].refcnt, value);
    if Inv(w') { InUseCount(w', a); }
  }

  lemma InUseCount(w: World, a: nat)
    requires Inv(w) && a in w.m.at && a !in w.m.free
    ensures a in w.handles && w.m.at[a].refcnt == w.handles[a] + |Clones(w.m, a)| && 1 <= w.m.at[a].refcnt <= COUNT_MAX
  {
    assert MbufOk(w, a);
  }

  /** `rte_mbuf_ext_refcnt_update`, whatever the counter; the program gains or gives up that many references. */
  ghost function AdjustedExt(w: World, s: nat, value: int): World
    requires s in w.m.ext && s in w.shares && w.shares[s] + value >= 0
  {
    w.(m := SetExtCount(w.m, s, Added(w.m.ext[s].refcnt, value)), shares := w.shares[s := w.shares[s] + value])
  }

  /**
    The same for an external buffer of which the program holds a reference: with the last reference given up this way
    the buffer would not be handed back.
  */
  lemma {:induction false} AdjustExtKeepsIff(w: World, s: nat, value: int)
    requires Inv(w) && s in w.m.ext && s in w.shares && w.shares[s] >= 1 && w.shares[s] + value >= 0
    requires -32768 <= value <= 32767
    ensures Inv(AdjustedExt(w, s, value)) <==> 1 <= w.m.ext[s].refcnt + value <= COUNT_MAX
  {
    hide Inv, Added;
    if 1 <= w.m.ext[s].refcnt + value <= COUNT_MAX {
      AdjustExtInv(w, s, value);
    } else {
      var w' := AdjustedExt(w, s, value);
      SharedIs(w, s);
      hide Users;
      NoWrapBy(w.m.ext[s].refcnt, value);
      SameSets(w.m, w'.m);
      if Inv(w') { SharedIs(w', s); }
    }
  }

  lemma SharedIs(w: World, s: nat)
    requires Inv(w) && s in w.m.ext
    ensures s in w.shares && w.m.ext[s].refcnt == w.shares[s] + |Users(w.m, s)| <= COUNT_MAX
    ensures w.m.ext[s].calls == if w.m.ext[s].refcnt == 0 then 1 else 0
  {
    assert SharedOk(w, s);
  }

  lemma ZeroIsWrong(w: World, a: nat)
    requires a in w.m.at && a !in w.m.free && w.m.at[a].refcnt == 0
    ensures !Inv(w)
  {
    hide Inv;
    if Inv(w) { TargetCount(w, a); }
  }

  /** Whether `rte_pktmbuf_attach` of `i` to `a` is called as its documentation asks. */
  ghost predicate MayAttach(w: World, i: nat, a: nat) {
    Held(w, i) && Held(w, a) && i != a && Direct(w.m.at[i]) && w.m.at[i].refcnt == 1
  }

  /** The counter that an attachment to `a` increases. */
  ghost function AttachCounter(w: World, a: nat): nat
    requires Inv(w) && Held(w, a)
  {
    if w.m.at[a].external then SharedSource(w, a); w.m.ext[w.m.at[a].shinfo].refcnt
    else TargetOk(w, a); w.m.at[FromIndirect(w.m.at[a])].refcnt
  }

  /** Attaching keeps the invariant if and only if the counter of the direct mbuf or of the external buffer is below its limit. */
  lemma {:induction false} AttachKeepsIff(w: World, i: nat, a: nat)
    requires Inv(w) && MayAttach(w, i, a)
    ensures if w.m.at[a].external then w.m.at[a].shinfo in w.m.ext else FromIndirect(w.m.at[a]) in w.m.at
    ensures Inv(w.(m := Attach(w.m, i, a))) <==> AttachCounter(w, a) < COUNT_MAX
  {
    if w.m.at[a].external { SharedSource(w, a); } else { TargetOk(w, a); }
    if AttachCounter(w, a) < COUNT_MAX {
      AttachInv(w, i, a);
    } else {
      AttachAtLimit(w, i, a);
    }
  }

  lemma AttachAtLimit(w: World, i: nat, a: nat)
    requires Inv(w) && MayAttach(w, i, a) && AttachCounter(w, a) >= COUNT_MAX
    requires if w.m.at[a].external then w.m.at[a].shinfo in w.m.ext else FromIndirect(w.m.at[a]) in w.m.at
    ensures !Inv(w.(m := Attach(w.m, i, a)))
  {
    hide Inv, Added;
    WrapsToZero();
    var w' := w.(m := Attach(w.m, i, a));
    if w.m.at[a].external {
      SharedSource(w, a);
      SharedCount(w, w.m.at[a].shinfo, a);
      StillUser(w.m, i, a);
      NotCounted(w', w.m.at[a].shinfo, a);
    } else {
      TargetOk(w, a);
      TargetCount(w, FromIndirect(w.m.at[a]));
      SoleHandle(w, i);
      ZeroIsWrong(w', FromIndirect(w.m.at[a]));
    }
  }

  lemma StillUser(m: Mem, i: nat, a: nat)
    requires i in m.at && a in m.at && i != a && m.at[a].external && m.at[a].shinfo in m.ext
    requires a in Users(m, m.at[a].shinfo)
    ensures a in Users(Attach(m, i, a), m.at[a].shinfo)
  {
    hide Added;
  }

  lemma NotCounted(w: World, s: nat, a: nat)
    requires s in w.m.ext && w.m.ext[s].refcnt == 0 && a in Users(w.m, s)
    ensures !Inv(w)
  {
    if Inv(w) { SharedCount(w, s, a); }
  }
}
