/** The packet buffer library itself, updating mbufs in memory. */
module MbufOps {
  import opened Bags
  import opened LinkedLists
  import opened MbufHeap
  import opened MbufRuns

  function NextOf(at: map<nat, Mbuf>): map<nat, nat> { map a | a in at :: at[a].next }

  /** The events of freeing the segments of a packet one after the other. */
  function FreeEvents(segs: seq<nat>): seq<Event>
    decreases |segs|
  {
    if segs == [] then [] else [Event.Free(segs[0])] + FreeEvents(segs[1..])
  }

  ghost predicate AllHeld(w: World, segs: seq<nat>) { forall k :: 0 <= k < |segs| ==> Held(w, segs[k]) }

  lemma FreeEnabled(w: World, a: nat)
    requires Inv(w) && Held(w, a)
    ensures Enabled(w, Event.Free(a)) && (!Direct(w.m.at[a]) ==> CanDetach(w.m, a))
    ensures !Direct(w.m.at[a]) && !w.m.at[a].external ==> FromIndirect(w.m.at[a]) != a
  {
    hide Clones, Users;
    assert MbufOk(w, a);
  }

  /** Freeing one segment neither frees nor unlinks another one that the program holds. */
  lemma {:induction false} FreeKeepsOther(w: World, a: nat, x: nat)
    requires Inv(w) && Enabled(w, Event.Free(a)) && Held(w, x) && x != a
    ensures var w' := Step(w, Event.Free(a)); Held(w', x) && w'.m.at[x].next == w.m.at[x].next
  {
    hide Clones, Users, SharedOk, Added, MbufOk;
    if w.m.at[a].refcnt == 1 && !Direct(w.m.at[a]) && !w.m.at[a].external {
      TargetOk(w, a);
      if x == FromIndirect(w.m.at[a]) { SharedCountAboveOne(w, x, a); }
    }
  }

  lemma SharedCountAboveOne(w: World, x: nat, a: nat)
    requires Inv(w) && Held(w, x) && a in Clones(w.m, x)
    ensures 2 <= w.m.at[x].refcnt <= COUNT_MAX && Added(w.m.at[x].refcnt, -1) == w.m.at[x].refcnt - 1
  {
    assert MbufOk(w, x);
    assert |Clones(w.m, x)| > 0;
  }

  lemma {:induction false} ChainFrame(next: map<nat, nat>, next': map<nat, nat>, head: nat, segs: seq<nat>)
    requires Chained(head, next, segs)
    requires forall k :: 0 <= k < |segs| ==> segs[k] in next && segs[k] in next' && next'[segs[k]] == next[segs[k]]
    ensures Chained(head, next', segs)
    decreases |segs|
  {
    if segs != [] { ChainFrame(next, next', next[head], segs[1..]); }
  }

  /** After freeing the first segment, the rest of the packet is as it was: reading `next` before freeing suffices. */
  lemma FreeFirst(w: World, segs: seq<nat>)
    requires Inv(w) && segs != [] && Chained(segs[0], NextOf(w.m.at), segs) && AllHeld(w, segs)
    ensures Enabled(w, Event.Free(segs[0]))
    ensures var w' := Step(w, Event.Free(segs[0]));
      Inv(w') && AllHeld(w', segs[1..]) && Chained(w.m.at[segs[0]].next, NextOf(w'.m.at), segs[1..])
  {
    hide Inv, Held, Step;
    FreeEnabled(w, segs[0]);
    FreeInv(w, segs[0]);
    ChainDistinct(segs[0], NextOf(w.m.at), segs);
    var w' := Step(w, Event.Free(segs[0]));
    forall k | 0 <= k < |segs[1..]| ensures Held(w', segs[1..][k]) && InAndSame(w.m, w'.m, segs[1..][k]) {
      assert segs[1..][k] == segs[k + 1];
      FreeKeepsOther(w, segs[0], segs[k + 1]);
      HeldIsThere(w, segs[k + 1]);
      HeldIsThere(w', segs[k + 1]);
    }
    ChainFrame(NextOf(w.m.at), NextOf(w'.m.at), w.m.at[segs[0]].next, segs[1..]);
  }

  lemma HeldIsThere(w: World, a: nat)
    requires Held(w, a)
    ensures a in w.m.at
  {}

  ghost predicate InAndSame(m: Mem, m': Mem, x: nat) {
    x in m.at && x in m'.at && m'.at[x].next == m.at[x].next
  }

  /** A packet whose segments the program holds can be freed segment by segment. */
  lemma {:induction false} FreeAllLegal(w: World, segs: seq<nat>)
    requires Inv(w) && AllHeld(w, segs) && (segs != [] ==> Chained(segs[0], NextOf(w.m.at), segs))
    ensures Legal(w, FreeEvents(segs)) && Inv(Exec(w, FreeEvents(segs)))
    decreases |segs|
  {
    hide Inv, Held, Step, Enabled, NextOf;
    if segs != [] {
      FreeFirst(w, segs);
      assert FreeEvents(segs)[1..] == FreeEvents(segs[1..]);
      FreeAllLegal(Step(w, Event.Free(segs[0])), segs[1..]);
    }
  }

  /** What `rte_pktmbuf_prefree_seg` leaves of the last reference. */
  function Prefreed(m: Mem, a: nat): Mem
    requires a in m.at && (!Direct(m.at[a]) ==> CanDetach(m, a))
  {
    var m' := if Direct(m.at[a]) then m else Detach(m, a);
    m'.(at := m'.at[a := Unlinked(m'.at[a])])
  }

  /** Counting down to zero before detaching and setting the counter afterwards comes to the same. */
  lemma PrefreeAtZero(m: Mem, a: nat)
    requires a in m.at && m.at[a].refcnt == 1
    requires !Direct(m.at[a]) ==> CanDetach(m, a) && (m.at[a].external || FromIndirect(m.at[a]) != a)
    ensures CanPrefree(SetCount(m, a, 0), a)
    ensures var m' := Prefreed(SetCount(m, a, 0), a); a in m'.at && SetCount(m', a, 1) == Prefreed(m, a)
  {
    hide Added;
    var m' := Prefreed(SetCount(m, a, 0), a);
    assert SetCount(m', a, 1).at == Prefreed(m, a).at;
  }

  predicate CanPrefree(m: Mem, a: nat) {
    a in m.at && (!Direct(m.at[a]) ==> CanDetach(m, a) && (m.at[a].external || FromIndirect(m.at[a]) != a))
  }

  class Memory {
    var at: map<nat, Mbuf>
    var ext: map<nat, Shared>
    var free: set<nat>
    ghost var puts: seq<(nat, nat)>
    const pools: map<nat, Pool>

    constructor (m: Mem)
      ensures Value() == m
    {
      at, ext, free, puts, pools := m.at, m.ext, m.free, m.puts, m.pools;
    }

    ghost function Value(): Mem
      reads this
    {
      Mem(at, ext, pools, free, puts)
    }

    /** Avoids the atomic addition for a sole reference; both ways add in 16 bits. */
    method RefcntUpdate(a: nat, value: int) returns (r: nat)
      requires a in at && -32768 <= value <= 32767
      modifies this`at
      ensures r == Added(old(at[a].refcnt), value) && Value() == SetCount(old(Value()), a, r)
    {
      if at[a].refcnt == 1 {
        var v := if value == 32767 then -32768 else value + 1;
        r := Added(0, v);
      } else {
        r := Added(at[a].refcnt, value);
      }
      at := at[a := at[a].(refcnt := r)];
    }

    method ExtRefcntUpdate(s: nat, value: int) returns (r: nat)
      requires s in ext && -32768 <= value <= 32767
      modifies this`ext
      ensures r == Added(old(ext[s].refcnt), value) && ext == old(ext)[s := old(ext[s]).(refcnt := r)]
    {
      if ext[s].refcnt == 1 {
        var v := if value == 32767 then -32768 else value + 1;
        r := Added(0, v);
      } else {
        r := Added(ext[s].refcnt, value);
      }
      ext := ext[s := ext[s].(refcnt := r)];
    }

    method RawFree(a: nat)
      requires a in at
      modifies this`free, this`puts
      ensures Value() == PutBack(old(Value()), a)
    {
      free, puts := free + {a}, puts + [(at[a].pool, a)];
    }

    method FreeExtbuf(a: nat)
      requires a in at && at[a].shinfo in ext
      modifies this`ext
      ensures Value() == DropExternal(old(Value()), at[a].shinfo)
    {
      var s := at[a].shinfo;
      var count := ExtRefcntUpdate(s, -1);
      if count == 0 { ext := ext[s := ext[s].(calls := ext[s].calls + 1)]; }
    }

    method FreeDirect(a: nat)
      requires a in at && FromIndirect(at[a]) in at
      modifies this`at, this`free, this`puts
      ensures Value() == DropDirect(old(Value()), FromIndirect(old(at[a])))
    {
      var md := FromIndirect(at[a]);
      var count := RefcntUpdate(md, -1);
      if count == 0 {
        at := at[md := at[md].(next := 0)];
        at := at[md := at[md].(nbSegs := 1)];
        at := at[md := at[md].(refcnt := 1)];
        RawFree(md);
      }
    }

    /** For pools without pinned external buffers. */
    method Detach(a: nat)
      requires CanDetach(Value(), a)
      modifies this
      ensures Value() == MbufHeap.Detach(old(Value()), a)
    {
      var mp := at[a].pool;
      if at[a].external { FreeExtbuf(a); } else { FreeDirect(a); }
      var bufLen := pools[mp].room;
      var b := at[a].(privSize := pools[mp].privSize, bufAddr := a + (MBUF_SIZE + pools[mp].privSize), bufLen := bufLen);
      b := b.(dataOff := if HEADROOM <= b.bufLen then HEADROOM else b.bufLen);
      b := b.(dataLen := 0);
      b := b.(external := false, indirect := false, flags := 0);
      at := at[a := b];
    }

    /** Detaches the mbuf if it is attached, and unlinks it. */
    method Release(a: nat)
      requires CanPrefree(Value(), a)
      modifies this
      ensures Value() == Prefreed(old(Value()), a)
    {
      if at[a].external || at[a].indirect { Detach(a); }
      if at[a].next != 0 { at := at[a := at[a].(next := 0)]; }
      if at[a].nbSegs != 1 { at := at[a := at[a].(nbSegs := 1)]; }
    }

    /**
      Drops one reference; `others` is the number of references other threads drop between the plain read of the
      counter and the atomic subtraction.  Returns the mbuf, ready for its pool, exactly if this was the last
      reference, and 0 otherwise.
    */
    method PrefreeSeg(a: nat, others: nat) returns (r: nat)
      requires CanPrefree(Value(), a) && 1 <= at[a].refcnt <= COUNT_MAX
      requires others < at[a].refcnt
      modifies this
      ensures var m, left := old(Value()), old(at[a].refcnt) - others;
        && (r == if left == 1 then a else 0)
        && Value() == if left == 1 then Prefreed(SetCount(m, a, 1), a) else SetCount(m, a, left - 1)
    {
      ghost var m := Value();
      if at[a].refcnt == 1 {
        assert SetCount(m, a, 1) == m by { assert m.at[a := m.at[a].(refcnt := 1)] == m.at; }
        Release(a);
        return a;
      }
      at := at[a := at[a].(refcnt := at[a].refcnt - others)];
      var count := Added(at[a].refcnt, -1);
      at := at[a := at[a].(refcnt := count)];
      assert at == SetCount(m, a, count).at;
      if count == 0 {
        PrefreeAtZero(SetCount(m, a, 1), a);
        assert Value() == SetCount(SetCount(m, a, 1), a, 0);
        Release(a);
        at := at[a := at[a].(refcnt := 1)];
        return a;
      }
      return 0;
    }

    method FreeSeg(a: nat)
      requires a != 0 && CanPrefree(Value(), a) && 1 <= at[a].refcnt <= COUNT_MAX
      modifies this
      ensures Value() == MbufHeap.FreeSeg(old(Value()), a)
    {
      ghost var m := Value();
      NoWrap(at[a].refcnt);
      assert at[a].refcnt == 1 ==> SetCount(m, a, 1) == m by { assert m.at[a].refcnt == 1 ==> m.at[a := m.at[a].(refcnt := 1)] == m.at; }
      var r := PrefreeSeg(a, 0);
      if r != 0 { RawFree(r); }
    }

    /** Frees every segment of a packet; `w` is the program's view of memory, `segs` are the segments. */
    method Free(a: nat, ghost w: World, ghost segs: seq<nat>)
      requires Inv(w) && w.m == Value() && Chained(a, NextOf(at), segs) && AllHeld(w, segs)
      modifies this
      ensures Legal(w, FreeEvents(segs)) && Value() == Exec(w, FreeEvents(segs)).m
    {
      hide Inv, Enabled, NextOf, MbufHeap.FreeSeg;
      FreeAllLegal(w, segs);
      var m := a;
      ghost var i, v := 0, w;
      assert segs[0..] == segs;
      while m != 0
        invariant i <= |segs| && Inv(v) && v.m == Value()
        invariant Chained(m, NextOf(at), segs[i..]) && AllHeld(v, segs[i..])
        invariant Legal(v, FreeEvents(segs[i..])) && Exec(v, FreeEvents(segs[i..])) == Exec(w, FreeEvents(segs))
        decreases |segs| - i
      {
        ghost var rest := segs[i..];
        assert m == rest[0] && rest[1..] == segs[i + 1..];
        FreeFirst(v, rest);
        FreeReady(v, m);
        assert FreeEvents(rest)[1..] == FreeEvents(rest[1..]);
        var mNext := at[m].next;
        v := Step(v, Event.Free(m));
        FreeSeg(m);
        m := mNext;
        i := i + 1;
      }
    }

    method AttachExtbuf(a: nat, bufAddr: int, bufLen: nat, shinfo: nat)
      requires a in at && Direct(at[a]) && at[a].refcnt == 1
      modifies this`at
      ensures Value() == AttachExternal(old(Value()), a, shinfo, bufAddr, bufLen)
    {
      var b := at[a].(bufAddr := bufAddr);
      b := b.(bufLen := bufLen);
      b := b.(dataLen := 0, dataOff := 0);
      b := b.(external := true);
      b := b.(shinfo := shinfo);
      at := at[a := b];
    }

    method Attach(mi: nat, m: nat)
      requires mi in at && m in at && mi != m && Direct(at[mi]) && at[mi].refcnt == 1
      requires if at[m].external then at[m].shinfo in ext else FromIndirect(at[m]) in at
      requires !at[m].external ==> FromIndirect(at[m]) != mi
      modifies this`at, this`ext
      ensures Value() == MbufHeap.Attach(old(Value()), mi, m)
    {
      if at[m].external {
        var count := ExtRefcntUpdate(at[m].shinfo, 1);
        at := at[mi := at[mi].(external := at[m].external, indirect := at[m].indirect, flags := at[m].flags)];
        at := at[mi := at[mi].(shinfo := at[m].shinfo)];
      } else {
        var count := RefcntUpdate(FromIndirect(at[m]), 1);
        at := at[mi := at[mi].(privSize := at[m].privSize)];
        at := at[mi := at[mi].(external := at[m].external, indirect := true, flags := at[m].flags)];
      }
      var b, c := at[m], at[mi];
      c := c.(header := b.header);
      c := c.(dataOff := b.dataOff, dataLen := b.dataLen);
      c := c.(bufAddr := b.bufAddr, bufLen := b.bufLen);
      c := c.(next := 0);
      c := c.(pktLen := c.dataLen);
      c := c.(nbSegs := 1);
      at := at[mi := c];
    }

    method ResetMbuf(a: nat)
      requires a in at
      modifies this`at
      ensures at == old(at)[a := Reset(old(at)[a])]
    {
      var b := at[a].(next := 0, pktLen := 0, header := 0, nbSegs := 1);
      b := b.(indirect := false, flags := 0);
      b := b.(dataOff := if HEADROOM <= b.bufLen then HEADROOM else b.bufLen);
      at := at[a := b.(dataLen := 0)];
    }

    /** Adds `v` to the counter of every segment of a packet. */
    method PktRefcntUpdate(a: nat, v: int, ghost segs: seq<nat>)
      requires segs != [] && Chained(a, NextOf(at), segs) && -32768 <= v <= 32767
      modifies this`at
      ensures at.Keys == old(at).Keys
      ensures forall x :: x in at ==> at[x] == if x in segs then old(at)[x].(refcnt := Added(old(at)[x].refcnt, v)) else old(at)[x]
    {
      hide Added, Bumped;
      ChainDistinct(a, NextOf(at), segs);
      ghost var next := NextOf(at);
      var m := a;
      ghost var i := 0;
      assert segs[0..] == segs;
      BumpedNone(at, segs, v);
      while true
        invariant i < |segs| && Chained(m, next, segs[i..]) && Bumped(old(at), at, segs, i, v)
        decreases |segs| - i
      {
        assert m == segs[i] && segs[i..][1..] == segs[i + 1..];
        BumpOne(old(at), at, segs, i, v);
        var count := RefcntUpdate(m, v);
        m := at[m].next;
        i := i + 1;
        if m == 0 { break; }
      }
      assert segs[i..] == [];
      BumpedAll(old(at), at, segs, v);
    }

    /**
      Allocates `count` mbufs, or none: the unrolled loop is entered in its middle, so that it ends exactly at
      `count` and resets every mbuf once.  `offered` are the mbufs the pool has.
    */
    method AllocBulk(offered: seq<nat>, count: nat) returns (rc: int, mbufs: seq<nat>)
      requires Distinct(offered) && forall k :: 0 <= k < |offered| ==> offered[k] in at && offered[k] in free
      modifies this`at, this`free
      ensures |offered| < count ==> rc == -2 && Value() == old(Value())
      ensures |offered| >= count ==>
        && rc == 0 && mbufs == offered[..count] && free == old(free) - (set a | a in mbufs)
        && at.Keys == old(at).Keys
        && forall a :: a in at ==> at[a] == if a in mbufs then Reset(old(at)[a]) else old(at)[a]
    {
      if |offered| < count { return -2, []; }
      hide ResetUpTo, Reset, Distinct;
      rc, mbufs := 0, offered[..count];
      TakeFirst(offered, count, at);
      free := free - (set a | a in mbufs);
      ResetEach(mbufs, at);
      AllReset(mbufs, old(at), at);
    }

    /** The unrolled loop, entered after as many resets as the count leaves modulo 4. */
    method ResetEach(mbufs: seq<nat>, ghost was: map<nat, Mbuf>)
      requires ResetUpTo(mbufs, 0, was, at)
      modifies this`at
      ensures ResetUpTo(mbufs, |mbufs|, was, at)
    {
      hide ResetUpTo;
      var count := |mbufs|;
      var idx := 0;
      var first := count % 4;
      ghost var rounds := count / 4;
      if first >= 3 { idx := ResetNext(mbufs, idx, was); }
      if first >= 2 { idx := ResetNext(mbufs, idx, was); }
      if first >= 1 { idx := ResetNext(mbufs, idx, was); }
      while idx != count
        invariant 0 <= rounds && idx + 4 * rounds == count && ResetUpTo(mbufs, idx, was, at)
      {
        rounds := rounds - 1;
        idx := ResetNext(mbufs, idx, was);
        idx := ResetNext(mbufs, idx, was);
        idx := ResetNext(mbufs, idx, was);
        idx := ResetNext(mbufs, idx, was);
      }
    }

    method ResetNext(mbufs: seq<nat>, idx: nat, ghost was: map<nat, Mbuf>) returns (next: nat)
      requires idx < |mbufs| && ResetUpTo(mbufs, idx, was, at)
      modifies this`at
      ensures next == idx + 1 && ResetUpTo(mbufs, next, was, at)
    {
      ResetMbuf(mbufs[idx]);
      assert mbufs[..idx + 1] == mbufs[..idx] + [mbufs[idx]];
      assert mbufs[idx] !in mbufs[..idx];
      next := idx + 1;
    }
  }

  /** The counters of the first `i` segments were increased, and nothing else changed. */
  ghost predicate Bumped(was: map<nat, Mbuf>, at: map<nat, Mbuf>, segs: seq<nat>, i: nat, v: int)
    requires i <= |segs|
  {
    && at.Keys == was.Keys && Distinct(segs) && (forall k :: 0 <= k < |segs| ==> segs[k] in was)
    && forall x :: x in at ==> at[x] == if x in segs[..i] then was[x].(refcnt := Added(was[x].refcnt, v)) else was[x]
  }

  lemma BumpedNone(at: map<nat, Mbuf>, segs: seq<nat>, v: int)
    requires Distinct(segs) && segs != [] && Chained(segs[0], NextOf(at), segs)
    ensures Bumped(at, at, segs, 0, v)
  {
    forall k | 0 <= k < |segs| ensures segs[k] in at { ChainSuffix(segs[0], NextOf(at), segs, k); }
  }

  lemma BumpOne(was: map<nat, Mbuf>, at: map<nat, Mbuf>, segs: seq<nat>, i: nat, v: int)
    requires i < |segs| && Bumped(was, at, segs, i, v)
    ensures segs[i] in at && segs[i] in was && at[segs[i]].next == was[segs[i]].next
    ensures Bumped(was, at[segs[i] := at[segs[i]].(refcnt := Added(at[segs[i]].refcnt, v))], segs, i + 1, v)
  {
    hide Added;
    assert segs[..i + 1] == segs[..i] + [segs[i]];
    assert segs[i] !in segs[..i];
  }

  lemma BumpedAll(was: map<nat, Mbuf>, at: map<nat, Mbuf>, segs: seq<nat>, v: int)
    requires Bumped(was, at, segs, |segs|, v)
    ensures at.Keys == was.Keys
    ensures forall x :: x in at ==> at[x] == if x in segs then was[x].(refcnt := Added(was[x].refcnt, v)) else was[x]
  {
    assert segs[..|segs|] == segs;
  }

  ghost predicate ResetUpTo(mbufs: seq<nat>, idx: nat, was: map<nat, Mbuf>, at: map<nat, Mbuf>)
    requires idx <= |mbufs|
  {
    && at.Keys == was.Keys && Distinct(mbufs) && (forall k :: 0 <= k < |mbufs| ==> mbufs[k] in was)
    && forall a :: a in at ==> at[a] == if a in mbufs[..idx] then Reset(was[a]) else was[a]
  }

  lemma TakeFirst(offered: seq<nat>, count: nat, at: map<nat, Mbuf>)
    requires Distinct(offered) && count <= |offered| && forall k :: 0 <= k < |offered| ==> offered[k] in at
    ensures ResetUpTo(offered[..count], 0, at, at)
  {}

  lemma AllReset(mbufs: seq<nat>, was: map<nat, Mbuf>, at: map<nat, Mbuf>)
    requires ResetUpTo(mbufs, |mbufs|, was, at)
    ensures at.Keys == was.Keys && forall a :: a in at ==> at[a] == if a in mbufs then Reset(was[a]) else was[a]
  {
    assert mbufs[..|mbufs|] == mbufs;
  }

  lemma FreeReady(w: World, a: nat)
    requires Inv(w) && Held(w, a)
    ensures CanPrefree(w.m, a) && 1 <= w.m.at[a].refcnt <= COUNT_MAX
  {
    FreeEnabled(w, a);
    TargetCount(w, a);
  }
}
