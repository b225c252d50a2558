/** What cloning shares, what detaching undoes, and what a fresh mbuf holds. */
module MbufSharing {
  import opened LinkedLists
  import opened MbufHeap
  import opened MbufOps
  import opened MbufChain

  /** The addresses of the first and behind the last byte of the data. */
  function Start(b: Mbuf): int { b.bufAddr + b.dataOff }
  function End(b: Mbuf): int { b.bufAddr + b.dataOff + b.dataLen }

  /**
    After attaching, the clone is a one-segment packet on exactly the same bytes of the same buffer, with the same
    header and flags and its own pool and counter; the mbuf it is attached to keeps everything but its counter, and no
    other mbuf changes.
  */
  lemma {:induction false} CloneSeesSameBytes(w: World, i: nat, a: nat)
    requires Inv(w) && Enabled(w, AttachTo(i, a)) && SegmentOk(w.m.at, a)
    ensures var at, at' := w.m.at, Step(w, AttachTo(i, a)).m.at; var b, c := at[a], at'[i];
      && Start(c) == Start(b) && End(c) == End(b) && c.header == b.header && c.flags == b.flags
      && c.bufAddr == b.bufAddr && c.bufLen == b.bufLen && c.dataOff == b.dataOff
      && c.pool == at[i].pool && c.refcnt == at[i].refcnt && !Direct(c) && c.external == b.external
      && PacketOk(at', i, [i])
      && at'[a] == b.(refcnt := at'[a].refcnt)
      && (forall x :: x in at && x != i ==> at'[x] == at[x].(refcnt := at'[x].refcnt))
  {
    hide Inv, Added, Clones, Users, Step, Chained, NextOf, PacketOk;
    if w.m.at[a].external { AttachIsSharedChange(w, i, a); } else { AttachIsIndirectChange(w, i, a); }
    NotNull(w, i);
    var at' := Step(w, AttachTo(i, a)).m.at;
    assert at'[i] == Clone(w.m.at[i], w.m.at[a]);
    OneSegment(at', i);
  }

  /** An unlinked mbuf whose total length is its data length is a packet. */
  lemma {:induction false} OneSegment(at: map<nat, Mbuf>, a: nat)
    requires a != 0 && SegmentOk(at, a) && at[a].next == 0 && at[a].nbSegs == 1 && at[a].pktLen == at[a].dataLen
    ensures PacketOk(at, a, [a])
  {
    assert [a][1..] == [] && [a][..0] == [];
    assert Chained(at[a].next, NextOf(at), []);
  }

  lemma InItsPool(w: World, a: nat)
    requires Inv(w) && Enabled(w, AllocMbuf(a))
    ensures w.m.at[a].refcnt == 1 && Direct(w.m.at[a])
  {
    assert MbufOk(w, a);
  }

  lemma NotNull(w: World, a: nat)
    requires Inv(w) && a in w.m.at
    ensures a != 0
  {}

  /**
    Detaching undoes attaching: every counter is as before, nothing was put into a pool, no callback was made, and
    the mbuf has its own buffer back, empty, with the default headroom.
  */
  lemma {:induction false} AttachDetach(w: World, i: nat, a: nat)
    requires Inv(w) && Enabled(w, AttachTo(i, a))
    ensures var w1 := Step(w, AttachTo(i, a));
      && Enabled(w1, DetachFrom(i))
      && var w2 := Step(w1, DetachFrom(i)); var b, c := w.m.at[i], w2.m.at[i];
         && w2 == w.(m := w.m.(at := w.m.at[i := c]))
         && Direct(c) && c.bufAddr == b.bufAddr && c.bufLen == b.bufLen && c.privSize == b.privSize
         && c.refcnt == b.refcnt && c.pool == b.pool
         && c.dataLen == 0 && c.dataOff == (if HEADROOM <= c.bufLen then HEADROOM else c.bufLen)
         && c.next == 0 && c.nbSegs == 1 && c.header == w.m.at[a].header && c.flags == 0
  {
    if w.m.at[a].external { AttachDetachShared(w, i, a); } else { AttachDetachIndirect(w, i, a); }
  }

  lemma OwnLayout(w: World, i: nat)
    requires Inv(w) && Held(w, i) && Direct(w.m.at[i])
    ensures var b := w.m.at[i];
      b.pool in w.m.pools && b.privSize == w.m.pools[b.pool].privSize && b.bufLen == w.m.pools[b.pool].room
      && b.bufAddr == i + MBUF_SIZE + b.privSize
  {
    assert MbufOk(w, i);
  }

  lemma {:induction false} AttachDetachShared(w: World, i: nat, a: nat)
    requires Inv(w) && Enabled(w, AttachTo(i, a)) && w.m.at[a].external
    ensures var w1 := Step(w, AttachTo(i, a)); Enabled(w1, DetachFrom(i))
    ensures var w2 := Step(Step(w, AttachTo(i, a)), DetachFrom(i)); var b := w.m.at[a];
      w2 == w.(m := w.m.(at := w.m.at[i := Restored(Clone(w.m.at[i], b), i, w.m.pools[w.m.at[i].pool])]))
    ensures OwnAgain(w, i, a)
  {
    hide Inv, Added, Clones, Users;
    OwnLayout(w, i);
    SharedSource(w, a);
    var s := w.m.at[a].shinfo;
    SharedCount(w, s, a);
    NoWrap(w.m.ext[s].refcnt);
    NoWrap(w.m.ext[s].refcnt + 1);
    var w2 := Step(Step(w, AttachTo(i, a)), DetachFrom(i));
    assert w2.m.ext == w.m.ext;
    assert w2.m.at == w.m.at[i := Restored(Clone(w.m.at[i], w.m.at[a]), i, w.m.pools[w.m.at[i].pool])];
  }

  lemma {:induction false} AttachDetachIndirect(w: World, i: nat, a: nat)
    requires Inv(w) && Enabled(w, AttachTo(i, a)) && !w.m.at[a].external
    ensures var w1 := Step(w, AttachTo(i, a)); Enabled(w1, DetachFrom(i))
    ensures var w2 := Step(Step(w, AttachTo(i, a)), DetachFrom(i)); var b := w.m.at[a];
      w2 == w.(m := w.m.(at := w.m.at[i := Restored(Clone(w.m.at[i], b), i, w.m.pools[w.m.at[i].pool])]))
    ensures OwnAgain(w, i, a)
  {
    hide Inv, Added, Clones, Users;
    OwnLayout(w, i);
    TargetOk(w, a);
    SoleHandle(w, i);
    var d := FromIndirect(w.m.at[a]);
    TargetCount(w, d);
    NoWrap(w.m.at[d].refcnt);
    NoWrap(w.m.at[d].refcnt + 1);
    var w2 := Step(Step(w, AttachTo(i, a)), DetachFrom(i));
    assert w2.m.at == w.m.at[i := Restored(Clone(w.m.at[i], w.m.at[a]), i, w.m.pools[w.m.at[i].pool])];
  }

  /** What the mbuf is after attaching and detaching. */
  ghost predicate OwnAgain(w: World, i: nat, a: nat)
    requires i in w.m.at && a in w.m.at && w.m.at[i].pool in w.m.pools
  {
    var b := w.m.at[i];
    var c := Restored(Clone(b, w.m.at[a]), i, w.m.pools[b.pool]);
    c.bufAddr == b.bufAddr && c.bufLen == b.bufLen && c.privSize == b.privSize
  }

  /**
    Attaching an external buffer: the mbuf is then an empty segment whose buffer is exactly the `len` bytes from `buf`
    on; nothing else changes, except that the program's reference has become the mbuf's.
  */
  lemma {:induction false} ExternalBufferOnly(w: World, a: nat, s: nat, buf: int, len: nat, bytes: map<nat, seq<int>>)
    requires Inv(w) && Enabled(w, AttachExt(a, s, buf, len)) && len <= MAX_LEN && a in bytes && |bytes[a]| == len
    ensures var w' := Step(w, AttachExt(a, s, buf, len)); var b, c := w.m.at[a], w'.m.at[a];
      && c.bufAddr == buf && c.bufLen == len && c.dataOff == 0 && c.dataLen == 0 && Start(c) == End(c) == buf
      && c.external && !c.indirect && c.shinfo == s && Tailroom(c) == len
      && Backed(w'.m.at, bytes, [a]) && Content(w'.m.at, bytes, [a]) == []
      && c == b.(bufAddr := buf, bufLen := len, dataOff := 0, dataLen := 0, external := true, shinfo := s)
      && w' == w.(m := w.m.(at := w.m.at[a := c]), shares := w.shares[s := w.shares[s] - 1])
  {
    hide Inv;
    OwnLayout(w, a);
    var w' := Step(w, AttachExt(a, s, buf, len));
    Small16(len);
    assert [a][..0] == [];
    assert Content(w'.m.at, bytes, []) == [];
  }

  /**
    Detaching then gives the mbuf its own buffer back, empty, with the default headroom and no flags, and leaves its
    other fields and all other mbufs alone; the external buffer has one user less, and is handed back exactly if that
    was the last one.
  */
  lemma {:induction false} AttachExtDetach(w: World, a: nat, s: nat, buf: int, len: nat)
    requires Inv(w) && Enabled(w, AttachExt(a, s, buf, len))
    ensures var w1 := Step(w, AttachExt(a, s, buf, len));
      && Enabled(w1, DetachFrom(a))
      && var w2 := Step(w1, DetachFrom(a)); var b, c := w.m.at[a], w2.m.at[a]; var count := w.m.ext[s].refcnt;
         && c == b.(dataOff := c.dataOff, dataLen := 0, flags := 0, shinfo := s)
         && c.dataOff == (if HEADROOM <= b.bufLen then HEADROOM else b.bufLen)
         && count >= 1 && w2 == w.(m := w.m.(at := w.m.at[a := c],
              ext := w.m.ext[s := Shared(count - 1, if count == 1 then 1 else 0)]), shares := w.shares[s := w.shares[s] - 1])
  {
    hide Inv, Added, Clones, Users;
    OwnLayout(w, a);
    HeldShare(w, s);
    NoWrap(w.m.ext[s].refcnt);
    var w2 := Step(Step(w, AttachExt(a, s, buf, len)), DetachFrom(a));
    assert w2.m.at == w.m.at[a := w2.m.at[a]];
  }

  lemma HeldShare(w: World, s: nat)
    requires Inv(w) && s in w.m.ext && s in w.shares && w.shares[s] >= 1
    ensures 1 <= w.m.ext[s].refcnt <= COUNT_MAX && w.m.ext[s].calls == 0
  {
    assert SharedOk(w, s);
  }

  /**
    Detaching an indirect mbuf writes nothing but its own buffer description, offset, length and flags, and gives up
    one reference to the mbuf that embeds the data; if that was the last one, that mbuf is unlinked and goes to its
    pool, its other fields as they were.
  */
  lemma {:induction false} DetachIndirect(w: World, a: nat)
    requires Inv(w) && Enabled(w, DetachFrom(a)) && !w.m.at[a].external
    ensures FromIndirect(w.m.at[a]) in w.m.at && w.m.at[a].pool in w.m.pools
    ensures var w', d := Step(w, DetachFrom(a)), FromIndirect(w.m.at[a]);
      && a in w'.m.at && OwnBufferOnly(w.m.at[a], w'.m.at[a], a, w.m.pools[w.m.at[a].pool])
      && w.m.at[d].refcnt >= 1
      && w'.m.at == w.m.at[d := if w.m.at[d].refcnt == 1 then w.m.at[d].(next := 0, nbSegs := 1)
                                else w.m.at[d].(refcnt := w.m.at[d].refcnt - 1)][a := w'.m.at[a]]
      && w'.m.free == w.m.free + (if w.m.at[d].refcnt == 1 then {d} else {})
      && w'.m.puts == w.m.puts + (if w.m.at[d].refcnt == 1 then [(w.m.at[d].pool, d)] else [])
      && w'.m.ext == w.m.ext && w'.handles == w.handles && w'.shares == w.shares
  {
    hide Inv, Step, Restored, OwnBufferOnly, IndirectDrop;
    DetachIsIndirectDrop(w, a);
    RestoredIsOwn(w.m.at[a], a, w.m.pools[w.m.at[a].pool]);
    DropWrites(w, Step(w, DetachFrom(a)), a, Restored(w.m.at[a], a, w.m.pools[w.m.at[a].pool]), FromIndirect(w.m.at[a]));
  }

  lemma DropWrites(w: World, w': World, a: nat, c: Mbuf, d: nat)
    requires IndirectDrop(w, w', a, c, d)
    ensures a in w'.m.at && w'.m.at[a] == c && d in w.m.at && w.m.at[d].refcnt >= 1
    ensures w'.m.at == w.m.at[d := if w.m.at[d].refcnt == 1 then w.m.at[d].(next := 0, nbSegs := 1)
                                   else w.m.at[d].(refcnt := w.m.at[d].refcnt - 1)][a := c]
    ensures w'.m.free == w.m.free + (if w.m.at[d].refcnt == 1 then {d} else {})
    ensures w'.m.puts == w.m.puts + (if w.m.at[d].refcnt == 1 then [(w.m.at[d].pool, d)] else [])
    ensures w'.m.ext == w.m.ext && w'.handles == w.handles && w'.shares == w.shares
  {
    hide Clones, Users, OwnBuffer;
  }

  /** `c` is `b` with its own buffer, empty, with the default headroom and no flags. */
  ghost predicate OwnBufferOnly(b: Mbuf, c: Mbuf, a: nat, p: Pool) {
    && c.privSize == p.privSize && c.bufAddr == a + MBUF_SIZE + p.privSize && c.bufLen == p.room && Direct(c)
    && c.flags == 0 && c.dataLen == 0 && c.dataOff == (if HEADROOM <= p.room then HEADROOM else p.room)
    && c == b.(privSize := c.privSize, bufAddr := c.bufAddr, bufLen := c.bufLen, external := false, indirect := false,
               flags := c.flags, dataLen := c.dataLen, dataOff := c.dataOff)
  }

  lemma RestoredIsOwn(b: Mbuf, a: nat, p: Pool)
    ensures OwnBufferOnly(b, Restored(b, a, p), a, p)
  {}

  /** Freeing a direct segment unlinks it and puts it into its pool, or gives up one reference; nothing else changes. */
  lemma {:induction false} FreeDirectSegment(w: World, a: nat)
    requires Inv(w) && Enabled(w, Event.Free(a)) && Direct(w.m.at[a])
    ensures var w', b := Step(w, Event.Free(a)), w.m.at[a];
      && b.refcnt >= 1
      && (if b.refcnt == 1
          then w'.m == w.m.(at := w.m.at[a := b.(next := 0, nbSegs := 1)], free := w.m.free + {a}, puts := w.m.puts + [(b.pool, a)])
          else w'.m == w.m.(at := w.m.at[a := b.(refcnt := b.refcnt - 1)]))
  {
    hide Inv, Added;
    TargetCount(w, a);
    NoWrap(w.m.at[a].refcnt);
  }

  /**
    A freshly allocated mbuf is a packet of one empty segment with the default headroom, as far as the buffer allows,
    without flags or header; it keeps its buffer, pool and counter, and no other mbuf changes.
  */
  lemma {:induction false} FreshPacket(w: World, a: nat, bytes: map<nat, seq<int>>)
    requires Inv(w) && Enabled(w, AllocMbuf(a)) && w.m.at[a].bufLen <= MAX_LEN
    requires a in bytes && |bytes[a]| == w.m.at[a].bufLen
    ensures var at' := Step(w, AllocMbuf(a)).m.at;
      && PacketOk(at', a, [a]) && Backed(at', bytes, [a]) && Content(at', bytes, [a]) == []
      && at'[a].dataOff == (if HEADROOM <= at'[a].bufLen then HEADROOM else at'[a].bufLen)
      && Tailroom(at'[a]) == at'[a].bufLen - at'[a].dataOff
      && at'[a].flags == 0 && at'[a].header == 0 && Direct(at'[a])
      && at'[a].bufAddr == w.m.at[a].bufAddr && at'[a].bufLen == w.m.at[a].bufLen && at'[a].privSize == w.m.at[a].privSize
      && at'[a].pool == w.m.at[a].pool && at'[a].refcnt == 1
      && at'.Keys == w.m.at.Keys && (forall x :: x in at' && x != a ==> at'[x] == w.m.at[x])
  {
    InItsPool(w, a);
    hide Inv;
    NotNull(w, a);
    var at' := Step(w, AllocMbuf(a)).m.at;
    OneSegment(at', a);
    Small16(at'[a].bufLen - at'[a].dataOff);
    assert [a][..0] == [];
    assert Content(at', bytes, []) == [];
  }
}
