/**
  Reference-counted packet buffers.  Memory is a map from addresses to mbufs, because the owner of an indirect
  mbuf's buffer is found by address arithmetic.  Every function here says what one library call does to memory;
  the invariant says what the counters mean.
*/
module MbufHeap {
  const MBUF_SIZE: nat := 128
  const HEADROOM: nat := 128
  const COUNT_MAX: nat := 65535

  datatype Mbuf = Mbuf(
    pool: nat, refcnt: nat, next: nat, nbSegs: nat,
    privSize: nat, bufAddr: int, bufLen: nat, dataOff: nat, dataLen: nat, pktLen: nat,
    external: bool, indirect: bool, flags: nat, shinfo: nat, header: nat)

  datatype Shared = Shared(refcnt: nat, calls: nat)
  datatype Pool = Pool(privSize: nat, room: nat)

  /** `free` are the mbufs in their pools; `puts` the history of returns with the pool each went to. */
  datatype Mem = Mem(at: map<nat, Mbuf>, ext: map<nat, Shared>, pools: map<nat, Pool>, free: set<nat>, puts: seq<(nat, nat)>)

  /** `handles` counts the program's references to each mbuf, `shares` its references to each external buffer. */
  datatype World = World(m: Mem, handles: map<nat, nat>, shares: map<nat, nat>)

  predicate Direct(b: Mbuf) { !b.external && !b.indirect }

  /** The mbuf in which the buffer of `b` is embedded. */
  function FromIndirect(b: Mbuf): int { b.bufAddr - (MBUF_SIZE + b.privSize) }

  /** 16-bit addition. */
  function Added(count: nat, value: int): (r: nat)
    ensures r <= COUNT_MAX
  {
    (count + value) % (COUNT_MAX + 1)
  }

  // ----- the calls -------------------------------------------------------------------------------------

  function PutBack(m: Mem, a: nat): Mem
    requires a in m.at
  {
    m.(free := m.free + {a}, puts := m.puts + [(m.at[a].pool, a)])
  }

  function SetCount(m: Mem, a: nat, count: nat): Mem
    requires a in m.at
  {
    m.(at := m.at[a := m.at[a].(refcnt := count)])
  }

  /** `rte_mbuf_ext_refcnt_update`, once the new count is known. */
  function SetExtCount(m: Mem, s: nat, count: nat): Mem
    requires s in m.ext
  {
    m.(ext := m.ext[s := m.ext[s].(refcnt := count)])
  }

  function Unlinked(b: Mbuf): Mbuf { b.(next := 0, nbSegs := 1) }

  function Reset(b: Mbuf): Mbuf {
    b.(next := 0, pktLen := 0, nbSegs := 1, indirect := false, flags := 0, header := 0,
       dataOff := if HEADROOM <= b.bufLen then HEADROOM else b.bufLen, dataLen := 0)
  }

  /** `rte_pktmbuf_alloc` of the mbuf at `a`. */
  function Alloc(m: Mem, a: nat): Mem
    requires a in m.at
  {
    m.(at := m.at[a := Reset(m.at[a])], free := m.free - {a})
  }

  /** `__rte_pktmbuf_free_extbuf`. */
  function DropExternal(m: Mem, s: nat): Mem
    requires s in m.ext
  {
    var count := Added(m.ext[s].refcnt, -1);
    m.(ext := m.ext[s := Shared(count, m.ext[s].calls + (if count == 0 then 1 else 0))])
  }

  /** `__rte_pktmbuf_free_direct`, `d` being the direct mbuf. */
  function DropDirect(m: Mem, d: nat): Mem
    requires d in m.at
  {
    var count := Added(m.at[d].refcnt, -1);
    if count == 0 then PutBack(m.(at := m.at[d := Unlinked(m.at[d]).(refcnt := 1)]), d)
    else SetCount(m, d, count)
  }

  function Restored(b: Mbuf, a: nat, p: Pool): Mbuf {
    b.(privSize := p.privSize, bufAddr := a + MBUF_SIZE + p.privSize, bufLen := p.room,
       dataOff := if HEADROOM <= p.room then HEADROOM else p.room, dataLen := 0,
       external := false, indirect := false, flags := 0)
  }

  /** `rte_pktmbuf_detach`. */
  function Detach(m: Mem, a: nat): Mem
    requires CanDetach(m, a)
  {
    var b := m.at[a];
    var m' := if b.external then DropExternal(m, b.shinfo) else DropDirect(m, FromIndirect(b));
    m'.(at := m'.at[a := Restored(m'.at[a], a, m.pools[b.pool])])
  }

  predicate CanDetach(m: Mem, a: nat) {
    a in m.at && m.at[a].pool in m.pools
    && (if m.at[a].external then m.at[a].shinfo in m.ext else FromIndirect(m.at[a]) in m.at)
  }

  /** `rte_pktmbuf_free_seg`: the last reference detaches, unlinks and returns the mbuf; others only count down. */
  function FreeSeg(m: Mem, a: nat): Mem
    requires a in m.at && (m.at[a].refcnt == 1 && !Direct(m.at[a]) ==> CanDetach(m, a))
  {
    if m.at[a].refcnt != 1 then SetCount(m, a, Added(m.at[a].refcnt, -1)) else
    var m' := if Direct(m.at[a]) then m else Detach(m, a);
    PutBack(m'.(at := m'.at[a := Unlinked(m'.at[a])]), a)
  }

  /** `rte_pktmbuf_attach_extbuf`. */
  function AttachExternal(m: Mem, a: nat, s: nat, buf: int, len: nat): Mem
    requires a in m.at
  {
    m.(at := m.at[a := m.at[a].(bufAddr := buf, bufLen := len, dataLen := 0, dataOff := 0, external := true, shinfo := s)])
  }

  /** What `rte_pktmbuf_attach` writes to the mbuf being attached. */
  function Clone(mi: Mbuf, b: Mbuf): Mbuf {
    var c := if b.external then mi.(external := b.external, indirect := b.indirect, flags := b.flags, shinfo := b.shinfo)
      else mi.(privSize := b.privSize, external := b.external, indirect := true, flags := b.flags);
    c.(header := b.header, dataOff := b.dataOff, dataLen := b.dataLen, bufAddr := b.bufAddr, bufLen := b.bufLen,
       next := 0, pktLen := b.dataLen, nbSegs := 1)
  }

  /** `rte_pktmbuf_attach` of `i` to `a`. */
  function Attach(m: Mem, i: nat, a: nat): Mem
    requires i in m.at && a in m.at
    requires if m.at[a].external then m.at[a].shinfo in m.ext else FromIndirect(m.at[a]) in m.at
  {
    var b := m.at[a];
    var m' := if b.external then m.(ext := m.ext[b.shinfo := m.ext[b.shinfo].(refcnt := Added(m.ext[b.shinfo].refcnt, 1))])
      else SetCount(m, FromIndirect(b), Added(m.at[FromIndirect(b)].refcnt, 1));
    m'.(at := m'.at[i := Clone(m'.at[i], b)])
  }

  // ----- what the counters mean ------------------------------------------------------------------------

  /** The indirect mbufs attached to `d`. */
  ghost function Clones(m: Mem, d: nat): set<nat> {
    set c | c in m.at && c !in m.free && m.at[c].indirect && FromIndirect(m.at[c]) == d
  }

  /** The mbufs using the external buffer `s`. */
  ghost function Users(m: Mem, s: nat): set<nat> {
    set c | c in m.at && c !in m.free && m.at[c].external && m.at[c].shinfo == s
  }

  ghost predicate LayoutOk(m: Mem, a: nat)
    requires a in m.at
  {
    var b := m.at[a];
    && b.pool in m.pools && !(b.external && b.indirect)
    && (Direct(b) ==> b.privSize == m.pools[b.pool].privSize && b.bufLen == m.pools[b.pool].room && FromIndirect(b) == a)
  }

  /** As the pool keeps it: unshared, unlinked, one segment, attached to nothing. */
  ghost predicate Clean(m: Mem, a: nat)
    requires a in m.at
  {
    var b := m.at[a];
    b.refcnt == 1 && b.next == 0 && b.nbSegs == 1 && Direct(b)
  }

  ghost predicate InPool(w: World, a: nat)
    requires a in w.m.at && a in w.handles
  {
    Clean(w.m, a) && w.handles[a] == 0 && Clones(w.m, a) == {}
  }

  /** Outside the pool the counter is the number of the program's handles plus the number of clones. */
  ghost predicate InUse(w: World, a: nat)
    requires a in w.m.at && a in w.handles
  {
    var b := w.m.at[a];
    && 1 <= b.refcnt <= COUNT_MAX && b.refcnt == w.handles[a] + |Clones(w.m, a)|
    && (b.indirect ==> FromIndirect(b) in w.m.at && FromIndirect(b) !in w.m.free && Direct(w.m.at[FromIndirect(b)]))
    && (b.external ==> b.shinfo in w.m.ext)
  }

  ghost predicate MbufOk(w: World, a: nat)
    requires a in w.m.at && a in w.handles
  {
    LayoutOk(w.m, a) && if a in w.m.free then InPool(w, a) else InUse(w, a)
  }

  /** The counter of an external buffer is the number of its users and of the program's references; at zero, one call was made. */
  ghost predicate SharedOk(w: World, s: nat)
    requires s in w.m.ext && s in w.shares
  {
    && w.m.ext[s].refcnt == w.shares[s] + |Users(w.m, s)| <= COUNT_MAX
    && w.m.ext[s].calls == if w.m.ext[s].refcnt == 0 then 1 else 0
  }

  ghost predicate Inv(w: World) {
    && w.handles.Keys == w.m.at.Keys && w.shares.Keys == w.m.ext.Keys && w.m.free <= w.m.at.Keys && 0 !in w.m.at
    && (forall a :: a in w.m.at ==> MbufOk(w, a))
    && (forall s :: s in w.m.ext ==> SharedOk(w, s))
  }

  // ----- steps of the program --------------------------------------------------------------------------

  datatype Event =
    | AllocMbuf(a: nat)
    | NewExternal(s: nat)
    | AttachExt(a: nat, s: nat, buf: int, len: nat)
    | AttachTo(i: nat, a: nat)
    | DetachFrom(a: nat)
    | Adjust(a: nat, value: int)
    | AdjustExt(s: nat, value: int)
    | Free(a: nat)
    | Link(a: nat, next: nat, nbSegs: nat)

  /** The program holds a reference to `a`. */
  predicate Held(w: World, a: nat) {
    a in w.m.at && a !in w.m.free && a in w.handles && w.handles[a] >= 1
  }

  /** What the library asks of its callers, and that no 16-bit counter is at its limit when a reference is added. */
  ghost predicate Enabled(w: World, e: Event) {
    match e
    case AllocMbuf(a) => a in w.m.free && a in w.m.at && a in w.handles
    case NewExternal(s) => s !in w.m.ext
    case AttachExt(a, s, _, _) =>
      && Held(w, a) && Direct(w.m.at[a]) && w.m.at[a].refcnt == 1
      && s in w.m.ext && s in w.shares && w.shares[s] >= 1
    case AttachTo(i, a) =>
      && Held(w, i) && Held(w, a) && i != a && Direct(w.m.at[i]) && w.m.at[i].refcnt == 1
      && (if w.m.at[a].external then w.m.at[a].shinfo in w.m.ext && w.m.ext[w.m.at[a].shinfo].refcnt < COUNT_MAX
          else FromIndirect(w.m.at[a]) in w.m.at && w.m.at[FromIndirect(w.m.at[a])].refcnt < COUNT_MAX)
    case DetachFrom(a) => Held(w, a) && !Direct(w.m.at[a]) && CanDetach(w.m, a)
    case Adjust(a, value) =>
      Held(w, a) && w.handles[a] + value >= 0 && 1 <= w.m.at[a].refcnt + value <= COUNT_MAX
    case AdjustExt(s, value) =>
      && s in w.m.ext && s in w.shares && w.shares[s] >= 1 && w.shares[s] + value >= 0
      && 1 <= w.m.ext[s].refcnt + value <= COUNT_MAX
    case Free(a) => Held(w, a) && (w.m.at[a].refcnt == 1 && !Direct(w.m.at[a]) ==> CanDetach(w.m, a))
    case Link(a, _, _) => Held(w, a)
  }

  ghost function Step(w: World, e: Event): World
    requires Enabled(w, e)
  {
    match e
    case AllocMbuf(a) => w.(m := Alloc(w.m, a), handles := w.handles[a := 1])
    case NewExternal(s) => w.(m := w.m.(ext := w.m.ext[s := Shared(1, 0)]), shares := w.shares[s := 1])
    case AttachExt(a, s, buf, len) =>
      w.(m := AttachExternal(w.m, a, s, buf, len), shares := w.shares[s := w.shares[s] - 1])
    case AttachTo(i, a) => w.(m := Attach(w.m, i, a))
    case DetachFrom(a) => w.(m := Detach(w.m, a))
    case Adjust(a, value) =>
      w.(m := SetCount(w.m, a, Added(w.m.at[a].refcnt, value)), handles := w.handles[a := w.handles[a] + value])
    case AdjustExt(s, value) =>
      w.(m := SetExtCount(w.m, s, Added(w.m.ext[s].refcnt, value)), shares := w.shares[s := w.shares[s] + value])
    case Free(a) => w.(m := FreeSeg(w.m, a), handles := w.handles[a := w.handles[a] - 1])
    case Link(a, next, nbSegs) => w.(m := w.m.(at := w.m.at[a := w.m.at[a].(next := next, nbSegs := nbSegs)]))
  }

  /** The sum is right modulo 2^16, whatever the operands. */
  lemma AddedWraps(count: nat, value: int)
    ensures (Added(count, value) - (count + value)) % 0x1_0000 == 0 && Added(count, value) < 0x1_0000
  {
    var sum, n := count + value, COUNT_MAX + 1;
    assert Added(count, value) - sum == -(sum / n) * n;
  }

  /** 16-bit counters do not wrap within their range. */
  lemma NoWrap(count: nat)
    ensures count < COUNT_MAX ==> Added(count, 1) == count + 1
    ensures 1 <= count <= COUNT_MAX ==> Added(count, -1) == count - 1
  {}

  lemma NoWrapBy(count: nat, value: int)
    ensures 0 <= count + value <= COUNT_MAX ==> Added(count, value) == count + value
  {}

  /** Nothing that decides who is attached to whom changed, except that the program's handles may have. */
  ghost predicate SameAttachments(m: Mem, m': Mem) {
    && m'.at.Keys == m.at.Keys && m'.free == m.free && m'.pools == m.pools
    && (forall a :: a in m.at ==>
          && m'.at[a].indirect == m.at[a].indirect && m'.at[a].external == m.at[a].external
          && m'.at[a].bufAddr == m.at[a].bufAddr && m'.at[a].privSize == m.at[a].privSize && m'.at[a].bufLen == m.at[a].bufLen
          && m'.at[a].shinfo == m.at[a].shinfo && m'.at[a].pool == m.at[a].pool)
  }

  lemma SameSets(m: Mem, m': Mem)
    requires SameAttachments(m, m')
    ensures forall d :: Clones(m', d) == Clones(m, d)
    ensures forall s :: Users(m', s) == Users(m, s)
  {}

  /** Re-establishing the invariant of one mbuf when attachments are as before and its counter is right. */
  lemma MbufFrame(w: World, w': World, x: nat)
    requires SameAttachments(w.m, w'.m) && x in w.m.at && x in w.handles && x in w'.handles && MbufOk(w, x)
    requires w.m.ext.Keys <= w'.m.ext.Keys
    requires x in w.m.free ==> w'.m.at[x] == w.m.at[x]
    requires (w'.m.at[x].refcnt == w.m.at[x].refcnt && w'.handles[x] == w.handles[x])
      || (x !in w.m.free && w'.m.at[x].refcnt + w.handles[x] == w.m.at[x].refcnt + w'.handles[x]
          && 1 <= w'.m.at[x].refcnt <= COUNT_MAX)
    ensures MbufOk(w', x)
  {
    SameSets(w.m, w'.m);
  }

  lemma SharedFrame(w: World, w': World, s: nat)
    requires SameAttachments(w.m, w'.m) && s in w.m.ext && s in w.shares && s in w'.m.ext && s in w'.shares
    requires w'.m.ext[s] == w.m.ext[s] && w'.shares[s] == w.shares[s] && SharedOk(w, s)
    ensures SharedOk(w', s)
  {
    SameSets(w.m, w'.m);
  }

  lemma AdjustInv(w: World, a: nat, value: int)
    requires Inv(w) && Enabled(w, Adjust(a, value))
    ensures Inv(Step(w, Adjust(a, value)))
  {
    hide MbufOk, SharedOk, Added;
    var w' := Step(w, Adjust(a, value));
    NoWrapBy(w.m.at[a].refcnt, value);
    forall x | x in w'.m.at ensures MbufOk(w', x) { MbufFrame(w, w', x); }
    forall s | s in w'.m.ext ensures SharedOk(w', s) { SharedFrame(w, w', s); }
  }

  lemma AdjustExtInv(w: World, s: nat, value: int)
    requires Inv(w) && Enabled(w, AdjustExt(s, value))
    ensures Inv(Step(w, AdjustExt(s, value)))
  {
    hide MbufOk, Added;
    var w' := Step(w, AdjustExt(s, value));
    NoWrapBy(w.m.ext[s].refcnt, value);
    SameSets(w.m, w'.m);
    hide Clones, Users;
    forall x | x in w'.m.at ensures MbufOk(w', x) { MbufFrame(w, w', x); }
    forall t | t in w'.m.ext ensures SharedOk(w', t) { assert SharedOk(w, t); }
  }

  lemma LinkInv(w: World, a: nat, next: nat, nbSegs: nat)
    requires Inv(w) && Enabled(w, Link(a, next, nbSegs))
    ensures Inv(Step(w, Link(a, next, nbSegs)))
  {
    hide MbufOk, SharedOk;
    var w' := Step(w, Link(a, next, nbSegs));
    forall x | x in w'.m.at ensures MbufOk(w', x) { MbufFrame(w, w', x); }
    forall s | s in w'.m.ext ensures SharedOk(w', s) { SharedFrame(w, w', s); }
  }

  lemma NewExternalInv(w: World, s: nat)
    requires Inv(w) && Enabled(w, NewExternal(s))
    ensures Inv(Step(w, NewExternal(s)))
  {
    var w' := Step(w, NewExternal(s));
    SameSets(w.m, w'.m);
    assert Users(w.m, s) == {} by {
      assert forall c :: c in w.m.at ==> MbufOk(w, c);
    }
    forall x | x in w'.m.at ensures MbufOk(w', x) { assert MbufOk(w, x); MbufFrame(w, w', x); }
    forall t | t in w'.m.ext ensures SharedOk(w', t) { if t != s { SharedFrame(w, w', t); } }
  }

  lemma AllocInv(w: World, a: nat)
    requires Inv(w) && Enabled(w, AllocMbuf(a))
    ensures Inv(Step(w, AllocMbuf(a)))
  {
    var w' := Step(w, AllocMbuf(a));
    assert MbufOk(w, a);
    assert forall d :: Clones(w'.m, d) == Clones(w.m, d);
    assert forall s :: Users(w'.m, s) == Users(w.m, s);
    forall x | x in w'.m.at ensures MbufOk(w', x) { assert MbufOk(w, x); }
    forall s | s in w'.m.ext ensures SharedOk(w', s) { assert SharedOk(w, s); }
  }

  // ----- attaching -------------------------------------------------------------------------------------

  /** An mbuf with one reference, held by the program, has no clones. */
  lemma SoleHandle(w: World, a: nat)
    requires Inv(w) && Held(w, a) && w.m.at[a].refcnt == 1
    ensures w.handles[a] == 1 && Clones(w.m, a) == {}
    ensures forall x :: x in w.m.at && x !in w.m.free && w.m.at[x].indirect ==> FromIndirect(w.m.at[x]) != a
  {
    assert MbufOk(w, a);
    assert |Clones(w.m, a)| == 0;
    assert forall x :: x in w.m.at && x !in w.m.free && w.m.at[x].indirect && FromIndirect(w.m.at[x]) == a ==> x in Clones(w.m, a);
  }

  /** Every mbuf outside `e` is as direct, and as much in its pool, as before. */
  ghost predicate OthersKeep(m: Mem, m': Mem, e: set<nat>) {
    && m'.pools == m.pools && m'.at.Keys == m.at.Keys
    && forall y :: y in m.at && y !in e ==> (Direct(m'.at[y]) <==> Direct(m.at[y])) && (y in m'.free <==> y in m.free)
  }

  /** `x`, its clones and the mbuf it is attached to are as before. */
  lemma MbufSame(w: World, w': World, x: nat, e: set<nat>)
    requires x in w.m.at && x in w'.m.at && x in w.handles && x in w'.handles && MbufOk(w, x) && x !in e
    requires OthersKeep(w.m, w'.m, e) && w.m.ext.Keys <= w'.m.ext.Keys
    requires w'.m.at[x] == w.m.at[x] && w'.handles[x] == w.handles[x] && Clones(w'.m, x) == Clones(w.m, x)
    requires x !in w.m.free && w.m.at[x].indirect ==> FromIndirect(w.m.at[x]) !in e
    ensures MbufOk(w', x)
  {
    hide Clones, Users;
  }

  /** An external buffer with the same counter and the same users. */
  lemma SharedSame(w: World, w': World, t: nat)
    requires t in w.m.ext && t in w'.m.ext && t in w.shares && t in w'.shares && SharedOk(w, t)
    requires w'.m.ext[t] == w.m.ext[t] && w'.shares[t] == w.shares[t] && Users(w'.m, t) == Users(w.m, t)
    ensures SharedOk(w', t)
  {}

  lemma AttachExtSets(m: Mem, a: nat, s: nat, buf: int, len: nat)
    requires a in m.at && a !in m.free && Direct(m.at[a])
    ensures var m' := AttachExternal(m, a, s, buf, len);
      && (forall d :: Clones(m', d) == Clones(m, d))
      && (forall t :: Users(m', t) == if t == s then Users(m, t) + {a} else Users(m, t))
      && a !in Users(m, s)
  {}

  lemma AttachExtSelf(w: World, a: nat, s: nat, buf: int, len: nat)
    requires Inv(w) && Enabled(w, AttachExt(a, s, buf, len))
    ensures a in Step(w, AttachExt(a, s, buf, len)).handles && MbufOk(Step(w, AttachExt(a, s, buf, len)), a)
  {
    assert MbufOk(w, a);
    AttachExtSets(w.m, a, s, buf, len);
    hide Clones, Users;
  }

  lemma AttachExtInv(w: World, a: nat, s: nat, buf: int, len: nat)
    requires Inv(w) && Enabled(w, AttachExt(a, s, buf, len))
    ensures Inv(Step(w, AttachExt(a, s, buf, len)))
  {
    hide Clones, Users, MbufOk;
    var w' := Step(w, AttachExt(a, s, buf, len));
    AttachExtSelf(w, a, s, buf, len);
    AttachExtSets(w.m, a, s, buf, len);
    SoleHandle(w, a);
    forall x | x in w'.m.at ensures MbufOk(w', x) {
      if x != a { MbufSame(w, w', x, {a}); }
    }
    forall t | t in w'.m.ext ensures SharedOk(w', t) { assert SharedOk(w, t); }
  }

  lemma AttachSets(m: Mem, i: nat, a: nat)
    requires i in m.at && a in m.at && i != a && i !in m.free && Direct(m.at[i]) && !(m.at[a].external && m.at[a].indirect)
    requires if m.at[a].external then m.at[a].shinfo in m.ext else FromIndirect(m.at[a]) in m.at
    ensures var m' := Attach(m, i, a); var b := m.at[a];
      if b.external then
        && (forall d :: Clones(m', d) == Clones(m, d))
        && (forall t :: Users(m', t) == if t == b.shinfo then Users(m, t) + {i} else Users(m, t))
        && i !in Users(m, b.shinfo)
      else
        && (forall t :: Users(m', t) == Users(m, t))
        && (forall d: nat :: Clones(m', d) == if d == FromIndirect(b) then Clones(m, d) + {i} else Clones(m, d))
        && i !in Clones(m, FromIndirect(b))
  {
    hide Added;
  }

  /** The mbuf that embeds the data of one the program holds is direct and outside its pool: depth is one. */
  lemma TargetOk(w: World, a: nat)
    requires Inv(w) && Held(w, a) && !w.m.at[a].external
    ensures var d := FromIndirect(w.m.at[a]);
      && d in w.m.at && d !in w.m.free && Direct(w.m.at[d]) && (d == a <==> !w.m.at[a].indirect)
      && (w.m.at[a].indirect ==> a in Clones(w.m, d))
  {
    assert MbufOk(w, a);
  }

  lemma {:induction false} AttachInv(w: World, i: nat, a: nat)
    requires Inv(w) && Enabled(w, AttachTo(i, a))
    ensures Inv(Step(w, AttachTo(i, a)))
  {
    if w.m.at[a].external { AttachSharedInv(w, i, a); } else { AttachIndirectInv(w, i, a); }
  }

  /** What attaching to an mbuf with an external buffer changes. */
  ghost predicate SharedChange(w: World, w': World, i: nat, c: Mbuf, s: nat) {
    && i in w.m.at && i !in w.m.free && i in w.handles && w.handles[i] == 1 && s in w.m.ext && s in w.shares
    && c.external && !c.indirect && c.shinfo == s && c.refcnt == 1 && c.pool == w.m.at[i].pool
    && w' == w.(m := w.m.(at := w.m.at[i := c], ext := w.m.ext[s := w.m.ext[s].(refcnt := w.m.ext[s].refcnt + 1)]))
    && w.m.ext[s].refcnt < COUNT_MAX && Clones(w.m, i) == {}
    && (forall d :: Clones(w'.m, d) == Clones(w.m, d))
    && (forall t :: Users(w'.m, t) == if t == s then Users(w.m, t) + {i} else Users(w.m, t))
    && i !in Users(w.m, s) && Users(w.m, s) != {}
  }

  lemma AttachIsSharedChange(w: World, i: nat, a: nat)
    requires Inv(w) && Enabled(w, AttachTo(i, a)) && w.m.at[a].external
    ensures SharedChange(w, Step(w, AttachTo(i, a)), i, Clone(w.m.at[i], w.m.at[a]), w.m.at[a].shinfo)
  {
    hide Added, Clones, Users, MbufOk, SharedOk;
    SharedSource(w, a);
    AttachSets(w.m, i, a);
    SoleHandle(w, i);
    NoWrap(w.m.ext[w.m.at[a].shinfo].refcnt);
  }

  lemma SharedSource(w: World, a: nat)
    requires Inv(w) && Held(w, a) && w.m.at[a].external
    ensures !w.m.at[a].indirect && w.m.at[a].shinfo in w.m.ext && a in Users(w.m, w.m.at[a].shinfo)
  {
    assert MbufOk(w, a);
  }

  lemma SharedChangeSelf(w: World, w': World, i: nat, c: Mbuf, s: nat)
    requires Inv(w) && SharedChange(w, w', i, c, s)
    ensures MbufOk(w', i)
  {
    hide Clones, Users, SharedOk;
    assert MbufOk(w, i);
  }

  lemma SharedChangeExt(w: World, w': World, i: nat, c: Mbuf, s: nat, t: nat)
    requires Inv(w) && SharedChange(w, w', i, c, s) && t in w.m.ext
    ensures t in w'.m.ext && t in w'.shares && SharedOk(w', t)
  {
    hide Clones, Users, MbufOk;
    assert SharedOk(w, t);
    assert |Users(w.m, s) + {i}| == |Users(w.m, s)| + 1 && |Users(w.m, s)| > 0;
  }

  lemma SharedChangeInv(w: World, w': World, i: nat, c: Mbuf, s: nat)
    requires Inv(w) && SharedChange(w, w', i, c, s)
    requires forall x :: x in w.m.at && x !in w.m.free && w.m.at[x].indirect ==> FromIndirect(w.m.at[x]) != i
    ensures Inv(w')
  {
    hide Clones, Users, MbufOk, SharedOk;
    SharedChangeSelf(w, w', i, c, s);
    forall x | x in w'.m.at ensures MbufOk(w', x) { if x != i { MbufSame(w, w', x, {i}); } }
    forall t | t in w'.m.ext ensures SharedOk(w', t) { SharedChangeExt(w, w', i, c, s, t); }
  }

  lemma AttachSharedInv(w: World, i: nat, a: nat)
    requires Inv(w) && Enabled(w, AttachTo(i, a)) && w.m.at[a].external
    ensures Inv(Step(w, AttachTo(i, a)))
  {
    hide Inv, SharedChange, Step, Clone, Clones;
    AttachIsSharedChange(w, i, a);
    SoleHandle(w, i);
    SharedChangeInv(w, Step(w, AttachTo(i, a)), i, Clone(w.m.at[i], w.m.at[a]), w.m.at[a].shinfo);
  }

  /** What attaching to an mbuf embedding its data in `d` changes. */
  ghost predicate IndirectChange(w: World, w': World, i: nat, c: Mbuf, d: nat) {
    && i in w.m.at && i !in w.m.free && i in w.handles && w.handles[i] == 1
    && d in w.m.at && d !in w.m.free && d != i && Direct(w.m.at[d]) && w.m.at[d].refcnt < COUNT_MAX
    && !c.external && c.indirect && FromIndirect(c) == d && c.refcnt == 1 && c.pool == w.m.at[i].pool
    && w' == w.(m := w.m.(at := w.m.at[d := w.m.at[d].(refcnt := w.m.at[d].refcnt + 1)][i := c]))
    && Clones(w.m, i) == {}
    && (forall t :: Users(w'.m, t) == Users(w.m, t))
    && (forall x: nat :: Clones(w'.m, x) == if x == d then Clones(w.m, x) + {i} else Clones(w.m, x))
    && i !in Clones(w.m, d)
  }

  lemma AttachIsIndirectChange(w: World, i: nat, a: nat)
    requires Inv(w) && Enabled(w, AttachTo(i, a)) && !w.m.at[a].external
    ensures FromIndirect(w.m.at[a]) in w.m.at
    ensures IndirectChange(w, Step(w, AttachTo(i, a)), i, Clone(w.m.at[i], w.m.at[a]), FromIndirect(w.m.at[a]))
  {
    hide Added, Clones, Users, MbufOk, SharedOk;
    SoleHandle(w, i);
    TargetOk(w, a);
    AttachSets(w.m, i, a);
    NoWrap(w.m.at[FromIndirect(w.m.at[a])].refcnt);
  }

  lemma IndirectEnds(w: World, w': World, i: nat, c: Mbuf, d: nat)
    requires Inv(w) && IndirectChange(w, w', i, c, d)
    ensures MbufOk(w', i) && MbufOk(w', d)
  {
    hide Clones, Users, SharedOk;
    assert MbufOk(w, i) && MbufOk(w, d);
  }

  lemma IndirectChangeInv(w: World, w': World, i: nat, c: Mbuf, d: nat)
    requires Inv(w) && IndirectChange(w, w', i, c, d)
    requires forall x :: x in w.m.at && x !in w.m.free && w.m.at[x].indirect ==> FromIndirect(w.m.at[x]) != i
    ensures Inv(w')
  {
    hide Clones, Users, MbufOk, SharedOk;
    IndirectEnds(w, w', i, c, d);
    forall x | x in w'.m.at ensures MbufOk(w', x) { if x != i && x != d { MbufSame(w, w', x, {i}); } }
    forall t | t in w'.m.ext ensures SharedOk(w', t) { SharedSame(w, w', t); }
  }

  lemma AttachIndirectInv(w: World, i: nat, a: nat)
    requires Inv(w) && Enabled(w, AttachTo(i, a)) && !w.m.at[a].external
    ensures Inv(Step(w, AttachTo(i, a)))
  {
    hide Inv, IndirectChange, Step, Clone, Clones;
    AttachIsIndirectChange(w, i, a);
    SoleHandle(w, i);
    IndirectChangeInv(w, Step(w, AttachTo(i, a)), i, Clone(w.m.at[i], w.m.at[a]), FromIndirect(w.m.at[a]));
  }

  // ----- detaching -------------------------------------------------------------------------------------

  lemma DetachSets(m: Mem, a: nat)
    requires CanDetach(m, a) && a !in m.free && (m.at[a].external != m.at[a].indirect)
    requires m.at[a].indirect ==> var d := FromIndirect(m.at[a]); d != a && d !in m.free && Direct(m.at[d])
    ensures var m', b := Detach(m, a), m.at[a];
      if b.external then
        && (forall d :: Clones(m', d) == Clones(m, d))
        && (forall t :: Users(m', t) == if t == b.shinfo then Users(m, t) - {a} else Users(m, t))
        && a in Users(m, b.shinfo)
      else
        && (forall t :: Users(m', t) == Users(m, t))
        && (forall d: nat :: Clones(m', d) == if d == FromIndirect(b) then Clones(m, d) - {a} else Clones(m, d))
        && a in Clones(m, FromIndirect(b))
  {
    hide Added;
  }

  /** No mbuf in use is attached to one that is not direct. */
  lemma NoneAttachedTo(w: World, a: nat)
    requires Inv(w) && a in w.m.at && !Direct(w.m.at[a])
    ensures forall x :: x in w.m.at && x !in w.m.free && w.m.at[x].indirect ==> FromIndirect(w.m.at[x]) != a
  {
    assert forall x :: x in w.m.at ==> MbufOk(w, x);
  }

  /** `c` is what `b` becomes when it gets its own buffer back. */
  ghost predicate OwnBuffer(m: Mem, a: nat, b: Mbuf, c: Mbuf) {
    && c.pool == b.pool && c.pool in m.pools && c.refcnt == b.refcnt && Direct(c) && FromIndirect(c) == a
    && c.privSize == m.pools[c.pool].privSize && c.bufLen == m.pools[c.pool].room
  }

  ghost predicate SharedDrop(w: World, w': World, a: nat, c: Mbuf, s: nat) {
    && a in w.m.at && a !in w.m.free && a in w.handles && s in w.m.ext && OwnBuffer(w.m, a, w.m.at[a], c)
    && w.m.ext[s].refcnt >= 1
    && w' == w.(m := w.m.(at := w.m.at[a := c],
         ext := w.m.ext[s := Shared(w.m.ext[s].refcnt - 1, w.m.ext[s].calls + (if w.m.ext[s].refcnt == 1 then 1 else 0))]))
    && (forall d :: Clones(w'.m, d) == Clones(w.m, d))
    && (forall t :: Users(w'.m, t) == if t == s then Users(w.m, t) - {a} else Users(w.m, t))
    && a in Users(w.m, s)
  }

  lemma SharedCount(w: World, s: nat, a: nat)
    requires Inv(w) && s in w.m.ext && a in Users(w.m, s)
    ensures 1 <= w.m.ext[s].refcnt <= COUNT_MAX && w.m.ext[s].calls == 0
  {
    assert SharedOk(w, s);
    assert |Users(w.m, s)| > 0;
  }

  lemma DetachIsSharedDrop(w: World, a: nat)
    requires Inv(w) && Enabled(w, DetachFrom(a)) && w.m.at[a].external
    ensures SharedDrop(w, Step(w, DetachFrom(a)), a, Restored(w.m.at[a], a, w.m.pools[w.m.at[a].pool]), w.m.at[a].shinfo)
  {
    hide Added, Clones, Users, MbufOk, SharedOk;
    SharedSource(w, a);
    DetachSets(w.m, a);
    SharedCount(w, w.m.at[a].shinfo, a);
    NoWrap(w.m.ext[w.m.at[a].shinfo].refcnt);
  }

  lemma SharedDropSelf(w: World, w': World, a: nat, c: Mbuf, s: nat)
    requires Inv(w) && SharedDrop(w, w', a, c, s)
    ensures MbufOk(w', a)
  {
    hide Clones, Users, SharedOk;
    assert MbufOk(w, a);
  }

  lemma SharedDropExt(w: World, w': World, a: nat, c: Mbuf, s: nat, t: nat)
    requires Inv(w) && SharedDrop(w, w', a, c, s) && t in w.m.ext
    ensures t in w'.shares && SharedOk(w', t)
  {
    hide Clones, Users, MbufOk;
    assert SharedOk(w, t);
    assert |Users(w.m, s) - {a}| == |Users(w.m, s)| - 1;
  }

  lemma SharedDropInv(w: World, w': World, a: nat, c: Mbuf, s: nat)
    requires Inv(w) && SharedDrop(w, w', a, c, s) && !Direct(w.m.at[a])
    ensures Inv(w')
  {
    hide Clones, Users, MbufOk, SharedOk;
    NoneAttachedTo(w, a);
    SharedDropSelf(w, w', a, c, s);
    forall x | x in w'.m.at ensures MbufOk(w', x) { if x != a { MbufSame(w, w', x, {a}); } }
    forall t | t in w'.m.ext ensures SharedOk(w', t) { SharedDropExt(w, w', a, c, s, t); }
  }

  ghost predicate IndirectDrop(w: World, w': World, a: nat, c: Mbuf, d: nat) {
    && a in w.m.at && a !in w.m.free && a in w.handles && d in w.m.at && d !in w.m.free && d != a && d in w.handles
    && OwnBuffer(w.m, a, w.m.at[a], c) && Direct(w.m.at[d])
    && w.m.at[d].refcnt >= 1
    && w' == w.(m := if w.m.at[d].refcnt == 1
         then w.m.(at := w.m.at[d := Unlinked(w.m.at[d])][a := c], free := w.m.free + {d}, puts := w.m.puts + [(w.m.at[d].pool, d)])
         else w.m.(at := w.m.at[d := w.m.at[d].(refcnt := w.m.at[d].refcnt - 1)][a := c]))
    && (forall t :: Users(w'.m, t) == Users(w.m, t))
    && (forall x: nat :: Clones(w'.m, x) == if x == d then Clones(w.m, x) - {a} else Clones(w.m, x))
    && a in Clones(w.m, d)
  }

  lemma DetachIsIndirectDrop(w: World, a: nat)
    requires Inv(w) && Enabled(w, DetachFrom(a)) && !w.m.at[a].external
    ensures FromIndirect(w.m.at[a]) in w.m.at
    ensures IndirectDrop(w, Step(w, DetachFrom(a)), a, Restored(w.m.at[a], a, w.m.pools[w.m.at[a].pool]), FromIndirect(w.m.at[a]))
  {
    hide Added, Clones, Users, MbufOk, SharedOk;
    TargetOk(w, a);
    DetachSets(w.m, a);
    TargetCount(w, FromIndirect(w.m.at[a]));
    NoWrap(w.m.at[FromIndirect(w.m.at[a])].refcnt);
  }

  lemma TargetCount(w: World, d: nat)
    requires Inv(w) && d in w.m.at && d !in w.m.free
    ensures 1 <= w.m.at[d].refcnt <= COUNT_MAX
  {
    assert MbufOk(w, d);
  }

  /** The direct mbuf loses one clone; if that was its last reference it is back in its pool, clean. */
  lemma IndirectDropTarget(w: World, w': World, a: nat, c: Mbuf, d: nat)
    requires Inv(w) && IndirectDrop(w, w', a, c, d)
    ensures MbufOk(w', d)
    ensures w.m.at[d].refcnt == 1 ==> Clones(w.m, d) == {a}
  {
    hide Clones, Users;
    assert MbufOk(w, d);
    assert |Clones(w.m, d) - {a}| == |Clones(w.m, d)| - 1;
    if w.m.at[d].refcnt == 1 { assert Clones(w.m, d) - {a} == {}; }
  }

  lemma AttachedIsClone(m: Mem, x: nat, d: nat)
    requires x in m.at && x !in m.free && m.at[x].indirect && FromIndirect(m.at[x]) == d
    ensures x in Clones(m, d)
  {}

  lemma IndirectDropOther(w: World, w': World, a: nat, c: Mbuf, d: nat, x: nat)
    requires Inv(w) && IndirectDrop(w, w', a, c, d) && !Direct(w.m.at[a]) && x in w.m.at && x != a && x != d
    ensures x in w'.handles && MbufOk(w', x)
  {
    hide Clones, Users, MbufOk, SharedOk;
    NoneAttachedTo(w, a);
    IndirectDropTarget(w, w', a, c, d);
    if x !in w.m.free && w.m.at[x].indirect && FromIndirect(w.m.at[x]) == d { AttachedIsClone(w.m, x, d); }
    MbufSame(w, w', x, if w.m.at[d].refcnt == 1 then {a, d} else {a});
  }

  lemma IndirectDropSelf(w: World, w': World, a: nat, c: Mbuf, d: nat)
    requires Inv(w) && IndirectDrop(w, w', a, c, d)
    ensures MbufOk(w', a)
  {
    hide Clones, Users, SharedOk;
    assert MbufOk(w, a);
  }

  lemma IndirectDropExt(w: World, w': World, a: nat, c: Mbuf, d: nat, t: nat)
    requires Inv(w) && IndirectDrop(w, w', a, c, d) && t in w.m.ext
    ensures t in w'.m.ext && t in w'.shares && SharedOk(w', t)
  {
    hide Clones, Users, MbufOk;
    assert SharedOk(w, t);
  }

  lemma IndirectDropInv(w: World, w': World, a: nat, c: Mbuf, d: nat)
    requires Inv(w) && IndirectDrop(w, w', a, c, d) && !Direct(w.m.at[a])
    ensures Inv(w')
  {
    hide Clones, Users, MbufOk, SharedOk;
    IndirectDropSelf(w, w', a, c, d);
    IndirectDropTarget(w, w', a, c, d);
    forall x | x in w'.m.at ensures MbufOk(w', x) { if x != a && x != d { IndirectDropOther(w, w', a, c, d, x); } }
    forall t | t in w'.m.ext ensures SharedOk(w', t) { IndirectDropExt(w, w', a, c, d, t); }
  }

  lemma {:induction false} DetachInv(w: World, a: nat)
    requires Inv(w) && Enabled(w, DetachFrom(a))
    ensures Inv(Step(w, DetachFrom(a)))
  {
    var c := Restored(w.m.at[a], a, w.m.pools[w.m.at[a].pool]);
    if w.m.at[a].external {
      DetachIsSharedDrop(w, a);
      hide Inv, SharedDrop, Step;
      SharedDropInv(w, Step(w, DetachFrom(a)), a, c, w.m.at[a].shinfo);
    } else {
      DetachIsIndirectDrop(w, a);
      hide Inv, IndirectDrop, Step;
      IndirectDropInv(w, Step(w, DetachFrom(a)), a, c, FromIndirect(w.m.at[a]));
    }
  }

  // ----- freeing ---------------------------------------------------------------------------------------

  /** Returning a direct mbuf with one reference, the program's. */
  ghost function Returned(w: World, a: nat): World
    requires a in w.m.at && a in w.handles
  {
    w.(m := PutBack(w.m.(at := w.m.at[a := Unlinked(w.m.at[a])]), a), handles := w.handles[a := 0])
  }

  lemma ReturnedSets(m: Mem, a: nat)
    requires a in m.at && Direct(m.at[a])
    ensures var m' := PutBack(m.(at := m.at[a := Unlinked(m.at[a])]), a);
      (forall d :: Clones(m', d) == Clones(m, d)) && (forall t :: Users(m', t) == Users(m, t))
  {}

  lemma ReturnedSelf(w: World, a: nat)
    requires Inv(w) && Held(w, a) && Direct(w.m.at[a]) && w.m.at[a].refcnt == 1
    ensures MbufOk(Returned(w, a), a)
  {
    hide SharedOk;
    ReturnedSets(w.m, a);
    SoleHandle(w, a);
    hide Clones, Users;
    assert MbufOk(w, a);
  }

  lemma ReturnInv(w: World, a: nat)
    requires Inv(w) && Held(w, a) && Direct(w.m.at[a]) && w.m.at[a].refcnt == 1
    ensures Inv(Returned(w, a))
  {
    hide Clones, Users, MbufOk, SharedOk;
    var w' := Returned(w, a);
    ReturnedSets(w.m, a);
    SoleHandle(w, a);
    ReturnedSelf(w, a);
    forall x | x in w'.m.at ensures MbufOk(w', x) { if x != a { MbufSame(w, w', x, {a}); } }
    forall t | t in w'.m.ext ensures SharedOk(w', t) { SharedSame(w, w', t); }
  }

  lemma CountDownInv(w: World, a: nat)
    requires Inv(w) && Held(w, a) && w.m.at[a].refcnt > 1
    ensures Inv(Step(w, Free(a)))
  {
    hide MbufOk, SharedOk, Added;
    TargetCount(w, a);
    NoWrap(w.m.at[a].refcnt);
    var w' := Step(w, Free(a));
    forall x | x in w'.m.at ensures MbufOk(w', x) { MbufFrame(w, w', x); }
    forall s | s in w'.m.ext ensures SharedOk(w', s) { SharedFrame(w, w', s); }
  }

  /** Freeing the last reference is detaching, if attached, and then returning. */
  lemma FreeIsReturn(w: World, a: nat)
    requires Inv(w) && Enabled(w, Free(a)) && w.m.at[a].refcnt == 1
    ensures w.handles[a] == 1
    ensures Direct(w.m.at[a]) ==> Step(w, Free(a)) == Returned(w, a)
    ensures !Direct(w.m.at[a]) ==> Enabled(w, DetachFrom(a)) && Step(w, Free(a)) == Returned(Step(w, DetachFrom(a)), a)
  {
    SoleHandle(w, a);
  }

  lemma DetachKeeps(w: World, a: nat)
    requires Inv(w) && Enabled(w, DetachFrom(a))
    ensures var w' := Step(w, DetachFrom(a));
      Held(w', a) && Direct(w'.m.at[a]) && w'.m.at[a].refcnt == w.m.at[a].refcnt && w'.handles == w.handles
  {
    hide Added, MbufOk, SharedOk, Clones, Users;
    if !w.m.at[a].external { TargetOk(w, a); }
  }

  lemma {:induction false} FreeInv(w: World, a: nat)
    requires Inv(w) && Enabled(w, Free(a))
    ensures Inv(Step(w, Free(a)))
  {
    TargetCount(w, a);
    if w.m.at[a].refcnt > 1 {
      CountDownInv(w, a);
    } else {
      FreeIsReturn(w, a);
      if Direct(w.m.at[a]) {
        ReturnInv(w, a);
      } else {
        DetachInv(w, a);
        DetachKeeps(w, a);
        ReturnInv(Step(w, DetachFrom(a)), a);
      }
    }
  }
}
