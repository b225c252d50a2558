/** The receive rings of a netmap port: slot iteration, slot updates, and the walk over the extra buffers. */
module NetmapRing {
  import opened Bags
  import opened LinkedLists
  import Bits

  const NS_BUF_CHANGED: nat := 1

  datatype Slot = Slot(bufIdx: int, len: nat, flags: nat, ptr: nat)

  datatype RingView = RingView(head: nat, cur: nat, tail: nat, slots: seq<Slot>)

  /** The rings of a port and the cursor of its receiver; `open` says that the current ring pointer is not null. */
  datatype Rx = Rx(rings: seq<RingView>, first: nat, last: nat, ringIdx: nat, open: bool)

  datatype Place = Place(ring: nat, slot: nat)

  predicate RingWf(r: RingView) {
    r.head < |r.slots| && r.tail < |r.slots|
  }

  predicate RingsWf(rings: seq<RingView>) {
    forall i :: 0 <= i < |rings| ==> RingWf(rings[i])
  }

  predicate RxWf(rx: Rx) {
    && rx.first <= rx.last < |rx.rings| && RingsWf(rx.rings)
    && (rx.open ==> rx.first <= rx.ringIdx <= rx.last)
  }

  // ----- one ring --------------------------------------------------------------------------------------

  function Successor(i: nat, n: nat): nat { if i + 1 == n then 0 else i + 1 }

  /** How many slots lie between head and tail. */
  function Avail(r: RingView): nat
    requires RingWf(r)
  {
    if r.head <= r.tail then r.tail - r.head else r.tail + |r.slots| - r.head
  }

  function Advanced(r: RingView): RingView
    requires RingWf(r)
  {
    var next := Successor(r.head, |r.slots|);
    r.(head := next, cur := next)
  }

  /** The slots from head to tail, in the order in which stepping the head visits them. */
  function Pending(r: RingView): seq<nat>
    requires RingWf(r)
    decreases Avail(r)
  {
    if r.head == r.tail then [] else [r.head] + Pending(Advanced(r))
  }

  /** `i` modulo `n` for `i` below `2 * n`. */
  function Around(i: nat, n: nat): (r: nat)
    requires i < 2 * n
    ensures r == i % n
  {
    Wraps(i, n);
    if i < n then i else i - n
  }

  lemma Wraps(i: nat, n: nat)
    requires i < 2 * n
    ensures i % n == if i < n then i else i - n
  {
    if i >= n { assert i == (i - n) + n; }
  }

  /** The visited slots are head, head + 1, ... modulo the ring size, as many as lie before the tail. */
  lemma {:induction false} PendingIsInterval(r: RingView)
    requires RingWf(r)
    ensures |Pending(r)| == Avail(r)
    ensures forall k :: 0 <= k < Avail(r) ==> Pending(r)[k] == Around(r.head + k, |r.slots|)
    decreases Avail(r)
  {
    if r.head != r.tail {
      PendingIsInterval(Advanced(r));
      forall k | 0 < k < Avail(r) ensures Pending(r)[k] == Around(r.head + k, |r.slots|) {
        assert Pending(r)[k] == Pending(Advanced(r))[k - 1];
      }
    }
  }

  /** No slot is visited twice. */
  lemma PendingDistinct(r: RingView)
    requires RingWf(r)
    ensures Distinct(Pending(r))
  {
    PendingIsInterval(r);
  }

  // ----- all rings -------------------------------------------------------------------------------------

  function Tagged(ring: nat, slots: seq<nat>): seq<Place> {
    seq(|slots|, k requires 0 <= k < |slots| => Place(ring, slots[k]))
  }

  function PendingFrom(rings: seq<RingView>, i: nat, last: nat): seq<Place>
    requires last < |rings| && RingsWf(rings)
    decreases last + 1 - i
  {
    if i > last then [] else Tagged(i, Pending(rings[i])) + PendingFrom(rings, i + 1, last)
  }

  /** Everything the receiver still has to yield. */
  function PendingAll(rx: Rx): seq<Place>
    requires RxWf(rx)
  {
    if rx.open then PendingFrom(rx.rings, rx.ringIdx, rx.last) else []
  }

  /** The receiver's step: skip exhausted rings, take the slot at the head of the first one that is not. */
  function Next(rx: Rx): (Rx, Option<Place>)
    requires RxWf(rx)
    decreases rx.last + 1 - rx.ringIdx
  {
    if !rx.open then (rx, None) else
    var ring := rx.rings[rx.ringIdx];
    if ring.head != ring.tail then
      (rx.(rings := rx.rings[rx.ringIdx := Advanced(ring)]), Some(Place(rx.ringIdx, ring.head)))
    else if rx.ringIdx + 1 > rx.last then (rx.(ringIdx := rx.ringIdx + 1, open := false), None)
    else Next(rx.(ringIdx := rx.ringIdx + 1))
  }

  /** One turn of the receiver's loop. */
  lemma {:induction false} NextAt(rx: Rx)
    requires RxWf(rx)
    ensures !rx.open ==> Next(rx) == (rx, None)
    ensures rx.open ==>
      var ring := rx.rings[rx.ringIdx];
      var skip := rx.(ringIdx := rx.ringIdx + 1);
      if ring.head != ring.tail then
        Next(rx) == (rx.(rings := rx.rings[rx.ringIdx := Advanced(ring)]), Some(Place(rx.ringIdx, ring.head)))
      else if skip.ringIdx > rx.last then Next(rx) == (skip.(open := false), None)
      else RxWf(skip) && Next(rx) == Next(skip)
  {}

  lemma {:induction false} PendingFromFrame(rings: seq<RingView>, rings': seq<RingView>, i: nat, last: nat)
    requires last < |rings| == |rings'|
    requires RingsWf(rings) && RingsWf(rings')
    requires forall k :: i <= k < |rings| ==> Pending(rings'[k]) == Pending(rings[k])
    ensures PendingFrom(rings', i, last) == PendingFrom(rings, i, last)
    decreases last + 1 - i
  {
    if i <= last { PendingFromFrame(rings, rings', i + 1, last); }
  }

  /** What a step does to what is pending. */
  ghost predicate TakesFirst(rx: Rx, rx': Rx, place: Option<Place>) {
    && RxWf(rx) && RxWf(rx')
    && (place == None <==> PendingAll(rx) == [])
    && (place == None ==> !rx'.open && PendingAll(rx') == [])
    && (place != None ==> PendingAll(rx) == [place.value] + PendingAll(rx'))
    && rx'.first == rx.first && rx'.last == rx.last && Same(rx.rings, rx'.rings)
  }

  /** Taking the slot at the head of the current ring. */
  lemma {:induction false} TakeHere(rx: Rx)
    requires RxWf(rx) && rx.open && rx.rings[rx.ringIdx].head != rx.rings[rx.ringIdx].tail
    ensures TakesFirst(rx, Next(rx).0, Next(rx).1)
  {
    var i, rx' := rx.ringIdx, Next(rx).0;
    var ring := rx.rings[i];
    AdvancedWf(rx, ring);
    var rest := PendingFrom(rx.rings, i + 1, rx.last);
    PendingFromFrame(rx.rings, rx'.rings, i + 1, rx.last);
    TaggedFirst(i, ring.head, Pending(Advanced(ring)));
    hide Pending, Tagged;
    assert PendingAll(rx) == Tagged(i, Pending(ring)) + rest;
    assert PendingAll(rx') == Tagged(i, Pending(Advanced(ring))) + rest;
  }

  lemma AdvancedWf(rx: Rx, ring: RingView)
    requires RxWf(rx) && rx.open && ring == rx.rings[rx.ringIdx] && ring.head != ring.tail
    ensures RxWf(rx.(rings := rx.rings[rx.ringIdx := Advanced(ring)]))
    ensures Pending(ring) == [ring.head] + Pending(Advanced(ring))
  {}

  lemma TaggedFirst(i: nat, slot: nat, rest: seq<nat>)
    ensures Tagged(i, [slot] + rest) == [Place(i, slot)] + Tagged(i, rest)
  {}

  /** An exhausted ring adds nothing to what is pending. */
  lemma {:induction false} SkipHere(rx: Rx)
    requires RxWf(rx) && rx.open && rx.rings[rx.ringIdx].head == rx.rings[rx.ringIdx].tail
    ensures PendingAll(rx) == PendingFrom(rx.rings, rx.ringIdx + 1, rx.last)
    ensures rx.ringIdx == rx.last ==> PendingAll(rx) == []
  {
    var i := rx.ringIdx;
    assert Tagged(i, []) + PendingFrom(rx.rings, i + 1, rx.last) == PendingFrom(rx.rings, i + 1, rx.last);
  }

  /** A step yields exactly the first pending slot and leaves the others pending; it yields nothing only when none is. */
  lemma {:induction false} NextTakesFirst(rx: Rx)
    requires RxWf(rx)
    ensures var (rx', place) := Next(rx);
      && RxWf(rx')
      && (place == None <==> PendingAll(rx) == [])
      && (place == None ==> !rx'.open && PendingAll(rx') == [])
      && (place != None ==> PendingAll(rx) == [place.value] + PendingAll(rx'))
      && rx'.first == rx.first && rx'.last == rx.last && Same(rx.rings, rx'.rings)
    decreases rx.last + 1 - rx.ringIdx
  {
    hide PendingFrom, Pending, Advanced, Next;
    NextAt(rx);
    if rx.open {
      if rx.rings[rx.ringIdx].head != rx.rings[rx.ringIdx].tail {
        TakeHere(rx);
      } else {
        SkipHere(rx);
        if rx.ringIdx < rx.last { NextTakesFirst(rx.(ringIdx := rx.ringIdx + 1)); }
      }
    }
  }

  /** The same slots with the same contents, and the same tails. */
  ghost predicate Same(rings: seq<RingView>, rings': seq<RingView>) {
    |rings'| == |rings|
    && forall i :: 0 <= i < |rings| ==> rings'[i].slots == rings[i].slots && rings'[i].tail == rings[i].tail
  }

  /** Nothing is pending exactly when every ring from the current one to the last has its head at its tail. */
  lemma {:induction false} NothingPending(rings: seq<RingView>, i: nat, last: nat)
    requires last < |rings| && RingsWf(rings)
    ensures PendingFrom(rings, i, last) == [] <==> forall k :: i <= k <= last ==> rings[k].head == rings[k].tail
    decreases last + 1 - i
  {
    if i <= last { NothingPending(rings, i + 1, last); }
  }

  /** `p` is the slot at the head of the first ring, from ring `i` on, whose head is not at its tail. */
  ghost predicate FirstReady(rings: seq<RingView>, i: nat, last: nat, p: Place)
    requires last < |rings|
  {
    && i <= p.ring <= last && p.slot == rings[p.ring].head && rings[p.ring].head != rings[p.ring].tail
    && forall k :: i <= k < p.ring ==> rings[k].head == rings[k].tail
  }

  lemma {:induction false} FirstPending(rings: seq<RingView>, i: nat, last: nat)
    requires last < |rings| && RingsWf(rings) && PendingFrom(rings, i, last) != []
    ensures FirstReady(rings, i, last, PendingFrom(rings, i, last)[0])
    decreases last + 1 - i
  {
    if rings[i].head == rings[i].tail { FirstPending(rings, i + 1, last); }
  }

  /** A step that yields nothing changes no ring. */
  lemma {:induction false} NothingTaken(rx: Rx)
    requires RxWf(rx) && Next(rx).1 == None
    ensures Next(rx).0.rings == rx.rings && Next(rx).0.first == rx.first && Next(rx).0.last == rx.last
    decreases rx.last + 1 - rx.ringIdx
  {
    if rx.open && rx.ringIdx < rx.last { NothingTaken(rx.(ringIdx := rx.ringIdx + 1)); }
  }

  /** What `n` successive steps yield. */
  function Yields(rx: Rx, n: nat): (Rx, seq<Place>)
    requires RxWf(rx)
    ensures RxWf(Yields(rx, n).0)
  {
    if n == 0 then (rx, []) else
    var (rx', places) := Yields(rx, n - 1);
    NextTakesFirst(rx');
    var (rx'', place) := Next(rx');
    (rx'', places + if place == None then [] else [place.value])
  }

  lemma OneMore(all: seq<Place>, n: nat, done: seq<Place>, left: seq<Place>, left': seq<Place>, place: Option<Place>)
    requires n > 0 && done == all[..Min(n - 1, |all|)] && left == all[Min(n - 1, |all|)..]
    requires (place == None <==> left == []) && (place == None ==> left' == [])
    requires place != None ==> left == [place.value] + left'
    ensures done + (if place == None then [] else [place.value]) == all[..Min(n, |all|)] && left' == all[Min(n, |all|)..]
    ensures n > |all| ==> place == None
  {
    if place == None {
      assert all[..Min(n - 1, |all|)] == all;
    } else {
      assert all == done + ([place.value] + left');
    }
  }

  /** Iteration is exhaustive: `n` steps yield the first `n` pending slots, and nothing once all were yielded. */
  lemma {:induction false} YieldsPending(rx: Rx, n: nat)
    requires RxWf(rx)
    ensures var all := PendingAll(rx); var m := Min(n, |all|);
      && Yields(rx, n).1 == all[..m]
      && PendingAll(Yields(rx, n).0) == all[m..]
      && (n > |all| ==> !Yields(rx, n).0.open)
  {
    hide Next, PendingAll, RxWf;
    if n > 0 {
      YieldsPending(rx, n - 1);
      NextTakesFirst(Yields(rx, n - 1).0);
      var (rx1, place) := Next(Yields(rx, n - 1).0);
      OneMore(PendingAll(rx), n, Yields(rx, n - 1).1, PendingAll(Yields(rx, n - 1).0), PendingAll(rx1), place);
    }
  }

  /** A pending place lies in a bound ring, in a pending slot of it. */
  lemma {:induction false} PendingPlaces(rings: seq<RingView>, i: nat, last: nat, k: nat)
    requires last < |rings| && RingsWf(rings)
    requires k < |PendingFrom(rings, i, last)|
    ensures var p := PendingFrom(rings, i, last)[k]; i <= p.ring <= last && p.slot in Pending(rings[p.ring])
    decreases last + 1 - i
  {
    if i <= last {
      var n := |Pending(rings[i])|;
      if k >= n {
        PendingPlaces(rings, i + 1, last, k - n);
      } else {
        assert PendingFrom(rings, i, last)[k] == Tagged(i, Pending(rings[i]))[k];
      }
    }
  }

  /** From the first ring on, every slot between head and tail of every bound ring is yielded, each once. */
  lemma {:induction false} PendingFromDistinct(rings: seq<RingView>, i: nat, last: nat)
    requires last < |rings| && RingsWf(rings)
    ensures Distinct(PendingFrom(rings, i, last))
    ensures forall p: Place :: i <= p.ring <= last && p.slot in Pending(rings[p.ring]) ==> p in PendingFrom(rings, i, last)
    decreases last + 1 - i
  {
    if i <= last {
      PendingFromDistinct(rings, i + 1, last);
      PendingDistinct(rings[i]);
      var here, rest := Tagged(i, Pending(rings[i])), PendingFrom(rings, i + 1, last);
      forall a, b | 0 <= a < b < |here + rest| ensures (here + rest)[a] != (here + rest)[b] {
        if b >= |here| { PendingPlaces(rings, i + 1, last, b - |here|); }
      }
      forall p: Place | i <= p.ring <= last && p.slot in Pending(rings[p.ring]) ensures p in here + rest {
        if p.ring == i {
          var k :| 0 <= k < |Pending(rings[i])| && Pending(rings[i])[k] == p.slot;
          assert here[k] == p;
        }
      }
    }
  }

  // ----- updating a slot -------------------------------------------------------------------------------

  /** Bitwise or with the lowest bit. */
  function Marked(flags: nat): nat { if flags % 2 == 1 then flags else flags + NS_BUF_CHANGED }

  /** The flag is set, and every other bit is as before. */
  lemma {:induction false} MarkedBits(flags: nat)
    ensures Bits.Bit(Marked(flags), 0) && forall i: nat :: i > 0 ==> Bits.Bit(Marked(flags), i) == Bits.Bit(flags, i)
  {
    assert Marked(flags) / 2 == flags / 2;
    forall i: nat | i > 0 ensures Bits.Bit(Marked(flags), i) == Bits.Bit(flags, i) {
      assert Bits.Bit(Marked(flags), i) == Bits.Bit(flags / 2, i - 1);
    }
  }

  function Rewritten(rx: Rx, p: Place, buf: int): Rx
    requires p.ring < |rx.rings| && p.slot < |rx.rings[p.ring].slots|
  {
    var ring := rx.rings[p.ring];
    var slot := ring.slots[p.slot];
    rx.(rings := rx.rings[p.ring := ring.(slots := ring.slots[p.slot := slot.(bufIdx := buf, flags := Marked(slot.flags))])])
  }

  function WithTail(r: RingView, tail: nat): RingView { r.(tail := tail) }

  function WithTails(rings: seq<RingView>, tails: seq<nat>): seq<RingView>
    requires |tails| == |rings|
  {
    seq(|rings|, i requires 0 <= i < |rings| => WithTail(rings[i], tails[i]))
  }

  /** What the kernel may do at a synchronisation: move tails forward, never back over slots that are pending. */
  ghost predicate TailsForward(rings: seq<RingView>, tails: seq<nat>) {
    |tails| == |rings|
    && forall i :: 0 <= i < |rings| ==>
         RingWf(rings[i]) && RingWf(WithTail(rings[i], tails[i])) && Avail(rings[i]) <= Avail(WithTail(rings[i], tails[i]))
  }

  /**
    A synchronisation only adds pending slots behind those that were pending: afterwards every slot from the head up
    to the new tail is pending.
  */
  lemma {:induction false} SyncKeepsPending(r: RingView, tail: nat)
    requires RingWf(r) && RingWf(WithTail(r, tail)) && Avail(r) <= Avail(WithTail(r, tail))
    ensures Pending(r) <= Pending(WithTail(r, tail))
    ensures var p, n := Pending(WithTail(r, tail)), |r.slots|;
      && |p| < n && (r.head + |p|) % n == tail && forall k :: 0 <= k < |p| ==> p[k] == (r.head + k) % n
  {
    Wraps(r.head + Avail(WithTail(r, tail)), |r.slots|);
    PendingIsInterval(r);
    PendingIsInterval(WithTail(r, tail));
  }

  // ----- in place --------------------------------------------------------------------------------------

  /** A ring in memory shared with the kernel. */
  class RawRing {
    var head: nat
    var cur: nat
    var tail: nat
    const slots: array<Slot>

    constructor (slots: array<Slot>)
      ensures this.slots == slots && head == 0 && cur == 0 && tail == 0
    {
      this.slots := slots;
      head, cur, tail := 0, 0, 0;
    }

    ghost function View(): RingView
      reads this, slots
    {
      RingView(head, cur, tail, slots[..])
    }

    /** Takes the slot at the head, if there is one before the tail. */
    method Step() returns (slot: Option<nat>)
      modifies this`head, this`cur
      ensures slot == if old(head) == tail then None else Some(old(head))
      ensures slot == None ==> head == old(head) && cur == old(cur)
      ensures slot != None ==> head == cur == Successor(old(head), slots.Length)
    {
      if head == tail { return None; }
      var idx := head;
      var next := if idx + 1 == slots.Length then 0 else idx + 1;
      head, cur := next, next;
      slot := Some(idx);
    }

    /** Replaces the buffer of a slot and tells the kernel so; length, pointer and the other flags stay. */
    method UpdateBuffer(slot: nat, buf: int)
      requires slot < slots.Length
      modifies slots
      ensures slots[..] == old(slots[..])[slot := old(slots[slot]).(bufIdx := buf, flags := Marked(old(slots[slot].flags)))]
      ensures slots[slot].bufIdx == buf && slots[slot].len == old(slots[slot].len) && slots[slot].ptr == old(slots[slot].ptr)
      ensures Bits.Bit(slots[slot].flags, 0)
      ensures forall i: nat :: i > 0 ==> Bits.Bit(slots[slot].flags, i) == Bits.Bit(old(slots[slot].flags), i)
    {
      MarkedBits(slots[slot].flags);
      var data := slots[slot];
      var flags := if data.flags % 2 == 1 then data.flags else data.flags + NS_BUF_CHANGED;
      slots[slot] := Slot(buf, data.len, flags, data.ptr);
    }
  }

  /** The receiver; `rings` is the ring table of the port. */
  class Receiver {
    const rings: seq<RawRing>
    const first: nat
    const last: nat
    var ringIdx: nat
    var curRing: RawRing?

    ghost function Arrays(): set<array<Slot>> {
      set r | r in rings :: r.slots
    }

    ghost function Views(): seq<RingView>
      reads rings, Arrays()
    {
      seq(|rings|, i requires 0 <= i < |rings| reads rings, Arrays() => rings[i].View())
    }

    ghost function Value(): Rx
      reads this, rings, Arrays()
    {
      Rx(Views(), first, last, ringIdx, curRing != null)
    }

    ghost predicate Valid()
      reads this, rings, Arrays()
    {
      && Distinct(rings) && (forall i, j :: 0 <= i < j < |rings| ==> rings[i].slots != rings[j].slots)
      && RxWf(Value())
      && (curRing != null ==> curRing == rings[ringIdx])
    }

    constructor (rings: seq<RawRing>, first: nat, last: nat)
      requires first <= last < |rings| && Distinct(rings) && forall r <- rings :: RingWf(r.View())
      requires forall i, j :: 0 <= i < j < |rings| ==> rings[i].slots != rings[j].slots
      ensures Valid() && this.rings == rings && this.first == first && this.last == last && curRing != null
    {
      this.rings, this.first, this.last := rings, first, last;
      ringIdx, curRing := first, rings[first];
    }

    /** Yields the next slot: the loop of the source is `Next`. */
    method NextSlot() returns (place: Option<Place>)
      requires Valid()
      modifies this`ringIdx, this`curRing, rings`head, rings`cur
      ensures Valid() && Value() == Next(old(Value())).0 && place == Next(old(Value())).1
    {
      hide Next, Distinct, RingWf, PendingFrom, Pending;
      ghost var rx := Value();
      NextTakesFirst(rx);
      NextAt(rx);
      if curRing == null { return None; }
      while true
        invariant curRing != null && ringIdx <= last && curRing == rings[ringIdx]
        invariant first <= ringIdx
        invariant Next(rx.(ringIdx := ringIdx)) == Next(rx)
        invariant unchanged(rings)
        decreases last + 1 - ringIdx
      {
        NextAt(rx.(ringIdx := ringIdx));
        var slot := curRing.Step();
        if slot != None {
          place := Some(Place(ringIdx, slot.value));
          assert Views() == rx.rings[ringIdx := Advanced(rx.rings[ringIdx])];
          assert Value() == Next(rx).0;
          return;
        }
        ringIdx := ringIdx + 1;
        if ringIdx > last {
          curRing := null;
          assert Views() == rx.rings;
          return None;
        }
        curRing := rings[ringIdx];
      }
    }

    method Rewrite(place: Place, buf: int)
      requires Valid() && place.ring < |rings| && place.slot < rings[place.ring].slots.Length
      modifies rings[place.ring].slots
      ensures Valid()
      ensures place.slot < |old(Views())[place.ring].slots| && Value() == Rewritten(old(Value()), place, buf)
    {
      hide Distinct;
      ghost var was := Value();
      rings[place.ring].UpdateBuffer(place.slot, buf);
      assert Views() == Rewritten(was, place, buf).rings;
    }

    /** The kernel moves tails during a synchronisation. */
    method RxSync(tails: seq<nat>)
      requires Valid() && |tails| == |rings| && TailsForward(Views(), tails)
      modifies rings`tail
      ensures Valid() && Value() == old(Value()).(rings := WithTails(old(Views()), tails))
      ensures forall i :: 0 <= i < |rings| ==> rings[i].tail == tails[i]
    {
      forall i | 0 <= i < |rings| { rings[i].tail := tails[i]; }
      ghost var was := old(Views());
      assert forall i :: 0 <= i < |rings| ==> rings[i].View() == WithTail(was[i], tails[i]);
      assert Views() == WithTails(was, tails);
    }

    /** Starts over at the first ring and synchronises. */
    method Reset(tails: seq<nat>)
      requires Valid() && |tails| == |rings| && TailsForward(Views(), tails)
      modifies this`ringIdx, this`curRing, rings`tail
      ensures Valid()
      ensures Value() == old(Value()).(rings := WithTails(old(Views()), tails), ringIdx := first, open := true)
      ensures forall i :: 0 <= i < |rings| ==> rings[i].tail == tails[i]
    {
      ringIdx := first;
      curRing := rings[ringIdx];
      assert Views() == old(Views());
      RxSync(tails);
    }
  }

  // ----- extra buffers ---------------------------------------------------------------------------------

  class Port {
    var bufsHead: nat
    const next: map<nat, nat>

    constructor (bufsHead: nat, next: map<nat, nat>)
      ensures this.bufsHead == bufsHead && this.next == next
    {
      this.bufsHead, this.next := bufsHead, next;
    }

    /** Collects the extra buffers and takes them from the kernel; the list must end. */
    method ExtraBuffers(ghost chain: seq<nat>) returns (res: seq<nat>)
      requires Chained(bufsHead, next, chain)
      modifies this
      ensures res == chain && bufsHead == 0 && Distinct(res)
    {
      ChainDistinct(bufsHead, next, chain);
      var scan := bufsHead;
      res := [];
      while scan != 0
        invariant |res| <= |chain| && res == chain[..|res|] && Chained(scan, next, chain[|res|..])
        decreases |chain| - |res|
      {
        assert chain[|res|..][1..] == chain[|res| + 1..];
        res := res + [scan];
        scan := next[scan];
      }
      bufsHead := 0;
    }
  }
}
