/** Packets as chains of segments: lengths, and the bytes they hold. */
module MbufChain {
  import opened Bags
  import opened LinkedLists
  import opened MbufHeap
  import opened MbufOps

  const MAX_SEGS: nat := 65535
  const MAX_LEN: nat := 65535

  function Minus(n: int): int { -n }

  function U16(x: int): nat { x % 0x1_0000 }
  function U32(x: int): nat { x % 0x1_0000_0000 }

  predicate AllIn(at: map<nat, Mbuf>, segs: seq<nat>) {
    forall k :: 0 <= k < |segs| ==> segs[k] in at
  }

  predicate AllOk(at: map<nat, Mbuf>, segs: seq<nat>) {
    AllIn(at, segs) && forall k :: 0 <= k < |segs| ==> SegmentOk(at, segs[k])
  }

  /** The sum of the data lengths. */
  function Lengths(at: map<nat, Mbuf>, segs: seq<nat>): nat
    requires AllIn(at, segs)
  {
    if segs == [] then 0 else Lengths(at, segs[..|segs| - 1]) + at[segs[|segs| - 1]].dataLen
  }

  predicate SegmentOk(at: map<nat, Mbuf>, a: nat) {
    a in at && at[a].dataOff + at[a].dataLen <= at[a].bufLen <= MAX_LEN
  }

  /** A packet: the head knows the number of segments and the total length, and every segment's data lies in its buffer. */
  ghost predicate PacketOk(at: map<nat, Mbuf>, head: nat, segs: seq<nat>) {
    && segs != [] && |segs| <= MAX_SEGS && Chained(head, NextOf(at), segs) && head == segs[0] && Distinct(segs)
    && AllOk(at, segs)
    && at[head].nbSegs == |segs| && at[head].pktLen == Lengths(at, segs)
  }

  lemma {:induction false} LengthsBound(at: map<nat, Mbuf>, segs: seq<nat>)
    requires AllOk(at, segs)
    ensures Lengths(at, segs) <= MAX_LEN * |segs|
  {
    if segs != [] { LengthsBound(at, segs[..|segs| - 1]); }
  }

  /** The total length of a packet fits into 32 bits, because 65535 * 65535 does. */
  lemma PacketLengthFits(at: map<nat, Mbuf>, head: nat, segs: seq<nat>)
    requires PacketOk(at, head, segs)
    ensures at[head].pktLen <= MAX_LEN * MAX_SEGS < 0x1_0000_0000
  {
    LengthsBound(at, segs);
  }

  /** The length in the head is the number of the packet's bytes. */
  lemma {:induction false} PacketLengthIsBytes(at: map<nat, Mbuf>, bytes: map<nat, seq<int>>, head: nat, segs: seq<nat>)
    requires PacketOk(at, head, segs) && Backed(at, bytes, segs)
    ensures at[head].pktLen == |Content(at, bytes, segs)|
  {
    ContentLength(at, bytes, segs);
  }

  lemma {:induction false} LengthsConcat(at: map<nat, Mbuf>, a: seq<nat>, b: seq<nat>)
    requires AllIn(at, a) && AllIn(at, b) && AllIn(at, a + b)
    ensures Lengths(at, a + b) == Lengths(at, a) + Lengths(at, b)
  {
    if b == [] {
      assert a + b == a;
    } else {
      var front := b[..|b| - 1];
      assert (a + b)[..|a + b| - 1] == a + front;
      LengthsConcat(at, a, front);
    }
  }

  lemma {:induction false} LengthsFrame(at: map<nat, Mbuf>, at': map<nat, Mbuf>, segs: seq<nat>)
    requires AllIn(at, segs) && AllIn(at', segs)
    requires forall k :: 0 <= k < |segs| ==> at'[segs[k]].dataLen == at[segs[k]].dataLen
    ensures Lengths(at', segs) == Lengths(at, segs)
  {
    if segs != [] { LengthsFrame(at, at', segs[..|segs| - 1]); }
  }

  // ----- the bytes -------------------------------------------------------------------------------------

  /** `bytes` holds the buffer each segment points to. */
  ghost predicate Backed(at: map<nat, Mbuf>, bytes: map<nat, seq<int>>, segs: seq<nat>) {
    AllOk(at, segs) && forall k :: 0 <= k < |segs| ==> segs[k] in bytes && |bytes[segs[k]]| == at[segs[k]].bufLen
  }

  function Data(b: Mbuf, buf: seq<int>): seq<int>
    requires b.dataOff + b.dataLen <= |buf|
  {
    buf[b.dataOff..b.dataOff + b.dataLen]
  }

  /** The bytes of a packet. */
  ghost function Content(at: map<nat, Mbuf>, bytes: map<nat, seq<int>>, segs: seq<nat>): seq<int>
    requires Backed(at, bytes, segs)
  {
    if segs == [] then [] else
    Content(at, bytes, segs[..|segs| - 1]) + Data(at[segs[|segs| - 1]], bytes[segs[|segs| - 1]])
  }

  lemma {:induction false} ContentConcat(at: map<nat, Mbuf>, bytes: map<nat, seq<int>>, a: seq<nat>, b: seq<nat>)
    requires Backed(at, bytes, a) && Backed(at, bytes, b) && Backed(at, bytes, a + b)
    ensures Content(at, bytes, a + b) == Content(at, bytes, a) + Content(at, bytes, b)
  {
    if b == [] {
      assert a + b == a;
    } else {
      var front := b[..|b| - 1];
      assert (a + b)[..|a + b| - 1] == a + front;
      ContentConcat(at, bytes, a, front);
      hide Backed;
      var last := Data(at[b[|b| - 1]], bytes[b[|b| - 1]]);
      assert (Content(at, bytes, a) + Content(at, bytes, front)) + last
          == Content(at, bytes, a) + (Content(at, bytes, front) + last);
    }
  }

  predicate SameData(b: Mbuf, b': Mbuf) {
    b'.dataLen == b.dataLen && b'.dataOff == b.dataOff && b'.bufLen == b.bufLen
  }

  lemma {:induction false} ContentFrame(at: map<nat, Mbuf>, at': map<nat, Mbuf>, bytes: map<nat, seq<int>>, segs: seq<nat>)
    requires Backed(at, bytes, segs) && AllIn(at', segs)
    requires forall k :: 0 <= k < |segs| ==> SameData(at[segs[k]], at'[segs[k]])
    ensures Backed(at', bytes, segs) && Content(at', bytes, segs) == Content(at, bytes, segs)
  {
    if segs != [] { ContentFrame(at, at', bytes, segs[..|segs| - 1]); }
  }

  lemma {:induction false} ContentLength(at: map<nat, Mbuf>, bytes: map<nat, seq<int>>, segs: seq<nat>)
    requires Backed(at, bytes, segs)
    ensures |Content(at, bytes, segs)| == Lengths(at, segs)
  {
    if segs != [] { ContentLength(at, bytes, segs[..|segs| - 1]); }
  }

  // ----- the operations --------------------------------------------------------------------------------

  /** Changing the data of segment `a` by moving its start and length, and the total length of the head, in 16 and 32 bits. */
  function Edited(at: map<nat, Mbuf>, head: nat, a: nat, off: int, len: int): map<nat, Mbuf>
    requires head in at && a in at
  {
    var at' := at[a := at[a].(dataOff := U16(at[a].dataOff + off), dataLen := U16(at[a].dataLen + len))];
    at'[head := at'[head].(pktLen := U32(at'[head].pktLen + len))]
  }

  /** `rte_pktmbuf_prepend`: room is taken from before the first segment's data. */
  function Prepended(at: map<nat, Mbuf>, head: nat, len: nat): Option<map<nat, Mbuf>>
    requires head in at
  {
    if len > at[head].dataOff then None else Some(Edited(at, head, head, Minus(len), len))
  }

  /** `rte_pktmbuf_adj`. */
  function Adjusted(at: map<nat, Mbuf>, head: nat, len: nat): Option<map<nat, Mbuf>>
    requires head in at
  {
    if len > at[head].dataLen then None else Some(Edited(at, head, head, len, Minus(len)))
  }

  function Tailroom(b: Mbuf): nat { U16(b.bufLen - b.dataOff - b.dataLen) }

  /** `rte_pktmbuf_append`, `last` being the last segment. */
  function Appended(at: map<nat, Mbuf>, head: nat, last: nat, len: nat): Option<map<nat, Mbuf>>
    requires head in at && last in at
  {
    if len > Tailroom(at[last]) then None else Some(Edited(at, head, last, 0, len))
  }

  /** `rte_pktmbuf_trim`. */
  function Trimmed(at: map<nat, Mbuf>, head: nat, last: nat, len: nat): Option<map<nat, Mbuf>>
    requires head in at && last in at
  {
    if len > at[last].dataLen then None else Some(Edited(at, head, last, 0, Minus(len)))
  }

  /** `rte_pktmbuf_chain`. */
  function ChainedOn(at: map<nat, Mbuf>, head: nat, last: nat, tail: nat): Option<map<nat, Mbuf>>
    requires head in at && last in at && tail in at
  {
    if at[head].nbSegs + at[tail].nbSegs > MAX_SEGS then None else
    var at1 := at[last := at[last].(next := tail)];
    var at2 := at1[head := at1[head].(nbSegs := U16(at1[head].nbSegs + at1[tail].nbSegs),
                                      pktLen := U32(at1[head].pktLen + at1[tail].pktLen))];
    Some(at2[tail := at2[tail].(pktLen := at2[tail].dataLen)])
  }

  // ----- what they keep --------------------------------------------------------------------------------

  lemma Small16(x: int)
    ensures 0 <= x <= MAX_LEN ==> U16(x) == x
  {}

  lemma Small32(x: int)
    ensures 0 <= x < 0x1_0000_0000 ==> U32(x) == x
  {}

  lemma {:induction false} NextFrame(at: map<nat, Mbuf>, at': map<nat, Mbuf>, head: nat, segs: seq<nat>)
    requires Chained(head, NextOf(at), segs)
    requires AllIn(at, segs) && AllIn(at', segs) && forall k :: 0 <= k < |segs| ==> at'[segs[k]].next == at[segs[k]].next
    ensures Chained(head, NextOf(at'), segs)
  {
    ChainFrame(NextOf(at), NextOf(at'), head, segs);
  }

  /** Splitting the sum at segment `k`. */
  lemma {:induction false} LengthsAt(at: map<nat, Mbuf>, segs: seq<nat>, k: nat)
    requires k < |segs| && AllIn(at, segs)
    ensures AllIn(at, segs[..k]) && AllIn(at, segs[k + 1..])
    ensures Lengths(at, segs) == Lengths(at, segs[..k]) + at[segs[k]].dataLen + Lengths(at, segs[k + 1..])
  {
    assert segs[..k + 1][..k] == segs[..k];
    assert segs == segs[..k + 1] + segs[k + 1..];
    LengthsConcat(at, segs[..k + 1], segs[k + 1..]);
  }

  lemma {:induction false} ContentAt(at: map<nat, Mbuf>, bytes: map<nat, seq<int>>, segs: seq<nat>, k: nat)
    requires k < |segs| && Backed(at, bytes, segs)
    ensures Backed(at, bytes, segs[..k]) && Backed(at, bytes, segs[k + 1..])
    ensures Content(at, bytes, segs)
      == Content(at, bytes, segs[..k]) + Data(at[segs[k]], bytes[segs[k]]) + Content(at, bytes, segs[k + 1..])
  {
    assert segs[..k + 1][..k] == segs[..k];
    assert segs == segs[..k + 1] + segs[k + 1..];
    ContentConcat(at, bytes, segs[..k + 1], segs[k + 1..]);
  }

  /** What an edit changes when no cast loses bits. */
  ghost predicate EditedExactly(at: map<nat, Mbuf>, at': map<nat, Mbuf>, head: nat, a: nat, off: int, len: int) {
    && a in at && head in at && at'.Keys == at.Keys
    && at'[a].dataOff == at[a].dataOff + off && at'[a].dataLen == at[a].dataLen + len
    && at'[head].pktLen == at[head].pktLen + len && at'[head].nbSegs == at[head].nbSegs
    && (forall x :: x in at ==> at'[x].next == at[x].next && at'[x].bufLen == at[x].bufLen)
    && (forall x :: x in at && x != a ==> SameData(at[x], at'[x]))
    && (forall x :: x in at && x != a && x != head ==> at'[x] == at[x])
    && (forall x :: x in at ==> at'[x] == at[x].(dataOff := at'[x].dataOff, dataLen := at'[x].dataLen, pktLen := at'[x].pktLen))
  }

  lemma EditIsExact(at: map<nat, Mbuf>, head: nat, a: nat, off: int, len: int)
    requires SegmentOk(at, a) && head in at
    requires 0 <= at[a].dataOff + off && 0 <= at[a].dataLen + len && at[a].dataOff + off + at[a].dataLen + len <= at[a].bufLen
    requires 0 <= at[head].pktLen + len < 0x1_0000_0000
    ensures EditedExactly(at, Edited(at, head, a, off, len), head, a, off, len)
  {
    hide U16, U32;
    Small16(at[a].dataOff + off);
    Small16(at[a].dataLen + len);
    Small32(at[head].pktLen + len);
  }

  /** The sum after an edit of segment `k`. */
  lemma EditLengths(at: map<nat, Mbuf>, at': map<nat, Mbuf>, head: nat, segs: seq<nat>, k: nat, off: int, len: int)
    requires k < |segs| && AllIn(at, segs) && Distinct(segs) && EditedExactly(at, at', head, segs[k], off, len)
    ensures AllIn(at', segs) && Lengths(at', segs) == Lengths(at, segs) + len
  {
    LengthsAt(at, segs, k);
    LengthsAt(at', segs, k);
    LengthsFrame(at, at', segs[..k]);
    LengthsFrame(at, at', segs[k + 1..]);
  }

  /** The length of the packet leaves room for the edit. */
  lemma EditFits(at: map<nat, Mbuf>, head: nat, segs: seq<nat>, k: nat, len: int)
    requires PacketOk(at, head, segs) && k < |segs|
    requires 0 <= at[segs[k]].dataLen + len <= MAX_LEN
    ensures 0 <= at[head].pktLen + len <= MAX_LEN * MAX_SEGS
  {
    LengthsAt(at, segs, k);
    assert AllOk(at, segs[..k]) && AllOk(at, segs[k + 1..]);
    LengthsBound(at, segs[..k]);
    LengthsBound(at, segs[k + 1..]);
  }

  /** An edit within the buffer of segment `k` loses no bits and keeps the packet. */
  lemma {:induction false} EditKeepsPacket(at: map<nat, Mbuf>, head: nat, segs: seq<nat>, k: nat, off: int, len: int)
    requires PacketOk(at, head, segs) && k < |segs|
    requires var b := at[segs[k]];
      0 <= b.dataOff + off && 0 <= b.dataLen + len && b.dataOff + off + b.dataLen + len <= b.bufLen
    ensures var at' := Edited(at, head, segs[k], off, len);
      PacketOk(at', head, segs) && EditedExactly(at, at', head, segs[k], off, len)
  {
    hide Edited, Chained, NextOf;
    var at' := Edited(at, head, segs[k], off, len);
    EditFits(at, head, segs, k, len);
    EditIsExact(at, head, segs[k], off, len);
    EditLengths(at, at', head, segs, k, off, len);
    NextFrame(at, at', head, segs);
  }

  /** Only the data of segment `k` differs. */
  lemma {:induction false} EditContent(at: map<nat, Mbuf>, at': map<nat, Mbuf>, bytes: map<nat, seq<int>>, head: nat, segs: seq<nat>,
      k: nat, off: int, len: int)
    requires k < |segs| && Distinct(segs) && Backed(at, bytes, segs) && EditedExactly(at, at', head, segs[k], off, len)
    requires AllOk(at', segs)
    ensures Backed(at', bytes, segs) && Backed(at, bytes, segs[..k]) && Backed(at, bytes, segs[k + 1..])
    ensures Content(at', bytes, segs) == Content(at, bytes, segs[..k]) + Data(at'[segs[k]], bytes[segs[k]])
      + Content(at, bytes, segs[k + 1..])
  {
    assert Backed(at', bytes, segs);
    ContentAt(at, bytes, segs, k);
    ContentAt(at', bytes, segs, k);
    hide Chained;
    assert forall j :: 0 <= j < |segs| && j != k ==> SameData(at[segs[j]], at'[segs[j]]);
    ContentFrame(at, at', bytes, segs[..k]);
    ContentFrame(at, at', bytes, segs[k + 1..]);
  }

  /** An edit within the buffer of segment `k`: the bytes in front of its data and behind them stay. */
  lemma {:induction false} SegmentEdited(at: map<nat, Mbuf>, bytes: map<nat, seq<int>>, head: nat, segs: seq<nat>, k: nat,
      off: int, len: int) returns (front: seq<int>, back: seq<int>)
    requires PacketOk(at, head, segs) && Backed(at, bytes, segs) && k < |segs|
    requires var b := at[segs[k]];
      0 <= b.dataOff + off && 0 <= b.dataLen + len && b.dataOff + off + b.dataLen + len <= b.bufLen
    ensures k == 0 ==> front == []
    ensures k == |segs| - 1 ==> back == []
    ensures segs[k] in at && segs[k] in bytes && |bytes[segs[k]]| == at[segs[k]].bufLen
    ensures Content(at, bytes, segs) == front + Data(at[segs[k]], bytes[segs[k]]) + back
    ensures var at', buf := Edited(at, head, segs[k], off, len), bytes[segs[k]];
      && PacketOk(at', head, segs) && Backed(at', bytes, segs) && segs[k] in at'
      && at'[segs[k]].dataOff == at[segs[k]].dataOff + off && at'[segs[k]].dataLen == at[segs[k]].dataLen + len
      && Content(at', bytes, segs) == front + Data(at'[segs[k]], buf) + back
  {
    hide Edited, EditedExactly, Chained, Lengths;
    EditKeepsPacket(at, head, segs, k, off, len);
    hide PacketOk;
    HeadFirst(at, head, segs);
    var at' := Edited(at, head, segs[k], off, len);
    EditFacts(at, at', head, segs, k, off, len);
    hide Distinct, Content;
    EditContent(at, at', bytes, head, segs, k, off, len);
    ContentAt(at, bytes, segs, k);
    front, back := Content(at, bytes, segs[..k]), Content(at, bytes, segs[k + 1..]);
    if k == 0 { EmptyContent(at, bytes, segs[..k]); }
    if k == |segs| - 1 { EmptyContent(at, bytes, segs[k + 1..]); }
  }

  lemma PrependData(b: Mbuf, buf: seq<int>, len: nat)
    requires len <= b.dataOff && b.dataOff + b.dataLen <= |buf|
    ensures buf[b.dataOff - len..b.dataOff + b.dataLen] == buf[b.dataOff - len..b.dataOff] + Data(b, buf)
  {}

  lemma DropEmpty(front: seq<int>, a: seq<int>, b: seq<int>, back: seq<int>)
    requires front == []
    ensures front + (a + b) + back == a + (front + b + back)
  {}

  /** Prepending fails exactly when the headroom is too short; else it puts the bytes before the data in front. */
  lemma {:induction false} PrependKeeps(at: map<nat, Mbuf>, bytes: map<nat, seq<int>>, head: nat, segs: seq<nat>, len: nat)
    requires PacketOk(at, head, segs) && Backed(at, bytes, segs)
    ensures Prepended(at, head, len) == None <==> len > at[head].dataOff
    ensures len <= at[head].dataOff ==> var at' := Prepended(at, head, len).value;
      && PacketOk(at', head, segs) && Backed(at', bytes, segs)
      && Content(at', bytes, segs) == bytes[head][at[head].dataOff - len..at[head].dataOff] + Content(at, bytes, segs)
  {
    HeadFirst(at, head, segs);
    hide PacketOk, Backed, Edited, Content;
    if len <= at[head].dataOff {
      var front, back := SegmentEdited(at, bytes, head, segs, 0, Minus(len), len);
      PrependData(at[head], bytes[head], len);
      DropEmpty(front, bytes[head][at[head].dataOff - len..at[head].dataOff], Data(at[head], bytes[head]), back);
    }
  }

  lemma {:induction false} EmptyContent(at: map<nat, Mbuf>, bytes: map<nat, seq<int>>, segs: seq<nat>)
    requires segs == []
    ensures Backed(at, bytes, segs) && Content(at, bytes, segs) == []
  {}

  lemma HeadFirst(at: map<nat, Mbuf>, head: nat, segs: seq<nat>)
    requires PacketOk(at, head, segs)
    ensures 0 < |segs| && head == segs[0] && head in at && Distinct(segs) && AllOk(at, segs)
  {}

  lemma EditFacts(at: map<nat, Mbuf>, at': map<nat, Mbuf>, head: nat, segs: seq<nat>, k: nat, off: int, len: int)
    requires k < |segs| && PacketOk(at', head, segs) && EditedExactly(at, at', head, segs[k], off, len)
    ensures AllOk(at', segs) && segs[k] in at && segs[k] in at'
    ensures at'[segs[k]].dataOff == at[segs[k]].dataOff + off && at'[segs[k]].dataLen == at[segs[k]].dataLen + len
  {}

  lemma DropFront(front: seq<int>, a: seq<int>, len: nat, back: seq<int>)
    requires front == [] && len <= |a|
    ensures front + a[len..] + back == (front + a + back)[len..]
  {}

  /** Adjusting fails exactly when the first segment is too short; else it drops the first `len` bytes. */
  lemma {:induction false} AdjustKeeps(at: map<nat, Mbuf>, bytes: map<nat, seq<int>>, head: nat, segs: seq<nat>, len: nat)
    requires PacketOk(at, head, segs) && Backed(at, bytes, segs)
    ensures Adjusted(at, head, len) == None <==> len > at[head].dataLen
    ensures len <= at[head].dataLen ==> var at' := Adjusted(at, head, len).value;
      && PacketOk(at', head, segs) && Backed(at', bytes, segs)
      && len <= |Content(at, bytes, segs)| && Content(at', bytes, segs) == Content(at, bytes, segs)[len..]
  {
    HeadFirst(at, head, segs);
    hide PacketOk, Backed, Edited, Content;
    if len <= at[head].dataLen {
      var front, back := SegmentEdited(at, bytes, head, segs, 0, len, Minus(len));
      DropFront(front, Data(at[head], bytes[head]), len, back);
    }
  }

  lemma LastLast(at: map<nat, Mbuf>, head: nat, segs: seq<nat>)
    requires PacketOk(at, head, segs)
    ensures 0 < |segs| && Distinct(segs) && AllOk(at, segs) && segs[|segs| - 1] in at && head in at
    ensures segs[|segs| - 1 + 1..] == []
    ensures var b := at[segs[|segs| - 1]]; Tailroom(b) == b.bufLen - b.dataOff - b.dataLen
  {
    var b := at[segs[|segs| - 1]];
    Small16(b.bufLen - b.dataOff - b.dataLen);
  }

  /** Appending fails exactly when the tailroom is too short; else it adds the bytes behind the data of the last segment. */
  lemma {:induction false} AppendKeeps(at: map<nat, Mbuf>, bytes: map<nat, seq<int>>, head: nat, segs: seq<nat>, len: nat)
    requires PacketOk(at, head, segs) && Backed(at, bytes, segs)
    ensures var last := segs[|segs| - 1]; var b := at[last]; var end := b.dataOff + b.dataLen;
      && (Appended(at, head, last, len) == None <==> end + len > b.bufLen)
      && (end + len <= b.bufLen ==> var at' := Appended(at, head, last, len).value;
            && PacketOk(at', head, segs) && Backed(at', bytes, segs)
            && Content(at', bytes, segs) == Content(at, bytes, segs) + bytes[last][end..end + len])
  {
    LastLast(at, head, segs);
    hide PacketOk, Backed, Edited, Tailroom, Content;
    var last := segs[|segs| - 1];
    if at[last].dataOff + at[last].dataLen + len <= at[last].bufLen {
      var front, back := SegmentEdited(at, bytes, head, segs, |segs| - 1, 0, len);
    }
  }

  /** Trimming fails exactly when the last segment is too short; else it drops the last `len` bytes. */
  lemma {:induction false} TrimKeeps(at: map<nat, Mbuf>, bytes: map<nat, seq<int>>, head: nat, segs: seq<nat>, len: nat)
    requires PacketOk(at, head, segs) && Backed(at, bytes, segs)
    ensures var last := segs[|segs| - 1];
      && (Trimmed(at, head, last, len) == None <==> len > at[last].dataLen)
      && (len <= at[last].dataLen ==> var at' := Trimmed(at, head, last, len).value;
            && PacketOk(at', head, segs) && Backed(at', bytes, segs)
            && len <= |Content(at, bytes, segs)|
            && Content(at', bytes, segs) == Content(at, bytes, segs)[..|Content(at, bytes, segs)| - len])
  {
    LastLast(at, head, segs);
    hide PacketOk, Backed, Edited, Tailroom, Content;
    var last := segs[|segs| - 1];
    if len <= at[last].dataLen {
      var front, back := SegmentEdited(at, bytes, head, segs, |segs| - 1, 0, Minus(len));
    }
  }

  // ----- undoing ---------------------------------------------------------------------------------------

  lemma {:induction false} EditUndone(at: map<nat, Mbuf>, head: nat, segs: seq<nat>, k: nat, off: int, len: int)
    requires PacketOk(at, head, segs) && k < |segs|
    requires var b := at[segs[k]];
      0 <= b.dataOff + off && 0 <= b.dataLen + len && b.dataOff + off + b.dataLen + len <= b.bufLen
    ensures Edited(Edited(at, head, segs[k], off, len), head, segs[k], Minus(off), Minus(len)) == at
  {
    var a := segs[k];
    EditFits(at, head, segs, k, len);
    PacketLengthFits(at, head, segs);
    hide U16, U32, PacketOk;
    Small16(at[a].dataOff + off);
    Small16(at[a].dataLen + len);
    Small16(at[a].dataOff);
    Small16(at[a].dataLen);
    Small32(at[head].pktLen + len);
    Small32(at[head].pktLen);
    var at' := Edited(at, head, a, off, len);
    assert Edited(at', head, a, Minus(off), Minus(len)) == at;
  }

  /** A prepend that succeeds is undone by adjusting by the same length, and the other way round. */
  lemma {:induction false} PrependAdjust(at: map<nat, Mbuf>, head: nat, segs: seq<nat>, len: nat)
    requires PacketOk(at, head, segs)
    ensures len <= at[head].dataOff ==> Adjusted(Prepended(at, head, len).value, head, len) == Some(at)
    ensures len <= at[head].dataLen ==> Prepended(Adjusted(at, head, len).value, head, len) == Some(at)
  {
    hide PacketOk, Edited, Chained;
    HeadFirst(at, head, segs);
    if len <= at[head].dataOff {
      EditUndone(at, head, segs, 0, Minus(len), len);
      EditKeepsPacket(at, head, segs, 0, Minus(len), len);
      assert Minus(Minus(len)) == len;
    }
    if len <= at[head].dataLen {
      EditUndone(at, head, segs, 0, len, Minus(len));
      EditKeepsPacket(at, head, segs, 0, len, Minus(len));
      assert Minus(Minus(len)) == len;
    }
  }

  /** The same for append and trim. */
  lemma {:induction false} AppendTrim(at: map<nat, Mbuf>, head: nat, segs: seq<nat>, len: nat)
    requires PacketOk(at, head, segs)
    ensures var last := segs[|segs| - 1]; var b := at[last];
      && (b.dataOff + b.dataLen + len <= b.bufLen ==>
            Appended(at, head, last, len).Some? && Trimmed(Appended(at, head, last, len).value, head, last, len) == Some(at))
      && (len <= b.dataLen ==> Appended(Trimmed(at, head, last, len).value, head, last, len) == Some(at))
  {
    LastLast(at, head, segs);
    hide PacketOk, Edited, Chained, Tailroom;
    var k, b := |segs| - 1, at[segs[|segs| - 1]];
    if b.dataOff + b.dataLen + len <= b.bufLen {
      EditUndone(at, head, segs, k, 0, len);
      EditKeepsPacket(at, head, segs, k, 0, len);
      assert Minus(0) == 0;
    }
    if len <= b.dataLen {
      EditUndone(at, head, segs, k, 0, Minus(len));
      EditKeepsPacket(at, head, segs, k, 0, Minus(len));
      LastLast(Edited(at, head, segs[k], 0, Minus(len)), head, segs);
      assert Minus(0) == 0 && Minus(Minus(len)) == len;
    }
  }

  // ----- chaining --------------------------------------------------------------------------------------

  lemma {:induction false} ChainJoin(next: map<nat, nat>, next': map<nat, nat>, head: nat, a: seq<nat>, tail: nat, b: seq<nat>)
    requires Chained(head, next, a) && Chained(tail, next', b) && a != []
    requires forall k :: 0 <= k < |a| - 1 ==> a[k] in next && a[k] in next' && next'[a[k]] == next[a[k]]
    requires a[|a| - 1] in next' && next'[a[|a| - 1]] == tail
    ensures Chained(head, next', a + b)
    decreases |a|
  {
    assert (a + b)[1..] == a[1..] + b;
    if |a| > 1 { ChainJoin(next, next', next[head], a[1..], tail, b); } else { assert a[1..] + b == b; }
  }

  /** What chaining does to one segment when no cast loses bits. */
  ghost predicate JoinedAt(at: map<nat, Mbuf>, at': map<nat, Mbuf>, head: nat, last: nat, tail: nat, x: nat)
    requires head in at && tail in at && x in at && x in at'
  {
    at'[x] == at[x].(
      next := if x == last then tail else at[x].next,
      nbSegs := if x == head then at[head].nbSegs + at[tail].nbSegs else at[x].nbSegs,
      pktLen := if x == head then at[head].pktLen + at[tail].pktLen else if x == tail then at[tail].dataLen else at[x].pktLen)
  }

  /** What chaining changes when no cast loses bits. */
  ghost predicate JoinedExactly(at: map<nat, Mbuf>, at': map<nat, Mbuf>, head: nat, last: nat, tail: nat) {
    && head in at && last in at && tail in at && at'.Keys == at.Keys
    && forall x :: x in at ==> JoinedAt(at, at', head, last, tail, x)
  }

  /** The fields that chaining writes, segment by segment. */
  lemma {:induction false} JoinWrites(at: map<nat, Mbuf>, head: nat, last: nat, tail: nat, x: nat)
    requires head in at && last in at && tail in at && head != tail && last != tail && x in at
    requires at[head].nbSegs + at[tail].nbSegs <= MAX_SEGS
    ensures var at' := ChainedOn(at, head, last, tail).value;
      && x in at' && at'[x] == at[x].(
           next := if x == last then tail else at[x].next,
           nbSegs := if x == head then U16(at[head].nbSegs + at[tail].nbSegs) else at[x].nbSegs,
           pktLen := if x == head then U32(at[head].pktLen + at[tail].pktLen)
             else if x == tail then at[tail].dataLen else at[x].pktLen)
  {
    hide U16, U32;
  }

  lemma {:induction false} JoinIsExact(at: map<nat, Mbuf>, head: nat, last: nat, tail: nat)
    requires head in at && last in at && tail in at && head != tail && last != tail
    requires at[head].nbSegs + at[tail].nbSegs <= MAX_SEGS && at[head].pktLen + at[tail].pktLen < 0x1_0000_0000
    ensures JoinedExactly(at, ChainedOn(at, head, last, tail).value, head, last, tail)
  {
    var at' := ChainedOn(at, head, last, tail).value;
    assert at'.Keys == at.Keys;
    hide U16, U32, ChainedOn;
    Small16(at[head].nbSegs + at[tail].nbSegs);
    Small32(at[head].pktLen + at[tail].pktLen);
    forall x | x in at ensures x in at' && JoinedAt(at, at', head, last, tail, x) { JoinWrites(at, head, last, tail, x); }
  }

  lemma JoinedDistinct(a: seq<nat>, b: seq<nat>)
    requires Distinct(a) && Distinct(b) && forall k, l :: 0 <= k < |a| && 0 <= l < |b| ==> a[k] != b[l]
    ensures Distinct(a + b)
  {}

  lemma {:induction false} JoinChains(at: map<nat, Mbuf>, at': map<nat, Mbuf>, head: nat, a: seq<nat>, tail: nat, b: seq<nat>)
    requires PacketOk(at, head, a) && PacketOk(at, tail, b) && forall k, l :: 0 <= k < |a| && 0 <= l < |b| ==> a[k] != b[l]
    requires JoinedExactly(at, at', head, a[|a| - 1], tail)
    ensures Chained(head, NextOf(at'), a + b) && Distinct(a + b)
  {
    JoinedDistinct(a, b);
    NextFrame(at, at', tail, b);
    ChainJoin(NextOf(at), NextOf(at'), head, a, tail, b);
  }

  lemma JoinLengths(at: map<nat, Mbuf>, at': map<nat, Mbuf>, head: nat, last: nat, tail: nat, a: seq<nat>, b: seq<nat>)
    requires AllOk(at, a) && AllOk(at, b) && JoinedExactly(at, at', head, last, tail)
    ensures AllOk(at', a + b) && Lengths(at', a + b) == Lengths(at, a) + Lengths(at, b)
  {
    assert AllOk(at', a) && AllOk(at', b) && AllOk(at', a + b);
    LengthsConcat(at', a, b);
    LengthsFrame(at, at', a);
    LengthsFrame(at, at', b);
  }

  lemma JoinContent(at: map<nat, Mbuf>, at': map<nat, Mbuf>, bytes: map<nat, seq<int>>, head: nat, last: nat, tail: nat, a: seq<nat>, b: seq<nat>)
    requires Backed(at, bytes, a) && Backed(at, bytes, b) && JoinedExactly(at, at', head, last, tail) && AllOk(at', a + b)
    ensures Backed(at', bytes, a + b) && Content(at', bytes, a + b) == Content(at, bytes, a) + Content(at, bytes, b)
  {
    assert forall k :: 0 <= k < |a| ==> SameData(at[a[k]], at'[a[k]]);
    assert forall k :: 0 <= k < |b| ==> SameData(at[b[k]], at'[b[k]]);
    ContentFrame(at, at', bytes, a);
    ContentFrame(at, at', bytes, b);
    assert forall k :: 0 <= k < |a + b| ==> (a + b)[k] in bytes && |bytes[(a + b)[k]]| == at'[(a + b)[k]].bufLen;
    ContentConcat(at', bytes, a, b);
  }

  lemma JoinFits(at: map<nat, Mbuf>, head: nat, a: seq<nat>, tail: nat, b: seq<nat>)
    requires PacketOk(at, head, a) && PacketOk(at, tail, b) && |a| + |b| <= MAX_SEGS
    ensures at[head].pktLen + at[tail].pktLen <= MAX_LEN * MAX_SEGS
  {
    LengthsBound(at, a);
    LengthsBound(at, b);
  }

  /**
    Chaining two packets without a common segment fails exactly when together they have more than 65535 segments;
    else the result is a packet with the segments, the length and the bytes of both, and no cast loses bits.
  */
  lemma {:induction false} ChainKeeps(at: map<nat, Mbuf>, bytes: map<nat, seq<int>>, head: nat, a: seq<nat>, tail: nat, b: seq<nat>)
    requires PacketOk(at, head, a) && PacketOk(at, tail, b) && forall k, l :: 0 <= k < |a| && 0 <= l < |b| ==> a[k] != b[l]
    requires Backed(at, bytes, a) && Backed(at, bytes, b)
    ensures var last := a[|a| - 1];
      && (ChainedOn(at, head, last, tail) == None <==> |a| + |b| > MAX_SEGS)
      && (|a| + |b| <= MAX_SEGS ==> var at' := ChainedOn(at, head, last, tail).value;
            && PacketOk(at', head, a + b) && JoinedExactly(at, at', head, last, tail)
            && Backed(at', bytes, a + b)
            && Content(at', bytes, a + b) == Content(at, bytes, a) + Content(at, bytes, b))
  {
    var last := a[|a| - 1];
    if |a| + |b| <= MAX_SEGS {
      hide ChainedOn, Chained, NextOf;
      JoinFits(at, head, a, tail, b);
      JoinIsExact(at, head, last, tail);
      var at' := ChainedOn(at, head, last, tail).value;
      JoinChains(at, at', head, a, tail, b);
      JoinLengths(at, at', head, last, tail, a, b);
      JoinContent(at, at', bytes, head, last, tail, a, b);
    }
  }

  // ----- in place --------------------------------------------------------------------------------------

  /** Walks to the last segment. */
  method LastSeg(mem: Memory, m: nat, ghost segs: seq<nat>) returns (last: nat)
    requires segs != [] && Chained(m, NextOf(mem.at), segs)
    ensures last == segs[|segs| - 1]
  {
    last := m;
    ghost var i := 0;
    assert segs[0..] == segs;
    while mem.at[last].next != 0
      invariant i < |segs| && Chained(last, NextOf(mem.at), segs[i..])
      decreases |segs| - i
    {
      assert segs[i..][1..] == segs[i + 1..];
      last := mem.at[last].next;
      i := i + 1;
    }
    assert segs[i..][1..] == [];
  }

  method Prepend(mem: Memory, m: nat, len: nat) returns (start: Option<int>)
    requires m in mem.at
    modifies mem`at
    ensures match Prepended(old(mem.at), m, len)
      case None => start == None && mem.at == old(mem.at)
      case Some(at') => mem.at == at' && start == Some(at'[m].bufAddr + at'[m].dataOff)
  {
    if len > mem.at[m].dataOff { return None; }
    mem.at := mem.at[m := mem.at[m].(dataOff := U16(mem.at[m].dataOff - len))];
    mem.at := mem.at[m := mem.at[m].(dataLen := U16(mem.at[m].dataLen + len))];
    mem.at := mem.at[m := mem.at[m].(pktLen := U32(mem.at[m].pktLen + len))];
    start := Some(mem.at[m].bufAddr + mem.at[m].dataOff);
  }

  method Append(mem: Memory, m: nat, len: nat, ghost segs: seq<nat>) returns (start: Option<int>)
    requires PacketOk(mem.at, m, segs)
    modifies mem`at
    ensures var last := segs[|segs| - 1]; var b := old(mem.at)[last];
      match Appended(old(mem.at), m, last, len)
      case None => start == None && mem.at == old(mem.at)
      case Some(at') => mem.at == at' && start == Some(b.bufAddr + b.dataOff + b.dataLen)
  {
    var last := LastSeg(mem, m, segs);
    if len > Tailroom(mem.at[last]) { return None; }
    start := Some(mem.at[last].bufAddr + mem.at[last].dataOff + mem.at[last].dataLen);
    SameOffset(mem.at, last);
    mem.at := mem.at[last := mem.at[last].(dataLen := U16(mem.at[last].dataLen + len))];
    mem.at := mem.at[m := mem.at[m].(pktLen := U32(mem.at[m].pktLen + len))];
  }

  lemma SameOffset(at: map<nat, Mbuf>, a: nat)
    requires SegmentOk(at, a)
    ensures U16(at[a].dataOff + 0) == at[a].dataOff
  {
    Small16(at[a].dataOff);
  }

  method Adjust(mem: Memory, m: nat, len: nat) returns (start: Option<int>)
    requires m in mem.at
    modifies mem`at
    ensures match Adjusted(old(mem.at), m, len)
      case None => start == None && mem.at == old(mem.at)
      case Some(at') => mem.at == at' && start == Some(at'[m].bufAddr + at'[m].dataOff)
  {
    if len > mem.at[m].dataLen { return None; }
    mem.at := mem.at[m := mem.at[m].(dataLen := U16(mem.at[m].dataLen - len))];
    mem.at := mem.at[m := mem.at[m].(dataOff := U16(mem.at[m].dataOff + len))];
    mem.at := mem.at[m := mem.at[m].(pktLen := U32(mem.at[m].pktLen - len))];
    start := Some(mem.at[m].bufAddr + mem.at[m].dataOff);
  }

  method Trim(mem: Memory, m: nat, len: nat, ghost segs: seq<nat>) returns (rc: int)
    requires PacketOk(mem.at, m, segs)
    modifies mem`at
    ensures match Trimmed(old(mem.at), m, segs[|segs| - 1], len)
      case None => rc == -1 && mem.at == old(mem.at)
      case Some(at') => rc == 0 && mem.at == at'
  {
    var last := LastSeg(mem, m, segs);
    if len > mem.at[last].dataLen { return -1; }
    SameOffset(mem.at, last);
    mem.at := mem.at[last := mem.at[last].(dataLen := U16(mem.at[last].dataLen - len))];
    mem.at := mem.at[m := mem.at[m].(pktLen := U32(mem.at[m].pktLen - len))];
    rc := 0;
  }

  const EOVERFLOW: int := 75

  method Chain(mem: Memory, head: nat, tail: nat, ghost segs: seq<nat>) returns (rc: int)
    requires PacketOk(mem.at, head, segs) && tail in mem.at
    modifies mem`at
    ensures match ChainedOn(old(mem.at), head, segs[|segs| - 1], tail)
      case None => rc == -EOVERFLOW && mem.at == old(mem.at)
      case Some(at') => rc == 0 && mem.at == at'
  {
    if mem.at[head].nbSegs + mem.at[tail].nbSegs > MAX_SEGS { return -EOVERFLOW; }
    var curTail := LastSeg(mem, head, segs);
    mem.at := mem.at[curTail := mem.at[curTail].(next := tail)];
    mem.at := mem.at[head := mem.at[head].(nbSegs := U16(mem.at[head].nbSegs + mem.at[tail].nbSegs))];
    mem.at := mem.at[head := mem.at[head].(pktLen := U32(mem.at[head].pktLen + mem.at[tail].pktLen))];
    mem.at := mem.at[tail := mem.at[tail].(pktLen := mem.at[tail].dataLen)];
    rc := 0;
  }
}
