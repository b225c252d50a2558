/** What both backends share: buffers held by the program as tokens and payloads, and the start of every run. */
module Holdings {
  import opened Bags
  import opened QueueMachine
  import opened QueueAccounting
  import opened QueueProperties

  /** A live payload and the context handle it borrows. */
  datatype Payload = Payload(buf: int, handle: nat)

  predicate Borrowed(payloads: seq<Payload>, h: nat) {
    exists i :: 0 <= i < |payloads| && payloads[i].handle == h
  }

  function PayloadBufs(payloads: seq<Payload>): seq<int> {
    seq(|payloads|, i requires 0 <= i < |payloads| => payloads[i].buf)
  }

  lemma PayloadsSnoc(ps: seq<Payload>, x: Payload)
    ensures PayloadBufs(ps + [x]) == PayloadBufs(ps) + [x.buf]
  {}

  lemma PayloadsDrop(ps: seq<Payload>, i: nat)
    requires i < |ps|
    ensures PayloadBufs(Drop(ps, i)) == Drop(PayloadBufs(ps), i)
  {}

  lemma AliveAfter<R>(q: Queue<R>, e: Event<R>)
    requires QueueMachine.Enabled(q, e)
    ensures q.alive - (if e.DropHandle? then {e.h} else {}) <= QueueMachine.Step(q, e).alive
    ensures QueueMachine.Step(q, e).capacity == q.capacity
  {}

  lemma QueuedAlone<R>(q: Queue<R>, t: nat)
    requires Inv(q) && HasRing(q, t) && q.registry == [q.slots[t]]
    ensures Queued(q) == [Delivered(q, t)]
  {
  }

  lemma SeedQueued<R>(q: Queue<R>, t: nat, extra: seq<int>, p: int -> bool)
    requires SeedResult(q, |extra|, t, extra)
    ensures CountAll(Queued(q), p) == Count(extra[..|extra| - |extra| % BATCH], p)
  {
    hide Inv;
    if extra != [] { QueuedAlone(q, t); }
  }

  /** Seeding loses track of no buffer. */
  lemma SeedResultHolds<R>(q: Queue<R>, t: nat, extra: seq<int>, p: int -> bool)
    requires SeedResult(q, |extra|, t, extra)
    ensures Inv(q) && q.capacity == |extra| && Held(q, p) == Count(extra, p)
  {
    hide Inv;
    var m := |extra| - |extra| % BATCH;
    assert extra == extra[..m] + extra[m..];
    CountConcat(extra[..m], extra[m..], p);
    SeedQueued(q, t, extra, p);
    assert CountAll(q.batches, p) == 0 && Count(q.cached, p) == 0;
  }

  lemma {:induction false} DistinctCount(s: seq<int>, v: int)
    requires Distinct(s)
    ensures Count(s, x => x == v) == if v in s then 1 else 0
  {
    if s != [] {
      DistinctCount(s[..|s| - 1], v);
      assert s == s[..|s| - 1] + [s[|s| - 1]];
    }
  }

  lemma {:induction false} CountAllAtMostOnce(ss: seq<seq<int>>, p: int -> bool, i: nat, k: nat, j: nat, l: nat)
    requires CountAll(ss, p) <= 1 && i < |ss| && k < |ss[i]| && j < |ss| && l < |ss[j]|
    requires p(ss[i][k]) && p(ss[j][l])
    ensures i == j && k == l
  {
    CountAllMember(ss, i, p);
    if i == j {
      if k < l { CountAtMostOnce(ss[i], p, k, l); } else if l < k { CountAtMostOnce(ss[i], p, l, k); }
    } else {
      var rest := ss[..i] + ss[i + 1..];
      var j' := if j < i then j else j - 1;
      CountAllAt(ss, i, p);
      CountAllMember(rest, j', p);
      CountAt(ss[i], k, p);
      CountAt(ss[j], l, p);
    }
  }
}
