/** A burst of pushes ended by a flush, as in the recycling of transmitted frames: exactly what it loses. */
module QueueBursts {
  import opened Bags
  import opened QueueMachine
  import opened QueueAccounting
  import opened QueueProperties

  predicate CanBurst<R(==)>(q: Queue<R>, h: nat, t: nat, r: R) {
    && h in q.alive && h < |q.batches|
    && (if t in q.slots then q.slots[t] in q.rings
        else r !in q.rings && q.drain.None? && |q.registry| < MAX_RINGS)
  }

  /** Pushing the elements of `xs` one after the other. */
  function PushAll<R>(q: Queue<R>, h: nat, t: nat, r: R, xs: seq<int>): (q': Queue<R>)
    requires CanBurst(q, h, t, r)
    ensures CanBurst(q', h, t, r)
  {
    if xs == [] then q else PushCall(PushAll(q, h, t, r, xs[..|xs| - 1]), h, t, r, xs[|xs| - 1])
  }

  function Burst<R>(q: Queue<R>, h: nat, t: nat, r: R, xs: seq<int>): Queue<R>
    requires CanBurst(q, h, t, r)
  {
    FlushCall(PushAll(q, h, t, r, xs), h, t, r)
  }

  /** `q` is `q0` after `more` was moved through the batch of `h` towards the ring of thread `t`. */
  ghost predicate Moved<R>(q0: Queue<R>, q: Queue<R>, h: nat, t: nat, more: seq<int>) {
    && Inv(q) && h < |q.batches| && q.capacity == q0.capacity && q.discarded == q0.discarded && q.alive == q0.alive
    && Delivered(q, t) + q.batches[h] == Delivered(q0, t) + more
    && |Delivered(q, t)| == BATCH * GroupCount(q, t)
    && |Delivered(q0, t)| == BATCH * GroupCount(q0, t) && GroupCount(q0, t) <= GroupCount(q, t)
    && q.cached == q0.cached && q.popped == q0.popped && q.drain == q0.drain
  }

  lemma {:induction false} StartMoved<R>(q: Queue<R>, h: nat, t: nat)
    requires Inv(q) && h < |q.batches|
    ensures Moved(q, q, h, t, q.batches[h])
  {
    if HasRing(q, t) { FlattenLength(q.rings[q.slots[t]].groups); }
  }

  lemma {:induction false} MovedEnsure<R>(q0: Queue<R>, q: Queue<R>, h: nat, t: nat, r: R, more: seq<int>)
    requires Moved(q0, q, h, t, more) && CanBurst(q, h, t, r) && q.batches[h] != []
    ensures CanEnsure(q, h, t, r)
    ensures var q' := Ensured(q, h, t, r);
      Moved(q0, q', h, t, more) && t in q'.slots && HasRing(q', t) && q'.batches == q.batches && h in q'.alive
  {
    hide Inv, Held;
    EnsuredKeeps(q, h, t, r, x => true);
  }

  /** A full batch finds room as long as all the elements moved fit into the ring. */
  lemma {:induction false} MovedFlush<R>(q0: Queue<R>, q: Queue<R>, h: nat, t: nat, more: seq<int>)
    requires Moved(q0, q, h, t, more) && HasRing(q, t) && |q.batches[h]| == BATCH
    requires GroupCount(q0, t) + |more| / BATCH <= q0.capacity
    ensures var q' := Flushed(q, h, t); Moved(q0, q', h, t, more) && q'.batches[h] == []
  {
    var groups := q.rings[q.slots[t]].groups;
    assert |more| == BATCH * (GroupCount(q, t) + 1 - GroupCount(q0, t));
    FlushedInv(q, h, t);
    FlushAllOrNothing(q, h, t);
    hide Inv, Flushed;
    FlattenConcat(groups, [q.batches[h]]);
    assert Flatten([q.batches[h]]) == q.batches[h];
    assert Delivered(Flushed(q, h, t), t) + [] == Delivered(q, t) + q.batches[h];
  }

  lemma {:induction false} MovedAppend<R>(q0: Queue<R>, q: Queue<R>, h: nat, t: nat, more: seq<int>, x: int)
    requires Moved(q0, q, h, t, more) && h in q.alive && |q.batches[h]| < BATCH
    ensures Moved(q0, Step(q, Push(h, t, x)), h, t, more + [x])
  {
    StepInv(q, Push(h, t, x));
    hide Inv;
    assert Delivered(q, t) + (q.batches[h] + [x]) == (Delivered(q, t) + q.batches[h]) + [x];
    assert Delivered(q0, t) + (more + [x]) == (Delivered(q0, t) + more) + [x];
  }

  lemma {:induction false} MovedPushFull<R>(q0: Queue<R>, q: Queue<R>, h: nat, t: nat, r: R, more: seq<int>, x: int)
    requires Moved(q0, q, h, t, more) && CanBurst(q, h, t, r) && GroupCount(q0, t) + |more| / BATCH <= q0.capacity
    requires |q.batches[h]| == BATCH
    ensures Moved(q0, PushCall(q, h, t, r, x), h, t, more + [x])
  {
    hide Inv, Flushed, Ensured, PushCall, Delivered;
    CallsAre(q, h, t, r, x);
    MovedEnsure(q0, q, h, t, r, more);
    MovedFlush(q0, Ensured(q, h, t, r), h, t, more);
    FlushedKeepsAlive(Ensured(q, h, t, r), h, t);
    MovedAppend(q0, Flushed(Ensured(q, h, t, r), h, t), h, t, more, x);
  }

  lemma {:induction false} MovedPush<R>(q0: Queue<R>, q: Queue<R>, h: nat, t: nat, r: R, more: seq<int>, x: int)
    requires Moved(q0, q, h, t, more) && CanBurst(q, h, t, r) && GroupCount(q0, t) + |more| / BATCH <= q0.capacity
    ensures var q' := PushCall(q, h, t, r, x); Moved(q0, q', h, t, more + [x]) && q'.batches[h] != []
  {
    hide Inv, Flushed, Ensured, Delivered;
    BatchFits(q, h);
    CallsAre(q, h, t, r, x);
    if |q.batches[h]| == BATCH {
      MovedPushFull(q0, q, h, t, r, more, x);
    } else {
      MovedAppend(q0, q, h, t, more, x);
    }
  }

  lemma CallsAre<R>(q: Queue<R>, h: nat, t: nat, r: R, x: int)
    requires Inv(q) && CanBurst(q, h, t, r)
    ensures |q.batches[h]| < BATCH ==> PushCall(q, h, t, r, x) == Step(q, Push(h, t, x))
    ensures |q.batches[h]| == BATCH ==>
      CanEnsure(q, h, t, r) && CanFlush(Ensured(q, h, t, r), h, t)
      && var q' := Flushed(Ensured(q, h, t, r), h, t);
         Enabled(q', Push(h, t, x)) && PushCall(q, h, t, r, x) == Step(q', Push(h, t, x))
    ensures q.batches[h] == [] ==> FlushCall(q, h, t, r) == q
    ensures q.batches[h] != [] ==>
      CanEnsure(q, h, t, r) && CanFlush(Ensured(q, h, t, r), h, t)
      && FlushCall(q, h, t, r) == Flushed(Ensured(q, h, t, r), h, t)
  {}

  lemma FlushedKeepsAlive<R>(q: Queue<R>, h: nat, t: nat)
    requires CanFlush(q, h, t) && h in q.alive
    ensures h in Flushed(q, h, t).alive && Flushed(q, h, t).batches == q.batches[h := []]
  {}

  lemma {:induction false} PushAllMoves<R>(q: Queue<R>, h: nat, t: nat, r: R, xs: seq<int>)
    requires Inv(q) && CanBurst(q, h, t, r)
    requires GroupCount(q, t) + (|q.batches[h]| + |xs|) / BATCH <= q.capacity
    ensures Moved(q, PushAll(q, h, t, r, xs), h, t, q.batches[h] + xs)
    ensures xs != [] ==> PushAll(q, h, t, r, xs).batches[h] != []
  {
    hide Inv, Moved;
    if xs == [] {
      StartMoved(q, h, t);
      assert q.batches[h] + [] == q.batches[h];
    } else {
      var front, x := xs[..|xs| - 1], xs[|xs| - 1];
      PushAllMoves(q, h, t, r, front);
      MovedPush(q, PushAll(q, h, t, r, front), h, t, r, q.batches[h] + front, x);
      assert q.batches[h] + xs == (q.batches[h] + front) + [x];
    }
  }

  lemma {:induction false} WholeGroupsFirst(done: seq<int>, done0: seq<int>, rest: seq<int>, more: seq<int>, a: nat, b: nat)
    requires done + rest == done0 + more && |rest| < BATCH && |done| == BATCH * a && |done0| == BATCH * b && b <= a
    ensures var k := |more| % BATCH; done == done0 + more[..|more| - k] && rest == more[|more| - k..]
  {
    assert |more| == BATCH * (a - b) + |rest|;
    assert |more| % BATCH == |rest|;
    var m := |more| - |rest|;
    assert (done0 + more)[..|done|] == done0 + more[..m];
    assert (done0 + more)[|done|..] == more[m..];
    assert (done + rest)[..|done|] == done && (done + rest)[|done|..] == rest;
  }

  lemma {:induction false} MovedDone<R>(q0: Queue<R>, q: Queue<R>, h: nat, t: nat, more: seq<int>)
    requires Moved(q0, q, h, t, more) && q.batches[h] == []
    ensures BurstResult(q0, q, h, t, more)
  {
    hide Inv;
    WholeGroupsFirst(Delivered(q, t), Delivered(q0, t), [], more, GroupCount(q, t), GroupCount(q0, t));
  }

  lemma {:induction false} MovedEnd<R>(q0: Queue<R>, q: Queue<R>, h: nat, t: nat, r: R, more: seq<int>)
    requires Moved(q0, q, h, t, more) && CanBurst(q, h, t, r)
    requires GroupCount(q0, t) + |more| / BATCH <= q0.capacity
    ensures BurstResult(q0, FlushCall(q, h, t, r), h, t, more)
  {
    BatchFits(q, h);
    CallsAre(q, h, t, r, 0);
    hide Inv, Flushed, Ensured, FlushCall;
    var d0 := Delivered(q0, t);
    if q.batches[h] == [] {
      MovedDone(q0, q, h, t, more);
    } else {
      MovedEnsure(q0, q, h, t, r, more);
      var q1 := Ensured(q, h, t, r);
      if |q.batches[h]| == BATCH {
        MovedFlush(q0, q1, h, t, more);
        var q2 := Flushed(q1, h, t);
        WholeGroupsFirst(Delivered(q2, t), d0, [], more, GroupCount(q2, t), GroupCount(q0, t));
      } else {
        WholeGroupsFirst(Delivered(q1, t), d0, q.batches[h], more, GroupCount(q1, t), GroupCount(q0, t));
        FlushShort(q1, h, t);
        FlushedInv(q1, h, t);
      }
    }
  }

  /** Of `more` all whole groups were delivered to the ring of thread `t`, in order, and the rest was discarded. */
  ghost predicate BurstResult<R>(q0: Queue<R>, q: Queue<R>, h: nat, t: nat, more: seq<int>) {
    var m := |more| - |more| % BATCH;
    && Inv(q) && h < |q.batches| && q.batches[h] == []
    && Delivered(q, t) == Delivered(q0, t) + more[..m]
    && q.discarded == q0.discarded + more[m..]
    && q.cached == q0.cached && q.popped == q0.popped && q.drain == q0.drain && q.alive == q0.alive
  }

  /**
    Pushing `xs` on a handle that already holds a batch, and flushing: whole groups of the batch followed by `xs`
    are delivered in order, and exactly the last (|batch| + |xs|) mod 16 of them are lost.
  */
  lemma {:induction false} BurstDelivers<R>(q: Queue<R>, h: nat, t: nat, r: R, xs: seq<int>)
    requires Inv(q) && CanBurst(q, h, t, r)
    requires GroupCount(q, t) + (|q.batches[h]| + |xs|) / BATCH <= q.capacity
    ensures BurstResult(q, Burst(q, h, t, r, xs), h, t, q.batches[h] + xs)
  {
    PushAllMoves(q, h, t, r, xs);
    MovedEnd(q, PushAll(q, h, t, r, xs), h, t, r, q.batches[h] + xs);
  }

  /** Such a burst loses nothing exactly when the batch and the new elements together make whole groups. */
  lemma {:induction false} BurstLosesNothingIff<R>(q: Queue<R>, h: nat, t: nat, r: R, xs: seq<int>)
    requires Inv(q) && CanBurst(q, h, t, r)
    requires GroupCount(q, t) + (|q.batches[h]| + |xs|) / BATCH <= q.capacity
    ensures Burst(q, h, t, r, xs).discarded == q.discarded <==> (|q.batches[h]| + |xs|) % BATCH == 0
  {
    hide Burst, Delivered, Inv;
    BurstDelivers(q, h, t, r, xs);
  }

  // ----- a burst as the program performs it ------------------------------------------------------------

  /** Elements pushed while the batch has room and the thread has no ring yet. */
  function Quiet<R>(q: Queue<R>, h: nat, xs: seq<int>): Queue<R>
    requires h < |q.batches|
  {
    q.(batches := q.batches[h := q.batches[h] + xs], pushed := q.pushed + xs)
  }

  lemma {:induction false} PushAllQuiet<R>(q: Queue<R>, h: nat, t: nat, r: R, xs: seq<int>)
    requires CanBurst(q, h, t, r) && |q.batches[h]| + |xs| <= BATCH
    ensures PushAll(q, h, t, r, xs) == Quiet(q, h, xs)
  {
    if xs == [] {
      assert q.batches[h] + [] == q.batches[h] && q.pushed + [] == q.pushed;
    } else {
      var front, x := xs[..|xs| - 1], xs[|xs| - 1];
      PushAllQuiet(q, h, t, r, front);
      assert xs == front + [x];
      assert q.batches[h] + xs == (q.batches[h] + front) + [x] && q.pushed + xs == (q.pushed + front) + [x];
    }
  }

  lemma {:induction false} PushAllInv<R>(q: Queue<R>, h: nat, t: nat, r: R, xs: seq<int>)
    requires Inv(q) && CanBurst(q, h, t, r)
    ensures Inv(PushAll(q, h, t, r, xs)) && (xs != [] ==> PushAll(q, h, t, r, xs).batches[h] != [])
  {
    if xs != [] {
      var front, x := xs[..|xs| - 1], xs[|xs| - 1];
      PushAllInv(q, h, t, r, front);
      PushCallKeeps(PushAll(q, h, t, r, front), h, t, r, x, y => true);
      BatchFits(PushAll(q, h, t, r, front), h);
      hide Inv;
    }
  }

  lemma {:induction false} BurstInv<R>(q: Queue<R>, h: nat, t: nat, r: R, xs: seq<int>)
    requires Inv(q) && CanBurst(q, h, t, r)
    ensures Inv(Burst(q, h, t, r, xs))
  {
    hide Inv;
    PushAllInv(q, h, t, r, xs);
    FlushCallKeeps(PushAll(q, h, t, r, xs), h, t, r, x => true);
  }

  /** `q` is what pushing `xs` on handle `h` by thread `t` makes of `q0`; the ring is known once the thread has one. */
  ghost predicate PushedSoFar<R>(q0: Queue<R>, q: Queue<R>, h: nat, t: nat, xs: seq<int>) {
    && Inv(q0) && Inv(q) && h in q0.alive && h in q.alive && h < |q0.batches| && h < |q.batches|
    && q0.drain == None && q.drain == None
    && if t in q.slots then CanBurst(q0, h, t, q.slots[t]) && q == PushAll(q0, h, t, q.slots[t], xs)
       else t !in q0.slots && |q0.batches[h]| + |xs| <= BATCH && q == Quiet(q0, h, xs)
  }

  lemma PushedNothing<R>(q: Queue<R>, h: nat, t: nat)
    requires Inv(q) && h in q.alive && h < |q.batches| && q.drain == None
    ensures PushedSoFar(q, q, h, t, [])
  {
    assert q.batches[h] + [] == q.batches[h] && q.pushed + [] == q.pushed;
    if t in q.slots { assert q.slots[t] in q.slots.Values; }
  }

  lemma PrefixOfSnoc(xs: seq<int>, x: int)
    ensures (xs + [x])[..|xs + [x]| - 1] == xs && (xs + [x])[|xs + [x]| - 1] == x
  {}

  lemma PushAllSnoc<R>(q: Queue<R>, h: nat, t: nat, r: R, xs: seq<int>, x: int)
    requires CanBurst(q, h, t, r)
    ensures PushAll(q, h, t, r, xs + [x]) == PushCall(PushAll(q, h, t, r, xs), h, t, r, x)
  {
    PrefixOfSnoc(xs, x);
  }

  lemma CallKeepsControl<R>(q: Queue<R>, h: nat, t: nat, r: R, x: int)
    requires CanBurst(q, h, t, r) && q.drain == None
    ensures var q' := PushCall(q, h, t, r, x);
      q'.drain == None && h in q'.alive && h < |q'.batches| && (t in q.slots ==> q'.slots == q.slots)
      && (|q.batches[h]| >= BATCH ==> t in q'.slots)
  {}

  /** A thread that has a ring keeps it. */
  lemma CallsKeepSlots<R>(q: Queue<R>, h: nat, t: nat, r: R, x: int)
    requires CanEnsure(q, h, t, r) && h in q.alive && h < |q.batches|
    ensures t in q.slots ==> PushCall(q, h, t, r, x).slots == q.slots && FlushCall(q, h, t, r).slots == q.slots
  {}

  /** One more push while the batch has room. */
  lemma {:induction false} PushedOneQuiet<R>(q0: Queue<R>, q: Queue<R>, h: nat, t: nat, xs: seq<int>, x: int)
    requires PushedSoFar(q0, q, h, t, xs) && |q.batches[h]| < BATCH
    ensures PushedSoFar(q0, Step(q, Push(h, t, x)), h, t, xs + [x])
  {
    StepInv(q, Push(h, t, x));
    hide Inv;
    if t in q.slots {
      PushAllSnoc(q0, h, t, q.slots[t], xs, x);
    } else {
      assert q0.batches[h] + (xs + [x]) == (q0.batches[h] + xs) + [x] && q0.pushed + (xs + [x]) == (q0.pushed + xs) + [x];
    }
  }

  lemma QuietAllows<R>(q0: Queue<R>, q: Queue<R>, h: nat, t: nat, r: R, xs: seq<int>)
    requires PushedSoFar(q0, q, h, t, xs) && CanEnsure(q, h, t, r) && (t in q.slots ==> r == q.slots[t])
    ensures CanBurst(q0, h, t, r) && q == PushAll(q0, h, t, r, xs) && CanBurst(q, h, t, r)
  {
    hide Inv;
    if t !in q.slots { PushAllQuiet(q0, h, t, r, xs); }
  }

  /** One more push onto a full batch, which flushes it to the ring `r`. */
  lemma {:induction false} PushedOneFull<R>(q0: Queue<R>, q: Queue<R>, h: nat, t: nat, r: R, xs: seq<int>, x: int)
    requires PushedSoFar(q0, q, h, t, xs) && |q.batches[h]| == BATCH && CanEnsure(q, h, t, r)
    requires t in q.slots ==> r == q.slots[t]
    ensures CanBurst(q, h, t, r)
    ensures var q' := PushCall(q, h, t, r, x);
      t in q'.slots && (q'.slots[t] == r ==> PushedSoFar(q0, q', h, t, xs + [x]))
  {
    hide Inv;
    QuietAllows(q0, q, h, t, r, xs);
    PushCallKeeps(q, h, t, r, x, y => true);
    CallKeepsControl(q, h, t, r, x);
    PushAllSnoc(q0, h, t, r, xs, x);
  }

  /** The final flush of a burst that pushed something. */
  lemma {:induction false} PushedEnd<R>(q0: Queue<R>, q: Queue<R>, h: nat, t: nat, r: R, xs: seq<int>)
    requires PushedSoFar(q0, q, h, t, xs) && xs != [] && CanEnsure(q, h, t, r) && (t in q.slots ==> r == q.slots[t])
    ensures q.batches[h] != []
    ensures CanFlushCall(q, h, t, r) && CanBurst(q0, h, t, r) && FlushCall(q, h, t, r) == Burst(q0, h, t, r, xs)
  {
    hide Inv;
    QuietAllows(q0, q, h, t, r, xs);
    PushAllInv(q0, h, t, r, xs);
  }

  lemma {:induction false} PushedBatch<R>(q0: Queue<R>, q: Queue<R>, h: nat, t: nat, xs: seq<int>)
    requires PushedSoFar(q0, q, h, t, xs) && xs != []
    ensures q.batches[h] != []
  {
    hide Inv;
    if t in q.slots { PushAllInv(q0, h, t, q.slots[t], xs); }
  }

  lemma {:induction false} PushAllKeepsDrain<R>(q: Queue<R>, h: nat, t: nat, r: R, xs: seq<int>)
    requires CanBurst(q, h, t, r) && q.drain == None
    ensures PushAll(q, h, t, r, xs).drain == None
  {
    if xs != [] {
      PushAllKeepsDrain(q, h, t, r, xs[..|xs| - 1]);
      CallKeepsControl(PushAll(q, h, t, r, xs[..|xs| - 1]), h, t, r, xs[|xs| - 1]);
    }
  }

  lemma {:induction false} BurstKeepsDrain<R>(q: Queue<R>, h: nat, t: nat, r: R, xs: seq<int>)
    requires CanBurst(q, h, t, r) && q.drain == None
    ensures Burst(q, h, t, r, xs).drain == None
  {
    PushAllKeepsDrain(q, h, t, r, xs);
  }
}
