/** Exact accounting of the queue: nothing appears, nothing disappears except into `discarded`. */
module QueueAccounting {
  import opened Bags
  import opened QueueMachine

  /** What each registered ring holds, in registry order. */
  function Queued<R>(q: Queue<R>): seq<seq<int>> {
    seq(|q.registry|, i requires 0 <= i < |q.registry| =>
      if q.registry[i] in q.rings then Flatten(q.rings[q.registry[i]].groups) else [])
  }

  /** How many elements satisfying `p` are in the queue and have not been discarded. */
  function Inside<R>(q: Queue<R>, p: int -> bool): nat {
    CountAll(q.batches, p) + CountAll(Queued(q), p) + Count(q.cached, p)
  }

  function Held<R>(q: Queue<R>, p: int -> bool): nat {
    Inside(q, p) + Count(q.discarded, p)
  }

  function In<R>(e: Event<R>, p: int -> bool): nat {
    if e.Push? && p(e.x) then 1 else 0
  }

  function Out<R>(q: Queue<R>, e: Event<R>, p: int -> bool): nat
    requires Enabled(q, e)
  {
    if e.PopCached? && p(q.cached[|q.cached| - 1]) then 1 else 0
  }

  /** Replacing the groups of one registered ring. */
  lemma RingCounts<R>(q: Queue<R>, q': Queue<R>, r: R, p: int -> bool)
    requires Inv(q) && r in q.rings && q'.registry == q.registry && r in q'.rings
    requires q'.rings == q.rings[r := q'.rings[r]]
    ensures CountAll(Queued(q'), p) + CountAll(q.rings[r].groups, p)
         == CountAll(Queued(q), p) + CountAll(q'.rings[r].groups, p)
  {
    assert r in (set x | x in q.registry);
    var k :| 0 <= k < |q.registry| && q.registry[k] == r;
    var new' := Flatten(q'.rings[r].groups);
    assert Queued(q') == Queued(q)[k := new'];
    CountAllUpdate(Queued(q), k, new', p);
    CountFlatten(q.rings[r].groups, p);
    CountFlatten(q'.rings[r].groups, p);
  }

  lemma FlushedCounts<R>(q: Queue<R>, h: nat, t: nat, p: int -> bool)
    requires Inv(q) && CanFlush(q, h, t)
    ensures Held(Flushed(q, h, t), p) == Held(q, p)
  {
    var q', b := Flushed(q, h, t), q.batches[h];
    if b != [] {
      var r, data := q.slots[t], ToSimd(b);
      var n := Accepted(q.rings[r].groups, q.capacity, |data|);
      ToSimdGroups(b);
      RingCounts(q, q', r, p);
      CountAllUpdate(q.batches, h, [], p);
      CountAllConcat(q.rings[r].groups, data[..n], p);
      CountAllSplit(data, n, p);
      CountFlatten(data[n..], p);
      CountFlatten(data, p);
      CountConcat(Flatten(data), Remainder(b), p);
      CountConcat(q.discarded + Flatten(data[n..]), Remainder(b), p);
      CountConcat(q.discarded, Flatten(data[n..]), p);
    }
  }

  lemma PushCounts<R>(q: Queue<R>, h: nat, t: nat, x: int, p: int -> bool)
    requires Inv(q) && Enabled(q, Push(h, t, x))
    ensures Held(Step(q, Push(h, t, x)), p) == Held(q, p) + (if p(x) then 1 else 0)
  {
    var q1 := if |q.batches[h]| < BATCH then q else Flushed(q, h, t);
    if |q.batches[h]| >= BATCH { FlushedCounts(q, h, t, p); }
    assert Queued(Step(q, Push(h, t, x))) == Queued(q1);
    CountAllUpdate(q1.batches, h, q1.batches[h] + [x], p);
    CountSnoc(q1.batches[h], x, p);
  }

  lemma DrainCounts<R>(q: Queue<R>, p: int -> bool)
    requires Inv(q) && Enabled(q, DrainRing)
    ensures Held(Step(q, DrainRing), p) == Held(q, p)
  {
    var q', r := Step(q, DrainRing), q.registry[q.drain.value];
    var groups := q.rings[r].groups;
    var n := Min(CacheRoom(q.cached), |groups|);
    RingCounts(q, q', r, p);
    CountAllSplit(groups, n, p);
    CountFlatten(groups[..n], p);
    CountConcat(q.cached, Flatten(groups[..n]), p);
  }

  lemma QueuedUnregistered<R>(q: Queue<R>, t: nat, k: nat)
    requires Inv(q) && Enabled(q, Unregister(t)) && k < |q.registry| && q.registry[k] == q.slots[t]
    ensures Queued(Step(q, Unregister(t))) == Queued(q)[..k] + Queued(q)[k + 1..]
  {
    WithoutRemovesOne(q.registry, k);
    var q', r := Step(q, Unregister(t)), q.slots[t];
    assert q'.registry == q.registry[..k] + q.registry[k + 1..] && q'.rings == q.rings - {r};
    QueuedWithout(q, q', r, k);
  }

  lemma QueuedWithout<R>(q: Queue<R>, q': Queue<R>, r: R, k: nat)
    requires k < |q.registry| && q.registry[k] == r && Distinct(q.registry)
    requires q'.registry == q.registry[..k] + q.registry[k + 1..] && q'.rings == q.rings - {r}
    ensures Queued(q') == Queued(q)[..k] + Queued(q)[k + 1..]
  {
    forall i | 0 <= i < |q'.registry|
      ensures Queued(q')[i] == (Queued(q)[..k] + Queued(q)[k + 1..])[i]
    {
      var j := if i < k then i else i + 1;
      assert q'.registry[i] == q.registry[j] && q.registry[j] != r;
    }
  }

  lemma UnregisterCounts<R>(q: Queue<R>, t: nat, p: int -> bool)
    requires Inv(q) && Enabled(q, Unregister(t))
    ensures Held(Step(q, Unregister(t)), p) == Held(q, p)
  {
    var r := q.slots[t];
    assert r in (set x | x in q.registry);
    var k :| 0 <= k < |q.registry| && q.registry[k] == r;
    QueuedUnregistered(q, t, k);
    CountAllAt(Queued(q), k, p);
    CountConcat(q.discarded, Flatten(q.rings[r].groups), p);
    CountFlatten(q.rings[r].groups, p);
  }

  lemma RegisterCounts<R>(q: Queue<R>, h: nat, t: nat, r: R, p: int -> bool)
    requires Inv(q) && Enabled(q, Register(h, t, r))
    ensures Held(Step(q, Register(h, t, r)), p) == Held(q, p)
  {
    assert r !in (set x | x in q.registry);
    assert Queued(Step(q, Register(h, t, r))) == Queued(q) + [[]];
    CountAllConcat(Queued(q), [[]], p);
  }

  lemma PopCounts<R>(q: Queue<R>, p: int -> bool)
    requires Inv(q) && Enabled(q, PopCached)
    ensures Held(Step(q, PopCached), p) + Out(q, PopCached, p) == Held(q, p)
  {
    var q', last := Step(q, PopCached), |q.cached| - 1;
    SameRings(q, q');
    assert q.cached == q.cached[..last] + [q.cached[last]];
  }

  lemma SameRings<R>(q: Queue<R>, q': Queue<R>)
    requires q'.registry == q.registry && q'.rings == q.rings
    ensures Queued(q') == Queued(q)
  {}

  /** One step moves elements between places without creating or losing any. */
  lemma {:induction false} StepCounts<R>(q: Queue<R>, e: Event<R>, p: int -> bool)
    requires Inv(q) && Enabled(q, e)
    ensures Held(Step(q, e), p) + Out(q, e, p) == Held(q, p) + In(e, p)
  {
    hide Inv, Flushed, Queued;
    match e
    case Register(h, t, r) => RegisterCounts(q, h, t, r, p);
    case Push(h, t, x) => PushCounts(q, h, t, x, p);
    case Flush(h, t) => FlushedCounts(q, h, t, p);
    case CloneHandle(_) =>
      CountAllConcat(q.batches, [[]], p);
      SameRings(q, Step(q, e));
    case DropHandle(h, t) =>
      FlushedCounts(q, h, t, p);
      SameRings(Flushed(q, h, t), Step(q, e));
    case Unregister(t) => UnregisterCounts(q, t, p);
    case DrainBegin => SameRings(q, Step(q, e));
    case DrainRing => DrainCounts(q, p);
    case DrainEnd => SameRings(q, Step(q, e));
    case PopCached => PopCounts(q, p);
  }

  /** The histories account for every element: pushed = popped + cached + in rings + in local batches + discarded. */
  ghost predicate Accounted<R>(q: Queue<R>, p: int -> bool) {
    Count(q.pushed, p) == Count(q.popped, p) + Held(q, p)
  }

  lemma StepAccounted<R>(q: Queue<R>, e: Event<R>, p: int -> bool)
    requires Inv(q) && Accounted(q, p) && Enabled(q, e)
    ensures Accounted(Step(q, e), p)
  {
    StepCounts(q, e, p);
    if e.Push? {
      CountSnoc(q.pushed, e.x, p);
    } else if e.PopCached? {
      CountSnoc(q.popped, q.cached[|q.cached| - 1], p);
    }
  }

  lemma {:induction false} RunAccounted<R>(q: Queue<R>, es: seq<Event<R>>, p: int -> bool)
    requires Inv(q) && Accounted(q, p) && Legal(q, es)
    ensures Accounted(Exec(q, es), p)
    decreases |es|
  {
    if es != [] {
      StepInv(q, es[0]);
      StepAccounted(q, es[0], p);
      RunAccounted(Step(q, es[0]), es[1..], p);
    }
  }

  /**
    Exact accounting in every reachable state, for any number of threads, handles and clones: every value
    was pushed exactly as often as it was popped, sits in the cache, a ring or a batch, or was discarded.
  */
  lemma {:induction false} Accounting<R>(capacity: nat, es: seq<Event<R>>, v: int)
    requires Legal(New<R>(capacity), es)
    ensures var q := Exec(New<R>(capacity), es);
      multiset(q.pushed)[v] == multiset(q.popped)[v] + multiset(q.cached)[v] + multiset(q.discarded)[v]
        + multiset(Flatten(Queued(q)))[v] + multiset(Flatten(q.batches))[v]
  {
    var q0: Queue<R> := New(capacity);
    NewInv<R>(capacity);
    assert Queued(q0) == [];
    RunAccounted(q0, es, x => x == v);
    var q := Exec(q0, es);
    CountIsMultiplicity(q.pushed, v);
    CountIsMultiplicity(q.popped, v);
    CountIsMultiplicity(q.cached, v);
    CountIsMultiplicity(q.discarded, v);
    CountFlatten(Queued(q), x => x == v);
    CountFlatten(q.batches, x => x == v);
    CountIsMultiplicity(Flatten(Queued(q)), v);
    CountIsMultiplicity(Flatten(q.batches), v);
  }
}
