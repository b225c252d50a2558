/** What the queue guarantees: where losses come from, seeding, drain order, room for every batch, registry. */
module QueueProperties {
  import opened Bags
  import opened QueueMachine
  import opened QueueAccounting

  // ----- whole calls as sequences of steps -----------------------------------------------------------

  /** The first flush on a thread creates and registers its ring. */
  function Ensured<R>(q: Queue<R>, h: nat, t: nat, r: R): Queue<R>
    requires t in q.slots || Enabled(q, Register(h, t, r))
  {
    if t in q.slots then q else Step(q, Register(h, t, r))
  }

  predicate CanEnsure<R(==)>(q: Queue<R>, h: nat, t: nat, r: R) {
    if t in q.slots then q.slots[t] in q.rings else Enabled(q, Register(h, t, r))
  }

  predicate CanPush<R(==)>(q: Queue<R>, h: nat, t: nat, r: R) {
    h in q.alive && h < |q.batches| && (|q.batches[h]| >= BATCH ==> CanEnsure(q, h, t, r))
  }

  /** `Producer::push`: one retry after a flush when the local batch is full. */
  function PushCall<R>(q: Queue<R>, h: nat, t: nat, r: R, x: int): Queue<R>
    requires CanPush(q, h, t, r)
  {
    Step(if |q.batches[h]| < BATCH then q else Ensured(q, h, t, r), Push(h, t, x))
  }

  predicate CanFlushCall<R(==)>(q: Queue<R>, h: nat, t: nat, r: R) {
    h in q.alive && h < |q.batches| && (q.batches[h] != [] ==> CanEnsure(q, h, t, r))
  }

  function FlushCall<R>(q: Queue<R>, h: nat, t: nat, r: R): Queue<R>
    requires CanFlushCall(q, h, t, r)
  {
    if q.batches[h] == [] then q else Step(Ensured(q, h, t, r), Flush(h, t))
  }

  lemma EnsuredKeeps<R>(q: Queue<R>, h: nat, t: nat, r: R, p: int -> bool)
    requires Inv(q) && CanEnsure(q, h, t, r)
    ensures Inv(Ensured(q, h, t, r)) && Held(Ensured(q, h, t, r), p) == Held(q, p)
  {
    if t !in q.slots {
      StepInv(q, Register(h, t, r));
      StepCounts(q, Register(h, t, r), p);
    }
  }

  lemma {:induction false} PushCallKeeps<R>(q: Queue<R>, h: nat, t: nat, r: R, x: int, p: int -> bool)
    requires Inv(q) && CanPush(q, h, t, r)
    ensures Inv(PushCall(q, h, t, r, x))
    ensures Held(PushCall(q, h, t, r, x), p) == Held(q, p) + (if p(x) then 1 else 0)
  {
    hide Inv, Held;
    if |q.batches[h]| < BATCH {
      StepInv(q, Push(h, t, x));
      PushCounts(q, h, t, x, p);
    } else {
      EnsuredKeeps(q, h, t, r, p);
      StepInv(Ensured(q, h, t, r), Push(h, t, x));
      PushCounts(Ensured(q, h, t, r), h, t, x, p);
    }
  }

  lemma {:induction false} FlushCallKeeps<R>(q: Queue<R>, h: nat, t: nat, r: R, p: int -> bool)
    requires Inv(q) && CanFlushCall(q, h, t, r)
    ensures Inv(FlushCall(q, h, t, r))
    ensures Held(FlushCall(q, h, t, r), p) == Held(q, p)
  {
    hide Inv, Held;
    if q.batches[h] != [] {
      EnsuredKeeps(q, h, t, r, p);
      FlushedInv(Ensured(q, h, t, r), h, t);
      FlushedCounts(Ensured(q, h, t, r), h, t, p);
    }
  }

  // ----- losses ----------------------------------------------------------------------------------------

  /** Exactly what one flush of `h` into the ring of thread `t` loses. */
  function Loss<R>(q: Queue<R>, h: nat, t: nat): seq<int>
    requires CanFlush(q, h, t)
  {
    var b := q.batches[h];
    if b == [] || (|b| == BATCH && |q.rings[q.slots[t]].groups| < q.capacity) then [] else b
  }

  /** A flush hands over all 16 elements as one group, or it loses the whole batch: a remainder, or a refused group. */
  lemma FlushAllOrNothing<R>(q: Queue<R>, h: nat, t: nat)
    requires Inv(q) && CanFlush(q, h, t)
    ensures var q' := Flushed(q, h, t); var b := q.batches[h];
      && q'.discarded == q.discarded + Loss(q, h, t)
      && q'.batches == q.batches[h := []]
      && (b != [] ==> var r := q.slots[t];
          q'.rings[r].groups == q.rings[r].groups + if Loss(q, h, t) == [] then [b] else [])
      && |Remainder(b)| == |b| % BATCH
  {
    var b := q.batches[h];
    ToSimdGroups(b);
    if |b| == BATCH {
      assert b[..BATCH] == b && ToSimd(b) == [b] && Remainder(b) == [];
      assert Flatten([b]) == b;
    } else {
      assert ToSimd(b) == [];
    }
  }

  /** The only causes of loss: a flush remainder, a group refused by a full ring, groups left in an unregistered ring. */
  lemma LossCauses<R>(q: Queue<R>, e: Event<R>)
    requires Inv(q) && Enabled(q, e)
    ensures Step(q, e).discarded == q.discarded +
      match e
      case Push(h, t, _) => if |q.batches[h]| < BATCH then [] else Loss(q, h, t)
      case Flush(h, t) => Loss(q, h, t)
      case DropHandle(h, t) => Loss(q, h, t)
      case Unregister(t) => Flatten(q.rings[q.slots[t]].groups)
      case _ => []
  {
    match e
    case Push(h, t, _) => if |q.batches[h]| >= BATCH { FlushAllOrNothing(q, h, t); }
    case Flush(h, t) => FlushAllOrNothing(q, h, t);
    case DropHandle(h, t) => FlushAllOrNothing(q, h, t);
    case _ =>
  }

  /** A push loses something exactly when it flushes a full batch into a full ring, and then exactly that batch. */
  lemma PushLosesIff<R>(q: Queue<R>, h: nat, t: nat, x: int)
    requires Inv(q) && Enabled(q, Push(h, t, x))
    ensures var q' := Step(q, Push(h, t, x));
      && (q'.discarded != q.discarded <==>
          |q.batches[h]| == BATCH && |q.rings[q.slots[t]].groups| == q.capacity)
      && (q'.discarded != q.discarded ==> q'.discarded == q.discarded + q.batches[h])
      && 1 <= |q'.batches[h]| <= BATCH
  {
    LossCauses(q, Push(h, t, x));
    if |q.batches[h]| >= BATCH { FlushAllOrNothing(q, h, t); }
  }

  // ----- room --------------------------------------------------------------------------------------------

  lemma {:induction false} CountAllMember<E>(ss: seq<seq<E>>, k: nat, p: E -> bool)
    requires k < |ss|
    ensures Count(ss[k], p) <= CountAll(ss, p)
  {
    CountAllAt(ss, k, p);
  }

  function GroupCount<R(==)>(q: Queue<R>, t: nat): nat {
    if HasRing(q, t) then |q.rings[q.slots[t]].groups| else 0
  }

  /** A batch and the ring it goes to are disjoint parts of what is inside the queue. */
  lemma RingAndBatch<R>(q: Queue<R>, h: nat, t: nat)
    requires Inv(q) && h < |q.batches|
    ensures BATCH * GroupCount(q, t) + |q.batches[h]| <= Inside(q, x => true)
  {
    var p := (x: int) => true;
    CountAllMember(q.batches, h, p);
    CountEverything(q.batches[h], p);
    if HasRing(q, t) {
      var r := q.slots[t];
      assert r in (set x | x in q.registry);
      var k :| 0 <= k < |q.registry| && q.registry[k] == r;
      CountAllMember(Queued(q), k, p);
      CountEverything(Queued(q)[k], p);
      FlattenLength(q.rings[r].groups);
    }
  }

  /** While no more than `capacity` elements are inside, every ring has room for a full batch. */
  lemma FullBatchFindsRoom<R>(q: Queue<R>, h: nat, t: nat)
    requires Inv(q) && h < |q.batches| && |q.batches[h]| == BATCH && HasRing(q, t)
    requires Inside(q, x => true) <= q.capacity
    ensures BATCH * |q.rings[q.slots[t]].groups| + BATCH <= q.capacity
    ensures |q.rings[q.slots[t]].groups| < q.capacity
  {
    RingAndBatch(q, h, t);
  }

  // ----- registry ------------------------------------------------------------------------------------------

  /** Registry agreement in every reachable state. */
  lemma RegistryAgreement<R>(capacity: nat, es: seq<Event<R>>)
    requires Legal(New<R>(capacity), es)
    ensures var q := Exec(New<R>(capacity), es);
      && Distinct(q.registry)
      && (set r | r in q.registry) == q.slots.Values == q.rings.Keys
      && (forall t, u :: t in q.slots && u in q.slots && t != u ==> q.slots[t] != q.slots[u])
  {
    NewInv<R>(capacity);
    RunInv(New<R>(capacity), es);
  }

  /** Dropping a per-thread producer deletes exactly its own entry, so `remove`'s length assertion holds. */
  lemma UnregisterDeletesOne<R>(q: Queue<R>, t: nat)
    requires Inv(q) && Enabled(q, Unregister(t))
    ensures var q' := Step(q, Unregister(t));
      exists k :: 0 <= k < |q.registry| && q.registry[k] == q.slots[t]
               && q'.registry == q.registry[..k] + q.registry[k + 1..]
  {
    var r := q.slots[t];
    assert r in (set x | x in q.registry);
    var k :| 0 <= k < |q.registry| && q.registry[k] == r;
    WithoutRemovesOne(q.registry, k);
  }

  // ----- draining --------------------------------------------------------------------------------------------

  /** In every reachable state what was drained from a ring is a prefix of what was enqueued on it, and the rest is still queued in order. */
  lemma DrainedIsPrefix<R>(capacity: nat, es: seq<Event<R>>, r: R)
    requires Legal(New<R>(capacity), es)
    requires r in Exec(New<R>(capacity), es).rings
    ensures var q := Exec(New<R>(capacity), es);
      && q.rings[r].taken <= q.rings[r].sent
      && q.rings[r].groups == q.rings[r].sent[|q.rings[r].taken|..]
      && |q.cached| <= CACHE
  {
    NewInv<R>(capacity);
    RunInv(New<R>(capacity), es);
  }

  /** The contents of the rings and of the cache after a consumer has visited every ring, in registry order. */
  function DrainAll(contents: seq<seq<seq<int>>>, cached: seq<int>): (res: (seq<seq<seq<int>>>, seq<int>))
    ensures |res.0| == |contents|
  {
    if contents == [] then ([], cached) else
    var n := Min(CacheRoom(cached), |contents[0]|);
    var rest := DrainAll(contents[1..], cached + Flatten(contents[0][..n]));
    ([contents[0][n..]] + rest.0, rest.1)
  }

  ghost predicate AllGroups(contents: seq<seq<seq<int>>>) {
    forall i, k :: 0 <= i < |contents| && 0 <= k < |contents[i]| ==> |contents[i][k]| == BATCH
  }

  /**
    A whole drain moves exactly the first groups of the registry-ordered concatenation of all rings, as many
    as fit: it never skips a group, never splits one, and leaves the rest in order.
  */
  lemma {:induction false} DrainAllTakesPrefix(contents: seq<seq<seq<int>>>, cached: seq<int>)
    requires |cached| <= CACHE && AllGroups(contents)
    ensures var res := DrainAll(contents, cached);
      var all := Flatten(contents);
      var m := Min(CacheRoom(cached), |all|);
      && res.1 == cached + Flatten(all[..m])
      && Flatten(res.0) == all[m..]
      && |res.1| <= CACHE
    decreases |contents|
  {
    if contents != [] {
      var first, rest := contents[0], contents[1..];
      var n := Min(CacheRoom(cached), |first|);
      var cached' := cached + Flatten(first[..n]);
      assert |cached'| == |cached| + BATCH * n by { FlattenLength(first[..n]); }
      assert AllGroups(rest) by { assert forall i :: 0 <= i < |rest| ==> rest[i] == contents[i + 1]; }
      DrainAllTakesPrefix(rest, cached');
      DrainFirst(contents, cached, n, DrainAll(rest, cached'));
    }
  }

  /** A whole drain leaves a group behind only when less than a group's room is left in the cache. */
  lemma {:induction false} DrainFills(contents: seq<seq<seq<int>>>, cached: seq<int>)
    requires |cached| <= CACHE && AllGroups(contents)
    ensures var res := DrainAll(contents, cached);
      && |cached| <= |res.1| <= CACHE
      && ((forall i :: 0 <= i < |res.0| ==> res.0[i] == []) || |res.1| + BATCH > CACHE)
    decreases |contents|
  {
    if contents != [] {
      var first, rest := contents[0], contents[1..];
      var n := Min(CacheRoom(cached), |first|);
      var cached' := cached + Flatten(first[..n]);
      FlattenLength(first[..n]);
      assert AllGroups(rest) by { assert forall i :: 0 <= i < |rest| ==> rest[i] == contents[i + 1]; }
      DrainFills(rest, cached');
    }
  }

  /** One ring's share of the whole drain. */
  lemma {:induction false} DrainFirst(contents: seq<seq<seq<int>>>, cached: seq<int>, n: nat,
      rest: (seq<seq<seq<int>>>, seq<int>))
    requires |cached| <= CACHE && contents != [] && n == Min(CacheRoom(cached), |contents[0]|)
    requires |Flatten(contents[0][..n])| == BATCH * n
    requires var more := Flatten(contents[1..]); var m := Min(CacheRoom(cached) - n, |more|);
      && rest.1 == (cached + Flatten(contents[0][..n])) + Flatten(more[..m])
      && Flatten(rest.0) == more[m..]
    ensures var all := Flatten(contents); var m := Min(CacheRoom(cached), |all|);
      && rest.1 == cached + Flatten(all[..m])
      && Flatten([contents[0][n..]] + rest.0) == all[m..]
  {
    var first, more := contents[0], Flatten(contents[1..]);
    var m := Min(CacheRoom(cached) - n, |more|);
    FlattenFirst(contents);
    DrainOne(first, more, n, m);
    FlattenConcat(first[..n], more[..m]);
    hide Flatten;
    FlattenFirst([first[n..]] + rest.0);
  }

  lemma FlattenFirst<E>(ss: seq<seq<E>>)
    requires ss != []
    ensures Flatten(ss) == ss[0] + Flatten(ss[1..])
  {
    assert ss == [ss[0]] + ss[1..];
    FlattenConcat([ss[0]], ss[1..]);
    assert Flatten([ss[0]]) == ss[0];
  }

  lemma DrainOne<E>(first: seq<E>, more: seq<E>, n: nat, m: nat)
    requires n <= |first| && m <= |more| && (n < |first| ==> m == 0)
    ensures (first + more)[..n + m] == first[..n] + more[..m]
    ensures (first + more)[n + m..] == first[n..] + more[m..]
  {}

  /** What each registered ring holds, as groups, in registry order. */
  function GroupsInOrder<R>(q: Queue<R>): seq<seq<seq<int>>> {
    seq(|q.registry|, i requires 0 <= i < |q.registry| =>
      if q.registry[i] in q.rings then q.rings[q.registry[i]].groups else [])
  }

  /** The steps of a consumer inside the registry lock, from its current position to the end. */
  function DrainFrom<R>(q: Queue<R>): Queue<R>
    requires q.drain.Some? && q.drain.value <= |q.registry| && forall r :: r in q.registry ==> r in q.rings
    decreases |q.registry| - q.drain.value
  {
    if q.drain.value == |q.registry| then Step(q, DrainEnd) else DrainFrom(Step(q, DrainRing))
  }

  /** `Consumer::sync` as a run of atomic steps, one per ring. */
  function SyncCall<R>(q: Queue<R>): Queue<R>
    requires q.drain == None && forall r :: r in q.registry ==> r in q.rings
  {
    DrainFrom(Step(q, DrainBegin))
  }

  lemma {:induction false} DrainStep(before: seq<seq<seq<int>>>, i: nat, done: seq<seq<seq<int>>>,
      cached: seq<int>, cached': seq<int>, left: seq<seq<int>>)
    requires i < |before|
    requires var n := Min(CacheRoom(cached), |before[i]|);
      cached' == cached + Flatten(before[i][..n]) && left == before[i][n..]
    ensures done + DrainAll(before[i..], cached).0 == (done + [left]) + DrainAll(before[i + 1..], cached').0
    ensures DrainAll(before[i..], cached).1 == DrainAll(before[i + 1..], cached').1
  {
    assert before[i..][1..] == before[i + 1..];
  }

  /** Groups only moved from the front of the ring to what was taken. */
  ghost predicate FrontMoved(ring: Ring, ring': Ring) {
    ring'.sent == ring.sent && ring'.taken + ring'.groups == ring.taken + ring.groups
  }

  lemma Rejoin<T>(a: seq<T>, b: seq<T>, k: nat)
    requires k <= |b|
    ensures (a + b[..k]) + b[k..] == a + b
  {}

  lemma DrainRingGroups<R>(q: Queue<R>)
    requires Inv(q) && Enabled(q, DrainRing)
    ensures var q', k := Step(q, DrainRing), q.drain.value; var ring := q.rings[q.registry[k]];
      GroupsInOrder(q') == GroupsInOrder(q)[k := ring.groups[Min(CacheRoom(q.cached), |ring.groups|)..]]
  {}

  lemma DrainInRange<R>(q: Queue<R>)
    requires Inv(q) && q.drain.Some?
    ensures q.drain.value <= |q.registry|
  {}

  lemma {:induction false} DrainFromIsDrainAll<R>(q: Queue<R>)
    requires Inv(q) && q.drain.Some?
    requires forall r :: r in q.registry ==> r in q.rings
    ensures var k := q.drain.value; var q' := DrainFrom(q); var res := DrainAll(GroupsInOrder(q)[k..], q.cached);
      && Inv(q') && q'.cached == res.1
      && GroupsInOrder(q') == GroupsInOrder(q)[..k] + res.0
      && q' == q.(rings := q'.rings, cached := q'.cached, drain := None)
    decreases |q.registry| - q.drain.value
  {
    hide Inv;
    DrainInRange(q);
    var k := q.drain.value;
    var before := GroupsInOrder(q);
    if k == |q.registry| {
      StepInv(q, DrainEnd);
      assert GroupsInOrder(Step(q, DrainEnd)) == before;
    } else {
      var q1 := Step(q, DrainRing);
      StepInv(q, DrainRing);
      DrainRingGroups(q);
      DrainFromIsDrainAll(q1);
      var after := GroupsInOrder(q1);
      DrainStep(before, k, before[..k], q.cached, q1.cached, after[k]);
      assert after[k + 1..] == before[k + 1..] && after[..k + 1] == before[..k] + [after[k]];
    }
  }

  lemma {:induction false} DrainFromMovesFronts<R>(q: Queue<R>)
    requires q.drain.Some? && q.drain.value <= |q.registry|
    requires forall r :: r in q.registry ==> r in q.rings
    ensures var q' := DrainFrom(q);
      q'.rings.Keys == q.rings.Keys && (forall r :: r in q.rings ==> FrontMoved(q.rings[r], q'.rings[r]))
    decreases |q.registry| - q.drain.value
  {
    if q.drain.value < |q.registry| {
      var ring := q.rings[q.registry[q.drain.value]];
      Rejoin(ring.taken, ring.groups, Min(CacheRoom(q.cached), |ring.groups|));
      DrainFromMovesFronts(Step(q, DrainRing));
    }
  }

  /** The per-ring steps of a synchronisation together move what `DrainAll` moves. */
  lemma SyncIsDrainAll<R>(q: Queue<R>)
    requires Inv(q) && q.drain == None
    ensures forall r :: r in q.registry ==> r in q.rings
    ensures var q' := SyncCall(q); var res := DrainAll(GroupsInOrder(q), q.cached);
      && Inv(q') && q'.cached == res.1 && GroupsInOrder(q') == res.0
      && q' == q.(rings := q'.rings, cached := q'.cached)
      && q'.rings.Keys == q.rings.Keys && (forall r :: r in q.rings ==> FrontMoved(q.rings[r], q'.rings[r]))
  {
    assert forall r :: r in q.registry ==> r in q.rings.Keys;
    var q0 := Step(q, DrainBegin);
    assert Inv(q0);
    hide Inv;
    DrainFromIsDrainAll(q0);
    DrainFromMovesFronts(q0);
    assert GroupsInOrder(q0) == GroupsInOrder(q);
    assert GroupsInOrder(q0)[0..] == GroupsInOrder(q0) && GroupsInOrder(q0)[..0] == [];
  }

  /** Only steps of a consumer inside the registry lock. */
  predicate OnlyDrains<R>(es: seq<Event<R>>) {
    forall k :: 0 <= k < |es| ==> es[k].DrainBegin? || es[k].DrainRing? || es[k].DrainEnd?
  }

  lemma {:induction false} DrainIsRun<R>(q: Queue<R>) returns (es: seq<Event<R>>)
    requires q.drain.Some? && q.drain.value <= |q.registry| && forall r :: r in q.registry ==> r in q.rings
    ensures OnlyDrains(es) && Legal(q, es) && Exec(q, es) == DrainFrom(q)
    decreases |q.registry| - q.drain.value
  {
    if q.drain.value == |q.registry| {
      es := [DrainEnd];
      assert es[1..] == [];
    } else {
      var rest := DrainIsRun(Step(q, DrainRing));
      es := [DrainRing] + rest;
      assert es[1..] == rest;
    }
  }

  /** A synchronisation is a run of steps. */
  lemma {:induction false} SyncIsRun<R>(q: Queue<R>) returns (es: seq<Event<R>>)
    requires q.drain == None && forall r :: r in q.registry ==> r in q.rings
    ensures OnlyDrains(es) && Legal(q, es) && Exec(q, es) == SyncCall(q)
  {
    var rest := DrainIsRun(Step(q, DrainBegin));
    es := [DrainBegin] + rest;
    assert es[1..] == rest;
  }

  /** `Consumer::pop` as a run of steps, with what it returns. */
  function PopCall<R>(q: Queue<R>): (Queue<R>, Option<int>)
    requires q.drain == None && forall r :: r in q.registry ==> r in q.rings
  {
    var q1 := if q.cached == [] then SyncCall(q) else q;
    if q1.cached == [] then (q1, None) else
    (q1.(cached := q1.cached[..|q1.cached| - 1], popped := q1.popped + [q1.cached[|q1.cached| - 1]]),
     Some(q1.cached[|q1.cached| - 1]))
  }

  // ----- seeding -----------------------------------------------------------------------------------------------

  predicate CanSeed<R(==)>(q: Queue<R>, t: nat, r: R) {
    && 0 in q.alive && |q.batches| > 0 && q.drain.None? && |q.registry| < MAX_RINGS
    && (if t in q.slots then q.slots[t] in q.rings else r !in q.rings)
  }

  /** Pushing the elements of `xs` one after the other on handle 0. */
  function Seed<R>(capacity: nat, t: nat, r: R, xs: seq<int>): (q: Queue<R>)
    ensures CanSeed(q, t, r)
    ensures q.slots == map[] || q.slots == map[t := r]
    ensures q.registry == if t in q.slots then [r] else []
  {
    if xs == [] then New(capacity) else
    PushCall(Seed(capacity, t, r, xs[..|xs| - 1]), 0, t, r, xs[|xs| - 1])
  }

  /** Seeding as in the constructors of both backends: push everything, then flush. */
  function Seeded<R>(capacity: nat, t: nat, r: R, xs: seq<int>): Queue<R> {
    FlushCall(Seed(capacity, t, r, xs), 0, t, r)
  }

  function Delivered<R(==)>(q: Queue<R>, t: nat): seq<int> {
    if HasRing(q, t) then Flatten(q.rings[q.slots[t]].groups) else []
  }

  /** A queue on which only handle 0 and thread `t` have been active, holding `xs` and nothing else. */
  ghost predicate Seeding<R>(q: Queue<R>, capacity: nat, t: nat, xs: seq<int>) {
    && Inv(q) && q.capacity == capacity && q.drain.None?
    && q.discarded == [] && q.cached == [] && q.popped == [] && q.pushed == xs
    && |q.batches| == 1 && q.alive == {0}
    && Delivered(q, t) + q.batches[0] == xs
    && (if t in q.slots then q.slots == map[t := q.slots[t]] && q.registry == [q.slots[t]] && HasRing(q, t)
        else q.slots == map[] && q.registry == [] && q.rings == map[])
    && (xs == [] ==> t !in q.slots)
  }

  lemma {:induction false} SeedState<R>(capacity: nat, t: nat, r: R, xs: seq<int>)
    requires |xs| / BATCH <= capacity
    ensures Seeding(Seed(capacity, t, r, xs), capacity, t, xs)
    ensures xs != [] ==> Seed(capacity, t, r, xs).batches[0] != []
  {
    if xs == [] {
      SeedNothing<R>(capacity, t);
    } else {
      SeedState(capacity, t, r, xs[..|xs| - 1]);
      SeedPush(Seed(capacity, t, r, xs[..|xs| - 1]), capacity, t, r, xs);
    }
  }

  lemma {:induction false} SeedPush<R>(q: Queue<R>, capacity: nat, t: nat, r: R, xs: seq<int>)
    requires xs != [] && Seeding(q, capacity, t, xs[..|xs| - 1]) && CanSeed(q, t, r) && |xs| / BATCH <= capacity
    ensures CanPush(q, 0, t, r)
    ensures Seeding(PushCall(q, 0, t, r, xs[|xs| - 1]), capacity, t, xs)
    ensures PushCall(q, 0, t, r, xs[|xs| - 1]).batches[0] != []
  {
    var ys, x := xs[..|xs| - 1], xs[|xs| - 1];
    assert ys + [x] == xs;
    if |q.batches[0]| == BATCH {
      SeedEnsure(q, capacity, t, r, ys);
      SeedFlush(Ensured(q, 0, t, r), capacity, t, ys);
      var q' := Flushed(Ensured(q, 0, t, r), 0, t);
      SeedAppend(q', capacity, t, ys, x);
      assert PushCall(q, 0, t, r, x) == Step(q', Push(0, t, x));
    } else {
      SeedAppend(q, capacity, t, ys, x);
    }
  }

  lemma {:induction false} SeedNothing<R>(capacity: nat, t: nat)
    ensures Seeding(New<R>(capacity), capacity, t, [])
  {
    NewInv<R>(capacity);
  }

  lemma {:induction false} SeedAppend<R>(q: Queue<R>, capacity: nat, t: nat, xs: seq<int>, x: int)
    requires Seeding(q, capacity, t, xs) && |q.batches[0]| < BATCH
    ensures Seeding(Step(q, Push(0, t, x)), capacity, t, xs + [x])
  {
    StepInv(q, Push(0, t, x));
    assert Delivered(q, t) + (q.batches[0] + [x]) == (Delivered(q, t) + q.batches[0]) + [x];
  }

  lemma {:induction false} SeedEnsure<R>(q: Queue<R>, capacity: nat, t: nat, r: R, xs: seq<int>)
    requires Seeding(q, capacity, t, xs) && CanSeed(q, t, r) && q.batches[0] != []
    ensures CanEnsure(q, 0, t, r)
    ensures Seeding(Ensured(q, 0, t, r), capacity, t, xs) && t in Ensured(q, 0, t, r).slots
    ensures Ensured(q, 0, t, r).batches == q.batches
  {
    EnsuredKeeps(q, 0, t, r, x => true);
  }

  /** The ring being seeded always has room for one more batch. */
  lemma {:induction false} SeedFlush<R>(q: Queue<R>, capacity: nat, t: nat, xs: seq<int>)
    requires Seeding(q, capacity, t, xs) && |q.batches[0]| == BATCH && |xs| / BATCH <= capacity && t in q.slots
    ensures var q' := Flushed(q, 0, t);
      Seeding(q', capacity, t, xs) && q'.batches == [[]] && t in q'.slots
  {
    var groups := q.rings[q.slots[t]].groups;
    FlattenLength(groups);
    assert |xs| / BATCH == |Delivered(q, t)| / BATCH + 1;
    FlushedInv(q, 0, t);
    FlushAllOrNothing(q, 0, t);
    hide Inv;
    FlattenConcat(groups, [q.batches[0]]);
    assert Flatten([q.batches[0]]) == q.batches[0];
    assert Delivered(Flushed(q, 0, t), t) + [] == xs;
  }

  /** Seeding `n` elements delivers exactly the first 16 * (n / 16) of them, in order; the rest is lost. */
  lemma {:induction false} SeedingDelivers<R>(capacity: nat, t: nat, r: R, xs: seq<int>)
    requires |xs| / BATCH <= capacity
    ensures SeedResult(Seeded(capacity, t, r, xs), capacity, t, xs)
  {
    SeedState(capacity, t, r, xs);
    SeedFinish(Seed(capacity, t, r, xs), capacity, t, r, xs);
  }

  ghost predicate SeedResult<R>(q: Queue<R>, capacity: nat, t: nat, xs: seq<int>) {
    var n := |xs| - |xs| % BATCH;
    && Inv(q) && q.capacity == capacity && q.alive == {0} && q.drain.None?
    && q.batches == [[]] && q.cached == [] && q.popped == []
    && Delivered(q, t) == xs[..n]
    && q.discarded == xs[n..]
    && q.registry == (if t in q.slots then [q.slots[t]] else [])
    && (xs != [] ==> HasRing(q, t))
  }

  lemma {:induction false} SeedFinish<R>(q: Queue<R>, capacity: nat, t: nat, r: R, xs: seq<int>)
    requires Seeding(q, capacity, t, xs) && CanSeed(q, t, r) && |xs| / BATCH <= capacity
    requires xs != [] ==> q.batches[0] != []
    ensures SeedResult(FlushCall(q, 0, t, r), capacity, t, xs)
  {
    hide Inv, SeedResult, Flushed;
    BatchFits(q, 0);
    if |q.batches[0]| == BATCH {
      SeedEnsure(q, capacity, t, r, xs);
      SeedFlush(Ensured(q, 0, t, r), capacity, t, xs);
      SeedDone(Flushed(Ensured(q, 0, t, r), 0, t), capacity, t, xs);
    } else {
      SeedFinishShort(q, capacity, t, r, xs);
    }
  }

  lemma BatchFits<R>(q: Queue<R>, h: nat)
    requires Inv(q) && h < |q.batches|
    ensures |q.batches[h]| <= BATCH
  {}

  lemma {:induction false} SeedDone<R>(q: Queue<R>, capacity: nat, t: nat, xs: seq<int>)
    requires Seeding(q, capacity, t, xs) && q.batches == [[]] && t in q.slots
    ensures SeedResult(q, capacity, t, xs)
  {
    DeliveredWhole(q, t, [], xs);
  }

  lemma {:induction false} SeedFinishShort<R>(q: Queue<R>, capacity: nat, t: nat, r: R, xs: seq<int>)
    requires Seeding(q, capacity, t, xs) && CanSeed(q, t, r) && |q.batches[0]| < BATCH
    requires xs != [] ==> q.batches[0] != []
    ensures SeedResult(FlushCall(q, 0, t, r), capacity, t, xs)
  {
    hide Inv, Flushed;
    DeliveredWhole(q, t, q.batches[0], xs);
    if q.batches[0] != [] {
      SeedEnsure(q, capacity, t, r, xs);
      FlushShort(Ensured(q, 0, t, r), 0, t);
      FlushedInv(Ensured(q, 0, t, r), 0, t);
    }
  }

  /** Flushing fewer than 16 elements only empties the batch into `discarded`. */
  lemma {:induction false} FlushShort<R>(q: Queue<R>, h: nat, t: nat)
    requires Inv(q) && CanFlush(q, h, t) && |q.batches[h]| < BATCH
    ensures Flushed(q, h, t) == q.(batches := q.batches[h := []], discarded := q.discarded + q.batches[h])
  {
    if q.batches[h] != [] {
      FlushAllOrNothing(q, h, t);
      var q', ring := Flushed(q, h, t), q.rings[q.slots[t]];
      assert ToSimd(q.batches[h]) == [];
      assert ring.groups + [] == ring.groups && ring.sent + [] == ring.sent;
      assert q'.rings == q.rings;
    } else {
      assert q.batches[h := []] == q.batches;
    }
  }

  /** Whole groups followed by fewer than 16 more elements: the groups are the first 16 * (n / 16). */
  lemma {:induction false} DeliveredWhole<R>(q: Queue<R>, t: nat, rest: seq<int>, xs: seq<int>)
    requires Inv(q) && Delivered(q, t) + rest == xs && |rest| < BATCH
    ensures var n := |xs| - |xs| % BATCH; Delivered(q, t) == xs[..n] && rest == xs[n..]
  {
    if HasRing(q, t) { FlattenLength(q.rings[q.slots[t]].groups); }
    assert |Delivered(q, t)| % BATCH == 0;
  }
}
