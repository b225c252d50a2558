/**
  The batched multi-producer queue as a state machine.  Every event is one atomic step: an operation on
  data private to one handle together with at most one operation on one SPSC ring, or one section that
  holds the registry lock.  `R` is the type of ring identities (addresses in the program).
*/
module QueueMachine {
  import opened Bags

  const BATCH: nat := 16
  const CACHE: nat := 1024
  const MAX_RINGS: nat := 4096

  /** An SPSC ring of 16-wide groups; `sent` and `taken` record every group ever enqueued and drained. */
  datatype Ring = Ring(groups: seq<seq<int>>, sent: seq<seq<int>>, taken: seq<seq<int>>)

  /**
    `slots` is the thread-local table, `registry` the locked list, `batches[h]` the local batch of handle
    `h`, and `drain` the next registry position of a consumer that is inside the lock.
    `pushed`, `popped` and `discarded` are histories.
  */
  datatype Queue<R(==)> = Queue(
    capacity: nat,
    registry: seq<R>, rings: map<R, Ring>, slots: map<nat, R>,
    batches: seq<seq<int>>, alive: set<nat>,
    cached: seq<int>, drain: Option<nat>,
    pushed: seq<int>, popped: seq<int>, discarded: seq<int>)

  datatype Event<R> =
    | Register(h: nat, t: nat, r: R)
    | Push(h: nat, t: nat, x: int)
    | Flush(h: nat, t: nat)
    | CloneHandle(h: nat)
    | DropHandle(h: nat, t: nat)
    | Unregister(t: nat)
    | DrainBegin
    | DrainRing
    | DrainEnd
    | PopCached

  // ----- sequences ---------------------------------------------------------------------------------

  /** The full groups of 16 at the front of `s`. */
  function ToSimd(s: seq<int>): (gs: seq<seq<int>>)
    decreases |s|
  {
    if |s| < BATCH then [] else [s[..BATCH]] + ToSimd(s[BATCH..])
  }

  /** What is left of `s` after its full groups. */
  function Remainder(s: seq<int>): seq<int> {
    s[|s| - |s| % BATCH..]
  }

  /** How many of `wanted` groups a ring of the given capacity takes. */
  function Accepted(groups: seq<seq<int>>, capacity: nat, wanted: nat): nat {
    if |groups| >= capacity then 0 else Min(wanted, capacity - |groups|)
  }

  /** How many whole groups still fit in the consumer cache. */
  function CacheRoom(cached: seq<int>): nat {
    if |cached| <= CACHE then (CACHE - |cached|) / BATCH else 0
  }

  function Without<R(==)>(s: seq<R>, r: R): seq<R> {
    if s == [] then []
    else Without(s[..|s| - 1], r) + (if s[|s| - 1] == r then [] else [s[|s| - 1]])
  }

  // ----- operations --------------------------------------------------------------------------------

  function New<R>(capacity: nat): Queue<R> {
    Queue(capacity, [], map[], map[], [[]], {0}, [], None, [], [], [])
  }

  predicate HasRing<R(==)>(q: Queue<R>, t: nat) {
    t in q.slots && q.slots[t] in q.rings
  }

  predicate CanFlush<R(==)>(q: Queue<R>, h: nat, t: nat) {
    h < |q.batches| && (q.batches[h] != [] ==> HasRing(q, t))
  }

  /** Drains the batch of `h` into the ring of thread `t`; what does not go in is discarded. */
  function Flushed<R>(q: Queue<R>, h: nat, t: nat): Queue<R>
    requires CanFlush(q, h, t)
  {
    var b := q.batches[h];
    if b == [] then q else
    var r := q.slots[t];
    var ring := q.rings[r];
    var data := ToSimd(b);
    var n := Accepted(ring.groups, q.capacity, |data|);
    q.(batches := q.batches[h := []],
       rings := q.rings[r := ring.(groups := ring.groups + data[..n], sent := ring.sent + data[..n])],
       discarded := q.discarded + Flatten(data[n..]) + Remainder(b))
  }

  predicate Enabled<R(==)>(q: Queue<R>, e: Event<R>) {
    match e
    case Register(h, t, r) =>
      && h in q.alive && h < |q.batches| && q.batches[h] != []
      && t !in q.slots && r !in q.rings && q.drain.None? && |q.registry| < MAX_RINGS
    case Push(h, t, _) => h in q.alive && h < |q.batches| && (|q.batches[h]| >= BATCH ==> HasRing(q, t))
    case Flush(h, t) => h in q.alive && CanFlush(q, h, t)
    case CloneHandle(h) => h in q.alive
    case DropHandle(h, t) => h in q.alive && CanFlush(q, h, t)
    case Unregister(t) => q.alive == {} && HasRing(q, t) && q.drain.None?
    case DrainBegin => q.drain.None?
    case DrainRing =>
      q.drain.Some? && q.drain.value < |q.registry| && q.registry[q.drain.value] in q.rings
    case DrainEnd => q.drain.Some? && q.drain.value == |q.registry|
    case PopCached => q.drain.None? && q.cached != []
  }

  function Step<R>(q: Queue<R>, e: Event<R>): Queue<R>
    requires Enabled(q, e)
  {
    match e
    case Register(h, t, r) =>
      q.(registry := q.registry + [r], rings := q.rings[r := Ring([], [], [])], slots := q.slots[t := r])
    case Push(h, t, x) =>
      var q1 := if |q.batches[h]| < BATCH then q else Flushed(q, h, t);
      q1.(batches := q1.batches[h := q1.batches[h] + [x]], pushed := q1.pushed + [x])
    case Flush(h, t) => Flushed(q, h, t)
    case CloneHandle(h) => q.(batches := q.batches + [[]], alive := q.alive + {|q.batches|})
    case DropHandle(h, t) => var q1 := Flushed(q, h, t); q1.(alive := q1.alive - {h})
    case Unregister(t) =>
      var r := q.slots[t];
      q.(registry := Without(q.registry, r), rings := q.rings - {r}, slots := q.slots - {t},
         discarded := q.discarded + Flatten(q.rings[r].groups))
    case DrainBegin => q.(drain := Some(0))
    case DrainRing =>
      var r := q.registry[q.drain.value];
      var ring := q.rings[r];
      var n := Min(CacheRoom(q.cached), |ring.groups|);
      q.(rings := q.rings[r := ring.(groups := ring.groups[n..], taken := ring.taken + ring.groups[..n])],
         cached := q.cached + Flatten(ring.groups[..n]),
         drain := Some(q.drain.value + 1))
    case DrainEnd => q.(drain := None)
    case PopCached =>
      var last := |q.cached| - 1;
      q.(cached := q.cached[..last], popped := q.popped + [q.cached[last]])
  }

  predicate Legal<R(==)>(q: Queue<R>, es: seq<Event<R>>)
    decreases |es|
  {
    es == [] || (Enabled(q, es[0]) && Legal(Step(q, es[0]), es[1..]))
  }

  function Exec<R>(q: Queue<R>, es: seq<Event<R>>): Queue<R>
    requires Legal(q, es)
    decreases |es|
  {
    if es == [] then q else Exec(Step(q, es[0]), es[1..])
  }

  // ----- the structural invariant ------------------------------------------------------------------

  /** The registered rings are exactly the rings of the live per-thread producers, each listed once. */
  ghost predicate RegistryAgrees<R>(q: Queue<R>) {
    && Distinct(q.registry)
    && q.rings.Keys == (set r | r in q.registry)
    && q.slots.Values == q.rings.Keys
    && (forall t, u :: t in q.slots && u in q.slots && q.slots[t] == q.slots[u] ==> t == u)
  }

  ghost predicate RingOk(ring: Ring, capacity: nat) {
    && |ring.groups| <= capacity
    && (forall k :: 0 <= k < |ring.groups| ==> |ring.groups[k]| == BATCH)
    && ring.sent == ring.taken + ring.groups
  }

  ghost predicate Inv<R>(q: Queue<R>) {
    && RegistryAgrees(q)
    && (forall r :: r in q.rings ==> RingOk(q.rings[r], q.capacity))
    && (forall h :: 0 <= h < |q.batches| ==> |q.batches[h]| <= BATCH && (h !in q.alive ==> q.batches[h] == []))
    && (forall h :: h in q.alive ==> h < |q.batches|)
    && |q.cached| <= CACHE
    && (q.drain.Some? ==> q.drain.value <= |q.registry|)
    && |q.registry| <= MAX_RINGS
  }

  lemma {:induction false} FlattenLength(ss: seq<seq<int>>)
    requires forall k :: 0 <= k < |ss| ==> |ss[k]| == BATCH
    ensures |Flatten(ss)| == BATCH * |ss|
  {
    if ss != [] { FlattenLength(ss[..|ss| - 1]); }
  }

  lemma FlattenOne(g: seq<int>, gs: seq<seq<int>>)
    ensures Flatten([g] + gs) == g + Flatten(gs)
  {
    FlattenConcat([g], gs);
    assert Flatten([g]) == g;
  }

  lemma RemainderOfRest(s: seq<int>)
    requires |s| >= BATCH
    ensures Remainder(s[BATCH..]) == Remainder(s)
  {}

  lemma {:induction false} ToSimdGroups(s: seq<int>)
    ensures |ToSimd(s)| == |s| / BATCH
    ensures forall k :: 0 <= k < |ToSimd(s)| ==> |ToSimd(s)[k]| == BATCH
    ensures Flatten(ToSimd(s)) + Remainder(s) == s
    decreases |s|
  {
    if |s| >= BATCH {
      ToSimdGroups(s[BATCH..]);
      FlattenOne(s[..BATCH], ToSimd(s[BATCH..]));
      RemainderOfRest(s);
      assert s[..BATCH] + s[BATCH..] == s;
    }
  }

  /** Removing a listed identity from a duplicate-free registry deletes exactly its entry and keeps the order. */
  lemma {:induction false} WithoutRemovesOne<R>(s: seq<R>, k: nat)
    requires Distinct(s) && k < |s|
    ensures Without(s, s[k]) == s[..k] + s[k + 1..]
  {
    var front := s[..|s| - 1];
    if k == |s| - 1 {
      WithoutAbsent(front, s[k]);
    } else {
      WithoutRemovesOne(front, k);
      assert front[..k] == s[..k] && front[k + 1..] + [s[|s| - 1]] == s[k + 1..];
    }
  }

  lemma {:induction false} WithoutAbsent<R>(s: seq<R>, r: R)
    requires r !in s
    ensures Without(s, r) == s
  {
    if s != [] { WithoutAbsent(s[..|s| - 1], r); }
  }

  lemma {:induction false} WithoutDistinct<R>(s: seq<R>, r: R)
    requires Distinct(s)
    ensures Distinct(Without(s, r)) && |Without(s, r)| <= |s|
    ensures (set x | x in Without(s, r)) == (set x | x in s) - {r}
  {
    if s != [] {
      var front, last := s[..|s| - 1], s[|s| - 1];
      assert s == front + [last];
      WithoutDistinct(front, r);
      SetSnoc(front, last);
      assert last !in (set x | x in front);
      SetSnoc(Without(front, r), last);
      assert last !in (set x | x in Without(front, r));
    }
  }

  lemma SetSnoc<R>(s: seq<R>, x: R)
    ensures (set y | y in s + [x]) == (set y | y in s) + {x}
  {}

  lemma FlushedInv<R>(q: Queue<R>, h: nat, t: nat)
    requires Inv(q) && CanFlush(q, h, t)
    ensures Inv(Flushed(q, h, t)) && Flushed(q, h, t).batches[h] == []
  {
    ToSimdGroups(q.batches[h]);
  }

  lemma {:induction false} StepInv<R>(q: Queue<R>, e: Event<R>)
    requires Inv(q) && Enabled(q, e)
    ensures Inv(Step(q, e))
  {
    hide Inv;
    match e
    case Register(h, t, r) => RegisterInv(q, h, t, r);
    case Push(h, t, x) => PushInv(q, h, t, x);
    case Flush(h, t) => FlushedInv(q, h, t);
    case CloneHandle(_) => PrivateInv(q, e);
    case DropHandle(h, t) => DropHandleInv(q, h, t);
    case Unregister(t) => UnregisterInv(q, t);
    case DrainBegin => PrivateInv(q, e);
    case DrainRing => DrainInv(q);
    case DrainEnd => PrivateInv(q, e);
    case PopCached => PrivateInv(q, e);
  }

  lemma PushInv<R>(q: Queue<R>, h: nat, t: nat, x: int)
    requires Inv(q) && Enabled(q, Push(h, t, x))
    ensures Inv(Step(q, Push(h, t, x)))
  {
    hide RingOk;
    if |q.batches[h]| >= BATCH { FlushedInv(q, h, t); }
    hide Flushed;
  }

  lemma DropHandleInv<R>(q: Queue<R>, h: nat, t: nat)
    requires Inv(q) && Enabled(q, DropHandle(h, t))
    ensures Inv(Step(q, DropHandle(h, t)))
  {
    hide RingOk;
    FlushedInv(q, h, t);
    hide Flushed;
  }

  /** Steps that touch neither the registry nor a ring. */
  lemma PrivateInv<R>(q: Queue<R>, e: Event<R>)
    requires Inv(q) && Enabled(q, e) && (e.CloneHandle? || e.DrainBegin? || e.DrainEnd? || e.PopCached?)
    ensures Inv(Step(q, e))
  {
    hide RingOk, Flushed;
  }

  lemma RegisterInv<R>(q: Queue<R>, h: nat, t: nat, r: R)
    requires Inv(q) && Enabled(q, Register(h, t, r))
    ensures Inv(Step(q, Register(h, t, r)))
  {
    var q' := Step(q, Register(h, t, r));
    assert q'.slots.Values == q'.rings.Keys by {
      forall x | x in q'.rings.Keys ensures x in q'.slots.Values {
        if x != r {
          var u :| u in q.slots && q.slots[u] == x;
          assert q'.slots[u] == x;
        } else {
          assert q'.slots[t] == r;
        }
      }
    }
  }

  lemma UnregisterInv<R>(q: Queue<R>, t: nat)
    requires Inv(q) && Enabled(q, Unregister(t))
    ensures Inv(Step(q, Unregister(t)))
  {
    var q', r := Step(q, Unregister(t)), q.slots[t];
    WithoutDistinct(q.registry, r);
    assert q'.slots.Values == q'.rings.Keys by {
      forall x | x in q'.rings.Keys ensures x in q'.slots.Values {
        var u :| u in q.slots && q.slots[u] == x;
        assert u in q'.slots && q'.slots[u] == x;
      }
    }
  }

  lemma DrainInv<R>(q: Queue<R>)
    requires Inv(q) && Enabled(q, DrainRing)
    ensures Inv(Step(q, DrainRing))
  {
    var ring := q.rings[q.registry[q.drain.value]];
    var n := Min(CacheRoom(q.cached), |ring.groups|);
    FlattenLength(ring.groups[..n]);
    assert ring.groups[..n] + ring.groups[n..] == ring.groups;
    assert ring.taken + ring.groups == (ring.taken + ring.groups[..n]) + ring.groups[n..];
  }

  lemma NewInv<R>(capacity: nat)
    ensures Inv(New<R>(capacity))
  {}

  /** Every state of every run satisfies the invariant. */
  lemma {:induction false} RunInv<R>(q: Queue<R>, es: seq<Event<R>>)
    requires Inv(q) && Legal(q, es)
    ensures Inv(Exec(q, es))
    decreases |es|
  {
    if es != [] {
      StepInv(q, es[0]);
      RunInv(Step(q, es[0]), es[1..]);
    }
  }
}
