/** A whole channel with all its handles: every call of the program is a run of machine steps. */
module Channel {
  import opened Bags
  import opened QueueMachine
  import opened QueueProperties
  import opened Mpsc

  /** `state` is the machine state the object graph stands for; ring identities are the ring objects. */
  class Channel {
    const registry: ConsumerRegistry
    const perThread: PerThread
    const consumer: Consumer
    var handles: seq<Producer>
    ghost var state: Queue<SpscRing>

    ghost predicate HandlesMatch(batches: seq<seq<int>>)
      reads this`handles, handles
    {
      && Distinct(handles) && |batches| == |handles|
      && (forall i :: 0 <= i < |handles| ==>
          handles[i].perThread == perThread && handles[i].list == registry && batches[i] == handles[i].localBatch)
    }

    ghost predicate Valid()
      reads this, registry, registry.list, perThread, consumer, handles
    {
      && Tables(state, registry.list, perThread.slots, registry.Rings(), registry.singleSpscLen)
      && HandlesMatch(state.batches)
      && consumer.consumer == registry && state.cached == consumer.cached && state.drain == None
    }

    constructor (size: nat)
      ensures Valid() && state == New(size)
      ensures fresh(registry) && fresh(perThread) && fresh(consumer) && fresh(handles) && |handles| == 1 && perThread.slots == map[]
    {
      var list := new ConsumerRegistry(size);
      var table := new PerThread();
      var cons := new Consumer(list);
      var prod := new Producer(table, list);
      registry, perThread, consumer, handles := list, table, cons, [prod];
      state := New(size);
    }

    lemma StateTables()
      requires Valid()
      ensures registry.list == state.registry && perThread.slots == state.slots && consumer.cached == state.cached
    {}

    lemma ProducersValid(h: nat)
      requires Valid() && Inv(state) && h in state.alive
      ensures h < |handles| && h < |state.batches| && handles[h].Valid() && state.batches[h] == handles[h].localBatch
      ensures handles[h].perThread == perThread && handles[h].list == registry
    {
      forall t | t in perThread.slots ensures perThread.slots[t] in registry.list {
        assert perThread.slots[t] in state.slots.Values;
      }
      assert state.batches[h] == handles[h].localBatch;
    }

    lemma ConsumerValid()
      requires Valid() && Inv(state)
      ensures consumer.Valid() && forall r :: r in state.registry ==> r in state.rings
    {
      assert forall r :: r in state.registry ==> r in state.rings.Keys;
      var list := registry.list;
      forall i, k | 0 <= i < |Contents(list)| && 0 <= k < |Contents(list)[i]| ensures |Contents(list)[i][k]| == BATCH {
        assert list[i] in state.rings && RingOk(state.rings[list[i]], state.capacity);
      }
    }

    /** `Producer::push` on handle `h`, running on thread `t`: a run of at most two machine steps. */
    method Push(h: nat, t: nat, x: int)
      requires Valid() && Inv(state) && h in state.alive
      requires |state.batches[h]| == BATCH && t !in perThread.slots ==> |registry.list| < MAX_RINGS
      modifies this`state, handles[h], perThread, registry, perThread.Own(t)
      ensures Valid()
      ensures |old(state).batches[h]| < BATCH ==> state == Step(old(state), Event.Push(h, t, x))
      ensures |old(state).batches[h]| == BATCH ==>
        && t in perThread.slots && CanEnsure(old(state), h, t, perThread.slots[t])
        && state == PushCall(old(state), h, t, perThread.slots[t], x)
      ensures fresh(perThread.Own(t) - old(perThread.Own(t)))
      ensures forall r :: r in registry.list ==> r in old(registry.list) || fresh(r)
    {
      hide Inv, HandedOver, Tables, ConsumerRegistry.Rings, Step, PushCall, ToSimd;
      ghost var q := state;
      ProducersValid(h);
      handles[h].Push(t, x);
      if |q.batches[h]| < BATCH {
        QuietPush(q, h, t, x, registry.list, perThread.slots, registry.Rings(), registry.singleSpscLen);
        state := Step(q, Event.Push(h, t, x));
      } else {
        FullPush(q, h, t, perThread.slots[t], x, registry.singleSpscLen,
          old(registry.list), old(perThread.slots), old(registry.Rings()),
          registry.list, perThread.slots, registry.Rings());
        state := PushCall(q, h, t, perThread.slots[t], x);
      }
    }

    /** `Producer::flush` on handle `h`, running on thread `t`. */
    method Flush(h: nat, t: nat)
      requires Valid() && Inv(state) && h in state.alive
      requires state.batches[h] != [] && t !in perThread.slots ==> |registry.list| < MAX_RINGS
      modifies this`state, handles[h], perThread, registry, perThread.Own(t)
      ensures Valid()
      ensures old(state).batches[h] == [] ==> state == old(state)
      ensures old(state).batches[h] != [] ==>
        && t in perThread.slots && CanEnsure(old(state), h, t, perThread.slots[t])
        && state == FlushCall(old(state), h, t, perThread.slots[t])
      ensures fresh(perThread.Own(t) - old(perThread.Own(t)))
      ensures forall r :: r in registry.list ==> r in old(registry.list) || fresh(r)
    {
      hide Inv, HandedOver, Tables, ToSimd, ConsumerRegistry.Rings;
      ghost var q := state;
      ProducersValid(h);
      handles[h].Flush(t);
      if q.batches[h] != [] {
        HandOverIsFlush(q, h, t, perThread.slots[t], registry.singleSpscLen,
          old(registry.list), old(perThread.slots), old(registry.Rings()),
          registry.list, perThread.slots, registry.Rings());
        state := FlushCall(q, h, t, perThread.slots[t]);
      }
    }

    /** `Consumer::sync`: a run of one machine step per ring, inside the registry lock. */
    method Sync()
      requires Valid() && Inv(state)
      modifies this`state, consumer, registry.list
      ensures Valid()
      ensures (forall r :: r in old(state).registry ==> r in old(state).rings) && state == SyncCall(old(state))
    {
      hide Inv, HandlesMatch, Tables, SyncCall, Drained, ConsumerRegistry.Rings, Contents, Consumer.Valid, DrainAll;
      ghost var q := state;
      ConsumerValid();
      consumer.Sync();
      state := SyncCall(q);
      DrainedIsSync(q, registry.list, perThread.slots, old(registry.Rings()), registry.Rings(), consumer.cached, registry.singleSpscLen);
    }

    /** `Consumer::pop`: a synchronisation if the cache is empty, then the newest cached element if there is one. */
    method Pop() returns (x: Option<int>)
      requires Valid() && Inv(state)
      modifies this`state, consumer, registry.list
      ensures Valid()
      ensures (forall r :: r in old(state).registry ==> r in old(state).rings) && state == PopCall(old(state)).0
      ensures x == PopCall(old(state)).1
    {
      hide Inv, HandlesMatch, Tables, SyncCall, Drained, ConsumerRegistry.Rings, Contents, Consumer.Valid, DrainAll;
      ghost var q := state;
      ConsumerValid();
      x := consumer.Pop();
      state := PopCall(q).0;
      if q.cached != [] {
        SameTables(q, state, registry.list, perThread.slots, registry.Rings(), registry.singleSpscLen);
      } else {
        DrainedIsSync(q, registry.list, perThread.slots, old(registry.Rings()), registry.Rings(),
          consumer.cached + (if x == None then [] else [x.value]), registry.singleSpscLen);
        PoppedBack(SyncCall(q).cached, consumer.cached, x);
        SameTables(SyncCall(q), state, registry.list, perThread.slots, registry.Rings(), registry.singleSpscLen);
      }
    }

    method Clone(h: nat) returns (k: nat)
      requires Valid() && h in state.alive && h < |handles|
      modifies this`handles, this`state
      ensures Valid() && k == |old(handles)|
      ensures state == Step(old(state), CloneHandle(h))
    {
      var p := handles[h].Clone();
      k := |handles|;
      handles := handles + [p];
      state := Step(state, CloneHandle(h));
    }

    /** Dropping handle `h` flushes it; the per-thread rings go only with the last handle. */
    method DropHandle(h: nat, t: nat)
      requires Valid() && Inv(state) && h in state.alive
      requires state.batches[h] != [] && t !in perThread.slots ==> |registry.list| < MAX_RINGS
      modifies this`state, handles[h], perThread, registry, perThread.Own(t)
      ensures Valid()
      ensures old(state).batches[h] == [] ==> state == Step(old(state), Event.DropHandle(h, t))
      ensures old(state).batches[h] != [] ==>
        && t in perThread.slots && CanEnsure(old(state), h, t, perThread.slots[t])
        && state == Step(Ensured(old(state), h, t, perThread.slots[t]), Event.DropHandle(h, t))
    {
      hide Inv, HandlesMatch, Tables, Flushed, Distinct, ConsumerRegistry.Rings;
      ghost var was := state;
      ProducersValid(h);
      Flush(h, t);
      ghost var q := state;
      state := q.(alive := q.alive - {h});
      FlushNothing(was, h, t);
      SameTables(q, state, registry.list, perThread.slots, registry.Rings(), registry.singleSpscLen);
    }

    /** Dropping the per-thread producer of thread `t` unregisters its ring with whatever it still holds. */
    method DropPerThread(t: nat)
      requires Valid() && Inv(state) && state.alive == {} && t in perThread.slots
      modifies this`state, perThread, registry
      ensures Valid()
      ensures Enabled(old(state), Unregister(t)) && state == Step(old(state), Unregister(t))
    {
      hide Inv, HandlesMatch, Tables, Step, Enabled, Distinct, Without, ConsumerRegistry.Rings;
      UnregisterTables(state, t, registry.list, perThread.slots, registry.Rings(), registry.singleSpscLen);
      var table := perThread;
      state := Step(state, Unregister(t));
      registry.Remove(table.slots[t]);
      table.slots := table.slots - {t};
    }

    /** When the last handle is gone every per-thread producer is dropped: the registry ends up empty. */
    method DropAll()
      requires Valid() && Inv(state) && state.alive == {}
      modifies this`state, perThread, registry
      ensures Valid() && registry.list == [] && perThread.slots == map[]
    {
      while perThread.slots != map[]
        invariant Valid() && Inv(state) && state.alive == {}
        decreases |perThread.slots|
      {
        hide Inv;
        var t :| t in perThread.slots.Keys;
        UnregisterTables(state, t, registry.list, perThread.slots, registry.Rings(), registry.singleSpscLen);
        StepInv(state, Unregister(t));
        SmallerMap(perThread.slots, t);
        DropPerThread(t);
      }
      NoSlotsNoRings(state);
    }
  }

  lemma SameFront<T>(a: seq<T>, b: seq<T>, rest: seq<T>)
    requires a + rest == b + rest
    ensures a == b
  {
    assert |a| == |b|;
    assert (a + rest)[..|a|] == a && (b + rest)[..|b|] == b;
  }

  /** The same groups left in every ring, and only the front gone: the rings are equal. */
  lemma DrainedIsSync(q: Queue<SpscRing>, list: seq<SpscRing>, slots: map<nat, SpscRing>,
      rings: map<SpscRing, Ring>, rings': map<SpscRing, Ring>, cached': seq<int>, capacity: nat)
    requires Inv(q) && q.drain == None && Tables(q, list, slots, rings, capacity)
    requires forall r :: r in q.registry ==> r in q.rings
    requires Drained(list, rings, q.cached, rings', cached')
    ensures var q' := SyncCall(q);
      && Tables(q', list, slots, rings', capacity)
      && q'.batches == q.batches && q'.cached == cached' && q'.drain == None
  {
    SyncIsDrainAll(q);
    hide SyncCall;
    var q' := SyncCall(q);
    assert GroupsInOrder(q) == ContentsOf(list, rings);
    forall r | r in rings ensures q'.rings[r] == rings'[r] {
      assert r in (set x | x in list);
      var i :| 0 <= i < |list| && list[i] == r;
      assert GroupsInOrder(q')[i] == ContentsOf(list, rings')[i];
      SameFront(rings'[r].taken, q'.rings[r].taken, rings'[r].groups);
    }
  }

  lemma PoppedBack(all: seq<int>, left: seq<int>, x: Option<int>)
    requires all == left + (if x == None then [] else [x.value]) && (x == None ==> left == [])
    ensures x == (if all == [] then None else Some(all[|all| - 1]))
    ensures all != [] ==> left == all[..|all| - 1]
  {}

  lemma FlushNothing<R>(q: Queue<R>, h: nat, t: nat)
    ensures h < |q.batches| && q.batches[h] == [] ==> Flushed(q, h, t) == q
  {}

  lemma NoSlotsNoRings<R>(q: Queue<R>)
    requires Inv(q)
    ensures q.registry != [] ==> q.slots != map[]
  {
    if q.registry != [] {
      assert q.registry[0] in q.rings.Keys;
      var t :| t in q.slots && q.slots[t] == q.registry[0];
    }
  }

  /** The registry, the thread-local table and the rings are those of the machine state. */
  ghost predicate Tables(q: Queue<SpscRing>, list: seq<SpscRing>, slots: map<nat, SpscRing>,
      rings: map<SpscRing, Ring>, capacity: nat)
  {
    && q.registry == list && q.slots == slots && q.rings == rings && q.capacity == capacity
    && (forall r :: r in rings ==> r.capacity == capacity)
  }

  lemma SameTables(q: Queue<SpscRing>, q': Queue<SpscRing>, list: seq<SpscRing>, slots: map<nat, SpscRing>,
      rings: map<SpscRing, Ring>, capacity: nat)
    requires Tables(q, list, slots, rings, capacity)
    requires q'.registry == q.registry && q'.slots == q.slots && q'.rings == q.rings && q'.capacity == q.capacity
    ensures Tables(q', list, slots, rings, capacity)
  {}

  lemma UnregisterTables(q: Queue<SpscRing>, t: nat, list: seq<SpscRing>, slots: map<nat, SpscRing>,
      rings: map<SpscRing, Ring>, capacity: nat)
    requires Inv(q) && q.alive == {} && t in slots && q.drain == None && Tables(q, list, slots, rings, capacity)
    ensures Enabled(q, Unregister(t)) && Distinct(list) && slots[t] in list
    ensures var q' := Step(q, Unregister(t));
      && Tables(q', Without(list, slots[t]), slots - {t}, rings - {slots[t]}, capacity)
      && q'.batches == q.batches && q'.cached == q.cached && q'.drain == None && q'.alive == q.alive
  {
    assert q.slots[t] in q.slots.Values;
    WithoutDistinct(q.registry, q.slots[t]);
  }

  /** Handing a batch to the ring of thread `t` is what the machine does to the tables and the rings. */
  lemma HandOverIsFlush(q: Queue<SpscRing>, h: nat, t: nat, ring: SpscRing, capacity: nat,
      list: seq<SpscRing>, slots: map<nat, SpscRing>, rings: map<SpscRing, Ring>,
      list': seq<SpscRing>, slots': map<nat, SpscRing>, rings': map<SpscRing, Ring>)
    requires Inv(q) && q.drain == None && h in q.alive && q.batches[h] != []
    requires Tables(q, list, slots, rings, capacity) && ring.capacity == capacity
    requires t !in slots ==> |list| < MAX_RINGS
    requires HandedOver(ToSimd(q.batches[h]), capacity, t, ring, list, slots, rings, list', slots', rings')
    ensures CanEnsure(q, h, t, ring)
    ensures Tables(Flushed(Ensured(q, h, t, ring), h, t), list', slots', rings', capacity)
  {
    var data := ToSimd(q.batches[h]);
    var n := Accepted([], q.capacity, |data|);
    assert [] + data[..n] == data[..n];
  }

  /** A push onto a batch with room changes nothing but the batch. */
  lemma QuietPush(q: Queue<SpscRing>, h: nat, t: nat, x: int, list: seq<SpscRing>, slots: map<nat, SpscRing>,
      rings: map<SpscRing, Ring>, capacity: nat)
    requires Tables(q, list, slots, rings, capacity) && h in q.alive && h < |q.batches| && |q.batches[h]| < BATCH
    ensures Enabled(q, Event.Push(h, t, x))
    ensures var q' := Step(q, Event.Push(h, t, x));
      && Tables(q', list, slots, rings, capacity)
      && q'.batches == q.batches[h := q.batches[h] + [x]] && q'.cached == q.cached && q'.drain == q.drain
  {}

  /** A push onto a full batch hands it over first. */
  lemma FullPush(q: Queue<SpscRing>, h: nat, t: nat, ring: SpscRing, x: int, capacity: nat,
      list: seq<SpscRing>, slots: map<nat, SpscRing>, rings: map<SpscRing, Ring>,
      list': seq<SpscRing>, slots': map<nat, SpscRing>, rings': map<SpscRing, Ring>)
    requires Inv(q) && q.drain == None && h in q.alive && h < |q.batches| && |q.batches[h]| == BATCH
    requires Tables(q, list, slots, rings, capacity) && ring.capacity == capacity
    requires t !in slots ==> |list| < MAX_RINGS
    requires HandedOver(ToSimd(q.batches[h]), capacity, t, ring, list, slots, rings, list', slots', rings')
    ensures CanEnsure(q, h, t, ring)
    ensures var q' := PushCall(q, h, t, ring, x);
      && Tables(q', list', slots', rings', capacity)
      && q'.batches == q.batches[h := [x]] && q'.cached == q.cached && q'.drain == q.drain
  {
    hide Inv, HandedOver, Tables;
    HandOverIsFlush(q, h, t, ring, capacity, list, slots, rings, list', slots', rings');
    SameTables(Flushed(Ensured(q, h, t, ring), h, t), PushCall(q, h, t, ring, x), list', slots', rings', capacity);
    assert [] + [x] == [x];
  }

  lemma SmallerMap<T>(m: map<nat, T>, t: nat)
    requires t in m
    ensures |m - {t}| < |m|
  {
    assert (m - {t}).Keys == m.Keys - {t};
    assert |(m - {t}).Keys| < |m.Keys|;
  }
}
