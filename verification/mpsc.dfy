/** The batched multi-producer queue as the program builds it: rings, registry, producer handles, consumer. */
module Mpsc {
  import opened Bags
  import opened QueueMachine
  import opened QueueProperties

  /** The SPSC library boundary: a bounded FIFO whose identity is its address. */
  class SpscRing {
    const capacity: nat
    var groups: seq<seq<int>>
    ghost var sent: seq<seq<int>>
    ghost var taken: seq<seq<int>>

    constructor (capacity: nat)
      ensures this.capacity == capacity && groups == [] && sent == [] && taken == []
    {
      this.capacity := capacity;
      groups, sent, taken := [], [], [];
    }

    /** Enqueues groups until the ring is full or the data is exhausted. */
    method EnqueueMany(data: seq<seq<int>>) returns (n: nat)
      modifies this
      ensures n == Accepted(old(groups), capacity, |data|)
      ensures n < |data| ==> |groups| >= capacity
      ensures |old(groups)| <= capacity ==> |groups| <= capacity
      ensures groups == old(groups) + data[..n] && sent == old(sent) + data[..n] && taken == old(taken)
    {
      n := 0;
      while n < |data| && |groups| < capacity
        invariant n <= |data| && (n == 0 || |groups| <= capacity)
        invariant groups == old(groups) + data[..n] && sent == old(sent) + data[..n] && taken == old(taken)
      {
        groups, sent := groups + [data[n]], sent + [data[n]];
        n := n + 1;
      }
    }

    method Pop() returns (g: seq<int>)
      requires groups != []
      modifies this
      ensures g == old(groups[0]) && groups == old(groups[1..])
      ensures sent == old(sent) && taken == old(taken) + [g]
    {
      g := groups[0];
      groups, taken := groups[1..], taken + [g];
    }
  }

  ghost function RingValue(r: SpscRing): Ring
    reads r
  {
    Ring(r.groups, r.sent, r.taken)
  }

  /** The contents of the rings, in registry order. */
  ghost function Contents(list: seq<SpscRing>): seq<seq<seq<int>>>
    reads list
  {
    seq(|list|, i requires 0 <= i < |list| reads list => list[i].groups)
  }

  /** The locked list of the consumer ends of all rings. */
  class ConsumerRegistry {
    const singleSpscLen: nat
    var list: seq<SpscRing>

    /** What every registered ring holds. */
    ghost function Rings(): map<SpscRing, Ring>
      reads this, list
    {
      map r | r in list :: RingValue(r)
    }

    constructor (singleSpscLen: nat)
      ensures this.singleSpscLen == singleSpscLen && list == []
    {
      this.singleSpscLen := singleSpscLen;
      list := [];
    }

    /** Panics when 4096 rings are registered already. */
    method Push(consumer: SpscRing)
      requires |list| < MAX_RINGS
      modifies this
      ensures list == old(list) + [consumer]
    {
      list := list + [consumer];
    }

    /** Deletes the entry with the given identity; the length assertion of the source holds. */
    method Remove(id: SpscRing)
      requires Distinct(list) && id in list
      modifies this
      ensures list == Without(old(list), id)
      ensures exists k :: 0 <= k < |old(list)| && old(list)[k] == id && list == old(list)[..k] + old(list)[k + 1..]
      ensures Rings() == old(Rings()) - {id}
    {
      hide Distinct, Without;
      var len := |list|;
      ghost var k :| 0 <= k < len && list[k] == id;
      WithoutRemovesOne(list, k);
      var kept := [];
      WithoutNothing(id);
      for i := 0 to len
        invariant list == old(list) && kept == Without(list[..i], id)
      {
        WithoutSnoc(list, i, id);
        if list[i] != id { kept := kept + [list[i]]; }
      }
      assert list[..len] == list;
      list := kept;
      assert |list| == len - 1;
      WithoutDistinct(old(list), id);
      assert forall r :: r in list <==> r in (set x | x in old(list)) - {id};
    }
  }

  lemma WithoutNothing<R>(r: R)
    ensures Without([], r) == []
  {}

  lemma WithoutSnoc<R>(s: seq<R>, i: nat, r: R)
    requires i < |s|
    ensures Without(s[..i + 1], r) == Without(s[..i], r) + (if s[i] == r then [] else [s[i]])
  {
    assert s[..i + 1][..i] == s[..i];
  }

  /** Only whole groups at the front left the ring. */
  twostate predicate FrontTaken(r: SpscRing)
    reads r
  {
    r.sent == old(r.sent) && r.taken + r.groups == old(r.taken) + old(r.groups)
  }

  /** Moves groups from every registered ring, in registry order, into the cache while whole groups fit. */
  method PopAll(registry: ConsumerRegistry, v: seq<int>) returns (v': seq<int>)
    requires |v| <= CACHE && Distinct(registry.list) && AllGroups(Contents(registry.list))
    modifies registry.list
    ensures Contents(registry.list) == DrainAll(old(Contents(registry.list)), v).0
    ensures v' == DrainAll(old(Contents(registry.list)), v).1 && |v'| <= CACHE
    ensures (forall j :: 0 <= j < |registry.list| ==> registry.list[j].groups == []) || |v'| + BATCH > CACHE
    ensures forall j :: 0 <= j < |registry.list| ==> FrontTaken(registry.list[j])
  {
    hide DrainAll;
    v' := v;
    var list := registry.list;
    ghost var before := Contents(list);
    assert before[0..] == before;
    for i := 0 to |list|
      invariant |v'| <= CACHE
      invariant forall j :: i <= j < |list| ==> unchanged(list[j])
      invariant forall j :: 0 <= j < i ==> FrontTaken(list[j])
      invariant DrainAll(before, v).0 == Contents(list)[..i] + DrainAll(before[i..], v').0
      invariant DrainAll(before, v).1 == DrainAll(before[i..], v').1
    {
      ghost var done, cached := Contents(list)[..i], v';
      assert list[i].groups == before[i];
      v' := DrainOneRing(list[i], v');
      DrainStep(before, i, done, cached, v', list[i].groups);
      assert Contents(list)[..i + 1] == done + [list[i].groups];
    }
    assert before[|list|..] == [];
    DrainNothing(v');
    assert Contents(list)[..|list|] == Contents(list);
    if |v'| + BATCH <= CACHE {
      NothingLeft(before, v, Contents(list), v');
      forall j | 0 <= j < |list| ensures list[j].groups == [] { assert Contents(list)[j] == list[j].groups; }
    }
  }

  lemma {:induction false} NothingLeft(before: seq<seq<seq<int>>>, v: seq<int>, after: seq<seq<seq<int>>>, v': seq<int>)
    requires |v| <= CACHE && AllGroups(before) && |v'| + BATCH <= CACHE
    requires after == DrainAll(before, v).0 && v' == DrainAll(before, v).1
    ensures forall j :: 0 <= j < |after| ==> after[j] == []
  {
    hide DrainAll, AllGroups;
    DrainFills(before, v);
  }

  lemma DrainNothing(cached: seq<int>)
    ensures DrainAll([], cached) == ([], cached)
  {}

  lemma TakeOneMore(groups: seq<seq<int>>, k: nat, v: seq<int>, t: seq<seq<int>>)
    requires k < |groups|
    ensures Flatten(groups[..k + 1]) == Flatten(groups[..k]) + groups[k]
    ensures (v + Flatten(groups[..k])) + groups[k] == v + Flatten(groups[..k + 1])
    ensures (t + groups[..k]) + [groups[k]] == t + groups[..k + 1]
    ensures groups[k..][1..] == groups[k + 1..]
  {
    assert groups[..k + 1][..k] == groups[..k];
  }

  method DrainOneRing(ring: SpscRing, v: seq<int>) returns (v': seq<int>)
    requires |v| <= CACHE && forall k :: 0 <= k < |ring.groups| ==> |ring.groups[k]| == BATCH
    modifies ring
    ensures var n := Min(CacheRoom(v), |old(ring.groups)|);
      && v' == v + Flatten(old(ring.groups)[..n]) && |v'| <= CACHE
      && ring.groups == old(ring.groups)[n..]
    ensures ring.groups == [] || |v'| + BATCH > CACHE
    ensures FrontTaken(ring)
  {
    v' := v;
    var remaining := (CACHE - |v|) / BATCH;
    ghost var groups := ring.groups;
    var k := 0;
    while k < remaining && ring.groups != []
      invariant k <= Min(remaining, |groups|)
      invariant ring.groups == groups[k..] && v' == v + Flatten(groups[..k])
      invariant |v'| == |v| + BATCH * k
      invariant ring.sent == old(ring.sent) && ring.taken == old(ring.taken) + groups[..k]
    {
      var scan := ring.Pop();
      v' := v' + scan;
      TakeOneMore(groups, k, v, old(ring.taken));
      k := k + 1;
    }
    Rejoin(old(ring.taken), groups, k);
  }

  /** The thread-local table shared by all clones of a producer. */
  class PerThread {
    var slots: map<nat, SpscRing>

    constructor ()
      ensures slots == map[]
    {
      slots := map[];
    }

    /** The ring owned by thread `t`, if it has one. */
    ghost function Own(t: nat): set<SpscRing>
      reads this
    {
      if t in slots then {slots[t]} else {}
    }
  }

  /** Cuts a sequence into its full groups of 16; an incomplete last group is dropped. */
  method ToSimdGroupsOf(s: seq<int>) returns (gs: seq<seq<int>>)
    ensures gs == ToSimd(s)
  {
    gs := [];
    var i := 0;
    while i + BATCH <= |s|
      invariant i <= |s| && ToSimd(s) == gs + ToSimd(s[i..])
    {
      assert s[i..][..BATCH] == s[i..i + BATCH] && s[i..][BATCH..] == s[i + BATCH..];
      gs := gs + [s[i..i + BATCH]];
      i := i + BATCH;
    }
  }

  /** The tables and rings before and after the groups `data` were handed to the ring of thread `t`. */
  ghost predicate HandedOver(data: seq<seq<int>>, capacity: nat, t: nat, ring: SpscRing,
      list: seq<SpscRing>, slots: map<nat, SpscRing>, rings: map<SpscRing, Ring>,
      list': seq<SpscRing>, slots': map<nat, SpscRing>, rings': map<SpscRing, Ring>)
  {
    if t in slots then
      && ring == slots[t] && ring in rings && list' == list && slots' == slots
      && var old' := rings[ring]; var n := Accepted(old'.groups, capacity, |data|);
         rings' == rings[ring := Ring(old'.groups + data[..n], old'.sent + data[..n], old'.taken)]
    else
      && ring !in rings && list' == list + [ring] && slots' == slots[t := ring]
      && var n := Accepted([], capacity, |data|);
         rings' == rings[ring := Ring(data[..n], data[..n], [])]
  }

  /** A producer handle. */
  class Producer {
    const perThread: PerThread
    const list: ConsumerRegistry
    var localBatch: seq<int>

    constructor (perThread: PerThread, list: ConsumerRegistry)
      ensures this.perThread == perThread && this.list == list && localBatch == []
    {
      this.perThread, this.list, localBatch := perThread, list, [];
    }

    /** Every ring of the thread-local table is registered and has the registry's capacity. */
    ghost predicate Valid()
      reads this, perThread, list
    {
      && |localBatch| <= BATCH
      && (forall t :: t in perThread.slots ==> perThread.slots[t] in list.list)
      && (forall r :: r in list.list ==> r.capacity == list.singleSpscLen)
    }

    /** Drains the local batch into the ring of the current thread `t`, creating and registering it on first use. */
    method Flush(t: nat)
      requires Valid() && (localBatch != [] && t !in perThread.slots ==> |list.list| < MAX_RINGS)
      modifies this`localBatch, perThread, list, perThread.Own(t)
      ensures Valid() && localBatch == []
      ensures forall r :: r in list.list ==> r in old(list.list) || fresh(r)
      ensures old(localBatch) == [] ==>
        perThread.slots == old(perThread.slots) && list.list == old(list.list) && list.Rings() == old(list.Rings())
      ensures old(localBatch) != [] ==>
        && t in perThread.slots && (t !in old(perThread.slots) ==> fresh(perThread.slots[t]))
        && HandedOver(ToSimd(old(localBatch)), list.singleSpscLen, t, perThread.slots[t], old(list.list), old(perThread.slots),
             old(list.Rings()), list.list, perThread.slots, list.Rings())
    {
      if localBatch == [] { return; }
      if t !in perThread.slots {
        var ring := new SpscRing(list.singleSpscLen);
        list.Push(ring);
        perThread.slots := perThread.slots[t := ring];
      }
      var data := ToSimdGroupsOf(localBatch);
      localBatch := [];
      var n := perThread.slots[t].EnqueueMany(data);
      assert [] + data[..n] == data[..n];
    }

    /** Appends to the local batch; a full batch is flushed first, and the append retried. */
    method Push(t: nat, x: int)
      requires Valid() && (|localBatch| >= BATCH && t !in perThread.slots ==> |list.list| < MAX_RINGS)
      modifies this`localBatch, perThread, list, perThread.Own(t)
      ensures Valid()
      ensures forall r :: r in list.list ==> r in old(list.list) || fresh(r)
      ensures |old(localBatch)| < BATCH ==>
        && localBatch == old(localBatch) + [x]
        && perThread.slots == old(perThread.slots) && list.list == old(list.list) && list.Rings() == old(list.Rings())
      ensures |old(localBatch)| == BATCH ==>
        && localBatch == [x]
        && t in perThread.slots && (t !in old(perThread.slots) ==> fresh(perThread.slots[t]))
        && HandedOver(ToSimd(old(localBatch)), list.singleSpscLen, t, perThread.slots[t], old(list.list), old(perThread.slots),
             old(list.Rings()), list.list, perThread.slots, list.Rings())
    {
      ghost var flushes := 0;
      while true
        invariant Valid() && flushes <= 1
        invariant forall r :: r in list.list ==> r in old(list.list) || fresh(r)
        invariant flushes == 0 ==>
          && localBatch == old(localBatch)
          && perThread.slots == old(perThread.slots) && list.list == old(list.list) && list.Rings() == old(list.Rings())
        invariant flushes == 1 ==>
          && |old(localBatch)| == BATCH && localBatch == []
          && t in perThread.slots && (t !in old(perThread.slots) ==> fresh(perThread.slots[t]))
          && HandedOver(ToSimd(old(localBatch)), list.singleSpscLen, t, perThread.slots[t], old(list.list), old(perThread.slots),
               old(list.Rings()), list.list, perThread.slots, list.Rings())
        decreases 1 - flushes
      {
        if |localBatch| >= BATCH {
          Flush(t);
          flushes := 1;
          continue;
        }
        localBatch := localBatch + [x];
        break;
      }
    }

    /** Every handle has its own local batch and shares the rest. */
    method Clone() returns (p: Producer)
      ensures fresh(p) && p.perThread == perThread && p.list == list && p.localBatch == []
    {
      p := new Producer(perThread, list);
    }
  }

  function ContentsOf<R>(list: seq<R>, rings: map<R, Ring>): seq<seq<seq<int>>> {
    seq(|list|, i requires 0 <= i < |list| => if list[i] in rings then rings[list[i]].groups else [])
  }

  /** The rings and the cache before and after one synchronisation. */
  ghost predicate Drained(list: seq<SpscRing>, rings: map<SpscRing, Ring>, cached: seq<int>,
      rings': map<SpscRing, Ring>, cached': seq<int>)
  {
    var res := DrainAll(ContentsOf(list, rings), cached);
    && rings'.Keys == rings.Keys
    && ContentsOf(list, rings') == res.0 && cached' == res.1
    && (forall r :: r in rings ==> FrontMoved(rings[r], rings'[r]))
  }

  /** The caching consumer. */
  class Consumer {
    const consumer: ConsumerRegistry
    var cached: seq<int>

    constructor (consumer: ConsumerRegistry)
      ensures this.consumer == consumer && cached == []
    {
      this.consumer, cached := consumer, [];
    }

    ghost predicate Valid()
      reads this, consumer, consumer.list
    {
      |cached| <= CACHE && Distinct(consumer.list) && AllGroups(Contents(consumer.list))
    }

    method Sync()
      requires Valid()
      modifies this`cached, consumer.list
      ensures Contents(consumer.list) == DrainAll(old(Contents(consumer.list)), old(cached)).0
      ensures cached == DrainAll(old(Contents(consumer.list)), old(cached)).1
      ensures (forall j :: 0 <= j < |consumer.list| ==> consumer.list[j].groups == []) || |cached| + BATCH > CACHE
      ensures Valid()
      ensures Drained(consumer.list, old(consumer.Rings()), old(cached), consumer.Rings(), cached)
    {
      hide Distinct, DrainAll;
      DrainAllKeepsGroups(Contents(consumer.list), cached);
      assert Contents(consumer.list) == ContentsOf(consumer.list, consumer.Rings());
      cached := PopAll(consumer, cached);
      assert Contents(consumer.list) == ContentsOf(consumer.list, consumer.Rings());
      forall r | r in old(consumer.Rings()) ensures FrontMoved(old(consumer.Rings())[r], consumer.Rings()[r]) {
        var j :| 0 <= j < |consumer.list| && consumer.list[j] == r;
        assert FrontTaken(consumer.list[j]);
      }
    }

    /** Pops the newest cached element, refilling an empty cache from the rings first. */
    method Pop() returns (x: Option<int>)
      requires Valid()
      modifies this`cached, consumer.list
      ensures Valid()
      ensures old(cached) != [] ==>
        && x == Some(old(cached)[|old(cached)| - 1]) && cached == old(cached)[..|old(cached)| - 1]
        && consumer.Rings() == old(consumer.Rings())
      ensures old(cached) == [] ==>
        && Drained(consumer.list, old(consumer.Rings()), [], consumer.Rings(), cached + (if x == None then [] else [x.value]))
        && (x == None ==> cached == [])
    {
      hide Distinct, AllGroups, Drained, DrainAll, ConsumerRegistry.Rings, Contents;
      if cached == [] { Sync(); }
      if cached == [] { assert cached + [] == cached; return None; }
      assert cached[..|cached| - 1] + [cached[|cached| - 1]] == cached;
      x := Some(cached[|cached| - 1]);
      cached := cached[..|cached| - 1];
    }
  }

  lemma {:induction false} DrainAllKeepsGroups(contents: seq<seq<seq<int>>>, cached: seq<int>)
    requires AllGroups(contents)
    ensures AllGroups(DrainAll(contents, cached).0)
    decreases |contents|
  {
    if contents != [] {
      var n := Min(CacheRoom(cached), |contents[0]|);
      assert AllGroups(contents[1..]) by { assert forall i :: 0 <= i < |contents[1..]| ==> contents[1..][i] == contents[i + 1]; }
      DrainAllKeepsGroups(contents[1..], cached + Flatten(contents[0][..n]));
    }
  }
}
