/** How many elements a consumer can obtain by popping. */
module QueueSupply {
  import opened Bags
  import opened QueueMachine
  import opened QueueProperties

  ghost predicate CanPop<R>(q: Queue<R>) {
    && Inv(q) && q.drain == None
    && (forall r :: r in q.registry ==> r in q.rings)
  }

  lemma CanPopIff<R>(q: Queue<R>)
    requires Inv(q) && q.drain == None
    ensures CanPop(q)
  {
    forall r | r in q.registry ensures r in q.rings.Keys {}
  }

  /** What the cache and all the rings hold. */
  ghost function Obtainable<R>(q: Queue<R>): nat {
    |q.cached| + BATCH * |Flatten(GroupsInOrder(q))|
  }

  lemma {:induction false} GroupsAreWhole<R>(q: Queue<R>)
    requires Inv(q)
    ensures AllGroups(GroupsInOrder(q)) && |q.cached| <= CACHE
  {}

  lemma {:induction false} FlattenWhole(contents: seq<seq<seq<int>>>)
    requires AllGroups(contents)
    ensures forall k :: 0 <= k < |Flatten(contents)| ==> |Flatten(contents)[k]| == BATCH
  {
    if contents != [] {
      var front := contents[..|contents| - 1];
      assert AllGroups(front) by { assert forall i :: 0 <= i < |front| ==> front[i] == contents[i]; }
      FlattenWhole(front);
    }
  }

  lemma PrefixWhole(all: seq<seq<int>>, m: nat)
    requires m <= |all| && forall k :: 0 <= k < |all| ==> |all[k]| == BATCH
    ensures |Flatten(all[..m])| == BATCH * m
  {
    FlattenLength(all[..m]);
  }

  /** Synchronising moves supply but does not change it, and finds something whenever there is something. */
  lemma {:induction false} SyncKeepsSupply<R>(q: Queue<R>)
    requires CanPop(q)
    ensures var q' := SyncCall(q);
      && CanPop(q') && Obtainable(q') == Obtainable(q)
      && (q.cached == [] ==> (q'.cached == [] <==> Obtainable(q) == 0))
  {
    hide Inv, SyncCall;
    SyncIsDrainAll(q);
    GroupsAreWhole(q);
    var all := Flatten(GroupsInOrder(q));
    DrainAllTakesPrefix(GroupsInOrder(q), q.cached);
    FlattenWhole(GroupsInOrder(q));
    var m := Min(CacheRoom(q.cached), |all|);
    PrefixWhole(all, m);
    CanPopIff(SyncCall(q));
    assert |Flatten(GroupsInOrder(SyncCall(q)))| == |all| - m;
  }

  lemma {:induction false} PopKeepsSupply<R>(q: Queue<R>)
    requires CanPop(q)
    ensures var (q', x) := PopCall(q);
      && CanPop(q') && (x == None <==> Obtainable(q) == 0)
      && Obtainable(q') == Obtainable(q) - (if x == None then 0 else 1)
  {
    if q.cached == [] { SyncKeepsSupply(q); }
    var q1 := if q.cached == [] then SyncCall(q) else q;
    if q1.cached != [] {
      StepInv(q1, PopCached);
      hide Inv, SyncCall;
      CanPopIff(PopCall(q).0);
      assert GroupsInOrder(PopCall(q).0) == GroupsInOrder(q1);
    }
  }

  /** Up to `n` pops, stopping at the first that finds nothing. */
  ghost function PopMany<R>(q: Queue<R>, n: nat): (Queue<R>, seq<int>)
    requires CanPop(q)
    decreases n
  {
    if n == 0 then (q, []) else
    PopKeepsSupply(q);
    var (q1, x) := PopCall(q);
    if x == None then (q1, []) else
    var (q2, xs) := PopMany(q1, n - 1);
    (q2, [x.value] + xs)
  }

  /** `n` pops find exactly as many elements as there are, up to `n`. */
  lemma {:induction false} PopManyFinds<R>(q: Queue<R>, n: nat)
    requires CanPop(q)
    ensures var (q', xs) := PopMany(q, n);
      && CanPop(q') && |xs| == Min(n, Obtainable(q)) && Obtainable(q') == Obtainable(q) - |xs|
    decreases n
  {
    if n > 0 {
      hide Inv, PopCall, Obtainable;
      PopKeepsSupply(q);
      var (q1, x) := PopCall(q);
      if x != None { PopManyFinds(q1, n - 1); }
    }
  }

  /** One more pop after `n` successful ones. */
  lemma {:induction false} PopOneMore<R>(q: Queue<R>, n: nat)
    requires CanPop(q) && |PopMany(q, n).1| == n
    ensures CanPop(PopMany(q, n).0)
    ensures var (q1, xs) := PopMany(q, n); var (q2, x) := PopCall(q1);
      PopMany(q, n + 1) == (q2, xs + (if x == None then [] else [x.value]))
    decreases n
  {
    hide Inv, PopCall, Obtainable;
    PopManyFinds(q, n);
    PopKeepsSupply(q);
    var (q1, x) := PopCall(q);
    if n == 0 {
      if x != None {
        PopKeepsSupply(q1);
        assert PopMany(q1, 0) == (q1, []);
        assert [x.value] + [] == [x.value];
      }
      var last := if x == None then [] else [x.value];
      assert PopMany(q, 1) == (q1, last);
      assert PopMany(q, 0) == (q, []) && [] + last == last;
    } else {
      PopOneMore(q1, n - 1);
      var (q2, xs) := PopMany(q1, n - 1);
      var y := PopCall(q2).1;
      var last := if y == None then [] else [y.value];
      assert [x.value] + (xs + last) == ([x.value] + xs) + last;
    }
  }

  /** Once a pop finds nothing, asking for more changes nothing. */
  lemma {:induction false} PopManyStops<R>(q: Queue<R>, i: nat, n: nat)
    requires CanPop(q) && i < n && |PopMany(q, i).1| == i
    requires CanPop(PopMany(q, i).0) && PopCall(PopMany(q, i).0).1 == None
    ensures PopMany(q, n) == (PopCall(PopMany(q, i).0).0, PopMany(q, i).1)
    decreases i
  {
    hide Inv, PopCall, Obtainable;
    PopKeepsSupply(q);
    if i == 0 {
      assert PopMany(q, 0) == (q, []);
    } else {
      PopManyStops(PopCall(q).0, i - 1, n - 1);
    }
  }

  /** The state after a consumer looked for elements: synchronised if its cache was empty. */
  ghost function Looked<R>(q: Queue<R>): (q': Queue<R>)
    requires CanPop(q)
    ensures CanPop(q') && Obtainable(q') == Obtainable(q)
  {
    SyncKeepsSupply(q);
    if q.cached == [] then SyncCall(q) else q
  }
}
