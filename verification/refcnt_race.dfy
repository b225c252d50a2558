/**
  One reference counter shared by threads.  Dropping and adding a reference are not atomic: each first reads the
  counter, and a thread that reads 1 skips the atomic operation.  Steps of all threads interleave; memory is
  sequentially consistent, and no more references are added than a 16-bit counter can count.
*/
module RefcntRace {
  import H = MbufHeap

  datatype Phase = Idle | DropSawOne | DropSawMore | AddSawOne | AddSawMore

  datatype Thread = Thread(handles: nat, phase: Phase)

  /** `releases` counts how often the mbuf was handed back to its pool. */
  datatype State = State(count: nat, threads: seq<Thread>, releases: nat)

  datatype Event =
    | ReadToDrop(t: nat)
    | FinishDrop(t: nat)
    | ReadToAdd(t: nat)
    | FinishAdd(t: nat)
    | Pass(t: nat, u: nat)

  /** The handles a thread is not busy dropping or adding to. */
  function Spare(th: Thread): int { if th.phase == Idle then th.handles else th.handles - 1 }

  predicate Enabled(s: State, e: Event) {
    match e
    case ReadToDrop(t) => t < |s.threads| && s.threads[t].phase == Idle && s.threads[t].handles >= 1
    case FinishDrop(t) => t < |s.threads| && s.threads[t].handles >= 1 && (s.threads[t].phase == DropSawOne || s.threads[t].phase == DropSawMore)
    case ReadToAdd(t) => t < |s.threads| && s.threads[t].phase == Idle && s.threads[t].handles >= 1
    case FinishAdd(t) =>
      && t < |s.threads| && (s.threads[t].phase == AddSawOne || s.threads[t].phase == AddSawMore)
      && Handles(s.threads) < H.COUNT_MAX
    case Pass(t, u) => t < |s.threads| && u < |s.threads| && t != u && Spare(s.threads[t]) >= 1
  }

  function With(s: State, t: nat, handles: nat, phase: Phase): seq<Thread>
    requires t < |s.threads|
  {
    s.threads[t := Thread(handles, phase)]
  }

  function Step(s: State, e: Event): State
    requires Enabled(s, e)
  {
    match e
    case ReadToDrop(t) =>
      s.(threads := With(s, t, s.threads[t].handles, if s.count == 1 then DropSawOne else DropSawMore))
    case FinishDrop(t) =>
      var left := With(s, t, s.threads[t].handles - 1, Idle);
      if s.threads[t].phase == DropSawOne then s.(threads := left, releases := s.releases + 1)
      else if H.Added(s.count, -1) == 0 then State(1, left, s.releases + 1)
      else State(H.Added(s.count, -1), left, s.releases)
    case ReadToAdd(t) =>
      s.(threads := With(s, t, s.threads[t].handles, if s.count == 1 then AddSawOne else AddSawMore))
    case FinishAdd(t) =>
      var more := With(s, t, s.threads[t].handles + 1, Idle);
      State(if s.threads[t].phase == AddSawOne then 2 else H.Added(s.count, 1), more, s.releases)
    case Pass(t, u) =>
      s.(threads := With(s, t, s.threads[t].handles - 1, s.threads[t].phase)
                      [u := Thread(s.threads[u].handles + 1, s.threads[u].phase)])
  }

  function Handles(ts: seq<Thread>): nat {
    if ts == [] then 0 else Handles(ts[..|ts| - 1]) + ts[|ts| - 1].handles
  }

  lemma {:induction false} HandlesUpdate(ts: seq<Thread>, t: nat, th: Thread)
    requires t < |ts|
    ensures Handles(ts[t := th]) + ts[t].handles == Handles(ts) + th.handles
  {
    var front := ts[..|ts| - 1];
    if t < |front| {
      HandlesUpdate(front, t, th);
      assert ts[t := th][..|ts| - 1] == front[t := th];
    } else {
      assert ts[t := th][..|ts| - 1] == front;
    }
  }

  lemma {:induction false} HandlesAtLeast(ts: seq<Thread>, t: nat)
    requires t < |ts|
    ensures ts[t].handles <= Handles(ts)
    ensures forall u :: 0 <= u < |ts| && u != t ==> ts[t].handles + ts[u].handles <= Handles(ts)
  {
    HandlesUpdate(ts, t, Thread(0, Idle));
    var rest := ts[t := Thread(0, Idle)];
    forall u | 0 <= u < |ts| && u != t ensures ts[t].handles + ts[u].handles <= Handles(ts) {
      HandlesUpdate(rest, u, Thread(0, Idle));
    }
  }

  /**
    Before the release the counter is the number of handles, and a thread that read 1 holds the only one; after
    it there is no handle, and the counter is 1 again, as the pool expects.
  */
  ghost predicate Inv(s: State) {
    && (forall t :: 0 <= t < |s.threads| && s.threads[t].phase != Idle ==> s.threads[t].handles >= 1)
    && (forall t :: 0 <= t < |s.threads| && (s.threads[t].phase == DropSawOne || s.threads[t].phase == AddSawOne) ==>
          Handles(s.threads) == 1)
    && (if Handles(s.threads) == 0 then s.releases == 1 && s.count == 1
        else s.releases == 0 && s.count == Handles(s.threads) <= H.COUNT_MAX)
  }

  lemma ReadInv(s: State, t: nat, add: bool)
    requires Inv(s) && Enabled(s, if add then ReadToAdd(t) else ReadToDrop(t))
    ensures Inv(Step(s, if add then ReadToAdd(t) else ReadToDrop(t)))
  {
    HandlesUpdate(s.threads, t, Step(s, if add then ReadToAdd(t) else ReadToDrop(t)).threads[t]);
    HandlesAtLeast(s.threads, t);
  }

  lemma FinishDropInv(s: State, t: nat)
    requires Inv(s) && Enabled(s, FinishDrop(t))
    ensures Inv(Step(s, FinishDrop(t)))
  {
    HandlesUpdate(s.threads, t, Step(s, FinishDrop(t)).threads[t]);
    HandlesAtLeast(s.threads, t);
    OthersBusy(s, t);
  }

  /** While one thread is busy, a second one that read 1 cannot exist. */
  lemma OthersBusy(s: State, t: nat)
    requires Inv(s) && t < |s.threads| && s.threads[t].handles >= 1
    ensures forall u :: 0 <= u < |s.threads| && u != t ==> s.threads[u].phase != DropSawOne && s.threads[u].phase != AddSawOne
  {
    HandlesAtLeast(s.threads, t);
  }

  lemma FinishAddInv(s: State, t: nat)
    requires Inv(s) && Enabled(s, FinishAdd(t))
    ensures Inv(Step(s, FinishAdd(t)))
  {
    HandlesUpdate(s.threads, t, Step(s, FinishAdd(t)).threads[t]);
    HandlesAtLeast(s.threads, t);
    OthersBusy(s, t);
  }

  lemma PassInv(s: State, t: nat, u: nat)
    requires Inv(s) && Enabled(s, Pass(t, u))
    ensures Inv(Step(s, Pass(t, u)))
  {
    hide Handles;
    var mid, s' := With(s, t, s.threads[t].handles - 1, s.threads[t].phase), Step(s, Pass(t, u));
    HandlesUpdate(s.threads, t, mid[t]);
    HandlesUpdate(mid, u, s'.threads[u]);
    assert Handles(s'.threads) == Handles(s.threads);
    assert forall x :: 0 <= x < |s.threads| ==> s'.threads[x].phase == s.threads[x].phase;
    assert forall x :: 0 <= x < |s.threads| && x != t ==> s'.threads[x].handles >= s.threads[x].handles;
  }

  lemma {:induction false} StepInv(s: State, e: Event)
    requires Inv(s) && Enabled(s, e)
    ensures Inv(Step(s, e))
  {
    match e
    case ReadToDrop(t) => ReadInv(s, t, false);
    case ReadToAdd(t) => ReadInv(s, t, true);
    case FinishDrop(t) => FinishDropInv(s, t);
    case FinishAdd(t) => FinishAddInv(s, t);
    case Pass(t, u) => PassInv(s, t, u);
  }

  predicate Legal(s: State, es: seq<Event>)
    decreases |es|
  {
    es == [] || (Enabled(s, es[0]) && Legal(Step(s, es[0]), es[1..]))
  }

  function Exec(s: State, es: seq<Event>): State
    requires Legal(s, es)
    decreases |es|
  {
    if es == [] then s else Exec(Step(s, es[0]), es[1..])
  }

  lemma {:induction false} RunInv(s: State, es: seq<Event>)
    requires Inv(s) && Legal(s, es)
    ensures Inv(Exec(s, es))
    decreases |es|
  {
    if es != [] {
      StepInv(s, es[0]);
      RunInv(Step(s, es[0]), es[1..]);
    }
  }

  /** A freshly allocated mbuf: counter 1, one handle, in thread 0. */
  ghost predicate Start(s: State) {
    && s.threads != [] && s.count == 1 && s.releases == 0 && Handles(s.threads) == 1
    && (forall t :: 0 <= t < |s.threads| ==> s.threads[t].phase == Idle)
  }

  /**
    Under every interleaving of any number of threads the mbuf is released exactly once when the last handle
    goes, and never while there is a handle: skipping the atomic operation after reading 1 is safe.
  */
  lemma ReleasedExactlyOnce(s0: State, es: seq<Event>)
    requires Start(s0) && Legal(s0, es)
    ensures var s := Exec(s0, es);
      && s.releases == (if Handles(s.threads) == 0 then 1 else 0)
      && (Handles(s.threads) > 0 ==> s.count == Handles(s.threads))
      && (Handles(s.threads) == 0 ==> s.count == 1)
  {
    RunInv(s0, es);
  }
}
