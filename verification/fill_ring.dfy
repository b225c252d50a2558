/**
  The fill ring with its memory.  A refill reserves a batch of entries at the end of what is reserved, writes
  free frames to them, and submits as many entries as it reserved, which the kernel takes from the beginning of
  what is reserved.  The two are the same entries only if no earlier refill left reservations behind.
*/
module FillRings {
  import opened Bags
  import opened XskRings

  /**
    `kernel` are the addresses submitted and not yet received into; `reserved` the entries from position `at` on
    that are reserved and not submitted, with the frame written to them, if any; `batch` of them were reserved
    by the refill in progress, and it has written `written`.
  */
  datatype FillRing = FillRing(mem: seq<int>, at: nat, kernel: seq<int>, reserved: seq<Option<int>>, batch: nat, written: nat)

  ghost predicate FillOk(f: FillRing) {
    && |f.kernel| + |f.reserved| <= |f.mem| && f.mem != []
    && f.written <= f.batch <= |f.reserved|
    && (forall k :: |f.reserved| - f.batch + f.written <= k < |f.reserved| ==> f.reserved[k] == None)
  }

  predicate CanReserve(f: FillRing, n: nat) {
    f.batch == 0 && f.written == 0 && |f.kernel| + |f.reserved| + n <= |f.mem|
  }

  predicate CanWrite(f: FillRing) {
    f.written < f.batch <= |f.reserved| && f.mem != []
  }

  predicate CanSubmit(f: FillRing) {
    f.written == f.batch <= |f.reserved| && f.mem != []
  }

  function Blank(n: nat): (s: seq<Option<int>>)
    ensures |s| == n && forall k :: 0 <= k < n ==> s[k] == None
  {
    seq(n, k => None)
  }

  function Reserve(f: FillRing, n: nat): FillRing {
    f.(reserved := f.reserved + Blank(n), batch := n, written := 0)
  }

  /** The reserved entry that the refill in progress writes next. */
  function NextEntry(f: FillRing): nat
    requires CanWrite(f)
  {
    |f.reserved| - f.batch + f.written
  }

  function Write(f: FillRing, a: int): FillRing
    requires CanWrite(f)
  {
    f.(reserved := f.reserved[NextEntry(f) := Some(a)],
       mem := f.mem[Entry(f.at + NextEntry(f), |f.mem|) := a], written := f.written + 1)
  }

  /** What the kernel finds in the `k`-th reserved entry: the frame written to it, or what was there before. */
  function Content(f: FillRing, k: nat): int
    requires k < |f.reserved| && f.mem != []
  {
    match f.reserved[k]
    case Some(a) => a
    case None => f.mem[Entry(f.at + k, |f.mem|)]
  }

  function Contents(f: FillRing, n: nat): (s: seq<int>)
    requires n <= |f.reserved| && f.mem != []
    ensures |s| == n
  {
    if n == 0 then [] else Contents(f, n - 1) + [Content(f, n - 1)]
  }

  /** The first `batch` reserved entries go to the kernel, whether or not they were written. */
  function Submit(f: FillRing): FillRing
    requires CanSubmit(f)
  {
    f.(kernel := f.kernel + Contents(f, f.batch), reserved := f.reserved[f.batch..], at := f.at + f.batch,
       batch := 0, written := 0)
  }

  /** A refill that finds no frame for an entry gives up; its reservations stay. */
  function Fail(f: FillRing): FillRing { f.(batch := 0, written := 0) }

  /** A submission covers only entries that were written. */
  predicate CoversWritten(f: FillRing, n: nat) {
    forall k :: 0 <= k < n && k < |f.reserved| ==> f.reserved[k].Some?
  }

  // ----- counting --------------------------------------------------------------------------------------

  function Lift(p: int -> bool): Option<int> -> bool { (o: Option<int>) => o.Some? && p(o.value) }

  function CountRing(f: FillRing, p: int -> bool): nat { Count(f.kernel, p) + Count(f.reserved, Lift(p)) }

  lemma ReserveCounts(f: FillRing, n: nat, p: int -> bool)
    ensures CountRing(Reserve(f, n), p) == CountRing(f, p)
  {
    CountConcat(f.reserved, Blank(n), Lift(p));
    CountNothing(Blank(n), Lift(p));
  }

  lemma WriteCounts(f: FillRing, a: int, p: int -> bool)
    requires FillOk(f) && CanWrite(f)
    ensures CountRing(Write(f, a), p) == CountRing(f, p) + (if p(a) then 1 else 0)
  {
    CountUpdate(f.reserved, NextEntry(f), Some(a), Lift(p));
  }

  lemma OneMore(f: FillRing, n: nat, p: int -> bool)
    requires 0 < n <= |f.reserved| && f.mem != []
    ensures Count(Contents(f, n), p) == Count(Contents(f, n - 1), p) + (if p(Content(f, n - 1)) then 1 else 0)
    ensures Count(f.reserved[..n], Lift(p))
      == Count(f.reserved[..n - 1], Lift(p)) + (if Lift(p)(f.reserved[n - 1]) then 1 else 0)
  {
    CountSnoc(Contents(f, n - 1), Content(f, n - 1), p);
    assert f.reserved[..n] == f.reserved[..n - 1] + [f.reserved[n - 1]];
    CountSnoc(f.reserved[..n - 1], f.reserved[n - 1], Lift(p));
  }

  lemma {:induction false} ContentsCount(f: FillRing, n: nat, p: int -> bool)
    requires n <= |f.reserved| && f.mem != [] && CoversWritten(f, n)
    ensures Count(Contents(f, n), p) == Count(f.reserved[..n], Lift(p))
  {
    if n > 0 {
      ContentsCount(f, n - 1, p);
      OneMore(f, n, p);
    }
  }

  /** Submitting written entries moves frames and copies none. */
  lemma SubmitCounts(f: FillRing, p: int -> bool)
    requires CanSubmit(f) && CoversWritten(f, f.batch)
    ensures CountRing(Submit(f), p) == CountRing(f, p)
  {
    ContentsCount(f, f.batch, p);
    CountConcat(f.kernel, Contents(f, f.batch), p);
    CountConcat(f.reserved[..f.batch], f.reserved[f.batch..], Lift(p));
    assert f.reserved == f.reserved[..f.batch] + f.reserved[f.batch..];
  }

  /** An entry among those submitted that was not written adds its old content. */
  lemma {:induction false} ContentsAddStale(f: FillRing, n: nat, k: nat, p: int -> bool)
    requires n <= |f.reserved| && f.mem != [] && k < n && f.reserved[k] == None && p(Content(f, k))
    ensures Count(Contents(f, n), p) > Count(f.reserved[..n], Lift(p))
  {
    hide Count, Contents, Entry;
    ContentsAtLeast(f, n - 1, p);
    if k < n - 1 { ContentsAddStale(f, n - 1, k, p); }
    OneMore(f, n, p);
  }

  lemma {:induction false} ContentsAtLeast(f: FillRing, n: nat, p: int -> bool)
    requires n <= |f.reserved| && f.mem != []
    ensures Count(Contents(f, n), p) >= Count(f.reserved[..n], Lift(p))
  {
    if n > 0 {
      ContentsAtLeast(f, n - 1, p);
      OneMore(f, n, p);
    }
  }

  lemma SubmitAddsStale(f: FillRing, k: nat, p: int -> bool)
    requires CanSubmit(f) && k < f.batch && f.reserved[k] == None && p(Content(f, k))
    ensures CountRing(Submit(f), p) > CountRing(f, p)
  {
    ContentsAddStale(f, f.batch, k, p);
    CountConcat(f.kernel, Contents(f, f.batch), p);
    CountConcat(f.reserved[..f.batch], f.reserved[f.batch..], Lift(p));
    assert f.reserved == f.reserved[..f.batch] + f.reserved[f.batch..];
  }

  // ----- whole refills ---------------------------------------------------------------------------------

  /** Writing the frames `xs` to the entries of the refill in progress. */
  function WriteAll(f: FillRing, xs: seq<int>): (f': FillRing)
    requires FillOk(f) && f.written + |xs| <= f.batch
    ensures FillOk(f') && f'.written == f.written + |xs| && f'.batch == f.batch && |f'.reserved| == |f.reserved|
    ensures |f'.mem| == |f.mem| && f'.kernel == f.kernel && f'.at == f.at
  {
    if xs == [] then f else Write(WriteAll(f, xs[..|xs| - 1]), xs[|xs| - 1])
  }

  lemma {:induction false} WriteAllEntries(f: FillRing, xs: seq<int>)
    requires FillOk(f) && f.written + |xs| <= f.batch
    ensures var first := |f.reserved| - f.batch + f.written;
      WriteAll(f, xs).reserved == f.reserved[..first] + seq(|xs|, k requires 0 <= k < |xs| => Some(xs[k])) + f.reserved[first + |xs|..]
  {
    var first := |f.reserved| - f.batch + f.written;
    if xs != [] {
      var front := xs[..|xs| - 1];
      WriteAllEntries(f, front);
      assert WriteAll(f, xs).reserved == WriteAll(f, front).reserved[first + |front| := Some(xs[|xs| - 1])];
    }
  }

  /** A refill that reserves `n` entries and finds the frames `xs`: it submits if there are enough, and fails otherwise. */
  function Refill(f: FillRing, n: nat, xs: seq<int>): FillRing
    requires FillOk(f) && CanReserve(f, n) && |xs| <= n
  {
    var f' := WriteAll(Reserve(f, n), xs);
    if |xs| == n then Submit(f') else Fail(f')
  }

  /** The entries reserved after a refill has written its frames. */
  lemma {:induction false} RefillEntries(f: FillRing, n: nat, xs: seq<int>)
    requires FillOk(f) && CanReserve(f, n) && |xs| <= n
    ensures var f' := WriteAll(Reserve(f, n), xs);
      && |f'.reserved| == |f.reserved| + n
      && (forall k :: 0 <= k < |f.reserved| ==> f'.reserved[k] == f.reserved[k])
      && (forall k :: |f.reserved| <= k < |f'.reserved| ==>
            f'.reserved[k] == if k - |f.reserved| < |xs| then Some(xs[k - |f.reserved|]) else None)
  {
    WriteAllEntries(Reserve(f, n), xs);
  }

  /**
    A refill leaves the ring without reservations if and only if there were none before it and it reserves no
    more entries than it finds frames for.
  */
  lemma {:induction false} NoReservationsLeftIff(f: FillRing, n: nat, xs: seq<int>)
    requires FillOk(f) && CanReserve(f, n) && |xs| <= n
    ensures Refill(f, n, xs).reserved == [] <==> f.reserved == [] && |xs| == n
  {}

  /** What a failed refill leaves: its frames in the first new entries, and behind them entries with old content. */
  lemma {:induction false} FailedRefillLeaves(f: FillRing, n: nat, xs: seq<int>)
    requires FillOk(f) && CanReserve(f, n) && |xs| < n
    ensures var f' := Refill(f, n, xs);
      && f'.kernel == f.kernel && f'.at == f.at && |f'.reserved| == |f.reserved| + n && f'.batch == 0
      && f'.reserved[|f.reserved| + |xs|] == None
  {
    RefillEntries(f, n, xs);
  }

  /** A submission covers written entries only, exactly when those left behind and covered by it were written. */
  lemma {:induction false} RefillCoversIff(f: FillRing, n: nat, xs: seq<int>)
    requires FillOk(f) && CanReserve(f, n) && |xs| == n
    ensures CoversWritten(WriteAll(Reserve(f, n), xs), n) <==> CoversWritten(f, n)
  {
    hide WriteAll;
    RefillEntries(f, n, xs);
    var f' := WriteAll(Reserve(f, n), xs);
    SameCoverage(f, f', n);
  }

  lemma SameCoverage(f: FillRing, f': FillRing, n: nat)
    requires |f'.reserved| == |f.reserved| + n
    requires forall k :: 0 <= k < |f.reserved| ==> f'.reserved[k] == f.reserved[k]
    requires forall k :: |f.reserved| <= k < |f'.reserved| ==> f'.reserved[k].Some?
    ensures CoversWritten(f', n) <==> CoversWritten(f, n)
  {
    assert CoversWritten(f', n) ==> forall k :: 0 <= k < n && k < |f.reserved| ==> f'.reserved[k].Some?;
  }

  /** Writing one frame and then the others is writing them all. */
  lemma {:induction false} WriteAllFirst(f: FillRing, a: int, rest: seq<int>)
    requires FillOk(f) && f.written + 1 + |rest| <= f.batch
    ensures FillOk(Write(f, a)) && WriteAll(f, [a] + rest) == WriteAll(Write(f, a), rest)
    decreases |rest|
  {
    var all := [a] + rest;
    assert all[|all| - 1] == if rest == [] then a else rest[|rest| - 1];
    if rest == [] {
      assert all[..|all| - 1] == [];
    } else {
      assert all[..|all| - 1] == [a] + rest[..|rest| - 1];
      WriteAllFirst(f, a, rest[..|rest| - 1]);
    }
  }

  lemma WriteTwo(f: FillRing, a: int, b: int)
    requires FillOk(f) && f.written + 2 <= f.batch
    ensures WriteAll(f, [a, b]) == Write(Write(f, a), b)
  {
    assert [a, b] == [a] + [b] && [b] == [b] + [];
    WriteAllFirst(f, a, [b]);
    WriteAllFirst(Write(f, a), b, []);
  }

  lemma ExampleFails(f: FillRing)
    requires f == FillRing([10, 20, 30, 40], 4, [30, 40], [], 0, 0)
    ensures Refill(f, 2, [50]) == FillRing([50, 20, 30, 40], 4, [30, 40], [Some(50), None], 0, 0)
  {
    var f1 := Reserve(f, 2);
    assert f1.reserved == [None, None];
    assert [50] == [50] + [];
    WriteAllFirst(f1, 50, []);
    assert Write(f1, 50).reserved == [Some(50), None];
  }

  lemma ExampleDuplicates(f: FillRing)
    requires f == FillRing([50, 20, 30, 40], 4, [], [Some(50), None], 0, 0)
    ensures Refill(f, 2, [60, 70]).kernel == [50, 20]
  {
    var f1 := Reserve(f, 2);
    assert f1.reserved == [Some(50), None, None, None];
    WriteTwo(f1, 60, 70);
    var f2 := Write(f1, 60);
    assert f2.reserved == [Some(50), None, Some(60), None] && f2.mem == [50, 20, 60, 40];
    var f3 := Write(f2, 70);
    assert f3.reserved == [Some(50), None, Some(60), Some(70)] && f3.mem == [50, 20, 60, 70];
    assert Contents(f3, 0) == [] && Contents(f3, 1) == [50];
    assert Contents(f3, 2) == Contents(f3, 1) + [20];
  }

  /**
    For example: a ring of four entries that held 10, 20, 30 and 40, of which the kernel has received into the first
    two.  A refill that reserves two entries and finds one frame, 50, fails.  When the kernel has used 30 and 40
    as well, a refill that finds 60 and 70 hands it 50 and 20.
  */
  lemma RefillExample()
    ensures var f := FillRing([10, 20, 30, 40], 4, [30, 40], [], 0, 0);
      Refill(Refill(f, 2, [50]).(kernel := []), 2, [60, 70]).kernel == [50, 20]
  {
    hide Refill;
    var f := FillRing([10, 20, 30, 40], 4, [30, 40], [], 0, 0);
    ExampleFails(f);
    ExampleDuplicates(Refill(f, 2, [50]).(kernel := []));
  }
}
