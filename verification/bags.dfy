/** Optional values, and counting the elements of a sequence that satisfy a test. */
module Bags {
  datatype Option<+T> = None | Some(value: T)

  function Min(a: int, b: int): int { if a <= b then a else b }

  ghost predicate Distinct<T>(s: seq<T>) {
    forall i, j :: 0 <= i < j < |s| ==> s[i] != s[j]
  }

  /** `s` without the element at `i`. */
  function Drop<T>(s: seq<T>, i: nat): seq<T>
    requires i < |s|
  {
    s[..i] + s[i + 1..]
  }

  /** How many elements of `s` satisfy `p`. */
  function Count<E>(s: seq<E>, p: E -> bool): nat {
    if s == [] then 0 else Count(s[..|s| - 1], p) + (if p(s[|s| - 1]) then 1 else 0)
  }

  /** How many elements of all the sequences in `ss` satisfy `p`. */
  function CountAll<E>(ss: seq<seq<E>>, p: E -> bool): nat {
    if ss == [] then 0 else CountAll(ss[..|ss| - 1], p) + Count(ss[|ss| - 1], p)
  }

  function Flatten<E>(ss: seq<seq<E>>): seq<E> {
    if ss == [] then [] else Flatten(ss[..|ss| - 1]) + ss[|ss| - 1]
  }

  lemma {:induction false} CountSnoc<E>(s: seq<E>, x: E, p: E -> bool)
    ensures Count(s + [x], p) == Count(s, p) + (if p(x) then 1 else 0)
  {
    assert (s + [x])[..|s|] == s;
  }

  lemma {:induction false} CountConcat<E>(a: seq<E>, b: seq<E>, p: E -> bool)
    ensures Count(a + b, p) == Count(a, p) + Count(b, p)
  {
    if b == [] {
      assert a + b == a;
    } else {
      var b', x := b[..|b| - 1], b[|b| - 1];
      assert a + b == (a + b') + [x];
      CountSnoc(a + b', x, p);
      CountConcat(a, b', p);
    }
  }

  lemma {:induction false} CutAt<E>(s: seq<E>, k: nat)
    requires k < |s|
    ensures s == s[..k] + [s[k]] + s[k + 1..]
  {}

  /** Splitting off the element at `k`. */
  lemma {:induction false} CountAt<E>(s: seq<E>, k: nat, p: E -> bool)
    requires k < |s|
    ensures Count(s, p) == Count(s[..k] + s[k + 1..], p) + (if p(s[k]) then 1 else 0)
  {
    CutAt(s, k);
    CountConcat(s[..k] + [s[k]], s[k + 1..], p);
    CountSnoc(s[..k], s[k], p);
    CountConcat(s[..k], s[k + 1..], p);
  }

  lemma {:induction false} CountUpdate<E>(s: seq<E>, k: nat, x: E, p: E -> bool)
    requires k < |s|
    ensures Count(s[k := x], p) + (if p(s[k]) then 1 else 0) == Count(s, p) + (if p(x) then 1 else 0)
  {
    CountAt(s, k, p);
    CountAt(s[k := x], k, p);
    assert s[k := x][..k] == s[..k] && s[k := x][k + 1..] == s[k + 1..];
  }

  lemma {:induction false} CountEverything<E>(s: seq<E>, p: E -> bool)
    requires forall k :: 0 <= k < |s| ==> p(s[k])
    ensures Count(s, p) == |s|
  {
    if s != [] { CountEverything(s[..|s| - 1], p); }
  }

  lemma {:induction false} CountNothing<E>(s: seq<E>, p: E -> bool)
    requires forall k :: 0 <= k < |s| ==> !p(s[k])
    ensures Count(s, p) == 0
  {
    if s != [] { CountNothing(s[..|s| - 1], p); }
  }

  lemma {:induction false} CountAllConcat<E>(a: seq<seq<E>>, b: seq<seq<E>>, p: E -> bool)
    ensures CountAll(a + b, p) == CountAll(a, p) + CountAll(b, p)
  {
    if b == [] {
      assert a + b == a;
    } else {
      assert (a + b)[..|a + b| - 1] == a + b[..|b| - 1];
      CountAllConcat(a, b[..|b| - 1], p);
    }
  }

  lemma {:induction false} CountAllSplit<E>(ss: seq<seq<E>>, n: nat, p: E -> bool)
    requires n <= |ss|
    ensures CountAll(ss, p) == CountAll(ss[..n], p) + CountAll(ss[n..], p)
  {
    assert ss == ss[..n] + ss[n..];
    CountAllConcat(ss[..n], ss[n..], p);
  }

  lemma {:induction false} CountAllAt<E>(ss: seq<seq<E>>, k: nat, p: E -> bool)
    requires k < |ss|
    ensures CountAll(ss, p) == CountAll(ss[..k] + ss[k + 1..], p) + Count(ss[k], p)
  {
    CountAllSplit(ss, k + 1, p);
    CountAllConcat(ss[..k], ss[k + 1..], p);
    assert ss[..k + 1][..k] == ss[..k];
  }

  lemma {:induction false} CountAllUpdate<E>(ss: seq<seq<E>>, k: nat, s: seq<E>, p: E -> bool)
    requires k < |ss|
    ensures CountAll(ss[k := s], p) + Count(ss[k], p) == CountAll(ss, p) + Count(s, p)
  {
    CountAllAt(ss, k, p);
    CountAllAt(ss[k := s], k, p);
    assert ss[k := s][..k] == ss[..k] && ss[k := s][k + 1..] == ss[k + 1..];
  }

  lemma {:induction false} CountFlatten<E>(ss: seq<seq<E>>, p: E -> bool)
    ensures Count(Flatten(ss), p) == CountAll(ss, p)
  {
    if ss != [] {
      CountFlatten(ss[..|ss| - 1], p);
      CountConcat(Flatten(ss[..|ss| - 1]), ss[|ss| - 1], p);
    }
  }

  lemma {:induction false} FlattenConcat<E>(a: seq<seq<E>>, b: seq<seq<E>>)
    ensures Flatten(a + b) == Flatten(a) + Flatten(b)
  {
    if b == [] {
      assert a + b == a;
    } else {
      var front, last := b[..|b| - 1], b[|b| - 1];
      assert (a + b)[..|a + b| - 1] == a + front && (a + b)[|a + b| - 1] == last;
      FlattenConcat(a, front);
      assert (Flatten(a) + Flatten(front)) + last == Flatten(a) + (Flatten(front) + last);
    }
  }

  /** If at most one element satisfies `p`, no two positions do. */
  lemma {:induction false} CountAtMostOnce<E>(s: seq<E>, p: E -> bool, i: nat, j: nat)
    requires i < j < |s| && Count(s, p) <= 1
    ensures !(p(s[i]) && p(s[j]))
  {
    CountAt(s, j, p);
    var rest := s[..j] + s[j + 1..];
    assert rest[i] == s[i];
    CountAt(rest, i, p);
  }

  lemma {:induction false} CountIsMultiplicity(s: seq<int>, v: int)
    ensures Count(s, x => x == v) == multiset(s)[v]
  {
    if s != [] {
      CountIsMultiplicity(s[..|s| - 1], v);
      assert s == s[..|s| - 1] + [s[|s| - 1]];
    }
  }
}
