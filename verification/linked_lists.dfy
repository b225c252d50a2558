/** Singly linked lists in memory, ended by address 0. */
module LinkedLists {
  import opened Bags

  /** The addresses reached from `head` by following `next` up to 0. */
  ghost predicate Chained(head: nat, next: map<nat, nat>, chain: seq<nat>)
    decreases |chain|
  {
    if chain == [] then head == 0
    else head != 0 && head == chain[0] && head in next && Chained(next[head], next, chain[1..])
  }

  lemma {:induction false} ChainUnique(head: nat, next: map<nat, nat>, a: seq<nat>, b: seq<nat>)
    requires Chained(head, next, a) && Chained(head, next, b)
    ensures a == b
    decreases |a|
  {
    if a != [] {
      ChainUnique(next[head], next, a[1..], b[1..]);
      assert a == [a[0]] + a[1..] && b == [b[0]] + b[1..];
    }
  }

  lemma {:induction false} ChainSuffix(head: nat, next: map<nat, nat>, chain: seq<nat>, i: nat)
    requires Chained(head, next, chain) && i < |chain|
    ensures Chained(chain[i], next, chain[i..])
    decreases i
  {
    if i > 0 {
      ChainSuffix(next[head], next, chain[1..], i - 1);
      assert chain[1..][i - 1..] == chain[i..];
    }
  }

  /** A list that ends visits no address twice. */
  lemma ChainDistinct(head: nat, next: map<nat, nat>, chain: seq<nat>)
    requires Chained(head, next, chain)
    ensures Distinct(chain) && 0 !in chain
  {
    forall i, j | 0 <= i < j < |chain| ensures chain[i] != chain[j] {
      ChainSuffix(head, next, chain, i);
      ChainSuffix(head, next, chain, j);
      if chain[i] == chain[j] { ChainUnique(chain[i], next, chain[i..], chain[j..]); }
    }
    forall i | 0 <= i < |chain| ensures chain[i] != 0 { ChainSuffix(head, next, chain, i); }
  }
}
