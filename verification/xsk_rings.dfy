/**
  The producer and consumer rings of an AF_XDP socket, and the caches the program keeps in front of them.
  Ring positions are counted from the creation of the ring and never wrap.
*/
module XskRings {
  import opened Bags
  import Bits

  const RX_BATCH: nat := 32
  const TX_BATCH: nat := 64

  datatype Desc = Desc(addr: int, len: nat, options: nat)

  /** The entry of position `i` in a ring of `n` entries. */
  function Entry(i: nat, n: nat): (r: nat)
    requires n > 0
    ensures r < n
  {
    i % n
  }

  /** Two positions less than one ring apart are different entries. */
  lemma {:induction false} Apart(i: nat, j: nat, n: nat)
    requires i < j < i + n
    ensures Entry(i, n) != Entry(j, n)
  {
    if Entry(i, n) == Entry(j, n) {
      var a: int, b: int := i / n, j / n;
      assert i == a * n + i % n && j == b * n + j % n;
      assert (b - a) * n == j - i;
      Bits.Multiples(b - a, n);
    }
  }

  // ----- producer rings ----------------------------------------------------------------------------------

  /** `xsk_prod_nb_free` on the cached pointers, with the consumer position the kernel would show now. */
  function FreeEntries(cachedProd: nat, cachedCons: nat, size: nat, consumer: nat, nb: nat): int {
    if cachedCons - cachedProd >= nb then cachedCons - cachedProd else consumer + size - cachedProd
  }

  /** A ring the program produces into: the fill ring and the transmit ring. */
  class ProdRing {
    const size: nat
    var cachedProd: nat
    var cachedCons: nat
    var producer: nat
    var entries: seq<Desc>

    constructor (size: nat, entries: seq<Desc>)
      requires |entries| == size > 0
      ensures this.size == size && cachedProd == 0 && cachedCons == size && producer == 0 && this.entries == entries
    {
      this.size := size;
      cachedProd, cachedCons, producer := 0, size, 0;
      this.entries := entries;
    }

    /** `consumer` is the kernel's position: nothing unsubmitted is consumed, nothing unconsumed is reserved again. */
    ghost predicate Valid(consumer: nat)
      reads this
    {
      && |entries| == size > 0
      && consumer <= producer <= cachedProd <= cachedCons <= consumer + size
    }

    /** May report more entries than asked for: `nb` only decides whether the kernel's position is read again. */
    method NbFree(nb: nat, consumer: nat) returns (n: nat)
      requires Valid(consumer)
      modifies this`cachedCons
      ensures Valid(consumer)
      ensures n == FreeEntries(cachedProd, old(cachedCons), size, consumer, nb) == cachedCons - cachedProd
      ensures n == if old(cachedCons) - cachedProd >= nb then old(cachedCons) - cachedProd else consumer + size - cachedProd
    {
      n := cachedCons - cachedProd;
      if n >= nb { return; }
      cachedCons := consumer + size;
      n := cachedCons - cachedProd;
    }

    /** All or nothing. */
    method Reserve(nb: nat, consumer: nat) returns (n: nat, idx: nat)
      requires Valid(consumer)
      modifies this`cachedCons, this`cachedProd
      ensures Valid(consumer)
      ensures n == if consumer + size - old(cachedProd) < nb then 0 else nb
      ensures cachedProd == old(cachedProd) + n && (n > 0 ==> idx == old(cachedProd))
    {
      idx := 0;
      var free := NbFree(nb, consumer);
      if free < nb { return 0, idx; }
      idx := cachedProd;
      cachedProd := cachedProd + nb;
      n := nb;
    }

    method Submit(nb: nat)
      modifies this`producer
      ensures producer == old(producer) + nb
    {
      producer := producer + nb;
    }

    method SetEntry(idx: nat, d: Desc)
      requires |entries| == size > 0
      modifies this`entries
      ensures entries == old(entries)[Entry(idx, size) := d]
    {
      entries := entries[Entry(idx, size) := d];
    }
  }

  /** The entries of the positions from `lo` on hold the stream. */
  ghost predicate Window(entries: seq<Desc>, stream: seq<Desc>, lo: nat) {
    |entries| > 0 && forall i :: lo <= i < |stream| ==> entries[Entry(i, |entries|)] == stream[i]
  }

  /** The positions from `lo` up to `hi`. */
  function Span(lo: nat, hi: nat): (s: seq<nat>)
    ensures |s| == if lo < hi then hi - lo else 0
  {
    seq(if lo < hi then hi - lo else 0, k => lo + k)
  }

  // ----- the transmit ring -------------------------------------------------------------------------------

  /**
    The transmit ring with the slots reserved but not handed out (`cached`) and the number handed out since
    the last submission (`toFlush`).
  */
  class TxRing {
    const tx: ProdRing
    var cached: seq<nat>
    var toFlush: nat

    constructor (tx: ProdRing)
      requires tx.producer == tx.cachedProd
      ensures this.tx == tx && cached == [] && toFlush == 0
    {
      this.tx, cached, toFlush := tx, [], 0;
    }

    /** How many slots were ever handed out. */
    ghost function HandedOut(): nat
      reads this, tx
    {
      tx.producer + toFlush
    }

    /**
      Reserved = submitted + to flush + cached, and the cached slots are the reserved positions that follow
      those handed out, in order.
    */
    ghost predicate Valid(consumer: nat)
      reads this, tx
    {
      && tx.Valid(consumer)
      && tx.cachedProd == tx.producer + toFlush + |cached|
      && cached == Span(HandedOut(), tx.cachedProd)
    }

    /** The kernel may consume submitted entries at any moment. */
    lemma KernelConsumes(consumer: nat, consumer': nat)
      requires Valid(consumer) && consumer <= consumer' <= tx.producer
      ensures Valid(consumer')
    {}

    /** The entry of a slot just handed out is not that of any position the kernel still has to read. */
    lemma HandedOutIsFree(consumer: nat, slot: nat, i: nat)
      requires Valid(consumer) && consumer <= i < slot < consumer + tx.size
      ensures Entry(slot, tx.size) != Entry(i, tx.size)
    {
      Apart(i, slot, tx.size);
    }

    /** Submits exactly the slots handed out since the last submission; no cached slot is submitted. */
    method Sync(ghost consumer: nat)
      requires Valid(consumer)
      modifies this`toFlush, tx`producer
      ensures Valid(consumer) && toFlush == 0
      ensures tx.producer == old(HandedOut()) == HandedOut()
    {
      if toFlush == 0 { return; }
      tx.Submit(toFlush);
      toFlush := 0;
    }

    /**
      Hands out the next slot, in reservation order, refilling an empty cache with 64 reserved slots; before
      that it submits what was handed out.  Nothing is handed out only if fewer than 64 entries are free.
    */
    method Advance(consumer: nat) returns (slot: Option<nat>)
      requires Valid(consumer)
      modifies this`toFlush, this`cached, tx`producer, tx`cachedCons, tx`cachedProd
      ensures Valid(consumer)
      ensures slot == None <==> old(cached) == [] && consumer + tx.size - old(tx.cachedProd) < TX_BATCH
      ensures slot == None ==> HandedOut() == old(HandedOut()) == tx.producer && cached == []
      ensures slot != None ==> slot.value == old(HandedOut()) && HandedOut() == slot.value + 1
      ensures slot != None ==> consumer <= slot.value < consumer + tx.size
      ensures tx.producer == if old(cached) == [] then old(HandedOut()) else old(tx.producer)
      ensures tx.cachedProd == old(tx.cachedProd) + (if old(cached) == [] && slot != None then TX_BATCH else 0)
    {
      if cached != [] {
        slot := Some(cached[0]);
        cached, toFlush := cached[1..], toFlush + 1;
        return;
      }
      Sync(consumer);
      var rcvd, idx := tx.Reserve(TX_BATCH, consumer);
      if rcvd == 0 { return None; }
      ghost var first := idx;
      for i := 0 to rcvd
        invariant idx == first + i && cached == Span(first, idx)
        modifies this`cached
      {
        cached := cached + [idx];
        idx := idx + 1;
      }
      slot := Some(cached[0]);
      cached, toFlush := cached[1..], toFlush + 1;
    }
  }

  // ----- consumer rings ----------------------------------------------------------------------------------

  /**
    A ring the kernel produces into: the receive ring and the completion ring.  `stream` is everything the
    kernel ever put into it.
  */
  class ConsRing {
    const size: nat
    var cachedProd: nat
    var cachedCons: nat
    var consumer: nat
    var entries: seq<Desc>
    ghost var stream: seq<Desc>

    constructor (size: nat, entries: seq<Desc>)
      requires |entries| == size > 0
      ensures Valid() && this.size == size && consumer == 0 && cachedCons == 0 && stream == []
    {
      this.size := size;
      cachedProd, cachedCons, consumer := 0, 0, 0;
      this.entries, stream := entries, [];
    }

    ghost predicate Valid()
      reads this
    {
      && |entries| == size > 0
      && consumer <= cachedCons <= cachedProd <= |stream| <= consumer + size
      && Window(entries, stream, consumer)
    }

    /** The kernel produces one entry, if it sees a released one. */
    method KernelPut(d: Desc, producer: nat)
      requires Valid() && producer == |stream| < consumer + size
      modifies this`entries, this`stream
      ensures Valid() && stream == old(stream) + [d]
    {
      hide Entry;
      forall i | consumer <= i < |stream| ensures Entry(i, size) != Entry(producer, size) { Apart(i, producer, size); }
      entries, stream := entries[Entry(producer, size) := d], stream + [d];
    }

    /** `producer` is the kernel's position. */
    method Peek(nb: nat, producer: nat) returns (n: nat, idx: nat)
      requires Valid() && producer == |stream|
      modifies this`cachedProd, this`cachedCons
      ensures Valid() && n <= nb && cachedCons == old(cachedCons) + n && (n > 0 ==> idx == old(cachedCons))
      ensures n == 0 <==> nb == 0 || old(cachedCons) == |stream|
      ensures n == Min(nb, (if old(cachedCons) == old(cachedProd) then |stream| else old(cachedProd)) - old(cachedCons))
    {
      hide Entry;
      var entries := cachedProd - cachedCons;
      if entries == 0 {
        cachedProd := producer;
        entries := cachedProd - cachedCons;
      }
      n, idx := if entries > nb then nb else entries, cachedCons;
      if n > 0 { cachedCons := cachedCons + n; }
    }

    method Get(idx: nat) returns (d: Desc)
      requires Valid() && consumer <= idx < |stream|
      ensures d == stream[idx]
    {
      d := entries[Entry(idx, size)];
    }

    method Release(nb: nat)
      requires Valid() && consumer + nb <= cachedCons
      modifies this`consumer
      ensures Valid() && consumer == old(consumer) + nb
    {
      hide Entry;
      consumer := consumer + nb;
    }
  }

  // ----- the receive ring --------------------------------------------------------------------------------

  function Reversed<T>(s: seq<T>): (r: seq<T>)
    ensures |r| == |s| && forall k :: 0 <= k < |s| ==> r[k] == s[|s| - 1 - k]
  {
    seq(|s|, k requires 0 <= k < |s| => s[|s| - 1 - k])
  }

  class RxRing {
    const rx: ConsRing
    var cached: seq<Desc>

    constructor (rx: ConsRing)
      ensures this.rx == rx && cached == []
    {
      this.rx, cached := rx, [];
    }

    /** How many descriptors were ever returned. */
    ghost function Returned(): int
      reads this, rx
    {
      rx.consumer - |cached|
    }

    /** Every entry read was released, and the cache is the reverse of the stretch of the stream not yet returned. */
    ghost predicate Valid()
      reads this, rx
    {
      && rx.Valid() && rx.cachedCons == rx.consumer
      && |cached| <= RX_BATCH && |cached| <= rx.consumer
      && cached == Reversed(rx.stream[rx.consumer - |cached|..rx.consumer])
    }

    /** An arrival, at any moment, disturbs neither the cache nor what was returned. */
    method Arrive(d: Desc, producer: nat)
      requires Valid() && producer == |rx.stream| < rx.consumer + rx.size
      modifies rx`entries, rx`stream
      ensures Valid() && rx.stream == old(rx.stream) + [d] && Returned() == old(Returned())
    {
      rx.KernelPut(d, producer);
    }

    /** Reads `rcvd` entries from the last to the first, so that popping the cache returns them in order. */
    method FillReversed(idx: nat, rcvd: nat)
      requires rx.Valid() && rx.consumer <= idx <= idx + rcvd <= |rx.stream| && cached == []
      modifies this`cached
      ensures cached == Reversed(rx.stream[idx..idx + rcvd])
    {
      hide Window, Entry;
      var i := rcvd + idx;
      while i > idx
        invariant idx <= i <= idx + rcvd && cached == Reversed(rx.stream[i..idx + rcvd])
      {
        i := i - 1;
        var d := rx.Get(i);
        ReversedFront(rx.stream, i, idx + rcvd);
        cached := cached + [d];
      }
    }

    /**
      A first-in first-out queue: returns the descriptors in exactly the order in which the kernel put them,
      each once, and nothing only when all were returned; every kernel entry is released once.
    */
    method Advance(producer: nat) returns (desc: Option<Desc>)
      requires Valid() && producer == |rx.stream|
      modifies this`cached, rx`cachedProd, rx`cachedCons, rx`consumer
      ensures Valid()
      ensures desc == None <==> old(Returned()) == |rx.stream|
      ensures desc != None ==> desc.value == rx.stream[old(Returned())] && Returned() == old(Returned()) + 1
      ensures desc == None ==> Returned() == old(Returned())
      ensures old(rx.consumer) <= rx.consumer <= old(rx.consumer) + RX_BATCH
      ensures old(cached) == [] ==>
        var shown := if old(rx.cachedCons) == old(rx.cachedProd) then |rx.stream| else old(rx.cachedProd);
        rx.consumer == old(rx.consumer) + Min(RX_BATCH, shown - old(rx.consumer))
      ensures old(cached) != [] ==> rx.consumer == old(rx.consumer)
    {
      hide Window, Entry;
      if cached != [] {
        desc := Some(cached[|cached| - 1]);
        cached := cached[..|cached| - 1];
        return;
      }
      var rcvd, idx := rx.Peek(RX_BATCH, producer);
      if rcvd == 0 { return None; }
      FillReversed(idx, rcvd);
      rx.Release(rcvd);
      desc := Some(cached[|cached| - 1]);
      cached := cached[..|cached| - 1];
    }
  }

  lemma ReversedFront<T>(s: seq<T>, i: nat, j: nat)
    requires i < j <= |s|
    ensures Reversed(s[i..j]) == Reversed(s[i + 1..j]) + [s[i]]
  {}
}
