/** Unsigned numbers as sequences of bits, least significant first. */
module Bits {
  function Pow2(k: nat): (r: nat)
    ensures r > 0
  {
    if k == 0 then 1 else 2 * Pow2(k - 1)
  }

  /** Bit `i` of `n`. */
  predicate Bit(n: nat, i: nat)
    decreases i
  {
    if i == 0 then n % 2 == 1 else Bit(n / 2, i - 1)
  }

  function Or(a: nat, b: nat): nat
    decreases a + b
  {
    if a == 0 && b == 0 then 0 else (if a % 2 == 1 || b % 2 == 1 then 1 else 0) + 2 * Or(a / 2, b / 2)
  }

  function And(a: nat, b: nat): nat
    decreases a
  {
    if a == 0 then 0 else (if a % 2 == 1 && b % 2 == 1 then 1 else 0) + 2 * And(a / 2, b / 2)
  }

  /** `a & !b`. */
  function AndNot(a: nat, b: nat): nat
    decreases a
  {
    if a == 0 then 0 else (if a % 2 == 1 && b % 2 == 0 then 1 else 0) + 2 * AndNot(a / 2, b / 2)
  }

  /** `a << k` in unlimited width. */
  function Shl(a: nat, k: nat): nat {
    if k == 0 then a else 2 * Shl(a, k - 1)
  }

  /** `a >> k`. */
  function Shr(a: nat, k: nat): nat
    decreases k
  {
    if k == 0 then a else Shr(a / 2, k - 1)
  }

  /** The lowest `w` bits. */
  function Low(n: nat, w: nat): nat
    decreases w
  {
    if w == 0 then 0 else n % 2 + 2 * Low(n / 2, w - 1)
  }

  /** The number with the given bits. */
  function Value(bits: seq<bool>): nat {
    if bits == [] then 0 else (if bits[0] then 1 else 0) + 2 * Value(bits[1..])
  }

  lemma {:induction false} BitZero(i: nat)
    ensures !Bit(0, i)
    decreases i
  {
    if i > 0 { BitZero(i - 1); }
  }

  lemma {:induction false} BitOr(a: nat, b: nat, i: nat)
    ensures Bit(Or(a, b), i) <==> Bit(a, i) || Bit(b, i)
    decreases i
  {
    if a == 0 && b == 0 { BitZero(i); } else if i > 0 { BitOr(a / 2, b / 2, i - 1); }
  }

  lemma {:induction false} BitAnd(a: nat, b: nat, i: nat)
    ensures Bit(And(a, b), i) <==> Bit(a, i) && Bit(b, i)
    decreases i
  {
    if a == 0 { BitZero(i); } else if i > 0 { BitAnd(a / 2, b / 2, i - 1); }
  }

  lemma {:induction false} BitAndNot(a: nat, b: nat, i: nat)
    ensures Bit(AndNot(a, b), i) <==> Bit(a, i) && !Bit(b, i)
    decreases i
  {
    if a == 0 { BitZero(i); } else if i > 0 { BitAndNot(a / 2, b / 2, i - 1); }
  }

  lemma {:induction false} BitShl(a: nat, k: nat, i: nat)
    ensures Bit(Shl(a, k), i) <==> i >= k && Bit(a, i - k)
  {
    if k > 0 && i > 0 { BitShl(a, k - 1, i - 1); }
  }

  lemma {:induction false} BitLow(n: nat, w: nat, i: nat)
    ensures Bit(Low(n, w), i) <==> i < w && Bit(n, i)
    decreases w
  {
    if w == 0 { BitZero(i); } else if i > 0 { BitLow(n / 2, w - 1, i - 1); }
  }

  /** A mask of one bit. */
  lemma {:induction false} BitMask(k: nat, i: nat)
    ensures Bit(Shl(1, k), i) <==> i == k
  {
    BitShl(1, k, i);
    if i > k { BitZero(i - k - 1); }
  }

  lemma {:induction false} BitValue(bits: seq<bool>, i: nat)
    ensures Bit(Value(bits), i) <==> i < |bits| && bits[i]
    decreases i
  {
    if bits == [] { BitZero(i); } else if i > 0 { BitValue(bits[1..], i - 1); }
  }

  /** Numbers of at most `w` bits with the same bits are equal. */
  lemma {:induction false} SameBits(a: nat, b: nat, w: nat)
    requires a < Pow2(w) && b < Pow2(w) && forall i :: 0 <= i < w ==> Bit(a, i) == Bit(b, i)
    ensures a == b
    decreases w
  {
    if w > 0 {
      assert Bit(a, 0) == Bit(b, 0);
      forall i | 0 <= i < w - 1 ensures Bit(a / 2, i) == Bit(b / 2, i) { assert Bit(a, i + 1) == Bit(b, i + 1); }
      SameBits(a / 2, b / 2, w - 1);
    }
  }

  lemma {:induction false} OrBound(a: nat, b: nat, w: nat)
    requires a < Pow2(w) && b < Pow2(w)
    ensures Or(a, b) < Pow2(w)
    decreases w
  {
    if w > 0 && !(a == 0 && b == 0) { OrBound(a / 2, b / 2, w - 1); }
  }

  lemma {:induction false} AndNotBound(a: nat, b: nat)
    ensures AndNot(a, b) <= a
    decreases a
  {
    if a > 0 { AndNotBound(a / 2, b / 2); }
  }

  lemma {:induction false} MaskBound(k: nat, w: nat)
    requires k < w
    ensures Shl(1, k) < Pow2(w)
    decreases k
  {
    if k > 0 { MaskBound(k - 1, w - 1); } else { Pow2Grows(1, w); }
  }

  lemma {:induction false} Pow2Grows(k: nat, w: nat)
    requires k <= w
    ensures Pow2(k) <= Pow2(w)
    decreases w
  {
    if k < w { Pow2Grows(k, w - 1); }
  }

  lemma {:induction false} LowBound(n: nat, w: nat)
    ensures Low(n, w) < Pow2(w)
    decreases w
  {
    if w > 0 { LowBound(n / 2, w - 1); }
  }

  lemma {:induction false} LowSmall(n: nat, w: nat)
    requires n < Pow2(w)
    ensures Low(n, w) == n
    decreases w
  {
    if w > 0 { LowSmall(n / 2, w - 1); }
  }

  lemma {:induction false} ValueBound(bits: seq<bool>)
    ensures Value(bits) < Pow2(|bits|)
  {
    if bits != [] { ValueBound(bits[1..]); }
  }

  /** Taking the lowest `w` bits is the remainder modulo 2^w. */
  lemma {:induction false} LowIsMod(n: nat, w: nat)
    ensures Low(n, w) == n % Pow2(w)
    decreases w
  {
    if w > 0 {
      LowIsMod(n / 2, w - 1);
      HalfMod(n, Pow2(w - 1));
    }
  }

  lemma HalfMod(n: nat, p: nat)
    requires p > 0
    ensures n % (2 * p) == n % 2 + 2 * ((n / 2) % p)
  {
    var h := n / 2;
    var q, r := h / p, h % p;
    assert h == q * p + r;
    assert n == q * (2 * p) + (2 * r + n % 2);
    Remainder(n, 2 * p, q, 2 * r + n % 2);
  }

  lemma Remainder(n: nat, d: nat, q: nat, r: nat)
    requires d > 0 && n == q * d + r && r < d
    ensures n % d == r
  {
    var k := n / d - q;
    assert n == (n / d) * d + n % d;
    assert k * d == r - n % d by { assert k * d == (n / d) * d - q * d; }
    Multiples(k, d);
  }

  lemma Multiples(k: int, d: nat)
    ensures k >= 1 ==> k * d >= d
    ensures k <= -1 ==> k * d + d <= 0
  {}
}
