/** Two ways of packing adjacent fields: shifting and or-ing into a word, and writing bit fields one by one. */
module Packing {
  import opened Bits
  import opened Bitfields

  datatype Spec = Spec(offset: nat, width: nat)

  /** Adjacent fields from bit 0 on. */
  predicate Layout(fs: seq<Spec>) {
    && (|fs| > 0 ==> fs[0].offset == 0)
    && (forall k :: 0 <= k < |fs| - 1 ==> fs[k + 1].offset == fs[k].offset + fs[k].width)
  }

  /** The number of bits of all fields. */
  function Total(fs: seq<Spec>): nat {
    if fs == [] then 0 else fs[|fs| - 1].offset + fs[|fs| - 1].width
  }

  predicate Within(fs: seq<Spec>, vals: seq<nat>) {
    |vals| == |fs| && forall k :: 0 <= k < |fs| ==> vals[k] < Pow2(fs[k].width)
  }

  /** Shift-and-or. */
  function Packed(fs: seq<Spec>, vals: seq<nat>): nat
    requires |vals| == |fs|
  {
    if fs == [] then 0 else
    var last := |fs| - 1;
    Or(Packed(fs[..last], vals[..last]), Shl(vals[last], fs[last].offset))
  }

  lemma LayoutFront(fs: seq<Spec>)
    requires Layout(fs) && fs != []
    ensures Layout(fs[..|fs| - 1]) && Total(fs[..|fs| - 1]) == fs[|fs| - 1].offset
  {}

  lemma {:induction false} OffsetsGrow(fs: seq<Spec>, k: nat)
    requires Layout(fs) && k < |fs|
    ensures fs[k].offset + fs[k].width <= Total(fs)
  {
    if k < |fs| - 1 {
      LayoutFront(fs);
      OffsetsGrow(fs[..|fs| - 1], k);
    }
  }

  lemma {:induction false} ShlBound(a: nat, w: nat, k: nat)
    requires a < Pow2(w)
    ensures Shl(a, k) < Pow2(w + k)
    decreases k
  {
    if k > 0 { ShlBound(a, w, k - 1); }
  }

  lemma {:induction false} PackedBound(fs: seq<Spec>, vals: seq<nat>)
    requires Layout(fs) && Within(fs, vals)
    ensures Packed(fs, vals) < Pow2(Total(fs))
  {
    if fs != [] {
      var last := |fs| - 1;
      LayoutFront(fs);
      PackedBound(fs[..last], vals[..last]);
      Pow2Grows(fs[last].offset, Total(fs));
      ShlBound(vals[last], fs[last].width, fs[last].offset);
      OrBound(Packed(fs[..last], vals[..last]), Shl(vals[last], fs[last].offset), Total(fs));
    }
  }

  lemma {:induction false} BitBeyond(n: nat, w: nat, i: nat)
    requires n < Pow2(w) && i >= w
    ensures !Bit(n, i)
    decreases w
  {
    if w == 0 { BitZero(i); } else { BitBeyond(n / 2, w - 1, i - 1); }
  }

  /** Each field of the word holds the bits of its value: fields do not overlap. */
  lemma {:induction false} PackedField(fs: seq<Spec>, vals: seq<nat>, k: nat, i: nat)
    requires Layout(fs) && Within(fs, vals) && k < |fs| && i < fs[k].width
    ensures Bit(Packed(fs, vals), fs[k].offset + i) == Bit(vals[k], i)
    decreases |fs|
  {
    var last, at := |fs| - 1, fs[k].offset + i;
    LayoutFront(fs);
    BitOr(Packed(fs[..last], vals[..last]), Shl(vals[last], fs[last].offset), at);
    BitShl(vals[last], fs[last].offset, at);
    if k < last {
      OffsetsGrow(fs[..last], k);
      PackedField(fs[..last], vals[..last], k, i);
    } else {
      PackedBound(fs[..last], vals[..last]);
      BitBeyond(Packed(fs[..last], vals[..last]), fs[last].offset, at);
    }
  }

  lemma {:induction false} OrIsSum(a: nat, b: nat, k: nat)
    requires a < Pow2(k)
    ensures Or(a, Shl(b, k)) == a + Shl(b, k)
    decreases k
  {
    if k == 0 { OrZero(b); } else if !(a == 0 && Shl(b, k) == 0) { OrIsSum(a / 2, b, k - 1); }
  }

  lemma {:induction false} OrZero(b: nat)
    ensures Or(0, b) == b
    decreases b
  {
    if b > 0 { OrZero(b / 2); }
  }

  function Sum(fs: seq<Spec>, vals: seq<nat>): nat
    requires |vals| == |fs|
  {
    if fs == [] then 0 else
    var last := |fs| - 1;
    Sum(fs[..last], vals[..last]) + Shl(vals[last], fs[last].offset)
  }

  /** Without overlap, or-ing is adding. */
  lemma {:induction false} PackedIsSum(fs: seq<Spec>, vals: seq<nat>)
    requires Layout(fs) && Within(fs, vals)
    ensures Packed(fs, vals) == Sum(fs, vals)
  {
    if fs != [] {
      var last := |fs| - 1;
      LayoutFront(fs);
      PackedIsSum(fs[..last], vals[..last]);
      PackedBound(fs[..last], vals[..last]);
      OrIsSum(Packed(fs[..last], vals[..last]), vals[last], fs[last].offset);
    }
  }

  // ----- bytes -----------------------------------------------------------------------------------------

  /** The bytes of a word, least significant first. */
  function LittleEndian(n: nat, len: nat): (s: seq<nat>)
    ensures |s| == len
    decreases len
  {
    if len == 0 then [] else [n % 256] + LittleEndian(n / 256, len - 1)
  }

  lemma ShiftFour(n: nat, i: nat)
    ensures Bit(n / 16, i) == Bit(n, i + 4)
  {
    var n1 := n / 2;
    var n2 := n1 / 2;
    var n3 := n2 / 2;
    assert Bit(n, i + 4) == Bit(n1, i + 3);
    assert Bit(n1, i + 3) == Bit(n2, i + 2);
    assert Bit(n2, i + 2) == Bit(n3, i + 1);
    assert Bit(n3, i + 1) == Bit(n3 / 2, i);
    assert n3 / 2 == n / 16;
  }

  lemma ShiftEight(n: nat, i: nat)
    ensures Bit(n / 256, i) == Bit(n, i + 8)
  {
    ShiftFour(n, i + 4);
    ShiftFour(n / 16, i);
    assert n / 16 / 16 == n / 256;
  }

  lemma LowEight(n: nat)
    ensures Low(n, 8) == n % 256 && Pow2(8) == 256
  {
    LowIsMod(n, 8);
  }

  lemma {:induction false} LittleEndianBits(n: nat, len: nat, j: nat)
    requires j < 8 * len
    ensures Bytes(LittleEndian(n, len)) && Stored(LittleEndian(n, len), j, false) == Bit(n, j)
    decreases len
  {
    hide Bit, Low, Pow2;
    LowEight(n);
    if len > 1 { LittleEndianBits(n / 256, len - 1, if j < 8 then 0 else j - 8); }
    var s := LittleEndian(n, len);
    assert s[0] == n % 256 && s[1..] == LittleEndian(n / 256, len - 1);
    if j < 8 {
      BitLow(n, 8, j);
    } else {
      ShiftEight(n, j - 8);
      assert s[j / 8] == s[1..][(j - 8) / 8];
    }
  }

  /** The bits of a number with one more byte below. */
  lemma {:induction false} BelowByte(low: nat, high: nat, i: nat)
    requires low < 256
    ensures Bit(low + 256 * high, i) == if i < 8 then Bit(low, i) else Bit(high, i - 8)
  {
    var word := low + 256 * high;
    LowEight(word);
    LowEight(low);
    assert word % 256 == low && word / 256 == high;
    if i < 8 {
      BitLow(word, 8, i);
      BitLow(low, 8, i);
    } else {
      ShiftEight(word, i - 8);
    }
  }

  /** The number a target reads from the storage: its first byte is the most or the least significant one. */
  function Word(s: seq<nat>, big: bool): nat {
    if s == [] then 0
    else if big then s[|s| - 1] + 256 * Word(s[..|s| - 1], big) else s[0] + 256 * Word(s[1..], big)
  }

  /** Storage bit `j` is bit `j` of the word from the least significant end, or from the most significant one. */
  lemma {:induction false} WordBits(s: seq<nat>, big: bool, j: nat)
    requires Bytes(s) && j < 8 * |s|
    ensures Bit(Word(s, big), if big then 8 * |s| - 1 - j else j) == Stored(s, j, big)
    decreases |s|
  {
    hide Bit;
    assert Pow2(8) == 256;
    if big {
      var front := s[..|s| - 1];
      BelowByte(s[|s| - 1], Word(front, big), 8 * |s| - 1 - j);
      if j < 8 * |front| { WordBits(front, big, j); }
    } else {
      BelowByte(s[0], Word(s[1..], big), j);
      if j >= 8 { WordBits(s[1..], big, j - 8); }
    }
  }

  lemma {:induction false} BitShr(n: nat, k: nat, i: nat)
    ensures Bit(Shr(n, k), i) == Bit(n, i + k)
    decreases k
  {
    if k > 0 { BitShr(n / 2, k - 1, i); }
  }

  /** Reading a field is shifting and masking the word, on targets of either byte order. */
  lemma {:induction false} FieldIsShift(s: seq<nat>, offset: nat, width: nat, big: bool)
    requires Bytes(s) && offset + width <= 8 * |s|
    ensures Field(s, offset, width, big)
      == Shr(Word(s, big), if big then 8 * |s| - offset - width else offset) % Pow2(width)
  {
    hide Bit, Word, Pow2, Field, Stored, Low, Bytes, Shr;
    var n, k: nat := Word(s, big), if big then 8 * |s| - offset - width else offset;
    var shifted := Shr(n, k);
    FieldBits(s, offset, width, big, 0);
    LowBound(shifted, width);
    LowIsMod(shifted, width);
    forall i | 0 <= i < width ensures Bit(Field(s, offset, width, big), i) == Bit(Low(shifted, width), i) {
      FieldBits(s, offset, width, big, i);
      BitLow(shifted, width, i);
      BitShr(n, k, i);
      WordBits(s, big, offset + Pos(i, width, big));
    }
    SameBits(Field(s, offset, width, big), Low(shifted, width), width);
  }

  /** The first `n` fields of the storage hold the values, each modulo its width. */
  ghost predicate Holds(s: seq<nat>, fs: seq<Spec>, vals: seq<nat>, n: nat, big: bool)
    requires n <= |fs| == |vals|
  {
    && Bytes(s) && Layout(fs) && Total(fs) <= 8 * |s|
    && (forall k :: 0 <= k < n ==> FieldIs(s, fs[k], vals[k], big))
  }

  ghost predicate FieldIs(s: seq<nat>, f: Spec, val: nat, big: bool) {
    f.offset + f.width <= 8 * |s| && Field(s, f.offset, f.width, big) == val % Pow2(f.width)
  }

  lemma {:induction false} Ordered(fs: seq<Spec>, k: nat, n: nat)
    requires Layout(fs) && k < n < |fs|
    ensures fs[k].offset + fs[k].width <= fs[n].offset
  {
    OffsetsGrow(fs[..n], k);
    assert Total(fs[..n]) == fs[n].offset;
  }

  /** Writing the next field keeps those before it. */
  lemma {:induction false} WroteNext(s: seq<nat>, s': seq<nat>, fs: seq<Spec>, vals: seq<nat>, n: nat, big: bool)
    requires n < |fs| == |vals| && Holds(s, fs, vals, n, big) && Wrote(s, s', fs[n].offset, fs[n].width, vals[n], big)
    ensures Holds(s', fs, vals, n + 1, big)
  {
    RoundTrip(s, s', fs[n].offset, fs[n].width, vals[n], big);
    forall k | 0 <= k < n ensures FieldIs(s', fs[k], vals[k], big) {
      assert FieldIs(s, fs[k], vals[k], big);
      Ordered(fs, k, n);
      NonInterference(s, s', fs[n].offset, fs[n].width, vals[n], big, fs[k].offset, fs[k].width);
    }
  }

  method PutField(unit: BitfieldUnit, offset: nat, width: nat, val: nat, ghost fs: seq<Spec>, ghost vals: seq<nat>, ghost n: nat)
    requires n < |fs| == |vals| && fs[n] == Spec(offset, width) && vals[n] == val
    requires Holds(unit.storage[..], fs, vals, n, unit.big)
    modifies unit.storage
    ensures Holds(unit.storage[..], fs, vals, n + 1, unit.big)
  {
    hide Wrote, Bytes;
    ghost var s := unit.storage[..];
    OffsetsGrow(fs, n);
    unit.Set(offset, width, val);
    WroteNext(s, unit.storage[..], fs, vals, n, unit.big);
  }

  /** The field that bit `j` belongs to. */
  lemma {:induction false} FieldOfBit(fs: seq<Spec>, j: nat) returns (k: nat)
    requires Layout(fs) && j < Total(fs)
    ensures k < |fs| && fs[k].offset <= j < fs[k].offset + fs[k].width
    decreases |fs|
  {
    if j >= fs[|fs| - 1].offset { k := |fs| - 1; } else { LayoutFront(fs); k := FieldOfBit(fs[..|fs| - 1], j); }
  }

  lemma FieldBit(s: seq<nat>, f: Spec, val: nat, i: nat)
    requires FieldIs(s, f, val, false) && val < Pow2(f.width) && i < f.width
    ensures Stored(s, f.offset + i, false) == Bit(val, i)
  {
    LowIsMod(val, f.width);
    LowSmall(val, f.width);
    FieldBits(s, f.offset, f.width, false, i);
  }

  lemma SameBit(s: seq<nat>, fs: seq<Spec>, vals: seq<nat>, j: nat)
    requires |vals| == |fs| && Holds(s, fs, vals, |fs|, false) && Within(fs, vals) && Total(fs) == 8 * |s| && j < 8 * |s|
    ensures Stored(LittleEndian(Packed(fs, vals), |s|), j, false) == Stored(s, j, false)
  {
    hide Packed, Field, LittleEndian, Pow2, Bit, Stored;
    LittleEndianBits(Packed(fs, vals), |s|, j);
    var k := FieldOfBit(fs, j);
    PackedField(fs, vals, k, j - fs[k].offset);
    FieldBit(s, fs[k], vals[k], j - fs[k].offset);
  }

  /**
    The two packings agree on a little-endian target: for values within their widths, storage filled field by
    field is the word's bytes.
  */
  lemma {:induction false} PackingsAgree(s: seq<nat>, fs: seq<Spec>, vals: seq<nat>)
    requires |vals| == |fs| && Holds(s, fs, vals, |fs|, false) && Within(fs, vals) && Total(fs) == 8 * |s|
    ensures s == LittleEndian(Packed(fs, vals), |s|)
  {
    hide Packed, LittleEndian, Within, Layout, FieldIs, Stored;
    if |s| > 0 {
      LittleEndianBits(Packed(fs, vals), |s|, 0);
      forall j | 0 <= j < 8 * |s| ensures Stored(LittleEndian(Packed(fs, vals), |s|), j, false) == Stored(s, j, false) {
        SameBit(s, fs, vals, j);
      }
      SameStorage(s, LittleEndian(Packed(fs, vals), |s|), false);
    }
  }

  /** Reading a field of the word's bytes gives the original value. */
  lemma WordFieldIs(fs: seq<Spec>, vals: seq<nat>, len: nat, k: nat)
    requires Layout(fs) && Within(fs, vals) && k < |fs| && Total(fs) <= 8 * len
    ensures fs[k].offset + fs[k].width <= 8 * len
    ensures Field(LittleEndian(Packed(fs, vals), len), fs[k].offset, fs[k].width, false) == vals[k]
  {
    OffsetsGrow(fs, k);
    var s, f := LittleEndian(Packed(fs, vals), len), fs[k];
    FieldBits(s, f.offset, f.width, false, 0);
    forall i | 0 <= i < f.width ensures Bit(Field(s, f.offset, f.width, false), i) == Bit(vals[k], i) {
      FieldBits(s, f.offset, f.width, false, i);
      LittleEndianBits(Packed(fs, vals), len, f.offset + i);
      PackedField(fs, vals, k, i);
    }
    SameBits(Field(s, f.offset, f.width, false), vals[k], f.width);
  }
}
