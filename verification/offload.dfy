/** The transmit-offload word of an mbuf, in its two packings. */
module Offload {
  import opened Bits
  import opened Bitfields
  import opened Packing

  const L2_LEN := Spec(0, 7)
  const L3_LEN := Spec(7, 9)
  const L4_LEN := Spec(16, 8)
  const TSO_SEGSZ := Spec(24, 16)
  const OUTL3_LEN := Spec(40, 9)
  const OUTL2_LEN := Spec(49, 7)
  const UNUSED := Spec(56, 8)

  /** The fields of the word; the bit-field structure has all but the last. */
  function Fields(): (fs: seq<Spec>)
    ensures Layout(fs) && Total(fs) == 64 && |fs| == 7
    ensures Layout(fs[..6]) && Total(fs[..6]) == 56
  {
    [L2_LEN, L3_LEN, L4_LEN, TSO_SEGSZ, OUTL3_LEN, OUTL2_LEN, UNUSED]
  }

  /** 64-bit shift. */
  function Shift(x: nat, k: nat): nat { Low(Shl(x, k), 64) }

  /** `rte_mbuf_tx_offload`. */
  function TxOffload(il2: nat, il3: nat, il4: nat, tso: nat, ol3: nat, ol2: nat, unused: nat): nat {
    Or(Or(Or(Or(Or(Or(Shift(il2, 0), Shift(il3, 7)), Shift(il4, 16)), Shift(tso, 24)), Shift(ol3, 40)), Shift(ol2, 49)),
       Shift(unused, 56))
  }

  lemma ShiftFits(x: nat, f: Spec)
    requires x < Pow2(f.width) && f.offset + f.width <= 64
    ensures Shift(x, f.offset) == Shl(x, f.offset)
  {
    ShlBound(x, f.width, f.offset);
    Pow2Grows(f.width + f.offset, 64);
    LowSmall(Shl(x, f.offset), 64);
  }

  lemma PackedStep(fs: seq<Spec>, vals: seq<nat>, f: Spec, x: nat)
    requires |vals| == |fs|
    ensures Packed(fs + [f], vals + [x]) == Or(Packed(fs, vals), Shl(x, f.offset))
  {
    assert (fs + [f])[..|fs|] == fs && (vals + [x])[..|fs|] == vals;
  }

  /** The shifted-or word is the packing of the seven fields. */
  lemma {:induction false} TxOffloadPacks(vals: seq<nat>)
    requires Within(Fields(), vals)
    ensures TxOffload(vals[0], vals[1], vals[2], vals[3], vals[4], vals[5], vals[6]) == Packed(Fields(), vals)
  {
    var fs := Fields();
    hide Or, Shl, Low, Packed, Pow2, Shift;
    forall k | 0 <= k < 7 ensures Shift(vals[k], fs[k].offset) == Shl(vals[k], fs[k].offset) { ShiftFits(vals[k], fs[k]); }
    PackFirst(vals[0]);
    PackedStep(fs[..1], vals[..1], fs[1], vals[1]);
    PackedStep(fs[..2], vals[..2], fs[2], vals[2]);
    PackedStep(fs[..3], vals[..3], fs[3], vals[3]);
    PackedStep(fs[..4], vals[..4], fs[4], vals[4]);
    PackedStep(fs[..5], vals[..5], fs[5], vals[5]);
    PackedStep(fs[..6], vals[..6], fs[6], vals[6]);
    forall k | 0 <= k < 7 ensures fs[..k + 1] == fs[..k] + [fs[k]] && vals[..k + 1] == vals[..k] + [vals[k]] {}
    assert fs[..1] == [fs[0]] && vals[..1] == [vals[0]] && fs[..7] == fs && vals[..7] == vals;
  }

  lemma {:induction false} PackFirst(x: nat)
    ensures Packed([L2_LEN], [x]) == Shl(x, 0)
  {
    assert [L2_LEN][..0] == [] && [x][..0] == [];
    OrZero(Shl(x, 0));
  }

  lemma {:induction false} ShlIsProduct(x: nat, k: nat)
    ensures Shl(x, k) == x * Pow2(k)
    decreases k
  {
    if k > 0 { ShlIsProduct(x, k - 1); }
  }

  lemma SumStep(fs: seq<Spec>, vals: seq<nat>, n: nat)
    requires |vals| == |fs| && n < |fs|
    ensures Sum(fs[..n + 1], vals[..n + 1]) == Sum(fs[..n], vals[..n]) + vals[n] * Pow2(fs[n].offset)
  {
    assert fs[..n + 1][..n] == fs[..n] && vals[..n + 1][..n] == vals[..n];
    ShlIsProduct(vals[n], fs[n].offset);
  }

  lemma {:induction false} SumOfFields(vals: seq<nat>)
    requires |vals| == 7
    ensures Sum(Fields(), vals) == vals[0] * Pow2(0) + vals[1] * Pow2(7) + vals[2] * Pow2(16) + vals[3] * Pow2(24)
      + vals[4] * Pow2(40) + vals[5] * Pow2(49) + vals[6] * Pow2(56)
  {
    var fs := Fields();
    hide Sum, Pow2;
    SumStep(fs, vals, 0);
    SumStep(fs, vals, 1);
    SumStep(fs, vals, 2);
    SumStep(fs, vals, 3);
    SumStep(fs, vals, 4);
    SumStep(fs, vals, 5);
    SumStep(fs, vals, 6);
    assert fs[..7] == fs && vals[..7] == vals;
    SumOfNone(fs[..0], vals[..0]);
  }

  lemma SumOfNone(fs: seq<Spec>, vals: seq<nat>)
    requires fs == [] && vals == []
    ensures Sum(fs, vals) == 0
  {}

  /** Without overlap the word is the sum of the fields, each times the weight of its lowest bit. */
  lemma {:induction false} TxOffloadIsSum(vals: seq<nat>)
    requires Within(Fields(), vals)
    ensures TxOffload(vals[0], vals[1], vals[2], vals[3], vals[4], vals[5], vals[6])
      == vals[0] + 0x80 * vals[1] + 0x1_0000 * vals[2] + 0x100_0000 * vals[3] + 0x100_0000_0000 * vals[4]
        + 0x2_0000_0000_0000 * vals[5] + 0x100_0000_0000_0000 * vals[6]
  {
    hide TxOffload, Packed, Sum, Pow2, Fields, Layout, Total;
    TxOffloadPacks(vals);
    PackedIsSum(Fields(), vals);
    SumOfFields(vals);
    Weights();
  }

  lemma {:induction false} Weights()
    ensures Pow2(0) == 1 && Pow2(7) == 0x80 && Pow2(16) == 0x1_0000 && Pow2(24) == 0x100_0000
    ensures Pow2(40) == 0x100_0000_0000 && Pow2(49) == 0x2_0000_0000_0000 && Pow2(56) == 0x100_0000_0000_0000
  {
    assert Pow2(0) == 1 && Pow2(7) == 0x80 && Pow2(16) == 0x1_0000;
    Pow2Byte(24);
    Pow2Byte(32);
    Pow2Byte(40);
    Pow2Byte(48);
    Pow2Byte(56);
    assert Pow2(49) == 2 * Pow2(48);
  }

  /** `new_bitfield_1`: zeroed storage, filled field by field. */
  method NewBitfield1(l2Len: nat, l3Len: nat, l4Len: nat, tsoSegsz: nat, outerL3Len: nat, outerL2Len: nat, big: bool)
      returns (unit: BitfieldUnit)
    ensures fresh(unit) && fresh(unit.storage) && unit.big == big && unit.storage.Length == 7
    ensures Holds(unit.storage[..], Fields()[..6], [l2Len, l3Len, l4Len, tsoSegsz, outerL3Len, outerL2Len], 6, big)
  {
    hide Layout, Total, FieldIs;
    var storage := new nat[7](i => 0);
    unit := new BitfieldUnit(storage, big);
    ghost var fs, vals := Fields()[..6], [l2Len, l3Len, l4Len, tsoSegsz, outerL3Len, outerL2Len];
    PutField(unit, 0, 7, l2Len, fs, vals, 0);
    PutField(unit, 7, 9, l3Len, fs, vals, 1);
    PutField(unit, 16, 8, l4Len, fs, vals, 2);
    PutField(unit, 24, 16, tsoSegsz, fs, vals, 3);
    PutField(unit, 40, 9, outerL3Len, fs, vals, 4);
    PutField(unit, 49, 7, outerL2Len, fs, vals, 5);
  }

  /** The accessors: each is a `get` of its field. */
  method L2Len(unit: BitfieldUnit) returns (x: nat)
    requires unit.storage.Length == 7
    ensures x == Field(unit.storage[..], 0, 7, unit.big)
  { x := unit.Get(0, 7); }

  method L3Len(unit: BitfieldUnit) returns (x: nat)
    requires unit.storage.Length == 7
    ensures x == Field(unit.storage[..], 7, 9, unit.big)
  { x := unit.Get(7, 9); }

  method L4Len(unit: BitfieldUnit) returns (x: nat)
    requires unit.storage.Length == 7
    ensures x == Field(unit.storage[..], 16, 8, unit.big)
  { x := unit.Get(16, 8); }

  method TsoSegsz(unit: BitfieldUnit) returns (x: nat)
    requires unit.storage.Length == 7
    ensures x == Field(unit.storage[..], 24, 16, unit.big)
  { x := unit.Get(24, 16); }

  method OuterL3Len(unit: BitfieldUnit) returns (x: nat)
    requires unit.storage.Length == 7
    ensures x == Field(unit.storage[..], 40, 9, unit.big)
  { x := unit.Get(40, 9); }

  method OuterL2Len(unit: BitfieldUnit) returns (x: nat)
    requires unit.storage.Length == 7
    ensures x == Field(unit.storage[..], 49, 7, unit.big)
  { x := unit.Get(49, 7); }

  lemma {:induction false} LittleEndianConcat(n: nat, m: nat, x: nat)
    requires n < Pow2(8 * m) && x < 256
    ensures LittleEndian(n + Shl(x, 8 * m), m + 1) == LittleEndian(n, m) + [x]
    decreases m
  {
    if m == 0 {
      assert LittleEndian(n + Shl(x, 0), 1) == [(n + x) % 256] + LittleEndian((n + x) / 256, 0);
    } else {
      ShlByte(x, 8 * m);
      Pow2Byte(8 * m);
      var rest := Shl(x, 8 * (m - 1));
      assert n + Shl(x, 8 * m) == n + 256 * rest;
      assert (n + 256 * rest) % 256 == n % 256 && (n + 256 * rest) / 256 == n / 256 + rest;
      LittleEndianConcat(n / 256, m - 1, x);
      assert LittleEndian(n, m) == [n % 256] + LittleEndian(n / 256, m - 1);
    }
  }

  lemma ShlByte(x: nat, k: nat)
    requires k >= 8
    ensures Shl(x, k) == 256 * Shl(x, k - 8)
  {
    assert Shl(x, k) == 2 * Shl(x, k - 1);
    assert Shl(x, k - 1) == 2 * Shl(x, k - 2);
    assert Shl(x, k - 2) == 2 * Shl(x, k - 3);
    assert Shl(x, k - 3) == 2 * Shl(x, k - 4);
    assert Shl(x, k - 4) == 2 * Shl(x, k - 5);
    assert Shl(x, k - 5) == 2 * Shl(x, k - 6);
    assert Shl(x, k - 6) == 2 * Shl(x, k - 7);
    assert Shl(x, k - 7) == 2 * Shl(x, k - 8);
  }

  lemma Pow2Byte(k: nat)
    requires k >= 8
    ensures Pow2(k) == 256 * Pow2(k - 8)
  {
    assert Pow2(k) == 2 * Pow2(k - 1);
    assert Pow2(k - 1) == 2 * Pow2(k - 2);
    assert Pow2(k - 2) == 2 * Pow2(k - 3);
    assert Pow2(k - 3) == 2 * Pow2(k - 4);
    assert Pow2(k - 4) == 2 * Pow2(k - 5);
    assert Pow2(k - 5) == 2 * Pow2(k - 6);
    assert Pow2(k - 6) == 2 * Pow2(k - 7);
    assert Pow2(k - 7) == 2 * Pow2(k - 8);
  }

  /**
    The two packings agree: for values within their widths, the little-endian bytes of the word are the storage
    that `new_bitfield_1` fills, followed by the unused byte.
  */
  lemma {:induction false} WordIsStorage(s: seq<nat>, vals: seq<nat>)
    requires Within(Fields(), vals) && |s| == 7 && Holds(s, Fields()[..6], vals[..6], 6, false)
    ensures LittleEndian(TxOffload(vals[0], vals[1], vals[2], vals[3], vals[4], vals[5], vals[6]), 8) == s + [vals[6]]
  {
    var fs := Fields();
    hide Layout, Or, Low, Shift, TxOffload, LittleEndian, Holds, Pow2;
    TxOffloadPacks(vals);
    PackingsAgree(s, fs[..6], vals[..6]);
    PackedStep(fs[..6], vals[..6], fs[6], vals[6]);
    assert fs[..6] + [fs[6]] == fs && vals[..6] + [vals[6]] == vals;
    PackedBound(fs[..6], vals[..6]);
    OrIsSum(Packed(fs[..6], vals[..6]), vals[6], 56);
    LowEight(vals[6]);
    LittleEndianConcat(Packed(fs[..6], vals[..6]), 7, vals[6]);
  }

  /** Every accessor, applied to the word's bytes, returns the argument it was packed from. */
  lemma {:induction false} AccessorsReturnArguments(vals: seq<nat>, k: nat)
    requires Within(Fields(), vals) && k < 6
    ensures Fields()[k].offset + Fields()[k].width <= 56
    ensures var word := TxOffload(vals[0], vals[1], vals[2], vals[3], vals[4], vals[5], vals[6]);
      Field(LittleEndian(word, 8)[..7], Fields()[k].offset, Fields()[k].width, false) == vals[k]
  {
    var fs := Fields();
    TxOffloadPacks(vals);
    hide Layout, Or, Low, Shift, TxOffload, LittleEndian, Pow2, Packed, Bit;
    WordFieldIs(fs, vals, 8, k);
    OffsetsGrow(fs[..6], k);
    FieldOfPrefix(LittleEndian(Packed(fs, vals), 8), 7, fs[k]);
  }

  lemma {:induction false} FieldOfPrefix(s: seq<nat>, n: nat, f: Spec)
    requires n <= |s| && f.offset + f.width <= 8 * n
    ensures Field(s[..n], f.offset, f.width, false) == Field(s, f.offset, f.width, false)
  {
    hide Bit, Value, Pow2;
    FieldBits(s, f.offset, f.width, false, 0);
    FieldBits(s[..n], f.offset, f.width, false, 0);
    forall i | 0 <= i < f.width
      ensures Bit(Field(s[..n], f.offset, f.width, false), i) == Bit(Field(s, f.offset, f.width, false), i)
    {
      FieldBits(s, f.offset, f.width, false, i);
      FieldBits(s[..n], f.offset, f.width, false, i);
    }
    SameBits(Field(s[..n], f.offset, f.width, false), Field(s, f.offset, f.width, false), f.width);
  }
}
