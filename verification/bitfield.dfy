/** Bit fields packed into an array of bytes, for both byte orders of the target. */
module Bitfields {
  import opened Bits

  /** Where bit `index` of the storage lies within its byte. */
  function BitIndex(index: nat, big: bool): (r: nat)
    ensures r < 8
  {
    if big then 7 - index % 8 else index % 8
  }

  predicate Stored(s: seq<nat>, index: nat, big: bool)
    requires index / 8 < |s|
  {
    Bit(s[index / 8], BitIndex(index, big))
  }

  predicate Bytes(s: seq<nat>) { forall k :: 0 <= k < |s| ==> s[k] < Pow2(8) }

  /** Bit `i` of a value of the given width is stored at this place of its field, and back. */
  function Pos(i: int, width: nat, big: bool): int { if big then width - 1 - i else i }

  /** The value of the field. */
  function Field(s: seq<nat>, offset: nat, width: nat, big: bool): nat
    requires offset + width <= 8 * |s|
  {
    Value(seq(width, i requires 0 <= i < width => Stored(s, offset + Pos(i, width, big), big)))
  }

  /** The field now has the lowest bits of `val`, and every other bit is as before. */
  ghost predicate Wrote(s: seq<nat>, s': seq<nat>, offset: nat, width: nat, val: nat, big: bool) {
    && |s'| == |s| && offset + width <= 8 * |s| && Bytes(s')
    && (forall j :: 0 <= j < 8 * |s| ==>
          Stored(s', j, big) == if offset <= j < offset + width then Bit(val, Pos(j - offset, width, big)) else Stored(s, j, big))
  }

  lemma FieldBits(s: seq<nat>, offset: nat, width: nat, big: bool, i: nat)
    requires offset + width <= 8 * |s|
    ensures Bit(Field(s, offset, width, big), i) <==> i < width && Stored(s, offset + Pos(i, width, big), big)
    ensures Field(s, offset, width, big) < Pow2(width)
  {
    hide Bit, Value, Pow2, Stored;
    var bits := seq(width, i requires 0 <= i < width => Stored(s, offset + Pos(i, width, big), big));
    BitValue(bits, i);
    ValueBound(bits);
  }

  lemma ReadBack(s: seq<nat>, s': seq<nat>, offset: nat, width: nat, val: nat, big: bool)
    requires Wrote(s, s', offset, width, val, big)
    ensures Field(s', offset, width, big) == Low(val, width)
  {
    hide Bit, Low, Pow2, Value, Field;
    LowBound(val, width);
    FieldBits(s', offset, width, big, 0);
    forall i | 0 <= i < width ensures Bit(Field(s', offset, width, big), i) == Bit(Low(val, width), i) {
      FieldBits(s', offset, width, big, i);
      BitLow(val, width, i);
    }
    SameBits(Field(s', offset, width, big), Low(val, width), width);
  }

  /** Reading a field after writing it gives the value modulo 2^width, in both byte orders. */
  lemma RoundTrip(s: seq<nat>, s': seq<nat>, offset: nat, width: nat, val: nat, big: bool)
    requires Wrote(s, s', offset, width, val, big)
    ensures Field(s', offset, width, big) == val % Pow2(width)
  {
    hide Wrote, Field;
    ReadBack(s, s', offset, width, val, big);
    LowIsMod(val, width);
  }

  /** Writing a field does not change any field that shares no bit with it. */
  lemma NonInterference(s: seq<nat>, s': seq<nat>, offset: nat, width: nat, val: nat, big: bool, other: nat, otherWidth: nat)
    requires Wrote(s, s', offset, width, val, big) && other + otherWidth <= 8 * |s|
    requires offset + width <= other || other + otherWidth <= offset
    ensures Field(s', other, otherWidth, big) == Field(s, other, otherWidth, big)
  {
    FieldBits(s, other, otherWidth, big, 0);
    FieldBits(s', other, otherWidth, big, 0);
    forall i | 0 <= i < otherWidth ensures Bit(Field(s', other, otherWidth, big), i) == Bit(Field(s, other, otherWidth, big), i) {
      FieldBits(s, other, otherWidth, big, i);
      FieldBits(s', other, otherWidth, big, i);
      assert Stored(s', other + Pos(i, otherWidth, big), big) == Stored(s, other + Pos(i, otherWidth, big), big);
    }
    SameBits(Field(s', other, otherWidth, big), Field(s, other, otherWidth, big), otherWidth);
  }

  /** Writing back what a field holds changes nothing. */
  lemma WriteBack(s: seq<nat>, s': seq<nat>, offset: nat, width: nat, big: bool)
    requires Bytes(s) && offset + width <= 8 * |s| && Wrote(s, s', offset, width, Field(s, offset, width, big), big)
    ensures s' == s
  {
    forall j | 0 <= j < 8 * |s| ensures Stored(s', j, big) == Stored(s, j, big) {
      if offset <= j < offset + width { FieldBits(s, offset, width, big, Pos(j - offset, width, big)); }
    }
    SameStorage(s, s', big);
  }

  lemma SameStorage(s: seq<nat>, s': seq<nat>, big: bool)
    requires Bytes(s) && Bytes(s') && |s'| == |s|
    requires forall j :: 0 <= j < 8 * |s| ==> Stored(s', j, big) == Stored(s, j, big)
    ensures s' == s
  {
    forall k | 0 <= k < |s| ensures s'[k] == s[k] {
      forall i | 0 <= i < 8 ensures Bit(s'[k], i) == Bit(s[k], i) {
        var j := 8 * k + BitIndex(i, big);
        assert j / 8 == k && BitIndex(j, big) == i;
        assert Stored(s', j, big) == Stored(s, j, big);
      }
      SameBits(s'[k], s[k], 8);
    }
  }

  /** The test `byte & mask == mask` asks for one bit. */
  lemma MaskTest(byte: nat, k: nat, w: nat)
    requires k < w
    ensures And(byte, Shl(1, k)) == Shl(1, k) <==> Bit(byte, k)
  {
    var mask := Shl(1, k);
    MaskBound(k, w);
    AndBound(byte, mask);
    BitMask(k, k);
    BitAnd(byte, mask, k);
    if Bit(byte, k) {
      forall i | 0 <= i < w ensures Bit(And(byte, mask), i) == Bit(mask, i) {
        BitAnd(byte, mask, i);
        BitMask(k, i);
      }
      SameBits(And(byte, mask), mask, w);
    }
  }

  lemma {:induction false} AndBound(a: nat, b: nat)
    ensures And(a, b) <= b
    decreases a
  {
    if a > 0 { AndBound(a / 2, b / 2); }
  }

  lemma ByteWritten(byte: nat, k: nat, val: bool, byte': nat)
    requires byte < Pow2(8) && k < 8 && byte' == if val then Or(byte, Shl(1, k)) else AndNot(byte, Shl(1, k))
    ensures byte' < Pow2(8) && forall i :: 0 <= i < 8 ==> Bit(byte', i) == if i == k then val else Bit(byte, i)
  {
    MaskBound(k, 8);
    OrBound(byte, Shl(1, k), 8);
    AndNotBound(byte, Shl(1, k));
    forall i | 0 <= i < 8
      ensures Bit(Or(byte, Shl(1, k)), i) == (i == k || Bit(byte, i))
      ensures Bit(AndNot(byte, Shl(1, k)), i) == (i != k && Bit(byte, i))
    {
      BitMask(k, i);
      BitOr(byte, Shl(1, k), i);
      BitAndNot(byte, Shl(1, k), i);
    }
  }

  /** Different indices are different bits of the storage. */
  lemma BitsApart(i: nat, j: nat, big: bool)
    requires i != j
    ensures i / 8 != j / 8 || BitIndex(i, big) != BitIndex(j, big)
  {}

  lemma StorageWritten(s: seq<nat>, s': seq<nat>, index: nat, val: bool, big: bool)
    requires Bytes(s) && index / 8 < |s|
    requires var k, byte := BitIndex(index, big), s[index / 8];
      s' == s[index / 8 := if val then Or(byte, Shl(1, k)) else AndNot(byte, Shl(1, k))]
    ensures Bytes(s')
    ensures forall j :: 0 <= j < 8 * |s| ==> Stored(s', j, big) == if j == index then val else Stored(s, j, big)
  {
    var k, byte, byte' := BitIndex(index, big), s[index / 8], s'[index / 8];
    hide Bit, Or, AndNot, Shl, Pow2;
    ByteWritten(byte, k, val, byte');
    forall j | 0 <= j < 8 * |s| ensures Stored(s', j, big) == if j == index then val else Stored(s, j, big) {
      if j != index { BitsApart(j, index, big); }
      var i := BitIndex(j, big);
      if j / 8 == index / 8 {
        assert Bit(byte', i) == if i == k then val else Bit(byte, i);
      }
    }
  }

  /** `val` has the bits of the first `i` storage bits of the field. */
  ghost predicate Gathered(val: nat, s: seq<nat>, offset: nat, width: nat, i: nat, big: bool)
    requires offset + width <= 8 * |s|
  {
    val < Pow2(width)
    && forall k :: 0 <= k < width ==> Bit(val, k) == (Pos(k, width, big) < i && Stored(s, offset + Pos(k, width, big), big))
  }

  lemma GatheredNone(s: seq<nat>, offset: nat, width: nat, big: bool)
    requires offset + width <= 8 * |s|
    ensures Gathered(0, s, offset, width, 0, big)
  {
    forall k: nat ensures !Bit(0, k) { BitZero(k); }
  }

  lemma GatherOne(val: nat, s: seq<nat>, offset: nat, width: nat, i: nat, big: bool)
    requires offset + width <= 8 * |s| && i < width && Gathered(val, s, offset, width, i, big)
    ensures !Stored(s, i + offset, big) ==> Gathered(val, s, offset, width, i + 1, big)
    ensures Stored(s, i + offset, big) ==>
      Gathered(Or(val, Shl(1, Pos(i, width, big))), s, offset, width, i + 1, big)
  {
    hide Stored, Bit, Or, Shl, Pow2;
    var index: nat := Pos(i, width, big);
    forall k | 0 <= k < width ensures Bit(Or(val, Shl(1, index)), k) == (Bit(val, k) || k == index) {
      BitOr(val, Shl(1, index), k);
      BitMask(index, k);
    }
    MaskBound(index, width);
    OrBound(val, Shl(1, index), width);
  }

  lemma GatheredAll(val: nat, s: seq<nat>, offset: nat, width: nat, big: bool)
    requires offset + width <= 8 * |s| && Gathered(val, s, offset, width, width, big)
    ensures val == Field(s, offset, width, big)
  {
    hide Bit, Stored, Pow2, Field;
    forall k | 0 <= k < width ensures Bit(val, k) == Bit(Field(s, offset, width, big), k) {
      FieldBits(s, offset, width, big, k);
    }
    FieldBits(s, offset, width, big, 0);
    SameBits(val, Field(s, offset, width, big), width);
  }

  /** The bit-field unit; `big` is the byte order of the target. */
  class BitfieldUnit {
    const storage: array<nat>
    const big: bool

    constructor (storage: array<nat>, big: bool)
      ensures this.storage == storage && this.big == big
    {
      this.storage, this.big := storage, big;
    }

    method GetBit(index: nat) returns (b: bool)
      requires index / 8 < storage.Length
      ensures b == Stored(storage[..], index, big)
    {
      var byteIndex := index / 8;
      var byte := storage[byteIndex];
      var bitIndex := if big then 7 - index % 8 else index % 8;
      var mask := Shl(1, bitIndex);
      MaskTest(byte, bitIndex, 8);
      b := And(byte, mask) == mask;
    }

    method SetBit(index: nat, val: bool)
      requires index / 8 < storage.Length && Bytes(storage[..])
      modifies storage
      ensures Bytes(storage[..])
      ensures forall j :: 0 <= j < 8 * storage.Length ==>
        Stored(storage[..], j, big) == if j == index then val else Stored(old(storage[..]), j, big)
    {
      hide Bit, Or, AndNot, Shl, Stored, Pow2;
      var byteIndex := index / 8;
      var bitIndex := if big then 7 - index % 8 else index % 8;
      var mask := Shl(1, bitIndex);
      if val {
        storage[byteIndex] := Or(storage[byteIndex], mask);
      } else {
        storage[byteIndex] := AndNot(storage[byteIndex], mask);
      }
      assert storage[..] == old(storage[..])[byteIndex := storage[byteIndex]];
      StorageWritten(old(storage[..]), storage[..], index, val, big);
    }

    method Get(offset: nat, width: nat) returns (val: nat)
      requires offset + width <= 8 * storage.Length
      ensures val == Field(storage[..], offset, width, big)
    {
      hide Bit, Or, Shl, Value, Stored, Gathered, Field;
      val := 0;
      GatheredNone(storage[..], offset, width, big);
      for i := 0 to width
        invariant Gathered(val, storage[..], offset, width, i, big)
      {
        var b := GetBit(i + offset);
        GatherOne(val, storage[..], offset, width, i, big);
        if b {
          var index := if big then width - 1 - i else i;
          val := Or(val, Shl(1, index));
        }
      }
      GatheredAll(val, storage[..], offset, width, big);
    }

    method Set(offset: nat, width: nat, val: nat)
      requires offset + width <= 8 * storage.Length && Bytes(storage[..])
      modifies storage
      ensures Wrote(old(storage[..]), storage[..], offset, width, val, big)
    {
      hide Bit, And, Shl, Stored, Pow2;
      for i := 0 to width
        invariant Bytes(storage[..])
        invariant forall j :: 0 <= j < 8 * storage.Length ==>
          Stored(storage[..], j, big) ==
            if offset <= j < offset + width && Pos(j - offset, width, big) < i then Bit(val, Pos(j - offset, width, big))
            else Stored(old(storage[..]), j, big)
      {
        var mask := Shl(1, i);
        MaskTest(val, i, i + 1);
        var valBitIsSet := And(val, mask) == mask;
        var index := if big then width - 1 - i else i;
        SetBit(index + offset, valBitIsSet);
      }
    }
  }

  // ----- the assertions of the source ------------------------------------------------------------------

  /** What `get` and `set` assert of their arguments in debug builds. */
  predicate Asserted(offset: nat, width: nat, len: nat) {
    width <= 64 && offset / 8 < len && (offset + width) / 8 <= len
  }

  /** Whether every bit the loops touch lies in the storage. */
  predicate InStorage(offset: nat, width: nat, len: nat) {
    forall i :: offset <= i < offset + width ==> i / 8 < len
  }

  /** The assertions let a field run over the end of the storage by up to seven bits: the access itself then fails. */
  lemma AssertionsTooWeak(offset: nat, width: nat, len: nat)
    requires Asserted(offset, width, len)
    ensures InStorage(offset, width, len) <==> offset + width <= 8 * len
    ensures !InStorage(offset, width, len) <==> 8 * len < offset + width <= 8 * len + 7
  {
    if offset + width > 8 * len {
      assert (8 * len) / 8 == len;
      assert offset <= 8 * len < offset + width;
    }
  }

  lemma AssertionsTooWeakExample()
    ensures Asserted(4, 5, 1) && !InStorage(4, 5, 1)
  {
    assert 8 / 8 == 1;
    AssertionsTooWeak(4, 5, 1);
  }
}
