/** The flags and version word of an L2TPv2 header (RFC 2661, section 3.1), built from bit fields. */
module L2tp {
  import opened Bits
  import opened Bitfields
  import opened Packing

  /** Version, reserved bits, and the flags P, O, S, L and T. */
  function Fields(): (fs: seq<Spec>)
    ensures Layout(fs) && Total(fs) == 16 && |fs| == 9
  {
    [Spec(0, 4), Spec(4, 4), Spec(8, 1), Spec(9, 1), Spec(10, 1), Spec(11, 1), Spec(12, 2), Spec(14, 1), Spec(15, 1)]
  }

  /** `new_bitfield_1`. */
  method NewBitfield1(ver: nat, res3: nat, p: nat, o: nat, res2: nat, s: nat, res1: nat, l: nat, t: nat, big: bool)
      returns (unit: BitfieldUnit)
    ensures fresh(unit) && fresh(unit.storage) && unit.big == big && unit.storage.Length == 2
    ensures Holds(unit.storage[..], Fields(), [ver, res3, p, o, res2, s, res1, l, t], 9, big)
  {
    hide Layout, Total, FieldIs;
    var storage := new nat[2](i => 0);
    unit := new BitfieldUnit(storage, big);
    ghost var fs, vals := Fields(), [ver, res3, p, o, res2, s, res1, l, t];
    PutField(unit, 0, 4, ver, fs, vals, 0);
    PutField(unit, 4, 4, res3, fs, vals, 1);
    PutField(unit, 8, 1, p, fs, vals, 2);
    PutField(unit, 9, 1, o, fs, vals, 3);
    PutField(unit, 10, 1, res2, fs, vals, 4);
    PutField(unit, 11, 1, s, fs, vals, 5);
    PutField(unit, 12, 2, res1, fs, vals, 6);
    PutField(unit, 14, 1, l, fs, vals, 7);
    PutField(unit, 15, 1, t, fs, vals, 8);
  }

  /** Every accessor returns the argument of its field modulo the field's width, whatever the byte order. */
  lemma AccessorsReturnArguments(s: seq<nat>, vals: seq<nat>, big: bool, k: nat)
    requires |vals| == 9 && Holds(s, Fields(), vals, 9, big) && k < 9
    ensures Fields()[k].offset + Fields()[k].width <= 8 * |s|
    ensures Field(s, Fields()[k].offset, Fields()[k].width, big) == vals[k] % Pow2(Fields()[k].width)
  {
    hide Field, Pow2;
    assert FieldIs(s, Fields()[k], vals[k], big);
  }

  /** Bit `i` of a word in the numbering of the standard, which counts from the most significant bit. */
  predicate HeaderBit(word: nat, i: nat)
    requires i < 16
  {
    Bit(word, 15 - i)
  }

  /** The word a little-endian target reads from the storage: its first byte is the less significant one. */
  function WordOf(s: seq<nat>): nat
    requires |s| == 2
  {
    s[0] + 256 * s[1]
  }

  /** The word on the wire: its first byte is the more significant one. */
  function WireWord(s: seq<nat>): nat
    requires |s| == 2
  {
    256 * s[0] + s[1]
  }

  lemma LittleEndianWord(n: nat)
    requires n < 65536
    ensures WordOf(LittleEndian(n, 2)) == n
  {
    assert LittleEndian(n, 2) == [n % 256] + LittleEndian(n / 256, 1);
    assert LittleEndian(n / 256, 1) == [(n / 256) % 256] + LittleEndian(n / 256 / 256, 0);
  }

  lemma {:induction false} WordIsPacked(s: seq<nat>, vals: seq<nat>)
    requires Within(Fields(), vals) && |s| == 2 && Holds(s, Fields(), vals, 9, false)
    ensures WordOf(s) == Packed(Fields(), vals)
  {
    assert Pow2(16) == 65536;
    hide Layout, Packed, LittleEndian, Pow2, Holds, Within, WordOf;
    PackingsAgree(s, Fields(), vals);
    PackedBound(Fields(), vals);
    LittleEndianWord(Packed(Fields(), vals));
  }

  lemma {:induction false} Flag(vals: seq<nat>, k: nat)
    requires Within(Fields(), vals) && k < 9 && Fields()[k].width == 1
    ensures Bit(Packed(Fields(), vals), Fields()[k].offset) == (vals[k] == 1)
  {
    assert Pow2(1) == 2;
    hide Layout, Packed, Pow2;
    PackedField(Fields(), vals, k, 0);
  }

  /**
    The word that a little-endian target reads from the storage, which is the header word after a byte swap, has the
    flags where the standard wants them: T, L, S, O and P are bits 0, 1, 4, 6 and 7, and the version is in the last
    four bits.
  */
  lemma {:induction false} FlagsAfterByteSwap(s: seq<nat>, vals: seq<nat>)
    requires Within(Fields(), vals) && |s| == 2 && Holds(s, Fields(), vals, 9, false)
    ensures var word := WordOf(s);
      && HeaderBit(word, 0) == (vals[8] == 1) && HeaderBit(word, 1) == (vals[7] == 1)
      && HeaderBit(word, 4) == (vals[5] == 1) && HeaderBit(word, 6) == (vals[3] == 1)
      && HeaderBit(word, 7) == (vals[2] == 1)
      && (forall i :: 0 <= i < 4 ==> HeaderBit(word, 15 - i) == Bit(vals[0], i))
  {
    hide Layout, Packed, Holds, WordOf, Bit;
    WordIsPacked(s, vals);
    Flag(vals, 8);
    Flag(vals, 7);
    Flag(vals, 5);
    Flag(vals, 3);
    Flag(vals, 2);
    forall i | 0 <= i < 4 ensures HeaderBit(WordOf(s), 15 - i) == Bit(vals[0], i) { PackedField(Fields(), vals, 0, i); }
  }

  /** The byte swap: bit `i` of the word on the wire is bit (i + 8) mod 16 of the word read from the storage. */
  lemma {:induction false} WireIsSwapped(s: seq<nat>, i: nat)
    requires |s| == 2 && s[0] < 256 && s[1] < 256 && i < 16
    ensures HeaderBit(WireWord(s), i) == HeaderBit(WordOf(s), (i + 8) % 16)
  {
    BelowByte(s[1], s[0], 15 - i);
    BelowByte(s[0], s[1], 15 - (i + 8) % 16);
  }

  /**
    The stored bytes sent as they are put the flags into the wrong octet: T is bit 8 of the header, where the standard
    has a reserved bit, and the first octet is the reserved bits followed by the version.
  */
  lemma {:induction false} FlagsOnTheWire(s: seq<nat>, vals: seq<nat>)
    requires Within(Fields(), vals) && |s| == 2 && Holds(s, Fields(), vals, 9, false)
    ensures var word := WireWord(s);
      && HeaderBit(word, 8) == (vals[8] == 1) && HeaderBit(word, 9) == (vals[7] == 1)
      && HeaderBit(word, 12) == (vals[5] == 1) && HeaderBit(word, 14) == (vals[3] == 1)
      && HeaderBit(word, 15) == (vals[2] == 1)
      && (forall i :: 0 <= i < 4 ==> HeaderBit(word, 7 - i) == Bit(vals[0], i))
  {
    assert s[0] < 256 && s[1] < 256 by { assert Pow2(8) == 256; }
    hide Layout, Packed, Holds, WordOf, WireWord, HeaderBit, Bit, Within, Pow2;
    FlagsAfterByteSwap(s, vals);
    forall i | 0 <= i < 16 ensures HeaderBit(WireWord(s), i) == HeaderBit(WordOf(s), (i + 8) % 16) { WireIsSwapped(s, i); }
    assert (8 + 8) % 16 == 0 && (9 + 8) % 16 == 1 && (12 + 8) % 16 == 4 && (14 + 8) % 16 == 6 && (15 + 8) % 16 == 7;
    forall i | 0 <= i < 4 ensures HeaderBit(WireWord(s), 7 - i) == Bit(vals[0], i) {
      assert (7 - i + 8) % 16 == 15 - i;
    }
  }
}
