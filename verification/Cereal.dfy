/**
 The byte and bit codec of cereal/src. One class stands for Cereal and its two subclasses: the
 virtual functions branch on `reading`, so that one grain serves both directions as in the source.
 An argument passed by reference is an in-parameter and a result.
 */
module Cereals {
  import opened Bytes
  import opened Bits
  import opened BitFields
  import opened Wire

  class Cereal {
    const reading: bool
    var bytes: Bytes
    var pos: nat            // _iterator
    var currentByte: byte
    var bitIndex: nat

    ghost predicate Valid()
      reads this
    {
      pos <= |bytes| && bitIndex <= 8
    }

    /** The unused bits of the current byte are zero. */
    ghost predicate Tidy()
      reads this
    {
      Valid() && Low(currentByte, 8 - bitIndex) == 0
    }

    /** The bytes still to be read. */
    ghost function Left(): Bytes
      reads this
      requires Valid()
    {
      bytes[pos..]
    }

    /** The bits still to be read: those left in the current byte, then those of the bytes left. */
    ghost function BitsLeft(): seq<bool>
      reads this
      requires Valid()
    {
      (if bitIndex == 0 then [] else BitsOf(currentByte, 8)[bitIndex..]) + ByteBits(Left())
    }

    /** The bits written: those of the bytes emitted, then the used ones of the current byte. */
    ghost function Out(): BitOut
      reads this
      requires Valid()
    {
      Written(bytes, currentByte, bitIndex)
    }

    /** No bit of the current byte is waiting to be read, or none has been written. */
    ghost predicate Aligned()
      reads this
    {
      if reading then bitIndex == 0 || bitIndex == 8 else bitIndex == 0 && currentByte == 0
    }

    lemma AlignedBits()
      requires Valid() && reading && Aligned()
      ensures BitsLeft() == ByteBits(Left())
    {
    }

    constructor Writer()
      ensures Valid() && !reading && Aligned() && bytes == []
    {
      reading, bytes, pos, currentByte, bitIndex := false, [], 0, 0, 0;
    }

    constructor Reader(bytes: Bytes)
      ensures Valid() && reading && Aligned() && Left() == bytes == this.bytes
    {
      reading, this.bytes, pos, currentByte, bitIndex := true, bytes, 0, 0, 0;
    }

    /** Back to the first byte. */
    method Reset()
      requires Valid() && reading
      modifies this`pos, this`currentByte, this`bitIndex
      ensures Valid() && Aligned() && Left() == bytes
    {
      pos, currentByte, bitIndex := 0, 0, 0;
    }

    method BytesLeft() returns (n: nat)
      requires Valid() && reading
      ensures n == |Left()|
    {
      n := |bytes| - pos;
    }

    // ---------- bytes ----------

    method GrainByte(val: byte) returns (r: byte)
      requires Valid() && (reading ==> Left() != [])
      modifies this`bytes, this`pos
      ensures Valid()
      ensures reading ==> bytes == old(bytes) && r == old(Left())[0] && Left() == old(Left())[1..]
      ensures !reading ==> bytes == old(bytes) + [val] && r == val
    {
      if reading {
        r := bytes[pos];
        pos := pos + 1;
      } else {
        bytes := bytes + [val];
        r := val;
      }
    }

    method GrainU16(val: u16) returns (r: u16)
      requires Valid() && (reading ==> ParseU16(Left()).Some?)
      modifies this`bytes, this`pos
      ensures Valid()
      ensures reading ==> bytes == old(bytes) && ParseU16(old(Left())) == Some((r, Left()))
      ensures !reading ==> bytes == old(bytes) + EncU16(val) && r == val
    {
      var valh: byte := val / 256;
      var vall: byte := val % 256;
      valh := GrainByte(valh);
      vall := GrainByte(vall);
      r := U16(valh, vall);
    }

    /** Length prefix and characters; when reading, the string is resized to the prefix first. */
    method GrainString(val: String) returns (r: String)
      requires Valid() && (reading ==> ParseString(Left()).Some?) && (!reading ==> Short(val))
      modifies this`bytes, this`pos
      ensures Valid()
      ensures reading ==> bytes == old(bytes) && ParseString(old(Left())) == Some((r, Left()))
      ensures !reading ==> bytes == old(bytes) + EncString(val) && r == val
    {
      var num: u16 := |val| % 65536;
      num := GrainU16(num);
      r := Resized(val, num);
      r := GrainChars(r);
    }

    /** The loop over the characters of a string that has its final length. */
    method GrainChars(val: String) returns (r: String)
      requires Valid() && (reading ==> |val| <= |Left()|)
      modifies this`bytes, this`pos
      ensures Valid()
      ensures reading ==> bytes == old(bytes) && r == old(Left())[..|val|] && Left() == old(Left())[|val|..]
      ensures !reading ==> bytes == old(bytes) + val && r == val
    {
      r := [];
      for i := 0 to |val|
        invariant Valid() && |r| == i
        invariant reading ==> bytes == old(bytes) && r == old(Left())[..i] && Left() == old(Left())[i..]
        invariant !reading ==> r == val[..i] && bytes == old(bytes) + r
      {
        var c := GrainByte(val[i]);
        r := r + [c];
      }
    }

    // ---------- bits ----------

    method GrainBits(val: nat, bits: nat) returns (r: nat)
      requires Valid() && 1 <= bits
      requires reading ==> bits <= 32 && bits <= |BitsLeft()|
      requires !reading ==> Tidy() && bitIndex + bits <= 16 && val < Pow2(bits)
      modifies this
      ensures Valid() && (!reading ==> Tidy())
      ensures reading ==> bytes == old(bytes) && 1 <= bitIndex
      ensures reading ==> r == ToNat(old(BitsLeft())[..bits]) && BitsLeft() == old(BitsLeft())[bits..]
      ensures !reading ==> Out() == Put(old(Out()), val, bits) && r == val
    {
      if reading {
        r := ReadBits(bits);
      } else {
        WriteBits(val, bits);
        r := val;
      }
    }

    /** Returns the next bits of the flat bit string and leaves the rest of it. */
    method ReadBits(bits: nat) returns (r: nat)
      requires Valid() && reading && 1 <= bits <= 32 && bits <= |BitsLeft()|
      modifies this
      ensures Valid() && bytes == old(bytes) && 1 <= bitIndex
      ensures r == ToNat(old(BitsLeft())[..bits]) && BitsLeft() == old(BitsLeft())[bits..]
    {
      ghost var all := BitsLeft();
      if bitIndex == 0 {
        NextByte(currentByte, Left());
        currentByte := GrainByte(0);
      }
      assert InByte() == all;
      r := ReadBitsHelper(bits);
    }

    /** The bits still to be read when the current byte has been loaded. */
    ghost function InByte(): seq<bool>
      reads this
      requires Valid()
    {
      Unread(currentByte, bitIndex, Left())
    }

    method ReadBitsHelper(bits: nat) returns (r: nat)
      requires Valid() && reading && bits <= 32 && bits <= |InByte()|
      modifies this
      ensures Valid() && bytes == old(bytes)
      ensures old(bitIndex) + bits > 0 ==> bitIndex > 0
      ensures old(bitIndex) + bits <= 8 ==> bitIndex == old(bitIndex) + bits
      ensures r == ToNat(old(InByte())[..bits]) && InByte() == old(InByte())[bits..]
      decreases bitIndex + bits, 1
    {
      if bitIndex + bits > 8 {
        r := ReadAcross(bits);
        return;
      }
      ReadInside(currentByte, bitIndex, bits, Left());
      bitIndex := bitIndex + bits;
      var shift := Shr(currentByte, 8 - bitIndex);
      r := Low(shift, bits);
    }

    /** The branch for a read that carries on to the next byte. */
    method ReadAcross(bits: nat) returns (r: nat)
      requires Valid() && reading && bits <= 32 && bits <= |InByte()| && bitIndex + bits > 8
      modifies this
      ensures Valid() && bytes == old(bytes) && bitIndex > 0
      ensures r == ToNat(old(InByte())[..bits]) && InByte() == old(InByte())[bits..]
      decreases bitIndex + bits, 0
    {
      ghost var all := InByte();
      var bits1stTime := 8 - bitIndex;
      var bits2ndTime := bitIndex + bits - 8;
      var value1 := ReadBitsHelper(bits1stTime);
      LoadNextByte();
      var value2 := ReadBitsHelper(bits2ndTime);
      TwoReads(all, bits1stTime, bits2ndTime);
      r := BitOr(Shl(value1, bits2ndTime), value2);
    }

    /** Starts on the next byte once all bits of the current one have been read. */
    method LoadNextByte()
      requires Valid() && reading && bitIndex == 8 && InByte() != []
      modifies this
      ensures Valid() && bytes == old(bytes) && bitIndex == 0 && InByte() == old(InByte())
    {
      NextByte(currentByte, Left());
      bitIndex := 0;
      currentByte := GrainByte(0);
    }

    /** Appends one field to the bits written, as the writer's arithmetic does it. */
    method WriteBits(value: nat, bits: nat)
      requires Tidy() && !reading && 1 <= bits && bitIndex + bits <= 16 && value < Pow2(bits)
      modifies this
      ensures Tidy() && Out() == Put(old(Out()), value, bits)
      decreases bitIndex + bits
    {
      if bitIndex + bits >= 8 {
        var remainingBits := bitIndex + bits - 8;
        var thisByteValue := Shr(value, remainingBits);
        EmitByte(value, thisByteValue, bits - remainingBits, remainingBits);
        if remainingBits > 0 {
          var remainingValue := Low(value, remainingBits);
          ghost var between := Out();
          WriteBits(remainingValue, remainingBits);
          PutInTwo(old(Out()), value, bits, remainingBits, between);
          return;
        }
        PutExactly(old(Out()), value, bits, Out());
      } else {
        PutWithin(Out(), value, bits);
      }
      PlaceBits(value, bits);
    }

    /** Or-s a field that fits into the current byte behind the bits already there. */
    method PlaceBits(value: nat, bits: nat)
      requires Tidy() && !reading && bitIndex + bits <= 8 && value < Pow2(bits)
      modifies this`currentByte, this`bitIndex
      ensures Tidy()
      ensures Out() == BitOut(old(Out()).bits + BitsOf(value, bits), old(bitIndex) + bits)
    {
      PlaceWritten(bytes, currentByte, bitIndex, value, bits);
      currentByte := OrByte(currentByte, Shl(value, 8 - bits - bitIndex));
      bitIndex := bitIndex + bits;
    }

    /** Fills up the current byte with a field's first bits, emits it and starts a new one. */
    method EmitByte(ghost value: nat, thisByteValue: nat, ghost first: nat, ghost remainingBits: nat)
      requires Tidy() && !reading && bitIndex + first == 8
      requires value < Pow2(first + remainingBits) && thisByteValue == Shr(value, remainingBits)
      modifies this
      ensures Tidy() && bitIndex == 0 && currentByte == 0
      ensures Out() == BitOut(old(Out()).bits + BitsOf(thisByteValue, first), 0)
    {
      ShrBound(value, first, remainingBits);
      PlaceWritten(bytes, currentByte, bitIndex, thisByteValue, first);
      currentByte := OrByte(currentByte, thisByteValue);
      EmitWritten(bytes, currentByte);
      var _ := GrainByte(currentByte);
      currentByte := 0;
      bitIndex := 0;
      NoBits(8);
    }
  }

  /** `|=` on a uint8_t. */
  function OrByte(current: byte, x: nat): byte { BitOr(current, x) % 256 }

  /** The bits in the emitted bytes and in the used part of the current one. */
  function Written(bytes: Bytes, current: byte, index: nat): BitOut
    requires index <= 8
  {
    BitOut(ByteBits(bytes) + BitsOf(current, 8)[..index], index)
  }

  /** The bits in the unread part of the current byte and in the bytes left. */
  function Unread(current: byte, index: nat, left: Bytes): seq<bool>
    requires index <= 8
  {
    BitsOf(current, 8)[index..] + ByteBits(left)
  }

  lemma PlaceWritten(bytes: Bytes, current: byte, index: nat, value: nat, w: nat)
    requires index + w <= 8 && value < Pow2(w) && Low(current, 8 - index) == 0
    ensures var r := OrByte(current, Shl(value, 8 - w - index));
            && Low(r, 8 - (index + w)) == 0
            && Written(bytes, r, index + w) ==
               BitOut(Written(bytes, current, index).bits + BitsOf(value, w), index + w)
  {
    var x := Shl(value, 8 - w - index);
    var r := BitOr(current, x);
    PlaceField(current, index, value, w);
    assert OrByte(current, x) == r;
    var before, used, field := ByteBits(bytes), BitsOf(current, 8)[..index], BitsOf(value, w);
    Associate(before, used, field);
    assert Written(bytes, r, index + w).bits == before + (used + field);
  }

  lemma EmitWritten(bytes: Bytes, current: byte)
    ensures Written(bytes + [current], 0, 0) == BitOut(Written(bytes, current, 8).bits, 0)
  {
    ByteBitsAppend(bytes, [current]);
    assert ByteBits([current]) == BitsOf(current, 8) == BitsOf(current, 8)[..8];
  }

  lemma NextByte(current: byte, left: Bytes)
    ensures Unread(current, 8, left) == ByteBits(left)
    ensures left != [] ==> Unread(left[0], 0, left[1..]) == ByteBits(left)
  {
  }

  lemma ReadInside(current: byte, index: nat, bits: nat, left: Bytes)
    requires index + bits <= 8
    ensures Low(Shr(current, 8 - (index + bits)), bits) == ToNat(Unread(current, index, left)[..bits])
    ensures Unread(current, index + bits, left) == Unread(current, index, left)[bits..]
  {
    PowerOfByte();
    Slice(current, 8, index, index + bits);
    var byteBits := BitsOf(current, 8);
    assert Unread(current, index, left)[..bits] == byteBits[index..index + bits];
    assert Unread(current, index, left)[bits..] == byteBits[index + bits..] + ByteBits(left);
  }

  /** std::string::resize. */
  function Resized(s: String, n: nat): (r: String)
    ensures |r| == n
    ensures |s| == n ==> r == s
  {
    if n <= |s| then s[..n] else s + seq(n - |s|, _ => 0)
  }

  lemma {:induction false} NoBits(n: nat)
    ensures Low(0, n) == 0
  {
    if n > 0 { NoBits(n - 1); }
  }

  /** Two reads in a row, put together with a shift and an or. */
  lemma TwoReads(all: seq<bool>, m: nat, n: nat)
    requires m + n <= |all|
    ensures BitOr(Shl(ToNat(all[..m]), n), ToNat(all[m..][..n])) == ToNat(all[..m + n])
    ensures all[m..][n..] == all[m + n..]
  {
    assert all[..m + n] == all[..m] + all[m..][..n];
    ToNatAppend(all[..m], all[m..][..n]);
    ToNatBound(all[m..][..n]);
    BitOrOfDisjoint(ToNat(all[..m]), n, ToNat(all[m..][..n]));
  }

  /** A field that reaches into the next byte, written as its first bits and then its last ones. */
  lemma PutInTwo(o: BitOut, value: nat, w: nat, k: nat, between: BitOut)
    requires value < Pow2(w) && 0 < k <= w && k <= 8 && o.pending + w == 8 + k && o.pending <= 8
    requires between == BitOut(o.bits + BitsOf(Shr(value, k), w - k), 0)
    ensures Put(between, Low(value, k), k) == Put(o, value, w)
  {
    SplitField(value, w - k, k);
    var first, last := BitsOf(Shr(value, k), w - k), BitsOf(Low(value, k), k);
    Associate(o.bits, first, last);
    assert BitsOf(value, w) == first + last;
    assert (first + last)[w - k..] == last && last[0..] == last && last[k..] == (first + last)[w..];
    assert Again(0, k) == Again(o.pending, w) == if k == 8 then 8 else 0;
  }

  /** A field that leaves room in the current byte. */
  lemma PutWithin(o: BitOut, value: nat, w: nat)
    requires o.pending + w < 8
    ensures Put(o, value, w) == BitOut(o.bits + BitsOf(value, w), o.pending + w)
  {
    assert o.bits + BitsOf(value, w) + [] == o.bits + BitsOf(value, w);
  }

  /** A field that exactly fills the current byte is put behind itself once more. */
  lemma PutExactly(o: BitOut, value: nat, w: nat, between: BitOut)
    requires o.pending + w == 8
    requires between == BitOut(o.bits + BitsOf(value, w), 0)
    ensures BitOut(between.bits + BitsOf(value, w), w) == Put(o, value, w)
  {
    assert BitsOf(value, w)[0..] == BitsOf(value, w);
  }
}
