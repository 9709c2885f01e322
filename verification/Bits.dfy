/**
 Bit strings, most significant bit first, and the bit operators of the cereal library on
 naturals: Shl is `<<`, Shr is `>>`, Low(v, n) is `v & (2^n - 1)` and BitOr is `|`.
 */
module Bits {
  import opened Bytes

  function Pow2(n: nat): (p: nat)
    ensures p > 0
  {
    if n == 0 then 1 else 2 * Pow2(n - 1)
  }

  function Shl(v: nat, n: nat): nat
  {
    if n == 0 then v else 2 * Shl(v, n - 1)
  }

  function Shr(v: nat, n: nat): nat
  {
    if n == 0 then v else Shr(v / 2, n - 1)
  }

  function Low(v: nat, n: nat): (r: nat)
    ensures r < Pow2(n)
  {
    if n == 0 then 0 else 2 * Low(v / 2, n - 1) + v % 2
  }

  function BitOr(a: nat, b: nat): nat {
    if a == 0 then b else if b == 0 then a
    else 2 * BitOr(a / 2, b / 2) + if a % 2 == 1 || b % 2 == 1 then 1 else 0
  }

  /** The low `w` bits of `v`. */
  function BitsOf(v: nat, w: nat): (bits: seq<bool>)
    ensures |bits| == w
  {
    if w == 0 then [] else BitsOf(v / 2, w - 1) + [v % 2 == 1]
  }

  function ToNat(bits: seq<bool>): nat {
    if bits == [] then 0 else 2 * ToNat(bits[..|bits| - 1]) + if bits[|bits| - 1] then 1 else 0
  }

  /** Bytes as one bit string. */
  function ByteBits(bytes: Bytes): (bits: seq<bool>)
    ensures |bits| == 8 * |bytes|
  {
    if bytes == [] then [] else BitsOf(bytes[0], 8) + ByteBits(bytes[1..])
  }

  // ---------- bit strings and numbers ----------

  lemma {:induction false} ToNatBound(bits: seq<bool>)
    ensures ToNat(bits) < Pow2(|bits|)
  {
    if bits != [] { ToNatBound(bits[..|bits| - 1]); }
  }

  lemma {:induction false} ToNatBitsOf(v: nat, w: nat)
    requires v < Pow2(w)
    ensures ToNat(BitsOf(v, w)) == v
  {
    if w > 0 {
      ToNatBitsOf(v / 2, w - 1);
      assert BitsOf(v, w)[..w - 1] == BitsOf(v / 2, w - 1);
    }
  }

  lemma {:induction false} BitsOfToNat(bits: seq<bool>)
    ensures BitsOf(ToNat(bits), |bits|) == bits
  {
    if bits != [] {
      var init := bits[..|bits| - 1];
      BitsOfToNat(init);
      assert ToNat(bits) / 2 == ToNat(init);
      assert bits == init + [bits[|bits| - 1]];
    }
  }

  lemma {:induction false} ToNatAppend(a: seq<bool>, b: seq<bool>)
    ensures ToNat(a + b) == Shl(ToNat(a), |b|) + ToNat(b)
  {
    if b == [] {
      assert a + b == a;
    } else {
      ToNatAppend(a, b[..|b| - 1]);
      assert (a + b)[..|a + b| - 1] == a + b[..|b| - 1];
    }
  }

  /** Shifting right drops the last bits of a bit string. */
  lemma {:induction false} ShrDrops(bits: seq<bool>, k: nat)
    requires k <= |bits|
    ensures Shr(ToNat(bits), |bits| - k) == ToNat(bits[..k])
  {
    if k == |bits| {
      assert bits[..k] == bits;
    } else {
      var init := bits[..|bits| - 1];
      ShrDrops(init, k);
      assert ToNat(bits) / 2 == ToNat(init);
      assert init[..k] == bits[..k];
    }
  }

  /** Masking keeps the last bits of a bit string. */
  lemma {:induction false} LowKeeps(bits: seq<bool>, k: nat)
    requires k <= |bits|
    ensures Low(ToNat(bits), |bits| - k) == ToNat(bits[k..])
  {
    if k < |bits| {
      var init := bits[..|bits| - 1];
      LowKeeps(init, k);
      assert ToNat(bits) / 2 == ToNat(init);
      assert bits[k..][..|bits[k..]| - 1] == init[k..];
    }
  }

  /** A shift and a mask read the bits from i to j. */
  lemma Slice(v: nat, n: nat, i: nat, j: nat)
    requires v < Pow2(n) && i <= j <= n
    ensures Low(Shr(v, n - j), j - i) == ToNat(BitsOf(v, n)[i..j])
  {
    var bits := BitsOf(v, n);
    ToNatBitsOf(v, n);
    ShrDrops(bits, j);
    LowKeeps(bits[..j], i);
    assert bits[..j][i..] == bits[i..j];
  }

  /** A field cut in two by a shift and a mask. */
  lemma {:induction false} SplitField(v: nat, k: nat, n: nat)
    ensures BitsOf(v, k + n) == BitsOf(Shr(v, n), k) + BitsOf(Low(v, n), n)
  {
    if n == 0 {
      assert BitsOf(Low(v, n), n) == [];
    } else {
      SplitField(v / 2, k, n - 1);
      Associate(BitsOf(Shr(v, n), k), BitsOf(Low(v / 2, n - 1), n - 1), [v % 2 == 1]);
    }
  }

  lemma {:induction false} ShrBound(v: nat, k: nat, n: nat)
    requires v < Pow2(k + n)
    ensures Shr(v, n) < Pow2(k)
  {
    if n > 0 { ShrBound(v / 2, k, n - 1); }
  }

  lemma {:induction false} ShlShr(v: nat, n: nat)
    ensures v == Shl(Shr(v, n), n) + Low(v, n)
  {
    if n > 0 { ShlShr(v / 2, n - 1); }
  }

  lemma {:induction false} ShlIsTimes(v: nat, n: nat)
    ensures Shl(v, n) == v * Pow2(n)
  {
    if n > 0 {
      ShlIsTimes(v, n - 1);
      assert v * Pow2(n) == 2 * (v * Pow2(n - 1));
    }
  }

  /** In arithmetic terms: a right shift is the quotient and a mask the remainder by a power of two. */
  lemma ShiftsAreArithmetic(v: nat, n: nat)
    ensures v == Shr(v, n) * Pow2(n) + Low(v, n) && Low(v, n) < Pow2(n)
  {
    ShlShr(v, n);
    ShlIsTimes(Shr(v, n), n);
  }

  /** The bits of a number are its digits to base two, the highest first. */
  lemma {:induction false} BitAt(v: nat, w: nat, i: nat)
    requires i < w
    ensures BitsOf(v, w)[i] <==> Shr(v, w - 1 - i) % 2 == 1
  {
    if i < w - 1 {
      BitAt(v / 2, w - 1, i);
    }
  }

  /** Bit by bit, `|` is the disjunction. */
  lemma {:induction false} BitOrAt(a: nat, b: nat, w: nat, i: nat)
    requires i < w
    ensures BitsOf(BitOr(a, b), w)[i] <==> BitsOf(a, w)[i] || BitsOf(b, w)[i]
  {
    if a == 0 || b == 0 {
      ZeroBits(w);
    } else if i < w - 1 {
      BitOrAt(a / 2, b / 2, w - 1, i);
    }
  }

  lemma {:induction false} ZeroBits(w: nat)
    ensures forall i :: 0 <= i < w ==> !BitsOf(0, w)[i]
  {
    if w > 0 { ZeroBits(w - 1); }
  }

  lemma {:induction false} ShlAdd(a: nat, b: nat, n: nat)
    ensures Shl(a + b, n) == Shl(a, n) + Shl(b, n)
  {
    if n > 0 { ShlAdd(a, b, n - 1); }
  }

  lemma {:induction false} ShlShl(a: nat, m: nat, n: nat)
    ensures Shl(a, m + n) == Shl(Shl(a, m), n)
  {
    if n > 0 { ShlShl(a, m, n - 1); }
  }

  lemma {:induction false} ShlSplit(a: nat, n: nat, b: nat)
    requires b < Pow2(n)
    ensures Shr(Shl(a, n) + b, n) == a && Low(Shl(a, n) + b, n) == b
  {
    if n > 0 {
      ShlSplit(a, n - 1, b / 2);
      assert (Shl(a, n) + b) / 2 == Shl(a, n - 1) + b / 2;
    }
  }

  lemma {:induction false} ShlBound(a: nat, k: nat, n: nat, b: nat)
    requires a < Pow2(k) && b < Pow2(n)
    ensures Shl(a, n) + b < Pow2(k + n)
  {
    if n > 0 { ShlBound(a, k, n - 1, b / 2); }
  }

  lemma {:induction false} BitOrOfDisjoint(a: nat, k: nat, b: nat)
    requires b < Pow2(k)
    ensures BitOr(Shl(a, k), b) == Shl(a, k) + b
  {
    if k > 0 {
      BitOrOfDisjoint(a, k - 1, b / 2);
    }
  }

  lemma {:induction false} ByteBitsAppend(a: Bytes, b: Bytes)
    ensures ByteBits(a + b) == ByteBits(a) + ByteBits(b)
  {
    if a == [] {
      assert a + b == b;
    } else {
      ByteBitsAppend(a[1..], b);
      assert (a + b)[1..] == a[1..] + b;
      Associate(BitsOf(a[0], 8), ByteBits(a[1..]), ByteBits(b));
    }
  }

  lemma PowerOfByte()
    ensures Pow2(8) == 256
  {
    assert Pow2(4) == 16;
  }

  lemma {:induction false} ByteBitsInjective(a: Bytes, b: Bytes)
    requires ByteBits(a) == ByteBits(b)
    ensures a == b
  {
    if a != [] {
      PowerOfByte();
      ToNatBitsOf(a[0], 8);
      ToNatBitsOf(b[0], 8);
      assert ByteBits(a)[..8] == BitsOf(a[0], 8) && ByteBits(b)[..8] == BitsOf(b[0], 8);
      assert ByteBits(a)[8..] == ByteBits(a[1..]) && ByteBits(b)[8..] == ByteBits(b[1..]);
      ByteBitsInjective(a[1..], b[1..]);
    }
  }

  /** The value of two fields side by side, above `n` zero bits. */
  lemma TwoFields(a: nat, k: nat, value: nat, w: nat, n: nat)
    requires a < Pow2(k) && value < Pow2(w)
    ensures var v := Shl(Shl(a, w) + value, n);
            && v < Pow2(k + w + n) && Low(v, n) == 0
            && BitsOf(v, k + w + n)[..k + w] == BitsOf(a, k) + BitsOf(value, w)
  {
    var both := Shl(a, w) + value;
    ShlBound(a, k, w, value);
    ShlBound(both, k + w, n, 0);
    ShlSplit(both, n, 0);
    ShlSplit(a, w, value);
    SplitField(Shl(both, n), k + w, n);
    SplitField(both, k, w);
  }

  lemma OrIsTwoFields(current: nat, value: nat, w: nat, n: nat)
    requires value < Pow2(w) && Low(current, w + n) == 0
    ensures BitOr(current, Shl(value, n)) == Shl(Shl(Shr(current, w + n), w) + value, n)
  {
    var a := Shr(current, w + n);
    ShlShr(current, w + n);
    ShlBound(value, w, n, 0);
    BitOrOfDisjoint(a, w + n, Shl(value, n));
    ShlShl(a, w, n);
    ShlAdd(Shl(a, w), value, n);
  }

  /** Or-ing a shifted field into free low bits puts its bits behind those already there. */
  lemma PlaceInto(current: nat, index: nat, value: nat, w: nat, n: nat)
    requires current < Pow2(index + w + n) && value < Pow2(w) && Low(current, w + n) == 0
    ensures var r := BitOr(current, Shl(value, n));
            && r < Pow2(index + w + n) && Low(r, n) == 0
            && BitsOf(r, index + w + n)[..index + w] == BitsOf(current, index + w + n)[..index] + BitsOf(value, w)
  {
    OrIsTwoFields(current, value, w, n);
    ShrBound(current, index, w + n);
    TwoFields(Shr(current, w + n), index, value, w, n);
    SplitField(current, index, w + n);
  }

  lemma PlaceField(current: byte, index: nat, value: nat, w: nat)
    requires index + w <= 8 && value < Pow2(w) && Low(current, 8 - index) == 0
    ensures var r := BitOr(current, Shl(value, 8 - w - index));
            && r < 256 && Low(r, 8 - index - w) == 0
            && BitsOf(r, 8)[..index + w] == BitsOf(current, 8)[..index] + BitsOf(value, w)
  {
    PowerOfByte();
    PlaceInto(current, index, value, w, 8 - w - index);
  }
}
