/**
 The bit writer of cereal/src/Cerealiser.cpp on bit strings, and the layouts it writes correctly.
 */
module BitFields {
  import opened Bytes
  import opened Bits

  /** All bits written so far, of which the last `pending` are still in the current byte. */
  datatype BitOut = BitOut(bits: seq<bool>, pending: nat)

  const EMPTY: BitOut := BitOut([], 0)

  /** How many of a field's last bits are written a second time: when the field exactly fills a
      byte, the writer emits the byte and then falls through to the code for a field that does not
      fill one, which puts those bits into the next byte again. */
  function Again(pending: nat, w: nat): (n: nat)
    ensures n <= w
  {
    if pending + w == 8 || pending + w == 16 then (if w < 8 then w else 8) else 0
  }

  function NextPending(pending: nat, w: nat): nat {
    if pending + w < 8 then pending + w
    else if pending + w == 8 || pending + w == 16 then Again(pending, w)
    else pending + w - 8
  }

  /** Writing `value` as `w` bits. */
  function Put(o: BitOut, value: nat, w: nat): BitOut {
    var field := BitsOf(value, w);
    BitOut(o.bits + field + field[w - Again(o.pending, w)..], NextPending(o.pending, w))
  }

  /** The bits in the bytes emitted so far. */
  function Emitted(o: BitOut): seq<bool> {
    if o.pending <= |o.bits| then o.bits[..|o.bits| - o.pending] else []
  }

  datatype Field = Field(value: nat, width: nat)

  predicate InRange(fields: seq<Field>) {
    forall k :: 0 <= k < |fields| ==> fields[k].value < Pow2(fields[k].width)
  }

  function PutAll(fields: seq<Field>): BitOut {
    if fields == [] then EMPTY else
      var last := fields[|fields| - 1];
      Put(PutAll(fields[..|fields| - 1]), last.value, last.width)
  }

  /** The concatenation that a bit writer should produce. */
  function Flat(fields: seq<Field>): seq<bool> {
    if fields == [] then [] else
      var last := fields[|fields| - 1];
      Flat(fields[..|fields| - 1]) + BitsOf(last.value, last.width)
  }

  function Widths(fields: seq<Field>): (ws: seq<nat>)
    ensures |ws| == |fields|
  {
    seq(|fields|, i requires 0 <= i < |fields| => fields[i].width)
  }

  function Sum(ws: seq<nat>): nat {
    if ws == [] then 0 else Sum(ws[..|ws| - 1]) + ws[|ws| - 1]
  }

  /** The writer's pending bits after a layout; they depend on the widths alone. */
  function Pending(ws: seq<nat>): nat {
    if ws == [] then 0 else NextPending(Pending(ws[..|ws| - 1]), ws[|ws| - 1])
  }

  /** No shift of the writer is by a negative amount: no field reaches beyond the byte after the
      current one. */
  predicate Defined(ws: seq<nat>) {
    ws == [] ||
    var init, w := ws[..|ws| - 1], ws[|ws| - 1];
    Defined(init) && w >= 1 && Pending(init) + w <= 16
  }

  /** No field of the layout ends on a byte boundary. */
  predicate NoBoundary(ws: seq<nat>) {
    ws == [] || (NoBoundary(ws[..|ws| - 1]) && Sum(ws) % 8 != 0)
  }

  /** No field but the last one ends on a byte boundary. */
  predicate NoEarlyBoundary(ws: seq<nat>) {
    ws == [] || NoBoundary(ws[..|ws| - 1])
  }

  lemma TakeTake<T>(s: seq<T>, i: nat, j: nat)
    requires i <= j <= |s|
    ensures s[..j][..i] == s[..i]
  {
  }

  lemma WidthsInit(fields: seq<Field>, k: nat)
    requires k <= |fields|
    ensures Widths(fields[..k]) == Widths(fields)[..k]
  {
  }

  /** What one more field does to a layout. */
  lemma LastWidth(fields: seq<Field>)
    requires fields != []
    ensures var init, w := fields[..|fields| - 1], fields[|fields| - 1].width;
            && Widths(fields)[..|fields| - 1] == Widths(init)
            && Sum(Widths(fields)) == Sum(Widths(init)) + w
            && Pending(Widths(fields)) == NextPending(Pending(Widths(init)), w)
            && (Defined(Widths(fields)) <==> Defined(Widths(init)) && w >= 1 && Pending(Widths(init)) + w <= 16)
            && (NoBoundary(Widths(fields)) <==> NoBoundary(Widths(init)) && (Sum(Widths(init)) + w) % 8 != 0)
            && (NoEarlyBoundary(Widths(fields)) <==> NoBoundary(Widths(init)))
  {
    WidthsInit(fields, |fields| - 1);
  }

  lemma {:induction false} PendingIsPending(fields: seq<Field>)
    ensures PutAll(fields).pending == Pending(Widths(fields))
  {
    if fields != [] {
      PendingIsPending(fields[..|fields| - 1]);
      LastWidth(fields);
    }
  }

  lemma {:induction false} FlatLength(fields: seq<Field>)
    ensures |Flat(fields)| == Sum(Widths(fields))
  {
    if fields != [] {
      FlatLength(fields[..|fields| - 1]);
      LastWidth(fields);
    }
  }

  lemma OffBoundary(sum: nat, w: nat)
    requires w >= 1 && sum % 8 + w <= 16 && (sum + w) % 8 != 0
    ensures sum % 8 + w != 8 && sum % 8 + w != 16
    ensures (sum + w) % 8 == if sum % 8 + w < 8 then sum % 8 + w else sum % 8 + w - 8
  {
  }

  /** A field that does not end on a byte boundary just goes behind the bits written before. */
  lemma PutInside(o: BitOut, sum: nat, value: nat, w: nat)
    requires o.pending == sum % 8 && 1 <= w && o.pending + w <= 16 && (sum + w) % 8 != 0
    ensures Put(o, value, w) == BitOut(o.bits + BitsOf(value, w), (sum + w) % 8)
  {
    OffBoundary(sum, w);
    assert o.bits + BitsOf(value, w) + [] == o.bits + BitsOf(value, w);
  }

  /** As long as no byte has been filled exactly, the writer holds the concatenation. */
  lemma {:induction false} CleanSoFar(fields: seq<Field>)
    requires Defined(Widths(fields)) && NoBoundary(Widths(fields))
    ensures PutAll(fields) == BitOut(Flat(fields), Sum(Widths(fields)) % 8)
  {
    if fields != [] {
      var init, last := fields[..|fields| - 1], fields[|fields| - 1];
      LastWidth(fields);
      CleanSoFar(init);
      PendingIsPending(init);
      PutInside(PutAll(init), Sum(Widths(init)), last.value, last.width);
    }
  }

  /** A field that ends on a byte boundary is emitted, but its last bits are pending again. */
  lemma PutExact(o: BitOut, value: nat, w: nat)
    requires o.pending < 8 && (o.pending + w == 8 || o.pending + w == 16)
    ensures Emitted(Put(o, value, w)) == o.bits + BitsOf(value, w)
    ensures var again := Put(o, value, w).pending;
            && 1 <= again <= w
            && Put(o, value, w).bits == o.bits + BitsOf(value, w) + BitsOf(value, w)[w - again..]
  {
    var again := Again(o.pending, w);
    var all := o.bits + BitsOf(value, w);
    assert |all + BitsOf(value, w)[w - again..]| - again == |all|;
  }

  lemma OnBoundary(sum: nat, w: nat)
    requires w >= 1 && sum % 8 + w <= 16 && (sum + w) % 8 == 0
    ensures sum % 8 + w == 8 || sum % 8 + w == 16
  {
  }

  lemma BeforeLast(fields: seq<Field>)
    requires fields != [] && Defined(Widths(fields))
    requires NoEarlyBoundary(Widths(fields)) && Sum(Widths(fields)) % 8 == 0
    ensures var init, w := fields[..|fields| - 1], fields[|fields| - 1].width;
            && PutAll(init) == BitOut(Flat(init), Sum(Widths(init)) % 8)
            && (PutAll(init).pending + w == 8 || PutAll(init).pending + w == 16)
  {
    var init := fields[..|fields| - 1];
    LastWidth(fields);
    CleanSoFar(init);
    PendingIsPending(init);
    OnBoundary(Sum(Widths(init)), fields[|fields| - 1].width);
  }

  /** A layout whose only byte boundary is at its end is written as the concatenation. */
  lemma WritesFlat(fields: seq<Field>)
    requires fields != [] && Defined(Widths(fields))
    requires NoEarlyBoundary(Widths(fields)) && Sum(Widths(fields)) % 8 == 0
    ensures Emitted(PutAll(fields)) == Flat(fields)
  {
    var init, last := fields[..|fields| - 1], fields[|fields| - 1];
    BeforeLast(fields);
    PutExact(PutAll(init), last.value, last.width);
  }

  lemma PutExtends(o: BitOut, value: nat, w: nat)
    ensures o.bits <= Put(o, value, w).bits
  {
  }

  lemma {:induction false} PutAllExtends(fields: seq<Field>, k: nat)
    requires k <= |fields|
    ensures PutAll(fields[..k]).bits <= PutAll(fields).bits
    ensures Flat(fields[..k]) <= Flat(fields)
  {
    if k == |fields| {
      assert fields[..k] == fields;
    } else {
      var n := |fields| - 1;
      PutAllExtends(fields[..n], k);
      TakeTake(fields, k, n);
      PutExtends(PutAll(fields[..n]), fields[n].value, fields[n].width);
    }
  }

  lemma {:induction false} DefinedPrefix(ws: seq<nat>, k: nat)
    requires Defined(ws) && k <= |ws|
    ensures Defined(ws[..k])
  {
    if k == |ws| {
      assert ws[..k] == ws;
    } else {
      DefinedPrefix(ws[..|ws| - 1], k);
      TakeTake(ws, k, |ws| - 1);
    }
  }

  lemma {:induction false} OnesBit(w: nat, i: nat)
    requires i < w
    ensures BitsOf(Pow2(w) - 1, w)[i]
  {
    assert (Pow2(w) - 1) / 2 == Pow2(w - 1) - 1;
    if i < w - 1 { OnesBit(w - 1, i); }
  }

  lemma {:induction false} ZeroBit(w: nat)
    requires w > 0
    ensures !BitsOf(0, w)[0]
  {
    if w > 1 { ZeroBit(w - 1); }
  }

  /** Zeros everywhere except for ones in the field before position `k`. */
  function OnesBefore(ws: seq<nat>, k: nat): (fields: seq<Field>)
    ensures Widths(fields) == ws && InRange(fields)
  {
    seq(|ws|, i requires 0 <= i < |ws| => Field(if i + 1 == k then Pow2(ws[i]) - 1 else 0, ws[i]))
  }

  lemma BitAfterBoundary(fields: seq<Field>)
    requires fields != [] && Defined(Widths(fields))
    requires NoEarlyBoundary(Widths(fields)) && Sum(Widths(fields)) % 8 == 0
    requires fields[|fields| - 1].value == Pow2(fields[|fields| - 1].width) - 1
    ensures |PutAll(fields).bits| > |Flat(fields)| && PutAll(fields).bits[|Flat(fields)|]
  {
    var init, last := fields[..|fields| - 1], fields[|fields| - 1];
    BeforeLast(fields);
    PutExact(PutAll(init), last.value, last.width);
    var again := Put(PutAll(init), last.value, last.width).pending;
    OnesBit(last.width, last.width - again);
    assert BitsOf(last.value, last.width)[last.width - again..][0];
  }

  lemma DifferAt(o: BitOut, flat: seq<bool>, at: nat)
    requires at < |o.bits| && o.bits[at]
    requires at < |flat| && !flat[at]
    ensures Emitted(o) != flat
  {
    if at < |Emitted(o)| {
      assert Emitted(o)[at];
    }
  }

  /** Ones that end exactly on an early byte boundary leak into the next byte. */
  lemma EarlyBoundaryLeaks(ws: seq<nat>, k: nat)
    requires Defined(ws) && 0 < k < |ws| && Sum(ws[..k]) % 8 == 0 && NoEarlyBoundary(ws[..k])
    ensures Emitted(PutAll(OnesBefore(ws, k))) != Flat(OnesBefore(ws, k))
  {
    var fields := OnesBefore(ws, k);
    var at := |Flat(fields[..k])|;
    WidthsInit(fields, k);
    DefinedPrefix(ws, k);
    BitAfterBoundary(fields[..k]);
    PutAllExtends(fields, k);
    NextWidth(ws, k);
    TakeTake(fields, k, k + 1);
    ZeroBit(ws[k]);
    assert fields[k] == Field(0, ws[k]);
    assert Flat(fields[..k + 1]) == Flat(fields[..k]) + BitsOf(0, ws[k]);
    PutAllExtends(fields, k + 1);
    DifferAt(PutAll(fields), Flat(fields), at);
  }

  lemma NextWidth(ws: seq<nat>, k: nat)
    requires Defined(ws) && k < |ws|
    ensures ws[k] >= 1
  {
    DefinedPrefix(ws, k + 1);
  }

  /** The first byte boundary in a layout. */
  lemma {:induction false} FirstBoundary(ws: seq<nat>, m: nat) returns (k: nat)
    requires m <= |ws| && !NoBoundary(ws[..m])
    ensures 0 < k <= m && Sum(ws[..k]) % 8 == 0 && NoEarlyBoundary(ws[..k])
  {
    TakeTake(ws, m - 1, m);
    if NoBoundary(ws[..m - 1]) {
      k := m;
    } else {
      k := FirstBoundary(ws, m - 1);
    }
  }

  predicate WrittenFlat(fields: seq<Field>) { Emitted(PutAll(fields)) == Flat(fields) }

  /** A layout of whole bytes is written correctly for all values of its fields if and only if no
      field but the last ends on a byte boundary. */
  lemma WritesFlatIff(ws: seq<nat>)
    requires ws != [] && Defined(ws) && Sum(ws) % 8 == 0
    ensures (forall fields {:trigger WrittenFlat(fields)} ::
               Widths(fields) == ws && InRange(fields) ==> WrittenFlat(fields))
            <==> NoEarlyBoundary(ws)
  {
    if NoEarlyBoundary(ws) {
      forall fields | Widths(fields) == ws ensures WrittenFlat(fields) {
        WritesFlat(fields);
      }
    } else {
      var k := FirstBoundary(ws, |ws| - 1);
      EarlyBoundaryLeaks(ws, k);
      assert !WrittenFlat(OnesBefore(ws, k));
    }
  }

  /** Cutting the concatenation at the widths gives every field's value back. */
  lemma {:induction false} FieldsReadBack(fields: seq<Field>, k: nat)
    requires InRange(fields) && k < |fields|
    ensures Sum(Widths(fields)[..k + 1]) <= |Flat(fields)|
    ensures Sum(Widths(fields)[..k]) <= Sum(Widths(fields)[..k + 1])
    ensures ToNat(Flat(fields)[Sum(Widths(fields)[..k])..Sum(Widths(fields)[..k + 1])]) == fields[k].value
  {
    var ws, f := Widths(fields), fields[k];
    WidthsInit(fields, k);
    WidthsInit(fields, k + 1);
    FlatLength(fields[..k]);
    FlatLength(fields[..k + 1]);
    TakeTake(fields, k, k + 1);
    TakeTake(ws, k, k + 1);
    PutAllExtends(fields, k + 1);
    ToNatBitsOf(f.value, f.width);
    assert Flat(fields[..k + 1]) == Flat(fields[..k]) + BitsOf(f.value, f.width);
    assert Flat(fields)[Sum(ws[..k])..Sum(ws[..k + 1])] == BitsOf(f.value, f.width);
  }

  /** On a fresh writer, fields whose only byte boundary is at the end come back from the emitted
      bytes when these are read with the same widths. */
  lemma FieldsRoundTrip(fields: seq<Field>, bytes: Bytes, k: nat)
    requires fields != [] && InRange(fields) && Defined(Widths(fields))
    requires NoEarlyBoundary(Widths(fields)) && Sum(Widths(fields)) % 8 == 0
    requires ByteBits(bytes) == Emitted(PutAll(fields)) && k < |fields|
    ensures Sum(Widths(fields)[..k]) <= Sum(Widths(fields)[..k + 1]) <= 8 * |bytes|
    ensures ToNat(ByteBits(bytes)[Sum(Widths(fields)[..k])..Sum(Widths(fields)[..k + 1])]) == fields[k].value
  {
    WritesFlat(fields);
    FieldsReadBack(fields, k);
  }

  /** The fixed header's four fields are such a layout. A second header on the same writer makes a
      layout that is not: some fields of those widths are miswritten. */
  lemma HeaderLayout()
    ensures var ws := [4, 1, 2, 1]; Defined(ws) && NoEarlyBoundary(ws) && Sum(ws) == 8
    ensures var ws := [4, 1, 2, 1, 4, 1, 2, 1];
            && Defined(ws) && !NoEarlyBoundary(ws) && Sum(ws) == 16
            && exists fields :: Widths(fields) == ws && InRange(fields) && !WrittenFlat(fields)
  {
    var a0: seq<nat> := [];
    var a1, a2 := a0 + [4], a0 + [4] + [1];
    var a3, a4 := a2 + [2], a2 + [2] + [1];
    var a5, a6 := a4 + [4], a4 + [4] + [1];
    var a7, a8 := a6 + [2], a6 + [2] + [1];
    Append(a0, 4);
    Append(a1, 1);
    Append(a2, 2);
    Append(a3, 1);
    Append(a4, 4);
    Append(a5, 1);
    Append(a6, 2);
    Append(a7, 1);
    assert a4 == [4, 1, 2, 1] && a8 == [4, 1, 2, 1, 4, 1, 2, 1];
    WritesFlatIff(a8);
  }

  lemma Append(ws: seq<nat>, w: nat)
    ensures Sum(ws + [w]) == Sum(ws) + w && Pending(ws + [w]) == NextPending(Pending(ws), w)
    ensures NoBoundary(ws + [w]) <==> NoBoundary(ws) && (Sum(ws) + w) % 8 != 0
    ensures NoEarlyBoundary(ws + [w]) <==> NoBoundary(ws)
    ensures Defined(ws + [w]) <==> Defined(ws) && w >= 1 && Pending(ws) + w <= 16
  {
    assert (ws + [w])[..|ws|] == ws;
  }
}
