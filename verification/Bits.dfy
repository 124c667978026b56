/** Words as the sets of their one bits: or is union, a single-bit test is membership,
    and numbers are put into and read out of fields of such words. */
module Bits {

  type Word = set<nat>

  function Pow2(k: nat): (p: nat)
    ensures p > 0
  {
    if k == 0 then 1 else 2 * Pow2(k - 1)
  }

  /** Bit k of a number. */
  predicate Bit(n: nat, k: nat) {
    if k == 0 then n % 2 == 1 else Bit(n / 2, k - 1)
  }

  /** Bit j of n << lo. */
  predicate ShiftedBit(n: nat, lo: nat, j: nat) {
    lo <= j && Bit(n, j - lo)
  }

  /** The low width bits of n, shifted up by lo. */
  function Put(n: nat, lo: nat, width: nat): Word {
    set j: nat | lo <= j < lo + width && ShiftedBit(n, lo, j)
  }

  /** The number in the width bits of w from bit lo on. */
  function Field(w: Word, lo: nat, width: nat): nat
    decreases width
  {
    if width == 0 then 0 else (if lo in w then 1 else 0) + 2 * Field(w, lo + 1, width - 1)
  }

  /** A field holds n if each of its bits is that bit of n. */
  lemma {:induction false} FieldHolds(w: Word, lo: nat, width: nat, n: nat)
    requires n < Pow2(width) && forall j: nat :: j < width ==> (lo + j in w <==> Bit(n, j))
    ensures Field(w, lo, width) == n
    decreases width
  {
    if width > 0 {
      assert lo + 0 in w <==> Bit(n, 0);
      forall j: nat | j < width - 1 ensures lo + 1 + j in w <==> Bit(n / 2, j) {
        assert lo + (j + 1) in w <==> Bit(n, j + 1);
      }
      FieldHolds(w, lo + 1, width - 1, n / 2);
    }
  }

  /** A number of width bits has no bit beyond them. */
  lemma {:induction false} NoHighBit(n: nat, width: nat, k: nat)
    requires n < Pow2(width) && width <= k
    ensures !Bit(n, k)
    decreases k
  {
    if k > 0 { NoHighBit(n / 2, if width > 0 then width - 1 else 0, k - 1); }
  }

  /** What lies above width bits does not show in them. */
  lemma {:induction false} LowBits(q: nat, n: nat, width: nat, k: nat)
    requires n < Pow2(width) && k < width
    ensures Bit(q * Pow2(width) + n, k) <==> Bit(n, k)
    decreases k
  {
    var m := q * Pow2(width - 1);
    assert q * Pow2(width) == 2 * m;
    assert (2 * m + n) / 2 == m + n / 2 && (2 * m + n) % 2 == n % 2;
    if k > 0 { LowBits(q, n / 2, width - 1, k - 1); }
  }

  /** Numbers of width bits are determined by their bits. */
  lemma {:induction false} SameBits(a: nat, b: nat, width: nat)
    requires a < Pow2(width) && b < Pow2(width) && forall j: nat :: j < width ==> (Bit(a, j) <==> Bit(b, j))
    ensures a == b
    decreases width
  {
    if width > 0 {
      assert Bit(a, 0) <==> Bit(b, 0);
      forall j: nat | j < width - 1 ensures Bit(a / 2, j) <==> Bit(b / 2, j) {
        assert Bit(a, j + 1) <==> Bit(b, j + 1);
      }
      SameBits(a / 2, b / 2, width - 1);
    }
  }

  // ------------------------------------------------- fields side by side

  /** No bit from lo to lo + width is set. */
  ghost predicate Clear(w: Word, lo: nat, width: nat) {
    forall j: nat :: j in w ==> j < lo || lo + width <= j
  }

  lemma {:induction false} SameField(a: Word, b: Word, lo: nat, width: nat)
    requires forall j: nat :: lo <= j < lo + width ==> (j in a <==> j in b)
    ensures Field(a, lo, width) == Field(b, lo, width)
    decreases width
  {
    if width > 0 {
      SameField(a, b, lo + 1, width - 1);
    }
  }

  lemma {:induction false} FieldOfPut(w: Word, n: nat, lo: nat, width: nat)
    requires n < Pow2(width) && Clear(w, lo, width)
    ensures Field(w + Put(n, lo, width), lo, width) == n
  {
    var v := w + Put(n, lo, width);
    forall j: nat | j < width ensures lo + j in v <==> Bit(n, j) {
      assert lo + j in Put(n, lo, width) <==> ShiftedBit(n, lo, lo + j);
    }
    FieldHolds(v, lo, width, n);
  }

  lemma {:induction false} FieldBeside(w: Word, n: nat, lo: nat, width: nat, at: nat, size: nat)
    requires at + size <= lo || lo + width <= at
    ensures Field(w + Put(n, lo, width), at, size) == Field(w, at, size)
  {
    SameField(w + Put(n, lo, width), w, at, size);
  }

  /** A number of width bits needs no more room than these. */
  lemma {:induction false} PutFits(n: nat, lo: nat, width: nat, room: nat)
    requires n < Pow2(width) && width <= room
    ensures Put(n, lo, room) == Put(n, lo, width)
  {
    forall j: nat | lo + width <= j < lo + room ensures !ShiftedBit(n, lo, j) {
      NoHighBit(n, width, j - lo);
    }
  }

  /** A value and the field it is meant for. */
  datatype Slot = Slot(value: nat, lo: nat, width: nat)

  /** The first k values, each shifted to its field, or-ed into a 32-bit word. */
  function Packed(slots: seq<Slot>, k: nat): Word
    requires k <= |slots|
  {
    if k == 0 then {} else Packed(slots, k - 1) + Put(slots[k - 1].value, slots[k - 1].lo, Rest(slots[k - 1].lo))
  }

  /** The bits from lo to the end of a word. */
  function Rest(lo: nat): nat {
    if lo < 32 then 32 - lo else 0
  }

  /** The values fit their fields, and the fields do not overlap. */
  ghost predicate Fitting(slots: seq<Slot>) {
    && (forall k :: 0 <= k < |slots| ==> slots[k].value < Pow2(slots[k].width) && slots[k].lo + slots[k].width <= 32)
    && (forall j, k :: 0 <= j < k < |slots| ==>
          slots[j].lo + slots[j].width <= slots[k].lo || slots[k].lo + slots[k].width <= slots[j].lo)
  }

  lemma {:induction false} PackedClear(slots: seq<Slot>, k: nat, j: nat)
    requires Fitting(slots) && k <= j < |slots|
    ensures Clear(Packed(slots, k), slots[j].lo, slots[j].width)
    decreases k
  {
    if k > 0 {
      var s := slots[k - 1];
      PackedClear(slots, k - 1, j);
      PutFits(s.value, s.lo, s.width, Rest(s.lo));
    }
  }

  /** Each value can be read back from its field. */
  lemma {:induction false} PackedReads(slots: seq<Slot>, k: nat, j: nat)
    requires Fitting(slots) && j < k <= |slots|
    ensures Field(Packed(slots, k), slots[j].lo, slots[j].width) == slots[j].value
    decreases k
  {
    var s := slots[k - 1];
    PutFits(s.value, s.lo, s.width, Rest(s.lo));
    if j == k - 1 {
      PackedClear(slots, k - 1, j);
      FieldOfPut(Packed(slots, k - 1), s.value, s.lo, s.width);
    } else {
      PackedReads(slots, k - 1, j);
      FieldBeside(Packed(slots, k - 1), s.value, s.lo, s.width, slots[j].lo, slots[j].width);
    }
  }
}
