/** The scaler registers of the SAA7146: prescaling and fine scaling of lines, scaling of
    columns, and the words they are packed into. */
module Scaler {
  import opened Arithmetic
  import opened Bits

  const EINVAL := 22

  type Byte = n: nat | n < 256
  type HalfWord = n: nat | n < 65536

  /** Filter coefficients and their weights, for reductions from 1:1 to 1:64. */
  const H_COEFF: seq<Byte> := [
    0x00, 0x02, 0x00, 0x06, 0x02, 0x08, 0x00, 0x1E, 0x0E, 0x26, 0x06, 0x42, 0x02, 0x80, 0x00, 0xFE,
    0xFE, 0x7E, 0x7E, 0x3E, 0x3E, 0x1E, 0x1E, 0x0E, 0x0E, 0x06, 0x06, 0x02, 0x02, 0x00, 0x00, 0xFE,
    0xFE, 0xFE, 0xFE, 0xFE, 0xFE, 0xFE, 0xFE, 0xFE, 0xFE, 0xFE, 0xFE, 0xFE, 0xFE, 0xFE, 0xFE, 0xFE,
    0xFE, 0x7E, 0x7E, 0x3E, 0x3E, 0x1E, 0x1E, 0x0E, 0x0E, 0x06, 0x06, 0x02, 0x02, 0x00, 0x00, 0xFE]
  const H_WEIGHT: seq<nat> := [
    2, 4, 4, 8, 8, 8, 8, 16, 8, 8, 8, 8, 8, 8, 8, 16, 8, 8, 8, 8, 8, 8, 8, 8, 8, 8, 8, 8, 8, 8, 8, 16,
    8, 8, 8, 8, 8, 8, 8, 8, 8, 8, 8, 8, 8, 8, 8, 8, 8, 8, 8, 8, 8, 8, 8, 8, 8, 8, 8, 8, 8, 8, 8, 16]
  const V_COEFF: seq<HalfWord> := [
    0x0100, 0x0102, 0x0300, 0x0106, 0x0502, 0x0708, 0x0F00, 0x011E, 0x110E, 0x1926, 0x3906, 0x3D42, 0x7D02, 0x7F80,
    0xFF00, 0x01FE, 0x01FE, 0x817E, 0x817E, 0xC13E, 0xC13E, 0xE11E, 0xE11E, 0xF10E, 0xF10E, 0xF906, 0xF906, 0xFD02,
    0xFD02, 0xFF00, 0xFF00, 0x01FE, 0x01FE, 0x01FE, 0x01FE, 0x01FE, 0x01FE, 0x01FE, 0x01FE, 0x01FE, 0x01FE, 0x01FE,
    0x01FE, 0x01FE, 0x01FE, 0x01FE, 0x01FE, 0x01FE, 0x01FE, 0x817E, 0x817E, 0xC13E, 0xC13E, 0xE11E, 0xE11E, 0xF10E,
    0xF10E, 0xF906, 0xF906, 0xFD02, 0xFD02, 0xFF00, 0xFF00, 0x01FE]
  const V_WEIGHT: seq<nat> := [
    2, 4, 4, 8, 8, 8, 8, 16, 16, 16, 16, 16, 16, 16, 16, 32, 32, 32, 32, 32, 32, 32, 32, 32, 32, 32, 32, 32, 32, 32,
    32, 64, 64, 64, 64, 64, 64, 64, 64, 64, 64, 64, 64, 64, 64, 64, 64, 64, 64, 64, 64, 64, 64, 64, 64, 64, 64, 64,
    64, 64, 64, 64, 64, 128]
  const H_ATTENUATION: seq<nat> := [1, 2, 4, 8, 2, 4, 8, 16, 0]
  const V_ATTENUATION: seq<nat> := [2, 4, 8, 16, 32, 64, 128, 256, 0]

  /** Filter coefficients and weights by reduction, and the attenuations to choose from. */
  datatype Table = Table(coeff: seq<nat>, weight: seq<nat>, attenuation: seq<nat>)

  const H_TABLE := Table(H_COEFF, H_WEIGHT, H_ATTENUATION)
  const V_TABLE := Table(V_COEFF, V_WEIGHT, V_ATTENUATION)

  /** A table for reductions up to 64:1 with coefficients below a bound. */
  ghost predicate GoodTable(t: Table, bound: nat) {
    && |t.coeff| == |t.weight| == 64 && |t.attenuation| == 9 && t.attenuation[8] == 0
    && forall k :: 0 <= k < 64 ==> t.coeff[k] < bound
  }

  lemma {:induction false} TablesGood()
    ensures GoodTable(H_TABLE, 256) && GoodTable(V_TABLE, 65536)
  {
  }

  /** Entry i is the first attenuation that is not below a weight, or the end of the table. */
  ghost predicate BestMatch(table: seq<nat>, weight: nat, i: nat) {
    && i < |table| && (table[i] == 0 || table[i] >= weight)
    && forall k :: 0 <= k < i ==> table[k] != 0 && table[k] < weight
  }

  method Attenuation(table: seq<nat>, weight: nat) returns (i: nat)
    requires |table| == 9 && table[8] == 0
    ensures i <= 8 && BestMatch(table, weight, i)
  {
    i := 0;
    while table[i] != 0
      invariant i <= 8 && forall k :: 0 <= k < i ==> table[k] != 0 && table[k] < weight
      decreases 8 - i
    {
      if table[i] >= weight {
        break;
      }
      i := i + 1;
    }
  }

  // ----------------------------------------------------- horizontal scale

  /** How many pixels a line may have after prescaling. */
  function Limit(flip: bool): nat {
    if flip then 384 else 768
  }

  /** The pixels of a line after prescaling. */
  function Width(inX: nat): nat -> nat {
    (xpsc: nat) => if xpsc == 0 then inX else inX / xpsc
  }

  lemma {:induction false} WidthShrinks(inX: nat, a: nat, b: nat)
    requires 0 < a <= b
    ensures Width(inX)(b) <= Width(inX)(a)
  {
    DivLess(inX, a, b);
  }

  /** The prescale value: the least one, from start on, that brings the line below the
      limit. A line below 24576 pixels needs no more than 64. */
  method PrescaleFrom(width: nat -> nat, limit: nat, start: nat) returns (xpsc: nat)
    requires 0 < start && forall k: nat :: k >= 64 ==> width(k) < limit
    ensures start <= xpsc && width(xpsc) < limit && (xpsc <= 64 || xpsc == start)
    ensures forall k: nat :: start <= k < xpsc ==> width(k) >= limit
  {
    xpsc := start;
    while width(xpsc) >= limit
      invariant start <= xpsc && (xpsc <= 64 || xpsc == start)
      invariant forall k: nat :: start <= k < xpsc ==> width(k) >= limit
      decreases 64 - xpsc
    {
      xpsc := xpsc + 1;
    }
  }

  /** The ratio of the widths, where lines are not stretched. */
  function Ratio(inX: nat, outX: nat): nat {
    if outX == 0 || inX <= outX then 1 else inX / outX
  }

  /** The prescale value, at most 64. */
  method Prescale(inX: nat, outX: nat, flip: bool) returns (xpsc: nat)
    requires inX < 24576 && outX > 0
    ensures 1 <= xpsc <= 64 && Width(inX)(xpsc) < Limit(flip) && inX / xpsc < (if flip then 384 else 768)
    ensures Ratio(inX, outX) <= 64 ==> Ratio(inX, outX) <= xpsc
    ensures forall k: nat :: Ratio(inX, outX) <= k < xpsc ==> Width(inX)(k) >= Limit(flip)
  {
    RatioPositive(inX, outX);
    forall k: nat | k >= 64 ensures Width(inX)(k) < Limit(flip) {
      WidthShrinks(inX, 64, k);
    }
    xpsc := PrescaleFrom(Width(inX), Limit(flip), Ratio(inX, outX));
    if xpsc > 64 {
      xpsc := 64;
    }
  }

  /** The ratio is how often the new width goes into a line that shrinks. */
  lemma {:induction false} RatioMeans(inX: nat, outX: nat, n: nat)
    requires outX > 0
    ensures inX <= outX ==> Ratio(inX, outX) == 1
    ensures inX > outX ==> (n == Ratio(inX, outX) <==> n * outX <= inX < (n + 1) * outX)
  {
    QuotientBounds(inX, outX);
    if n * outX <= inX < (n + 1) * outX {
      QuotientAtLeast(inX, outX, n);
      QuotientBelow(inX, outX, n + 1);
    }
  }

  lemma {:induction false} RatioPositive(inX: nat, outX: nat)
    ensures Ratio(inX, outX) >= 1
  {
    if outX > 0 && inX > outX {
      QuotientAtLeast(inX, outX, 1);
    }
  }

  /** The fine scale value has 12 bits if lines shrink to no less than a 64th. */
  lemma {:induction false} FineScaleFits(inX: nat, outX: nat, xpsc: nat)
    requires outX > 0 && Ratio(inX, outX) <= xpsc <= 64 && xpsc > 0
    ensures outX * xpsc > 0 && (1024 * inX) / (outX * xpsc) + xpsc < 4096
  {
    var q, d := Ratio(inX, outX), outX * xpsc;
    MulLe(1, xpsc, outX);
    MulLe(q, xpsc, outX);
    assert inX < q * outX + outX;
    QuotientBelow(1024 * inX, d, 2048);
  }

  /** Every value can be read back from its field of the word. */
  ghost predicate Unpacks(w: Word, slots: seq<Slot>) {
    forall j :: 0 <= j < |slots| ==> Field(w, slots[j].lo, slots[j].width) == slots[j].value
  }

  lemma {:induction false} PackedUnpacks(slots: seq<Slot>)
    requires Fitting(slots)
    ensures Unpacks(Packed(slots, |slots|), slots)
  {
    forall j | 0 <= j < |slots| ensures Field(Packed(slots, |slots|), slots[j].lo, slots[j].width) == slots[j].value {
      PackedReads(slots, |slots|, j);
    }
  }

  lemma {:induction false} FieldSizes()
    ensures Pow2(1) == 2 && Pow2(5) == 32 && Pow2(6) == 64 && Pow2(7) == 128 && Pow2(8) == 256 && Pow2(9) == 512
    ensures Pow2(10) == 1024 && Pow2(12) == 4096 && Pow2(16) == 65536
  {
    assert Pow2(8) == 256;
    assert Pow2(12) == 16 * Pow2(8);
    assert Pow2(16) == 16 * Pow2(12);
  }

  /** What the line scaler is set to. */
  datatype HFields = HFields(dcgx: nat, xpsc: nat, xacm: nat, coeff: nat, xim: nat, xsci: nat, pfuv: nat)

  function PrescaleSlots(f: HFields): seq<Slot>
    requires f.xpsc > 0
  {
    [Slot(f.dcgx, 27, 5), Slot(f.xpsc - 1, 18, 9), Slot(f.xacm, 17, 1), Slot(f.coeff, 8, 8), Slot(f.coeff, 0, 8)]
  }

  function ScaleSlots(f: HFields): seq<Slot> {
    [Slot(f.xim, 31, 1), Slot(0, 24, 7), Slot(f.xsci, 12, 12)]
  }

  /** The step, in 1024ths of a pixel, that goes through inX pixels in d steps. */
  function StepOf(inX: nat, d: nat): nat {
    if d == 0 then 0 else 1024 * inX / d
  }

  function FineScale(inX: nat, outX: nat, xpsc: nat): nat {
    if inX == outX && xpsc == 1 then 0x400 else StepOf(inX, outX * xpsc) + xpsc
  }

  /** The bandwidth filter for a fine scale value. */
  function Bandwidth(xsci: nat): nat {
    if xsci == 0x400 then 0x00
    else if xsci < 0x600 then 0x01
    else if xsci < 0x680 then 0x11
    else if xsci < 0x700 then 0x22
    else 0x33
  }

  lemma {:induction false} StepMeans(inX: nat, d: nat, step: nat)
    requires d > 0
    ensures step == StepOf(inX, d) <==> step * d <= 1024 * inX < (step + 1) * d
  {
    QuotientBounds(1024 * inX, d);
    if step * d <= 1024 * inX < (step + 1) * d {
      QuotientAtLeast(1024 * inX, d, step);
      QuotientBelow(1024 * inX, d, step + 1);
    }
  }

  /** The scaler is bypassed exactly for lines that stay as they are; else the fine scale
      value less the prescale value is the longest step that goes through the line, once
      prescaled, in outX steps. */
  lemma {:induction false} FineScaleMeans(inX: nat, outX: nat, xpsc: nat, step: nat)
    requires outX * xpsc > 0 && !(inX == outX && xpsc == 1)
    ensures FineScale(inX, inX, 1) == 1024
    ensures FineScale(inX, outX, xpsc) == step + xpsc
       <==> step * (outX * xpsc) <= 1024 * inX < (step + 1) * (outX * xpsc)
  {
    StepMeans(inX, outX * xpsc, step);
  }

  /** The filter is off exactly where the scaler is bypassed, and grows in three steps. */
  lemma {:induction false} BandwidthMeans(x: nat)
    ensures Bandwidth(x) in {0x00, 0x01, 0x11, 0x22, 0x33} && (Bandwidth(x) == 0 <==> x == 1024)
    ensures (Bandwidth(x) >= 0x11 <==> x >= 1536) && (Bandwidth(x) >= 0x22 <==> x >= 1664)
    ensures Bandwidth(x) == 0x33 <==> x >= 1792
  {
  }

  /** The values for a line of inX pixels that is to have outX. */
  ghost predicate HSet(inX: nat, outX: nat, flip: bool, t: Table, f: HFields)
    requires GoodTable(t, 256)
  {
    && 1 <= f.xpsc <= 64 && Width(inX)(f.xpsc) < Limit(flip)
    && (Ratio(inX, outX) <= 64 ==> Ratio(inX, outX) <= f.xpsc)
    && (forall k: nat :: Ratio(inX, outX) <= k < f.xpsc ==> Width(inX)(k) >= Limit(flip))
    && f.xsci == FineScale(inX, outX, f.xpsc) && f.pfuv == Bandwidth(f.xsci)
    && f.xim == (if f.xsci == 0x400 then 1 else 0) && f.xacm == (if f.xpsc == 1 then 1 else 0)
    && f.coeff == t.coeff[f.xpsc - 1] && f.dcgx <= 8
    && (if f.xpsc == 1 then f.dcgx == 0 else BestMatch(t.attenuation, t.weight[f.xpsc - 1], f.dcgx))
  }

  /** Computes these values. */
  method HValues(inX: nat, outX: nat, flip: bool, t: Table) returns (f: HFields)
    requires inX < 24576 && outX > 0 && GoodTable(t, 256)
    ensures HSet(inX, outX, flip, t, f)
  {
    var xpsc := Prescale(inX, outX, flip);
    var entry := if xpsc - 1 < 63 then xpsc - 1 else 63;
    var xsci := FineScale(inX, outX, xpsc);
    var xim := if xsci == 0x400 then 1 else 0;
    var xacm, dcgx := 1, 0;
    if xpsc != 1 {
      xacm := 0;
      dcgx := Attenuation(t.attenuation, t.weight[entry]);
    }
    f := HFields(dcgx, xpsc, xacm, t.coeff[entry], xim, xsci, Bandwidth(xsci));
  }

  /** A word with its low 24 bits kept and a byte put above them. */
  function TopByte(w: Word, byte: nat): Word {
    (set j | j in w && j < 24) + Put(byte, 24, 8)
  }

  /** The byte can be read back, and lower fields are as they were. */
  lemma {:induction false} TopByteReads(w: Word, byte: nat, lo: nat, width: nat)
    requires byte < 256 && lo + width <= 24
    ensures Field(TopByte(w, byte), 24, 8) == byte && Field(TopByte(w, byte), lo, width) == Field(w, lo, width)
  {
    FieldSizes();
    FieldOfPut((set j | j in w && j < 24), byte, 24, 8);
    SameField(TopByte(w, byte), w, lo, width);
  }

  /** Sets the line scaler by a table. For lines that shrink to no less than a 64th, every
      value can be read back from its field of the register words. */
  method HScaleBy(inX: nat, outX: nat, flip: bool, t: Table, ctrl: Word, gain: Word)
    returns (r: int, f: HFields, ctrl': Word, gain': Word, prescale: Word, scale: Word)
    requires inX < 24576 && GoodTable(t, 256)
    ensures r == if outX == 0 then -EINVAL else 0
    ensures r != 0 ==> ctrl' == ctrl && gain' == gain
    ensures r == 0 ==> HSet(inX, outX, flip, t, f) && ctrl' == (if flip then ctrl + {29} else ctrl - {29})
    ensures r == 0 ==> gain' == TopByte(gain, f.pfuv) && Field(gain', 24, 8) == f.pfuv
    ensures r == 0 && Ratio(inX, outX) <= 64 ==> Unpacks(prescale, PrescaleSlots(f)) && Unpacks(scale, ScaleSlots(f))
  {
    f, ctrl', gain', prescale, scale := HFields(0, 1, 0, 0, 0, 0, 0), ctrl, gain, {}, {};
    if outX == 0 {
      return -EINVAL, f, ctrl', gain', prescale, scale;
    }
    ctrl' := ctrl' - {29};
    if flip {
      ctrl' := ctrl' + {29};
    }
    f := HValues(inX, outX, flip, t);
    gain' := TopByte(gain', f.pfuv);
    TopByteReads(gain, f.pfuv, 0, 0);
    prescale, scale := Packed(PrescaleSlots(f), 5), Packed(ScaleSlots(f), 3);
    r := 0;
    if Ratio(inX, outX) <= 64 {
      HWordsUnpack(inX, outX, f);
    }
  }

  /** Sets the line scaler by the table of the driver. */
  method CalculateHScale(inX: nat, outX: nat, flip: bool, ctrl: Word, gain: Word)
    returns (r: int, f: HFields, ctrl': Word, gain': Word, prescale: Word, scale: Word)
    requires inX < 24576
    ensures GoodTable(H_TABLE, 256)
    ensures r == if outX == 0 then -EINVAL else 0
    ensures r != 0 ==> ctrl' == ctrl && gain' == gain
    ensures r == 0 ==> HSet(inX, outX, flip, H_TABLE, f) && ctrl' == (if flip then ctrl + {29} else ctrl - {29})
    ensures r == 0 ==> gain' == TopByte(gain, f.pfuv) && Field(gain', 24, 8) == f.pfuv
    ensures r == 0 && Ratio(inX, outX) <= 64 ==>
              && Field(prescale, 27, 5) == f.dcgx && Field(prescale, 18, 9) == f.xpsc - 1
              && Field(prescale, 17, 1) == f.xacm && Field(prescale, 8, 8) == Field(prescale, 0, 8) == f.coeff
              && Field(scale, 31, 1) == f.xim && Field(scale, 24, 7) == 0 && Field(scale, 12, 12) == f.xsci
  {
    TablesGood();
    r, f, ctrl', gain', prescale, scale := HScaleBy(inX, outX, flip, H_TABLE, ctrl, gain);
    if r == 0 && Ratio(inX, outX) <= 64 {
      HFieldsRead(prescale, scale, f);
    }
  }

  lemma {:induction false} HFieldsRead(prescale: Word, scale: Word, f: HFields)
    requires f.xpsc > 0 && Unpacks(prescale, PrescaleSlots(f)) && Unpacks(scale, ScaleSlots(f))
    ensures Field(prescale, 27, 5) == f.dcgx && Field(prescale, 18, 9) == f.xpsc - 1
    ensures Field(prescale, 17, 1) == f.xacm && Field(prescale, 8, 8) == Field(prescale, 0, 8) == f.coeff
    ensures Field(scale, 31, 1) == f.xim && Field(scale, 24, 7) == 0 && Field(scale, 12, 12) == f.xsci
  {
    var p, s := PrescaleSlots(f), ScaleSlots(f);
    assert Field(prescale, p[0].lo, p[0].width) == p[0].value && Field(prescale, p[1].lo, p[1].width) == p[1].value;
    assert Field(prescale, p[2].lo, p[2].width) == p[2].value && Field(prescale, p[3].lo, p[3].width) == p[3].value;
    assert Field(prescale, p[4].lo, p[4].width) == p[4].value && Field(scale, s[0].lo, s[0].width) == s[0].value;
    assert Field(scale, s[1].lo, s[1].width) == s[1].value && Field(scale, s[2].lo, s[2].width) == s[2].value;
  }

  lemma {:induction false} HWordsUnpack(inX: nat, outX: nat, f: HFields)
    requires outX > 0 && Ratio(inX, outX) <= f.xpsc <= 64 && f.xpsc > 0 && f.xsci == FineScale(inX, outX, f.xpsc)
    requires f.dcgx <= 8 && f.xacm <= 1 && f.xim <= 1 && f.coeff < 256
    ensures Unpacks(Packed(PrescaleSlots(f), 5), PrescaleSlots(f)) && Unpacks(Packed(ScaleSlots(f), 3), ScaleSlots(f))
  {
    FineScaleFits(inX, outX, f.xpsc);
    SlotsFit(f);
    PackedUnpacks(PrescaleSlots(f));
    PackedUnpacks(ScaleSlots(f));
  }

  lemma {:induction false} SlotsFit(f: HFields)
    requires f.dcgx <= 8 && 1 <= f.xpsc <= 64 && f.xacm <= 1 && f.xim <= 1 && f.coeff < 256 && f.xsci < 4096
    ensures Fitting(PrescaleSlots(f)) && Fitting(ScaleSlots(f))
  {
    FieldSizes();
  }

  // ------------------------------------------------------- vertical scale

  /** The field modes the driver admits: both fields of a frame, or single ones. */
  datatype FieldMode = Both | Single

  /** What the column scaler is set to. */
  datatype VFields = VFields(yacm: nat, ysci: nat, yacl: nat, ypo: nat, ype: nat, dcgy: nat, coeff: nat)

  function VScaleSlots(f: VFields): seq<Slot> {
    [Slot(f.yacm, 31, 1), Slot(f.ysci, 21, 10), Slot(f.yacl, 15, 6), Slot(f.ypo, 8, 7), Slot(f.ype, 1, 7)]
  }

  function VGainSlots(f: VFields): seq<Slot> {
    [Slot(f.dcgy, 16, 8), Slot(f.coeff, 0, 16)]
  }

  /** The increment with interpolation between lines. */
  function Interpolated(inY: nat, outY: nat): int {
    if inY > outY then (1024 * inY) / (outY + 1) - 1024 else 0
  }

  lemma {:induction false} InterpolatedFits(inY: nat, outY: nat)
    requires inY <= 2 * outY
    ensures 0 <= Interpolated(inY, outY) < 1024
  {
    if inY > outY {
      QuotientAtLeast(1024 * inY, outY + 1, 1024);
      QuotientBelow(1024 * inY, outY + 1, 2048);
    }
  }

  /** The increment is what 1024ths of a line the steps are longer than one, if outY + 1
      steps go through the frame, rounded down. */
  lemma {:induction false} InterpolatedMeans(inY: nat, outY: nat)
    ensures inY <= outY ==> Interpolated(inY, outY) == 0
    ensures inY > outY ==>
              var step := Interpolated(inY, outY) + 1024;
              step * (outY + 1) <= 1024 * inY < (step + 1) * (outY + 1)
  {
    QuotientBounds(1024 * inY, outY + 1);
  }

  /** The increment with accumulation of lines, for q = outY + 1. */
  function Accumulated(inY: nat, q: nat): nat
    requires 0 < inY && q <= inY
  {
    ((10 * 1024 * (inY - q)) / inY + 9) / 10
  }

  /** The sequence length is computed by dividing by 1024 less the increment. That is not
      0 exactly if 9 * inY < 10240 * q, a reduction of about 1138:1. */
  lemma {:induction false} DivisorExactly(inY: nat, q: nat)
    requires 0 < inY && q <= inY
    ensures Accumulated(inY, q) <= 1024
    ensures Accumulated(inY, q) != 1024 <==> 9 * inY < 10240 * q
  {
    var n := 10240 * (inY - q);
    QuotientBelow(n, inY, 10241);
    if 9 * inY < 10240 * q {
      assert n < 10231 * inY;
      QuotientBelow(n, inY, 10231);
    } else {
      assert 10231 * inY <= n;
      QuotientAtLeast(n, inY, 10231);
    }
  }

  /** The increment is the part of the lines, in 1024ths, that is dropped: a tenth of it is
      rounded down and then the whole up. */
  lemma {:induction false} AccumulatedMeans(inY: nat, q: nat)
    requires 0 < inY && q <= inY
    ensures var y := Accumulated(inY, q);
            (10 * y - 9) * inY <= 10240 * (inY - q) < (10 * y + 1) * inY
  {
    var n, y := 10240 * (inY - q), Accumulated(inY, q);
    assert 10 * y - 9 <= n / inY <= 10 * y;
    QuotientWithin(n, inY, 10 * y - 9, 10 * y);
  }

  /** For reductions up to 64:1 the increment and the sequence length fit. */
  lemma {:induction false} AccumulatedFits(inY: nat, q: nat)
    requires 0 < inY && q <= inY <= 64 * q
    ensures Accumulated(inY, q) <= 1008
  {
    var n := 10240 * (inY - q);
    assert n < 10081 * inY;
    QuotientBelow(n, inY, 10081);
  }

  /** The sequence length for an increment below 1024. */
  function Sequence(ysci: nat): nat {
    if ysci < 512 || ysci >= 1024 then 0 else ysci / (1024 - ysci)
  }

  /** The sequence length is how often the part that is kept goes into the part dropped. */
  lemma {:induction false} SequenceMeans(ysci: nat)
    requires ysci < 1024
    ensures Sequence(ysci) * (1024 - ysci) <= ysci < (Sequence(ysci) + 1) * (1024 - ysci)
  {
    QuotientBounds(ysci, 1024 - ysci);
  }

  lemma {:induction false} SequenceFits(ysci: nat)
    requires ysci <= 1008
    ensures Sequence(ysci) <= 63
  {
    if ysci >= 512 {
      QuotientBelow(ysci, 1024 - ysci, 64);
    }
  }

  ghost predicate Settable(f: VFields) {
    f.yacm <= 1 && f.ysci < 1024 && f.yacl <= 63 && f.ypo < 128 && f.ype < 128 && f.dcgy <= 8 && f.coeff < 65536
  }

  /** What follows from the mode and the increment. */
  ghost predicate VSet(f: VFields, t: Table)
    requires GoodTable(t, 65536)
  {
    if f.yacm == 0 then
      && f.yacl == 0 && f.dcgy == 0 && f.coeff == 0xff && f.ype == f.ysci / 16 && f.ypo == f.ype + f.ysci / 64
    else
      && f.ype == f.ypo == (f.ysci + 15) / 16 && f.yacl == Sequence(f.ysci)
      && var entry := if f.yacl < 63 then f.yacl else 63;
         f.coeff == t.coeff[entry] && BestMatch(t.attenuation, t.weight[entry], f.dcgy)
  }

  /** Sets the scaler to interpolate. */
  method Interpolate(inY: nat, outY: nat, ghost t: Table) returns (f: VFields)
    requires inY <= 2 * outY && GoodTable(t, 65536)
    ensures Settable(f) && f.yacm == 0 && f.ysci == Interpolated(inY, outY) && VSet(f, t)
  {
    InterpolatedFits(inY, outY);
    var ysci := Interpolated(inY, outY);
    var ype := ysci / 16;
    f := VFields(0, ysci, 0, ype + ysci / 64, ype, 0, 0x00ff);
  }

  /** Sets the scaler to accumulate. Computing the sequence length divides by zero exactly
      beyond a reduction of about 1138:1. */
  method Accumulate(inY: nat, outY: nat, t: Table) returns (oops: bool, f: VFields)
    requires 2 * outY < inY && GoodTable(t, 65536)
    ensures oops <==> 9 * inY >= 10240 * (outY + 1)
    ensures !oops ==> f.yacm == 1 && f.ysci == Accumulated(inY, outY + 1) && VSet(f, t)
    ensures !oops && inY <= 64 * (outY + 1) ==> Settable(f)
  {
    var ysci := Accumulated(inY, outY + 1);
    DivisorExactly(inY, outY + 1);
    f := VFields(0, 0, 0, 0, 0, 0, 0);
    if ysci == 1024 {
      return true, f;
    }
    var yacl := Sequence(ysci);
    var ype := (ysci + 15) / 16;
    var entry := if yacl < 63 then yacl else 63;
    var dcgy := Attenuation(t.attenuation, t.weight[entry]);
    f := VFields(1, ysci, yacl, ype, ype, dcgy, t.coeff[entry]);
    oops := false;
    if inY <= 64 * (outY + 1) {
      AccumulatedFits(inY, outY + 1);
      SequenceFits(ysci);
    }
  }

  /** The lines of the output, counted in frames. */
  function FrameLines(mode: FieldMode, height: nat): nat {
    if mode == Both then height else 2 * height
  }

  /** Computes the values for a frame of inY lines. */
  method VValues(mode: FieldMode, inY: nat, height: nat, t: Table) returns (oops: bool, f: VFields)
    requires GoodTable(t, 65536) && height <= inY
    ensures var outY := FrameLines(mode, height);
            && (oops <==> inY > 2 * outY && 9 * inY >= 10240 * (outY + 1))
            && (!oops ==> VSet(f, t) && (f.yacm == 0 <==> inY <= 2 * outY))
            && (!oops && f.yacm == 0 ==> f.ysci == Interpolated(inY, outY))
            && (!oops && f.yacm != 0 ==> f.ysci == Accumulated(inY, outY + 1))
            && (!oops && inY <= 64 * (outY + 1) ==> Settable(f))
  {
    var lpi, outY := false, height;
    if mode == Both {
      lpi := 2 * outY >= inY;
    } else {
      lpi := 4 * outY >= inY;
      outY := outY * 2;
    }
    oops := false;
    if lpi {
      f := Interpolate(inY, outY, t);
    } else {
      oops, f := Accumulate(inY, outY, t);
    }
  }

  /** Sets the column scaler by a table. For reductions up to 64:1 every value can be read
      back from its field of the register words. */
  method VScaleBy(mode: FieldMode, inY: nat, height: nat, t: Table)
    returns (r: int, oops: bool, f: VFields, scale: Word, gain: Word)
    requires GoodTable(t, 65536)
    ensures r == if inY < height then -EINVAL else 0
    ensures var outY := FrameLines(mode, height);
            oops <==> r == 0 && inY > 2 * outY && 9 * inY >= 10240 * (outY + 1)
    ensures r == 0 && !oops ==> VSet(f, t) && (f.yacm == 0 <==> inY <= 2 * FrameLines(mode, height))
    ensures r == 0 && !oops && f.yacm == 0 ==> f.ysci == Interpolated(inY, FrameLines(mode, height))
    ensures r == 0 && !oops && f.yacm != 0 ==> f.ysci == Accumulated(inY, FrameLines(mode, height) + 1)
    ensures r == 0 && !oops && inY <= 64 * (FrameLines(mode, height) + 1) ==>
              Unpacks(scale, VScaleSlots(f)) && Unpacks(gain, VGainSlots(f))
  {
    f, scale, gain, oops := VFields(0, 0, 0, 0, 0, 0, 0), {}, {}, false;
    if inY < height {
      return -EINVAL, oops, f, scale, gain;
    }
    oops, f := VValues(mode, inY, height, t);
    if !oops && inY <= 64 * (FrameLines(mode, height) + 1) {
      VWordsUnpack(f);
    }
    scale, gain := Packed(VScaleSlots(f), 5), Packed(VGainSlots(f), 2);
    r := 0;
  }

  /** Sets the column scaler by the table of the driver. */
  method CalculateVScale(mode: FieldMode, inY: nat, height: nat)
    returns (r: int, oops: bool, f: VFields, scale: Word, gain: Word)
    ensures GoodTable(V_TABLE, 65536)
    ensures r == if inY < height then -EINVAL else 0
    ensures var outY := FrameLines(mode, height);
            oops <==> r == 0 && inY > 2 * outY && 9 * inY >= 10240 * (outY + 1)
    ensures r == 0 && !oops ==> VSet(f, V_TABLE) && (f.yacm == 0 <==> inY <= 2 * FrameLines(mode, height))
    ensures r == 0 && !oops ==> (f.yacm == 0 <==> inY <= (if mode == Both then 2 * height else 4 * height))
    ensures r == 0 && !oops && f.yacm == 0 ==> f.ysci == Interpolated(inY, FrameLines(mode, height))
    ensures r == 0 && !oops && f.yacm != 0 ==> f.ysci == Accumulated(inY, FrameLines(mode, height) + 1)
    ensures r == 0 && !oops && inY <= 64 * (FrameLines(mode, height) + 1) ==>
              && Field(scale, 31, 1) == f.yacm && Field(scale, 21, 10) == f.ysci && Field(scale, 15, 6) == f.yacl
              && Field(scale, 8, 7) == f.ypo && Field(scale, 1, 7) == f.ype
              && Field(gain, 16, 8) == f.dcgy && Field(gain, 0, 16) == f.coeff
  {
    TablesGood();
    r, oops, f, scale, gain := VScaleBy(mode, inY, height, V_TABLE);
    if r == 0 && !oops && inY <= 64 * (FrameLines(mode, height) + 1) {
      VFieldsRead(scale, gain, f);
    }
  }

  lemma {:induction false} VFieldsRead(scale: Word, gain: Word, f: VFields)
    requires Unpacks(scale, VScaleSlots(f)) && Unpacks(gain, VGainSlots(f))
    ensures Field(scale, 31, 1) == f.yacm && Field(scale, 21, 10) == f.ysci && Field(scale, 15, 6) == f.yacl
    ensures Field(scale, 8, 7) == f.ypo && Field(scale, 1, 7) == f.ype
    ensures Field(gain, 16, 8) == f.dcgy && Field(gain, 0, 16) == f.coeff
  {
    var s, g := VScaleSlots(f), VGainSlots(f);
    assert Field(scale, s[0].lo, s[0].width) == s[0].value && Field(scale, s[1].lo, s[1].width) == s[1].value;
    assert Field(scale, s[2].lo, s[2].width) == s[2].value && Field(scale, s[3].lo, s[3].width) == s[3].value;
    assert Field(scale, s[4].lo, s[4].width) == s[4].value && Field(gain, g[0].lo, g[0].width) == g[0].value;
    assert Field(gain, g[1].lo, g[1].width) == g[1].value;
  }

  lemma {:induction false} VWordsUnpack(f: VFields)
    requires Settable(f)
    ensures Unpacks(Packed(VScaleSlots(f), 5), VScaleSlots(f)) && Unpacks(Packed(VGainSlots(f), 2), VGainSlots(f))
  {
    VSlotsFit(f);
    PackedUnpacks(VScaleSlots(f));
    PackedUnpacks(VGainSlots(f));
  }

  lemma {:induction false} VSlotsFit(f: VFields)
    requires Settable(f)
    ensures Fitting(VScaleSlots(f)) && Fitting(VGainSlots(f))
  {
    FieldSizes();
  }
}
