/** Writing records as Intel HEX text. */
module HexRender {
  import opened Basics
  import opened IntelHex
  import opened HexText
  import opened HexAddresses

  function Digit(v: int): int {
    if v < 10 then 48 + v else 55 + v
  }

  /** The digits of bytes, two each. */
  function Digits(bs: seq<int>): seq<int> {
    seq(2 * |bs|, i requires 0 <= i < 2 * |bs| => Digit(if i % 2 == 0 then bs[i / 2] / 16 else bs[i / 2] % 16))
  }

  /** A line of text for an item. */
  function RenderLine(item: Item, wide: bool): seq<int> {
    [COLON] + Digits(Full(item, wide))
  }

  lemma {:induction false} DigitPair(bs: seq<int>, l: seq<int>, k: nat)
    requires AreBytes(bs) && k < |bs| && l == [COLON] + Digits(bs)
    ensures Pair(l, 1 + 2 * k, bs[k])
  {
    assert l[1 + 2 * k] == Digits(bs)[2 * k] == Digit(bs[k] / 16);
    assert l[2 + 2 * k] == Digits(bs)[2 * k + 1] == Digit(bs[k] % 16);
  }

  lemma {:induction false} DigitsSpell(bs: seq<int>)
    requires AreBytes(bs)
    ensures Spells([COLON] + Digits(bs), 1, bs)
  {
    forall k | 0 <= k < |bs| ensures Pair([COLON] + Digits(bs), 1 + 2 * k, bs[k]) {
      DigitPair(bs, [COLON] + Digits(bs), k);
    }
  }

  /** Every item has a line of text. */
  lemma {:induction false} RenderedLine(item: Item, wide: bool)
    requires Good(item, wide)
    ensures LineFor(RenderLine(item, wide), 0, item, wide)
  {
    FullIsBytes(item, wide);
    DigitsSpell(Full(item, wide));
  }

  /** Records that lines can hold. */
  ghost predicate Writable(rs: seq<Record>, wide: bool) {
    forall j :: 0 <= j < |rs| ==>
      0 <= rs[j].addr < 0x1_0000_0000 && 0 < |rs[j].data| <= (if wide then 65526 else 255) && AreBytes(rs[j].data)
  }

  function ItemAt(rs: seq<Record>, i: nat): Item {
    if i >= 2 * |rs| then Eof(false, 0)
    else if i % 2 == 0 then Linear(rs[i / 2].addr / 65536)
    else Data(rs[i / 2].addr % 65536, rs[i / 2].data)
  }

  /** A file for records: each with its own base address, then the end. */
  function Items(rs: seq<Record>): seq<Item> {
    seq(2 * |rs| + 1, i requires 0 <= i <= 2 * |rs| => ItemAt(rs, i))
  }

  lemma {:induction false} ItemsGood(rs: seq<Record>, wide: bool)
    requires Writable(rs, wide)
    ensures IsFile(Items(rs), wide)
  {
    forall i | 0 <= i < |Items(rs)| ensures Good(Items(rs)[i], wide) {
    }
  }

  /** The text of records. */
  function Lines(rs: seq<Record>, wide: bool): seq<seq<int>> {
    seq(2 * |rs| + 1, i requires 0 <= i <= 2 * |rs| => RenderLine(ItemAt(rs, i), wide))
  }

  ghost function Render(rs: seq<Record>, wide: bool): seq<int> {
    Flat(Lines(rs, wide), |Lines(rs, wide)|)
  }

  lemma {:induction false} LoadedTwo(items: seq<Item>, k: nat, base: int, o: Options)
    requires k + 1 < |items| && items[k].Linear? && items[k + 1].Data?
    ensures var b := items[k].base * 65536;
            Loaded(items, k, base, o)
            == [Record(b + items[k + 1].addr, items[k + 1].bytes)] + Loaded(items, k + 2, b, o)
  {
    var b := items[k].base * 65536;
    assert BaseAfter(items[k], base, o) == b && FiledAfter(items[k], base, [], o) == [];
    assert Loaded(items, k, base, o) == Loaded(items, k + 1, b, o);
    assert BaseAfter(items[k + 1], b, o) == b;
  }

  /** Lines 2 * k and 2 * k + 1 are for record k. */
  ghost predicate PairAt(items: seq<Item>, rs: seq<Record>, k: nat) {
    && k < |rs| && 2 * k + 1 < |items|
    && items[2 * k] == Linear(rs[k].addr / 65536) && items[2 * k + 1] == Data(rs[k].addr % 65536, rs[k].data)
  }

  /** With load(k, b) for what is loaded from pair k on under base b: pair k gives record k. */
  ghost predicate GivesRecord(load: (nat, int) -> seq<Record>, rs: seq<Record>, k: nat, b: int) {
    k < |rs| && load(k, b) == [rs[k]] + load(k + 1, rs[k].addr / 65536 * 65536)
  }

  lemma {:induction false} PairsGive(load: (nat, int) -> seq<Record>, rs: seq<Record>, k: nat, b: int)
    requires k <= |rs| && forall b :: load(|rs|, b) == []
    requires forall j: nat, b: int :: j < |rs| ==> GivesRecord(load, rs, j, b)
    ensures load(k, b) == rs[k..]
    decreases |rs| - k
  {
    if k < |rs| {
      var gives := GivesRecord(load, rs, k, b);
      assert gives;
      PairsGive(load, rs, k + 1, rs[k].addr / 65536 * 65536);
      assert rs[k..] == [rs[k]] + rs[k + 1..];
    } else {
      assert rs[k..] == [];
    }
  }

  ghost function PairsFrom(items: seq<Item>, o: Options): (nat, int) -> seq<Record> {
    (k: nat, b: int) => Loaded(items, 2 * k, b, o)
  }

  lemma {:induction false} PairLoads(items: seq<Item>, rs: seq<Record>, k: nat, base: int, o: Options)
    requires PairAt(items, rs, k)
    ensures GivesRecord(PairsFrom(items, o), rs, k, base)
  {
    LoadedTwo(items, 2 * k, base, o);
    assert 2 * (k + 1) == 2 * k + 2;
  }

  lemma {:induction false} PairsLoad(items: seq<Item>, rs: seq<Record>, o: Options)
    requires |items| == 2 * |rs| + 1 && items[2 * |rs|] == Eof(false, 0)
    requires forall j: nat :: j < |rs| ==> PairAt(items, rs, j)
    ensures PairsFrom(items, o)(0, 0) == rs
  {
    forall j: nat, b: int | j < |rs| ensures GivesRecord(PairsFrom(items, o), rs, j, b) {
      var pair := PairAt(items, rs, j);
      assert pair;
      PairLoads(items, rs, j, b, o);
    }
    forall b ensures PairsFrom(items, o)(|rs|, b) == [] {
      LastLine(items, 2 * |rs|, LinearBase(b), o);
    }
    PairsGive(PairsFrom(items, o), rs, 0, 0);
    assert rs[0..] == rs;
  }

  lemma {:induction false} ItemsPaired(rs: seq<Record>, k: nat)
    requires k < |rs|
    ensures PairAt(Items(rs), rs, k)
  {
    assert ItemAt(rs, 2 * k) == Items(rs)[2 * k] && ItemAt(rs, 2 * k + 1) == Items(rs)[2 * k + 1];
  }

  lemma {:induction false} ItemsLoaded(rs: seq<Record>, o: Options)
    requires Writable(rs, o.wide)
    ensures Load(Items(rs), 0, 0, [], o) == rs
  {
    LoadIsLoaded(Items(rs), 0, 0, [], o);
    forall j: nat | j < |rs| ensures PairAt(Items(rs), rs, j) {
      ItemsPaired(rs, j);
    }
    PairsLoad(Items(rs), rs, o);
    assert [] + rs == rs;
  }

  lemma {:induction false} LinesGood(rs: seq<Record>, wide: bool)
    requires Writable(rs, wide)
    ensures |Lines(rs, wide)| == |Items(rs)|
    ensures forall j :: 0 <= j < |Items(rs)| ==> LineFor(Lines(rs, wide)[j], 0, Items(rs)[j], wide)
  {
    ItemsGood(rs, wide);
    forall j | 0 <= j < |Items(rs)| ensures LineFor(Lines(rs, wide)[j], 0, Items(rs)[j], wide) {
      RenderedLine(Items(rs)[j], wide);
    }
  }

  /** Parsing the text of any records gives these records, whatever the options. */
  lemma {:induction false} RenderParses(rs: seq<Record>, tail: seq<int>, o: Options)
    requires Writable(rs, o.wide)
    ensures ParseText(Render(rs, o.wide) + tail, o) == Ok(rs)
  {
    var items, lines := Items(rs), Lines(rs, o.wide);
    var gaps := seq(|items|, i requires 0 <= i < |items| => 0);
    ItemsGood(rs, o.wide);
    LinesGood(rs, o.wide);
    TextParses(lines, gaps, items, tail, o);
    ItemsLoaded(rs, o);
  }
}
