/** Where the Intel HEX format puts the bytes of a file, and when the converter puts them
    there. */
module HexAddresses {
  import opened Basics
  import opened IntelHex
  import opened HexText

  // ------------------------------------------------------- as specified

  /** The base address in force: of a segment of 64K, or of the linear 4G. */
  datatype Base = SegmentBase(base: int) | LinearBase(base: int)

  /** The address of byte k of a data line: the offset wraps around at the end of a
      segment, and the whole address at the end of the linear space. */
  function SpecifiedAddress(b: Base, addr: int, k: int): int {
    match b
    case SegmentBase(base) => base + (addr + k) % 65536
    case LinearBase(base) => (base + addr + k) % 0x1_0000_0000
  }

  /** A byte at an address. */
  datatype Cell = Cell(address: int, byte: int)

  /** The base address after a line. */
  function NextBase(item: Item, b: Base): Base {
    match item
    case Segment(base) => SegmentBase(base * 16)
    case Linear(base) => LinearBase(base * 65536)
    case _ => b
  }

  /** Bytes from an address on, as a record has them. */
  function RecordCells(r: Record): seq<Cell> {
    seq(|r.data|, k requires 0 <= k < |r.data| => Cell(r.addr + k, r.data[k]))
  }

  /** What a line specifies. A start address is no content of the file; where it is asked
      for, it is what the converter makes of it. */
  function SpecifiedCells(item: Item, b: Base, o: Options): seq<Cell> {
    match item
    case Data(addr, bytes) =>
      seq(|bytes|, k requires 0 <= k < |bytes| => Cell(SpecifiedAddress(b, addr, k), bytes[k]))
    case Entry(_, bytes) =>
      if o.jump && |bytes| == 4 then RecordCells(Record(0, Swapped(bytes, o.littleEndian))) else []
    case _ => []
  }

  /** What the lines from k on specify, in file order. */
  function Specified(items: seq<Item>, k: nat, b: Base, o: Options): seq<Cell>
    decreases |items| - k
  {
    if k >= |items| then [] else SpecifiedCells(items[k], b, o) + Specified(items, k + 1, NextBase(items[k], b), o)
  }

  // ------------------------------------------------------- as converted

  /** The bytes of records, in order. */
  function Cells(rs: seq<Record>): seq<Cell>
    decreases |rs|
  {
    if |rs| == 0 then [] else RecordCells(rs[0]) + Cells(rs[1..])
  }

  /** The records of the lines from k on. */
  function Loaded(items: seq<Item>, k: nat, base: int, o: Options): seq<Record>
    decreases |items| - k
  {
    if k >= |items| then []
    else FiledAfter(items[k], base, [], o) + Loaded(items, k + 1, BaseAfter(items[k], base, o), o)
  }

  lemma {:induction false} LoadIsLoaded(items: seq<Item>, k: nat, base: int, filed: seq<Record>, o: Options)
    ensures Load(items, k, base, filed, o) == filed + Loaded(items, k, base, o)
    decreases |items| - k
  {
    if k < |items| {
      var more := FiledAfter(items[k], base, [], o);
      assert FiledAfter(items[k], base, filed, o) == filed + more;
      LoadIsLoaded(items, k + 1, BaseAfter(items[k], base, o), filed + more, o);
      Associative(filed, more, Loaded(items, k + 1, BaseAfter(items[k], base, o), o));
    } else {
      assert filed + [] == filed;
    }
  }

  // ------------------------------------------------------ when they agree

  /** A data line does not run over the end of its segment or of the linear space. */
  predicate Within(item: Item, b: Base) {
    item.Data? ==>
      match b
      case SegmentBase(_) => item.addr + |item.bytes| <= 65536
      case LinearBase(base) => base + item.addr + |item.bytes| <= 0x1_0000_0000
  }

  ghost predicate AllWithin(items: seq<Item>, k: nat, b: Base)
    decreases |items| - k
  {
    k >= |items| || (Within(items[k], b) && AllWithin(items, k + 1, NextBase(items[k], b)))
  }

  /** A base address that a file can set, or start with. */
  predicate Possible(b: Base) {
    match b
    case SegmentBase(base) => 0 <= base <= 65535 * 16
    case LinearBase(base) => 0 <= base <= 65535 * 65536
  }

  lemma {:induction false} DataCells(addr: int, bytes: seq<int>, b: Base, o: Options)
    requires 0 <= addr < 65536 && 0 < |bytes| <= 65535 && Possible(b)
    ensures RecordCells(Record(b.base + addr, bytes)) == SpecifiedCells(Data(addr, bytes), b, o)
       <==> Within(Data(addr, bytes), b)
  {
    var put, meant := RecordCells(Record(b.base + addr, bytes)), SpecifiedCells(Data(addr, bytes), b, o);
    var n := |bytes| - 1;
    assert put[n] == Cell(b.base + addr + n, bytes[n]) && meant[n] == Cell(SpecifiedAddress(b, addr, n), bytes[n]);
    if Within(Data(addr, bytes), b) {
      forall k | 0 <= k < |bytes| ensures put[k] == meant[k] {
      }
    }
  }

  lemma {:induction false} OneRecord(r: Record)
    ensures Cells([r]) == RecordCells(r)
  {
    assert [r][1..] == [] && Cells([]) == [];
  }

  lemma {:induction false} CellsConcat(a: seq<Record>, b: seq<Record>)
    ensures Cells(a + b) == Cells(a) + Cells(b)
    decreases |a|
  {
    if |a| == 0 {
      assert a + b == b && Cells(a) == [];
    } else {
      assert (a + b)[1..] == a[1..] + b;
      CellsConcat(a[1..], b);
      Associative(RecordCells(a[0]), Cells(a[1..]), Cells(b));
    }
  }

  /** One line puts its bytes where the format has them exactly if it stays within. */
  lemma {:induction false} LineCells(item: Item, b: Base, o: Options)
    requires Good(item, o.wide) && Possible(b)
    ensures |Cells(FiledAfter(item, b.base, [], o))| == |SpecifiedCells(item, b, o)|
    ensures Cells(FiledAfter(item, b.base, [], o)) == SpecifiedCells(item, b, o) <==> Within(item, b)
    ensures Possible(NextBase(item, b)) && NextBase(item, b).base == BaseAfter(item, b.base, o)
  {
    var filed := FiledAfter(item, b.base, [], o);
    if |filed| > 0 {
      var e := Asks(item, b.base, o);
      assert filed == [e.record];
      OneRecord(e.record);
    }
    if item.Data? {
      DataCells(item.addr, item.bytes, b, o);
    }
  }

  lemma {:induction false} SplitEqual<T>(a: seq<T>, b: seq<T>, c: seq<T>, d: seq<T>)
    requires |a| == |c|
    ensures a + b == c + d <==> a == c && b == d
  {
    if a + b == c + d {
      assert (a + b)[..|a|] == a && (c + d)[..|a|] == c;
      assert (a + b)[|a|..] == b && (c + d)[|a|..] == d;
    }
  }

  /** The bytes of the records lie, in order, where the format has them if and only if no
      data line runs over the end of its segment or of the linear space. */
  lemma {:induction false} LoadedAsSpecified(items: seq<Item>, k: nat, b: Base, o: Options)
    requires Possible(b) && forall j :: 0 <= j < |items| ==> Good(items[j], o.wide)
    ensures |Cells(Loaded(items, k, b.base, o))| == |Specified(items, k, b, o)|
    ensures Cells(Loaded(items, k, b.base, o)) == Specified(items, k, b, o) <==> AllWithin(items, k, b)
    decreases |items| - k
  {
    if k < |items| {
      var b' := NextBase(items[k], b);
      LineCells(items[k], b, o);
      LoadedAsSpecified(items, k + 1, b', o);
      var filed, rest := FiledAfter(items[k], b.base, [], o), Loaded(items, k + 1, b'.base, o);
      CellsConcat(filed, rest);
      SplitEqual(Cells(filed), Cells(rest), SpecifiedCells(items[k], b, o), Specified(items, k + 1, b', o));
    }
  }

  lemma {:induction false} LastLine(items: seq<Item>, k: nat, b: Base, o: Options)
    requires k + 1 == |items| && items[k].Eof?
    ensures Loaded(items, k, b.base, o) == [] && Specified(items, k, b, o) == []
  {
    assert Loaded(items, k + 1, b.base, o) == [] && Specified(items, k + 1, b, o) == [];
  }

  lemma {:induction false} LastDataLine(items: seq<Item>, k: nat, b: Base, o: Options)
    requires k + 2 == |items| && items[k].Data? && items[k + 1].Eof?
    ensures Loaded(items, k, b.base, o) == [Record(b.base + items[k].addr, items[k].bytes)]
    ensures Specified(items, k, b, o) == SpecifiedCells(items[k], b, o)
  {
    LastLine(items, k + 1, b, o);
  }

  /** Two bytes at the end of a segment: the second one belongs at its start and is put
      behind its end. */
  lemma {:induction false} SegmentEndMisplaced(items: seq<Item>, o: Options)
    requires items == [Segment(0x1000), Data(0xFFFF, [1, 2]), Eof(false, 0)]
    ensures IsFile(items, o.wide) && !AllWithin(items, 0, SegmentBase(0))
    ensures Loaded(items, 0, 0, o) == [Record(0x1FFFF, [1, 2])]
    ensures Specified(items, 0, SegmentBase(0), o) == [Cell(0x1FFFF, 1), Cell(0x10000, 2)]
  {
    var b := SegmentBase(0x10000);
    LastDataLine(items, 1, b, o);
    assert SpecifiedCells(items[1], b, o) == [Cell(0x1FFFF, 1), Cell(0x10000, 2)];
    assert NextBase(items[0], SegmentBase(0)) == b && SpecifiedCells(items[0], SegmentBase(0), o) == [];
    assert !Within(items[1], b);
  }

  // ------------------------------------------------------ in another order

  lemma {:induction false} WithoutOne<T>(s: seq<T>, i: nat)
    requires i < |s|
    ensures multiset(s[..i] + s[i + 1..]) == multiset(s) - multiset{s[i]}
  {
    assert s == s[..i] + [s[i]] + s[i + 1..];
  }

  lemma {:induction false} CellsOut(rs: seq<Record>, i: nat)
    requires i < |rs|
    ensures multiset(Cells(rs)) == multiset(RecordCells(rs[i])) + multiset(Cells(rs[..i] + rs[i + 1..]))
  {
    var a, r, b := rs[..i], rs[i], rs[i + 1..];
    assert rs == a + [r] + b;
    CellsConcat(a + [r], b);
    CellsConcat(a, [r]);
    CellsConcat(a, b);
    OneRecord(r);
  }

  /** The same records in another order have the same bytes at the same addresses. */
  lemma {:induction false} CellsPermuted(a: seq<Record>, b: seq<Record>)
    requires multiset(a) == multiset(b)
    ensures multiset(Cells(a)) == multiset(Cells(b))
    decreases |a|
  {
    if |a| == 0 {
      assert |multiset(b)| == 0;
    } else {
      assert a[0] in multiset(b);
      var i :| 0 <= i < |b| && b[i] == a[0];
      var b' := b[..i] + b[i + 1..];
      WithoutOne(a, 0);
      assert a[..0] + a[1..] == a[1..];
      WithoutOne(b, i);
      CellsPermuted(a[1..], b');
      CellsOut(a, 0);
      CellsOut(b, i);
    }
  }

  function AddressSum(cells: seq<Cell>): int
    decreases |cells|
  {
    if |cells| == 0 then 0 else cells[0].address + AddressSum(cells[1..])
  }

  lemma {:induction false} SumConcat(a: seq<Cell>, b: seq<Cell>)
    ensures AddressSum(a + b) == AddressSum(a) + AddressSum(b)
    decreases |a|
  {
    if |a| == 0 {
      assert a + b == b;
    } else {
      assert (a + b)[1..] == a[1..] + b;
      SumConcat(a[1..], b);
    }
  }

  lemma {:induction false} SumPermuted(a: seq<Cell>, b: seq<Cell>)
    requires multiset(a) == multiset(b)
    ensures AddressSum(a) == AddressSum(b)
    decreases |a|
  {
    if |a| == 0 {
      assert |multiset(b)| == 0;
    } else {
      assert a[0] in multiset(b);
      var i :| 0 <= i < |b| && b[i] == a[0];
      var b' := b[..i] + b[i + 1..];
      WithoutOne(a, 0);
      assert a[..0] + a[1..] == a[1..];
      WithoutOne(b, i);
      SumPermuted(a[1..], b');
      SumOut(b, i);
    }
  }

  lemma {:induction false} SumOut(s: seq<Cell>, i: nat)
    requires i < |s|
    ensures AddressSum(s) == s[i].address + AddressSum(s[..i] + s[i + 1..])
  {
    assert s == s[..i] + s[i..] && s[i..][1..] == s[i + 1..];
    SumConcat(s[..i], s[i..]);
    SumConcat(s[..i], s[i + 1..]);
  }

  /** The same bytes, at the same or higher addresses. */
  ghost predicate AtOrAbove(put: seq<Cell>, meant: seq<Cell>) {
    |put| == |meant| && forall k :: 0 <= k < |put| ==>
      put[k].byte == meant[k].byte && put[k].address >= meant[k].address
  }

  lemma {:induction false} SumAtLeast(put: seq<Cell>, meant: seq<Cell>)
    requires AtOrAbove(put, meant)
    ensures AddressSum(put) >= AddressSum(meant)
    ensures AddressSum(put) == AddressSum(meant) ==> put == meant
    decreases |put|
  {
    if |put| > 0 {
      SumAtLeast(put[1..], meant[1..]);
      if AddressSum(put) == AddressSum(meant) {
        assert put == [put[0]] + put[1..] && meant == [meant[0]] + meant[1..];
      }
    }
  }

  lemma {:induction false} AboveConcat(a: seq<Cell>, b: seq<Cell>, c: seq<Cell>, d: seq<Cell>)
    requires AtOrAbove(a, c) && AtOrAbove(b, d)
    ensures AtOrAbove(a + b, c + d)
  {
  }

  lemma {:induction false} DataNeverBelow(addr: int, bytes: seq<int>, b: Base, o: Options)
    requires 0 <= addr < 65536 && Possible(b)
    ensures AtOrAbove(RecordCells(Record(b.base + addr, bytes)), SpecifiedCells(Data(addr, bytes), b, o))
  {
  }

  lemma {:induction false} LineNeverBelow(item: Item, b: Base, o: Options)
    requires Good(item, o.wide) && Possible(b)
    ensures AtOrAbove(Cells(FiledAfter(item, b.base, [], o)), SpecifiedCells(item, b, o))
  {
    if item.Data? {
      DataNeverBelow(item.addr, item.bytes, b, o);
      OneRecord(Record(b.base + item.addr, item.bytes));
    } else {
      LineCells(item, b, o);
    }
  }

  /** Wrapping around only ever takes addresses down. */
  lemma {:induction false} NeverBelow(items: seq<Item>, k: nat, b: Base, o: Options)
    requires Possible(b) && forall j :: 0 <= j < |items| ==> Good(items[j], o.wide)
    ensures AtOrAbove(Cells(Loaded(items, k, b.base, o)), Specified(items, k, b, o))
    decreases |items| - k
  {
    if k < |items| {
      var b' := NextBase(items[k], b);
      LineCells(items[k], b, o);
      LineNeverBelow(items[k], b, o);
      NeverBelow(items, k + 1, b', o);
      var filed, rest := FiledAfter(items[k], b.base, [], o), Loaded(items, k + 1, b'.base, o);
      CellsConcat(filed, rest);
      AboveConcat(Cells(filed), Cells(rest), SpecifiedCells(items[k], b, o), Specified(items, k + 1, b', o));
    }
  }

  /** In whatever order the records come out, their bytes lie where the format has them if
      and only if no data line runs over an end. */
  lemma {:induction false} PermutedAsSpecified(items: seq<Item>, b: Base, o: Options, list: seq<Record>)
    requires Possible(b) && forall j :: 0 <= j < |items| ==> Good(items[j], o.wide)
    requires multiset(list) == multiset(Loaded(items, 0, b.base, o))
    ensures multiset(Cells(list)) == multiset(Specified(items, 0, b, o)) <==> AllWithin(items, 0, b)
  {
    var put, meant := Cells(Loaded(items, 0, b.base, o)), Specified(items, 0, b, o);
    CellsPermuted(list, Loaded(items, 0, b.base, o));
    LoadedAsSpecified(items, 0, b, o);
    if multiset(put) == multiset(meant) {
      SumPermuted(put, meant);
      NeverBelow(items, 0, b, o);
      SumAtLeast(put, meant);
    }
  }
}
