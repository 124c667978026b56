/** The page tables of the SAA7146: one table per DMA channel, built from the scatter
    list of a buffer. */
module PageTables {
  const PAGE_SIZE := 4096
  const TABLE_ENTRIES := 1024

  /** An entry of a scatter list: length bytes at a bus address, offset into their page. */
  datatype Sg = Sg(address: int, offset: int, length: nat)

  /** The number of pages of an entry. */
  function PageCount(s: Sg): nat {
    (s.length + PAGE_SIZE - 1) / PAGE_SIZE
  }

  /** The bus address of the byte at pos, counted from entry i on. */
  ghost function SgAddress(list: seq<Sg>, i: nat, pos: nat): int
    decreases |list| - i
  {
    if i >= |list| then 0
    else if pos < list[i].length then list[i].address + pos
    else SgAddress(list, i + 1, pos - list[i].length)
  }

  /** The bytes of the entries from i on. */
  ghost function Bytes(list: seq<Sg>, i: nat): nat
    decreases |list| - i
  {
    if i >= |list| then 0 else list[i].length + Bytes(list, i + 1)
  }

  /** A list of whole pages, but for its end. */
  ghost predicate Aligned(list: seq<Sg>) {
    && (forall i :: 0 <= i < |list| ==> list[i].offset == 0)
    && (forall i :: 0 <= i < |list| - 1 ==> list[i].length % PAGE_SIZE == 0)
  }

  /** The byte a channel reaches at pos through its table. */
  function Translate(table: seq<int>, pos: nat): int
    requires pos / 4096 < |table|
  {
    table[pos / 4096] + pos % 4096
  }

  // ----------------------------------------------------- one table

  /** What the builder writes for page p of an entry: the single-table builder steps
      through the entry, the planar one repeats its address. */
  function PageEntry(s: Sg, planar: bool, p: nat): int {
    if planar then s.address - s.offset else s.address + p * PAGE_SIZE
  }

  function EntryPages(s: Sg, planar: bool, n: nat): seq<int> {
    seq(n, p requires 0 <= p < n => PageEntry(s, planar, p))
  }

  /** The table entries for the entries from i on. */
  ghost function PagesFrom(list: seq<Sg>, planar: bool, i: nat): seq<int>
    decreases |list| - i
  {
    if i >= |list| then []
    else EntryPages(list[i], planar, PageCount(list[i])) + PagesFrom(list, planar, i + 1)
  }

  /** Entries the builder gets right: all of them, or those of at most a page. */
  ghost predicate Simple(list: seq<Sg>, planar: bool) {
    planar ==> forall i :: 0 <= i < |list| ==> list[i].length <= PAGE_SIZE
  }

  lemma {:induction false} WholePages(s: Sg)
    requires s.length % PAGE_SIZE == 0
    ensures s.length == PageCount(s) * PAGE_SIZE
  {
  }

  lemma {:induction false} FirstPages(list: seq<Sg>, planar: bool, i: nat, q: nat)
    requires i < |list|
    ensures q < PageCount(list[i]) ==>
              q < |PagesFrom(list, planar, i)| && PagesFrom(list, planar, i)[q] == PageEntry(list[i], planar, q)
    ensures q < |PagesFrom(list, planar, i + 1)| ==>
              && PageCount(list[i]) + q < |PagesFrom(list, planar, i)|
              && PagesFrom(list, planar, i)[PageCount(list[i]) + q] == PagesFrom(list, planar, i + 1)[q]
  {
  }

  lemma {:induction false} BeyondEntry(list: seq<Sg>, i: nat, rest: nat)
    requires i < |list|
    ensures SgAddress(list, i, list[i].length + rest) == SgAddress(list, i + 1, rest)
    ensures Bytes(list, i) == list[i].length + Bytes(list, i + 1)
  {
  }

  /** Byte off of page q, counted from entry i on, lies where the table says. */
  lemma {:induction false} PageReaches(list: seq<Sg>, planar: bool, i: nat, q: nat, off: nat)
    requires Aligned(list) && Simple(list, planar) && off < PAGE_SIZE && q * PAGE_SIZE + off < Bytes(list, i)
    ensures q < |PagesFrom(list, planar, i)|
    ensures PagesFrom(list, planar, i)[q] + off == SgAddress(list, i, q * PAGE_SIZE + off)
    decreases |list| - i
  {
    var s := list[i];
    if q * PAGE_SIZE + off < s.length {
      FirstPages(list, planar, i, q);
    } else {
      var n := PageCount(s);
      WholePages(s);
      assert q * PAGE_SIZE + off == s.length + ((q - n) * PAGE_SIZE + off);
      BeyondEntry(list, i, (q - n) * PAGE_SIZE + off);
      PageReaches(list, planar, i + 1, q - n, off);
      FirstPages(list, planar, i, q - n);
    }
  }

  /** Going through the table reaches the same byte as going through the list. */
  lemma {:induction false} TableReaches(list: seq<Sg>, planar: bool, pos: nat)
    requires Aligned(list) && Simple(list, planar) && pos < Bytes(list, 0)
    ensures pos / PAGE_SIZE < |PagesFrom(list, planar, 0)|
    ensures Translate(PagesFrom(list, planar, 0), pos) == SgAddress(list, 0, pos)
  {
    PageReaches(list, planar, 0, pos / PAGE_SIZE, pos % PAGE_SIZE);
  }

  /** The number, counted from entry i on, of page p of entry k. */
  lemma {:induction false} PageOfEntry(list: seq<Sg>, planar: bool, i: nat, k: nat, p: nat) returns (q: nat)
    requires Aligned(list) && i <= k < |list| && p * PAGE_SIZE < list[k].length
    ensures q * PAGE_SIZE < Bytes(list, i) && SgAddress(list, i, q * PAGE_SIZE) == list[k].address + p * PAGE_SIZE
    ensures q < |PagesFrom(list, planar, i)| && PagesFrom(list, planar, i)[q] == PageEntry(list[k], planar, p)
    decreases k - i
  {
    if i == k {
      q := p;
      FirstPages(list, planar, i, q);
    } else {
      var rest := PageOfEntry(list, planar, i + 1, k, p);
      WholePages(list[i]);
      q := PageCount(list[i]) + rest;
      assert q * PAGE_SIZE == list[i].length + rest * PAGE_SIZE;
      BeyondEntry(list, i, rest * PAGE_SIZE);
      FirstPages(list, planar, i, rest);
    }
  }

  /** The table of the planar builder reaches every byte exactly if no entry is longer
      than a page. */
  ghost predicate ReachesAll(list: seq<Sg>, planar: bool) {
    forall pos: nat :: pos < Bytes(list, 0) ==>
      pos / PAGE_SIZE < |PagesFrom(list, planar, 0)|
      && Translate(PagesFrom(list, planar, 0), pos) == SgAddress(list, 0, pos)
  }

  lemma {:induction false} ReachesAllExactly(list: seq<Sg>, planar: bool)
    requires Aligned(list)
    ensures ReachesAll(list, planar) <==> Simple(list, planar)
  {
    if Simple(list, planar) {
      forall pos: nat | pos < Bytes(list, 0)
        ensures pos / PAGE_SIZE < |PagesFrom(list, planar, 0)|
                && Translate(PagesFrom(list, planar, 0), pos) == SgAddress(list, 0, pos)
      {
        TableReaches(list, planar, pos);
      }
    } else {
      var k :| 0 <= k < |list| && list[k].length > PAGE_SIZE;
      var q := PageOfEntry(list, planar, 0, k, 1);
      assert q * PAGE_SIZE / PAGE_SIZE == q && q * PAGE_SIZE % PAGE_SIZE == 0;
    }
  }

  /** The first byte of a buffer that does not start on a page, read at its offset: the
      planar builder finds it, the other one exactly if there is no offset. */
  lemma {:induction false} UnalignedStart(list: seq<Sg>)
    requires 0 < |list| && 0 < list[0].length
    ensures |PagesFrom(list, true, 0)| > 0 && PagesFrom(list, true, 0)[0] + list[0].offset == list[0].address
    ensures |PagesFrom(list, false, 0)| > 0
    ensures PagesFrom(list, false, 0)[0] + list[0].offset == list[0].address <==> list[0].offset == 0
  {
    FirstPages(list, true, 0, 0);
    FirstPages(list, false, 0, 0);
  }

  // ------------------------------------------------------- three planes

  /** Where the second and third plane of a frame start and where it ends, for a luma
      plane of size bytes; depth is 12 bits a pixel for 4:2:0 and 16 for 4:2:2. */
  datatype Layout = Layout(second: nat, third: nat, end: nat)

  function Planes(size: nat, depth: int): Layout {
    if depth == 12 then Layout(size, size + size / 4, size + size / 2) else Layout(size, size + size / 2, 2 * size)
  }

  /** The table, read b bytes from its offset, reaches buffer byte start + b. */
  ghost predicate ByteReached(list: seq<Sg>, table: seq<int>, offset: nat, start: nat, b: nat) {
    (offset + b) / PAGE_SIZE < |table| && Translate(table, offset + b) == SgAddress(list, 0, start + b)
  }

  /** The table of a plane that starts at start and ends before end reaches the bytes of
      the buffer that the plane consists of. */
  ghost predicate PlaneReached(list: seq<Sg>, table: seq<int>, offset: nat, start: nat, end: nat) {
    forall b: nat :: start + b < end ==> ByteReached(list, table, offset, start, b)
  }

  /** The table starts with entries first to last of the whole one. */
  ghost predicate Part(whole: seq<int>, table: seq<int>, first: nat, last: nat) {
    && first <= last < |whole| && last - first < |table|
    && forall k :: 0 <= k <= last - first ==> table[k] == whole[first + k]
  }

  lemma {:induction false} PartPage(start: nat, end: nat, b: nat)
    requires start + b < end
    ensures (start % PAGE_SIZE + b) / PAGE_SIZE == (start + b) / PAGE_SIZE - start / PAGE_SIZE
    ensures start / PAGE_SIZE <= (start + b) / PAGE_SIZE <= end / PAGE_SIZE
    ensures (start % PAGE_SIZE + b) % PAGE_SIZE == (start + b) % PAGE_SIZE
  {
  }

  lemma {:induction false} PartByte(list: seq<Sg>, whole: seq<int>, table: seq<int>, start: nat, end: nat, b: nat)
    requires Aligned(list) && Simple(list, true) && start + b < end <= Bytes(list, 0)
    requires PagesFrom(list, true, 0) <= whole && Part(whole, table, start / PAGE_SIZE, end / PAGE_SIZE)
    ensures ByteReached(list, table, start % PAGE_SIZE, start, b)
  {
    PartPage(start, end, b);
    TableReaches(list, true, start + b);
    var page := (start + b) / PAGE_SIZE;
    assert table[page - start / PAGE_SIZE] == whole[page];
  }

  lemma {:induction false} PartReaches(list: seq<Sg>, whole: seq<int>, table: seq<int>, start: nat, end: nat)
    requires Aligned(list) && Simple(list, true) && end <= Bytes(list, 0)
    requires PagesFrom(list, true, 0) <= whole && Part(whole, table, start / PAGE_SIZE, end / PAGE_SIZE)
    ensures PlaneReached(list, table, start % PAGE_SIZE, start, end)
  {
    forall b: nat | start + b < end ensures ByteReached(list, table, start % PAGE_SIZE, start, b) {
      PartByte(list, whole, table, start, end, b);
    }
  }
}

/** The loops that build the tables. */
module PageTableBuilders {
  import opened PageTables

  lemma {:induction false} PagesSplit(done: seq<int>, list: seq<Sg>, planar: bool, i: nat)
    requires i < |list|
    ensures done + PagesFrom(list, planar, i)
         == done + EntryPages(list[i], planar, PageCount(list[i])) + PagesFrom(list, planar, i + 1)
  {
  }

  lemma {:induction false} OneMorePage(done: seq<int>, s: Sg, planar: bool, p: nat)
    ensures done + EntryPages(s, planar, p) + [PageEntry(s, planar, p)] == done + EntryPages(s, planar, p + 1)
  {
  }

  /** Writes an entry for each page of s, after the first n. */
  method WriteEntry(table: array<int>, s: Sg, planar: bool, n: nat, ghost done: seq<int>) returns (m: nat)
    requires n == |done| && n + PageCount(s) <= table.Length && table[..n] == done
    modifies table
    ensures m == n + PageCount(s) && table[..m] == done + EntryPages(s, planar, PageCount(s))
    ensures forall k :: m <= k < table.Length ==> table[k] == old(table[k])
  {
    m := n;
    var p := 0;
    assert done + EntryPages(s, planar, 0) == done;
    while p * 4096 < s.length
      invariant p <= PageCount(s) && m == n + p && table[..m] == done + EntryPages(s, planar, p)
      invariant forall k :: m <= k < table.Length ==> table[k] == old(table[k])
      decreases PageCount(s) - p
    {
      OneMorePage(done, s, planar, p);
      table[m] := if planar then s.address - s.offset else s.address + p * 4096;
      assert table[..m + 1] == table[..m] + [PageEntry(s, planar, p)];
      p, m := p + 1, m + 1;
    }
  }

  /** Writes an entry for each page of the list. */
  method WritePages(table: array<int>, list: seq<Sg>, planar: bool) returns (n: nat)
    requires |PagesFrom(list, planar, 0)| <= table.Length
    modifies table
    ensures n == |PagesFrom(list, planar, 0)| && table[..n] == PagesFrom(list, planar, 0)
    ensures forall k :: n <= k < table.Length ==> table[k] == old(table[k])
  {
    n := 0;
    ghost var done, all := [], PagesFrom(list, planar, 0);
    for i := 0 to |list|
      invariant n == |done| && done + PagesFrom(list, planar, i) == all && n <= table.Length && table[..n] == done
      invariant forall k :: n <= k < table.Length ==> table[k] == old(table[k])
    {
      PagesSplit(done, list, planar, i);
      n := WriteEntry(table, list[i], planar, n, done);
      done := done + EntryPages(list[i], planar, PageCount(list[i]));
    }
    assert done == all;
  }

  /** Builds one table for the whole buffer and fills it up with its last page. */
  method BuildSingle(table: array<int>, list: seq<Sg>) returns (offset: int)
    requires table.Length == 1024 && 0 < |PagesFrom(list, false, 0)| <= 1024 && 0 < |list|
    modifies table
    ensures offset == list[0].offset
    ensures PagesFrom(list, false, 0) <= table[..]
    ensures forall k :: |PagesFrom(list, false, 0)| <= k < 1024 ==>
              table[k] == table[|PagesFrom(list, false, 0)| - 1]
    ensures Aligned(list) ==> PlaneReached(list, table[..], offset, 0, Bytes(list, 0))
  {
    offset := list[0].offset;
    var n := WritePages(table, list, false);
    var fill := table[n - 1];
    for i := n to TABLE_ENTRIES
      invariant table[..n] == PagesFrom(list, false, 0)
      invariant forall k :: n <= k < i ==> table[k] == fill
    {
      table[i] := fill;
    }
    assert table[..][..n] == table[..n];
    if Aligned(list) {
      SingleReaches(list, table[..]);
    }
  }

  lemma {:induction false} SingleReaches(list: seq<Sg>, table: seq<int>)
    requires Aligned(list) && PagesFrom(list, false, 0) <= table
    ensures PlaneReached(list, table, 0, 0, Bytes(list, 0))
  {
    forall b: nat | 0 + b < Bytes(list, 0) ensures ByteReached(list, table, 0, 0, b) {
      TableReaches(list, false, b);
    }
  }

  /** Copies entries first to last of the whole table and fills up with the last one. If
      last is one entry past the table, what lies there in memory is copied. */
  method CopyPart(whole: array<int>, beyond: int, table: array<int>, first: nat, last: nat)
    requires whole != table && whole.Length == table.Length == TABLE_ENTRIES
    requires first <= last <= TABLE_ENTRIES && last - first < TABLE_ENTRIES
    modifies table
    ensures forall k :: 0 <= k <= last - first ==> table[k] == (whole[..] + [beyond])[first + k]
    ensures forall k :: last - first < k < TABLE_ENTRIES - first ==> table[k] == (whole[..] + [beyond])[last]
    ensures forall k :: last - first < k && TABLE_ENTRIES - first <= k < TABLE_ENTRIES ==> table[k] == old(table[k])
  {
    var i, ptr := first, 0;
    ghost var all := whole[..] + [beyond];
    while i <= last
      invariant first <= i <= last + 1 && ptr == i - first && whole[..] + [beyond] == all
      invariant forall k :: 0 <= k < ptr ==> table[k] == all[first + k]
      invariant forall k :: ptr <= k < TABLE_ENTRIES ==> table[k] == old(table[k])
    {
      table[ptr] := if i < TABLE_ENTRIES then whole[i] else beyond;
      i, ptr := i + 1, ptr + 1;
    }
    var fill := table[ptr - 1];
    while i < TABLE_ENTRIES
      invariant last < i && (i <= TABLE_ENTRIES || i == last + 1) && ptr == i - first <= TABLE_ENTRIES
      invariant whole[..] + [beyond] == all
      invariant forall k :: 0 <= k <= last - first ==> table[k] == all[first + k]
      invariant forall k :: last - first < k < ptr ==> table[k] == fill
      invariant forall k :: ptr <= k < TABLE_ENTRIES ==> table[k] == old(table[k])
    {
      table[ptr] := fill;
      i, ptr := i + 1, ptr + 1;
    }
  }

  /** Fills a table up from entry m on with that entry. */
  method FillUp(table: array<int>, m: nat)
    requires m < table.Length == TABLE_ENTRIES
    modifies table
    ensures forall k :: 0 <= k < TABLE_ENTRIES ==> table[k] == old(table[if k <= m then k else m])
  {
    var fill := table[m];
    for i := m to TABLE_ENTRIES
      invariant forall k :: 0 <= k < m ==> table[k] == old(table[k])
      invariant forall k :: m <= k < i ==> table[k] == fill
      invariant i == m ==> table[m] == fill
    {
      table[i] := fill;
    }
  }

  /** Builds the tables of the three planes. Although the first table is cut short only
      after the other two are copied from it, each table reaches its plane. A frame of
      exactly 1024 pages makes the builder read beyond the first table, which does no harm. */
  method BuildPlanar(pt1: array<int>, beyond: int, pt2: array<int>, pt3: array<int>, list: seq<Sg>, size: nat,
                     depth: int)
    returns (r: int, offset1: int, offset2: int, offset3: int)
    requires pt1.Length == pt2.Length == pt3.Length == 1024 && pt1 != pt2 && pt1 != pt3 && pt2 != pt3
    requires 0 < |list| && |PagesFrom(list, true, 0)| <= 1024
    requires depth == 12 ==> size + size / 2 <= 1024 * 4096
    requires depth == 16 ==> 2 * size <= 1024 * 4096
    modifies pt1, pt2, pt3
    ensures r == if depth == 12 || depth == 16 then 0 else -1
    ensures r != 0 ==> pt1[..] == old(pt1[..]) && pt2[..] == old(pt2[..]) && pt3[..] == old(pt3[..])
    ensures r == 0 ==> offset1 == list[0].offset && offset2 == offset1 + size % 4096
    ensures r == 0 ==> offset3 == offset1 + (size + (if depth == 12 then size / 4 else size / 2)) % 4096
    ensures depth == 12 && Aligned(list) && Simple(list, true) && size + size / 2 <= Bytes(list, 0) ==>
              && PlaneReached(list, pt1[..], offset1, 0, size)
              && PlaneReached(list, pt2[..], offset2, size, size + size / 4)
              && PlaneReached(list, pt3[..], offset3, size + size / 4, size + size / 2)
    ensures depth == 16 && Aligned(list) && Simple(list, true) && 2 * size <= Bytes(list, 0) ==>
              && PlaneReached(list, pt1[..], offset1, 0, size)
              && PlaneReached(list, pt2[..], offset2, size, size + size / 2)
              && PlaneReached(list, pt3[..], offset3, size + size / 2, 2 * size)
    ensures r == 0 ==> forall k :: size / 4096 <= k < 1024 ==> pt1[k] == pt1[size / 4096]
  {
    var m1, m2, m3, o1, o2;
    if depth == 12 {
      m1 := (size + PAGE_SIZE) / PAGE_SIZE - 1;
      m2 := (size + size / 4 + PAGE_SIZE) / PAGE_SIZE - 1;
      m3 := (size + size / 2 + PAGE_SIZE) / PAGE_SIZE - 1;
      o1 := size % PAGE_SIZE;
      o2 := (size + size / 4) % PAGE_SIZE;
    } else if depth == 16 {
      m1 := (size + PAGE_SIZE) / PAGE_SIZE - 1;
      m2 := (size + size / 2 + PAGE_SIZE) / PAGE_SIZE - 1;
      m3 := (2 * size + PAGE_SIZE) / PAGE_SIZE - 1;
      o1 := size % PAGE_SIZE;
      o2 := (size + size / 2) % PAGE_SIZE;
    } else {
      return -1, 0, 0, 0;
    }
    ghost var f := Planes(size, depth);
    assert m1 == f.second / PAGE_SIZE && m2 == f.third / PAGE_SIZE && m3 == f.end / PAGE_SIZE;
    assert o1 == f.second % PAGE_SIZE && o2 == f.third % PAGE_SIZE;
    offset1, offset2, offset3 := FillTables(pt1, beyond, pt2, pt3, list, m1, m2, m3, o1, o2, f);
    r := 0;
  }

  /** The loops of the planar builder. */
  method FillTables(pt1: array<int>, beyond: int, pt2: array<int>, pt3: array<int>, list: seq<Sg>,
                    m1: nat, m2: nat, m3: nat, o1: nat, o2: nat, ghost f: Layout)
    returns (offset1: int, offset2: int, offset3: int)
    requires pt1.Length == pt2.Length == pt3.Length == TABLE_ENTRIES && pt1 != pt2 && pt1 != pt3 && pt2 != pt3
    requires 0 < |list| && |PagesFrom(list, true, 0)| <= TABLE_ENTRIES && f.second <= f.third <= f.end
    requires m1 == f.second / PAGE_SIZE && m2 == f.third / PAGE_SIZE && m3 == f.end / PAGE_SIZE
    requires m1 <= m2 <= m3 <= TABLE_ENTRIES && m1 < TABLE_ENTRIES && m2 - m1 < TABLE_ENTRIES && m3 - m2 < TABLE_ENTRIES
    requires o1 == f.second % PAGE_SIZE && o2 == f.third % PAGE_SIZE
    modifies pt1, pt2, pt3
    ensures offset1 == list[0].offset && offset2 == offset1 + o1 && offset3 == offset1 + o2
    ensures forall k :: m1 <= k < TABLE_ENTRIES ==> pt1[k] == pt1[m1]
    ensures Aligned(list) && Simple(list, true) && f.end <= Bytes(list, 0) ==>
              && PlaneReached(list, pt1[..], offset1, 0, f.second)
              && PlaneReached(list, pt2[..], offset2, f.second, f.third)
              && PlaneReached(list, pt3[..], offset3, f.third, f.end)
  {
    var n := WritePages(pt1, list, true);
    ghost var whole := pt1[..];
    assert whole[..n] == PagesFrom(list, true, 0);
    offset1 := list[0].offset;
    offset2 := offset1 + o1;
    offset3 := offset1 + o2;
    CutTables(pt1, beyond, pt2, pt3, m1, m2, m3);
    CutReach(list, whole, beyond, n, pt1[..], pt2[..], pt3[..], f);
  }

  lemma {:induction false} CutReach(list: seq<Sg>, whole: seq<int>, beyond: int, n: nat,
                                    t1: seq<int>, t2: seq<int>, t3: seq<int>, f: Layout)
    requires n <= |whole| && whole[..n] == PagesFrom(list, true, 0) && f.second <= f.third <= f.end
    requires Part(whole + [beyond], t1, 0, f.second / PAGE_SIZE)
    requires Part(whole + [beyond], t2, f.second / PAGE_SIZE, f.third / PAGE_SIZE)
    requires Part(whole + [beyond], t3, f.third / PAGE_SIZE, f.end / PAGE_SIZE)
    ensures Aligned(list) && Simple(list, true) && f.end <= Bytes(list, 0) ==>
              && PlaneReached(list, t1, 0, 0, f.second)
              && PlaneReached(list, t2, f.second % PAGE_SIZE, f.second, f.third)
              && PlaneReached(list, t3, f.third % PAGE_SIZE, f.third, f.end)
  {
    if Aligned(list) && Simple(list, true) && f.end <= Bytes(list, 0) {
      assert (whole + [beyond])[..n] == whole[..n];
      PartsReach(list, whole + [beyond], t1, t2, t3, f);
    }
  }

  /** Copies the second and third table from the first, then cuts the first one short. */
  method CutTables(pt1: array<int>, beyond: int, pt2: array<int>, pt3: array<int>, m1: nat, m2: nat, m3: nat)
    requires pt1.Length == pt2.Length == pt3.Length == TABLE_ENTRIES && pt1 != pt2 && pt1 != pt3 && pt2 != pt3
    requires m1 <= m2 <= m3 <= TABLE_ENTRIES && m1 < TABLE_ENTRIES && m2 - m1 < TABLE_ENTRIES && m3 - m2 < TABLE_ENTRIES
    modifies pt1, pt2, pt3
    ensures Part(old(pt1[..]) + [beyond], pt1[..], 0, m1)
    ensures Part(old(pt1[..]) + [beyond], pt2[..], m1, m2)
    ensures Part(old(pt1[..]) + [beyond], pt3[..], m2, m3)
    ensures forall k :: m1 <= k < 1024 ==> pt1[k] == old(pt1[m1])
    ensures forall k :: m2 - m1 < k < 1024 - m1 ==> pt2[k] == (old(pt1[..]) + [beyond])[m2]
    ensures forall k :: m3 - m2 < k < 1024 - m2 ==> pt3[k] == (old(pt1[..]) + [beyond])[m3]
  {
    CopyPart(pt1, beyond, pt2, m1, m2);
    CopyPart(pt1, beyond, pt3, m2, m3);
    FillUp(pt1, m1);
  }

  lemma {:induction false} PartsReach(list: seq<Sg>, whole: seq<int>, t1: seq<int>, t2: seq<int>, t3: seq<int>,
                                      f: Layout)
    requires Aligned(list) && Simple(list, true) && f.end <= Bytes(list, 0) && f.second <= f.third <= f.end
    requires PagesFrom(list, true, 0) <= whole && Part(whole, t1, 0, f.second / PAGE_SIZE)
    requires Part(whole, t2, f.second / PAGE_SIZE, f.third / PAGE_SIZE)
    requires Part(whole, t3, f.third / PAGE_SIZE, f.end / PAGE_SIZE)
    ensures PlaneReached(list, t1, 0, 0, f.second)
    ensures PlaneReached(list, t2, f.second % PAGE_SIZE, f.second, f.third)
    ensures PlaneReached(list, t3, f.third % PAGE_SIZE, f.third, f.end)
  {
    PartReaches(list, whole, t1, 0, f.second);
    PartReaches(list, whole, t2, f.second, f.third);
    PartReaches(list, whole, t3, f.third, f.end);
  }
}
