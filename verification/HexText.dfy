/** Writing Intel HEX: what a well-formed text for a list of records looks like, and that
    the parser gives these records back. */
module HexText {
  import opened Basics
  import opened IntelHex

  /** A line of a file: data, one of the two kinds of base address, or a start address. */
  datatype Item =
    | Data(addr: int, bytes: seq<int>)
    | Segment(base: int)
    | Linear(base: int)
    | Entry(linear: bool, bytes: seq<int>)
    | Eof(untyped: bool, addr: int)

  ghost predicate AreBytes(bs: seq<int>) {
    forall k :: 0 <= k < |bs| ==> 0 <= bs[k] < 256
  }

  /** The longest line the length field can tell. */
  function MaxLength(wide: bool): nat {
    if wide then 65535 else 255
  }

  ghost predicate Good(item: Item, wide: bool) {
    match item
    case Data(addr, bytes) => 0 <= addr < 65536 && 0 < |bytes| <= MaxLength(wide) && AreBytes(bytes)
    case Segment(base) => 0 <= base < 65536
    case Linear(base) => 0 <= base < 65536
    case Entry(_, bytes) => |bytes| == 4 && AreBytes(bytes)
    case Eof(untyped, addr) => 0 <= addr < 65536 && (!untyped ==> addr == 0)
  }

  function Kind(item: Item): int {
    match item
    case Data(_, _) => 0
    case Segment(_) => 2
    case Linear(_) => 4
    case Entry(linear, _) => if linear then 5 else 3
    case Eof(untyped, _) => if untyped then 0 else 1
  }

  function Address(item: Item): int {
    match item
    case Data(addr, _) => addr
    case Eof(_, addr) => addr
    case _ => 0
  }

  function Payload(item: Item): seq<int> {
    match item
    case Data(_, bytes) => bytes
    case Segment(base) => [base / 256, base % 256]
    case Linear(base) => [base / 256, base % 256]
    case Entry(_, bytes) => bytes
    case Eof(_, _) => []
  }

  // ------------------------------------------------------------ a line

  function Prefix(n: nat, wide: bool): seq<int> {
    if wide then [n / 256, n % 256] else [n]
  }

  /** The bytes of a line before its checksum. */
  function Body(addr: int, kind: int, payload: seq<int>, wide: bool): seq<int> {
    Prefix(|payload|, wide) + [addr / 256, addr % 256, kind] + payload
  }

  function SumMod(bs: seq<int>, k: nat): int
    requires k <= |bs|
  {
    if k == 0 then 0 else (SumMod(bs, k - 1) + bs[k - 1]) % 256
  }

  /** Bytes and their checksum, which makes the sum 0 modulo 256. */
  function Checked(body: seq<int>): seq<int> {
    body + [(256 - SumMod(body, |body|)) % 256]
  }

  /** The bytes of a line. */
  function Full(item: Item, wide: bool): seq<int> {
    Checked(Body(Address(item), Kind(item), Payload(item), wide))
  }

  /** The bytes of data lines ... */
  lemma {:induction false} DataLayout(addr: int, bytes: seq<int>)
    ensures Full(Data(addr, bytes), false) == Checked([|bytes|, addr / 256, addr % 256, 0] + bytes)
    ensures Full(Data(addr, bytes), true) == Checked([|bytes| / 256, |bytes| % 256, addr / 256, addr % 256, 0] + bytes)
  {
    assert Body(addr, 0, bytes, false) == [|bytes|, addr / 256, addr % 256, 0] + bytes;
    assert Body(addr, 0, bytes, true) == [|bytes| / 256, |bytes| % 256, addr / 256, addr % 256, 0] + bytes;
  }

  /** ... of the lines with addresses, and of the usual last line. */
  lemma {:induction false} AddressLayout(b: int, x: int, y: int, z: int, w: int)
    ensures Full(Segment(b), false) == Checked([2, 0, 0, 2, b / 256, b % 256])
    ensures Full(Linear(b), false) == Checked([2, 0, 0, 4, b / 256, b % 256])
    ensures Full(Entry(false, [x, y, z, w]), false) == Checked([4, 0, 0, 3, x, y, z, w])
    ensures Full(Entry(true, [x, y, z, w]), false) == Checked([4, 0, 0, 5, x, y, z, w])
    ensures Full(Eof(false, 0), false) == [0, 0, 0, 1, 255]
  {
    assert Body(0, 2, [b / 256, b % 256], false) == [2, 0, 0, 2, b / 256, b % 256];
    assert Body(0, 4, [b / 256, b % 256], false) == [2, 0, 0, 4, b / 256, b % 256];
    assert Body(0, 3, [x, y, z, w], false) == [4, 0, 0, 3, x, y, z, w];
    assert Body(0, 5, [x, y, z, w], false) == [4, 0, 0, 5, x, y, z, w];
    assert Body(0, 1, [], false) == [0, 0, 0, 1];
    LastSum();
  }

  lemma {:induction false} LastSum()
    ensures SumMod([0, 0, 0, 1], 4) == 1
  {
    var body := [0, 0, 0, 1];
    assert SumMod(body, 1) == 0 && SumMod(body, 2) == 0 && SumMod(body, 3) == 0;
  }

  lemma {:induction false} SumPrefix(a: seq<int>, b: seq<int>, k: nat)
    requires k <= |a|
    ensures SumMod(a + b, k) == SumMod(a, k)
    decreases k
  {
    if k > 0 {
      SumPrefix(a, b, k - 1);
    }
  }

  lemma {:induction false} SumRange(bs: seq<int>, k: nat)
    requires k <= |bs|
    ensures 0 <= SumMod(bs, k) < 256
  {
  }

  lemma {:induction false} CheckedSum(body: seq<int>)
    ensures SumMod(Checked(body), |Checked(body)|) == 0
  {
    SumPrefix(body, [(256 - SumMod(body, |body|)) % 256], |body|);
    SumRange(body, |body|);
  }

  /** The bytes of a line, one by one. */
  ghost predicate Lays(bs: seq<int>, addr: int, kind: int, payload: seq<int>, wide: bool) {
    var h := LengthBytes(wide);
    && AreBytes(bs) && |bs| == h + 4 + |payload|
    && bs[h] == addr / 256 && bs[h + 1] == addr % 256 && bs[h + 2] == kind
    && (if wide then bs[0] == |payload| / 256 && bs[1] == |payload| % 256 else bs[0] == |payload|)
    && (forall k: nat :: k < |payload| ==> bs[h + 3 + k] == payload[k])
  }

  lemma {:induction false} LineBytes(addr: int, kind: int, payload: seq<int>, check: int, wide: bool)
    requires AreBytes(Body(addr, kind, payload, wide) + [check])
    ensures Lays(Body(addr, kind, payload, wide) + [check], addr, kind, payload, wide)
  {
  }

  lemma {:induction false} FullIsBytes(item: Item, wide: bool)
    requires Good(item, wide)
    ensures AreBytes(Full(item, wide))
  {
  }

  // ------------------------------------------------------------ its text

  /** A digit for v, in either case. */
  predicate IsDigit(c: int, v: int) {
    if v < 10 then c == 48 + v else c == 55 + v || c == 87 + v
  }

  /** The text spells bs from i on. */
  ghost predicate Spells(d: seq<int>, i: nat, bs: seq<int>) {
    i + 2 * |bs| <= |d| &&
    forall k :: 0 <= k < |bs| ==> Pair(d, i + 2 * k, bs[k])
  }

  ghost predicate Pair(d: seq<int>, i: nat, b: int) {
    i + 1 < |d| && IsDigit(d[i], b / 16) && IsDigit(d[i + 1], b % 16)
  }

  lemma {:induction false} PairReads(d: seq<int>, i: nat, b: int)
    requires 0 <= b < 256 && Pair(d, i, b)
    ensures HexByte(d, i) == b
  {
  }

  /** The text from i on is read as bs. */
  ghost predicate ReadAs(d: seq<int>, i: nat, bs: seq<int>) {
    i + 2 * |bs| <= |d| && AreBytes(bs) && forall k: nat :: k < |bs| ==> HexByte(d, i + 2 * k) == bs[k]
  }

  lemma {:induction false} SpelledReads(d: seq<int>, i: nat, bs: seq<int>)
    requires Spells(d, i, bs) && AreBytes(bs)
    ensures ReadAs(d, i, bs)
  {
    forall k: nat | k < |bs| ensures HexByte(d, i + 2 * k) == bs[k] {
      PairReads(d, i + 2 * k, bs[k]);
    }
  }

  lemma {:induction false} ReadByte(d: seq<int>, i: nat, bs: seq<int>, k: nat)
    requires ReadAs(d, i, bs) && k < |bs|
    ensures HexByte(d, i + 2 * k) == bs[k]
  {
  }

  lemma {:induction false} ReadCrc(d: seq<int>, i: nat, bs: seq<int>, k: nat)
    requires ReadAs(d, i, bs) && k <= |bs|
    ensures Crc(d, i, k) == SumMod(bs, k)
    decreases k
  {
    if k > 0 {
      ReadCrc(d, i, bs, k - 1);
      ReadByte(d, i, bs, k - 1);
    }
  }

  /** The fields that make a line. */
  ghost predicate HasFields(d: seq<int>, s: nat, addr: int, kind: int, payload: seq<int>, wide: bool) {
    var a := s + 2 * LengthBytes(wide);
    && Length(d, s, wide) == |payload| && HexBytes(d, a + 6, |payload|) == payload
    && HexByte(d, a) * 256 + HexByte(d, a + 2) == addr && HexByte(d, a + 4) == kind
  }

  lemma {:induction false} FieldsRead(d: seq<int>, s: nat, bs: seq<int>, addr: int, kind: int, payload: seq<int>,
                                      wide: bool)
    requires Lays(bs, addr, kind, payload, wide) && ReadAs(d, s, bs)
    ensures HasFields(d, s, addr, kind, payload, wide)
  {
    HeadRead(d, s, bs, addr, kind, payload, wide);
    PayloadRead(d, s, bs, payload, LengthBytes(wide));
  }

  lemma {:induction false} LineOfFields(d: seq<int>, s: nat, addr: int, kind: int, payload: seq<int>, wide: bool)
    requires HasFields(d, s, addr, kind, payload, wide)
    requires s + 2 * (LengthBytes(wide) + 4 + |payload|) <= |d|
    ensures Complete(d, s, wide)
    ensures LineAt(d, s, wide) == Line(|payload|, addr, kind, payload, Crc(d, s, LengthBytes(wide) + 4 + |payload|),
                                       s + 2 * (LengthBytes(wide) + 4 + |payload|))
  {
  }

  lemma {:induction false} HeadRead(d: seq<int>, s: nat, bs: seq<int>, addr: int, kind: int, payload: seq<int>,
                                    wide: bool)
    requires Lays(bs, addr, kind, payload, wide) && ReadAs(d, s, bs)
    ensures Length(d, s, wide) == |payload|
    ensures var a := s + 2 * LengthBytes(wide);
            HexByte(d, a) * 256 + HexByte(d, a + 2) == addr && HexByte(d, a + 4) == kind
  {
    var h := LengthBytes(wide);
    ReadByte(d, s, bs, 0);
    ReadByte(d, s, bs, 1);
    ReadByte(d, s, bs, h);
    ReadByte(d, s, bs, h + 1);
    ReadByte(d, s, bs, h + 2);
  }

  lemma {:induction false} PayloadRead(d: seq<int>, s: nat, bs: seq<int>, payload: seq<int>, h: nat)
    requires ReadAs(d, s, bs) && |bs| == h + 4 + |payload|
    requires forall k: nat :: k < |payload| ==> bs[h + 3 + k] == payload[k]
    ensures HexBytes(d, s + 2 * h + 6, |payload|) == payload
  {
    forall k: nat | k < |payload| ensures HexBytes(d, s + 2 * h + 6, |payload|)[k] == payload[k] {
      ReadByte(d, s, bs, h + 3 + k);
      assert s + 2 * (h + 3 + k) == s + 2 * h + 6 + 2 * k;
    }
  }

  /** A line of these fields that ends in the byte check is read with these fields, and
      its checksum is what its bytes add up to. */
  lemma {:induction false} FieldsLine(d: seq<int>, s: nat, addr: int, kind: int, payload: seq<int>, check: int,
                                      wide: bool)
    requires 0 <= addr < 65536 && 0 <= kind < 256 && |payload| <= MaxLength(wide)
    requires ReadAs(d, s, Body(addr, kind, payload, wide) + [check])
    ensures Complete(d, s, wide)
    ensures var bs := Body(addr, kind, payload, wide) + [check];
            LineAt(d, s, wide) == Line(|payload|, addr, kind, payload, SumMod(bs, |bs|), s + 2 * |bs|)
  {
    var bs := Body(addr, kind, payload, wide) + [check];
    LineBytes(addr, kind, payload, check, wide);
    FieldsRead(d, s, bs, addr, kind, payload, wide);
    ReadCrc(d, s, bs, |bs|);
    LineOfFields(d, s, addr, kind, payload, wide);
  }

  lemma {:induction false} LineReads(d: seq<int>, s: nat, item: Item, wide: bool)
    requires Good(item, wide) && ReadAs(d, s, Full(item, wide))
    ensures Complete(d, s, wide)
    ensures LineAt(d, s, wide)
         == Line(|Payload(item)|, Address(item), Kind(item), Payload(item), 0, s + 2 * |Full(item, wide)|)
  {
    var body := Body(Address(item), Kind(item), Payload(item), wide);
    FieldsLine(d, s, Address(item), Kind(item), Payload(item), (256 - SumMod(body, |body|)) % 256, wide);
    CheckedSum(body);
  }

  // ------------------------------------------------------------- a file

  /** A file: lines and, at its end only, one that says so. */
  ghost predicate IsFile(items: seq<Item>, wide: bool) {
    && 0 < |items| && (forall k :: 0 <= k < |items| ==> Good(items[k], wide))
    && (forall k :: 0 <= k < |items| ==> (items[k].Eof? <==> k == |items| - 1))
  }

  /** What a line asks for: a record at its absolute address, a base address for the
      lines after it, or nothing. */
  function Asks(item: Item, base: int, o: Options): Effect {
    match item
    case Data(addr, bytes) => File(Record(base + addr, bytes))
    case Segment(b) => Base(b * 16)
    case Linear(b) => Base(b * 65536)
    case Entry(_, bytes) => if o.jump && |bytes| == 4 then File(Record(0, Swapped(bytes, o.littleEndian))) else Skip
    case Eof(_, _) => Stop
  }

  function BaseAfter(item: Item, base: int, o: Options): int {
    var e := Asks(item, base, o);
    if e.Base? then e.offset else base
  }

  function FiledAfter(item: Item, base: int, filed: seq<Record>, o: Options): seq<Record> {
    var e := Asks(item, base, o);
    if e.File? then filed + [e.record] else filed
  }

  /** The records of the lines from k on, after those already filed. */
  function Load(items: seq<Item>, k: nat, base: int, filed: seq<Record>, o: Options): seq<Record>
    decreases |items| - k
  {
    if k >= |items| then filed
    else Load(items, k + 1, BaseAfter(items[k], base, o), FiledAfter(items[k], base, filed, o), o)
  }

  lemma {:induction false} ItemAsks(item: Item, line: Line, base: int, o: Options)
    requires Good(item, o.wide) && 0 <= base <= 65535 * 65536
    requires line.len == |Payload(item)| && line.data == Payload(item)
    requires line.addr == Address(item) && line.kind == Kind(item)
    ensures EffectOf(line, base, o) == Asks(item, base, o)
    ensures Asks(item, base, o).Base? ==> 0 <= Asks(item, base, o).offset <= 65535 * 65536
    ensures !Asks(item, base, o).Fail? && (Asks(item, base, o).Stop? <==> item.Eof?)
  {
  }

  /** The line of an item, ending at next. */
  function LineOf(item: Item, next: nat): Line {
    Line(|Payload(item)|, Address(item), Kind(item), Payload(item), 0, next)
  }

  /** At its place j, the reader finds the line of item j. */
  ghost predicate FoundAt(read: nat -> Reading, size: nat, items: seq<Item>, at: seq<nat>, j: nat) {
    && j < |items| && j + 1 < |at| && at[j] < at[j + 1] <= size
    && read(at[j]) == Found(LineOf(items[j], at[j + 1]))
  }

  lemma {:induction false} LoadStep(items: seq<Item>, k: nat, base: int, filed: seq<Record>, o: Options)
    requires k < |items|
    ensures Load(items, k, base, filed, o)
         == Load(items, k + 1, BaseAfter(items[k], base, o), FiledAfter(items[k], base, filed, o), o)
    ensures k == |items| - 1 && items[k].Eof? ==> Load(items, k, base, filed, o) == filed
  {
  }

  /** One step of the parser over the line of an item. */
  lemma {:induction false} ParseLine(read: nat -> Reading, size: nat, i: nat, next: nat, item: Item, base: int,
                                     filed: seq<Record>, o: Options)
    requires Good(item, o.wide) && 0 <= base <= 65535 * 65536
    requires i < next <= size && read(i) == Found(LineOf(item, next))
    ensures 0 <= BaseAfter(item, base, o) <= 65535 * 65536
    ensures Parse(read, size, i, base, filed, o)
         == if item.Eof? then Ok(filed)
            else Parse(read, size, next, BaseAfter(item, base, o), FiledAfter(item, base, filed, o), o)
  {
    ItemAsks(item, LineOf(item, next), base, o);
  }

  /** Parsing what a well-formed file was written for gives its records. */
  lemma {:induction false} ParseFinds(read: nat -> Reading, size: nat, items: seq<Item>, at: seq<nat>, k: nat,
                                      base: int, filed: seq<Record>, o: Options)
    requires IsFile(items, o.wide) && k < |items| && 0 <= base <= 65535 * 65536
    requires forall j: nat :: j < |items| ==> FoundAt(read, size, items, at, j)
    ensures |at| > k && Parse(read, size, at[k], base, filed, o) == Ok(Load(items, k, base, filed, o))
    decreases |items| - k
  {
    var found := FoundAt(read, size, items, at, k);
    assert found;
    ParseLine(read, size, at[k], at[k + 1], items[k], base, filed, o);
    LoadStep(items, k, base, filed, o);
    if k < |items| - 1 {
      ParseFinds(read, size, items, at, k + 1, BaseAfter(items[k], base, o), FiledAfter(items[k], base, filed, o), o);
    }
  }

  // -------------------------------------------------------- whole texts

  /** A line of text for an item: gap characters without a colon, a colon and digits in
      either case. */
  ghost predicate LineFor(l: seq<int>, gap: nat, item: Item, wide: bool) {
    && gap < |l| && (forall x :: 0 <= x < gap ==> l[x] != 58) && l[gap] == 58
    && |l| == gap + 1 + 2 * |Full(item, wide)| && Spells(l, gap + 1, Full(item, wide))
  }

  lemma {:induction false} SeekGap(d: seq<int>, i: nat, c: nat)
    requires i <= c < |d| && d[c] == COLON && forall y :: i <= y < c ==> d[y] != COLON
    ensures Seek(d, i) == c + 1
    decreases c - i
  {
    if i < c {
      SeekGap(d, i + 1, c);
    }
  }

  lemma {:induction false} HasSpells(d: seq<int>, i: nat, l: seq<int>, g: nat, bs: seq<int>)
    requires Has(d, i, l) && Spells(l, g, bs)
    ensures Spells(d, i + g, bs)
  {
    forall k | 0 <= k < |bs| ensures Pair(d, (i + g) + 2 * k, bs[k]) {
      var x := g + 2 * k;
      assert Pair(l, x, bs[k]);
      assert d[i + x] == l[x] && d[i + (x + 1)] == l[x + 1];
    }
  }

  lemma {:induction false} HasColon(d: seq<int>, i: nat, l: seq<int>, gap: nat)
    requires Has(d, i, l) && gap < |l| && l[gap] == COLON && forall x :: 0 <= x < gap ==> l[x] != COLON
    ensures Seek(d, i) == i + gap + 1
  {
    forall y | i <= y < i + gap ensures d[y] != COLON {
      assert d[i + (y - i)] == l[y - i];
    }
    assert d[i + gap] == l[gap];
    SeekGap(d, i, i + gap);
  }

  lemma {:induction false} ReaderFinds(d: seq<int>, i: nat, s: nat, item: Item, wide: bool)
    requires Seek(d, i) == s && Good(item, wide) && ReadAs(d, s, Full(item, wide))
    ensures Reader(d, wide)(i) == Found(LineOf(item, s + 2 * |Full(item, wide)|))
  {
    LineReads(d, s, item, wide);
  }

  /** Where a line for an item stands, the reader finds it. */
  lemma {:induction false} HasFinds(d: seq<int>, i: nat, l: seq<int>, gap: nat, item: Item, wide: bool)
    requires Has(d, i, l) && LineFor(l, gap, item, wide) && Good(item, wide)
    ensures Reader(d, wide)(i) == Found(LineOf(item, i + |l|))
  {
    HasColon(d, i, l, gap);
    HasSpells(d, i, l, gap + 1, Full(item, wide));
    FullIsBytes(item, wide);
    SpelledReads(d, i + gap + 1, Full(item, wide));
    ReaderFinds(d, i, i + gap + 1, item, wide);
  }

  lemma {:induction false} LineFound(d: seq<int>, lines: seq<seq<int>>, gap: nat, items: seq<Item>, tail: seq<int>,
                                     wide: bool, j: nat)
    requires d == Flat(lines, |lines|) + tail && j < |items| == |lines|
    requires LineFor(lines[j], gap, items[j], wide) && Good(items[j], wide)
    ensures FoundAt(Reader(d, wide), |d|, items, PieceStarts(lines), j)
  {
    FlatHas(lines, j, |lines|, tail);
    HasFinds(d, |Flat(lines, j)|, lines[j], gap, items[j], wide);
    assert |Flat(lines, j + 1)| == |Flat(lines, j)| + |lines[j]|;
  }

  /** Writing lines for the items of a file and parsing the text gives their records, at
      absolute addresses and in file order, whatever follows the last line. */
  lemma {:induction false} TextParses(lines: seq<seq<int>>, gaps: seq<nat>, items: seq<Item>, tail: seq<int>,
                                      o: Options)
    requires IsFile(items, o.wide) && |lines| == |gaps| == |items|
    requires forall j :: 0 <= j < |items| ==> LineFor(lines[j], gaps[j], items[j], o.wide)
    ensures ParseText(Flat(lines, |lines|) + tail, o) == Ok(Load(items, 0, 0, [], o))
  {
    var d := Flat(lines, |lines|) + tail;
    forall j: nat | j < |items| ensures FoundAt(Reader(d, o.wide), |d|, items, PieceStarts(lines), j) {
      LineFound(d, lines, gaps[j], items, tail, o.wide, j);
    }
    ParseFinds(Reader(d, o.wide), |d|, items, PieceStarts(lines), 0, 0, [], o);
    assert PieceStarts(lines)[0] == 0;
  }
}
