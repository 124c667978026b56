/** Which texts the parser accepts, and which it refuses. */
module HexLanguage {
  import opened Basics
  import opened IntelHex
  import opened HexText

  // ------------------------------------------------- what is accepted

  predicate IsHex(c: int) {
    48 <= c <= 57 || 65 <= c <= 70 || 97 <= c <= 102
  }

  /** c stands for v: a digit for its value, and any other character for 0. */
  predicate StandsFor(c: int, v: int) {
    if IsHex(c) then 0 <= v < 16 && IsDigit(c, v) else v == 0
  }

  lemma {:induction false} NybbleStands(c: int, v: int)
    ensures Nybble(c) == v <==> StandsFor(c, v)
  {
  }

  /** Two characters stand for a byte. */
  predicate PairStands(d: seq<int>, i: nat, b: int) {
    0 <= b < 256 && i + 1 < |d| && StandsFor(d[i], b / 16) && StandsFor(d[i + 1], b % 16)
  }

  lemma {:induction false} PairStandsExactly(d: seq<int>, i: nat, b: int)
    requires i + 1 < |d|
    ensures PairStands(d, i, b) <==> HexByte(d, i) == b
  {
    NybbleStands(d[i], b / 16);
    NybbleStands(d[i + 1], b % 16);
  }

  /** From i to next the text has no colon, a colon, and characters for the bytes bs. */
  ghost predicate StandsAt(d: seq<int>, i: nat, next: nat, bs: seq<int>) {
    var c := next - 2 * |bs| - 1;
    && i <= c && next <= |d| && d[c] == 58 && (forall y :: i <= y < c ==> d[y] != 58)
    && forall k: nat :: k < |bs| ==> PairStands(d, c + 1 + 2 * k, bs[k])
  }

  /** Line j of the text, from at[j] to at[j + 1], is for item j of a file. */
  ghost predicate IsText(d: seq<int>, items: seq<Item>, at: seq<nat>, wide: bool) {
    && IsFile(items, wide) && |at| == |items| + 1
    && forall j: nat :: j < |items| ==> StandsAt(d, at[j], at[j + 1], Full(items[j], wide))
  }

  lemma {:induction false} StandsReads(d: seq<int>, i: nat, next: nat, bs: seq<int>)
    requires StandsAt(d, i, next, bs)
    ensures Seek(d, i) == next - 2 * |bs| && ReadAs(d, Seek(d, i), bs)
  {
    var c := next - 2 * |bs| - 1;
    SeekGap(d, i, c);
    forall k: nat | k < |bs| ensures 0 <= bs[k] < 256 && HexByte(d, c + 1 + 2 * k) == bs[k] {
      assert PairStands(d, c + 1 + 2 * k, bs[k]);
      PairStandsExactly(d, c + 1 + 2 * k, bs[k]);
    }
  }

  lemma {:induction false} StandsFound(d: seq<int>, i: nat, next: nat, item: Item, wide: bool)
    requires Good(item, wide) && StandsAt(d, i, next, Full(item, wide))
    ensures i < next <= |d| && Reader(d, wide)(i) == Found(LineOf(item, next))
  {
    StandsReads(d, i, next, Full(item, wide));
    LineReads(d, Seek(d, i), item, wide);
  }

  lemma {:induction false} TextFound(d: seq<int>, items: seq<Item>, at: seq<nat>, wide: bool, j: nat)
    requires IsText(d, items, at, wide) && j < |items|
    ensures FoundAt(Reader(d, wide), |d|, items, at, j)
  {
    StandsFound(d, at[j], at[j + 1], items[j], wide);
  }

  /** A text for a file is accepted. */
  lemma {:induction false} TextAccepted(d: seq<int>, items: seq<Item>, at: seq<nat>, o: Options)
    requires IsText(d, items, at, o.wide) && at[0] == 0
    ensures ParseText(d, o) == Ok(Load(items, 0, 0, [], o))
  {
    forall j: nat | j < |items| ensures FoundAt(Reader(d, o.wide), |d|, items, at, j) {
      TextFound(d, items, at, o.wide, j);
    }
    ParseFinds(Reader(d, o.wide), |d|, items, at, 0, 0, [], o);
  }

  // ------------------------------------------------ nothing else is

  /** The item that a line was written for. */
  function ItemFrom(line: Line): Item {
    if line.kind == 0 then (if line.len == 0 then Eof(true, line.addr) else Data(line.addr, line.data))
    else if line.kind == 1 then Eof(false, 0)
    else if line.kind == 2 && |line.data| == 2 then Segment(line.data[0] * 256 + line.data[1])
    else if line.kind == 4 && |line.data| == 2 then Linear(line.data[0] * 256 + line.data[1])
    else Entry(line.kind == 5, line.data)
  }

  /** What every line that is read has. */
  ghost predicate Plausible(line: Line, wide: bool) {
    && line.len == |line.data| <= MaxLength(wide) && AreBytes(line.data)
    && 0 <= line.addr < 65536 && 0 <= line.kind < 256
  }

  lemma {:induction false} BytesInRange(d: seq<int>, i: nat, n: nat)
    ensures AreBytes(HexBytes(d, i, n))
  {
    var bs := HexBytes(d, i, n);
    forall k | 0 <= k < n ensures 0 <= bs[k] < 256 {
      HexByteRange(d, i + 2 * k);
    }
  }

  lemma {:induction false} LinePlausible(d: seq<int>, s: nat, wide: bool)
    ensures Plausible(LineAt(d, s, wide), wide)
  {
    var a := s + 2 * LengthBytes(wide);
    HexByteRange(d, s);
    HexByteRange(d, s + 2);
    HexByteRange(d, a);
    HexByteRange(d, a + 2);
    HexByteRange(d, a + 4);
    BytesInRange(d, a + 6, Length(d, s, wide));
  }

  /** A line that does not fail was written for an item. */
  lemma {:induction false} LineHasItem(line: Line, base: int, o: Options)
    requires Plausible(line, o.wide) && !EffectOf(line, base, o).Fail? && line.crc == 0
    ensures var item := ItemFrom(line);
            Good(item, o.wide) && LineOf(item, line.next) == line && (item.Eof? <==> EffectOf(line, base, o).Stop?)
  {
    var item := ItemFrom(line);
    if line.kind == 2 || line.kind == 4 {
      assert Payload(item) == line.data;
    }
  }

  /** Bytes that add up to 0 end in their checksum. */
  lemma {:induction false} ZeroIsChecked(body: seq<int>, check: int)
    requires 0 <= check < 256 && SumMod(body + [check], |body| + 1) == 0
    ensures body + [check] == Checked(body)
  {
    SumPrefix(body, [check], |body|);
    SumRange(body, |body|);
  }

  /** The bytes of a line before its checksum. */
  function BodyOf(line: Line, wide: bool): seq<int> {
    Body(line.addr, line.kind, line.data, wide)
  }

  lemma {:induction false} TwoBytes(a: int, b: int)
    requires 0 <= b < 256
    ensures (a * 256 + b) / 256 == a && (a * 256 + b) % 256 == b
  {
  }

  lemma {:induction false} PrefixByte(d: seq<int>, s: nat, wide: bool, k: nat)
    requires k < LengthBytes(wide)
    ensures Length(d, s, wide) >= 0 && Prefix(Length(d, s, wide), wide)[k] == HexByte(d, s + 2 * k)
  {
    LengthRange(d, s, wide);
    HexByteRange(d, s + 2);
    TwoBytes(HexByte(d, s), HexByte(d, s + 2));
  }

  lemma {:induction false} BodyHead(addr: int, kind: int, payload: seq<int>, wide: bool, k: nat)
    requires k < LengthBytes(wide) + 3
    ensures var body, h := Body(addr, kind, payload, wide), LengthBytes(wide);
            k < |body| && body[k] == if k < h then Prefix(|payload|, wide)[k]
                                     else if k == h then addr / 256 else if k == h + 1 then addr % 256 else kind
  {
  }

  lemma {:induction false} HeadByte(d: seq<int>, s: nat, wide: bool, k: nat)
    requires k < LengthBytes(wide) + 3
    ensures var body := BodyOf(LineAt(d, s, wide), wide); k < |body| && body[k] == HexByte(d, s + 2 * k)
  {
    var h, line := LengthBytes(wide), LineAt(d, s, wide);
    BodyHead(line.addr, line.kind, line.data, wide, k);
    if k < h {
      PrefixByte(d, s, wide, k);
    } else {
      HexByteRange(d, s + 2 * h + 2);
      TwoBytes(HexByte(d, s + 2 * h), HexByte(d, s + 2 * h + 2));
    }
  }

  lemma {:induction false} DataByte(d: seq<int>, s: nat, wide: bool, k: nat)
    requires LengthBytes(wide) + 3 <= k < |BodyOf(LineAt(d, s, wide), wide)|
    ensures BodyOf(LineAt(d, s, wide), wide)[k] == HexByte(d, s + 2 * k)
  {
    var h, line := LengthBytes(wide), LineAt(d, s, wide);
    var x := k - (h + 3);
    assert BodyOf(line, wide)[k] == line.data[x];
    assert s + 2 * h + 6 + 2 * x == s + 2 * k;
  }

  lemma {:induction false} BodyRead(d: seq<int>, s: nat, wide: bool)
    ensures var body := BodyOf(LineAt(d, s, wide), wide); HexBytes(d, s, |body|) == body
  {
    var body := BodyOf(LineAt(d, s, wide), wide);
    forall k: nat | k < |body| ensures body[k] == HexByte(d, s + 2 * k) {
      if k < LengthBytes(wide) + 3 {
        HeadByte(d, s, wide, k);
      } else {
        DataByte(d, s, wide, k);
      }
    }
  }

  lemma {:induction false} LineSize(d: seq<int>, s: nat, wide: bool)
    requires Complete(d, s, wide)
    ensures var line := LineAt(d, s, wide);
            var n := |BodyOf(line, wide)|;
            && n == LengthBytes(wide) + 3 + line.len && line.next == s + 2 * (n + 1) <= |d|
            && line.crc == Crc(d, s, n + 1)
  {
    LengthRange(d, s, wide);
  }

  lemma {:induction false} BytesRead(d: seq<int>, s: nat, n: nat)
    requires s + 2 * n <= |d|
    ensures ReadAs(d, s, HexBytes(d, s, n)) && SumMod(HexBytes(d, s, n), n) == Crc(d, s, n)
  {
    BytesInRange(d, s, n);
    ReadCrc(d, s, HexBytes(d, s, n), n);
  }

  /** A complete line whose bytes add up to 0 is read as its fields and their checksum. */
  lemma {:induction false} CheckedRead(d: seq<int>, s: nat, wide: bool)
    requires Complete(d, s, wide) && LineAt(d, s, wide).crc == 0
    ensures var line := LineAt(d, s, wide);
            var bs := Checked(BodyOf(line, wide));
            ReadAs(d, s, bs) && line.next == s + 2 * |bs|
  {
    var body := BodyOf(LineAt(d, s, wide), wide);
    var n := |body|;
    var bs := HexBytes(d, s, n + 1);
    LineSize(d, s, wide);
    BytesRead(d, s, n + 1);
    BodyRead(d, s, wide);
    assert bs == HexBytes(d, s, n) + [bs[n]];
    ZeroIsChecked(body, bs[n]);
  }

  lemma {:induction false} ReadStands(d: seq<int>, i: nat, bs: seq<int>)
    requires i <= |d| && ReadAs(d, Seek(d, i), bs) && 0 < |bs|
    ensures StandsAt(d, i, Seek(d, i) + 2 * |bs|, bs)
  {
    var s := Seek(d, i);
    SeekFinds(d, i);
    forall k: nat | k < |bs| ensures PairStands(d, s + 2 * k, bs[k]) {
      ReadByte(d, s, bs, k);
      PairStandsExactly(d, s + 2 * k, bs[k]);
    }
  }

  /** Where a good line is found, characters for its item stand. */
  lemma {:induction false} FoundStands(d: seq<int>, i: nat, base: int, o: Options)
    requires i <= |d| && ReadLine(d, i, o.wide).Found? && !EffectOf(ReadLine(d, i, o.wide).line, base, o).Fail?
    ensures var line := ReadLine(d, i, o.wide).line;
            var item := ItemFrom(line);
            Good(item, o.wide) && LineOf(item, line.next) == line && StandsAt(d, i, line.next, Full(item, o.wide))
  {
    var s, line := Seek(d, i), ReadLine(d, i, o.wide).line;
    LinePlausible(d, s, o.wide);
    LineHasItem(line, base, o);
    CheckedRead(d, s, o.wide);
    ReadStands(d, i, Checked(BodyOf(line, o.wide)));
    var item := ItemFrom(line);
    assert LineOf(item, line.next) == line;
  }

  lemma {:induction false} SeekFinds(d: seq<int>, i: nat)
    requires i <= |d| && Seek(d, i) < |d|
    ensures var c := Seek(d, i) - 1; i <= c && d[c] == 58 && forall y :: i <= y < c ==> d[y] != 58
    decreases |d| - i
  {
    if d[i] != COLON {
      SeekFinds(d, i + 1);
    }
  }

  /** The items and places of a text that parses, from place i on. */
  lemma {:induction false} ParsedText(d: seq<int>, i: nat, base: int, filed: seq<Record>, o: Options)
    returns (items: seq<Item>, at: seq<nat>)
    requires i <= |d| && 0 <= base <= 65535 * 65536
    requires Parse(Reader(d, o.wide), |d|, i, base, filed, o).Ok?
    ensures IsText(d, items, at, o.wide) && at[0] == i
    decreases |d| - i
  {
    var line := ReadLine(d, i, o.wide).line;
    var item := ItemFrom(line);
    FoundStands(d, i, base, o);
    ParseLine(Reader(d, o.wide), |d|, i, line.next, item, base, filed, o);
    if item.Eof? {
      items, at := [item], [i, line.next];
    } else {
      items, at := ParsedText(d, line.next, BaseAfter(item, base, o), FiledAfter(item, base, filed, o), o);
      TextCons(d, item, i, items, at, o.wide);
      items, at := [item] + items, [i] + at;
    }
  }

  lemma {:induction false} FileCons(item: Item, items: seq<Item>, wide: bool)
    requires IsFile(items, wide) && Good(item, wide) && !item.Eof?
    ensures IsFile([item] + items, wide)
  {
  }

  lemma {:induction false} TextCons(d: seq<int>, item: Item, i: nat, items: seq<Item>, at: seq<nat>, wide: bool)
    requires IsText(d, items, at, wide) && Good(item, wide) && !item.Eof?
    requires StandsAt(d, i, at[0], Full(item, wide))
    ensures IsText(d, [item] + items, [i] + at, wide)
  {
    var items', at' := [item] + items, [i] + at;
    FileCons(item, items, wide);
    forall j: nat | j < |items'| ensures StandsAt(d, at'[j], at'[j + 1], Full(items'[j], wide)) {
      if j > 0 {
        var stands := StandsAt(d, at[j - 1], at[j], Full(items[j - 1], wide));
        assert stands;
      }
    }
  }

  /** A text is for a file. */
  ghost predicate Accepted(d: seq<int>, o: Options, rs: seq<Record>) {
    exists items, at :: IsText(d, items, at, o.wide) && at[0] == 0 && rs == Load(items, 0, 0, [], o)
  }

  /** The parser accepts exactly the texts for files, and gives their records: it refuses
      every other text. */
  lemma {:induction false} ParsesExactly(d: seq<int>, o: Options, rs: seq<Record>)
    ensures ParseText(d, o) == Ok(rs) <==> Accepted(d, o, rs)
  {
    if ParseText(d, o) == Ok(rs) {
      var items, at := ParsedText(d, 0, 0, [], o);
      TextAccepted(d, items, at, o);
    }
    if Accepted(d, o, rs) {
      var items, at :| IsText(d, items, at, o.wide) && at[0] == 0 && rs == Load(items, 0, 0, [], o);
      TextAccepted(d, items, at, o);
    }
  }

  // ------------------------------------------------- what is refused

  /** The text begins with lines for these items, none of which ends a file. */
  ghost predicate IsStart(d: seq<int>, items: seq<Item>, at: seq<nat>, wide: bool) {
    && |at| == |items| + 1 && at[0] == 0 && at[|items|] <= |d|
    && forall j: nat :: j < |items| ==>
         Good(items[j], wide) && !items[j].Eof? && StandsAt(d, at[j], at[j + 1], Full(items[j], wide))
  }

  lemma {:induction false} PrefixFinds(read: nat -> Reading, size: nat, items: seq<Item>, at: seq<nat>, o: Options,
                                       k: nat) returns (base: int, filed: seq<Record>)
    requires k <= |items| && |at| == |items| + 1
    requires forall j: nat :: j < |items| ==>
               Good(items[j], o.wide) && !items[j].Eof? && FoundAt(read, size, items, at, j)
    ensures 0 <= base <= 65535 * 65536
    ensures Parse(read, size, at[0], 0, [], o) == Parse(read, size, at[k], base, filed, o)
    decreases k
  {
    if k == 0 {
      base, filed := 0, [];
    } else {
      var b, f := PrefixFinds(read, size, items, at, o, k - 1);
      var found := FoundAt(read, size, items, at, k - 1);
      assert found;
      ParseLine(read, size, at[k - 1], at[k], items[k - 1], b, f, o);
      base, filed := BaseAfter(items[k - 1], b, o), FiledAfter(items[k - 1], b, f, o);
    }
  }

  /** After such lines the parser goes on behind them. */
  lemma {:induction false} StartParsed(d: seq<int>, items: seq<Item>, at: seq<nat>, o: Options)
    returns (base: int, filed: seq<Record>)
    requires IsStart(d, items, at, o.wide)
    ensures 0 <= base <= 65535 * 65536
    ensures ParseText(d, o) == Parse(Reader(d, o.wide), |d|, at[|items|], base, filed, o)
  {
    forall j: nat | j < |items| ensures FoundAt(Reader(d, o.wide), |d|, items, at, j) {
      StandsFound(d, at[j], at[j + 1], items[j], o.wide);
    }
    base, filed := PrefixFinds(Reader(d, o.wide), |d|, items, at, o, |items|);
  }

  lemma {:induction false} ParseBad(read: nat -> Reading, size: nat, i: nat, base: int, filed: seq<Record>, o: Options)
    requires read(i).Broken? || EffectOf(read(i).line, base, o).Fail?
    ensures Parse(read, size, i, base, filed, o) == Bad
  {
  }

  /** Address and length that a line of this kind may have. */
  predicate Admitted(kind: int, addr: int, len: nat) {
    || kind == 0
    || (kind == 1 && addr == 0 && len == 0)
    || ((kind == 2 || kind == 4) && addr == 0 && len == 2)
    || ((kind == 3 || kind == 5) && addr == 0 && len == 4)
  }

  /** A last byte other than the checksum makes the sum something other than 0. */
  lemma {:induction false} WrongCheck(body: seq<int>, check: int)
    requires 0 <= check < 256 && body + [check] != Checked(body)
    ensures SumMod(body + [check], |body| + 1) != 0
  {
    if SumMod(body + [check], |body| + 1) == 0 {
      ZeroIsChecked(body, check);
    }
  }

  lemma {:induction false} FieldsRefused(d: seq<int>, s: nat, addr: int, kind: int, payload: seq<int>, check: int,
                                         base: int, o: Options)
    requires 0 <= addr < 65536 && 0 <= kind < 256 && |payload| <= MaxLength(o.wide)
    requires ReadAs(d, s, Body(addr, kind, payload, o.wide) + [check])
    requires Body(addr, kind, payload, o.wide) + [check] == Checked(Body(addr, kind, payload, o.wide))
             ==> !Admitted(kind, addr, |payload|)
    ensures LineAt(d, s, o.wide).crc != 0 || EffectOf(LineAt(d, s, o.wide), base, o).Fail?
  {
    var body := Body(addr, kind, payload, o.wide);
    FieldsLine(d, s, addr, kind, payload, check, o.wide);
    if body + [check] != Checked(body) {
      assert (body + [check])[|body|] == check;
      WrongCheck(body, check);
    }
  }

  /** A text is refused if after good lines there is one whose last byte is not its
      checksum, whose kind is unknown, or whose address or length its kind does not admit. */
  lemma {:induction false} LineRefused(d: seq<int>, items: seq<Item>, at: seq<nat>, next: nat, addr: int, kind: int,
                                       payload: seq<int>, check: int, o: Options)
    requires IsStart(d, items, at, o.wide) && 0 <= addr < 65536 && 0 <= kind < 256 && |payload| <= MaxLength(o.wide)
    requires StandsAt(d, at[|items|], next, Body(addr, kind, payload, o.wide) + [check])
    requires Body(addr, kind, payload, o.wide) + [check] == Checked(Body(addr, kind, payload, o.wide))
             ==> !Admitted(kind, addr, |payload|)
    ensures ParseText(d, o) == Bad
  {
    var i := at[|items|];
    var base, filed := StartParsed(d, items, at, o);
    StandsReads(d, i, next, Body(addr, kind, payload, o.wide) + [check]);
    FieldsRefused(d, Seek(d, i), addr, kind, payload, check, base, o);
    ParseBad(Reader(d, o.wide), |d|, i, base, filed, o);
  }

  /** A text is refused if after good lines it has no colon. */
  lemma {:induction false} EndMissing(d: seq<int>, items: seq<Item>, at: seq<nat>, o: Options)
    requires IsStart(d, items, at, o.wide) && forall y :: at[|items|] <= y < |d| ==> d[y] != 58
    ensures ParseText(d, o) == Bad
  {
    var base, filed := StartParsed(d, items, at, o);
    SeekNothing(d, at[|items|]);
    ParseBad(Reader(d, o.wide), |d|, at[|items|], base, filed, o);
  }

  lemma {:induction false} SeekNothing(d: seq<int>, i: nat)
    requires i <= |d| && forall y :: i <= y < |d| ==> d[y] != 58
    ensures Seek(d, i) == |d|
    decreases |d| - i
  {
    if i < |d| {
      SeekNothing(d, i + 1);
    }
  }

  lemma {:induction false} StandsInPart(d: seq<int>, m: nat, i: nat, next: nat, bs: seq<int>)
    requires StandsAt(d, i, next, bs) && next <= m <= |d|
    ensures StandsAt(d[..m], i, next, bs)
  {
    var c := next - 2 * |bs| - 1;
    forall k: nat | k < |bs| ensures PairStands(d[..m], c + 1 + 2 * k, bs[k]) {
      assert PairStands(d, c + 1 + 2 * k, bs[k]);
    }
  }

  lemma {:induction false} SameLength(d: seq<int>, m: nat, s: nat, wide: bool)
    requires s + 4 <= m <= |d|
    ensures Length(d[..m], s, wide) == Length(d, s, wide)
  {
  }

  lemma {:induction false} LineLength(d: seq<int>, i: nat, next: nat, item: Item, wide: bool)
    requires Good(item, wide) && StandsAt(d, i, next, Full(item, wide))
    ensures var c := next - 2 * |Full(item, wide)| - 1;
            next == c + 1 + 2 * LengthBytes(wide) + 8 + 2 * Length(d, c + 1, wide)
  {
    StandsReads(d, i, next, Full(item, wide));
    LineReads(d, Seek(d, i), item, wide);
  }

  /** A line of which the end is missing is not complete. */
  lemma {:induction false} PartBroken(d: seq<int>, m: nat, i: nat, next: nat, item: Item, wide: bool)
    requires Good(item, wide) && StandsAt(d, i, next, Full(item, wide)) && i <= m < next
    ensures ReadLine(d[..m], i, wide) == Broken
  {
    var c := next - 2 * |Full(item, wide)| - 1;
    LineLength(d, i, next, item, wide);
    if m <= c {
      SeekNothing(d[..m], i);
    } else {
      SeekGap(d[..m], i, c);
      if c + 11 <= m {
        SameLength(d, m, c + 1, wide);
      }
    }
  }

  /** The line that place m lies in. */
  lemma {:induction false} LineOfPlace(at: seq<nat>, m: nat, n: nat) returns (k: nat)
    requires n < |at| && at[0] <= m < at[n]
    ensures k < n && at[k] <= m < at[k + 1]
    decreases n
  {
    if at[n - 1] <= m {
      k := n - 1;
    } else {
      k := LineOfPlace(at, m, n - 1);
    }
  }

  lemma {:induction false} PartStarts(d: seq<int>, items: seq<Item>, at: seq<nat>, wide: bool, m: nat, k: nat)
    requires IsText(d, items, at, wide) && at[0] == 0 && k < |items| && at[k] <= m <= |d|
    ensures IsStart(d[..m], items[..k], at[..k + 1], wide)
  {
    forall j: nat | j < k
      ensures Good(items[j], wide) && !items[j].Eof? && StandsAt(d[..m], at[j], at[j + 1], Full(items[j], wide))
    {
      var stands := StandsAt(d, at[j], at[j + 1], Full(items[j], wide));
      assert stands;
      PlacesGrow(d, items, at, wide, j + 1, k);
      StandsInPart(d, m, at[j], at[j + 1], Full(items[j], wide));
    }
  }

  lemma {:induction false} PlacesGrow(d: seq<int>, items: seq<Item>, at: seq<nat>, wide: bool, j: nat, k: nat)
    requires IsText(d, items, at, wide) && j <= k <= |items|
    ensures at[j] <= at[k]
    decreases k
  {
    if j < k {
      PlacesGrow(d, items, at, wide, j, k - 1);
      var stands := StandsAt(d, at[k - 1], at[k], Full(items[k - 1], wide));
      assert stands;
    }
  }

  /** A text that is cut short anywhere before the end of its last line is refused. */
  lemma {:induction false} CutRefused(d: seq<int>, items: seq<Item>, at: seq<nat>, m: nat, o: Options)
    requires IsText(d, items, at, o.wide) && at[0] == 0 && m < at[|items|]
    ensures m <= |d| && ParseText(d[..m], o) == Bad
  {
    var k := LineOfPlace(at, m, |items|);
    var stands := StandsAt(d, at[k], at[k + 1], Full(items[k], o.wide));
    assert stands;
    PartStarts(d, items, at, o.wide, m, k);
    var base, filed := StartParsed(d[..m], items[..k], at[..k + 1], o);
    PartBroken(d, m, at[k], at[k + 1], items[k], o.wide);
    ParseBad(Reader(d[..m], o.wide), m, at[k], base, filed, o);
  }
}
