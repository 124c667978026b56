/** The converter: it reads a text record by record, files the records and writes them. */
module Ihex2fw {
  import opened Basics
  import opened IntelHex
  import opened Firmware
  import opened HexText
  import opened HexAddresses
  import opened HexRender

  const EINVAL := 22

  class Converter {
    const options: Options
    /** The list of records. */
    var records: seq<Record>

    constructor (o: Options)
      ensures options == o && records == []
    {
      options, records := o, [];
    }

    /** Puts a record into the list. */
    method FileRecord(record: Record)
      modifies this
      ensures records == Filed(old(records), record, options.sort)
    {
      var p := 0;
      while p < |records| && (!options.sort || records[p].addr < record.addr)
        invariant p <= |records| == |old(records)| && records == old(records)
        invariant Place(records, record, options.sort, 0) == Place(records, record, options.sort, p)
      {
        p := p + 1;
      }
      PlaceBound(records, record, options.sort, 0);
      records := records[..p] + [record] + records[p..];
    }

    /** Does what a line asks for: says whether to go on and from which offset. */
    method Obey(line: Line, offset: int) returns (r: int, more: bool, offset': int)
      modifies this
      ensures var e := EffectOf(line, offset, options);
              && (r == if e.Fail? then -EINVAL else 0) && (more <==> !e.Fail? && !e.Stop?)
              && offset' == (if e.Base? then e.offset else offset)
              && records == Extended(old(records), e, options.sort)
    {
      r, more, offset' := 0, true, offset;
      if line.kind == 0 {
        if line.len == 0 {
          return 0, false, offset;
        }
        FileRecord(Record((line.addr + offset) % U32, line.data));
      } else if line.kind == 1 {
        if line.addr != 0 || line.len != 0 {
          return -EINVAL, false, offset;
        }
        return 0, false, offset;
      } else if line.kind == 2 || line.kind == 4 {
        if line.addr != 0 || line.len != 2 || |line.data| != 2 {
          return -EINVAL, false, offset;
        }
        offset' := line.data[0] * 256 + line.data[1];
        offset' := (if line.kind == 2 then offset' * 16 else offset' * 65536) % U32;
      } else if line.kind == 3 || line.kind == 5 {
        if line.addr != 0 || line.len != 4 || |line.data| != 4 {
          return -EINVAL, false, offset;
        }
        var data := Swapped(line.data, options.littleEndian);
        if options.jump {
          FileRecord(Record(line.addr, data));
        }
      } else {
        return -EINVAL, false, offset;
      }
    }

    /** Reads the whole text and files its records. */
    method ProcessIhex(d: array<int>) returns (r: int)
      requires records == []
      modifies this
      ensures match ParseText(d[..], options)
              case Ok(rs) => r == 0 && records == FiledAll(rs, options.sort, |rs|)
              case Bad => r == -EINVAL
    {
      var i, offset, crc := 0, 0, 0;
      ghost var text := d[..];
      ghost var read, result, filed := Reader(text, options.wide), ParseText(text, options), [];
      while true
        invariant i <= d.Length && crc == 0 && d[..] == text && records == FiledAll(filed, options.sort, |filed|)
        invariant Parse(read, d.Length, i, offset, filed, options) == result
        decreases d.Length - i
      {
        var found, line, more;
        found, line, crc := NextLine(d, i, options.wide, crc);
        if !found {
          return -EINVAL;
        }
        ghost var e := EffectOf(line, offset, options);
        ParseStep(read, d.Length, i, offset, filed, options, line);
        r, more, offset := Obey(line, offset);
        if !more {
          return r;
        }
        ExtendedFiled(filed, e, options.sort);
        filed := Noted(filed, e);
        i := line.next;
      }
    }

    /** Writes the list as a stream. */
    method OutputRecords() returns (out: seq<int>)
      ensures out == Stream(records)
    {
      out := [];
      for p := 0 to |records|
        invariant out == Flat(Chunks(records), p)
      {
        NextChunk(records, p);
        var bytes := WriteRecord(records[p]);
        out := out + bytes;
      }
      out := out + Zeroes(6);
    }
  }

  /** The list of records after the effect of a line. */
  function Extended(list: seq<Record>, e: Effect, sort: bool): seq<Record> {
    if e.File? then Filed(list, e.record, sort) else list
  }

  /** The records so far, in file order, after the effect of a line. */
  function Noted(filed: seq<Record>, e: Effect): seq<Record> {
    if e.File? then filed + [e.record] else filed
  }

  lemma {:induction false} ExtendedFiled(filed: seq<Record>, e: Effect, sort: bool)
    ensures FiledAll(Noted(filed, e), sort, |Noted(filed, e)|) == Extended(FiledAll(filed, sort, |filed|), e, sort)
  {
    if e.File? {
      FiledMore(filed, e.record, sort);
    }
  }

  /** The bytes written for a record. */
  method WriteRecord(r: Record) returns (bytes: seq<int>)
    ensures bytes == Stored(r)
  {
    var writelen := WriteLength(|r.data|);
    bytes := Image(r)[..writelen];
  }

  /** One line of the parser. */
  lemma {:induction false} ParseStep(read: nat -> Reading, size: nat, i: nat, offset: int, filed: seq<Record>,
                                     o: Options, line: Line)
    requires read(i) == Found(line) && i < line.next <= size
    ensures var e, result := EffectOf(line, offset, o), Parse(read, size, i, offset, filed, o);
            if e.Stop? then result == Ok(filed)
            else if e.Fail? then result == Bad
            else result == Parse(read, size, line.next, if e.Base? then e.offset else offset, Noted(filed, e), o)
  {
  }

  /** Reads byte k of the line at s and adds it to the checksum. */
  method Hex(d: array<int>, s: nat, k: nat, crc: int) returns (val: int, crc': int)
    requires s + 2 * k + 1 < d.Length && crc == Crc(d[..], s, k)
    ensures val == HexByte(d[..], s + 2 * k) && crc' == Crc(d[..], s, k + 1)
  {
    var hi, lo := Nybble(d[s + 2 * k]), Nybble(d[s + 2 * k + 1]);
    val := hi * 16 + lo;
    crc' := (crc + val) % 256;
  }

  /** Finds the start of the next line. */
  method FindColon(d: array<int>, i: nat) returns (s: nat)
    requires i <= d.Length
    ensures s == Seek(d[..], i) && i <= s <= d.Length
  {
    s := i;
    while s < d.Length
      invariant i <= s <= d.Length && Seek(d[..], s) == Seek(d[..], i)
    {
      s := s + 1;
      if d[s - 1] == COLON {
        break;
      }
    }
    SeekBound(d[..], i);
  }

  lemma {:induction false} BytesGrow(d: seq<int>, i: nat, j: nat)
    ensures HexBytes(d, i, j) + [HexByte(d, i + 2 * j)] == HexBytes(d, i, j + 1)
  {
  }

  /** Reads n data bytes, of which the first is byte k of the line at s. */
  method ReadData(d: array<int>, s: nat, k: nat, n: nat, crc: int) returns (data: seq<int>, crc': int)
    requires s + 2 * k + 2 * n <= d.Length && crc == Crc(d[..], s, k)
    ensures data == HexBytes(d[..], s + 2 * k, n) && crc' == Crc(d[..], s, k + n)
  {
    data, crc' := [], crc;
    for j := 0 to n
      invariant data == HexBytes(d[..], s + 2 * k, j) && crc' == Crc(d[..], s, k + j)
    {
      var val;
      BytesGrow(d[..], s + 2 * k, j);
      val, crc' := Hex(d, s, k + j, crc');
      data := data + [val];
    }
  }

  /** Reads the length field. */
  method ReadLength(d: array<int>, s: nat, wide: bool, crc: int) returns (len: nat, crc': int)
    requires s + 10 <= d.Length && crc == 0
    ensures len == Length(d[..], s, wide) && crc' == Crc(d[..], s, LengthBytes(wide))
  {
    HexByteRange(d[..], s);
    HexByteRange(d[..], s + 2);
    var hi, lo;
    hi, crc' := Hex(d, s, 0, crc);
    len := hi;
    if wide {
      lo, crc' := Hex(d, s, 1, crc');
      len := len * 256 + lo;
    }
  }

  /** Reads the address and the kind, from byte h of the line at s on. */
  method ReadHead(d: array<int>, s: nat, h: nat, crc: int) returns (addr: int, kind: int, crc': int)
    requires s + 2 * h + 6 <= d.Length && crc == Crc(d[..], s, h)
    ensures addr == HexByte(d[..], s + 2 * h) * 256 + HexByte(d[..], s + 2 * h + 2)
    ensures kind == HexByte(d[..], s + 2 * h + 4) && crc' == Crc(d[..], s, h + 3)
  {
    var hi, lo;
    hi, crc' := Hex(d, s, h, crc);
    lo, crc' := Hex(d, s, h + 1, crc');
    addr := hi * 256 + lo;
    kind, crc' := Hex(d, s, h + 2, crc');
  }

  /** Reads a line after its colon. The checksum is 0 before it, and what it is after it
      tells whether the line is good. */
  method ReadRecord(d: array<int>, s: nat, wide: bool, crc: int) returns (ok: bool, line: Line, crc': int)
    requires s <= d.Length && crc == 0
    ensures ok <==> Complete(d[..], s, wide)
    ensures ok ==> line == LineAt(d[..], s, wide) && crc' == line.crc
  {
    line, crc' := Line(0, 0, 0, [], 0, 0), crc;
    if s + 10 > d.Length {
      return false, line, crc';
    }
    var len;
    len, crc' := ReadLength(d, s, wide, crc');
    var h := LengthBytes(wide);
    if s + 2 * h + 8 + len * 2 > d.Length {
      return false, line, crc';
    }
    var addr, kind, data, crcbyte;
    addr, kind, crc' := ReadHead(d, s, h, crc');
    data, crc' := ReadData(d, s, h + 3, len, crc');
    crcbyte, crc' := Hex(d, s, h + 3 + len, crc');
    return true, Line(len, addr, kind, data, crc', s + 2 * h + 8 + 2 * len), crc';
  }

  /** Finds and reads the next line; the checksum is 0 again after a good one. */
  method NextLine(d: array<int>, i: nat, wide: bool, crc: int) returns (found: bool, line: Line, crc': int)
    requires i <= d.Length && crc == 0
    ensures var reading := Reader(d[..], wide)(i);
            if found then reading == Found(line) && crc' == 0 && i < line.next <= d.Length else reading == Broken
  {
    var s := FindColon(d, i);
    found, line, crc' := ReadRecord(d, s, wide, crc);
    if crc' != 0 {
      found := false;
    }
    ReaderAdvances(d[..], wide, i);
  }

  // ------------------------------------------------------- end to end

  ghost predicate AllStorable(rs: seq<Record>) {
    forall j :: 0 <= j < |rs| ==> Storable(rs[j])
  }

  ghost predicate Short(item: Item) {
    item.Data? ==> |item.bytes| <= 65526
  }

  lemma {:induction false} LoadStorable(items: seq<Item>, k: nat, base: int, filed: seq<Record>, o: Options)
    requires AllStorable(filed) && 0 <= base <= 65535 * 65536
    requires forall j :: 0 <= j < |items| ==> Good(items[j], o.wide) && Short(items[j])
    ensures AllStorable(Load(items, k, base, filed, o))
    decreases |items| - k
  {
    if k < |items| {
      LoadStorable(items, k + 1, BaseAfter(items[k], base, o), FiledAfter(items[k], base, filed, o), o);
    }
  }

  lemma {:induction false} FiledStorable(rs: seq<Record>, sort: bool, k: nat)
    requires AllStorable(rs) && k <= |rs|
    ensures AllStorable(FiledAll(rs, sort, k))
    decreases k
  {
    if k > 0 {
      FiledStorable(rs, sort, k - 1);
      PlaceBound(FiledAll(rs, sort, k - 1), rs[k - 1], sort, 0);
    }
  }

  /** Writing a file as text, converting it and reading the stream back gives its records
      at their absolute addresses: in file order, or sorted by address on request. */
  lemma {:induction false} ConversionRoundTrip(lines: seq<seq<int>>, gaps: seq<nat>, items: seq<Item>, tail: seq<int>,
                                               o: Options)
    requires IsFile(items, o.wide) && |lines| == |gaps| == |items|
    requires forall j :: 0 <= j < |items| ==> LineFor(lines[j], gaps[j], items[j], o.wide) && Short(items[j])
    ensures var rs := Load(items, 0, 0, [], o);
            var list := FiledAll(rs, o.sort, |rs|);
            && ParseText(Flat(lines, |lines|) + tail, o) == Ok(rs)
            && Decode(Stream(list)) == Some(list)
            && (if o.sort then Sorted(list) && multiset(list) == multiset(rs) else list == rs)
  {
    var rs := Load(items, 0, 0, [], o);
    TextParses(lines, gaps, items, tail, o);
    LoadStorable(items, 0, 0, [], o);
    ListReadsBack(rs, o.sort);
  }

  lemma {:induction false} ListReadsBack(rs: seq<Record>, sort: bool)
    requires AllStorable(rs)
    ensures var list := FiledAll(rs, sort, |rs|);
            && Decode(Stream(list)) == Some(list)
            && (if sort then Sorted(list) && multiset(list) == multiset(rs) else list == rs)
  {
    var list := FiledAll(rs, sort, |rs|);
    FiledStorable(rs, sort, |rs|);
    DecodeStream(list);
    assert rs[..|rs|] == rs;
    if sort {
      FiledPermutation(rs, |rs|);
    } else {
      FiledInOrder(rs, |rs|);
    }
  }

  /** The base addresses a file may be taken to start with. */
  predicate StartBase(b: Base) {
    b == SegmentBase(0) || b == LinearBase(0)
  }

  /** The bytes that come out lie where the format has them if and only if no data line
      runs over the end of its segment or of the linear space; without sorting they also
      come out in file order. */
  lemma {:induction false} ConversionMeetsFormat(items: seq<Item>, b: Base, o: Options)
    requires IsFile(items, o.wide) && StartBase(b)
    ensures var rs, meant := Load(items, 0, 0, [], o), Specified(items, 0, b, o);
            var list := FiledAll(rs, o.sort, |rs|);
            && (multiset(Cells(list)) == multiset(meant) <==> AllWithin(items, 0, b))
            && (!o.sort ==> (Cells(list) == meant <==> AllWithin(items, 0, b)))
  {
    var rs := Load(items, 0, 0, [], o);
    LoadIsLoaded(items, 0, 0, [], o);
    assert [] + Loaded(items, 0, 0, o) == Loaded(items, 0, 0, o);
    FiledSame(rs, o.sort);
    PermutedAsSpecified(items, b, o, FiledAll(rs, o.sort, |rs|));
    LoadedAsSpecified(items, 0, b, o);
  }

  lemma {:induction false} FiledSame(rs: seq<Record>, sort: bool)
    ensures multiset(FiledAll(rs, sort, |rs|)) == multiset(rs) && (!sort ==> FiledAll(rs, sort, |rs|) == rs)
  {
    assert rs[..|rs|] == rs;
    if sort {
      FiledPermutation(rs, |rs|);
    } else {
      FiledInOrder(rs, |rs|);
    }
  }

  /** Writing any records as text, converting it and reading the stream back gives these
      records: in order, or sorted by address on request. */
  lemma {:induction false} RecordsRoundTrip(rs: seq<Record>, tail: seq<int>, o: Options)
    requires Writable(rs, o.wide)
    ensures var list := FiledAll(rs, o.sort, |rs|);
            && ParseText(Render(rs, o.wide) + tail, o) == Ok(rs)
            && Decode(Stream(list)) == Some(list)
            && (if o.sort then Sorted(list) && multiset(list) == multiset(rs) else list == rs)
  {
    RenderParses(rs, tail, o);
    ListReadsBack(rs, o.sort);
  }
}
