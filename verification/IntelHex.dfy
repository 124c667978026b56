/** Intel HEX text, the records it stands for, and the binary form for firmware. */
module IntelHex {

  /** A piece of firmware: bytes at an address. */
  datatype Record = Record(addr: int, data: seq<int>)

  datatype Options = Options(wide: bool, sort: bool, jump: bool, littleEndian: bool)

  datatype Result = Ok(records: seq<Record>) | Bad

  const U32 := 0x1_0000_0000
  const COLON := 58

  // ------------------------------------------------------------- digits

  /** The value of a digit; anything else counts as 0. */
  function Nybble(c: int): int {
    if 48 <= c <= 57 then c - 48
    else if 65 <= c <= 70 then c - 55
    else if 97 <= c <= 102 then c - 87
    else 0
  }

  /** The byte spelled at i. */
  function HexByte(d: seq<int>, i: nat): int {
    if i + 1 < |d| then Nybble(d[i]) * 16 + Nybble(d[i + 1]) else 0
  }

  /** The sum of the k bytes spelled from i on, modulo 256. */
  function Crc(d: seq<int>, i: nat, k: nat): int {
    if k == 0 then 0 else (Crc(d, i, k - 1) + HexByte(d, i + 2 * (k - 1))) % 256
  }

  function HexBytes(d: seq<int>, i: nat, n: nat): seq<int> {
    seq(n, k requires 0 <= k < n => HexByte(d, i + 2 * k))
  }

  // -------------------------------------------------------------- lines

  /** The index after the next colon at or after i, or the end of the text. */
  function Seek(d: seq<int>, i: nat): nat
    decreases |d| - i
  {
    if i >= |d| then i else if d[i] == COLON then i + 1 else Seek(d, i + 1)
  }

  /** The bytes of the length field. */
  function LengthBytes(wide: bool): nat {
    if wide then 2 else 1
  }

  function Length(d: seq<int>, i: nat, wide: bool): int {
    if wide then HexByte(d, i) * 256 + HexByte(d, i + 2) else HexByte(d, i)
  }

  lemma {:induction false} HexByteRange(d: seq<int>, i: nat)
    ensures 0 <= HexByte(d, i) < 256
  {
  }

  lemma {:induction false} LengthRange(d: seq<int>, i: nat, wide: bool)
    ensures 0 <= Length(d, i, wide) < 65536
  {
    HexByteRange(d, i);
    HexByteRange(d, i + 2);
  }

  /** A line after its colon: where its fields are and what they hold. */
  datatype Line = Line(len: nat, addr: int, kind: int, data: seq<int>, crc: int, next: nat)

  function LineAt(d: seq<int>, i: nat, wide: bool): Line {
    LengthRange(d, i, wide);
    var len, a := Length(d, i, wide), i + 2 * LengthBytes(wide);
    Line(len, HexByte(d, a) * 256 + HexByte(d, a + 2), HexByte(d, a + 4), HexBytes(d, a + 6, len),
         Crc(d, i, LengthBytes(wide) + 4 + len), a + 8 + 2 * len)
  }

  /** Whether all of the line lies in the text. */
  predicate Complete(d: seq<int>, i: nat, wide: bool) {
    i + 10 <= |d| && i + 2 * LengthBytes(wide) + 8 + 2 * Length(d, i, wide) <= |d|
  }

  // ------------------------------------------------------------ the text

  datatype Effect = Stop | Fail | File(record: Record) | Base(offset: int) | Skip

  /** The four bytes of a start address after they went through a host word. */
  function Swapped(bytes: seq<int>, littleEndian: bool): seq<int>
    requires |bytes| == 4
  {
    if littleEndian then [bytes[3], bytes[2], bytes[1], bytes[0]] else bytes
  }

  /** Four bytes as a word of a host. */
  function HostWord(bytes: seq<int>, littleEndian: bool): int
    requires |bytes| == 4
  {
    if littleEndian then bytes[0] + 256 * bytes[1] + 65536 * bytes[2] + 16777216 * bytes[3]
    else 16777216 * bytes[0] + 65536 * bytes[1] + 256 * bytes[2] + bytes[3]
  }

  /** On either kind of host, the bytes stored for a start address are the word that the
      line spells. */
  lemma {:induction false} SwappedMeans(bytes: seq<int>, littleEndian: bool)
    requires |bytes| == 4
    ensures HostWord(Swapped(bytes, littleEndian), littleEndian)
         == ((bytes[0] * 256 + bytes[1]) * 256 + bytes[2]) * 256 + bytes[3]
  {
  }

  /** What a complete line with a good checksum asks for. */
  function EffectOf(line: Line, offset: int, o: Options): Effect {
    if line.kind == 0 then (if line.len == 0 then Stop else File(Record((line.addr + offset) % U32, line.data)))
    else if line.kind == 1 then (if line.addr != 0 || line.len != 0 then Fail else Stop)
    else if line.kind == 2 || line.kind == 4 then
      (if line.addr != 0 || line.len != 2 || |line.data| != 2 then Fail
       else Base((line.data[0] * 256 + line.data[1]) * (if line.kind == 2 then 16 else 65536) % U32))
    else if line.kind == 3 || line.kind == 5 then
      (if line.addr != 0 || line.len != 4 || |line.data| != 4 then Fail
       else if o.jump then File(Record(0, Swapped(line.data, o.littleEndian))) else Skip)
    else Fail
  }

  lemma {:induction false} SeekBound(d: seq<int>, i: nat)
    ensures i <= Seek(d, i) && (i <= |d| ==> Seek(d, i) <= |d|)
    decreases |d| - i
  {
    if i < |d| && d[i] != COLON {
      SeekBound(d, i + 1);
    }
  }

  /** What is found from a place on: a line with a good checksum, or none. */
  datatype Reading = Broken | Found(line: Line)

  function ReadLine(d: seq<int>, i: nat, wide: bool): Reading {
    var s := Seek(d, i);
    if !Complete(d, s, wide) then Broken
    else
      var line := LineAt(d, s, wide);
      if line.crc != 0 then Broken else Found(line)
  }

  function Reader(d: seq<int>, wide: bool): nat -> Reading {
    (i: nat) => ReadLine(d, i, wide)
  }

  /** Reading goes on, and not beyond the text. */
  lemma {:induction false} ReaderAdvances(d: seq<int>, wide: bool, i: nat)
    ensures Reader(d, wide)(i).Found? ==> i < Reader(d, wide)(i).line.next <= |d|
  {
    SeekBound(d, i);
    LengthRange(d, Seek(d, i), wide);
  }

  /** The records of a text of size characters from i on, after those already filed. */
  function Parse(read: nat -> Reading, size: nat, i: nat, offset: int, filed: seq<Record>, o: Options): Result
    decreases size - i
  {
    match read(i)
    case Broken => Bad
    case Found(line) =>
      if !(i < line.next <= size) then Bad
      else match EffectOf(line, offset, o)
        case Stop => Ok(filed)
        case Fail => Bad
        case File(r) => Parse(read, size, line.next, offset, filed + [r], o)
        case Base(b) => Parse(read, size, line.next, b, filed, o)
        case Skip => Parse(read, size, line.next, offset, filed, o)
  }

  function ParseText(d: seq<int>, o: Options): Result {
    Parse(Reader(d, o.wide), |d|, 0, 0, [], o)
  }
}
