/** The audio DMA program of the Bt87x: a compiler from a period layout to a cyclic
    list of RISC instructions, an interpreter for such lists, and the interrupt
    handler that recovers the current line from four status bits. */
module Bt87x {
  import opened Basics
  import opened Arithmetic
  import opened Bits

  const PAGE_SIZE := 4096

  const SYNC_FM1 := 6
  const SYNC_VRO := 12

  /** Room for SYNC, one WRITE per line, one more per page boundary, SYNC and JUMP. */
  const MAX_RISC_SIZE := (1 + 255 + ((255 * 4092 + PAGE_SIZE - 1) / PAGE_SIZE - 1) + 1 + 1) * 8

  // ----------------------------------------------------- the instructions

  /** What the driver wants an instruction to do. A WRITE takes len bytes to the
      buffer at offset; first and last say where in its line it stands. */
  datatype Op =
    | Sync(code: nat)
    | Write(offset: nat, len: nat, first: bool, last: bool, block: nat)
    | Jump

  /** The bus address of a buffer offset; pages need not be adjacent. */
  function BusAddress(page: nat -> nat, offset: nat): nat {
    page(offset / PAGE_SIZE) + offset % PAGE_SIZE
  }

  /** The command word of an instruction, assembled as the driver does it. */
  function Command(op: Op): Word {
    match op
    case Sync(code) => {31} + Put(code, 0, 32)
    case Write(_, len, first, last, block) =>
      var cmd := {28} + Put(len, 0, 32);
      var cmd1 := if first then cmd + {27} + Put(block, 16, 16) + Put(15 - block % 16, 20, 12) else cmd;
      if last then cmd1 + {26, 24} else cmd1
    case Jump => {28, 29, 30}
  }

  /** The argument word of an instruction. */
  function Argument(page: nat -> nat, base: nat, op: Op): nat {
    match op
    case Sync(_) => 0
    case Write(offset, _, _, _, _) => BusAddress(page, offset)
    case Jump => base
  }

  // -------------------------------------------------------- the interpreter

  datatype Event = LineStart | Byte(address: nat) | LineEnd | Interrupt(status: nat) | Synced(code: nat)

  /** The DMA controller: where it fetches, its four status bits and what it has done. */
  datatype Machine = Machine(pc: nat, status: Word, log: seq<Event>)

  /** The status bits after those in bits 20 to 23 of w are cleared and those in bits
      16 to 19 are set. */
  function NewStatus(status: Word, w: Word): Word {
    set k: nat | k < 4 && (16 + k in w || (k in status && 20 + k !in w))
  }

  function Transfer(address: nat, len: nat): seq<Event> {
    seq(len, j requires 0 <= j < len => Byte(address + j))
  }

  /** The log after a WRITE with these command bits. */
  function Written(log: seq<Event>, address: nat, len: nat, sol: bool, eol: bool, irq: bool, status: nat): seq<Event> {
    var log1 := (if sol then log + [LineStart] else log) + Transfer(address, len);
    var log2 := if eol then log1 + [LineEnd] else log1;
    if irq then log2 + [Interrupt(status)] else log2
  }

  /** One instruction of a program: a command word and an argument. */
  datatype Instr = Instr(command: Word, argument: nat)

  function Execute(i: Instr, m: Machine): Machine {
    var w, opcode := i.command, Field(i.command, 28, 4);
    if opcode == 8 then Machine(m.pc + 8, m.status, m.log + [Synced(Field(w, 0, 4))])
    else if opcode == 7 then m.(pc := i.argument)
    else if opcode == 1 then
      var status := NewStatus(m.status, w);
      Machine(m.pc + 8, status,
              Written(m.log, i.argument, Field(w, 0, 12), 27 in w, 26 in w, 24 in w, Field(status, 0, 4)))
    else m
  }

  /** Executes n instructions of the program that lies at base. */
  function Run(code: seq<Instr>, base: nat, m: Machine, n: nat): Machine
    decreases n
  {
    if n == 0 || m.pc < base || (m.pc - base) / 8 >= |code| then m
    else Run(code, base, Execute(code[(m.pc - base) / 8], m), n - 1)
  }

  // ------------------------------------------------------- the compiler

  function Min(a: nat, b: nat): nat {
    if a < b then a else b
  }

  /** The bytes one WRITE transfers: up to the next page boundary or the end of the line. */
  function Chunk(offset: nat, rest: nat): nat {
    Min(PAGE_SIZE - offset % PAGE_SIZE, rest)
  }

  /** The status block reported for line i. */
  function Block(i: nat, lines: nat): nat {
    if lines == 0 then 0 else i * 16 / lines
  }

  function BlockOf(lines: nat): nat -> nat {
    i => Block(i, lines)
  }

  lemma {:induction false} BlockBound(i: nat, lines: nat)
    requires i < lines
    ensures Block(i, lines) < 16
  {
  }

  /** The instructions for the last rest bytes of a line, which start at offset. */
  function LineOps(lineBytes: nat, block: nat, offset: nat, rest: nat): seq<Op>
    decreases rest
  {
    var len := Chunk(offset, rest);
    var write := Write(offset, len, rest == lineBytes, len == rest, block);
    if rest <= len then [write] else [write] + LineOps(lineBytes, block, offset + len, rest - len)
  }

  /** The instructions for lines i and later, which start at offset. */
  function LinesOps(block: nat -> nat, lines: nat, lineBytes: nat, i: nat, offset: nat): seq<Op>
    decreases lines - i
  {
    if i >= lines then []
    else LineOps(lineBytes, block(i), offset, lineBytes) + LinesOps(block, lines, lineBytes, i + 1, offset + lineBytes)
  }

  /** The whole program. */
  function Program(lines: nat, lineBytes: nat): seq<Op> {
    [Sync(SYNC_FM1)] + LinesOps(BlockOf(lines), lines, lineBytes, 0, 0) + [Sync(SYNC_VRO), Jump]
  }

  function Encode(page: nat -> nat, base: nat, op: Op): Instr {
    Instr(Command(op), Argument(page, base, op))
  }

  // ------------------------------------------------------------ its size

  /** The number of pages that rest bytes from offset touch. */
  function PagesTouched(offset: nat, rest: nat): nat
    requires rest > 0
  {
    (offset + rest - 1) / PAGE_SIZE - offset / PAGE_SIZE + 1
  }

  /** A line takes one WRITE per page it touches. */
  lemma {:induction false} LineSize(lineBytes: nat, block: nat, offset: nat, rest: nat)
    requires rest > 0
    ensures |LineOps(lineBytes, block, offset, rest)| == PagesTouched(offset, rest)
    decreases rest
  {
    var len := Chunk(offset, rest);
    if rest > len {
      LineSize(lineBytes, block, offset + len, rest - len);
    }
  }

  /** n lines take one WRITE each and at most one more per page boundary before their end. */
  lemma {:induction false} LinesSize(block: nat -> nat, lines: nat, lineBytes: nat, i: nat, offset: nat, n: nat)
    requires i + n == lines && n > 0 && lineBytes > 0
    ensures |LinesOps(block, lines, lineBytes, i, offset)|
         <= n + (offset + n * lineBytes - 1) / PAGE_SIZE - offset / PAGE_SIZE
    decreases n
  {
    LineSize(lineBytes, block(i), offset, lineBytes);
    OneLess(n, lineBytes);
    if n > 1 {
      LinesSize(block, lines, lineBytes, i + 1, offset + lineBytes, n - 1);
    }
  }

  /** Every program for at most 255 periods of at most 4092 bytes fits the buffer. */
  lemma {:induction false} ProgramFits(lines: nat, lineBytes: nat)
    requires 0 < lines <= 255 && 0 < lineBytes <= 4092
    ensures 8 * |Program(lines, lineBytes)| <= MAX_RISC_SIZE
  {
    var block := BlockOf(lines);
    LinesSize(block, lines, lineBytes, 0, 0, lines);
    BufferBound(lines, lineBytes);
    FewEnough(|LinesOps(block, lines, lineBytes, 0, 0)|, lines, lines * lineBytes);
  }

  /** The bound is reached: every line of the largest buffer but the first starts in the
      middle of a page and ends in the next one. */
  lemma {:induction false} LargestFills(lines: nat, lineBytes: nat)
    requires lines == 255 && lineBytes == 4092
    ensures 8 * |Program(lines, lineBytes)| == MAX_RISC_SIZE == 4096
  {
    var size := ProgramSize(lines, lineBytes);
    LargestLines(BlockOf(lines), lines, lineBytes, 0, 0);
  }

  lemma {:induction false} ProgramSize(lines: nat, lineBytes: nat) returns (size: nat)
    ensures size == |Program(lines, lineBytes)| == 3 + |LinesOps(BlockOf(lines), lines, lineBytes, 0, 0)|
  {
    size := |Program(lines, lineBytes)|;
  }

  lemma {:induction false} LargestLines(block: nat -> nat, lines: nat, lineBytes: nat, i: nat, offset: nat)
    requires i <= lines == 255 && lineBytes == 4092 && offset == 4092 * i
    ensures |LinesOps(block, lines, lineBytes, i, offset)| == if i == 0 then 509 else 2 * (255 - i)
    decreases lines - i
  {
    if i < lines {
      LineSize(lineBytes, block(i), offset, lineBytes);
      LargestPages(i, offset);
      LargestLines(block, lines, lineBytes, i + 1, offset + lineBytes);
    }
  }

  lemma {:induction false} LargestPages(i: nat, offset: nat)
    requires i < 255 && offset == 4092 * i
    ensures PagesTouched(offset, 4092) == if i == 0 then 1 else 2
  {
    if i > 0 {
      assert offset / PAGE_SIZE == i - 1 by {
        assert offset == PAGE_SIZE * (i - 1) + (PAGE_SIZE - 4 * i);
      }
      assert (offset + 4091) / PAGE_SIZE == i by {
        assert offset + 4091 == PAGE_SIZE * i + (4091 - 4 * i);
      }
    }
  }

  lemma {:induction false} FewEnough(n: nat, lines: nat, total: nat)
    requires lines <= 255 && 0 < total <= 255 * 4092 && n <= lines + (total - 1) / PAGE_SIZE
    ensures 8 * (1 + n + 2) <= MAX_RISC_SIZE
  {
  }

  lemma {:induction false} BufferBound(lines: nat, lineBytes: nat)
    requires 0 < lines <= 255 && 0 < lineBytes <= 4092
    ensures 0 < lines * lineBytes <= 255 * 4092
  {
    MulLe(lines, 255, lineBytes);
    MulLe(1, lines, lineBytes);
  }

  // -------------------------------------------- what the words mean

  lemma {:induction false} Powers()
    ensures Pow2(2) == 4 && Pow2(4) == 16 && Pow2(12) == 4096
  {
    assert Pow2(8) == 256;
  }

  /** Bit j of the command word of a WRITE. */
  predicate WriteBit(len: nat, first: bool, last: bool, block: nat, j: nat) {
    || j == 28 || (j < 12 && Bit(len, j))
    || (first && (j == 27 || (16 <= j < 20 && Bit(block, j - 16)) || (20 <= j < 24 && Bit(15 - block % 16, j - 20))))
    || (last && (j == 26 || j == 24))
  }

  /** A number of width bits, put at lo, touches no bit beyond lo + width. */
  lemma {:induction false} PutBit(n: nat, lo: nat, room: nat, width: nat, j: nat)
    requires n < Pow2(width) && width <= room && j < lo + room
    ensures j in Put(n, lo, room) <==> lo <= j < lo + width && Bit(n, j - lo)
  {
    if lo + width <= j { NoHighBit(n, width, j - lo); }
    assert j in Put(n, lo, room) <==> ShiftedBit(n, lo, j);
  }

  lemma {:induction false} WriteBits(offset: nat, len: nat, first: bool, last: bool, block: nat, j: nat)
    requires len < 4096 && block < 16 && j < 32
    ensures j in Command(Write(offset, len, first, last, block)) <==> WriteBit(len, first, last, block, j)
  {
    Powers();
    PutBit(len, 0, 32, 12, j);
    PutBit(block, 16, 16, 4, j);
    PutBit(15 - block, 20, 12, 4, j);
    var cmd := {28} + Put(len, 0, 32);
    assert j in cmd <==> j == 28 || (j < 12 && Bit(len, j));
    var cmd1 := cmd + {27} + Put(block, 16, 16) + Put(15 - block, 20, 12);
    assert j in cmd1 <==> j in cmd || j == 27 || j in Put(block, 16, 16) || j in Put(15 - block, 20, 12);
  }

  /** A command word that sets the status bits of block and clears the others. */
  ghost predicate Reports(w: Word, block: nat) {
    block < 16 && forall k: nat :: k < 4 ==> (16 + k in w <==> Bit(block, k)) && (20 + k in w <==> Bit(15 - block, k))
  }

  /** A command word that leaves the status bits alone. */
  ghost predicate Silent(w: Word) {
    w !! {16, 17, 18, 19, 20, 21, 22, 23}
  }

  /** The fields of a command word, read back, are those of op. */
  ghost predicate Decodes(w: Word, len: nat, first: bool, last: bool, block: nat) {
    && Field(w, 28, 4) == 1 && Field(w, 0, 12) == len
    && (27 in w <==> first) && (26 in w <==> last) && (24 in w <==> last)
    && (if first then Reports(w, block) else Silent(w))
  }

  /** Fields that do not overlap can be read back. */
  lemma {:induction false} BitsDecode(w: Word, len: nat, first: bool, last: bool, block: nat)
    requires len < 4096 && block < 16
    requires forall j: nat :: j < 32 ==> (j in w <==> WriteBit(len, first, last, block, j))
    ensures Decodes(w, len, first, last, block)
  {
    assert Field(w, 0, 12) == len by { LengthDecodes(w, len, first, last, block); }
    assert Field(w, 28, 4) == 1 by { OpcodeField(w, 1); }
    if first {
      BlockDecodes(w, len, last, block);
    }
  }

  lemma {:induction false} LengthDecodes(w: Word, len: nat, first: bool, last: bool, block: nat)
    requires len < 4096 && forall j: nat :: j < 32 ==> (j in w <==> WriteBit(len, first, last, block, j))
    ensures Field(w, 0, 12) == len
  {
    Powers();
    FieldHolds(w, 0, 12, len);
  }

  lemma {:induction false} BlockDecodes(w: Word, len: nat, last: bool, block: nat)
    requires block < 16 && forall j: nat :: j < 32 ==> (j in w <==> WriteBit(len, true, last, block, j))
    ensures Reports(w, block)
  {
    forall k: nat | k < 4 ensures (16 + k in w <==> Bit(block, k)) && (20 + k in w <==> Bit(15 - block, k)) {
      assert 16 + k in w <==> WriteBit(len, true, last, block, 16 + k);
      assert 20 + k in w <==> WriteBit(len, true, last, block, 20 + k);
    }
  }

  lemma {:induction false} WriteDecodes(offset: nat, len: nat, first: bool, last: bool, block: nat)
    requires len < 4096 && block < 16
    ensures Decodes(Command(Write(offset, len, first, last, block)), len, first, last, block)
  {
    var w := Command(Write(offset, len, first, last, block));
    forall j: nat | j < 32 ensures j in w <==> WriteBit(len, first, last, block, j) {
      WriteBits(offset, len, first, last, block, j);
    }
    BitsDecode(w, len, first, last, block);
  }

  lemma {:induction false} OpcodeField(w: Word, n: nat)
    requires n < 16
    requires (28 in w <==> Bit(n, 0)) && (29 in w <==> Bit(n, 1))
    requires (30 in w <==> Bit(n, 2)) && (31 in w <==> Bit(n, 3))
    ensures Field(w, 28, 4) == n
  {
    Powers();
    FieldHolds(w, 28, 4, n);
  }

  /** Setting the bits of block and clearing the others leaves block in the status. */
  lemma {:induction false} StatusSet(status: Word, w: Word, block: nat)
    requires Reports(w, block)
    ensures Field(NewStatus(status, w), 0, 4) == block
  {
    Powers();
    forall k: nat | k < 4 ensures 0 + k in NewStatus(status, w) <==> Bit(block, k) {
      assert (16 + k in w <==> Bit(block, k)) && (20 + k in w <==> Bit(15 - block, k));
      Complement(block, 4, k);
    }
    FieldHolds(NewStatus(status, w), 0, 4, block);
  }

  lemma {:induction false} StatusKept(status: Word, w: Word)
    requires Silent(w)
    ensures Field(NewStatus(status, w), 0, 4) == Field(status, 0, 4)
  {
    var s := NewStatus(status, w);
    assert 16 !in w && 17 !in w && 18 !in w && 19 !in w && 20 !in w && 21 !in w && 22 !in w && 23 !in w;
    assert (0 in s <==> 0 in status) && (1 in s <==> 1 in status);
    assert (2 in s <==> 2 in status) && (3 in s <==> 3 in status);
  }

  lemma {:induction false} Complement(n: nat, width: nat, k: nat)
    requires n < Pow2(width) && k < width
    ensures Bit(Pow2(width) - 1 - n, k) <==> !Bit(n, k)
    decreases k
  {
    if k > 0 { Complement(n / 2, width - 1, k - 1); }
  }

  // ------------------------------------------------- running the program

  /** Buffer byte j from offset on. */
  function BufferByte(page: nat -> nat, offset: nat, j: nat): Event {
    Byte(BusAddress(page, offset + j))
  }

  /** The n buffer bytes from offset on, in order. */
  function BufferBytes(page: nat -> nat, offset: nat, n: nat): seq<Event> {
    seq(n, j requires 0 <= j < n => BufferByte(page, offset, j))
  }

  lemma {:induction false} SamePage(page: nat -> nat, offset: nat, j: nat)
    requires offset % PAGE_SIZE + j < PAGE_SIZE
    ensures BufferByte(page, offset, j) == Byte(BusAddress(page, offset) + j)
  {
    assert (offset + j) / PAGE_SIZE == offset / PAGE_SIZE && (offset + j) % PAGE_SIZE == offset % PAGE_SIZE + j;
  }

  /** No WRITE crosses a page, so it transfers the bytes of the buffer it stands for. */
  lemma {:induction false} TransferIsBuffer(page: nat -> nat, offset: nat, rest: nat)
    ensures offset % PAGE_SIZE + Chunk(offset, rest) <= PAGE_SIZE
    ensures Transfer(BusAddress(page, offset), Chunk(offset, rest)) == BufferBytes(page, offset, Chunk(offset, rest))
  {
    var n := Chunk(offset, rest);
    forall j: nat | j < n ensures BufferByte(page, offset, j) == Byte(BusAddress(page, offset) + j) {
      SamePage(page, offset, j);
    }
  }

  /** The controller with its status bits read as a number. */
  datatype View = View(pc: nat, block: nat, log: seq<Event>)

  function See(m: Machine): View {
    View(m.pc, Field(m.status, 0, 4), m.log)
  }

  /** What an instruction is for, in terms of the buffer. */
  function Do(page: nat -> nat, base: nat, op: Op, v: View): View {
    match op
    case Sync(code) => View(v.pc + 8, v.block, v.log + [Synced(code)])
    case Write(offset, len, first, last, block) =>
      var reported := if first then block else v.block;
      View(v.pc + 8, reported, Written(v.log, BusAddress(page, offset), len, first, last, last, reported))
    case Jump => v.(pc := base)
  }

  /** An instruction whose fields fit the word. */
  predicate Encodable(op: Op) {
    match op
    case Sync(code) => code == SYNC_FM1 || code == SYNC_VRO
    case Write(_, len, _, _, block) => len < 4096 && block < 16
    case Jump => true
  }

  lemma {:induction false} ExecuteWrite(i: Instr, m: Machine, offset: nat, len: nat, first: bool, last: bool,
                                        block: nat)
    requires Decodes(i.command, len, first, last, block)
    ensures var m' := Execute(i, m);
            && m'.pc == m.pc + 8
            && See(m').block == (if first then block else See(m).block)
            && m'.log == Written(m.log, i.argument, len, first, last, last, See(m').block)
  {
    if first {
      StatusSet(m.status, i.command, block);
    } else {
      StatusKept(m.status, i.command);
    }
  }

  /** The encoded instruction, executed, does what it is for. */
  lemma {:induction false} Simulates(page: nat -> nat, base: nat, op: Op, m: Machine)
    requires Encodable(op)
    ensures See(Execute(Encode(page, base, op), m)) == Do(page, base, op, See(m))
  {
    match op {
      case Sync(code) => SyncDecodes(code);
      case Write(offset, len, first, last, block) =>
        WriteDecodes(offset, len, first, last, block);
        ExecuteWrite(Encode(page, base, op), m, offset, len, first, last, block);
      case Jump => OpcodeField(Command(op), 7);
    }
  }

  lemma {:induction false} SyncDecodes(code: nat)
    requires code == SYNC_FM1 || code == SYNC_VRO
    ensures var w := Command(Sync(code)); Field(w, 28, 4) == 8 && Field(w, 0, 4) == code
  {
    Powers();
    var w := Command(Sync(code));
    forall j: nat | j < 32 ensures j in w <==> j == 31 || Bit(code, j) {
      assert ShiftedBit(code, 0, j) <==> Bit(code, j);
    }
    assert !Bit(code, 31) && !Bit(code, 30) && !Bit(code, 29) && !Bit(code, 28) by {
      NoHighBit(code, 4, 28);
      NoHighBit(code, 4, 29);
      NoHighBit(code, 4, 30);
      NoHighBit(code, 4, 31);
    }
    FieldHolds(w, 0, 4, code);
    OpcodeField(w, 8);
  }

  function Doing(page: nat -> nat, base: nat): (Op, View) -> View {
    (op, v) => Do(page, base, op, v)
  }

  /** Carries out ops one after the other. */
  function DoAll(do: (Op, View) -> View, ops: seq<Op>, v: View): View
    decreases |ops|
  {
    if |ops| == 0 then v else DoAll(do, ops[1..], do(ops[0], v))
  }

  lemma {:induction false} DoConcat(do: (Op, View) -> View, a: seq<Op>, b: seq<Op>, v: View)
    ensures DoAll(do, a + b, v) == DoAll(do, b, DoAll(do, a, v))
    decreases |a|
  {
    if |a| == 0 {
      assert a + b == b;
    } else {
      assert (a + b)[1..] == a[1..] + b;
      DoConcat(do, a[1..], b, do(a[0], v));
    }
  }

  /** The log after the rest of a line: its bytes in order, its end, and one interrupt
      that reports its block. */
  ghost function LineDone(page: nat -> nat, log: seq<Event>, block: nat, offset: nat, rest: nat): seq<Event> {
    log + BufferBytes(page, offset, rest) + [LineEnd, Interrupt(block)]
  }

  lemma {:induction false} BytesSplit(page: nat -> nat, log: seq<Event>, offset: nat, len: nat, rest: nat)
    requires len <= rest
    ensures log + BufferBytes(page, offset, len) + BufferBytes(page, offset + len, rest - len)
         == log + BufferBytes(page, offset, rest)
  {
    var a, b := BufferBytes(page, offset, len), BufferBytes(page, offset + len, rest - len);
    var c := BufferBytes(page, offset, rest);
    assert a + b == c;
    assert (log + a) + b == log + (a + b);
  }

  /** A line, or the rest of one, transfers its bytes in order. */
  lemma {:induction false} LineRuns(page: nat -> nat, base: nat, lineBytes: nat, block: nat, offset: nat, rest: nat,
                                    v: View)
    requires 0 < rest <= lineBytes && (rest < lineBytes ==> v.block == block)
    ensures DoAll(Doing(page, base), LineOps(lineBytes, block, offset, rest), v)
         == View(v.pc + 8 * |LineOps(lineBytes, block, offset, rest)|, block,
                 LineDone(page, if rest == lineBytes then v.log + [LineStart] else v.log, block, offset, rest))
    decreases rest
  {
    var len := Chunk(offset, rest);
    var op := Write(offset, len, rest == lineBytes, len == rest, block);
    var log := if rest == lineBytes then v.log + [LineStart] else v.log;
    var v1 := Do(page, base, op, v);
    TransferIsBuffer(page, offset, rest);
    var ops := LineOps(lineBytes, block, offset, rest);
    assert ops[0] == op;
    if rest <= len {
      assert ops[1..] == [];
      assert v1.log == log + BufferBytes(page, offset, rest) + [LineEnd] + [Interrupt(block)];
    } else {
      assert ops[1..] == LineOps(lineBytes, block, offset + len, rest - len);
      LineRuns(page, base, lineBytes, block, offset + len, rest - len, v1);
      BytesSplit(page, log, offset, len, rest);
    }
  }

  // ---------------------------------------------------- whole laps

  ghost function LineEvents(page: nat -> nat, block: nat, offset: nat, n: nat): seq<Event> {
    [LineStart] + BufferBytes(page, offset, n) + [LineEnd, Interrupt(block)]
  }

  /** What lines i and later, which start at offset, should do. */
  ghost function LinesEvents(page: nat -> nat, block: nat -> nat, lines: nat, lineBytes: nat, i: nat,
                             offset: nat): seq<Event>
    decreases lines - i
  {
    if i >= lines then []
    else LineEvents(page, block(i), offset, lineBytes)
         + LinesEvents(page, block, lines, lineBytes, i + 1, offset + lineBytes)
  }

  /** What one lap should do: each line of the buffer once, between the two syncs. */
  ghost function LapEvents(page: nat -> nat, lines: nat, lineBytes: nat): seq<Event> {
    [Synced(6)] + LinesEvents(page, BlockOf(lines), lines, lineBytes, 0, 0) + [Synced(12)]
  }

  lemma {:induction false} LinesRun(page: nat -> nat, base: nat, block: nat -> nat, lines: nat, lineBytes: nat,
                                    i: nat, offset: nat, v: View)
    requires lineBytes > 0
    ensures var v' := DoAll(Doing(page, base), LinesOps(block, lines, lineBytes, i, offset), v);
            && v'.pc == v.pc + 8 * |LinesOps(block, lines, lineBytes, i, offset)|
            && v'.log == v.log + LinesEvents(page, block, lines, lineBytes, i, offset)
    decreases lines - i
  {
    if i < lines {
      var a := LineOps(lineBytes, block(i), offset, lineBytes);
      var b := LinesOps(block, lines, lineBytes, i + 1, offset + lineBytes);
      LineRuns(page, base, lineBytes, block(i), offset, lineBytes, v);
      DoConcat(Doing(page, base), a, b, v);
      var v1 := DoAll(Doing(page, base), a, v);
      assert v1.log == v.log + LineEvents(page, block(i), offset, lineBytes);
      LinesRun(page, base, block, lines, lineBytes, i + 1, offset + lineBytes, v1);
      Associative(v.log, LineEvents(page, block(i), offset, lineBytes),
                  LinesEvents(page, block, lines, lineBytes, i + 1, offset + lineBytes));
    } else {
      assert LinesEvents(page, block, lines, lineBytes, i, offset) == [];
      assert v.log + [] == v.log;
    }
  }

  /** The program carries out one lap and ends where it began. */
  lemma {:induction false} LapRuns(page: nat -> nat, base: nat, lines: nat, lineBytes: nat, v: View)
    requires lineBytes > 0
    ensures var v' := DoAll(Doing(page, base), Program(lines, lineBytes), v);
            v'.pc == base && v'.log == v.log + LapEvents(page, lines, lineBytes)
  {
    var v1 := Do(page, base, Sync(SYNC_FM1), v);
    LinesRun(page, base, BlockOf(lines), lines, lineBytes, 0, 0, v1);
    Framed(page, base, LinesOps(BlockOf(lines), lines, lineBytes, 0, 0),
           LinesEvents(page, BlockOf(lines), lines, lineBytes, 0, 0), v);
  }

  /** The frame of the program around its lines. */
  lemma {:induction false} Framed(page: nat -> nat, base: nat, mid: seq<Op>, events: seq<Event>, v: View)
    requires DoAll(Doing(page, base), mid, Do(page, base, Sync(SYNC_FM1), v)).log == v.log + [Synced(SYNC_FM1)] + events
    ensures var v' := DoAll(Doing(page, base), [Sync(SYNC_FM1)] + mid + [Sync(SYNC_VRO), Jump], v);
            v'.pc == base && v'.log == v.log + ([Synced(SYNC_FM1)] + events + [Synced(SYNC_VRO)])
  {
    var tail := [Sync(SYNC_VRO), Jump];
    First(Doing(page, base), Sync(SYNC_FM1), mid, v);
    DoConcat(Doing(page, base), [Sync(SYNC_FM1)] + mid, tail, v);
    var v2 := DoAll(Doing(page, base), [Sync(SYNC_FM1)] + mid, v);
    assert tail[1..] == [Jump] && [Jump][1..] == [];
    var v3 := DoAll(Doing(page, base), tail, v2);
    assert v3 == Do(page, base, Jump, Do(page, base, Sync(SYNC_VRO), v2));
  }

  lemma {:induction false} First(do: (Op, View) -> View, op: Op, ops: seq<Op>, v: View)
    ensures DoAll(do, [op] + ops, v) == DoAll(do, ops, do(op, v))
  {
    assert ([op] + ops)[1..] == ops;
  }

  // ----------------------------------------------- the program in memory

  predicate Straight(op: Op) {
    Encodable(op) && !op.Jump?
  }

  lemma {:induction false} LineStraight(lineBytes: nat, block: nat, offset: nat, rest: nat)
    requires rest <= lineBytes < 4096 && block < 16
    ensures forall k :: 0 <= k < |LineOps(lineBytes, block, offset, rest)| ==>
              Straight(LineOps(lineBytes, block, offset, rest)[k])
    decreases rest
  {
    var len := Chunk(offset, rest);
    if rest > len {
      LineStraight(lineBytes, block, offset + len, rest - len);
    }
  }

  lemma {:induction false} LinesStraight(block: nat -> nat, lines: nat, lineBytes: nat, i: nat, offset: nat)
    requires lineBytes < 4096 && forall j: nat :: j < lines ==> block(j) < 16
    ensures forall k :: 0 <= k < |LinesOps(block, lines, lineBytes, i, offset)| ==>
              Straight(LinesOps(block, lines, lineBytes, i, offset)[k])
    decreases lines - i
  {
    if i < lines {
      LineStraight(lineBytes, block(i), offset, lineBytes);
      LinesStraight(block, lines, lineBytes, i + 1, offset + lineBytes);
    }
  }

  /** The program is straight-line code that ends in its only jump. */
  lemma {:induction false} ProgramStraight(lines: nat, lineBytes: nat)
    requires lineBytes < 4096
    ensures var ops := Program(lines, lineBytes);
            Loop(ops)
  {
    var block := BlockOf(lines);
    forall j: nat | j < lines ensures block(j) < 16 {
      BlockBound(j, lines);
    }
    LinesStraight(block, lines, lineBytes, 0, 0);
  }

  ghost predicate Loop(ops: seq<Op>) {
    && 0 < |ops| && ops[|ops| - 1] == Jump
    && forall k :: 0 <= k < |ops| - 1 ==> Straight(ops[k])
  }

  /** The instructions at base are those of ops. */
  ghost predicate Holds(page: nat -> nat, base: nat, code: seq<Instr>, ops: seq<Op>) {
    |code| >= |ops| && forall k :: 0 <= k < |ops| ==> code[k] == Encode(page, base, ops[k])
  }

  lemma {:induction false} Fetches(code: seq<Instr>, base: nat, m: Machine, k: nat, n: nat)
    requires k < |code| && m.pc == base + 8 * k && n > 0
    ensures Run(code, base, m, n) == Run(code, base, Execute(code[k], m), n - 1)
  {
    assert (m.pc - base) / 8 == k;
  }

  /** Where instruction k is next, running n instructions carries it out and leaves n - 1. */
  ghost predicate Steps(run: (Machine, nat) -> Machine, base: nat, do: (Op, View) -> View, op: Op, m: Machine, k: nat,
                        n: nat) {
    m.pc == base + 8 * k && n > 0 ==> exists m': Machine :: Stepped(run, do, op, m, m', n)
  }

  ghost predicate Stepped(run: (Machine, nat) -> Machine, do: (Op, View) -> View, op: Op, m: Machine, m': Machine,
                          n: nat)
    requires n > 0
  {
    See(m') == do(op, See(m)) && run(m, n) == run(m', n - 1) && (!op.Jump? ==> m'.pc == m.pc + 8)
  }

  /** If each instruction does what it is for, so does the program from instruction k on. */
  lemma {:induction false} RunFollows(run: (Machine, nat) -> Machine, base: nat, do: (Op, View) -> View, ops: seq<Op>,
                                      m: Machine, k: nat)
    requires Loop(ops) && k < |ops| && m.pc == base + 8 * k && forall m: Machine :: run(m, 0) == m
    requires forall j: nat, m: Machine, n: nat :: j < |ops| ==> Steps(run, base, do, ops[j], m, j, n)
    ensures See(run(m, |ops| - k)) == DoAll(do, ops[k..], See(m))
    decreases |ops| - k
  {
    var steps := Steps(run, base, do, ops[k], m, k, |ops| - k);
    assert steps;
    var m' :| Stepped(run, do, ops[k], m, m', |ops| - k);
    assert ops[k..][1..] == ops[k + 1..];
    if k + 1 < |ops| {
      assert Straight(ops[k]);
      RunFollows(run, base, do, ops, m', k + 1);
    } else {
      assert ops[k + 1..] == [];
    }
  }

  ghost function Running(code: seq<Instr>, base: nat): (Machine, nat) -> Machine {
    (m: Machine, n: nat) => Run(code, base, m, n)
  }

  /** In every state the instruction does what op is for, and goes on to the next one
      unless it is the jump. */
  ghost predicate Means(i: Instr, do: (Op, View) -> View, op: Op) {
    forall m: Machine :: See(Execute(i, m)) == do(op, See(m)) && (!op.Jump? ==> Execute(i, m).pc == m.pc + 8)
  }

  lemma {:induction false} EncodedMeans(page: nat -> nat, base: nat, op: Op)
    requires Encodable(op)
    ensures Means(Encode(page, base, op), Doing(page, base), op)
  {
    var i := Encode(page, base, op);
    forall m: Machine
      ensures See(Execute(i, m)) == Doing(page, base)(op, See(m)) && (!op.Jump? ==> Execute(i, m).pc == m.pc + 8)
    {
      Simulates(page, base, op, m);
      assert Execute(i, m).pc == See(Execute(i, m)).pc;
    }
  }

  lemma {:induction false} WordSteps(code: seq<Instr>, base: nat, do: (Op, View) -> View, op: Op, m: Machine, k: nat,
                                     n: nat)
    requires k < |code| && Means(code[k], do, op)
    ensures Steps(Running(code, base), base, do, op, m, k, n)
  {
    if m.pc == base + 8 * k && n > 0 {
      Fetches(code, base, m, k, n);
      var m' := Execute(code[k], m);
      var stepped := Stepped(Running(code, base), do, op, m, m', n);
      assert stepped;
    }
  }

  /** The words of a program do what its instructions are for. */
  lemma {:induction false} WordsFollow(page: nat -> nat, base: nat, code: seq<Instr>, ops: seq<Op>, m: Machine)
    requires Holds(page, base, code, ops) && Loop(ops) && m.pc == base
    ensures See(Run(code, base, m, |ops|)) == DoAll(Doing(page, base), ops, See(m))
  {
    forall j: nat, m: Machine, n: nat | j < |ops|
      ensures Steps(Running(code, base), base, Doing(page, base), ops[j], m, j, n)
    {
      assert Encodable(ops[j]) by { assert j < |ops| - 1 ==> Straight(ops[j]); }
      EncodedMeans(page, base, ops[j]);
      WordSteps(code, base, Doing(page, base), ops[j], m, j, n);
    }
    RunFollows(Running(code, base), base, Doing(page, base), ops, m, 0);
    assert ops[0..] == ops;
  }

  ghost function Repeat(events: seq<Event>, n: nat): seq<Event> {
    if n == 0 then [] else events + Repeat(events, n - 1)
  }

  /** A run that does lap and is at base again. */
  ghost predicate Laps(run: Machine -> Machine, base: nat, lap: seq<Event>, m: Machine) {
    run(m).pc == base && run(m).log == m.log + lap
  }

  ghost function RunLaps(run: Machine -> Machine, m: Machine, n: nat): Machine
    decreases n
  {
    if n == 0 then m else RunLaps(run, run(m), n - 1)
  }

  lemma {:induction false} LapsRepeat(run: Machine -> Machine, base: nat, lap: seq<Event>, m: Machine, n: nat)
    requires m.pc == base && forall m: Machine :: m.pc == base ==> Laps(run, base, lap, m)
    ensures RunLaps(run, m, n).pc == base && RunLaps(run, m, n).log == m.log + Repeat(lap, n)
    decreases n
  {
    if n > 0 {
      var laps := Laps(run, base, lap, m);
      assert laps;
      LapsRepeat(run, base, lap, run(m), n - 1);
      Associative(m.log, lap, Repeat(lap, n - 1));
    } else {
      assert m.log + [] == m.log;
    }
  }

  /** Executes size instructions. */
  ghost function Lap(code: seq<Instr>, base: nat, size: nat): Machine -> Machine {
    m => Run(code, base, m, size)
  }

  lemma {:induction false} LapOfWords(page: nat -> nat, base: nat, code: seq<Instr>, lines: nat, lineBytes: nat,
                                      m: Machine)
    requires 0 < lineBytes < 4096 && Holds(page, base, code, Program(lines, lineBytes)) && m.pc == base
    ensures Laps(Lap(code, base, |Program(lines, lineBytes)|), base, LapEvents(page, lines, lineBytes), m)
  {
    var ops := Program(lines, lineBytes);
    ProgramStraight(lines, lineBytes);
    WordsFollow(page, base, code, ops, m);
    LapRuns(page, base, lines, lineBytes, See(m));
    var m' := Run(code, base, m, |ops|);
    assert m'.pc == See(m').pc && m'.log == See(m').log;
  }

  /** Running the words of the program from its start goes around the buffer for ever:
      after n laps it has done n times what one lap should do, and is at its start again. */
  lemma {:induction false} ProgramRuns(page: nat -> nat, base: nat, code: seq<Instr>, lines: nat, lineBytes: nat,
                                       m: Machine, n: nat)
    requires 0 < lineBytes < 4096 && Holds(page, base, code, Program(lines, lineBytes)) && m.pc == base
    ensures var m' := RunLaps(Lap(code, base, |Program(lines, lineBytes)|), m, n);
            m'.pc == base && m'.log == m.log + Repeat(LapEvents(page, lines, lineBytes), n)
  {
    var run, lap := Lap(code, base, |Program(lines, lineBytes)|), LapEvents(page, lines, lineBytes);
    forall m: Machine | m.pc == base ensures Laps(run, base, lap, m) {
      LapOfWords(page, base, code, lines, lineBytes, m);
    }
    LapsRepeat(run, base, lap, m, n);
  }

  // ------------------------------------------------ what a lap transfers

  /** The bytes among events, in order. */
  ghost function Transferred(events: seq<Event>): seq<Event> {
    if |events| == 0 then []
    else if events[0].Byte? then [events[0]] + Transferred(events[1..])
    else Transferred(events[1..])
  }

  lemma {:induction false} TransferredConcat(a: seq<Event>, b: seq<Event>)
    ensures Transferred(a + b) == Transferred(a) + Transferred(b)
    decreases |a|
  {
    if |a| == 0 {
      assert a + b == b && Transferred(a) == [];
    } else {
      assert (a + b)[1..] == a[1..] + b;
      TransferredConcat(a[1..], b);
    }
  }

  lemma {:induction false} TransferredBytes(events: seq<Event>)
    requires forall k :: 0 <= k < |events| ==> events[k].Byte?
    ensures Transferred(events) == events
    decreases |events|
  {
    if |events| > 0 {
      TransferredBytes(events[1..]);
    }
  }

  lemma {:induction false} LinesTransfer(page: nat -> nat, block: nat -> nat, lines: nat, lineBytes: nat, i: nat,
                                         offset: nat, n: nat)
    requires i + n == lines
    ensures Transferred(LinesEvents(page, block, lines, lineBytes, i, offset))
         == BufferBytes(page, offset, n * lineBytes)
    decreases n
  {
    if n > 0 {
      var line := LineEvents(page, block(i), offset, lineBytes);
      var bytes := BufferBytes(page, offset, lineBytes);
      LineTransfer(page, block(i), offset, lineBytes);
      TransferredConcat(line, LinesEvents(page, block, lines, lineBytes, i + 1, offset + lineBytes));
      LinesTransfer(page, block, lines, lineBytes, i + 1, offset + lineBytes, n - 1);
      OneLess(n, lineBytes);
      BytesSplit(page, [], offset, lineBytes, n * lineBytes);
    } else {
      assert n * lineBytes == 0;
    }
  }

  lemma {:induction false} LineTransfer(page: nat -> nat, block: nat, offset: nat, n: nat)
    ensures Transferred(LineEvents(page, block, offset, n)) == BufferBytes(page, offset, n)
  {
    var bytes := BufferBytes(page, offset, n);
    TransferredConcat([LineStart] + bytes, [LineEnd, Interrupt(block)]);
    TransferredConcat([LineStart], bytes);
    TransferredBytes(bytes);
    NoBytes(LineEnd, Interrupt(block));
    NoByte(LineStart);
  }

  lemma {:induction false} NoByte(a: Event)
    ensures !a.Byte? ==> Transferred([a]) == []
  {
  }

  lemma {:induction false} NoBytes(a: Event, b: Event)
    ensures !a.Byte? && !b.Byte? ==> Transferred([a, b]) == []
  {
    assert [a, b][1..] == [b];
    NoByte(b);
  }

  /** One lap transfers every byte of the buffer once, in order and without gaps. */
  lemma {:induction false} LapTransfersBuffer(page: nat -> nat, lines: nat, lineBytes: nat)
    ensures Transferred(LapEvents(page, lines, lineBytes)) == BufferBytes(page, 0, lines * lineBytes)
  {
    var mid := LinesEvents(page, BlockOf(lines), lines, lineBytes, 0, 0);
    TransferredConcat([Synced(SYNC_FM1)] + mid, [Synced(SYNC_VRO)]);
    TransferredConcat([Synced(SYNC_FM1)], mid);
    NoByte(Synced(SYNC_FM1));
    NoByte(Synced(SYNC_VRO));
    LinesTransfer(page, BlockOf(lines), lines, lineBytes, 0, 0, lines);
  }

  /** The blocks that the interrupts among events report, in order. */
  ghost function Reported(events: seq<Event>): seq<nat> {
    if |events| == 0 then []
    else if events[0].Interrupt? then [events[0].status] + Reported(events[1..])
    else Reported(events[1..])
  }

  lemma {:induction false} ReportedConcat(a: seq<Event>, b: seq<Event>)
    ensures Reported(a + b) == Reported(a) + Reported(b)
    decreases |a|
  {
    if |a| == 0 {
      assert a + b == b && Reported(a) == [];
    } else {
      assert (a + b)[1..] == a[1..] + b;
      ReportedConcat(a[1..], b);
    }
  }

  lemma {:induction false} NoneReported(events: seq<Event>)
    requires forall k :: 0 <= k < |events| ==> !events[k].Interrupt?
    ensures Reported(events) == []
    decreases |events|
  {
    if |events| > 0 {
      NoneReported(events[1..]);
    }
  }

  lemma {:induction false} LineReports(page: nat -> nat, block: nat, offset: nat, n: nat)
    ensures Reported(LineEvents(page, block, offset, n)) == [block]
  {
    var head := [LineStart] + BufferBytes(page, offset, n) + [LineEnd];
    NoneReported(head);
    ReportedConcat(head, [Interrupt(block)]);
    assert [Interrupt(block)][1..] == [];
    assert LineEvents(page, block, offset, n) == head + [Interrupt(block)];
  }

  lemma {:induction false} LinesReport(page: nat -> nat, block: nat -> nat, lines: nat, lineBytes: nat, i: nat,
                                       offset: nat)
    requires i <= lines
    ensures Reported(LinesEvents(page, block, lines, lineBytes, i, offset))
         == seq(lines - i, k requires 0 <= k < lines - i => block(i + k))
    decreases lines - i
  {
    if i < lines {
      LineReports(page, block(i), offset, lineBytes);
      ReportedConcat(LineEvents(page, block(i), offset, lineBytes),
                     LinesEvents(page, block, lines, lineBytes, i + 1, offset + lineBytes));
      LinesReport(page, block, lines, lineBytes, i + 1, offset + lineBytes);
    }
  }

  /** The interrupts of a lap, one a line, report blocks 0, 16 / lines, 32 / lines ... */
  lemma {:induction false} LapReports(page: nat -> nat, lines: nat, lineBytes: nat)
    ensures Reported(LapEvents(page, lines, lineBytes))
         == seq(lines, i requires 0 <= i < lines => i * 16 / lines)
  {
    var mid := LinesEvents(page, BlockOf(lines), lines, lineBytes, 0, 0);
    LinesReport(page, BlockOf(lines), lines, lineBytes, 0, 0);
    ReportedConcat([Synced(6)] + mid, [Synced(12)]);
    ReportedConcat([Synced(6)], mid);
    NoneReported([Synced(6)]);
    NoneReported([Synced(12)]);
  }

  lemma {:induction false} LineMarked(page: nat -> nat, block: nat, offset: nat, n: nat)
    ensures var events := multiset(LineEvents(page, block, offset, n)); events[LineStart] == events[LineEnd] == 1
  {
    var bytes := BufferBytes(page, offset, n);
    assert LineStart !in multiset(bytes) && LineEnd !in multiset(bytes);
  }

  lemma {:induction false} Counts(a: seq<Event>, b: seq<Event>, e: Event)
    ensures multiset(a + b)[e] == multiset(a)[e] + multiset(b)[e]
  {
  }

  lemma {:induction false} LinesMarked(page: nat -> nat, block: nat -> nat, lines: nat, lineBytes: nat, i: nat,
                                       offset: nat, e: Event)
    requires i <= lines && (e == LineStart || e == LineEnd)
    ensures multiset(LinesEvents(page, block, lines, lineBytes, i, offset))[e] == lines - i
    decreases lines - i
  {
    if i < lines {
      LineMarked(page, block(i), offset, lineBytes);
      LinesMarked(page, block, lines, lineBytes, i + 1, offset + lineBytes, e);
      Counts(LineEvents(page, block(i), offset, lineBytes),
             LinesEvents(page, block, lines, lineBytes, i + 1, offset + lineBytes), e);
    }
  }

  /** A lap starts and ends each line once. */
  lemma {:induction false} LapMarked(page: nat -> nat, lines: nat, lineBytes: nat)
    ensures var events := multiset(LapEvents(page, lines, lineBytes));
            events[LineStart] == events[LineEnd] == lines
  {
    LinesMarked(page, BlockOf(lines), lines, lineBytes, 0, 0, LineStart);
    LinesMarked(page, BlockOf(lines), lines, lineBytes, 0, 0, LineEnd);
  }

  // ------------------------------------------------------------ the chip

  /** The line counter after an interrupt that reports irqBlock. */
  function Resync(current: nat, lines: nat, irqBlock: nat): nat
    requires lines > 0
  {
    var next := (current + 1) % lines;
    if Block(next, lines) != irqBlock then (irqBlock * lines + 15) / 16 else next
  }

  /** The lines of a block start where the resynchronised counter says. */
  lemma {:induction false} BlockStart(lines: nat, block: nat, i: nat)
    requires lines > 0
    ensures Block(i, lines) >= block <==> i >= (block * lines + 15) / 16
  {
    var q := i * 16 / lines;
    if q >= block {
      MulLe(block, q, lines);
      assert q * lines <= i * 16;
      assert block * lines <= i * 16;
    } else {
      MulLe(q + 1, block, lines);
      assert i * 16 < (q + 1) * lines;
    }
  }

  /** The handler lands on a line of the reported block: the next line if that is in
      the block, else its first line. With at most 16 lines there is no other. */
  lemma {:induction false} ResyncFinds(current: nat, lines: nat, i: nat)
    requires i < lines
    ensures var line, next := Resync(current, lines, Block(i, lines)), (current + 1) % lines;
            && line < lines && Block(line, lines) == Block(i, lines)
            && (line == next <==> Block(next, lines) == Block(i, lines))
            && (line != next ==> forall j: nat :: j < line ==> Block(j, lines) < Block(i, lines))
            && (lines <= 16 ==> line == i)
  {
    var block, next := Block(i, lines), (current + 1) % lines;
    var line := Resync(current, lines, block);
    BlockStart(lines, block, i);
    if Block(next, lines) != block {
      BlockStart(lines, block, line);
      MonotoneBlock(line, i, lines);
      forall j: nat | j < line ensures Block(j, lines) < block {
        BlockStart(lines, block, j);
      }
    }
    if lines <= 16 {
      if line < i {
        FewLines(line, i, lines);
      } else if i < line {
        FewLines(i, line, lines);
      }
    }
  }

  /** The counter stays in range if and only if the last line has the reported block or a
      later one. */
  lemma {:induction false} ResyncInRange(current: nat, lines: nat, block: nat)
    requires lines > 0
    ensures Resync(current, lines, block) < lines <==> block <= Block(lines - 1, lines)
  {
    BlockStart(lines, block, lines - 1);
    MonotoneBlock((current + 1) % lines, lines - 1, lines);
  }

  /** How an interrupt that reports a block moves the counter. */
  function Handler(lines: nat): (nat, nat) -> nat
    requires lines > 0
  {
    (current, block) => Resync(current, lines, block)
  }

  /** The counter after interrupts that report these blocks. */
  function Handled(handler: (nat, nat) -> nat, current: nat, blocks: seq<nat>): nat
    decreases |blocks|
  {
    if |blocks| == 0 then current
    else handler(Handled(handler, current, blocks[..|blocks| - 1]), blocks[|blocks| - 1])
  }

  lemma {:induction false} HandledFollows(handler: (nat, nat) -> nat, line: nat -> nat, blocks: seq<nat>)
    requires forall k: nat :: k < |blocks| ==> handler(line(k), blocks[k]) == line(k + 1)
    ensures Handled(handler, line(0), blocks) == line(|blocks|)
    decreases |blocks|
  {
    if |blocks| > 0 {
      HandledFollows(handler, line, blocks[..|blocks| - 1]);
    }
  }

  /** The interrupts report lines first, first + 1 and so on, around the buffer. */
  ghost predicate InTurn(blocks: seq<nat>, lines: nat, first: nat)
    requires lines > 0
  {
    forall k: nat :: k < |blocks| ==> blocks[k] == Block((first + k) % lines, lines)
  }

  lemma {:induction false} InTurnAt(blocks: seq<nat>, lines: nat, first: nat)
    requires lines > 0 && |blocks| > 0 && InTurn(blocks, lines, first)
    ensures var n := |blocks| - 1; InTurn(blocks[..n], lines, first) && blocks[n] == Block((first + n) % lines, lines)
  {
  }

  lemma {:induction false} ResyncCounts(current: nat, lines: nat, next: nat)
    requires current < lines && next == (if current + 1 == lines then 0 else current + 1)
    ensures Resync(current, lines, Block(next, lines)) == next
  {
    ModNext(current, lines);
    DivMod(current, lines, 0, current);
  }

  lemma {:induction false} LineAfter(a: nat, lines: nat)
    requires lines > 0
    ensures Resync(a % lines, lines, Block((a + 1) % lines, lines)) == (a + 1) % lines
  {
    ModNext(a, lines);
    ResyncCounts(a % lines, lines, (a + 1) % lines);
  }

  function LineFrom(first: nat, lines: nat): nat -> nat
    requires lines > 0
  {
    k => (first + k) % lines
  }

  lemma {:induction false} HandlesNext(current: nat, lines: nat, blocks: seq<nat>, k: nat)
    requires lines > 0 && InTurn(blocks, lines, current + 1) && k < |blocks|
    ensures Handler(lines)(LineFrom(current, lines)(k), blocks[k]) == LineFrom(current, lines)(k + 1)
  {
    LineAfter(current + k, lines);
    assert current + 1 + k == current + k + 1;
  }

  /** If no interrupt is lost the counter counts them: n interrupts for the n lines after
      it move it by n, around the buffer. */
  lemma {:induction false} HandlerCounts(current: nat, lines: nat, blocks: seq<nat>)
    requires current < lines && InTurn(blocks, lines, current + 1)
    ensures Handled(Handler(lines), current, blocks) == (current + |blocks|) % lines
  {
    var handler, line := Handler(lines), LineFrom(current, lines);
    assert line(0) == current by { DivMod(current, lines, 0, current); }
    assert line(|blocks|) == (current + |blocks|) % lines;
    forall k: nat | k < |blocks| ensures handler(line(k), blocks[k]) == line(k + 1) {
      HandlesNext(current, lines, blocks, k);
    }
    HandledFollows(handler, line, blocks);
  }

  /** Whatever the counter was, after one interrupt it is in the block of the line. */
  lemma {:induction false} HandledBlock(current: nat, lines: nat, blocks: seq<nat>, first: nat)
    requires lines > 0 && |blocks| > 0 && InTurn(blocks, lines, first)
    ensures var line := Handled(Handler(lines), current, blocks);
            line < lines && Block(line, lines) == Block((first + |blocks| - 1) % lines, lines)
  {
    var n := |blocks| - 1;
    InTurnAt(blocks, lines, first);
    ResyncFinds(Handled(Handler(lines), current, blocks[..n]), lines, (first + n) % lines);
  }

  /** A line whose predecessor is in an earlier block is the first of its block. */
  lemma {:induction false} FirstOfBlock(lines: nat, i: nat)
    requires lines > 0 && (i > 0 ==> Block(i - 1, lines) < Block(i, lines))
    ensures (Block(i, lines) * lines + 15) / 16 == i
  {
    BlockStart(lines, Block(i, lines), i);
    if i > 0 {
      BlockStart(lines, Block(i, lines), i - 1);
    }
  }

  lemma {:induction false} ResyncTo(current: nat, lines: nat, block: nat)
    requires current + 1 < lines && Block(current + 1, lines) != block
    ensures Resync(current, lines, block) == (block * lines + 15) / 16
  {
    DivMod(current + 1, lines, 0, current + 1);
  }

  /** A counter that would stay behind goes to the first line of the block. */
  lemma {:induction false} ResyncJumps(current: nat, lines: nat, next: nat)
    requires current + 1 < lines && Block(current + 1, lines) != Block(next, lines)
    requires next > 0 ==> Block(next - 1, lines) < Block(next, lines)
    ensures Resync(current, lines, Block(next, lines)) == next
  {
    FirstOfBlock(lines, next);
    ResyncTo(current, lines, Block(next, lines));
  }

  /** A counter in the block of line i, where the block ends, is behind it. */
  lemma {:induction false} NotAhead(block: nat -> nat, current: nat, i: nat)
    requires block(current) == block(i) != block(i + 1) && current != i
    requires forall a: nat, b: nat :: a <= b ==> block(a) <= block(b)
    ensures current < i && block(current + 1) == block(i) < block(i + 1)
  {
    assert block(i) <= block(i + 1);
    assert block(current) <= block(current + 1) <= block(i);
  }

  /** A counter in the block of line i is right as soon as the next block is reported. */
  lemma {:induction false} NewBlock(current: nat, lines: nat, i: nat)
    requires current < lines && i + 1 < lines && Block(current, lines) == Block(i, lines) != Block(i + 1, lines)
    ensures Resync(current, lines, Block(i + 1, lines)) == i + 1
  {
    if current == i {
      ResyncCounts(current, lines, i + 1);
    } else {
      BlocksGrow(lines);
      NotAhead(BlockOf(lines), current, i);
      ResyncJumps(current, lines, i + 1);
    }
  }

  lemma {:induction false} BlocksGrow(lines: nat)
    requires lines > 0
    ensures forall a: nat, b: nat :: a <= b ==> BlockOf(lines)(a) <= BlockOf(lines)(b)
  {
    forall a: nat, b: nat | a <= b ensures BlockOf(lines)(a) <= BlockOf(lines)(b) {
      MonotoneBlock(a, b, lines);
    }
  }

  /** The same after the last line. */
  lemma {:induction false} NewLap(current: nat, lines: nat)
    requires current < lines && Block(current, lines) == Block(lines - 1, lines) != Block(0, lines)
    ensures Resync(current, lines, Block(0, lines)) == 0
  {
    if current + 1 == lines {
      ResyncCounts(current, lines, 0);
    } else {
      MonotoneBlock(current, current + 1, lines);
      MonotoneBlock(current + 1, lines - 1, lines);
      ResyncJumps(current, lines, 0);
    }
  }

  /** Some interrupt reports another block than the one before it. */
  ghost predicate Changes(blocks: seq<nat>) {
    exists k, l :: 0 <= k && l == k + 1 && l < |blocks| && blocks[k] != blocks[l]
  }

  /** However far the counter was off, once the interrupts of successive lines have
      reported two blocks it is the line of the last one. */
  lemma {:induction false} HandlerSettles(current: nat, lines: nat, blocks: seq<nat>, first: nat)
    requires lines > 0 && InTurn(blocks, lines, first) && Changes(blocks)
    ensures Handled(Handler(lines), current, blocks) == (first + |blocks| - 1) % lines
    decreases |blocks|
  {
    var n := |blocks| - 1;
    var before := blocks[..n];
    InTurnAt(blocks, lines, first);
    InTurnAt(before, lines, first);
    var i, next := (first + n - 1) % lines, (first + n) % lines;
    ModNext(first + n - 1, lines);
    HandledBlock(current, lines, before, first);
    if blocks[n - 1] != blocks[n] {
      var line := Handled(Handler(lines), current, before);
      if i + 1 == lines {
        NewLap(line, lines);
      } else {
        NewBlock(line, lines, i);
      }
    } else {
      var k, l :| 0 <= k && l == k + 1 && l < |blocks| && blocks[k] != blocks[l];
      assert before[k] != before[l];
      HandlerSettles(current, lines, before, first);
      ResyncCounts(i, lines, next);
    }
  }

  lemma {:induction false} RepeatSize(lap: seq<Event>, lines: nat, n: nat)
    requires |Reported(lap)| == lines
    ensures |Reported(Repeat(lap, n))| == n * lines
    decreases n
  {
    if n > 0 {
      OneLess(n, lines);
      ReportedConcat(lap, Repeat(lap, n - 1));
      RepeatSize(lap, lines, n - 1);
    } else {
      assert n * lines == 0;
    }
  }

  lemma {:induction false} LaterLap(k: nat, lines: nat)
    requires 0 < lines <= k
    ensures k % lines == (k - lines) % lines
  {
    var q := (k - lines) / lines;
    OneLess(q + 1, lines);
    DivMod(k, lines, q + 1, (k - lines) % lines);
  }

  lemma {:induction false} RepeatReports(lap: seq<Event>, lines: nat, n: nat, k: nat)
    requires lines > 0 && |Reported(lap)| == lines && k < |Reported(Repeat(lap, n))|
    ensures Reported(Repeat(lap, n))[k] == Reported(lap)[k % lines]
    decreases n
  {
    if n > 0 {
      ReportedConcat(lap, Repeat(lap, n - 1));
      if k < lines {
        DivMod(k, lines, 0, k);
      } else {
        RepeatReports(lap, lines, n - 1, k - lines);
        LaterLap(k, lines);
      }
    }
  }

  lemma {:induction false} LapsInTurn(page: nat -> nat, lines: nat, lineBytes: nat, n: nat)
    requires lines > 0
    ensures |Reported(Repeat(LapEvents(page, lines, lineBytes), n))| == n * lines
    ensures InTurn(Reported(Repeat(LapEvents(page, lines, lineBytes), n)), lines, 0)
  {
    var lap := LapEvents(page, lines, lineBytes);
    LapReports(page, lines, lineBytes);
    var blocks := Reported(Repeat(lap, n));
    RepeatSize(lap, lines, n);
    forall k: nat | k < |blocks| ensures blocks[k] == Block((0 + k) % lines, lines) {
      RepeatReports(lap, lines, n, k);
    }
  }

  /** Program and handler together: while the program runs, from the second line with
      another block on, each interrupt leaves the counter at the line it is for. */
  lemma {:induction false} HandlerFollowsProgram(page: nat -> nat, lines: nat, lineBytes: nat, n: nat, current: nat,
                                                 k: nat)
    requires 0 < lines <= k <= n * lines
    ensures var blocks := Reported(Repeat(LapEvents(page, lines, lineBytes), n));
            k <= |blocks| && Handled(Handler(lines), current, blocks[..k]) == (k - 1) % lines
  {
    var blocks := Reported(Repeat(LapEvents(page, lines, lineBytes), n));
    LapsInTurn(page, lines, lineBytes, n);
    var heard := blocks[..k];
    if lines == 1 {
      HandledBlock(current, lines, heard, 0);
    } else {
      LapChanges(heard, lines);
      HandlerSettles(current, lines, heard, 0);
    }
  }

  lemma {:induction false} LapChanges(blocks: seq<nat>, lines: nat)
    requires 1 < lines <= |blocks| && InTurn(blocks, lines, 0)
    ensures Changes(blocks)
  {
    DivMod(0, lines, 0, 0);
    DivMod(lines - 1, lines, 0, lines - 1);
    assert blocks[0] == Block(0, lines) && blocks[lines - 1] == Block(lines - 1, lines);
    QuotientAtLeast((lines - 1) * 16, lines, 1);
    Differ(blocks, 0, lines - 1);
  }

  lemma {:induction false} Differ(blocks: seq<nat>, i: nat, j: nat)
    requires i < j < |blocks| && blocks[i] != blocks[j]
    ensures Changes(blocks)
    decreases j
  {
    if blocks[j - 1] == blocks[j] {
      Differ(blocks, i, j - 1);
    } else {
      var k, l := j - 1, j;
      assert blocks[k] != blocks[l];
    }
  }

  lemma {:induction false} MonotoneBlock(i: nat, j: nat, lines: nat)
    requires i <= j && lines > 0
    ensures Block(i, lines) <= Block(j, lines)
  {
    BlockStart(lines, Block(i, lines), i);
    BlockStart(lines, Block(i, lines), j);
  }

  lemma {:induction false} FewLines(i: nat, j: nat, lines: nat)
    requires i < j < lines <= 16
    ensures Block(i, lines) < Block(j, lines)
  {
    var q := i * 16 / lines;
    assert q * lines <= i * 16;
    assert (q + 1) * lines == q * lines + lines;
    BlockStart(lines, q + 1, j);
  }
}
