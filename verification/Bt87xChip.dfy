/** The driver side of the Bt87x: it writes the program into memory and keeps the line
    counter up to date. */
module Bt87xChip {
  import opened Bits
  import opened Bt87x

  const ENOMEM := 12

  /** What is left of a line after its first WRITE. */
  function LineRest(lineBytes: nat, block: nat, offset: nat, rest: nat): seq<Op> {
    if rest <= Chunk(offset, rest) then []
    else LineOps(lineBytes, block, offset + Chunk(offset, rest), rest - Chunk(offset, rest))
  }

  lemma {:induction false} LineSplits(done: seq<Op>, lineBytes: nat, block: nat, offset: nat, rest: nat)
    ensures done + LineOps(lineBytes, block, offset, rest)
         == done + [Write(offset, Chunk(offset, rest), rest == lineBytes, Chunk(offset, rest) == rest, block)]
            + LineRest(lineBytes, block, offset, rest)
  {
  }

  lemma {:induction false} LinesSplit(done: seq<Op>, block: nat -> nat, lines: nat, lineBytes: nat, i: nat, offset: nat)
    requires i < lines
    ensures done + LinesOps(block, lines, lineBytes, i, offset)
         == done + LineOps(lineBytes, block(i), offset, lineBytes)
            + LinesOps(block, lines, lineBytes, i + 1, offset + lineBytes)
  {
  }

  class Chip {
    /** The memory of the program, two words an entry; null until the first use. */
    var risc: array?<Instr>
    /** Its bus address. */
    var base: nat
    var lines: nat
    var lineBytes: nat
    var currentLine: nat

    ghost predicate Valid()
      reads this
    {
      risc != null ==> risc.Length * 8 == PAGE_SIZE
    }

    constructor ()
      ensures Valid() && risc == null
    {
      risc, base, lines, lineBytes, currentLine := null, 0, 0, 0, 0;
    }

    /** The first entries of the program memory encode ops. */
    ghost predicate Emitted(page: nat -> nat, ops: seq<Op>)
      reads this, risc
    {
      risc != null && |ops| <= risc.Length && forall k :: 0 <= k < |ops| ==> risc[k] == Encode(page, base, ops[k])
    }

    /** Writes one more entry. */
    method Emit(page: nat -> nat, command: Word, argument: nat, n: nat, ghost done: seq<Op>,
                ghost op: Op) returns (m: nat)
      requires n == |done| && Emitted(page, done) && n < risc.Length
      requires Instr(command, argument) == Encode(page, base, op)
      modifies risc
      ensures Emitted(page, done + [op]) && m == n + 1
    {
      risc[n] := Instr(command, argument);
      m := n + 1;
    }

    /** Assembles the command word of a WRITE. */
    method WriteCommand(len: nat, first: bool, last: bool, block: nat, ghost offset: nat) returns (cmd: Word)
      requires block < 16
      ensures cmd == Command(Write(offset, len, first, last, block))
    {
      cmd := {28} + Put(len, 0, 32);
      if first {
        cmd := cmd + {27};
        cmd := cmd + Put(block, 16, 16);
        cmd := cmd + Put(15 - block, 20, 12);
      }
      if last {
        cmd := cmd + {26, 24};
      }
    }

    /** Writes the WRITEs of line i. */
    method EmitLine(page: nat -> nat, periods: nat, periodBytes: nat, i: nat, start: nat, n: nat, ghost done: seq<Op>)
      returns (m: nat, offset: nat)
      requires n == |done| && Emitted(page, done) && 0 < periodBytes && i < periods
      requires n + |LineOps(periodBytes, Block(i, periods), start, periodBytes)| <= risc.Length
      modifies risc
      ensures offset == start + periodBytes
      ensures var ops := done + LineOps(periodBytes, Block(i, periods), start, periodBytes);
              m == |ops| && Emitted(page, ops)
    {
      var rest := periodBytes;
      m, offset := n, start;
      BlockBound(i, periods);
      var block := Block(i, periods);
      ghost var written := done;
      ghost var all := done + LineOps(periodBytes, block, start, periodBytes);
      while true
        invariant m == |written| && Emitted(page, written) && 0 < rest <= periodBytes
        invariant offset + rest == start + periodBytes
        invariant written + LineOps(periodBytes, block, offset, rest) == all
        decreases rest
      {
        var len := PAGE_SIZE - offset % PAGE_SIZE;
        if len > rest {
          len := rest;
        }
        assert len == Chunk(offset, rest);
        LineSplits(written, periodBytes, block, offset, rest);
        var cmd := WriteCommand(len, rest == periodBytes, len == rest, block, offset);
        ghost var op := Write(offset, len, rest == periodBytes, len == rest, block);
        m := Emit(page, cmd, BusAddress(page, offset), m, written, op);
        written := written + [op];
        offset, rest := offset + len, rest - len;
        if rest == 0 {
          assert written == all;
          break;
        }
      }
    }

    /** Writes the WRITEs of all lines. */
    method EmitLines(page: nat -> nat, periods: nat, periodBytes: nat, n: nat, ghost done: seq<Op>) returns (m: nat)
      requires n == |done| && Emitted(page, done) && 0 < periodBytes
      requires n + |LinesOps(BlockOf(periods), periods, periodBytes, 0, 0)| <= risc.Length
      modifies risc
      ensures var ops := done + LinesOps(BlockOf(periods), periods, periodBytes, 0, 0);
              m == |ops| && Emitted(page, ops)
    {
      var offset := 0;
      m := n;
      ghost var block := BlockOf(periods);
      ghost var written := done;
      ghost var all := done + LinesOps(block, periods, periodBytes, 0, 0);
      for i := 0 to periods
        invariant m == |written| && Emitted(page, written)
        invariant written + LinesOps(block, periods, periodBytes, i, offset) == all
      {
        LinesSplit(written, block, periods, periodBytes, i, offset);
        m, offset := EmitLine(page, periods, periodBytes, i, offset, m, written);
        written := written + LineOps(periodBytes, block(i), offset - periodBytes, periodBytes);
      }
      assert written == all;
    }

    /** Writes one entry whose words depend on op alone. */
    method EmitFixed(page: nat -> nat, op: Op, n: nat, ghost done: seq<Op>) returns (m: nat)
      requires n == |done| && Emitted(page, done) && n < risc.Length
      modifies risc
      ensures Emitted(page, done + [op]) && m == n + 1
    {
      m := Emit(page, Command(op), Argument(page, base, op), n, done, op);
    }

    /** Writes the whole program. */
    method Fill(page: nat -> nat, periods: nat, periodBytes: nat)
      requires Valid() && risc != null && 0 < periods <= 255 && 0 < periodBytes <= 4092
      modifies risc
      ensures Emitted(page, Program(periods, periodBytes))
    {
      ProgramFits(periods, periodBytes);
      ghost var done := [];
      var n := EmitFixed(page, Sync(SYNC_FM1), 0, done);
      done := done + [Sync(SYNC_FM1)];
      n := EmitLines(page, periods, periodBytes, n, done);
      done := done + LinesOps(BlockOf(periods), periods, periodBytes, 0, 0);
      n := EmitFixed(page, Sync(SYNC_VRO), n, done);
      done := done + [Sync(SYNC_VRO)];
      n := EmitFixed(page, Jump, n, done);
      assert done + [Jump] == Program(periods, periodBytes);
    }

    /** Compiles the program for a buffer of periods lines, whose pages lie where page
        says. The first call takes memory for it, at busAddress if granted. */
    method CreateRisc(page: nat -> nat, periods: nat, periodBytes: nat, granted: bool, busAddress: nat) returns (r: int)
      requires Valid() && 0 < periods <= 255 && 0 < periodBytes <= 4092
      modifies this, risc
      ensures Valid() && currentLine == old(currentLine)
      ensures r == if old(risc) == null && !granted then -ENOMEM else 0
      ensures r != 0 ==> risc == null && lines == old(lines) && lineBytes == old(lineBytes) && base == old(base)
      ensures r == 0 ==> lines == periods && lineBytes == periodBytes
      ensures if old(risc) != null then risc == old(risc) && base == old(base) else r == 0 ==> base == busAddress
      ensures r == 0 ==> risc != null && Holds(page, base, risc[..], Program(periods, periodBytes))
    {
      if risc == null {
        if !granted {
          return -ENOMEM;
        }
        risc, base := new Instr[PAGE_SIZE / 8], busAddress;
      }
      Fill(page, periods, periodBytes);
      lines, lineBytes, r := periods, periodBytes, 0;
    }

    /** Counts a line; skips to the block that the status reports if that is another. */
    method Interrupt(irqBlock: nat)
      requires lines > 0
      modifies this`currentLine
      ensures currentLine == Resync(old(currentLine), lines, irqBlock)
    {
      currentLine := (currentLine + 1) % lines;
      var currentBlock := Block(currentLine, lines);
      if currentBlock != irqBlock {
        currentLine := (irqBlock * lines + 15) / 16;
      }
    }
  }
}
