/** Preparing an I2C transfer and writing back its result. */
module I2cTransfer {
  import opened Bits
  import opened I2cCodec

  const ENOMEM := 12
  const I2C_MEM := 4096

  lemma {:induction false} DataGrows(memory: seq<nat>, m: Message, j: nat)
    requires m.start + j < |memory|
    ensures DataSymbols(memory, m, j) + [Symbol(memory[m.start + j], CONT)] == DataSymbols(memory, m, j + 1)
  {
  }

  /** Puts the next symbol into the table. */
  method PutSymbol(op: array<Word>, mem: nat, opCount: nat, byte: nat, tag: nat, ghost syms: seq<Symbol>)
    requires opCount == |syms| < 3 * mem && byte < 256 && tag < 4 && Carries(op[..], mem, syms)
    modifies op
    ensures Carries(op[..], mem, syms + [Symbol(byte, tag)])
    ensures op[mem..] == old(op[mem..])
  {
    var h1, h2 := opCount / 3, opCount % 3;
    CarriesMore(op[..], mem, syms, Symbol(byte, tag), h1, h2);
    ghost var was := op[..];
    op[h1] := op[h1] + Put(byte, (3 - h2) * 8, 8);
    op[h1] := op[h1] + Put(tag, (3 - h2) * 2, 2);
    assert op[..] == Placed(was, h1, h2, Symbol(byte, tag));
  }

  /** Packs one message. */
  method PutMessage(m: Message, memory: array<nat>, op: array<Word>, mem: nat, start: nat, ghost syms: seq<Symbol>)
    returns (opCount: nat)
    requires start == |syms| && start + m.len + 1 <= 3 * mem && Carries(op[..], mem, syms)
    requires m.start + m.len <= memory.Length && forall i :: 0 <= i < memory.Length ==> memory[i] < 256
    modifies op
    ensures Carries(op[..], mem, syms + MessageSymbols(memory[..], m)) && opCount == start + m.len + 1
    ensures op[mem..] == old(op[mem..])
  {
    ghost var bytes := memory[..];
    var addr := m.address * 2 + if m.read then 1 else 0;
    PutSymbol(op, mem, start, addr % 256, START, syms);
    opCount := start + 1;
    ghost var head := syms + [Symbol(AddressByte(m), START)];
    assert head + DataSymbols(bytes, m, 0) == head;
    for j := 0 to m.len
      invariant opCount == start + 1 + j && Carries(op[..], mem, head + DataSymbols(bytes, m, j))
      invariant op[mem..] == old(op[mem..])
    {
      PutSymbol(op, mem, opCount, memory[m.start + j], CONT, head + DataSymbols(bytes, m, j));
      DataGrows(bytes, m, j);
      assert head + DataSymbols(bytes, m, j) + [Symbol(bytes[m.start + j], CONT)]
          == head + DataSymbols(bytes, m, j + 1);
      opCount := opCount + 1;
    }
    assert head + DataSymbols(bytes, m, m.len) == syms + MessageSymbols(bytes, m);
  }

  /** Packs the messages, or refuses if they do not fit the page. Every word it writes is
      among the mem words it returns, and these hold the transfer. */
  method Prepare(msgs: seq<Message>, memory: array<nat>, op: array<Word>) returns (r: int)
    requires 0 < |msgs| && Fits(memory[..], msgs) && op.Length * 4 == 4096
    modifies op
    ensures var total := Total(msgs, |msgs|);
            r == if 4 * ((total + 2) / 3) > 4096 then -12 else (total + 2) / 3
    ensures r < 0 ==> op[..] == old(op[..])
    ensures r >= 0 ==> r <= op.Length && op[r..] == old(op[r..])
    ensures r >= 0 ==> Carries(op[..], r, Ended(Symbols(memory[..], msgs, |msgs|)))
  {
    ghost var bytes := memory[..];
    var mem := 0;
    for i := 0 to |msgs|
      invariant mem == Total(msgs, i) >= i
    {
      mem := mem + msgs[i].len + 1;
    }
    mem := 1 + (mem - 1) / 3;
    if 4 * mem > I2C_MEM {
      return -ENOMEM;
    }
    ClearWords(op, mem);
    var opCount := 0;
    for i := 0 to |msgs|
      invariant opCount == Total(msgs, i) == |Symbols(bytes, msgs, i)| && Carries(op[..], mem, Symbols(bytes, msgs, i))
      invariant op[mem..] == old(op[mem..])
    {
      TotalGrows(msgs, i + 1, |msgs|);
      opCount := PutMessage(msgs[i], memory, op, mem, opCount, Symbols(bytes, msgs, i));
    }
    EndTransfer(op, mem, opCount, Symbols(bytes, msgs, |msgs|));
    r := mem;
  }

  method ClearWords(op: array<Word>, mem: nat)
    requires mem <= op.Length
    modifies op
    ensures Carries(op[..], mem, []) && op[mem..] == old(op[mem..])
  {
    for i := 0 to mem
      invariant forall k :: 0 <= k < i ==> op[k] == {}
      invariant op[mem..] == old(op[mem..])
    {
      op[i] := {};
    }
  }

  /** Turns the tag of a last data byte into STOP. */
  method EndTransfer(op: array<Word>, mem: nat, opCount: nat, ghost syms: seq<Symbol>)
    requires 0 < opCount == |syms| && Carries(op[..], mem, syms)
    modifies op
    ensures Carries(op[..], mem, Ended(syms)) && op[mem..] == old(op[mem..])
  {
    var h1, h2 := (opCount - 1) / 3, (opCount - 1) % 3;
    StopCarries(op[..], mem, syms, h1, h2);
    if Field(op[h1], (3 - h2) * 2, 2) == CONT {
      ghost var was := op[..];
      op[h1] := op[h1] - {(3 - h2) * 2 + 1} + {(3 - h2) * 2};
      assert op[..] == was[h1 := Stopped(was[h1], h2)];
    }
  }

  lemma {:induction false} NextBack(memory: seq<nat>, read: nat -> nat, msgs: seq<Message>, i: nat, at: nat)
    requires i < |msgs| && at == Total(msgs, i) + 1
    ensures AllBack(memory, read, msgs, i + 1)
         == MessageBack(AllBack(memory, read, msgs, i), read, msgs[i], at, msgs[i].len)
  {
  }

  /** Writes all data bytes back from the table. */
  method Cleanup(msgs: seq<Message>, memory: array<nat>, op: array<Word>)
    requires Total(msgs, |msgs|) <= 3 * op.Length
    requires forall k :: 0 <= k < |msgs| ==> msgs[k].start + msgs[k].len <= memory.Length
    modifies memory
    ensures memory[..] == AllBack(old(memory[..]), BytesOf(op[..]), msgs, |msgs|)
  {
    var opCount := 0;
    ghost var was, table := memory[..], op[..];
    for i := 0 to |msgs|
      invariant opCount == Total(msgs, i) && op[..] == table && memory[..] == AllBack(was, BytesOf(table), msgs, i)
    {
      opCount := WriteBackNext(msgs, i, memory, op, opCount, was, table);
    }
  }

  method WriteBackNext(msgs: seq<Message>, i: nat, memory: array<nat>, op: array<Word>, start: nat,
                       ghost was: seq<nat>, ghost table: seq<Word>) returns (opCount: nat)
    requires i < |msgs| && msgs[i].start + msgs[i].len <= memory.Length && Total(msgs, |msgs|) <= 3 * op.Length
    requires start == Total(msgs, i) && op[..] == table && memory[..] == AllBack(was, BytesOf(table), msgs, i)
    modifies memory
    ensures opCount == Total(msgs, i + 1) && memory[..] == AllBack(was, BytesOf(table), msgs, i + 1)
  {
    TotalGrows(msgs, i + 1, |msgs|);
    NextBack(was, BytesOf(table), msgs, i, start + 1);
    opCount := WriteBack(msgs[i], memory, op, start + 1, table);
  }

  /** Reads the byte of symbol i. */
  method ReadByte(op: array<Word>, i: nat) returns (byte: nat)
    requires i < 3 * op.Length
    ensures byte == BytesOf(op[..])(i)
  {
    byte := Field(op[i / 3], (3 - i % 3) * 8, 8);
  }

  /** Writes the bytes of one message back. */
  method WriteBack(m: Message, memory: array<nat>, op: array<Word>, start: nat,
                   ghost table: seq<Word>) returns (opCount: nat)
    requires start + m.len <= 3 * op.Length && m.start + m.len <= memory.Length && op[..] == table
    modifies memory
    ensures opCount == start + m.len && memory[..] == MessageBack(old(memory[..]), BytesOf(table), m, start, m.len)
  {
    opCount := start;
    ghost var was, read := memory[..], BytesOf(table);
    for j := 0 to m.len
      invariant opCount == start + j && memory[..] == MessageBack(was, read, m, start, j)
    {
      ghost var now := memory[..];
      var byte := ReadByte(op, opCount);
      memory[m.start + j] := byte;
      assert memory[..] == Poked(now, m.start + j, read(opCount));
      opCount := opCount + 1;
    }
  }

  /** Nothing but the transfer in between: what was packed comes back unchanged. */
  method PrepareAndCleanup(msgs: seq<Message>, memory: array<nat>, op: array<Word>) returns (r: int)
    requires 0 < |msgs| && Fits(memory[..], msgs) && op.Length * 4 == 4096
    modifies op, memory
    ensures memory[..] == old(memory[..])
  {
    r := Prepare(msgs, memory, op);
    if r >= 0 {
      ghost var bytes := memory[..];
      TotalCounts(bytes, msgs, |msgs|);
      Cleanup(msgs, memory, op);
      RoundTrip(bytes, op[..], msgs, r, |msgs|);
    }
  }
}
