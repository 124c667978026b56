/** Packing I2C transfers for the SAA7146: three bytes to a word, each with a two-bit tag
    that says how the bus is to treat it. */
module I2cCodec {
  import opened Bits

  const START := 3
  const CONT := 2
  const STOP := 1

  /** One byte on the bus and its tag. */
  datatype Symbol = Symbol(byte: nat, tag: nat)

  predicate WellFormed(s: Symbol) {
    s.byte < 256 && s.tag < 4
  }

  // ------------------------------------------------------ slots of a word

  /** Where the byte and the tag of slot h lie. */
  function ByteAt(h: nat): nat
    requires h < 3
  {
    (3 - h) * 8
  }

  function TagAt(h: nat): nat
    requires h < 3
  {
    (3 - h) * 2
  }

  function Get(w: Word, h: nat): Symbol
    requires h < 3
  {
    Symbol(Field(w, ByteAt(h), 8), Field(w, TagAt(h), 2))
  }

  function Set(w: Word, h: nat, s: Symbol): Word
    requires h < 3
  {
    w + Put(s.byte, ByteAt(h), 8) + Put(s.tag, TagAt(h), 2)
  }

  ghost predicate Empty(w: Word, h: nat)
    requires h < 3
  {
    Clear(w, ByteAt(h), 8) && Clear(w, TagAt(h), 2)
  }

  lemma {:induction false} SetReadsBack(w: Word, h: nat, s: Symbol)
    requires h < 3 && Empty(w, h) && WellFormed(s)
    ensures Get(Set(w, h, s), h) == s
  {
    assert Pow2(8) == 256 && Pow2(2) == 4;
    var w1 := w + Put(s.byte, ByteAt(h), 8);
    FieldOfPut(w, s.byte, ByteAt(h), 8);
    FieldBeside(w1, s.tag, TagAt(h), 2, ByteAt(h), 8);
    FieldOfPut(w1, s.tag, TagAt(h), 2);
  }

  lemma {:induction false} SetKeepsOthers(w: Word, h: nat, s: Symbol, k: nat)
    requires h < 3 && k < 3 && k != h
    ensures Get(Set(w, h, s), k) == Get(w, k)
    ensures Empty(w, k) ==> Empty(Set(w, h, s), k)
  {
    var w1 := w + Put(s.byte, ByteAt(h), 8);
    FieldBeside(w, s.byte, ByteAt(h), 8, ByteAt(k), 8);
    FieldBeside(w1, s.tag, TagAt(h), 2, ByteAt(k), 8);
    FieldBeside(w, s.byte, ByteAt(h), 8, TagAt(k), 2);
    FieldBeside(w1, s.tag, TagAt(h), 2, TagAt(k), 2);
  }

  /** Turns the tag CONT of a slot into STOP: its upper bit off, its lower bit on. */
  function Stopped(w: Word, h: nat): Word
    requires h < 3
  {
    w - {TagAt(h) + 1} + {TagAt(h)}
  }

  lemma {:induction false} TwoBits(w: Word, lo: nat)
    ensures Field(w, lo, 2) == (if lo in w then 1 else 0) + (if lo + 1 in w then 2 else 0)
  {
    assert Field(w, lo + 2, 0) == 0;
    assert Field(w, lo + 1, 1) == if lo + 1 in w then 1 else 0;
  }

  lemma {:induction false} StoppedReads(w: Word, h: nat, k: nat)
    requires h < 3 && k < 3
    ensures Get(Stopped(w, h), k) == if k == h then Symbol(Get(w, h).byte, STOP) else Get(w, k)
  {
    var v := Stopped(w, h);
    SameField(v, w, ByteAt(k), 8);
    if k == h {
      TwoBits(v, TagAt(h));
    } else {
      SameField(v, w, TagAt(k), 2);
    }
  }

  // ---------------------------------------------------------- the table

  /** Symbol i of a packed table. */
  function Read(op: seq<Word>, i: nat): Symbol {
    if i / 3 < |op| then Get(op[i / 3], i % 3) else Symbol(0, 0)
  }

  /** Slot h of word k holds its symbol, or nothing beyond the last one. */
  ghost predicate SlotHolds(op: seq<Word>, syms: seq<Symbol>, k: nat, h: nat)
    requires k < |op| && h < 3
  {
    if 3 * k + h < |syms| then Get(op[k], h) == syms[3 * k + h] else Empty(op[k], h)
  }

  /** The first mem words of the table hold exactly syms. */
  ghost predicate Carries(op: seq<Word>, mem: nat, syms: seq<Symbol>) {
    && mem <= |op| && |syms| <= 3 * mem
    && forall k: nat, h: nat :: k < mem && h < 3 ==> SlotHolds(op, syms, k, h)
  }

  lemma {:induction false} CarriesReads(op: seq<Word>, mem: nat, syms: seq<Symbol>, i: nat)
    requires Carries(op, mem, syms) && i < |syms|
    ensures Read(op, i) == syms[i]
  {
    var holds := SlotHolds(op, syms, i / 3, i % 3);
    assert holds;
  }

  /** The table with s put into slot h of word k. */
  function Placed(op: seq<Word>, k: nat, h: nat, s: Symbol): seq<Word>
    requires k < |op| && h < 3
  {
    op[k := Set(op[k], h, s)]
  }

  lemma {:induction false} CarriesMore(op: seq<Word>, mem: nat, syms: seq<Symbol>, s: Symbol, k: nat, h: nat)
    requires Carries(op, mem, syms) && k < mem && h < 3 && |syms| == 3 * k + h && WellFormed(s)
    ensures Carries(Placed(op, k, h, s), mem, syms + [s])
  {
    var op' := Placed(op, k, h, s);
    forall k': nat, h': nat | k' < mem && h' < 3 ensures SlotHolds(op', syms + [s], k', h') {
      var held := SlotHolds(op, syms, k', h');
      assert held;
      if k' == k {
        if h' == h {
          SetReadsBack(op[k], h, s);
        } else {
          SetKeepsOthers(op[k], h, s, h');
        }
      }
    }
  }

  // -------------------------------------------------------- the messages

  /** A message to or from a device: len bytes of memory from start on. */
  datatype Message = Message(address: nat, read: bool, start: nat, len: nat)

  /** Memory holds bytes, and the messages lie in it. */
  ghost predicate Fits(memory: seq<nat>, msgs: seq<Message>) {
    && (forall i :: 0 <= i < |memory| ==> memory[i] < 256)
    && forall k :: 0 <= k < |msgs| ==> msgs[k].start + msgs[k].len <= |memory|
  }

  /** The address byte: seven bits of address and the direction. */
  function AddressByte(m: Message): nat {
    (m.address * 2 + if m.read then 1 else 0) % 256
  }

  /** The first j data bytes of a message, as symbols. */
  function DataSymbols(memory: seq<nat>, m: Message, j: nat): seq<Symbol>
    requires m.start + j <= |memory|
  {
    seq(j, k requires 0 <= k < j => Symbol(memory[m.start + k], CONT))
  }

  function MessageSymbols(memory: seq<nat>, m: Message): seq<Symbol>
    requires m.start + m.len <= |memory|
  {
    [Symbol(AddressByte(m), START)] + DataSymbols(memory, m, m.len)
  }

  /** The transfer of the first k messages: each starts anew, and its bytes continue. */
  ghost function Symbols(memory: seq<nat>, msgs: seq<Message>, k: nat): seq<Symbol>
    requires Fits(memory, msgs) && k <= |msgs|
  {
    if k == 0 then [] else Symbols(memory, msgs, k - 1) + MessageSymbols(memory, msgs[k - 1])
  }

  /** A transfer that ends in a data byte ends in STOP. */
  function Ended(syms: seq<Symbol>): seq<Symbol> {
    if |syms| > 0 && syms[|syms| - 1].tag == CONT then syms[|syms| - 1 := Symbol(syms[|syms| - 1].byte, STOP)] else syms
  }

  /** The number of symbols of the first k messages. */
  function Total(msgs: seq<Message>, k: nat): nat
    requires k <= |msgs|
  {
    if k == 0 then 0 else Total(msgs, k - 1) + msgs[k - 1].len + 1
  }

  lemma {:induction false} TotalCounts(memory: seq<nat>, msgs: seq<Message>, k: nat)
    requires Fits(memory, msgs) && k <= |msgs|
    ensures |Symbols(memory, msgs, k)| == Total(msgs, k) >= k
    decreases k
  {
    if k > 0 {
      TotalCounts(memory, msgs, k - 1);
    }
  }

  lemma {:induction false} TotalGrows(msgs: seq<Message>, k: nat, n: nat)
    requires k <= n <= |msgs|
    ensures Total(msgs, k) <= Total(msgs, n)
    decreases n
  {
    if k < n {
      TotalGrows(msgs, k, n - 1);
    }
  }

  /** Data byte j of message k is symbol number Total(msgs, k) + 1 + j. */
  lemma {:induction false} DataSymbolAt(memory: seq<nat>, msgs: seq<Message>, k: nat, n: nat, j: nat)
    requires Fits(memory, msgs) && k < n <= |msgs| && j < msgs[k].len
    ensures Total(msgs, k) + 1 + j < |Symbols(memory, msgs, n)|
    ensures Symbols(memory, msgs, n)[Total(msgs, k) + 1 + j] == Symbol(memory[msgs[k].start + j], CONT)
    decreases n
  {
    TotalCounts(memory, msgs, n - 1);
    if k < n - 1 {
      DataSymbolAt(memory, msgs, k, n - 1, j);
    }
  }

  /** Each message begins with its address byte, tagged START. */
  lemma {:induction false} HeadSymbolAt(memory: seq<nat>, msgs: seq<Message>, k: nat, n: nat)
    requires Fits(memory, msgs) && k < n <= |msgs|
    ensures Total(msgs, k) < |Symbols(memory, msgs, n)|
    ensures Symbols(memory, msgs, n)[Total(msgs, k)] == Symbol(AddressByte(msgs[k]), START)
    decreases n
  {
    TotalCounts(memory, msgs, n - 1);
    if k < n - 1 {
      HeadSymbolAt(memory, msgs, k, n - 1);
    }
  }

  // ----------------------------------------------------- writing back

  function Poked(memory: seq<nat>, i: nat, v: nat): seq<nat> {
    if i < |memory| then memory[i := v] else memory
  }

  /** The bytes of a table, by the number of their symbol. */
  ghost function BytesOf(op: seq<Word>): nat -> nat {
    i => Read(op, i).byte
  }

  /** Memory after the first j bytes of message m, whose data starts at symbol at, are
      written back. */
  ghost function MessageBack(memory: seq<nat>, read: nat -> nat, m: Message, at: nat, j: nat): (r: seq<nat>)
    ensures |r| == |memory|
  {
    if j == 0 then memory else Poked(MessageBack(memory, read, m, at, j - 1), m.start + j - 1, read(at + j - 1))
  }

  /** Memory after the first k messages are written back. */
  ghost function AllBack(memory: seq<nat>, read: nat -> nat, msgs: seq<Message>, k: nat): (r: seq<nat>)
    requires k <= |msgs|
    ensures |r| == |memory|
  {
    if k == 0 then memory
    else MessageBack(AllBack(memory, read, msgs, k - 1), read, msgs[k - 1], Total(msgs, k - 1) + 1, msgs[k - 1].len)
  }

  /** Symbol at + i carries byte i of message m. */
  ghost predicate Matches(memory: seq<nat>, read: nat -> nat, m: Message, at: nat, i: nat) {
    m.start + i < |memory| ==> read(at + i) == memory[m.start + i]
  }

  lemma {:induction false} MessageBackSame(memory: seq<nat>, read: nat -> nat, m: Message, at: nat, j: nat)
    requires forall i: nat :: i < j ==> Matches(memory, read, m, at, i)
    ensures MessageBack(memory, read, m, at, j) == memory
    decreases j
  {
    if j > 0 {
      MessageBackSame(memory, read, m, at, j - 1);
      var last := Matches(memory, read, m, at, j - 1);
      assert last;
    }
  }

  lemma {:induction false} PackedMatches(memory: seq<nat>, op: seq<Word>, msgs: seq<Message>, mem: nat, k: nat, i: nat)
    requires Fits(memory, msgs) && k < |msgs| && i < msgs[k].len
    requires Carries(op, mem, Ended(Symbols(memory, msgs, |msgs|)))
    ensures Matches(memory, BytesOf(op), msgs[k], Total(msgs, k) + 1, i)
  {
    var syms := Symbols(memory, msgs, |msgs|);
    DataSymbolAt(memory, msgs, k, |msgs|, i);
    var at := Total(msgs, k) + 1 + i;
    assert Ended(syms)[at].byte == syms[at].byte;
    CarriesReads(op, mem, Ended(syms), at);
  }

  lemma {:induction false} MessageUnchanged(memory: seq<nat>, op: seq<Word>, msgs: seq<Message>, mem: nat, k: nat,
                                            m: Message, at: nat)
    requires Fits(memory, msgs) && k < |msgs| && Carries(op, mem, Ended(Symbols(memory, msgs, |msgs|)))
    requires m == msgs[k] && at == Total(msgs, k) + 1
    ensures MessageBack(memory, BytesOf(op), m, at, m.len) == memory
  {
    forall i: nat | i < m.len ensures Matches(memory, BytesOf(op), m, at, i) {
      PackedMatches(memory, op, msgs, mem, k, i);
    }
    MessageBackSame(memory, BytesOf(op), m, at, m.len);
  }

  /** Writing back what was packed changes nothing. */
  lemma {:induction false} RoundTrip(memory: seq<nat>, op: seq<Word>, msgs: seq<Message>, mem: nat, k: nat)
    requires Fits(memory, msgs) && k <= |msgs| && Carries(op, mem, Ended(Symbols(memory, msgs, |msgs|)))
    ensures AllBack(memory, BytesOf(op), msgs, k) == memory
    decreases k
  {
    if k > 0 {
      RoundTrip(memory, op, msgs, mem, k - 1);
      MessageUnchanged(memory, op, msgs, mem, k - 1, msgs[k - 1], Total(msgs, k - 1) + 1);
    }
  }

  // --------------------------------------------------------- the last byte

  lemma {:induction false} StopCarries(op: seq<Word>, mem: nat, syms: seq<Symbol>, k: nat, h: nat)
    requires Carries(op, mem, syms) && k < mem && h < 3 && |syms| - 1 == 3 * k + h
    ensures Get(op[k], h) == syms[|syms| - 1]
    ensures syms[|syms| - 1].tag == CONT ==> Carries(op[k := Stopped(op[k], h)], mem, Ended(syms))
  {
    var op' := op[k := Stopped(op[k], h)];
    var last := SlotHolds(op, syms, k, h);
    assert last;
    if syms[|syms| - 1].tag == CONT {
      forall k': nat, h': nat | k' < mem && h' < 3 ensures SlotHolds(op', Ended(syms), k', h') {
        var held := SlotHolds(op, syms, k', h');
        assert held;
        if k' == k {
          StoppedReads(op[k], h, h');
        }
      }
    }
  }

  // --------------------------------------------- what the bus is told

  /** Symbol i of the table has this byte and this tag. */
  ghost predicate Says(op: seq<Word>, i: nat, byte: nat, tag: nat) {
    i / 3 < |op| && Field(op[i / 3], 24 - 8 * (i % 3), 8) == byte && Field(op[i / 3], 6 - 2 * (i % 3), 2) == tag
  }

  lemma {:induction false} CarriesSays(op: seq<Word>, mem: nat, syms: seq<Symbol>, i: nat)
    requires Carries(op, mem, syms) && i < |syms|
    ensures Says(op, i, syms[i].byte, syms[i].tag)
  {
    CarriesReads(op, mem, syms, i);
    assert ByteAt(i % 3) == 24 - 8 * (i % 3) && TagAt(i % 3) == 6 - 2 * (i % 3);
  }

  lemma {:induction false} LastSymbol(memory: seq<nat>, msgs: seq<Message>)
    requires Fits(memory, msgs) && 0 < |msgs|
    ensures var syms, m := Symbols(memory, msgs, |msgs|), msgs[|msgs| - 1];
            |syms| == Total(msgs, |msgs| - 1) + 1 + m.len && (syms[|syms| - 1].tag == CONT <==> m.len > 0)
  {
    var n := |msgs| - 1;
    TotalCounts(memory, msgs, n);
    TotalCounts(memory, msgs, n + 1);
    if msgs[n].len > 0 {
      DataSymbolAt(memory, msgs, n, n + 1, msgs[n].len - 1);
    } else {
      HeadSymbolAt(memory, msgs, n, n + 1);
    }
  }

  /** The symbols of a transfer, by the part of the message they stand for. */
  lemma {:induction false} HeadSymbol(memory: seq<nat>, msgs: seq<Message>, k: nat)
    requires Fits(memory, msgs) && k < |msgs|
    ensures var syms, at := Ended(Symbols(memory, msgs, |msgs|)), Total(msgs, k);
            at < |syms| && syms[at] == Symbol((2 * msgs[k].address + (if msgs[k].read then 1 else 0)) % 256, 3)
  {
    HeadSymbolAt(memory, msgs, k, |msgs|);
  }

  lemma {:induction false} DataSymbol(memory: seq<nat>, msgs: seq<Message>, k: nat, j: nat)
    requires Fits(memory, msgs) && k < |msgs| && j < msgs[k].len
    ensures var syms, at := Ended(Symbols(memory, msgs, |msgs|)), Total(msgs, k) + 1 + j;
            at < |syms| && syms[at] == Symbol(memory[msgs[k].start + j],
                                              if k == |msgs| - 1 && j == msgs[k].len - 1 then 1 else 2)
  {
    DataSymbolAt(memory, msgs, k, |msgs|, j);
    LastSymbol(memory, msgs);
    if k < |msgs| - 1 {
      TotalGrows(msgs, k + 1, |msgs| - 1);
    }
  }

  /** Each message starts with twice its address, plus 1 to read, and a start condition. */
  lemma {:induction false} HeadTold(memory: seq<nat>, op: seq<Word>, msgs: seq<Message>, mem: nat, k: nat)
    requires Fits(memory, msgs) && Carries(op, mem, Ended(Symbols(memory, msgs, |msgs|))) && k < |msgs|
    ensures Says(op, Total(msgs, k), (2 * msgs[k].address + (if msgs[k].read then 1 else 0)) % 256, 3)
  {
    HeadSymbol(memory, msgs, k);
    CarriesSays(op, mem, Ended(Symbols(memory, msgs, |msgs|)), Total(msgs, k));
  }

  /** Each data byte follows, the very last one with a stop condition. */
  lemma {:induction false} DataTold(memory: seq<nat>, op: seq<Word>, msgs: seq<Message>, mem: nat, k: nat, j: nat)
    requires Fits(memory, msgs) && Carries(op, mem, Ended(Symbols(memory, msgs, |msgs|)))
    requires k < |msgs| && j < msgs[k].len
    ensures Says(op, Total(msgs, k) + 1 + j, memory[msgs[k].start + j],
                 if k == |msgs| - 1 && j == msgs[k].len - 1 then 1 else 2)
  {
    DataSymbol(memory, msgs, k, j);
    CarriesSays(op, mem, Ended(Symbols(memory, msgs, |msgs|)), Total(msgs, k) + 1 + j);
  }

  // ------------------------------------------------- what a read brings

  lemma {:induction false} MessageBackAt(memory: seq<nat>, read: nat -> nat, m: Message, at: nat, j: nat, i: nat)
    requires i < |memory|
    ensures MessageBack(memory, read, m, at, j)[i]
         == if m.start <= i < m.start + j then read(at + (i - m.start)) else memory[i]
    decreases j
  {
    if j > 0 {
      MessageBackAt(memory, read, m, at, j - 1, i);
    }
  }

  predicate Apart(a: Message, b: Message) {
    a.start + a.len <= b.start || b.start + b.len <= a.start
  }

  /** Writing back puts the byte of each symbol where its message has it, if no two
      messages share memory. */
  lemma {:induction false} ReadsArrive(memory: seq<nat>, read: nat -> nat, msgs: seq<Message>, k: nat, n: nat, j: nat)
    requires k < n <= |msgs| && j < msgs[k].len && msgs[k].start + j < |memory|
    requires forall i :: 0 <= i < |msgs| && i != k ==> Apart(msgs[i], msgs[k])
    ensures AllBack(memory, read, msgs, n)[msgs[k].start + j] == read(Total(msgs, k) + 1 + j)
    decreases n
  {
    var i, m, at, before := msgs[k].start + j, msgs[n - 1], Total(msgs, n - 1) + 1, AllBack(memory, read, msgs, n - 1);
    MessageBackAt(before, read, m, at, m.len, i);
    if k < n - 1 {
      ReadsArrive(memory, read, msgs, k, n - 1, j);
      assert Apart(msgs[n - 1], msgs[k]);
    }
  }
}
