/** The capture queue of the SAA7146: submissions, interrupts and timeouts in any order. */
module BufferQueue {
  import opened Basics

  datatype BufState = Active | Queued | Done | Error

  /** The queue and its history; each submission has its own number. */
  datatype View = View(curr: Option<int>, waiting: seq<int>, state: map<int, BufState>,
                       sent: seq<int>, finished: seq<int>)

  datatype Op = Submit(buf: int) | Irq | Timeout

  function Current(v: View): seq<int> {
    if v.curr.Some? then [v.curr.value] else []
  }

  // ------------------------------------------------------- the calls

  predicate Callable(v: View, op: Op) {
    op.Submit? ==> op.buf !in v.state
  }

  /** The current buffer is over. */
  function Finished(v: View, outcome: BufState): View {
    if v.curr.None? then v
    else v.(curr := None, state := v.state[v.curr.value := outcome], finished := v.finished + [v.curr.value])
  }

  /** The first waiting buffer, if any, becomes the current one. */
  function Advanced(v: View): View {
    if |v.waiting| == 0 then v
    else v.(curr := Some(v.waiting[0]), waiting := v.waiting[1..], state := v.state[v.waiting[0] := Active])
  }

  function Next(v: View, op: Op): View {
    match op
    case Submit(b) =>
      if v.curr.None? then v.(curr := Some(b), state := v.state[b := Active], sent := v.sent + [b])
      else v.(waiting := v.waiting + [b], state := v.state[b := Queued], sent := v.sent + [b])
    case Irq => Advanced(Finished(v, Done))
    case Timeout => Finished(v, Error)
  }

  // ------------------------------------------------- where buffers are

  /** Each submitted buffer is in exactly one place, and its state says which. */
  ghost predicate Placed(v: View) {
    && NoRepeats(v.waiting) && NoRepeats(v.finished) && NoRepeats(v.sent)
    && (forall b :: b in v.state <==> b in v.sent)
    && (forall b :: b in v.state ==> (v.state[b] == Active <==> v.curr == Some(b)))
    && (forall b :: b in v.state ==> (v.state[b] == Queued <==> b in v.waiting))
    && (forall b :: b in v.state ==> (v.state[b] == Done || v.state[b] == Error <==> b in v.finished))
    && (v.curr.Some? ==> v.curr.value in v.state)
    && (forall b :: b in v.waiting ==> b in v.state)
    && (forall b :: b in v.finished ==> b in v.state)
  }

  lemma {:induction false} SubmitPlaced(v: View, b: int)
    requires Placed(v) && b !in v.state
    ensures Placed(Next(v, Submit(b)))
  {
  }

  lemma {:induction false} FinishedPlaced(v: View, outcome: BufState)
    requires Placed(v) && (outcome == Done || outcome == Error)
    ensures Placed(Finished(v, outcome)) && Finished(v, outcome).curr == None
  {
  }

  lemma {:induction false} AdvancedPlaced(v: View)
    requires Placed(v) && v.curr == None
    ensures Placed(Advanced(v))
  {
    if |v.waiting| > 0 {
      assert v.waiting[0] in v.waiting;
      assert v.waiting == [v.waiting[0]] + v.waiting[1..];
    }
  }

  lemma {:induction false} NextPlaced(v: View, op: Op)
    requires Placed(v) && Callable(v, op)
    ensures Placed(Next(v, op))
  {
    match op {
      case Submit(b) => SubmitPlaced(v, b);
      case Irq =>
        FinishedPlaced(v, Done);
        AdvancedPlaced(Finished(v, Done));
      case Timeout => FinishedPlaced(v, Error);
    }
  }

  // -------------------------------------------------------- their order

  /** Buffers are finished in the order they were submitted. */
  ghost predicate InOrder(v: View) {
    v.sent == v.finished + Current(v) + v.waiting
  }

  lemma {:induction false} SubmitOrder(v: View, b: int)
    requires Placed(v) && b !in v.state && InOrder(v)
    ensures InOrder(Next(v, Submit(b))) <==> !(v.curr.None? && |v.waiting| > 0)
  {
    if v.curr.None? && |v.waiting| > 0 {
      var n := |v.finished|;
      assert v.waiting[0] in v.waiting;
      assert (v.sent + [b])[n] == v.waiting[0] && (v.finished + [b] + v.waiting)[n] == b;
    }
  }

  lemma {:induction false} FinishedOrder(v: View, outcome: BufState)
    requires InOrder(v)
    ensures InOrder(Finished(v, outcome)) && Finished(v, outcome).curr.None?
  {
  }

  lemma {:induction false} AdvancedOrder(v: View)
    requires InOrder(v) && v.curr.None?
    ensures InOrder(Advanced(v))
  {
    if |v.waiting| > 0 {
      assert v.waiting == [v.waiting[0]] + v.waiting[1..];
    }
  }

  /** A call keeps the order exactly if it does not submit a buffer while others wait
      and none is current: such a buffer overtakes the waiting ones. */
  lemma {:induction false} OrderExactly(v: View, op: Op)
    requires Placed(v) && Callable(v, op) && InOrder(v)
    ensures InOrder(Next(v, op)) <==> !(op.Submit? && v.curr.None? && |v.waiting| > 0)
  {
    match op {
      case Submit(b) => SubmitOrder(v, b);
      case Irq =>
        FinishedOrder(v, Done);
        AdvancedOrder(Finished(v, Done));
      case Timeout => FinishedOrder(v, Error);
    }
  }

  // -------------------------------------------------------- whole runs

  ghost function Run(v: View, ops: seq<Op>): View
    decreases |ops|
  {
    if |ops| == 0 then v else Run(Next(v, ops[0]), ops[1..])
  }

  ghost predicate Allowed(v: View, ops: seq<Op>)
    decreases |ops|
  {
    |ops| == 0 || (Callable(v, ops[0]) && Allowed(Next(v, ops[0]), ops[1..]))
  }

  lemma {:induction false} RunPlaced(v: View, ops: seq<Op>)
    requires Placed(v) && Allowed(v, ops)
    ensures Placed(Run(v, ops))
    decreases |ops|
  {
    if |ops| > 0 {
      NextPlaced(v, ops[0]);
      RunPlaced(Next(v, ops[0]), ops[1..]);
    }
  }

  /** Nothing waits unless a buffer is current. */
  predicate Busy(v: View) {
    v.curr.None? ==> |v.waiting| == 0
  }

  /** Without timeouts, nothing waits for nothing and completion is in order. */
  lemma {:induction false} RunInOrder(v: View, ops: seq<Op>)
    requires Placed(v) && Allowed(v, ops) && InOrder(v) && Busy(v) && Timeout !in ops
    ensures InOrder(Run(v, ops)) && Busy(Run(v, ops))
    decreases |ops|
  {
    if |ops| > 0 {
      assert ops[0] != Timeout;
      NextPlaced(v, ops[0]);
      OrderExactly(v, ops[0]);
      RunInOrder(Next(v, ops[0]), ops[1..]);
    }
  }

  lemma {:induction false} RunSnoc(v: View, ops: seq<Op>, op: Op)
    ensures Run(v, ops + [op]) == Next(Run(v, ops), op)
    ensures Allowed(v, ops + [op]) <==> Allowed(v, ops) && Callable(Run(v, ops), op)
    decreases |ops|
  {
    if |ops| > 0 {
      assert (ops + [op])[1..] == ops[1..] + [op];
      RunSnoc(Next(v, ops[0]), ops[1..], op);
    } else {
      assert (ops + [op])[1..] == [];
    }
  }

  // ---------------------------------------------- what the calls add up to

  const EMPTY := View(None, [], map[], [], [])

  /** The buffers that were submitted, in order. */
  ghost function Submitted(ops: seq<Op>): seq<int> {
    if |ops| == 0 then []
    else
      var before, op := Submitted(ops[..|ops| - 1]), ops[|ops| - 1];
      if op.Submit? then before + [op.buf] else before
  }

  /** How many of them interrupts have finished, if there are no timeouts: each interrupt
      one, as long as there is one. */
  ghost function Completed(ops: seq<Op>): nat {
    if |ops| == 0 then 0
    else
      var before, op := Completed(ops[..|ops| - 1]), ops[|ops| - 1];
      if op.Irq? && before < |Submitted(ops)| then before + 1 else before
  }

  /** Of the buffers bs the first c are done, the next one is current and the others wait,
      in order. */
  ghost predicate Lined(v: View, bs: seq<int>, c: nat) {
    && c <= |bs| && NoRepeats(bs) && v.sent == bs && v.finished == bs[..c]
    && v.curr == (if c < |bs| then Some(bs[c]) else None)
    && v.waiting == (if c < |bs| then bs[c + 1..] else [])
    && (forall b :: b in v.state <==> b in bs)
    && forall i :: 0 <= i < |bs| ==> v.state[bs[i]] == if i < c then Done else if i == c then Active else Queued
  }

  lemma {:induction false} SubmitLined(v: View, bs: seq<int>, c: nat, b: int)
    requires Lined(v, bs, c) && b !in v.state
    ensures Lined(Next(v, Submit(b)), bs + [b], c)
  {
    var bs' := bs + [b];
    if c < |bs| {
      assert bs'[c + 1..] == bs[c + 1..] + [b];
    } else {
      assert bs'[c + 1..] == [];
    }
    assert bs'[..c] == bs[..c];
  }

  lemma {:induction false} IrqLined(v: View, bs: seq<int>, c: nat)
    requires Lined(v, bs, c)
    ensures Lined(Next(v, Irq), bs, if c < |bs| then c + 1 else c)
  {
    if c < |bs| {
      assert bs[..c + 1] == bs[..c] + [bs[c]];
      if c + 1 < |bs| {
        assert bs[c + 1..][0] == bs[c + 1] && bs[c + 1..][1..] == bs[c + 2..];
      }
    }
  }

  /** Where every buffer is after a run without timeouts, from the calls alone. */
  lemma {:induction false} RunLined(ops: seq<Op>)
    requires Allowed(EMPTY, ops) && Timeout !in ops
    ensures Lined(Run(EMPTY, ops), Submitted(ops), Completed(ops))
    decreases |ops|
  {
    if |ops| > 0 {
      var k := |ops| - 1;
      var before, op := ops[..k], ops[k];
      assert ops == before + [op] && op != Timeout;
      RunSnoc(EMPTY, before, op);
      RunLined(before);
      var v := Run(EMPTY, before);
      match op {
        case Submit(b) => SubmitLined(v, Submitted(before), Completed(before), b);
        case Irq => IrqLined(v, Submitted(before), Completed(before));
      }
    }
  }

  /** Buffer b is current when call k of the run comes, and that call is op. */
  ghost predicate EndedBy(v: View, ops: seq<Op>, b: int, k: nat, op: Op) {
    k < |ops| && ops[k] == op && Run(v, ops[..k]).curr == Some(b)
  }

  ghost predicate Ended(v: View, ops: seq<Op>, b: int, op: Op) {
    exists k: nat :: EndedBy(v, ops, b, k, op)
  }

  lemma {:induction false} EndedSnoc(v: View, ops: seq<Op>, last: Op, b: int, op: Op)
    ensures Ended(v, ops + [last], b, op) <==> Ended(v, ops, b, op) || (last == op && Run(v, ops).curr == Some(b))
  {
    var all := ops + [last];
    if k: nat :| EndedBy(v, all, b, k, op) {
      if k < |ops| {
        assert all[..k] == ops[..k];
        assert EndedBy(v, ops, b, k, op);
      } else {
        assert all[..k] == ops;
      }
    }
    if k: nat :| EndedBy(v, ops, b, k, op) {
      assert all[..k] == ops[..k];
      assert EndedBy(v, all, b, k, op);
    }
    if last == op && Run(v, ops).curr == Some(b) {
      assert all[..|ops|] == ops;
      assert EndedBy(v, all, b, |ops|, op);
    }
  }

  lemma {:induction false} NextOutcome(v: View, op: Op, b: int)
    requires Placed(v) && Callable(v, op)
    ensures var s, s' := v.state, Next(v, op).state;
            && (b in s' && s'[b] == Done <==> (b in s && s[b] == Done) || (op == Irq && v.curr == Some(b)))
            && (b in s' && s'[b] == Error <==> (b in s && s[b] == Error) || (op == Timeout && v.curr == Some(b)))
  {
    if |v.waiting| > 0 {
      assert v.waiting[0] in v.waiting;
    }
  }

  /** Over every run, with timeouts or without: a buffer is done if and only if an
      interrupt came while it was current, and has failed if and only if a timeout did. */
  lemma {:induction false} OutcomeExactly(ops: seq<Op>, b: int)
    requires Allowed(EMPTY, ops)
    ensures var v := Run(EMPTY, ops);
            && (b in v.state && v.state[b] == Done <==> Ended(EMPTY, ops, b, Irq))
            && (b in v.state && v.state[b] == Error <==> Ended(EMPTY, ops, b, Timeout))
    decreases |ops|
  {
    if |ops| > 0 {
      var k := |ops| - 1;
      var before, op := ops[..k], ops[k];
      assert ops == before + [op];
      RunSnoc(EMPTY, before, op);
      OutcomeExactly(before, b);
      RunPlaced(EMPTY, before);
      NextOutcome(Run(EMPTY, before), op, b);
      EndedSnoc(EMPTY, before, op, b, Irq);
      EndedSnoc(EMPTY, before, op, b, Timeout);
    }
  }

  /** A timeout leaves the waiting buffers waiting, and the next interrupt starts the first
      of them. */
  lemma {:induction false} TimeoutStalls(v: View)
    requires Placed(v)
    ensures var v' := Next(v, Timeout);
            && v'.curr == None && v'.waiting == v.waiting && v'.sent == v.sent
            && (|v.waiting| > 0 ==> Next(v', Irq).curr == Some(v.waiting[0]) && Next(v', Irq).waiting == v.waiting[1..])
  {
  }

  // ---------------------------------------------------------- the queue

  class DmaQueue {
    var curr: Option<int>
    var queue: seq<int>
    /** The states of the buffers. */
    var state: map<int, BufState>
    ghost var sent: seq<int>
    ghost var finished: seq<int>

    ghost function Snapshot(): View
      reads this
    {
      View(curr, queue, state, sent, finished)
    }

    constructor ()
      ensures Snapshot() == View(None, [], map[], [], [])
    {
      curr, queue, state, sent, finished := None, [], map[], [], [];
    }

    method Queue(buf: int)
      requires Callable(Snapshot(), Submit(buf))
      modifies this
      ensures Snapshot() == Next(old(Snapshot()), Submit(buf))
    {
      if curr == None {
        curr := Some(buf);
        state := state[buf := Active];
      } else {
        queue := queue + [buf];
        state := state[buf := Queued];
      }
      sent := sent + [buf];
    }

    /** The precondition is the condition that the driver treats as a fatal bug. */
    method Finish(outcome: BufState)
      requires curr != None
      modifies this
      ensures Snapshot() == Finished(old(Snapshot()), outcome)
    {
      state := state[curr.value := outcome];
      finished := finished + [curr.value];
      curr := None;
    }

    method ActivateNext()
      modifies this
      ensures Snapshot() == Advanced(old(Snapshot()))
    {
      if |queue| != 0 {
        var buf := queue[0];
        queue := queue[1..];
        curr := Some(buf);
        state := state[buf := Active];
      }
    }

    method IrqDone()
      modifies this
      ensures Snapshot() == Next(old(Snapshot()), Irq)
    {
      if curr != None {
        Finish(Done);
      }
      ActivateNext();
    }

    method TimeOut()
      modifies this
      ensures Snapshot() == Next(old(Snapshot()), Timeout)
    {
      if curr != None {
        Finish(Error);
      }
    }

    /** Every interleaving keeps each buffer in one place; without timeouts buffers are
        finished in the order they were submitted. */
    method Perform(ops: seq<Op>)
      requires Placed(Snapshot()) && Allowed(Snapshot(), ops)
      modifies this
      ensures Snapshot() == Run(old(Snapshot()), ops) && Placed(Snapshot())
    {
      ghost var v := Snapshot();
      RunPlaced(v, ops);
      assert ops[0..] == ops;
      for i := 0 to |ops|
        invariant Run(Snapshot(), ops[i..]) == Run(v, ops) && Allowed(Snapshot(), ops[i..])
      {
        assert ops[i..][0] == ops[i] && ops[i..][1..] == ops[i + 1..];
        match ops[i] {
          case Submit(b) => Queue(b);
          case Irq => IrqDone();
          case Timeout => TimeOut();
        }
      }
    }
  }
}
