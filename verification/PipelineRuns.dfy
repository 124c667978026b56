/** Runs of pipeline starts, pipeline stops and link setups. */
module PipelineRuns {
  import opened Basics
  import opened MediaGraph
  import opened Traversal
  import opened LinkTables
  import opened Pipelines
  import opened LinkSetup

  /** One call of the pipeline and link interface. */
  datatype Op =
    | Start(e: int, pipe: int)
    | Stop(e: int)
    | Setup(link: Option<Slot>, flags: Flags, answers: Answers)

  /** The link tables and the counters of a device. */
  datatype Snapshot = Snapshot(es: seq<Entity>, c: Counters)

  /** The arguments name an entity of the device or a live link of it. */
  ghost predicate Callable(es: seq<Entity>, op: Op) {
    match op
    case Start(e, _) => 0 <= e < |es|
    case Stop(e) => 0 <= e < |es|
    case Setup(link, _, _) => link.Some? ==> Points(es, link.value) && link.value.index < es[link.value.entity].numLinks
  }

  ghost predicate AllCallable(es: seq<Entity>, ops: seq<Op>) {
    forall i :: 0 <= i < |ops| ==> Callable(es, ops[i])
  }

  /** Slot s holds a link that a setup with these answers switches to flags. */
  ghost predicate Switches(es: seq<Entity>, count: seq<int>, s: Slot, flags: Flags, answers: Answers) {
    && Live(es, s.entity, s.index) && Paired(es, s.entity, s.index)
    && var l := es[s.entity].links[s.index];
       && 0 <= l.source.entity < |count| && 0 <= l.sink.entity < |count|
       && Granted(l, flags, count, answers)
  }

  ghost function AfterSetup(es: seq<Entity>, count: seq<int>, link: Option<Slot>, flags: Flags,
                            answers: Answers): seq<Entity> {
    if link.Some? && Switches(es, count, link.value, flags, answers)
    then SetBothFlags(es, link.value.entity, link.value.index, flags)
    else es
  }

  /** What a call does: a start counts in what the walk visits, a stop counts it out. */
  ghost function Next(s: Snapshot, op: Op): Snapshot {
    match op
    case Start(e, p) => s.(c := MarkAll(s.c, Walk(View(s.es), e), p))
    case Stop(e) => s.(c := UnmarkAll(s.c, Walk(View(s.es), e)))
    case Setup(link, flags, answers) => s.(es := AfterSetup(s.es, s.c.count, link, flags, answers))
  }

  ghost function After(s: Snapshot, ops: seq<Op>): Snapshot
    decreases |ops|
  {
    if |ops| == 0 then s else After(Next(s, ops[0]), ops[1..])
  }

  // ----------------------------------------------- what the calls add up to

  /** What a call adds to the count of x: a start of a component with x one, a stop of
      one minus one. The component is that of the graph at the time of the call. */
  ghost function Change(s: Snapshot, op: Op, x: int): int {
    match op
    case Start(e, _) => if x in Component(View(s.es), e) then 1 else 0
    case Stop(e) => if x in Component(View(s.es), e) then -1 else 0
    case Setup(_, _, _) => 0
  }

  /** The starts that cover x less the stops that cover it. */
  ghost function Balance(s: Snapshot, ops: seq<Op>, x: int): int
    decreases |ops|
  {
    if |ops| == 0 then 0 else Change(s, ops[0], x) + Balance(Next(s, ops[0]), ops[1..], x)
  }

  /** The outstanding starts after a call, each as the set of entities it covered. */
  ghost function StartsAfter(s: Snapshot, op: Op, started: seq<set<int>>): seq<set<int>> {
    match op
    case Start(e, _) => started + [Component(View(s.es), e)]
    case Stop(e) => Undone(started, e)
    case Setup(_, _, _) => started
  }

  ghost function Outstanding(s: Snapshot, ops: seq<Op>, started: seq<set<int>>): seq<set<int>>
    decreases |ops|
  {
    if |ops| == 0 then started else Outstanding(Next(s, ops[0]), ops[1..], StartsAfter(s, ops[0], started))
  }

  /** A stop is called for an entity that streams. */
  predicate Covered(s: Snapshot, op: Op) {
    op.Stop? ==> In(s.c, op.e) && s.c.count[op.e] > 0
  }

  ghost predicate AllCovered(s: Snapshot, ops: seq<Op>)
    decreases |ops|
  {
    |ops| == 0 || (Covered(s, ops[0]) && AllCovered(Next(s, ops[0]), ops[1..]))
  }

  ghost predicate Sound(s: Snapshot, started: seq<set<int>>) {
    Wired(s.es) && Streaming(View(s.es), s.c, started)
  }

  // --------------------------------------------------------------- one call

  lemma {:induction false} NextWired(s: Snapshot, op: Op)
    requires Wired(s.es)
    ensures Wired(Next(s, op).es) && |Next(s, op).es| == |s.es|
  {
    if op.Setup? && op.link.Some? && Switches(s.es, s.c.count, op.link.value, op.flags, op.answers) {
      FlagsWired(s.es, op.link.value.entity, op.link.value.index, op.flags);
    }
  }

  lemma {:induction false} NextCallable(s: Snapshot, op: Op, other: Op)
    requires Callable(s.es, other)
    ensures Callable(Next(s, op).es, other)
  {
    if op.Setup? && op.link.Some? && Switches(s.es, s.c.count, op.link.value, op.flags, op.answers) {
      CallableAfterFlags(s.es, op.link.value.entity, op.link.value.index, op.flags, other);
    }
  }

  lemma {:induction false} NextAllCallable(s: Snapshot, ops: seq<Op>)
    requires |ops| > 0 && AllCallable(s.es, ops)
    ensures AllCallable(Next(s, ops[0]).es, ops) && AllCallable(Next(s, ops[0]).es, ops[1..])
  {
    forall i | 0 <= i < |ops| ensures Callable(Next(s, ops[0]).es, ops[i]) {
      NextCallable(s, ops[0], ops[i]);
    }
  }

  /** A granted setup on a graph without dynamic links finds both ends idle. */
  lemma {:induction false} SetupSound(s: Snapshot, slot: Slot, flags: Flags, answers: Answers, started: seq<set<int>>)
    requires Sound(s, started) && Switches(s.es, s.c.count, slot, flags, answers)
    ensures Sound(s.(es := SetBothFlags(s.es, slot.entity, slot.index, flags)), started)
  {
    var es, e, i := s.es, slot.entity, slot.index;
    var l, es' := es[e].links[i], SetBothFlags(es, e, i, flags);
    FlagsWired(es, e, i, flags);
    WiredView(es');
    GrantedSwitches(es, e, i, flags);
    assert HasSlot(View(es), e, i) && View(es)[e][i] == ToArc(l);
    SwitchKeeps(View(es), View(es'), l.source.entity, l.sink.entity, s.c, started);
  }

  /** Every call keeps the invariant with the outstanding starts it leaves. */
  lemma {:induction false} NextSound(s: Snapshot, op: Op, started: seq<set<int>>)
    requires Sound(s, started) && Callable(s.es, op) && Covered(s, op)
    ensures Sound(Next(s, op), StartsAfter(s, op, started))
  {
    match op {
      case Start(e, p) => StartKeeps(View(s.es), e, p, s.c, started);
      case Stop(e) => StopKeeps(View(s.es), e, s.c, started);
      case Setup(link, flags, answers) =>
        if link.Some? && Switches(s.es, s.c.count, link.value, flags, answers) {
          SetupSound(s, link.value, flags, answers, started);
        }
    }
  }

  /** A call changes the count of each entity by what it adds. */
  lemma {:induction false} NextCount(s: Snapshot, op: Op, started: seq<set<int>>, x: int)
    requires Sound(s, started) && Callable(s.es, op) && In(s.c, x)
    ensures In(Next(s, op).c, x) && Next(s, op).c.count[x] == s.c.count[x] + Change(s, op, x)
  {
    var g := View(s.es);
    match op {
      case Start(e, p) =>
        MarkAllAt(s.c, Walk(g, e), p, x);
        WalkOnSupported(g, e, x);
      case Stop(e) =>
        UnmarkAllAt(s.c, Walk(g, e), x);
        WalkOnSupported(g, e, x);
      case Setup(_, _, _) =>
    }
  }

  // -------------------------------------------------------------- whole runs

  /** Over every run each count is the number of outstanding starts that cover its
      entity, and an entity has a pipeline exactly while its count is positive. */
  lemma {:induction false} RunSound(s: Snapshot, ops: seq<Op>, started: seq<set<int>>)
    requires Sound(s, started) && AllCallable(s.es, ops) && AllCovered(s, ops)
    ensures Sound(After(s, ops), Outstanding(s, ops, started))
    decreases |ops|
  {
    if |ops| > 0 {
      NextSound(s, ops[0], started);
      NextAllCallable(s, ops);
      RunSound(Next(s, ops[0]), ops[1..], StartsAfter(s, ops[0], started));
    }
  }

  /** Over every run each count changes by the starts less the stops whose component,
      when they were called, had the entity. */
  lemma {:induction false} RunCounts(s: Snapshot, ops: seq<Op>, started: seq<set<int>>, x: int)
    requires Sound(s, started) && AllCallable(s.es, ops) && AllCovered(s, ops) && In(s.c, x)
    ensures In(After(s, ops).c, x) && After(s, ops).c.count[x] == s.c.count[x] + Balance(s, ops, x)
    decreases |ops|
  {
    if |ops| > 0 {
      NextSound(s, ops[0], started);
      NextCount(s, ops[0], started, x);
      NextAllCallable(s, ops);
      RunCounts(Next(s, ops[0]), ops[1..], StartsAfter(s, ops[0], started), x);
    }
  }

  /** The pipeline of the last start that covers x, or was if there is none. */
  ghost function LatestPipe(s: Snapshot, ops: seq<Op>, x: int, was: Option<int>): Option<int>
    decreases |ops|
  {
    if |ops| == 0 then was
    else
      var covers := ops[0].Start? && x in Component(View(s.es), ops[0].e);
      LatestPipe(Next(s, ops[0]), ops[1..], x, if covers then Some(ops[0].pipe) else was)
  }

  lemma {:induction false} NextPipe(s: Snapshot, op: Op, started: seq<set<int>>, x: int, was: Option<int>)
    requires Sound(s, started) && Callable(s.es, op) && Covered(s, op) && In(s.c, x)
    requires s.c.count[x] > 0 ==> s.c.pipe[x] == was
    ensures var s' := Next(s, op);
            var latest := if op.Start? && x in Component(View(s.es), op.e) then Some(op.pipe) else was;
            In(s'.c, x) && (s'.c.count[x] > 0 ==> s'.c.pipe[x] == latest)
  {
    var g := View(s.es);
    match op {
      case Start(e, p) =>
        MarkAllAt(s.c, Walk(g, e), p, x);
        WalkOnSupported(g, e, x);
      case Stop(e) =>
        UnmarkAllAt(s.c, Walk(g, e), x);
        WalkOnSupported(g, e, x);
      case Setup(_, _, _) =>
    }
  }

  /** Over every run a streaming entity belongs to the pipeline of the last start that
      covers it, and any other entity to none. */
  lemma {:induction false} RunPipes(s: Snapshot, ops: seq<Op>, started: seq<set<int>>, x: int, was: Option<int>)
    requires Sound(s, started) && AllCallable(s.es, ops) && AllCovered(s, ops) && In(s.c, x)
    requires s.c.count[x] > 0 ==> s.c.pipe[x] == was
    ensures var c := After(s, ops).c;
            In(c, x) && c.pipe[x] == if c.count[x] > 0 then LatestPipe(s, ops, x, was) else None
    decreases |ops|
  {
    if |ops| > 0 {
      NextSound(s, ops[0], started);
      NextPipe(s, ops[0], started, x, was);
      NextAllCallable(s, ops);
      var covers := ops[0].Start? && x in Component(View(s.es), ops[0].e);
      RunPipes(Next(s, ops[0]), ops[1..], StartsAfter(s, ops[0], started), x,
               if covers then Some(ops[0].pipe) else was);
    } else {
      assert CountsStarts(s.c, started);
    }
  }

  ghost function CountStarts(ops: seq<Op>): nat
    decreases |ops|
  {
    if |ops| == 0 then 0 else (if ops[0].Start? then 1 else 0) + CountStarts(ops[1..])
  }

  ghost function CountStops(ops: seq<Op>): nat
    decreases |ops|
  {
    if |ops| == 0 then 0 else (if ops[0].Stop? then 1 else 0) + CountStops(ops[1..])
  }

  /** As many starts are outstanding as were called and not stopped. */
  lemma {:induction false} RunOutstanding(s: Snapshot, ops: seq<Op>, started: seq<set<int>>)
    requires Sound(s, started) && AllCallable(s.es, ops) && AllCovered(s, ops)
    ensures |Outstanding(s, ops, started)| == |started| + CountStarts(ops) - CountStops(ops)
    decreases |ops|
  {
    if |ops| > 0 {
      if ops[0].Stop? { StopKeeps(View(s.es), ops[0].e, s.c, started); }
      NextSound(s, ops[0], started);
      NextAllCallable(s, ops);
      RunOutstanding(Next(s, ops[0]), ops[1..], StartsAfter(s, ops[0], started));
    }
  }

  /** The counters can be explained by some outstanding starts. */
  ghost predicate Explained(s: Snapshot) {
    exists started :: Streaming(View(s.es), s.c, started)
  }

  ghost predicate AllExplained(s: Snapshot, ops: seq<Op>)
    decreases |ops|
  {
    Explained(s) && (|ops| == 0 || AllExplained(Next(s, ops[0]), ops[1..]))
  }

  /** The counters can be explained throughout a run if and only if each of its stops is
      called for an entity that streams. */
  lemma {:induction false} ExplainedExactly(s: Snapshot, ops: seq<Op>)
    requires Wired(s.es) && Explained(s) && AllCallable(s.es, ops)
    ensures AllExplained(s, ops) <==> AllCovered(s, ops)
    decreases |ops|
  {
    if |ops| > 0 {
      var started :| Streaming(View(s.es), s.c, started);
      var op, s' := ops[0], Next(s, ops[0]);
      NextWired(s, op);
      NextAllCallable(s, ops);
      if Covered(s, op) {
        NextSound(s, op, started);
        var kept := Streaming(View(s'.es), s'.c, StartsAfter(s, op, started));
        assert kept;
        ExplainedExactly(s', ops[1..]);
      } else {
        StopNeedsStart(View(s.es), op.e, s.c, started);
      }
    }
  }

  // ---------------------------------------------------------- switching links

  lemma {:induction false} CallableAfterFlags(es: seq<Entity>, e: nat, i: nat, flags: Flags, op: Op)
    requires Live(es, e, i) && Paired(es, e, i) && Callable(es, op)
    ensures Callable(SetBothFlags(es, e, i, flags), op)
  {
  }

  /** A granted link setup switches one link, at both of its ends. */
  lemma {:induction false} GrantedSwitches(es: seq<Entity>, e: nat, i: nat, flags: Flags)
    requires Live(es, e, i) && Paired(es, e, i)
    requires flags == es[e].links[i].flags.(enabled := flags.enabled)
    ensures var l := es[e].links[i];
            Switched(View(es), View(SetBothFlags(es, e, i, flags)), l.source.entity, l.sink.entity)
  {
    FlagsView(es, e, i, flags);
    WithFlagsSwitches(View(es), e, i, es[e].links[i].reverse.entity, es[e].links[i].reverse.index, flags);
  }

  lemma {:induction false} WithFlagsSwitches(g: Graph, e: nat, i: nat, f: nat, j: nat, flags: Flags)
    requires HasSlot(g, e, i) && HasSlot(g, f, j) && e != f && g[e][i] == g[f][j]
    requires flags == g[e][i].flags.(enabled := flags.enabled)
    ensures Switched(g, WithFlags(g, e, i, f, j, flags), e, f)
    ensures Switched(g, WithFlags(g, e, i, f, j, flags), f, e)
  {
  }
}
