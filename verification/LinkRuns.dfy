/** Runs that build a device: entities are initialised, links are created and set up. */
module LinkRuns {
  import opened Basics
  import opened MediaGraph
  import opened LinkTables
  import opened LinkSetup

  /** One call; memory flags say whether an allocation succeeds if one is needed, and
      junk is what lies in fresh memory. A link is named by its entity and slot. */
  datatype Op =
    | Init(numPads: nat, extraLinks: nat, memoryOk: bool, junk: Link)
    | Create(source: nat, sourcePad: nat, sink: nat, sinkPad: nat, flags: Flags,
             sourceMemoryOk: bool, sinkMemoryOk: bool, junk: Link)
    | Configure(entity: nat, index: nat, flags: Flags, answers: Answers)

  /** What a run is about: pads and room for links of each entity, and the graph. */
  datatype Shape = Shape(pads: seq<nat>, room: seq<nat>, graph: Graph)

  ghost function ShapeOf(es: seq<Entity>): (s: Shape)
    ensures |s.pads| == |s.room| == |s.graph| == |es|
    ensures forall e :: 0 <= e < |es| ==> s.pads[e] == es[e].numPads && s.room[e] == |es[e].links|
  {
    Shape(seq(|es|, e requires 0 <= e < |es| => es[e].numPads),
          seq(|es|, e requires 0 <= e < |es| => |es[e].links|), View(es))
  }

  /** The pads of the entities after a call. */
  function PadsAfter(pads: seq<nat>, op: Op): seq<nat> {
    if op.Init? && op.memoryOk then pads + [op.numPads] else pads
  }

  /** A link is created between pads of two entities that are there. */
  predicate Callable(pads: seq<nat>, op: Op) {
    op.Create? ==>
      && op.source < |pads| && op.sink < |pads| && op.source != op.sink
      && op.sourcePad < pads[op.source] && op.sinkPad < pads[op.sink]
  }

  ghost predicate Allowed(pads: seq<nat>, ops: seq<Op>)
    decreases |ops|
  {
    |ops| == 0 || (Callable(pads, ops[0]) && Allowed(PadsAfter(pads, ops[0]), ops[1..]))
  }

  /** The links array of e is full. */
  predicate Full(s: Shape, e: nat) {
    e < |s.room| && e < |s.graph| && |s.graph[e]| == s.room[e]
  }

  /** The rooms after a link was created or not: a full array that gets memory has two
      more slots, also if the other end then fails. */
  ghost predicate RoomsAfter(s: Shape, s': Shape, op: Op)
    requires op.Create?
  {
    var first := !Full(s, op.source) || op.sourceMemoryOk;
    |s'.room| == |s.room| && forall f :: 0 <= f < |s.room| ==>
      s'.room[f] == s.room[f] + if f == op.source && Full(s, f) && first then 2
                                else if f == op.sink && Full(s, f) && first && op.sinkMemoryOk then 2
                                else 0
  }

  /** The slots an array gains when a link is added and memory is found. */
  function Extra(en: Entity): nat {
    if en.numLinks == |en.links| then 2 else 0
  }

  /** Slots i of e and j of f are the two ends of one link. */
  predicate Twins(g: Graph, e: nat, i: nat, f: nat, j: nat) {
    HasSlot(g, e, i) && HasSlot(g, f, j) && e != f && g[e][i] == g[f][j]
  }

  /** An idle link with these flags may get the requested ones, and all drivers agree. */
  predicate GrantedIdle(flags: Flags, request: Flags, answers: Answers) {
    && request == flags.(enabled := !flags.enabled) && !flags.immutable
    && !(request.enabled && answers.notify.Some? && answers.notify.value < 0)
    && !Refused(answers.source) && !Refused(answers.sink)
  }

  /** The graph after slot i of e and its other end got new flags. */
  ghost predicate Reconfigured(g: Graph, g': Graph, e: nat, i: nat, flags: Flags) {
    exists f: nat, j: nat :: Twins(g, e, i, f, j) && g' == WithFlags(g, e, i, f, j, flags)
  }

  /** What a call that returns ret does. */
  ghost predicate Step(s: Shape, s': Shape, op: Op, ret: int) {
    match op
    case Init(numPads, extraLinks, memoryOk, _) =>
      if memoryOk then ret == 0 && s' == Shape(s.pads + [numPads], s.room + [numPads + extraLinks], s.graph + [[]])
      else ret == -ENOMEM && s' == s
    case Create(source, sourcePad, sink, sinkPad, flags, sourceMemoryOk, sinkMemoryOk, _) =>
      && s'.pads == s.pads && RoomsAfter(s, s', op)
      && if (Full(s, source) && !sourceMemoryOk) || (Full(s, sink) && !sinkMemoryOk)
         then ret == -ENOMEM && s'.graph == s.graph
         else ret == 0 && AddsLink(s.graph, s'.graph, source, sink,
                                   Arc(Pad(source, sourcePad), Pad(sink, sinkPad), flags))
    case Configure(e, i, flags, answers) =>
      if !HasSlot(s.graph, e, i) then ret == -EINVAL && s' == s
      else
        var was := s.graph[e][i].flags;
        if GrantedIdle(was, flags, answers)
        then ret == 0 && s' == s.(graph := s'.graph) && Reconfigured(s.graph, s'.graph, e, i, flags)
        else (ret == 0 <==> flags == was) && s' == s
  }

  // ------------------------------------------------------- creating a link

  /** The first array is full and finds no memory. */
  lemma {:induction false} NotCreated(es: seq<Entity>, op: Op)
    requires Wired(es) && op.Create? && op.source < |es| && op.sink < |es| && op.source != op.sink
    requires es[op.source].numLinks == |es[op.source].links| && !op.sourceMemoryOk
    ensures Step(ShapeOf(es), ShapeOf(es), op, -ENOMEM)
  {
    EntityCounted(es, op.source);
  }

  lemma {:induction false} TwiceRoomier(es: seq<Entity>, one: seq<Entity>, es': seq<Entity>, op: Op)
    requires Wired(es) && op.Create? && op.source < |es| && op.sink < |es| && op.source != op.sink
    requires !Full(ShapeOf(es), op.source) || op.sourceMemoryOk
    requires Roomier(es, one, op.source, Extra(es[op.source])) && one[op.sink].numLinks == es[op.sink].numLinks
    requires Roomier(one, es', op.sink, if op.sinkMemoryOk then Extra(one[op.sink]) else 0)
    ensures ShapeOf(es').pads == ShapeOf(es).pads && RoomsAfter(ShapeOf(es), ShapeOf(es'), op)
  {
    EntityCounted(es, op.source);
    EntityCounted(es, op.sink);
    forall f | 0 <= f < |es|
      ensures es'[f].numPads == es[f].numPads
      ensures |es'[f].links| == |es[f].links| + (if f == op.source then Extra(es[op.source]) else 0)
                              + (if f == op.sink && op.sinkMemoryOk then Extra(es[op.sink]) else 0)
    {
      assert RoomierAt(es[f], one[f], if f == op.source then Extra(es[op.source]) else 0);
      assert RoomierAt(one[f], es'[f], if f == op.sink && op.sinkMemoryOk then Extra(one[op.sink]) else 0);
    }
  }

  /** The first array has its slot, and the second one was tried. */
  lemma {:induction false} BothTried(es: seq<Entity>, one: seq<Entity>, es': seq<Entity>, op: Op, ret: int)
    requires Wired(es) && op.Create? && op.source < |es| && op.sink < |es| && op.source != op.sink
    requires es[op.source].numLinks != |es[op.source].links| || op.sourceMemoryOk
    requires Roomier(es, one, op.source, Extra(es[op.source]))
    requires one[op.sink].numLinks == es[op.sink].numLinks && |one[op.sink].links| == |es[op.sink].links|
    requires Roomier(one, es', op.sink, if op.sinkMemoryOk then Extra(one[op.sink]) else 0)
    requires ret == if es[op.sink].numLinks == |es[op.sink].links| && !op.sinkMemoryOk then -ENOMEM else 0
    requires ret != 0 ==> View(es') == View(es)
    requires ret == 0 ==> AddsLink(View(es), View(es'), op.source, op.sink,
                                   Arc(Pad(op.source, op.sourcePad), Pad(op.sink, op.sinkPad), op.flags))
    ensures Step(ShapeOf(es), ShapeOf(es'), op, ret)
  {
    EntityCounted(es, op.source);
    EntityCounted(es, op.sink);
    TwiceRoomier(es, one, es', op);
  }

  // ------------------------------------------------------- what is kept

  /** a' is a as far as a setup may change it. */
  predicate SameLink(a: Arc, a': Arc) {
    && a'.source == a.source && a'.sink == a.sink
    && a'.flags == a.flags.(enabled := a'.flags.enabled)
    && (a.flags.immutable ==> a' == a)
  }

  /** Every link of g is still there: in its slot, with its pads and all flags but
      ENABLED, and with that one too if it is immutable. */
  ghost predicate Keeps(g: Graph, g': Graph) {
    |g| <= |g'| && forall e, i :: HasSlot(g, e, i) ==> HasSlot(g', e, i) && SameLink(g[e][i], g'[e][i])
  }

  lemma {:induction false} ReconfiguredKeeps(g: Graph, g': Graph, e: nat, i: nat, flags: Flags)
    requires HasSlot(g, e, i) && Reconfigured(g, g', e, i, flags)
    requires flags == g[e][i].flags.(enabled := !g[e][i].flags.enabled) && !g[e][i].flags.immutable
    ensures Keeps(g, g')
  {
    var f: nat, j: nat :| Twins(g, e, i, f, j) && g' == WithFlags(g, e, i, f, j, flags);
    forall x, y | HasSlot(g, x, y) ensures HasSlot(g', x, y) && SameLink(g[x][y], g'[x][y]) {
    }
  }

  /** One call keeps every link. */
  lemma {:induction false} StepKeeps(s: Shape, s': Shape, op: Op, ret: int)
    requires Step(s, s', op, ret)
    ensures Keeps(s.graph, s'.graph)
  {
    if op.Configure? && HasSlot(s.graph, op.entity, op.index) {
      if GrantedIdle(s.graph[op.entity][op.index].flags, op.flags, op.answers) {
        ReconfiguredKeeps(s.graph, s'.graph, op.entity, op.index, op.flags);
      }
    }
  }

  lemma {:induction false} KeepsTransitive(a: Graph, b: Graph, c: Graph)
    requires Keeps(a, b) && Keeps(b, c)
    ensures Keeps(a, c)
  {
    forall e, i | HasSlot(a, e, i) ensures HasSlot(c, e, i) && SameLink(a[e][i], c[e][i]) {
      assert HasSlot(b, e, i);
    }
  }

  /** The shapes a run goes through, call by call. */
  ghost predicate Trace(trace: seq<Shape>, ops: seq<Op>, rets: seq<int>) {
    && |trace| == |ops| + 1 && |rets| == |ops|
    && forall i :: 0 <= i < |ops| ==> StepAt(trace, ops, rets, i)
  }

  ghost predicate StepAt(trace: seq<Shape>, ops: seq<Op>, rets: seq<int>, i: int) {
    0 <= i < |ops| && i < |rets| && i + 1 < |trace| && Step(trace[i], trace[i + 1], ops[i], rets[i])
  }

  /** Over every run no link is lost or moved to other pads, only ENABLED ever changes,
      and never on an immutable link. */
  lemma {:induction false} TraceKeeps(trace: seq<Shape>, ops: seq<Op>, rets: seq<int>, i: nat, j: nat)
    requires Trace(trace, ops, rets) && i <= j <= |ops|
    ensures Keeps(trace[i].graph, trace[j].graph)
    decreases j
  {
    if i < j {
      TraceKeeps(trace, ops, rets, i, j - 1);
      var step := StepAt(trace, ops, rets, j - 1);
      assert step;
      StepKeeps(trace[j - 1], trace[j], ops[j - 1], rets[j - 1]);
      KeepsTransitive(trace[i].graph, trace[j - 1].graph, trace[j].graph);
    }
  }

  lemma {:induction false} TraceGrows(trace: seq<Shape>, ops: seq<Op>, rets: seq<int>, n: nat, s: Shape, ret: int)
    requires n < |ops| && |trace| == n + 1 && |rets| == n && Step(trace[n], s, ops[n], ret)
    requires forall k :: 0 <= k < n ==> StepAt(trace, ops, rets, k)
    ensures forall k :: 0 <= k < n + 1 ==> StepAt(trace + [s], ops, rets + [ret], k)
  {
    forall k | 0 <= k < n + 1 ensures StepAt(trace + [s], ops, rets + [ret], k) {
      if k < n {
        assert StepAt(trace, ops, rets, k);
      }
    }
  }

  // ------------------------------------------------------------ one setup

  /** With nothing streaming, a setup is granted by its flags and the answers alone. */
  lemma {:induction false} GrantedWhenIdle(l: Link, flags: Flags, count: seq<int>, answers: Answers)
    requires 0 <= l.source.entity < |count| && 0 <= l.sink.entity < |count|
    requires forall e :: 0 <= e < |count| ==> count[e] == 0
    ensures Granted(l, flags, count, answers) <==> GrantedIdle(l.flags, flags, answers)
  {
  }

  /** What new flags of a link and its reverse do to the shape. */
  lemma {:induction false} Configured(es: seq<Entity>, count: seq<int>, e: nat, i: nat, flags: Flags, answers: Answers)
    requires Wired(es) && Live(es, e, i) && Paired(es, e, i) && |count| == |es|
    requires forall e :: 0 <= e < |count| ==> count[e] == 0
    ensures HasSlot(View(es), e, i) && View(es)[e][i].flags == es[e].links[i].flags
    ensures Granted(es[e].links[i], flags, count, answers) <==> GrantedIdle(es[e].links[i].flags, flags, answers)
    ensures var s, s' := ShapeOf(es), ShapeOf(SetBothFlags(es, e, i, flags));
            s' == s.(graph := s'.graph) && Reconfigured(s.graph, s'.graph, e, i, flags)
  {
    var l, es' := es[e].links[i], SetBothFlags(es, e, i, flags);
    var r := l.reverse;
    GrantedWhenIdle(l, flags, count, answers);
    FlagsView(es, e, i, flags);
    assert ShapeOf(es').pads == ShapeOf(es).pads && ShapeOf(es').room == ShapeOf(es).room;
    var twins := Twins(View(es), e, i, r.entity, r.index);
    assert twins;
  }
}
