/** Media entities, their links and pipelines, updated in place. */
module MediaEntity {
  import opened Basics
  import opened MediaGraph
  import opened Traversal
  import opened LinkTables
  import opened Pipelines
  import opened GraphWalks
  import opened LinkSetup
  import opened PipelineRuns
  import opened LinkRuns

  class MediaDevice {
    var entities: seq<Entity>
    var streamCount: seq<int>
    var pipe: seq<Option<int>>

    ghost predicate Valid()
      reads this
    {
      var wired := Wired(entities);
      wired && |streamCount| == |entities| && |pipe| == |entities|
    }

    /** The graph a traversal sees. */
    ghost function Seen(): Graph
      reads this`entities
    {
      View(entities)
    }

    constructor ()
      ensures Valid() && entities == []
    {
      entities, streamCount, pipe := [], [], [];
    }

    /** media_entity_init: a fresh entity with an empty links array. */
    method InitEntity(numPads: nat, extraLinks: nat, memoryOk: bool, zeroed: Link) returns (ret: int)
      requires Valid()
      modifies this
      ensures Valid()
      ensures ret == if memoryOk then 0 else -ENOMEM
      ensures ret != 0 ==> entities == old(entities) && streamCount == old(streamCount) && pipe == old(pipe)
      ensures ret == 0 ==> Seen() == old(Seen()) + [[]]
      ensures ret == 0 ==> |entities| == |old(entities)| + 1 && entities[..|old(entities)|] == old(entities)
      ensures ret == 0 ==> entities[|old(entities)|].numPads == numPads
      ensures ret == 0 ==> |entities[|old(entities)|].links| == numPads + extraLinks
      ensures ret == 0 ==> streamCount == old(streamCount) + [0] && pipe == old(pipe) + [None]
    {
      if !memoryOk {
        return -ENOMEM;
      }
      var en := Entity(numPads, 0, 0, seq(numPads + extraLinks, _ => zeroed), 0);
      EntityAdded(entities, en);
      entities := entities + [en];
      streamCount, pipe := streamCount + [0], pipe + [None];
      ret := 0;
    }

    /** The krealloc branch of media_entity_add_link: two more slots, at a new
        address, and every partner of a live slot told where it is now. */
    method Grow(e: nat, junk: Link, ghost building: set<nat>)
      requires e < |entities| && e !in building && Wired(Hide(entities, building))
      modifies this`entities
      ensures Growing(old(entities), entities, e, building, old(entities[e].numLinks))
    {
      ghost var was := entities;
      EntityCounted(Hide(was, building), e);
      var en := entities[e];
      entities := entities[e := en.(links := en.links + [junk, junk], generation := en.generation + 1)];
      GrowStart(was, entities, e, building, junk);
      for i := 0 to en.numLinks
        invariant Growing(was, entities, e, building, i)
      {
        TellPartner(e, i, was, building);
      }
    }

    /** One iteration of that loop: links[i].reverse->reverse = &links[i]. */
    method TellPartner(e: nat, i: nat, ghost was: seq<Entity>, ghost building: set<nat>)
      requires Wired(Hide(was, building)) && Growing(was, entities, e, building, i) && i < was[e].numLinks
      modifies this`entities
      ensures Growing(was, entities, e, building, i + 1)
    {
      GrowStep(was, entities, e, building, i);
      entities := SetReverse(entities, entities[e].links[i].reverse, Slot(e, entities[e].generation, i));
    }

    /** media_entity_add_link: the address of a new last slot of e, after moving its
        array if it is full. The entities in building already have a last slot that
        is not filled yet. */
    method AddLink(e: nat, memoryOk: bool, junk: Link, ghost building: set<nat>) returns (slot: Option<Slot>)
      requires e < |entities| && e !in building && Wired(Hide(entities, building))
      modifies this`entities
      ensures slot == None <==> old(entities[e].numLinks == |entities[e].links|) && !memoryOk
      ensures slot == None ==> entities == old(entities)
      ensures slot.Some? ==> Opened(old(entities), entities, e, building)
      ensures slot.Some? ==> Roomier(old(entities), entities, e, Extra(old(entities[e])))
      ensures slot.Some? ==> slot.value == Slot(e, entities[e].generation, entities[e].numLinks - 1)
    {
      ghost var es := entities;
      EntityCounted(Hide(es, building), e);
      if entities[e].numLinks >= |entities[e].links| {
        if !memoryOk {
          return None;
        }
        Grow(e, junk, building);
        ghost var moved := entities;
        entities := entities[e := entities[e].(numLinks := entities[e].numLinks + 1)];
        OpenedAfterMove(es, moved, entities, e, building);
        OpenedRoomier(es, entities, e, building, 2);
      } else {
        entities := entities[e := entities[e].(numLinks := entities[e].numLinks + 1)];
        OpenedInPlace(es, entities, e, building);
        OpenedRoomier(es, entities, e, building, 0);
      }
      return Some(Slot(e, entities[e].generation, entities[e].numLinks - 1));
    }

    /** media_entity_create_link. The graph gains the link at both ends, or nothing about
        it changes; which it is, and what room the arrays then have, follows from which
        arrays are full and get memory. */
    method CreateLink(source: nat, sourcePad: nat, sink: nat, sinkPad: nat, flags: Flags,
                      sourceMemoryOk: bool, sinkMemoryOk: bool, junk: Link) returns (ret: int)
      requires Valid() && source < |entities| && sink < |entities| && source != sink
      requires sourcePad < entities[source].numPads && sinkPad < entities[sink].numPads
      modifies this`entities
      ensures Valid()
      ensures Step(old(Shaped()), Shaped(),
                   Create(source, sourcePad, sink, sinkPad, flags, sourceMemoryOk, sinkMemoryOk, junk), ret)
    {
      ghost var es := entities;
      HideNothing(es);
      var l := Link(Pad(source, sourcePad), Pad(sink, sinkPad), junk.reverse, flags);
      ret := CreateBoth(source, sink, l, sourceMemoryOk, sinkMemoryOk, junk, es,
                        Create(source, sourcePad, sink, sinkPad, flags, sourceMemoryOk, sinkMemoryOk, junk));
    }

    /** Adds the link at its source and then at its sink. */
    method CreateBoth(source: nat, sink: nat, l: Link, sourceMemoryOk: bool, sinkMemoryOk: bool, junk: Link,
                      ghost es: seq<Entity>, ghost op: LinkRuns.Op) returns (ret: int)
      requires source < |es| && sink < |es| && source != sink && Hide(es, {}) == es == entities && Wired(es)
      requires Joint(es, source, l) && l.source.entity == source && l.sink.entity == sink
      requires op.Create? && op.source == source && op.sink == sink
      requires op.sourceMemoryOk == sourceMemoryOk && op.sinkMemoryOk == sinkMemoryOk
      requires ToArc(l) == Arc(Pad(source, op.sourcePad), Pad(sink, op.sinkPad), op.flags)
      modifies this`entities
      ensures |entities| == |es| && Wired(entities) && Step(ShapeOf(es), ShapeOf(entities), op, ret)
    {
      var link := AddLink(source, sourceMemoryOk, junk, {});
      if link == None {
        NotCreated(es, op);
        return -ENOMEM;
      }
      ret := CreateBacklink(source, sink, l, link.value, sinkMemoryOk, junk, es, op);
    }

    /** The second half of media_entity_create_link, once the link has its slot. */
    method CreateBacklink(source: nat, sink: nat, l: Link, link: Slot, memoryOk: bool, junk: Link,
                          ghost es: seq<Entity>, ghost op: LinkRuns.Op) returns (ret: int)
      requires source < |es| && sink < |es| && source != sink && Hide(es, {}) == es && Wired(es)
      requires Joint(es, source, l) && l.source.entity == source && l.sink.entity == sink
      requires Opened(es, entities, source, {}) && Roomier(es, entities, source, Extra(es[source]))
      requires link == Slot(source, entities[source].generation, entities[source].numLinks - 1)
      requires op.Create? && op.source == source && op.sink == sink && op.sinkMemoryOk == memoryOk
      requires es[source].numLinks != |es[source].links| || op.sourceMemoryOk
      requires ToArc(l) == Arc(Pad(source, op.sourcePad), Pad(sink, op.sinkPad), op.flags)
      modifies this`entities
      ensures |entities| == |es| && Wired(entities) && Step(ShapeOf(es), ShapeOf(entities), op, ret)
    {
      ghost var one := entities;
      OpenedKeeps(es, one, source, {}, sink);
      ret := FillLink(source, sink, l, link, memoryOk, junk, es);
      BothTried(es, one, entities, op, ret);
    }

    /** Fills the slot of the link and adds the backlink, or gives the slot up. */
    method FillLink(source: nat, sink: nat, l: Link, link: Slot, memoryOk: bool, junk: Link,
                    ghost es: seq<Entity>) returns (ret: int)
      requires source < |es| && sink < |es| && source != sink && Hide(es, {}) == es
      requires Joint(es, source, l) && l.source.entity == source && l.sink.entity == sink
      requires Opened(es, entities, source, {})
      requires link == Slot(source, entities[source].generation, entities[source].numLinks - 1)
      modifies this`entities
      ensures |entities| == |es| && Wired(entities)
      ensures ret == if old(entities[sink].numLinks == |entities[sink].links|) && !memoryOk then -ENOMEM else 0
      ensures ret == 0 ==> AddsLink(View(es), View(entities), source, sink, ToArc(l))
      ensures ret != 0 ==> View(entities) == View(es)
      ensures Roomier(old(entities), entities, sink, if memoryOk then Extra(old(entities[sink])) else 0)
    {
      ghost var one := entities;
      LinkWritten(es, one, source, l);
      entities := entities[source := FillLast(entities[source], l)];
      ghost var mid := entities;
      var backlink := AddLink(sink, memoryOk, junk, {source});
      if backlink == None {
        entities := entities[source := HideLast(entities[source])];
        LinkAbandoned(es, one, l, mid, entities, source, sink);
        return -ENOMEM;
      }
      FinishLink(source, sink, l, link, backlink.value, es, one, mid);
      return 0;
    }

    /** Fills the link and the backlink and makes each the reverse of the other. */
    method FinishLink(source: nat, sink: nat, l: Link, link: Slot, backlink: Slot,
                      ghost es: seq<Entity>, ghost one: seq<Entity>, ghost mid: seq<Entity>)
      requires source < |es| && sink < |es| && source != sink && Hide(es, {}) == es
      requires Joint(es, source, l) && l.source.entity == source && l.sink.entity == sink
      requires Opened(es, one, source, {}) && mid == one[source := FillLast(one[source], l)]
      requires Opened(mid, entities, sink, {source}) && Roomier(mid, entities, sink, Extra(mid[sink]))
      requires link == Slot(source, one[source].generation, one[source].numLinks - 1)
      requires backlink == Slot(sink, entities[sink].generation, entities[sink].numLinks - 1)
      modifies this`entities
      ensures Wired(entities) && AddsLink(View(es), View(entities), source, sink, ToArc(l))
      ensures Roomier(one, entities, sink, Extra(one[sink]))
    {
      ghost var two := entities;
      OpenedKeeps(mid, two, sink, {source}, source);
      entities := FillBoth(entities, source, sink, l, link, backlink);
      LinkFinished(es, one, l, mid, two, entities, source, sink, Extra(one[sink]));
    }

    // ------------------------------------------------------- link setup

    /** Asks the drivers of source and sink. If only the source agrees it is given the old
        flags again. */
    static method AskDrivers(was: Flags, flags: Flags, answers: Answers) returns (ret: int, calls: seq<Call>)
      ensures ret < 0 <==> Refused(answers.source) || Refused(answers.sink)
      ensures ret == if answers.source.Some? && answers.source.value < 0 && answers.source.value != -515
                     then answers.source.value
                     else if answers.sink.Some? && answers.sink.value < 0 && answers.sink.value != -515
                     then answers.sink.value
                     else 0
      ensures LastNotify(calls) == None && LastSource(calls).Some? == answers.source.Some?
      ensures LastSink(calls) == if answers.sink.Some? && !Refused(answers.source) then Some(flags) else None
      ensures LastSource(calls).Some? && !Refused(answers.source) ==>
                LastSource(calls).value == if ret < 0 then was else flags
    {
      calls := [];
      if answers.source.Some? {
        calls := [SourceSetup(flags)];
      }
      ret := Answer(answers.source);
      if ret < 0 && ret != -ENOIOCTLCMD {
        return;
      }
      if answers.sink.Some? {
        LastConcat(calls, [SinkSetup(flags)]);
        calls := calls + [SinkSetup(flags)];
      }
      ret := Answer(answers.sink);
      if ret < 0 && ret != -ENOIOCTLCMD {
        if answers.source.Some? {
          LastConcat(calls, [SourceSetup(was)]);
          calls := calls + [SourceSetup(was)];
        }
        return;
      }
      ret := 0;
    }

    /** __media_entity_setup_link_notify. */
    method SetupLinkNotify(link: Slot, flags: Flags, answers: Answers) returns (ret: int, calls: seq<Call>)
      requires Valid() && Points(entities, link) && link.index < entities[link.entity].numLinks
      modifies this`entities
      ensures Valid()
      ensures ret < 0 <==> Refused(answers.source) || Refused(answers.sink)
      ensures ret < 0 ==> entities == old(entities) && ret == Refusal(answers)
      ensures Live(old(entities), link.entity, link.index) && Paired(old(entities), link.entity, link.index)
      ensures ret >= 0 ==> ret == 0 && entities == SetBothFlags(old(entities), link.entity, link.index, flags)
      ensures LastNotify(calls) == None && LastSource(calls).Some? == answers.source.Some?
      ensures LastSink(calls) == if answers.sink.Some? && !Refused(answers.source) then Some(flags) else None
      ensures LastSource(calls).Some? && !Refused(answers.source) ==>
                LastSource(calls).value == entities[link.entity].links[link.index].flags
    {
      LivePaired(entities, link.entity, link.index);
      var l := entities[link.entity].links[link.index];
      ret, calls := AskDrivers(l.flags, flags, answers);
      if ret < 0 {
        return;
      }
      FlagsWired(entities, link.entity, link.index, flags);
      entities := SetFlags(entities, link, flags);
      entities := SetFlags(entities, l.reverse, flags);
    }

    /** __media_entity_setup_link. The flags change exactly when the request may be
        granted and every driver asked agrees; then the link and its reverse change
        together. Every driver that accepted a change is left with the flags in force. */
    method SetupLink(link: Option<Slot>, flags: Flags, answers: Answers) returns (ret: int, calls: seq<Call>)
      requires Valid()
      requires link.Some? ==> Points(entities, link.value) && link.value.index < entities[link.value.entity].numLinks
      modifies this`entities
      ensures Valid()
      ensures link == None ==> ret == -EINVAL && entities == old(entities)
      ensures link.Some? ==>
                var s := link.value; var l := old(entities)[s.entity].links[s.index];
                && Live(old(entities), s.entity, s.index) && Paired(old(entities), s.entity, s.index)
                && (ret == 0 <==> flags == l.flags || Granted(l, flags, old(streamCount), answers))
                && entities == (if Granted(l, flags, old(streamCount), answers)
                                then SetBothFlags(old(entities), s.entity, s.index, flags) else old(entities))
                && (match EarlyAnswer(l, flags, old(streamCount))
                    case Some(early) => ret == early && calls == []
                    case None =>
                      && (ret != 0 ==> ret == if Vetoed(flags, answers) then answers.notify.value else Refusal(answers))
                      && LastNotify(calls).Some? == (answers.notify.Some? && (flags.enabled || ret == 0))
                      && LastSource(calls).Some? == (answers.source.Some? && !Vetoed(flags, answers)))
                && (LastSource(calls).Some? && !Refused(answers.source) ==>
                      LastSource(calls).value == entities[s.entity].links[s.index].flags)
                && (LastNotify(calls).Some? && answers.notify.Some? && answers.notify.value >= 0 ==>
                      LastNotify(calls).value == entities[s.entity].links[s.index].flags.enabled)
    {
      ret, calls := -EBUSY, [];
      if link == None {
        return -EINVAL, calls;
      }
      var s := link.value;
      LivePaired(entities, s.entity, s.index);
      var l := entities[s.entity].links[s.index];
      var decided := EarlyAnswer(l, flags, streamCount);
      if decided.Some? {
        return decided.value, calls;
      }
      if flags.enabled && answers.notify.Some? {
        calls := [LinkNotify(true)];
        ret := answers.notify.value;
        if ret < 0 {
          return;
        }
      }
      var more;
      ret, more := SetupLinkNotify(s, flags, answers);
      LastConcat(calls, more);
      calls := calls + more;
      if ret < 0 {
        if flags.enabled && answers.notify.Some? {
          LastConcat(calls, [LinkNotify(false)]);
          calls := calls + [LinkNotify(false)];
        }
        return;
      }
      if !flags.enabled && answers.notify.Some? {
        LastConcat(calls, [LinkNotify(false)]);
        calls := calls + [LinkNotify(false)];
      }
      ret := 0;
    }

    /** The link loop of media_device_enum_links: the links that start at e, in slot order;
        idx are their slots. */
    method EnumLinks(e: nat) returns (r: seq<Arc>, ghost idx: seq<nat>)
      requires Valid() && e < |entities|
      ensures Reports(entities[e], e, entities[e].numLinks, r, idx)
      ensures |r| == entities[e].numLinks - entities[e].numBacklinks
    {
      EntityCounted(entities, e);
      r, idx := [], [];
      for l := 0 to entities[e].numLinks
        invariant Reports(entities[e], e, l, r, idx)
      {
        ReportsStep(entities[e], e, l, r, idx);
        var link := entities[e].links[l];
        if link.source.entity == e {
          r, idx := r + [ToArc(link)], idx + [l];
        }
      }
      ReportsCount(entities[e], e, entities[e].numLinks, r, idx);
      LinksReported(entities, e);
    }

    // -------------------------------------------------------- pipelines

    ghost function Streams(): Counters
      reads this`streamCount, this`pipe
    {
      Counters(streamCount, pipe)
    }

    /** media_entity_pipeline_start, on any graph. It warns when an entity already
        belongs to another pipeline. */
    method PipelineStart(e: int, p: int) returns (warned: bool)
      requires Readable(entities) && 0 <= e < |entities| == |streamCount| == |pipe|
      modifies this`streamCount, this`pipe
      ensures Streams() == MarkAll(old(Streams()), Walk(Seen(), e), p)
      ensures warned <==> Conflict(old(Streams()), Walk(Seen(), e), |Walk(Seen(), e)|, p)
    {
      warned := false;
      var es := entities;
      ghost var walk, k, c := Walk(View(es), e), 0, Streams();
      var graph := WalkStart(es, e);
      while true
        invariant At(View(es), graph, walk, k) && |streamCount| == |pipe| == |es|
        invariant Streams() == MarkFirst(c, walk, k, p)
        invariant warned <==> Conflict(c, walk, k, p)
        decreases |walk| - k
      {
        var entity;
        entity, graph := WalkNext(es, graph, walk, k);
        if entity == None {
          break;
        }
        var x := entity.value;
        var mismatch := CountIn(x, p);
        warned := warned || mismatch;
        k := k + 1;
      }
    }

    /** The body of that loop. */
    method CountIn(x: int, p: int) returns (mismatch: bool)
      requires 0 <= x < |streamCount| == |pipe|
      modifies this`streamCount, this`pipe
      ensures Streams() == Mark(old(Streams()), x, p) && (mismatch <==> Mismatch(old(Streams()), x, p))
    {
      streamCount := streamCount[x := streamCount[x] + 1];
      mismatch := pipe[x].Some? && pipe[x].value != p;
      pipe := pipe[x := Some(p)];
    }

    /** media_entity_pipeline_stop, on any graph. */
    method PipelineStop(e: int)
      requires Readable(entities) && 0 <= e < |entities| == |streamCount| == |pipe|
      modifies this`streamCount, this`pipe
      ensures Streams() == UnmarkAll(old(Streams()), Walk(Seen(), e))
    {
      var es := entities;
      ghost var walk, k, c := Walk(View(es), e), 0, Streams();
      var graph := WalkStart(es, e);
      while true
        invariant At(View(es), graph, walk, k) && |streamCount| == |pipe| == |es|
        invariant Streams() == UnmarkFirst(c, walk, k)
        decreases |walk| - k
      {
        var entity;
        entity, graph := WalkNext(es, graph, walk, k);
        if entity == None {
          break;
        }
        var x := entity.value;
        CountOut(x);
        k := k + 1;
      }
    }

    /** The body of that loop. */
    method CountOut(x: int)
      requires 0 <= x < |streamCount| == |pipe|
      modifies this`streamCount, this`pipe
      ensures Streams() == Unmark(old(Streams()), x)
    {
      streamCount := streamCount[x := streamCount[x] - 1];
      if streamCount[x] == 0 {
        pipe := pipe[x := None];
      }
    }

    // ------------------------------------------------------------- runs

    ghost function Snap(): Snapshot
      reads this
    {
      Snapshot(entities, Streams())
    }

    method Perform(op: PipelineRuns.Op)
      requires Valid() && PipelineRuns.Callable(entities, op)
      modifies this
      ensures Valid() && Snap() == Next(old(Snap()), op)
    {
      WiredReadable(entities);
      NextWired(Snap(), op);
      match op {
        case Start(e, p) =>
          MarkAllAt(Streams(), Walk(Seen(), e), p, e);
          var warned := PipelineStart(e, p);
        case Stop(e) =>
          UnmarkAllAt(Streams(), Walk(Seen(), e), e);
          PipelineStop(e);
        case Setup(link, flags, answers) =>
          var ret, calls := SetupLink(link, flags, answers);
      }
    }

    /** Any sequence of pipeline starts, stops and link setups, with any callback answers
        and on any graph, leaves what its calls add up to. */
    method Run(ops: seq<PipelineRuns.Op>)
      requires Valid() && AllCallable(entities, ops)
      modifies this
      ensures Valid() && Snap() == After(old(Snap()), ops)
    {
      ghost var s := Snap();
      assert ops[0..] == ops;
      for i := 0 to |ops|
        invariant Valid() && AllCallable(entities, ops[i..]) && After(Snap(), ops[i..]) == After(s, ops)
      {
        assert ops[i..][0] == ops[i] && ops[i..][1..] == ops[i + 1..];
        NextAllCallable(Snap(), ops[i..]);
        Perform(ops[i]);
      }
    }

    ghost function Shaped(): Shape
      reads this`entities
    {
      ShapeOf(entities)
    }

    /** No entity streams. */
    ghost predicate Idle()
      reads this
    {
      forall e :: 0 <= e < |streamCount| ==> streamCount[e] == 0
    }

    /** The address of slot i of e, if there is such a link. */
    method FindLink(e: nat, i: nat) returns (link: Option<Slot>)
      requires Valid()
      ensures link.Some? <==> HasSlot(Seen(), e, i)
      ensures link.Some? ==> link.value == Slot(e, entities[e].generation, i) && Points(entities, link.value)
                             && i < entities[e].numLinks
    {
      link := None;
      if e < |entities| {
        EntityCounted(entities, e);
        if i < entities[e].numLinks {
          link := Some(Slot(e, entities[e].generation, i));
        }
      }
    }

    /** One call of a run that builds the device. */
    method Build(op: LinkRuns.Op) returns (ret: int)
      requires Valid() && Idle() && LinkRuns.Callable(Shaped().pads, op)
      modifies this
      ensures Valid() && Idle() && Step(old(Shaped()), Shaped(), op, ret)
      ensures Shaped().pads == PadsAfter(old(Shaped()).pads, op)
    {
      match op {
        case Init(numPads, extraLinks, memoryOk, junk) =>
          ret := InitEntity(numPads, extraLinks, memoryOk, junk);
        case Create(source, sourcePad, sink, sinkPad, flags, sourceMemoryOk, sinkMemoryOk, junk) =>
          ret := CreateLink(source, sourcePad, sink, sinkPad, flags, sourceMemoryOk, sinkMemoryOk, junk);
        case Configure(e, i, flags, answers) =>
          var link := FindLink(e, i);
          ghost var es := entities;
          var calls;
          ret, calls := SetupLink(link, flags, answers);
          if link.Some? {
            Configured(es, streamCount, e, i, flags, answers);
          }
      }
    }

    /** Any sequence of calls that build the device, with any allocations failing and any
        callback answers, keeps the tables wired and goes through the shapes of its calls. */
    method BuildAll(ops: seq<LinkRuns.Op>) returns (rets: seq<int>, ghost trace: seq<Shape>)
      requires Valid() && Idle() && Allowed(Shaped().pads, ops)
      modifies this
      ensures Valid() && Idle() && Trace(trace, ops, rets)
      ensures trace[0] == old(Shaped()) && trace[|ops|] == Shaped()
    {
      rets, trace := [], [Shaped()];
      assert ops[0..] == ops;
      for i := 0 to |ops|
        invariant Valid() && Idle() && Allowed(Shaped().pads, ops[i..])
        invariant |trace| == i + 1 && |rets| == i && trace[0] == old(Shaped()) && trace[i] == Shaped()
        invariant forall k :: 0 <= k < i ==> StepAt(trace, ops, rets, k)
      {
        assert ops[i..][0] == ops[i] && ops[i..][1..] == ops[i + 1..];
        var ret := Build(ops[i]);
        TraceGrows(trace, ops, rets, i, Shaped(), ret);
        rets, trace := rets + [ret], trace + [Shaped()];
      }
    }
  }
}
