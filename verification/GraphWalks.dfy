/** The depth-first traversal as it runs over the links arrays. The stack is a
    local structure of its callers, so it is a value here, which every step of the
    traversal replaces; its sixteen elements are the sentinel and fifteen frames. */
module GraphWalks {
  import opened Basics
  import opened MediaGraph
  import opened LinkTables
  import opened Traversal

  /** The traversal of walk has returned its first done entities. */
  ghost predicate At(g: Graph, graph: Stack, walk: seq<int>, done: nat) {
    && GoodStack(g, graph) && Depth(graph) <= MAX_ENTITIES
    && done <= |walk| && Pending(g, graph) == walk[done..]
  }

  /** stack_push: dropped when the stack is full. */
  function Push(graph: Stack, e: int): Stack {
    if Depth(graph) == ENUM_MAX_DEPTH - 1 then graph else On(e, 0, graph)
  }

  /** media_entity_graph_walk_start. */
  method WalkStart(es: seq<Entity>, e: int) returns (graph: Stack)
    requires Readable(es) && 0 <= e < |es|
    ensures At(View(es), graph, Walk(View(es), e), 0)
  {
    graph := Push(Sentinel, e);
  }

  /** media_entity_graph_walk_next, on any graph: the next entity, or None at the end. */
  method WalkNext(es: seq<Entity>, graph: Stack, ghost walk: seq<int>, ghost done: nat)
    returns (r: Option<int>, graph': Stack)
    requires Readable(es) && At(View(es), graph, walk, done)
    ensures r == None <==> done == |walk|
    ensures r == None ==> graph' == graph
    ensures r.Some? ==> done < |walk| && r.value == walk[done] && 0 <= r.value < |es|
    ensures r.Some? ==> At(View(es), graph', walk, done + 1)
  {
    if TopEntity(graph) == None {
      return None, graph;
    }
    graph' := Descend(es, graph);
    r := TopEntity(graph');
    assert walk[done..] == [graph'.entity] + Pending(View(es), graph'.below);
    assert walk[done..][1..] == walk[done + 1..];
    graph' := graph'.below;
  }

  /** The loop of media_entity_graph_walk_next: depth first, until the top entity
      has no link left to look at. It ends on every finite graph, cycles included. */
  method Descend(es: seq<Entity>, graph: Stack) returns (s: Stack)
    requires Readable(es) && GoodStack(View(es), graph) && graph.On? && Depth(graph) <= MAX_ENTITIES
    ensures GoodStack(View(es), s) && s.On? && Depth(s) <= MAX_ENTITIES
    ensures !HasSlot(View(es), s.entity, s.link)
    ensures Pending(View(es), s) == Pending(View(es), graph)
  {
    ghost var g := View(es);
    s := graph;
    while s.link < es[s.entity].numLinks
      invariant GoodStack(g, s) && s.On? && Depth(s) <= MAX_ENTITIES
      invariant Pending(g, s) == Pending(g, graph)
      decreases Remaining(g, s, 1), Remaining(g, s, 2), Remaining(g, s, 3), Remaining(g, s, 4), Remaining(g, s, 5),
                Remaining(g, s, 6), Remaining(g, s, 7), Remaining(g, s, 8), Remaining(g, s, 9), Remaining(g, s, 10),
                Remaining(g, s, 11), Remaining(g, s, 12), Remaining(g, s, 13), Remaining(g, s, 14), Remaining(g, s, 15)
    {
      StepKeeps(g, s);
      StepProgress(g, s);
      s := Advance(es, s);
    }
  }

  /** The loop body of media_entity_graph_walk_next: look at one link of the top entity. */
  method Advance(es: seq<Entity>, s: Stack) returns (s': Stack)
    requires Readable(es) && s.On? && HasSlot(View(es), s.entity, s.link)
    requires GoodStack(View(es), s) && Depth(s) <= MAX_ENTITIES
    ensures s' == Stepped(View(es), s) && GoodStack(View(es), s') && Depth(s') <= MAX_ENTITIES
  {
    ghost var g := View(es);
    var e, i := s.entity, s.link;
    var link := es[e].links[i];
    assert g[e][i] == ToArc(link);
    s' := s.(link := i + 1);
    if !link.flags.enabled {
      return;
    }
    var next := Other(e, ToArc(link));
    if Some(next) == TopEntity(s.below) {
      return;
    }
    s' := Push(s', next);
  }
}
