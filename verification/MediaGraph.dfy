/** The media graph as the traversal sees it: for every entity the live part of
    its links array, each slot reduced to its two pads and its flags.
    The traversal, the pipeline counters and the link tables share this view. */
module MediaGraph {
  import opened Basics

  /** A word of link flags: bits 0, 1 and 2, and all the others. */
  datatype Flags = Flags(enabled: bool, immutable: bool, dynamic: bool, others: int)

  datatype Pad = Pad(entity: int, index: int)

  datatype Arc = Arc(source: Pad, sink: Pad, flags: Flags)

  /** g[e] are the links and backlinks of entity e, in slot order. */
  type Graph = seq<seq<Arc>>

  predicate Enabled(a: Arc) {
    a.flags.enabled
  }

  /** The entity at the far end of a link, seen from entity e. */
  function Other(e: int, a: Arc): int {
    if a.source.entity == e then a.sink.entity else a.source.entity
  }

  predicate HasSlot(g: Graph, e: int, i: int) {
    0 <= e < |g| && 0 <= i < |g[e]|
  }

  /** Every slot of e has e as one of its ends, and both ends exist. */
  ghost predicate WellFormed(g: Graph) {
    forall e, i :: 0 <= e < |g| && 0 <= i < |g[e]| ==>
      && 0 <= g[e][i].source.entity < |g| && 0 <= g[e][i].sink.entity < |g|
      && (g[e][i].source.entity == e || g[e][i].sink.entity == e)
  }

  /** Slot i of a is a link to b that counts: enabled, or any link when all is set. */
  ghost predicate Joins(g: Graph, all: bool, a: int, i: int, b: int) {
    && HasSlot(g, a, i) && (all || g[a][i].flags.enabled)
    && ((g[a][i].source.entity == a && g[a][i].sink.entity == b)
        || (g[a][i].source.entity == b && g[a][i].sink.entity == a))
  }

  ghost predicate Adjacent(g: Graph, all: bool, a: int, b: int) {
    exists i: int :: Joins(g, all, a, i, b)
  }

  /** What backlinks are for: a link can be followed from both of its ends. */
  ghost predicate Mirrored(g: Graph) {
    forall all: bool, a: int, b: int :: Adjacent(g, all, a, b) ==> Adjacent(g, all, b, a)
  }

  /** A walk along links; consecutive entities are adjacent. */
  ghost predicate Path(g: Graph, all: bool, w: seq<int>) {
    && |w| > 0
    && (forall k :: 0 <= k < |w| ==> 0 <= w[k] < |g|)
    && (forall k, l :: 0 <= k && l == k + 1 && l < |w| ==> Adjacent(g, all, w[k], w[l]))
  }

  /** A path that never steps straight back to the entity it came from. */
  ghost predicate Line(g: Graph, all: bool, w: seq<int>) {
    Path(g, all, w) && forall k, l :: 0 <= k && l == k + 2 && l < |w| ==> w[k] != w[l]
  }

  ghost predicate Connected(g: Graph, e: int, x: int) {
    exists w: seq<int> :: Path(g, false, w) && w[0] == e && w[|w| - 1] == x
  }

  /** All entities connected to e through enabled links, directly or indirectly. */
  ghost function Component(g: Graph, e: int): set<int> {
    set x | 0 <= x < |g| && Connected(g, e, x)
  }

  /** No two links join the same entities, no line returns to an entity, and no
      line is longer than limit entities. */
  ghost predicate Forest(g: Graph, all: bool, limit: int) {
    && (forall a: int, i: int, j: int, b: int :: Joins(g, all, a, i, b) && Joins(g, all, a, j, b) ==> i == j)
    && (forall w: seq<int> :: Line(g, all, w) ==> NoRepeats(w) && |w| <= limit)
  }

  // ---------------------------------------------------------------- paths

  lemma {:induction false} PathSnoc(g: Graph, w: seq<int>, x: int)
    requires Path(g, false, w) && 0 <= x < |g| && Adjacent(g, false, w[|w| - 1], x)
    ensures Path(g, false, w + [x])
  {
  }

  lemma {:induction false} ConnectedSelf(g: Graph, e: int)
    requires 0 <= e < |g|
    ensures e in Component(g, e)
  {
    assert Path(g, false, [e]) && [e][0] == e;
  }

  lemma {:induction false} ComponentClosed(g: Graph, e: int, x: int, y: int)
    requires x in Component(g, e) && 0 <= y < |g| && Adjacent(g, false, x, y)
    ensures y in Component(g, e)
  {
    var w: seq<int> :| Path(g, false, w) && w[0] == e && w[|w| - 1] == x;
    PathSnoc(g, w, y);
    assert (w + [y])[0] == e && (w + [y])[|w + [y]| - 1] == y;
  }

  /** A set closed under enabled links that holds e holds its whole component. */
  lemma {:induction false} ClosedSetHoldsPath(g: Graph, s: set<int>, w: seq<int>, k: int)
    requires Path(g, false, w) && w[0] in s && 0 <= k < |w|
    requires forall x: int, y: int :: x in s && 0 <= y < |g| && Adjacent(g, false, x, y) ==> y in s
    ensures w[k] in s
    decreases k
  {
    if k > 0 {
      ClosedSetHoldsPath(g, s, w, k - 1);
      assert Adjacent(g, false, w[k - 1], w[k]);
    }
  }

  lemma {:induction false} ClosedSetHoldsComponent(g: Graph, s: set<int>, e: int)
    requires e in s
    requires forall x: int, y: int :: x in s && 0 <= y < |g| && Adjacent(g, false, x, y) ==> y in s
    ensures Component(g, e) <= s
  {
    forall x | x in Component(g, e) ensures x in s {
      var w: seq<int> :| Path(g, false, w) && w[0] == e && w[|w| - 1] == x;
      ClosedSetHoldsPath(g, s, w, |w| - 1);
    }
  }

  ghost function Reversed<T>(w: seq<T>): (r: seq<T>)
    ensures |r| == |w|
    ensures forall k :: 0 <= k < |w| ==> r[k] == w[|w| - 1 - k]
  {
    seq(|w|, k requires 0 <= k < |w| => w[|w| - 1 - k])
  }

  lemma {:induction false} PathReversed(g: Graph, all: bool, w: seq<int>)
    requires Mirrored(g) && Path(g, all, w)
    ensures Path(g, all, Reversed(w))
  {
    var r := Reversed(w);
    forall k, l | 0 <= k && l == k + 1 && l < |r| ensures Adjacent(g, all, r[k], r[l]) {
      var k', l' := |w| - 1 - l, |w| - 1 - k;
      assert Adjacent(g, all, w[k'], w[l']);
    }
  }

  /** Being connected is symmetric and transitive, so components partition the graph. */
  lemma {:induction false} ComponentsAgree(g: Graph, e: int, x: int)
    requires Mirrored(g) && 0 <= e < |g| && x in Component(g, e)
    ensures Component(g, x) == Component(g, e)
  {
    ConnectedSelf(g, e);
    ConnectedSelf(g, x);
    forall y: int, z: int | y in Component(g, e) && 0 <= z < |g| && Adjacent(g, false, y, z)
      ensures z in Component(g, e) { ComponentClosed(g, e, y, z); }
    forall y: int, z: int | y in Component(g, x) && 0 <= z < |g| && Adjacent(g, false, y, z)
      ensures z in Component(g, x) { ComponentClosed(g, x, y, z); }
    ClosedSetHoldsComponent(g, Component(g, e), x);
    var w: seq<int> :| Path(g, false, w) && w[0] == e && w[|w| - 1] == x;
    PathReversed(g, false, w);
    var r := Reversed(w);
    assert r[0] == x && r[|r| - 1] == e;
    assert e in Component(g, x);
    ClosedSetHoldsComponent(g, Component(g, x), e);
  }

  /** A change that leaves the links of one component alone leaves it a component. */
  lemma {:induction false} ComponentUntouched(g: Graph, g': Graph, e: int)
    requires 0 <= e < |g| && |g'| == |g|
    requires forall x :: x in Component(g, e) ==> g'[x] == g[x]
    ensures Component(g', e) == Component(g, e)
  {
    var c, c' := Component(g, e), Component(g', e);
    ConnectedSelf(g, e);
    ConnectedSelf(g', e);
    forall x: int, y: int | x in c && 0 <= y < |g| && Adjacent(g', false, x, y) ensures y in c {
      var i: int :| Joins(g', false, x, i, y);
      assert Joins(g, false, x, i, y);
      ComponentClosed(g, e, x, y);
    }
    ClosedSetHoldsComponent(g', c, e);
    var s := c * c';
    forall x: int, y: int | x in s && 0 <= y < |g| && Adjacent(g, false, x, y) ensures y in s {
      var i: int :| Joins(g, false, x, i, y);
      assert Joins(g', false, x, i, y);
      ComponentClosed(g, e, x, y);
      ComponentClosed(g', e, x, y);
    }
    ClosedSetHoldsComponent(g, s, e);
  }

  /** Disabling links never adds lines, so the enabled part of a forest is one. */
  lemma {:induction false} EnabledForest(g: Graph, limit: int)
    requires Forest(g, true, limit)
    ensures Forest(g, false, limit)
  {
    forall a: int, i: int, j: int, b: int | Joins(g, false, a, i, b) && Joins(g, false, a, j, b) ensures i == j {
      assert Joins(g, true, a, i, b) && Joins(g, true, a, j, b);
    }
    forall w: seq<int> | Line(g, false, w) ensures NoRepeats(w) && |w| <= limit {
      forall k, l | 0 <= k && l == k + 1 && l < |w| ensures Adjacent(g, true, w[k], w[l]) {
        assert Adjacent(g, false, w[k], w[l]);
        var i: int :| Joins(g, false, w[k], i, w[l]);
        assert Joins(g, true, w[k], i, w[l]);
      }
      assert Line(g, true, w);
    }
  }
}
