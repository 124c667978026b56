/** Nested pipeline start and stop on a forest of links that cannot change while
    they stream. The counters only ever record how many outstanding starts cover
    an entity, because no link of a streaming entity can be switched: a stop walks
    the same entities as the start it undoes. */
module Pipelines {
  import opened Basics
  import opened MediaGraph
  import opened Traversal

  // -------------------------------------------------------------- counters

  /** stream_count and pipe of every entity. */
  datatype Counters = Counters(count: seq<int>, pipe: seq<Option<int>>)

  ghost predicate Sized(c: Counters, n: int) {
    |c.count| == n && |c.pipe| == n
  }

  predicate In(c: Counters, x: int) {
    0 <= x < |c.count| && x < |c.pipe|
  }

  /** Counting entity x into pipeline p. */
  function Mark(c: Counters, x: int, p: int): Counters {
    if In(c, x) then Counters(c.count[x := c.count[x] + 1], c.pipe[x := Some(p)]) else c
  }

  /** Counting entity x out; its pipe is cleared when its count reaches zero. */
  function Unmark(c: Counters, x: int): Counters {
    if In(c, x)
    then Counters(c.count[x := c.count[x] - 1], if c.count[x] == 1 then c.pipe[x := None] else c.pipe)
    else c
  }

  /** The counters after the first k of xs have been counted into p. */
  ghost function MarkFirst(c: Counters, xs: seq<int>, k: nat, p: int): Counters
    requires k <= |xs|
  {
    if k == 0 then c else Mark(MarkFirst(c, xs, k - 1, p), xs[k - 1], p)
  }

  ghost function UnmarkFirst(c: Counters, xs: seq<int>, k: nat): Counters
    requires k <= |xs|
  {
    if k == 0 then c else Unmark(UnmarkFirst(c, xs, k - 1), xs[k - 1])
  }

  ghost function MarkAll(c: Counters, xs: seq<int>, p: int): Counters {
    MarkFirst(c, xs, |xs|, p)
  }

  ghost function UnmarkAll(c: Counters, xs: seq<int>): Counters {
    UnmarkFirst(c, xs, |xs|)
  }

  /** Entity x belongs to a pipeline other than p. */
  predicate Mismatch(c: Counters, x: int, p: int) {
    In(c, x) && c.pipe[x].Some? && c.pipe[x].value != p
  }

  /** One of the first k of xs is found in another pipeline while they are counted into p. */
  ghost predicate Conflict(c: Counters, xs: seq<int>, k: nat, p: int)
    requires k <= |xs|
  {
    k > 0 && (Conflict(c, xs, k - 1, p) || Mismatch(MarkFirst(c, xs, k - 1, p), xs[k - 1], p))
  }

  /** Each visit counts once, and visited entities belong to p. */
  lemma {:induction false} MarkFirstAt(c: Counters, xs: seq<int>, k: nat, p: int, x: int)
    requires Sized(c, |c.count|) && k <= |xs|
    ensures var c' := MarkFirst(c, xs, k, p);
            && Sized(c', |c.count|)
            && (In(c, x) ==>
                  && c'.count[x] == c.count[x] + multiset(xs[..k])[x]
                  && c'.pipe[x] == if x in xs[..k] then Some(p) else c.pipe[x])
  {
    if k > 0 {
      MarkFirstAt(c, xs, k - 1, p, x);
      assert xs[..k] == xs[..k - 1] + [xs[k - 1]];
    }
  }

  lemma {:induction false} MarkAllAt(c: Counters, xs: seq<int>, p: int, x: int)
    requires Sized(c, |c.count|)
    ensures var c' := MarkAll(c, xs, p);
            && Sized(c', |c.count|)
            && (In(c, x) ==>
                  && c'.count[x] == c.count[x] + multiset(xs)[x]
                  && c'.pipe[x] == if x in xs then Some(p) else c.pipe[x])
  {
    MarkFirstAt(c, xs, |xs|, p, x);
    assert xs[..|xs|] == xs;
  }

  /** Each visit counts once, and pipe is cleared on the way through zero. */
  lemma {:induction false} UnmarkFirstAt(c: Counters, xs: seq<int>, k: nat, x: int)
    requires Sized(c, |c.count|) && k <= |xs|
    ensures var c' := UnmarkFirst(c, xs, k);
            && Sized(c', |c.count|)
            && (In(c, x) ==>
                  && c'.count[x] == c.count[x] - multiset(xs[..k])[x]
                  && c'.pipe[x] == if 1 <= c.count[x] <= multiset(xs[..k])[x] then None else c.pipe[x])
  {
    if k > 0 {
      UnmarkFirstAt(c, xs, k - 1, x);
      assert xs[..k] == xs[..k - 1] + [xs[k - 1]];
    }
  }

  lemma {:induction false} UnmarkAllAt(c: Counters, xs: seq<int>, x: int)
    requires Sized(c, |c.count|)
    ensures var c' := UnmarkAll(c, xs);
            && Sized(c', |c.count|)
            && (In(c, x) ==>
                  && c'.count[x] == c.count[x] - multiset(xs)[x]
                  && c'.pipe[x] == if 1 <= c.count[x] <= multiset(xs)[x] then None else c.pipe[x])
  {
    UnmarkFirstAt(c, xs, |xs|, x);
    assert xs[..|xs|] == xs;
  }

  /** A start warns if and only if it visits an entity that was in another pipeline before. */
  lemma {:induction false} ConflictMeans(c: Counters, xs: seq<int>, k: nat, p: int)
    requires Sized(c, |c.count|) && k <= |xs|
    ensures Conflict(c, xs, k, p)
       <==> exists i :: 0 <= i < k && In(c, xs[i]) && c.pipe[xs[i]] != None && c.pipe[xs[i]] != Some(p)
  {
    if k > 0 {
      ConflictMeans(c, xs, k - 1, p);
      var x := xs[k - 1];
      MarkFirstAt(c, xs, k - 1, p, x);
      if x in xs[..k - 1] {
        var i :| 0 <= i < k - 1 && xs[i] == x;
      }
    }
  }

  // ------------------------------------------------------------- invariant

  /** The graphs the pipeline promise is for. */
  ghost predicate Supported(g: Graph) {
    WellFormed(g) && Mirrored(g) && Forest(g, true, 15) && NoDynamic(g)
  }

  ghost predicate NoDynamic(g: Graph) {
    forall e, i :: HasSlot(g, e, i) ==> !g[e][i].flags.dynamic
  }

  /** The set a start covered is still the component of each of its members. */
  ghost predicate Intact(g: Graph, c: set<int>) {
    forall x :: x in c ==> 0 <= x < |g| && Component(g, x) == c
  }

  ghost predicate AllIntact(g: Graph, started: seq<set<int>>) {
    forall k :: 0 <= k < |started| ==> Intact(g, started[k])
  }

  /** How many of the outstanding starts cover x. */
  ghost function Covering(started: seq<set<int>>, x: int): nat {
    if |started| == 0 then 0
    else Covering(started[..|started| - 1], x) + if x in started[|started| - 1] then 1 else 0
  }

  /** Every counter is the number of outstanding starts that cover its entity, and
      an entity has a pipeline exactly while it is covered. */
  ghost predicate CountsStarts(c: Counters, started: seq<set<int>>) {
    forall x :: In(c, x) ==>
      c.count[x] == Covering(started, x) && (c.pipe[x].Some? <==> c.count[x] > 0)
  }

  /** The invariant over every run of start, stop and link setup. */
  ghost predicate Streaming(g: Graph, c: Counters, started: seq<set<int>>) {
    Supported(g) && Sized(c, |g|) && AllIntact(g, started) && CountsStarts(c, started)
  }

  /** What a link setup does to the graph: at most the flags of links that join two
      entities a and b change, and of those only the ENABLED bit. */
  ghost predicate Switched(g: Graph, g': Graph, a: int, b: int) {
    && |g'| == |g|
    && (forall e :: 0 <= e < |g| && e != a && e != b ==> g'[e] == g[e])
    && (forall e :: 0 <= e < |g| ==> |g'[e]| == |g[e]|)
    && (forall e, i :: HasSlot(g, e, i) ==>
          g'[e][i] == g[e][i].(flags := g[e][i].flags.(enabled := g'[e][i].flags.enabled)))
  }

  // --------------------------------------------------------------- lemmas

  lemma {:induction false} WalkOnSupported(g: Graph, e: int, x: int)
    requires Supported(g) && 0 <= e < |g|
    ensures multiset(Walk(g, e))[x] == if x in Component(g, e) then 1 else 0
    ensures x in Walk(g, e) <==> x in Component(g, e)
  {
    EnabledForest(g, 15);
    WalkVisitsComponent(g, e);
    assert x in multiset(Walk(g, e)) <==> x in Walk(g, e);
  }

  lemma {:induction false} CoveringSnoc(started: seq<set<int>>, c: set<int>, x: int)
    ensures Covering(started + [c], x) == Covering(started, x) + if x in c then 1 else 0
  {
    assert (started + [c])[..|started|] == started;
  }

  ghost function Without<T>(s: seq<T>, k: int): seq<T>
    requires 0 <= k < |s|
  {
    s[..k] + s[k + 1..]
  }

  lemma {:induction false} CoveringWithout(started: seq<set<int>>, k: int, x: int)
    requires 0 <= k < |started|
    ensures Covering(Without(started, k), x) == Covering(started, x) - if x in started[k] then 1 else 0
  {
    var n := |started| - 1;
    if k < n {
      CoveringWithout(started[..n], k, x);
      assert started[k + 1..] == started[..n][k + 1..] + [started[n]];
      assert Without(started, k) == Without(started[..n], k) + [started[n]];
      CoveringSnoc(Without(started[..n], k), started[n], x);
    } else {
      assert Without(started, k) == started[..n];
    }
  }

  /** The place of the last outstanding start that covers x, or -1. */
  ghost function LastCovering(started: seq<set<int>>, x: int): int {
    if |started| == 0 then -1
    else if x in started[|started| - 1] then |started| - 1
    else LastCovering(started[..|started| - 1], x)
  }

  lemma {:induction false} LastCoveringFound(started: seq<set<int>>, x: int)
    requires Covering(started, x) > 0
    ensures 0 <= LastCovering(started, x) < |started| && x in started[LastCovering(started, x)]
  {
    var n := |started| - 1;
    if x !in started[n] { LastCoveringFound(started[..n], x); }
  }

  /** The outstanding starts after a stop of x: the last one that covers x is undone.
      All that cover x cover the same entities. */
  ghost function Undone(started: seq<set<int>>, x: int): seq<set<int>> {
    var k := LastCovering(started, x);
    if 0 <= k < |started| then Without(started, k) else started
  }

  lemma {:induction false} CoveredIsCounted(started: seq<set<int>>, k: int, x: int)
    requires 0 <= k < |started| && x in started[k]
    ensures Covering(started, x) > 0
  {
    var n := |started| - 1;
    if k < n { CoveredIsCounted(started[..n], k, x); }
  }

  lemma {:induction false} ComponentIntact(g: Graph, e: int)
    requires Mirrored(g) && 0 <= e < |g|
    ensures Intact(g, Component(g, e))
  {
    forall x | x in Component(g, e) ensures Component(g, x) == Component(g, e) { ComponentsAgree(g, e, x); }
  }

  lemma {:induction false} StartCounted(g: Graph, e: int, p: int, c: Counters, started: seq<set<int>>)
    requires Supported(g) && 0 <= e < |g| && Sized(c, |g|) && CountsStarts(c, started)
    ensures var c' := MarkAll(c, Walk(g, e), p);
            Sized(c', |g|) && CountsStarts(c', started + [Component(g, e)])
  {
    var c' := MarkAll(c, Walk(g, e), p);
    MarkAllAt(c, Walk(g, e), p, e);
    forall x | In(c', x)
      ensures c'.count[x] == Covering(started + [Component(g, e)], x) && (c'.pipe[x].Some? <==> c'.count[x] > 0)
    {
      assert In(c, x);
      MarkAllAt(c, Walk(g, e), p, x);
      WalkOnSupported(g, e, x);
      CoveringSnoc(started, Component(g, e), x);
    }
  }

  /** The invariant holds while no entity streams. */
  lemma {:induction false} IdleStreams(g: Graph, c: Counters)
    requires Supported(g) && Sized(c, |g|) && forall x :: In(c, x) ==> c.count[x] == 0 && c.pipe[x] == None
    ensures Streaming(g, c, [])
  {
    forall x | In(c, x) ensures c.count[x] == Covering([], x) {
    }
  }

  /** A start adds one outstanding start, of the component of its entity. */
  lemma {:induction false} StartKeeps(g: Graph, e: int, p: int, c: Counters, started: seq<set<int>>)
    requires Streaming(g, c, started) && 0 <= e < |g|
    ensures Streaming(g, MarkAll(c, Walk(g, e), p), started + [Component(g, e)])
  {
    StartCounted(g, e, p, c, started);
    IntactSnoc(g, e, started);
  }

  lemma {:induction false} IntactSnoc(g: Graph, e: int, started: seq<set<int>>)
    requires Mirrored(g) && 0 <= e < |g| && AllIntact(g, started)
    ensures AllIntact(g, started + [Component(g, e)])
  {
    ComponentIntact(g, e);
  }

  lemma {:induction false} WithoutIntact(g: Graph, started: seq<set<int>>, k: int)
    requires 0 <= k < |started| && AllIntact(g, started)
    ensures AllIntact(g, Without(started, k))
  {
    var rest := Without(started, k);
    forall j | 0 <= j < |rest| ensures Intact(g, rest[j]) {
      assert rest[j] == started[if j < k then j else j + 1];
    }
  }

  lemma {:induction false} StopCounted(g: Graph, e: int, c: Counters, started: seq<set<int>>, k: int)
    requires Supported(g) && 0 <= e < |g| && Sized(c, |g|) && CountsStarts(c, started)
    requires 0 <= k < |started| && started[k] == Component(g, e)
    ensures var c' := UnmarkAll(c, Walk(g, e));
            Sized(c', |g|) && CountsStarts(c', Without(started, k))
  {
    var c' := UnmarkAll(c, Walk(g, e));
    UnmarkAllAt(c, Walk(g, e), e);
    forall x | In(c', x)
      ensures c'.count[x] == Covering(Without(started, k), x) && (c'.pipe[x].Some? <==> c'.count[x] > 0)
    {
      assert In(c, x);
      UnmarkAllAt(c, Walk(g, e), x);
      WalkOnSupported(g, e, x);
      CoveringWithout(started, k, x);
    }
  }

  /** Stopping an entity that streams undoes one of the starts that cover it. */
  lemma {:induction false} StopKeeps(g: Graph, e: int, c: Counters, started: seq<set<int>>)
    requires Streaming(g, c, started) && 0 <= e < |g| && c.count[e] > 0
    ensures |Undone(started, e)| == |started| - 1
    ensures Streaming(g, UnmarkAll(c, Walk(g, e)), Undone(started, e))
  {
    assert In(c, e);
    LastCoveringFound(started, e);
    var k := LastCovering(started, e);
    assert Intact(g, started[k]);
    StopCounted(g, e, c, started, k);
    WithoutIntact(g, started, k);
  }

  lemma {:induction false} UncoveredStop(g: Graph, e: int, c: Counters, rest: seq<set<int>>)
    requires Supported(g) && 0 <= e < |g| && Sized(c, |g|) && c.count[e] <= 0
    ensures !CountsStarts(UnmarkAll(c, Walk(g, e)), rest)
  {
    UnmarkAllAt(c, Walk(g, e), e);
    WalkOnSupported(g, e, e);
    ConnectedSelf(g, e);
    assert In(UnmarkAll(c, Walk(g, e)), e);
  }

  /** A stop leaves counters that mean something if and only if its entity streams. */
  lemma {:induction false} StopNeedsStart(g: Graph, e: int, c: Counters, started: seq<set<int>>)
    requires Streaming(g, c, started) && 0 <= e < |g|
    ensures (exists rest :: Streaming(g, UnmarkAll(c, Walk(g, e)), rest)) <==> c.count[e] > 0
  {
    if c.count[e] > 0 {
      StopKeeps(g, e, c, started);
      var rest := Undone(started, e);
      var kept := Streaming(g, UnmarkAll(c, Walk(g, e)), rest);
      assert kept;
    } else {
      forall rest ensures !Streaming(g, UnmarkAll(c, Walk(g, e)), rest) { UncoveredStop(g, e, c, rest); }
    }
  }

  lemma {:induction false} ShapeForest(g: Graph, g': Graph, a: int, b: int, limit: int)
    requires Switched(g, g', a, b) && Forest(g, true, limit)
    ensures Forest(g', true, limit)
  {
    forall x: int, i: int, j: int, y: int | Joins(g', true, x, i, y) && Joins(g', true, x, j, y) ensures i == j {
      assert Joins(g, true, x, i, y) && Joins(g, true, x, j, y);
    }
    forall w: seq<int> | Line(g', true, w) ensures NoRepeats(w) && |w| <= limit {
      forall k, l | 0 <= k && l == k + 1 && l < |w| ensures Adjacent(g, true, w[k], w[l]) {
        assert Adjacent(g', true, w[k], w[l]);
        var i: int :| Joins(g', true, w[k], i, w[l]);
        assert Joins(g, true, w[k], i, w[l]);
      }
      assert Line(g, true, w);
    }
  }

  lemma {:induction false} SwitchIntact(g: Graph, g': Graph, a: int, b: int, s: set<int>)
    requires Switched(g, g', a, b) && Intact(g, s) && a !in s && b !in s
    ensures Intact(g', s)
  {
    forall x | x in s ensures Component(g', x) == s {
      ComponentUntouched(g, g', x);
    }
  }

  /** Switching a link between two entities that do not stream touches no covered entity. */
  lemma {:induction false} SwitchKeeps(g: Graph, g': Graph, a: int, b: int, c: Counters, started: seq<set<int>>)
    requires Streaming(g, c, started) && Switched(g, g', a, b) && WellFormed(g') && Mirrored(g')
    requires In(c, a) && In(c, b) && c.count[a] == 0 && c.count[b] == 0
    ensures Streaming(g', c, started)
  {
    ShapeForest(g, g', a, b, 15);
    forall k | 0 <= k < |started| ensures Intact(g', started[k]) {
      if a in started[k] { CoveredIsCounted(started, k, a); }
      if b in started[k] { CoveredIsCounted(started, k, b); }
      SwitchIntact(g, g', a, b, started[k]);
    }
  }
}
