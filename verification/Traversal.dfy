/** What the graph traversal returns, stated without its stack.

    A trail is a sequence of link slots followed one after the other from the
    starting entity: every link on it is enabled, it never steps straight back
    to the entity it came from, and it passes at most MAX_ENTITIES entities.
    On every graph, cycles and parallel links included, the traversal returns
    the end of each trail once, in post-order; on a forest that is every
    connected entity exactly once. */
module Traversal {
  import opened Basics
  import opened MediaGraph

  const ENUM_MAX_DEPTH := 16

  /** Slot 0 of the stack is the NULL sentinel. */
  const MAX_ENTITIES := ENUM_MAX_DEPTH - 1

  /** Slot i of e is followed: enabled, and not back to the entity below e on the stack. */
  predicate Follows(g: Graph, e: int, below: Option<int>, i: int) {
    HasSlot(g, e, i) && Enabled(g[e][i]) && Some(Other(e, g[e][i])) != below
  }

  /** What is still to be returned for entity e at stack depth d once its slots
      before i have been dealt with: the subtrees of the later slots, then e. */
  function Rest(g: Graph, e: int, below: Option<int>, i: int, d: nat): seq<int>
    decreases MAX_ENTITIES - d, if HasSlot(g, e, i) then |g[e]| - i else 0
  {
    if !HasSlot(g, e, i) then [e]
    else if Follows(g, e, below, i) && d < MAX_ENTITIES
    then Rest(g, Other(e, g[e][i]), Some(e), 0, d + 1) + Rest(g, e, below, i + 1, d)
    else Rest(g, e, below, i + 1, d)
  }

  /** The entities a whole traversal from e returns, in order. */
  function Walk(g: Graph, e: int): seq<int> {
    Rest(g, e, None, 0, 1)
  }

  // ----------------------------------------------------- the stack machine

  /** The traversal stack: entities with a link index each, above the NULL sentinel. */
  datatype Stack = Sentinel | On(entity: int, link: int, below: Stack)

  function Depth(s: Stack): nat {
    if s.Sentinel? then 0 else Depth(s.below) + 1
  }

  /** What stack_top gives. */
  function TopEntity(s: Stack): Option<int> {
    if s.Sentinel? then None else Some(s.entity)
  }

  ghost predicate GoodStack(g: Graph, s: Stack) {
    s.On? ==> 0 <= s.entity < |g| && 0 <= s.link <= |g[s.entity]| && GoodStack(g, s.below)
  }

  /** What the rest of the traversal returns, the top of the stack first. */
  ghost function Pending(g: Graph, s: Stack): seq<int> {
    match s
    case Sentinel => []
    case On(e, i, below) => Rest(g, e, TopEntity(below), i, Depth(below) + 1) + Pending(g, below)
  }

  /** The links that the entity at depth k of the stack still has to look at. */
  ghost function Remaining(g: Graph, s: Stack, k: nat): nat {
    if s.Sentinel? then 0
    else if k == Depth(s) then (if HasSlot(g, s.entity, s.link) then |g[s.entity]| - s.link else 0)
    else Remaining(g, s.below, k)
  }

  /** The stack after the top entity has dealt with the link it looks at. An entity
      that would overflow the stack is dropped. */
  ghost function Stepped(g: Graph, s: Stack): Stack
    requires s.On? && HasSlot(g, s.entity, s.link)
  {
    var bumped := s.(link := s.link + 1);
    if Follows(g, s.entity, TopEntity(s.below), s.link) && Depth(s) < MAX_ENTITIES
    then On(Other(s.entity, g[s.entity][s.link]), 0, bumped)
    else bumped
  }

  /** Dealing with one link uses it up at the top and changes nothing below, so the
      remaining links by depth decrease lexicographically on any finite graph. */
  lemma {:induction false} StepProgress(g: Graph, s: Stack)
    requires s.On? && HasSlot(g, s.entity, s.link)
    ensures Remaining(g, Stepped(g, s), Depth(s)) < Remaining(g, s, Depth(s))
    ensures forall k: nat :: k < Depth(s) ==> Remaining(g, Stepped(g, s), k) == Remaining(g, s, k)
  {
  }

  /** Dealing with one link leaves what is to be returned unchanged. */
  lemma {:induction false} StepKeeps(g: Graph, s: Stack)
    requires s.On? && HasSlot(g, s.entity, s.link)
    ensures Pending(g, Stepped(g, s)) == Pending(g, s)
  {
    var e, i, p, d := s.entity, s.link, TopEntity(s.below), Depth(s.below) + 1;
    if Follows(g, e, p, i) && d < MAX_ENTITIES {
      Associative(Rest(g, Other(e, g[e][i]), Some(e), 0, d + 1), Rest(g, e, p, i + 1, d), Pending(g, s.below));
    }
  }

  // --------------------------------------------------------------- trails

  ghost predicate IsTrail(g: Graph, e: int, below: Option<int>, t: seq<int>, d: nat)
    decreases |t|
  {
    |t| > 0 ==>
      && Follows(g, e, below, t[0]) && d < MAX_ENTITIES
      && IsTrail(g, Other(e, g[e][t[0]]), Some(e), t[1..], d + 1)
  }

  /** The entities passed when the slots of t are followed from e, e included. */
  ghost function Stops(g: Graph, e: int, t: seq<int>): (w: seq<int>)
    ensures |w| > 0 && w[0] == e
    decreases |t|
  {
    if |t| == 0 || !HasSlot(g, e, t[0]) then [e]
    else [e] + Stops(g, Other(e, g[e][t[0]]), t[1..])
  }

  ghost function End(g: Graph, e: int, t: seq<int>): int {
    var w := Stops(g, e, t); w[|w| - 1]
  }

  ghost function Prepend(i: int, ts: seq<seq<int>>): (r: seq<seq<int>>)
    ensures |r| == |ts| && forall k :: 0 <= k < |ts| ==> r[k] == [i] + ts[k]
  {
    seq(|ts|, k requires 0 <= k < |ts| => [i] + ts[k])
  }

  /** All trails from e at depth d whose first slot is i or later, then the empty one. */
  ghost function Trails(g: Graph, e: int, below: Option<int>, i: int, d: nat): seq<seq<int>>
    decreases MAX_ENTITIES - d, if HasSlot(g, e, i) then |g[e]| - i else 0
  {
    if !HasSlot(g, e, i) then [[]]
    else if Follows(g, e, below, i) && d < MAX_ENTITIES
    then Prepend(i, Trails(g, Other(e, g[e][i]), Some(e), 0, d + 1)) + Trails(g, e, below, i + 1, d)
    else Trails(g, e, below, i + 1, d)
  }

  lemma {:induction false} TrailsSplit(g: Graph, e: int, below: Option<int>, i: nat, d: nat, t: seq<int>)
    requires Follows(g, e, below, i) && d < MAX_ENTITIES
    ensures t in Trails(g, e, below, i, d) <==>
            || t in Trails(g, e, below, i + 1, d)
            || (|t| > 0 && t[0] == i && t[1..] in Trails(g, Other(e, g[e][i]), Some(e), 0, d + 1))
  {
    var sub, later := Trails(g, Other(e, g[e][i]), Some(e), 0, d + 1), Trails(g, e, below, i + 1, d);
    assert t in Prepend(i, sub) + later <==> t in Prepend(i, sub) || t in later;
    PrependMember(i, sub, t);
  }

  lemma {:induction false} TrailHead(g: Graph, e: int, below: Option<int>, i: nat, d: nat, t: seq<int>)
    requires |t| > 0
    ensures t in Trails(g, e, below, i, d) <==>
            && t[0] >= i && Follows(g, e, below, t[0]) && d < MAX_ENTITIES
            && t[1..] in Trails(g, Other(e, g[e][t[0]]), Some(e), 0, d + 1)
    decreases if HasSlot(g, e, i) then |g[e]| - i else 0
  {
    if HasSlot(g, e, i) {
      TrailHead(g, e, below, i + 1, d, t);
      if Follows(g, e, below, i) && d < MAX_ENTITIES {
        TrailsSplit(g, e, below, i, d, t);
      }
    }
  }

  lemma {:induction false} EmptyTrail(g: Graph, e: int, below: Option<int>, i: nat, d: nat)
    ensures [] in Trails(g, e, below, i, d)
    decreases if HasSlot(g, e, i) then |g[e]| - i else 0
  {
    if HasSlot(g, e, i) {
      EmptyTrail(g, e, below, i + 1, d);
      if Follows(g, e, below, i) && d < MAX_ENTITIES {
        TrailsSplit(g, e, below, i, d, []);
      }
    }
  }

  /** The list holds exactly the trails with a first slot >= i ... */
  lemma {:induction false} TrailsExact(g: Graph, e: int, below: Option<int>, i: nat, d: nat, t: seq<int>)
    ensures t in Trails(g, e, below, i, d) <==> IsTrail(g, e, below, t, d) && (|t| > 0 ==> t[0] >= i)
    decreases |t|
  {
    if |t| == 0 {
      EmptyTrail(g, e, below, i, d);
    } else {
      TrailHead(g, e, below, i, d, t);
      if Follows(g, e, below, t[0]) && d < MAX_ENTITIES {
        var n := Other(e, g[e][t[0]]);
        TrailsExact(g, n, Some(e), 0, d + 1, t[1..]);
        assert IsTrail(g, n, Some(e), t[1..], d + 1) && |t| > 1 ==> Follows(g, n, Some(e), t[1..][0]);
      }
    }
  }

  lemma {:induction false} PrependMember(i: int, ts: seq<seq<int>>, t: seq<int>)
    ensures t in Prepend(i, ts) <==> |t| > 0 && t[0] == i && t[1..] in ts
  {
    var r := Prepend(i, ts);
    if t in r {
      var k :| 0 <= k < |r| && r[k] == t;
      assert t[1..] == ts[k];
    }
    if |t| > 0 && t[0] == i && t[1..] in ts {
      var k :| 0 <= k < |ts| && ts[k] == t[1..];
      assert r[k] == t;
    }
  }

  /** ... each of them once. */
  lemma {:induction false} TrailsNoRepeats(g: Graph, e: int, below: Option<int>, i: nat, d: nat)
    ensures NoRepeats(Trails(g, e, below, i, d))
    decreases MAX_ENTITIES - d, if HasSlot(g, e, i) then |g[e]| - i else 0
  {
    if HasSlot(g, e, i) {
      var later := Trails(g, e, below, i + 1, d);
      TrailsNoRepeats(g, e, below, i + 1, d);
      if Follows(g, e, below, i) && d < MAX_ENTITIES {
        var n := Other(e, g[e][i]);
        var sub := Trails(g, n, Some(e), 0, d + 1);
        TrailsNoRepeats(g, n, Some(e), 0, d + 1);
        PrependNoRepeats(i, sub);
        forall t | t in Prepend(i, sub) ensures t !in later {
          PrependMember(i, sub, t);
          TrailsExact(g, e, below, i + 1, d, t);
        }
        ConcatNoRepeats(Prepend(i, sub), later);
      }
    }
  }

  lemma {:induction false} PrependNoRepeats(i: int, ts: seq<seq<int>>)
    requires NoRepeats(ts)
    ensures NoRepeats(Prepend(i, ts))
  {
    var r := Prepend(i, ts);
    forall k, l | 0 <= k < l < |r| ensures r[k] != r[l] {
      assert r[k][1..] == ts[k] && r[l][1..] == ts[l];
    }
  }

  lemma {:induction false} ConcatNoRepeats<T>(a: seq<T>, b: seq<T>)
    requires NoRepeats(a) && NoRepeats(b) && forall x :: x in a ==> x !in b
    ensures NoRepeats(a + b)
  {
    var c := a + b;
    forall i, j | 0 <= i < j < |c| ensures c[i] != c[j] {
      if i < |a| && |a| <= j { assert c[i] in a && c[j] in b; }
    }
  }

  /** r lists the ends of the trails ts. */
  ghost predicate EndsOf(g: Graph, e: int, ts: seq<seq<int>>, r: seq<int>) {
    |r| == |ts| && forall k :: 0 <= k < |ts| ==> r[k] == End(g, e, ts[k])
  }

  lemma {:induction false} EndsPrepend(g: Graph, e: int, i: int, ts: seq<seq<int>>, r: seq<int>)
    requires HasSlot(g, e, i) && EndsOf(g, Other(e, g[e][i]), ts, r)
    ensures EndsOf(g, e, Prepend(i, ts), r)
  {
    forall k | 0 <= k < |ts| ensures r[k] == End(g, e, [i] + ts[k]) {
      assert ([i] + ts[k])[1..] == ts[k];
    }
  }

  /** The traversal returns the ends of the trails, one entry per trail. */
  lemma {:induction false} RestIsTrailEnds(g: Graph, e: int, below: Option<int>, i: nat, d: nat)
    ensures EndsOf(g, e, Trails(g, e, below, i, d), Rest(g, e, below, i, d))
    decreases MAX_ENTITIES - d, if HasSlot(g, e, i) then |g[e]| - i else 0
  {
    if HasSlot(g, e, i) {
      RestIsTrailEnds(g, e, below, i + 1, d);
      if Follows(g, e, below, i) && d < MAX_ENTITIES {
        var n := Other(e, g[e][i]);
        RestIsTrailEnds(g, n, Some(e), 0, d + 1);
        EndsPrepend(g, e, i, Trails(g, n, Some(e), 0, d + 1), Rest(g, n, Some(e), 0, d + 1));
      }
    }
  }

  /** The trails from e that end at x. */
  ghost function TrailsTo(g: Graph, e: int, x: int): set<seq<int>> {
    set t | t in Trails(g, e, None, 0, 1) && End(g, e, t) == x
  }

  ghost function Indices<T>(s: seq<T>, x: T): set<int> {
    set k | 0 <= k < |s| && s[k] == x
  }

  lemma {:induction false} CountByIndex<T>(s: seq<T>, x: T)
    ensures multiset(s)[x] == |Indices(s, x)|
  {
    if |s| > 0 {
      var n := |s| - 1;
      CountByIndex(s[..n], x);
      assert s == s[..n] + [s[n]];
      assert Indices(s, x) == Indices(s[..n], x) + if s[n] == x then {n} else {};
    }
  }

  lemma {:induction false} PickSize<T>(ts: seq<T>, ks: set<int>, vs: set<T>)
    requires NoRepeats(ts)
    requires forall k :: k in ks ==> 0 <= k < |ts|
    requires forall v :: v in vs <==> exists k :: k in ks && ts[k] == v
    ensures |vs| == |ks|
  {
    if vs == {} {
      forall k | k in ks ensures ts[k] in vs {}
      assert forall k :: k !in ks;
    } else {
      var v :| v in vs;
      var k :| k in ks && ts[k] == v;
      PickSize(ts, ks - {k}, vs - {v});
    }
  }

  /** The list of all trails from e and what the traversal returns, side by side. */
  lemma {:induction false} WalkPairsTrails(g: Graph, e: int) returns (ts: seq<seq<int>>)
    ensures ts == Trails(g, e, None, 0, 1) && NoRepeats(ts)
    ensures EndsOf(g, e, ts, Walk(g, e))
    ensures forall t :: t in ts <==> IsTrail(g, e, None, t, 1)
  {
    ts := Trails(g, e, None, 0, 1);
    TrailsNoRepeats(g, e, None, 0, 1);
    RestIsTrailEnds(g, e, None, 0, 1);
    forall t ensures t in ts <==> IsTrail(g, e, None, t, 1) {
      TrailsExact(g, e, None, 0, 1, t);
      if IsTrail(g, e, None, t, 1) && |t| > 0 { assert Follows(g, e, None, t[0]); }
    }
  }

  /** On every graph: x is returned as many times as trails lead to it, so it is
      returned exactly once if and only if exactly one trail leads to it. */
  lemma {:induction false} WalkCountsTrails(g: Graph, e: int, x: int)
    ensures forall t :: t in TrailsTo(g, e, x) <==> IsTrail(g, e, None, t, 1) && End(g, e, t) == x
    ensures multiset(Walk(g, e))[x] == |TrailsTo(g, e, x)|
  {
    var w := Walk(g, e);
    var ts := WalkPairsTrails(g, e);
    CountByIndex(w, x);
    var ks, vs := Indices(w, x), TrailsTo(g, e, x);
    forall t | t in vs ensures exists k :: k in ks && ts[k] == t {
      var k :| 0 <= k < |ts| && ts[k] == t;
      assert k in ks;
    }
    PickSize(ts, ks, vs);
  }

  /** Two enabled links between the same entities: entity 1 is returned twice,
      although it is connected to entity 0 and nothing else is. */
  lemma {:induction false} ParallelLinksVisitTwice()
    ensures var a := Arc(Pad(0, 0), Pad(1, 0), Flags(true, false, false, 0));
            WellFormed([[a, a], [a, a]]) && Walk([[a, a], [a, a]], 0) == [1, 1, 0]
  {
    var a := Arc(Pad(0, 0), Pad(1, 0), Flags(true, false, false, 0));
    var g := [[a, a], [a, a]];
    assert Rest(g, 1, Some(0), 2, 2) == [1];
    assert Rest(g, 1, Some(0), 1, 2) == [1];
    assert Rest(g, 1, Some(0), 0, 2) == [1];
    assert Rest(g, 0, None, 2, 1) == [0];
    assert Rest(g, 0, None, 1, 1) == [1, 0];
  }

  // -------------------------------------------------------------- forests

  /** A trail passes along a line of enabled links. */
  lemma {:induction false} StopsAreLine(g: Graph, e: int, below: Option<int>, t: seq<int>, d: nat)
    requires WellFormed(g) && 0 <= e < |g| && IsTrail(g, e, below, t, d)
    ensures Line(g, false, Stops(g, e, t)) && |Stops(g, e, t)| == |t| + 1
    ensures |t| > 0 ==> Some(Stops(g, e, t)[1]) != below
    decreases |t|
  {
    if |t| > 0 {
      var n := Other(e, g[e][t[0]]);
      StopsAreLine(g, n, Some(e), t[1..], d + 1);
      var w, w' := Stops(g, e, t), Stops(g, n, t[1..]);
      assert Joins(g, false, e, t[0], n);
      forall k, l | 0 <= k && l == k + 1 && l < |w| ensures Adjacent(g, false, w[k], w[l]) {
        if k > 0 { assert Adjacent(g, false, w'[k - 1], w'[l - 1]); }
      }
      forall k, l | 0 <= k && l == k + 2 && l < |w| ensures w[k] != w[l] {
        if k > 0 { assert w'[k - 1] != w'[l - 1]; }
      }
    }
  }

  /** A line followed backwards, then another one that leaves its start in another direction. */
  lemma {:induction false} LineJoined(g: Graph, v: seq<int>, w: seq<int>)
    requires Mirrored(g) && Line(g, false, v) && Line(g, false, w) && v[0] == w[0]
    requires |v| > 1 && |w| > 1 && v[1] != w[1]
    ensures Line(g, false, Reversed(v) + w[1..])
  {
    var r := Reversed(v);
    PathReversed(g, false, v);
    var u := r + w[1..];
    assert forall k :: 0 <= k < |u| ==> u[k] == if k < |v| then v[|v| - 1 - k] else w[k - |v| + 1];
    forall k, l | 0 <= k && l == k + 1 && l < |u| ensures Adjacent(g, false, u[k], u[l]) {
      if l < |v| {
        assert Adjacent(g, false, r[k], r[l]);
      } else {
        var k', l' := k - |v| + 1, l - |v| + 1;
        assert Adjacent(g, false, w[k'], w[l']);
      }
    }
    forall k, l | 0 <= k && l == k + 2 && l < |u| ensures u[k] != u[l] {
      if l < |v| {
        var k', l' := |v| - 1 - l, |v| - 1 - k;
        assert v[k'] != v[l'];
      } else if k >= |v| - 1 {
        var k', l' := k - |v| + 1, l - |v| + 1;
        assert w[k'] != w[l'];
      }
    }
  }

  /** Two lines that leave e in different directions never meet again in a forest. */
  lemma {:induction false} NoMeeting(g: Graph, limit: int, v: seq<int>, w: seq<int>)
    requires Mirrored(g) && Forest(g, false, limit)
    requires Line(g, false, v) && Line(g, false, w) && v[0] == w[0]
    requires |v| > 1 && |w| > 1 && v[1] != w[1]
    ensures v[|v| - 1] != w[|w| - 1]
  {
    LineJoined(g, v, w);
    var u := Reversed(v) + w[1..];
    assert NoRepeats(u);
    assert u[0] != u[|u| - 1];
  }

  /** In a forest two trails with the same end are the same trail. */
  lemma {:induction false} TrailUnique(g: Graph, limit: int, e: int, below: Option<int>, t: seq<int>, t': seq<int>,
                                       d: nat)
    requires WellFormed(g) && Mirrored(g) && Forest(g, false, limit) && 0 <= e < |g|
    requires IsTrail(g, e, below, t, d) && IsTrail(g, e, below, t', d) && End(g, e, t) == End(g, e, t')
    ensures t == t'
    decreases |t|
  {
    StopsAreLine(g, e, below, t, d);
    StopsAreLine(g, e, below, t', d);
    var v, w := Stops(g, e, t), Stops(g, e, t');
    assert NoRepeats(v) && NoRepeats(w);
    if |t| > 0 && |t'| > 0 {
      var n, n' := Other(e, g[e][t[0]]), Other(e, g[e][t'[0]]);
      assert Joins(g, false, e, t[0], n) && Joins(g, false, e, t'[0], n');
      if t[0] == t'[0] {
        TrailUnique(g, limit, n, Some(e), t[1..], t'[1..], d + 1);
        assert t == [t[0]] + t[1..] && t' == [t'[0]] + t'[1..];
      } else {
        assert v[1] == n && w[1] == n';
        NoMeeting(g, limit, v, w);
      }
    }
  }

  lemma {:induction false} WalkHasNoRepeats(g: Graph, limit: int, e: int)
    requires WellFormed(g) && Mirrored(g) && Forest(g, false, limit) && 0 <= e < |g|
    ensures NoRepeats(Walk(g, e))
  {
    var w := Walk(g, e);
    var ts := WalkPairsTrails(g, e);
    forall i, j | 0 <= i < j < |w| ensures w[i] != w[j] {
      if w[i] == w[j] {
        assert ts[i] in ts && ts[j] in ts;
        TrailUnique(g, limit, e, None, ts[i], ts[j], 1);
      }
    }
  }

  /** A trail can be extended by any followed slot at its end, while there is room. */
  lemma {:induction false} TrailSnoc(g: Graph, e: int, below: Option<int>, t: seq<int>, d: nat, i: int)
    requires IsTrail(g, e, below, t, d) && d + |t| < MAX_ENTITIES && |Stops(g, e, t)| == |t| + 1
    requires Follows(g, End(g, e, t), if |t| == 0 then below else Some(Stops(g, e, t)[|t| - 1]), i)
    ensures IsTrail(g, e, below, t + [i], d)
    ensures End(g, e, t + [i]) == Other(End(g, e, t), g[End(g, e, t)][i])
    decreases |t|
  {
    var u := t + [i];
    if |t| > 0 {
      var n := Other(e, g[e][t[0]]);
      assert Stops(g, e, t) == [e] + Stops(g, n, t[1..]);
      TrailSnoc(g, n, Some(e), t[1..], d + 1, i);
      assert u[1..] == t[1..] + [i];
    } else {
      assert u == [i] && u[1..] == [];
      assert Stops(g, e, u) == [e] + Stops(g, Other(e, g[e][i]), []);
    }
  }

  lemma {:induction false} TrailDropLast(g: Graph, e: int, below: Option<int>, t: seq<int>, d: nat)
    requires IsTrail(g, e, below, t, d) && |t| > 0 && |Stops(g, e, t)| == |t| + 1
    ensures IsTrail(g, e, below, t[..|t| - 1], d)
    ensures End(g, e, t[..|t| - 1]) == Stops(g, e, t)[|t| - 1]
    decreases |t|
  {
    if |t| > 1 {
      var n := Other(e, g[e][t[0]]);
      TrailDropLast(g, n, Some(e), t[1..], d + 1);
      assert t[..|t| - 1][1..] == t[1..][..|t| - 2];
    }
  }

  lemma {:induction false} LineSnoc(g: Graph, w: seq<int>, y: int)
    requires Line(g, false, w) && 0 <= y < |g| && Adjacent(g, false, w[|w| - 1], y)
    requires |w| > 1 ==> w[|w| - 2] != y
    ensures Line(g, false, w + [y])
  {
    PathSnoc(g, w, y);
  }

  /** No line from e has more than 15 entities. */
  ghost predicate Shallow(g: Graph, e: int) {
    forall w: seq<int> :: Line(g, false, w) && w[0] == e ==> |w| <= 15
  }

  /** A neighbour of a trail's end is the end of a trail, because no line is too long. */
  lemma {:induction false} TrailReaches(g: Graph, e: int, t: seq<int>, y: int) returns (u: seq<int>)
    requires WellFormed(g) && Shallow(g, e) && 0 <= e < |g|
    requires IsTrail(g, e, None, t, 1) && 0 <= y < |g| && Adjacent(g, false, End(g, e, t), y)
    ensures IsTrail(g, e, None, u, 1) && End(g, e, u) == y
  {
    StopsAreLine(g, e, None, t, 1);
    var stops := Stops(g, e, t);
    if |t| > 0 && y == stops[|t| - 1] {
      TrailDropLast(g, e, None, t, 1);
      u := t[..|t| - 1];
    } else {
      LineSnoc(g, stops, y);
      assert (stops + [y])[0] == e && |stops + [y]| <= 15;
      var i: int :| Joins(g, false, stops[|t|], i, y);
      TrailSnoc(g, e, None, t, 1, i);
      u := t + [i];
    }
  }

  /** So no neighbour of a returned entity is missed. */
  lemma {:induction false} WalkClosed(g: Graph, e: int, x: int, y: int)
    requires WellFormed(g) && Shallow(g, e) && 0 <= e < |g|
    requires x in Walk(g, e) && 0 <= y < |g| && Adjacent(g, false, x, y)
    ensures y in Walk(g, e)
  {
    var w := Walk(g, e);
    var ts := WalkPairsTrails(g, e);
    var k :| 0 <= k < |w| && w[k] == x;
    assert ts[k] in ts;
    var u := TrailReaches(g, e, ts[k], y);
    var l :| 0 <= l < |ts| && ts[l] == u;
    assert w[l] == y;
  }

  /** Everything returned is connected to the start. */
  lemma {:induction false} WalkConnected(g: Graph, e: int, x: int)
    requires WellFormed(g) && 0 <= e < |g| && x in Walk(g, e)
    ensures x in Component(g, e)
  {
    var w := Walk(g, e);
    var ts := WalkPairsTrails(g, e);
    var k :| 0 <= k < |w| && w[k] == x;
    assert ts[k] in ts;
    StopsAreLine(g, e, None, ts[k], 1);
    var v := Stops(g, e, ts[k]);
    assert Path(g, false, v) && v[0] == e && v[|v| - 1] == x;
  }

  lemma {:induction false} WalkHasStart(g: Graph, e: int)
    ensures e in Walk(g, e)
  {
    var ts := WalkPairsTrails(g, e);
    assert IsTrail(g, e, None, [], 1);
    var k :| 0 <= k < |ts| && ts[k] == [];
    assert Walk(g, e)[k] == e;
  }

  lemma {:induction false} ShallowVisits(g: Graph, limit: int, e: int)
    requires WellFormed(g) && Mirrored(g) && Forest(g, false, limit) && Shallow(g, e) && 0 <= e < |g|
    ensures multiset(Walk(g, e)) == multiset(Component(g, e))
  {
    WalkHasNoRepeats(g, limit, e);
    var w := Walk(g, e);
    var s := set x | x in w;
    WalkHasStart(g, e);
    forall x | x in s ensures x in Component(g, e) { WalkConnected(g, e, x); }
    forall x: int, y: int | x in s && 0 <= y < |g| && Adjacent(g, false, x, y) ensures y in s {
      WalkClosed(g, e, x, y);
    }
    ClosedSetHoldsComponent(g, s, e);
    assert s == Component(g, e);
    NoRepeatsIsSet(w, s);
  }

  // -------------------------------------------------- the depth of the stack

  lemma {:induction false} TrailShort(g: Graph, e: int, below: Option<int>, t: seq<int>, d: nat)
    requires IsTrail(g, e, below, t, d) && d <= 15
    ensures d + |t| <= 15
    decreases |t|
  {
    if |t| > 0 {
      TrailShort(g, Other(e, g[e][t[0]]), Some(e), t[1..], d + 1);
    }
  }

  /** The first k entities of a line are passed by a trail, while there is room. */
  lemma {:induction false} LineTrail(g: Graph, w: seq<int>, k: nat) returns (t: seq<int>)
    requires WellFormed(g) && Line(g, false, w) && 0 < k <= |w| && k <= 15
    ensures IsTrail(g, w[0], None, t, 1) && Stops(g, w[0], t) == w[..k]
    decreases k
  {
    var e := w[0];
    if k == 1 {
      t := [];
      assert w[..1] == [e];
    } else {
      var u := LineTrail(g, w, k - 1);
      StopsAreLine(g, e, None, u, 1);
      assert Adjacent(g, false, w[k - 2], w[k - 1]);
      var i: int :| Joins(g, false, w[k - 2], i, w[k - 1]);
      assert Stops(g, e, u)[|u|] == w[..k - 1][k - 2] == w[k - 2];
      if |u| > 0 {
        var a, b := k - 3, k - 1;
        assert w[a] != w[b];
        assert Stops(g, e, u)[|u| - 1] == w[a];
      }
      TrailSnoc(g, e, None, u, 1, i);
      StopsSnoc(g, e, None, u, 1, i);
      t := u + [i];
      assert w[..k] == w[..k - 1] + [w[k - 1]];
    }
  }

  lemma {:induction false} StopsSnoc(g: Graph, e: int, below: Option<int>, t: seq<int>, d: nat, i: int)
    requires IsTrail(g, e, below, t, d) && HasSlot(g, End(g, e, t), i)
    ensures Stops(g, e, t + [i]) == Stops(g, e, t) + [Other(End(g, e, t), g[End(g, e, t)][i])]
    decreases |t|
  {
    var u := t + [i];
    if |t| > 0 {
      StopsSnoc(g, Other(e, g[e][t[0]]), Some(e), t[1..], d + 1, i);
      assert u[1..] == t[1..] + [i];
    } else {
      assert u == [i] && u[1..] == [];
    }
  }

  /** w leads from e to x along enabled links and passes at most 15 entities. */
  ghost predicate Leads(g: Graph, e: int, x: int, w: seq<int>) {
    Line(g, false, w) && w[0] == e && w[|w| - 1] == x && |w| <= 15
  }

  ghost predicate Near(g: Graph, e: int, x: int) {
    exists w: seq<int> :: Leads(g, e, x, w)
  }

  lemma {:induction false} TrailLeads(g: Graph, e: int, t: seq<int>)
    requires WellFormed(g) && 0 <= e < |g| && IsTrail(g, e, None, t, 1)
    ensures Leads(g, e, End(g, e, t), Stops(g, e, t))
  {
    TrailShort(g, e, None, t, 1);
    StopsAreLine(g, e, None, t, 1);
  }

  lemma {:induction false} LedTrail(g: Graph, e: int, x: int, w: seq<int>) returns (t: seq<int>)
    requires WellFormed(g) && Leads(g, e, x, w)
    ensures IsTrail(g, e, None, t, 1) && End(g, e, t) == x
  {
    t := LineTrail(g, w, |w|);
    assert w[..|w|] == w;
  }

  /** On every graph: an entity is returned if and only if a line of at most 15 entities
      leads to it. */
  lemma {:induction false} WalkReachesNear(g: Graph, e: int, x: int)
    requires WellFormed(g) && 0 <= e < |g|
    ensures x in Walk(g, e) <==> Near(g, e, x)
  {
    var r := Walk(g, e);
    var ts := WalkPairsTrails(g, e);
    if x in r {
      var k :| 0 <= k < |r| && r[k] == x;
      assert ts[k] in ts;
      TrailLeads(g, e, ts[k]);
    }
    if Near(g, e, x) {
      var w: seq<int> :| Leads(g, e, x, w);
      var t := LedTrail(g, e, x, w);
      var k :| 0 <= k < |ts| && ts[k] == t;
      assert r[k] == x;
    }
  }

  /** x stands before y in s. */
  ghost predicate Before<T>(s: seq<T>, x: T, y: T) {
    exists p, q :: 0 <= p < q < |s| && s[p] == x && s[q] == y
  }

  lemma {:induction false} BeforeConcat<T>(a: seq<T>, b: seq<T>, x: T, y: T)
    requires Before(a, x, y) || Before(b, x, y) || (x in a && y in b)
    ensures Before(a + b, x, y)
  {
    var c := a + b;
    if Before(a, x, y) {
      var p, q :| 0 <= p < q < |a| && a[p] == x && a[q] == y;
      assert c[p] == x && c[q] == y;
    } else if Before(b, x, y) {
      var p, q :| 0 <= p < q < |b| && b[p] == x && b[q] == y;
      assert c[|a| + p] == x && c[|a| + q] == y;
    } else {
      var p, q :| 0 <= p < |a| && a[p] == x && 0 <= q < |b| && b[q] == y;
      assert c[p] == x && c[|a| + q] == y;
    }
  }

  lemma {:induction false} BeforePrepend(i: int, ts: seq<seq<int>>, t: seq<int>, u: seq<int>)
    requires |t| > 0 && |u| > 0 && t[0] == i && u[0] == i && Before(ts, t[1..], u[1..])
    ensures Before(Prepend(i, ts), t, u)
  {
    var r := Prepend(i, ts);
    var p, q :| 0 <= p < q < |ts| && ts[p] == t[1..] && ts[q] == u[1..];
    assert r[p] == [i] + t[1..] == t && r[q] == [i] + u[1..] == u;
  }

  /** Of two trails, one a part of the other, the longer one is listed first. */
  lemma {:induction false} LongerFirst(g: Graph, e: int, below: Option<int>, i: nat, d: nat, t: seq<int>, n: nat)
    requires t in Trails(g, e, below, i, d) && n < |t|
    ensures Before(Trails(g, e, below, i, d), t, t[..n])
    decreases MAX_ENTITIES - d, if HasSlot(g, e, i) then |g[e]| - i else 0
  {
    var later := Trails(g, e, below, i + 1, d);
    if t in later && HasSlot(g, e, i) {
      LongerFirst(g, e, below, i + 1, d, t, n);
    }
    if Follows(g, e, below, i) && d < MAX_ENTITIES {
      var sub := Trails(g, Other(e, g[e][i]), Some(e), 0, d + 1);
      PrependMember(i, sub, t);
      if t !in later {
        if n == 0 {
          EmptyTrail(g, e, below, i + 1, d);
        } else {
          LongerFirst(g, Other(e, g[e][i]), Some(e), 0, d + 1, t[1..], n - 1);
          assert t[..n][1..] == t[1..][..n - 1];
          BeforePrepend(i, sub, t, t[..n]);
        }
      }
      BeforeConcat(Prepend(i, sub), later, t, t[..n]);
    }
  }

  /** Depth first: what lies beyond an entity on a line from e is returned before it. */
  lemma {:induction false} WalkDepthFirst(g: Graph, e: int, w: seq<int>, k: nat)
    requires WellFormed(g) && Line(g, false, w) && w[0] == e && |w| <= 15 && k < |w| - 1
    ensures Before(Walk(g, e), w[|w| - 1], w[k])
  {
    var t := LineTrail(g, w, |w|);
    assert w[..|w|] == w;
    StopsAreLine(g, e, None, t, 1);
    var ts := WalkPairsTrails(g, e);
    assert t in ts;
    LongerFirst(g, e, None, 0, 1, t, k);
    StopsTake(g, e, None, t, 1, k);
    var p, q :| 0 <= p < q < |ts| && ts[p] == t && ts[q] == t[..k];
    assert Walk(g, e)[p] == w[|w| - 1] && Walk(g, e)[q] == w[k];
  }

  lemma {:induction false} StopsTake(g: Graph, e: int, below: Option<int>, t: seq<int>, d: nat, k: nat)
    requires IsTrail(g, e, below, t, d) && k <= |t|
    ensures |Stops(g, e, t)| == |t| + 1 && Stops(g, e, t[..k]) == Stops(g, e, t)[..k + 1]
    decreases |t|
  {
    if |t| > 0 {
      var n := Other(e, g[e][t[0]]);
      StopsTake(g, n, Some(e), t[1..], d + 1, if k == 0 then 0 else k - 1);
      if k > 0 {
        assert t[..k][1..] == t[1..][..k - 1];
      }
    }
  }

  /** In a forest one line leads from one entity to another. */
  lemma {:induction false} LineUnique(g: Graph, limit: int, v: seq<int>, w: seq<int>)
    requires Mirrored(g) && Forest(g, false, limit) && Line(g, false, v) && Line(g, false, w)
    requires v[0] == w[0] && v[|v| - 1] == w[|w| - 1]
    ensures v == w
    decreases |v|
  {
    LineEnds(g, limit, v);
    LineEnds(g, limit, w);
    if |v| > 1 && |w| > 1 {
      if v[1] != w[1] {
        NoMeeting(g, limit, v, w);
      } else {
        LineTail(g, v);
        LineTail(g, w);
        LineUnique(g, limit, v[1..], w[1..]);
        assert v == [v[0]] + v[1..] && w == [w[0]] + w[1..];
      }
    }
  }

  lemma {:induction false} LineEnds(g: Graph, limit: int, w: seq<int>)
    requires Forest(g, false, limit) && Line(g, false, w)
    ensures |w| > 1 ==> w[0] != w[|w| - 1]
  {
    assert NoRepeats(w);
  }

  lemma {:induction false} LineTail(g: Graph, w: seq<int>)
    requires Line(g, false, w) && |w| > 1
    ensures Line(g, false, w[1..])
  {
    var u := w[1..];
    forall k, l | 0 <= k && l == k + 1 && l < |u| ensures Adjacent(g, false, u[k], u[l]) {
      var k', l' := k + 1, l + 1;
      assert Adjacent(g, false, w[k'], w[l']);
    }
    forall k, l | 0 <= k && l == k + 2 && l < |u| ensures u[k] != u[l] {
      var k', l' := k + 1, l + 1;
      assert w[k'] != w[l'];
    }
  }

  /** A line that is too long ends at an entity that is not returned. */
  lemma {:induction false} DeepMissed(g: Graph, limit: int, w: seq<int>)
    requires WellFormed(g) && Mirrored(g) && Forest(g, false, limit) && Line(g, false, w) && |w| > 15
    ensures w[|w| - 1] in Component(g, w[0]) && w[|w| - 1] !in Walk(g, w[0])
  {
    var e, x := w[0], w[|w| - 1];
    WalkReachesNear(g, e, x);
    if Near(g, e, x) {
      var v: seq<int> :| Leads(g, e, x, v);
      LineUnique(g, limit, v, w);
    }
  }

  /** On a forest the traversal returns every connected entity exactly once and nothing
      else if and only if no line from its start has more than 15 entities. */
  lemma {:induction false} WalkVisitsExactly(g: Graph, limit: int, e: int)
    requires WellFormed(g) && Mirrored(g) && Forest(g, false, limit) && 0 <= e < |g|
    ensures multiset(Walk(g, e)) == multiset(Component(g, e)) <==> Shallow(g, e)
  {
    if Shallow(g, e) {
      ShallowVisits(g, limit, e);
    } else {
      var w: seq<int> :| Line(g, false, w) && w[0] == e && |w| > 15;
      DeepMissed(g, limit, w);
      assert w[|w| - 1] in multiset(Component(g, e)) && w[|w| - 1] !in multiset(Walk(g, e));
    }
  }

  /** On a forest whose lines have at most 15 entities the traversal returns every
      connected entity exactly once and nothing else. */
  lemma {:induction false} WalkVisitsComponent(g: Graph, e: int)
    requires WellFormed(g) && Mirrored(g) && Forest(g, false, 15) && 0 <= e < |g|
    ensures NoRepeats(Walk(g, e))
    ensures (set x | x in Walk(g, e)) == Component(g, e)
    ensures multiset(Walk(g, e)) == multiset(Component(g, e))
  {
    WalkHasNoRepeats(g, 15, e);
    WalkVisitsExactly(g, 15, e);
    forall x ensures x in Walk(g, e) <==> x in Component(g, e) {
      assert x in multiset(Walk(g, e)) <==> x in Walk(g, e);
      assert x in multiset(Component(g, e)) <==> x in Component(g, e);
    }
  }

  lemma {:induction false} CountOnce<T>(w: seq<T>, x: T)
    requires NoRepeats(w)
    ensures multiset(w)[x] == if x in w then 1 else 0
    decreases |w|
  {
    if |w| > 0 {
      var n := |w| - 1;
      CountOnce(w[..n], x);
      assert w == w[..n] + [w[n]];
    }
  }

  lemma {:induction false} NoRepeatsIsSet<T>(w: seq<T>, s: set<T>)
    requires NoRepeats(w) && s == set x | x in w
    ensures multiset(w) == multiset(s)
  {
    forall x: T ensures multiset(w)[x] == multiset(s)[x] {
      CountOnce(w, x);
    }
  }
}
