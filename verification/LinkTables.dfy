/** The links arrays of media entities as they lie in memory. The address of an
    array element names its entity, the generation of the entity's array and an
    index. Growing an array moves it: its generation goes up and every address of
    the old generation dangles, so it can no longer be read or written. */
module LinkTables {
  import opened Basics
  import opened MediaGraph

  datatype Slot = Slot(entity: nat, generation: nat, index: nat)

  datatype Link = Link(source: Pad, sink: Pad, reverse: Slot, flags: Flags)

  /** links has max_links elements, of which the first numLinks are in use. */
  datatype Entity = Entity(numPads: nat, numLinks: nat, numBacklinks: nat, links: seq<Link>, generation: nat)

  ghost predicate Live(es: seq<Entity>, e: int, i: int) {
    0 <= e < |es| && 0 <= i < es[e].numLinks <= |es[e].links|
  }

  /** s is the address of an element of a current array. */
  predicate Points(es: seq<Entity>, s: Slot) {
    s.entity < |es| && s.generation == es[s.entity].generation && s.index < |es[s.entity].links|
  }

  /** The end of l that is not e. */
  ghost function FarEnd(e: nat, l: Link): int {
    if l.source.entity == e then l.sink.entity else l.source.entity
  }

  /** l joins e to another entity, and both of its pads exist. */
  ghost predicate Joint(es: seq<Entity>, e: nat, l: Link) {
    && 0 <= l.source.entity < |es| && 0 <= l.source.index < es[l.source.entity].numPads
    && 0 <= l.sink.entity < |es| && 0 <= l.sink.index < es[l.sink.entity].numPads
    && l.source.entity != l.sink.entity && (l.source.entity == e || l.sink.entity == e)
  }

  /** The slot that the reverse pointer of slot i of e names is a live slot of the
      entity at the far end, it equals slot i, and it points back. */
  ghost predicate Paired(es: seq<Entity>, e: nat, i: nat)
    requires Live(es, e, i)
  {
    var l := es[e].links[i];
    && Joint(es, e, l)
    && var r := l.reverse;
       && r.entity == FarEnd(e, l) && Points(es, r) && Live(es, r.entity, r.index)
       && es[r.entity].links[r.index] == l.(reverse := Slot(e, es[e].generation, i))
  }

  /** How many of these links point at e. */
  ghost function Incoming(ls: seq<Link>, e: nat): nat {
    if |ls| == 0 then 0
    else Incoming(ls[..|ls| - 1], e) + if ls[|ls| - 1].sink.entity == e then 1 else 0
  }

  ghost predicate Counted(en: Entity, e: nat) {
    en.numLinks <= |en.links| && en.numBacklinks == Incoming(en.links[..en.numLinks], e)
  }

  /** The invariant of the link tables. */
  ghost predicate Wired(es: seq<Entity>) {
    && (forall e {:trigger Counted(es[e], e)} :: 0 <= e < |es| ==> Counted(es[e], e))
    && (forall e, i {:trigger Paired(es, e, i)} :: Live(es, e, i) ==> Paired(es, e, i))
  }

  lemma {:induction false} LivePaired(es: seq<Entity>, e: nat, i: nat)
    requires Wired(es) && e < |es| && i < es[e].numLinks
    ensures Live(es, e, i) && Paired(es, e, i)
  {
    EntityCounted(es, e);
    var paired := Paired(es, e, i);
    assert paired;
  }

  lemma {:induction false} EntityCounted(es: seq<Entity>, e: nat)
    requires Wired(es) && e < |es|
    ensures Counted(es[e], e)
  {
    var counted := Counted(es[e], e);
    assert counted;
  }

  function ToArc(l: Link): Arc {
    Arc(l.source, l.sink, l.flags)
  }

  function Arcs(ls: seq<Link>): (r: seq<Arc>)
    ensures |r| == |ls| && forall i :: 0 <= i < |ls| ==> r[i] == ToArc(ls[i])
  {
    seq(|ls|, i requires 0 <= i < |ls| => ToArc(ls[i]))
  }

  function LiveArcs(en: Entity): seq<Arc> {
    if en.numLinks <= |en.links| then Arcs(en.links[..en.numLinks]) else []
  }

  /** The graph a traversal sees. */
  ghost function View(es: seq<Entity>): (g: Graph)
    ensures |g| == |es| && forall e :: 0 <= e < |es| ==> g[e] == LiveArcs(es[e])
  {
    seq(|es|, e requires 0 <= e < |es| => LiveArcs(es[e]))
  }

  // ----------------------------------------------------- what Wired gives

  /** reverse is an involution between live slots. */
  lemma {:induction false} ReverseInvolution(es: seq<Entity>, e: nat, i: nat)
    requires Wired(es) && Live(es, e, i)
    ensures var l := es[e].links[i]; var r := l.reverse;
            && Points(es, r) && Live(es, r.entity, r.index) && r.entity != e
            && ToArc(es[r.entity].links[r.index]) == ToArc(l)
            && es[r.entity].links[r.index].reverse == Slot(e, es[e].generation, i)
  {
    LivePaired(es, e, i);
  }

  lemma {:induction false} WiredView(es: seq<Entity>)
    requires Wired(es)
    ensures WellFormed(View(es)) && Mirrored(View(es))
  {
    var g: Graph := View(es);
    forall e, i | 0 <= e < |g| && 0 <= i < |g[e]|
      ensures 0 <= g[e][i].source.entity < |g| && 0 <= g[e][i].sink.entity < |g|
      ensures g[e][i].source.entity == e || g[e][i].sink.entity == e
    {
      LivePaired(es, e, i);
    }
    forall all: bool, a: int, b: int | Adjacent(g, all, a, b) ensures Adjacent(g, all, b, a) {
      var i: int :| Joins(g, all, a, i, b);
      LivePaired(es, a, i);
      var r := es[a].links[i].reverse;
      assert Joins(g, all, b, r.index, a);
    }
  }

  /** What a traversal needs: the links it looks at exist. */
  ghost predicate Readable(es: seq<Entity>) {
    WellFormed(View(es)) && forall e {:trigger es[e].numLinks} :: 0 <= e < |es| ==> es[e].numLinks <= |es[e].links|
  }

  lemma {:induction false} WiredReadable(es: seq<Entity>)
    requires Wired(es)
    ensures Readable(es)
  {
    WiredView(es);
    forall e | 0 <= e < |es| ensures es[e].numLinks <= |es[e].links| { EntityCounted(es, e); }
  }

  // ------------------------------------------------- moving a links array

  function Redirect(l: Link, e: nat, generation: nat, k: nat): Link {
    if l.reverse.entity == e && l.reverse.index < k
    then l.(reverse := Slot(e, generation, l.reverse.index)) else l
  }

  /** en is entity f after the first k links of e have told their partners that
      they moved to the given generation. */
  ghost predicate Told(was: Entity, en: Entity, e: nat, generation: nat, k: nat) {
    && |en.links| == |was.links| && en == was.(links := en.links)
    && (forall j :: 0 <= j < |was.links| ==>
          en.links[j] == if j < was.numLinks then Redirect(was.links[j], e, generation, k) else was.links[j])
  }

  /** The entities after the array of e was copied to a larger block and k partners were told. */
  ghost predicate Moved(es: seq<Entity>, e: nat, es': seq<Entity>, k: nat)
    requires e < |es|
  {
    && |es'| == |es|
    && es'[e] == es[e].(links := es'[e].links, generation := es[e].generation + 1)
    && es[e].links <= es'[e].links
    && (forall f :: 0 <= f < |es| && f != e ==> Told(es[f], es'[f], e, es[e].generation + 1, k))
  }

  function SetReverse(es: seq<Entity>, s: Slot, to: Slot): seq<Entity>
    requires Points(es, s)
  {
    var en := es[s.entity];
    es[s.entity := en.(links := en.links[s.index := en.links[s.index].(reverse := to)])]
  }

  /** One iteration of the fix-up loop stays inside live memory and tells one more partner. */
  lemma {:induction false} MovedStep(es: seq<Entity>, e: nat, es': seq<Entity>, k: nat)
    requires Wired(es) && e < |es| && k < es[e].numLinks <= |es[e].links| && Moved(es, e, es', k)
    ensures var s := es'[e].links[k].reverse;
            Points(es', s) && Moved(es, e, SetReverse(es', s, Slot(e, es'[e].generation, k)), k + 1)
  {
    LivePaired(es, e, k);
    var s := es[e].links[k].reverse;
    assert Told(es[s.entity], es'[s.entity], e, es[e].generation + 1, k);
    var es'' := SetReverse(es', s, Slot(e, es'[e].generation, k));
    forall f | 0 <= f < |es| && f != e ensures Told(es[f], es''[f], e, es[e].generation + 1, k + 1) {
      assert Told(es[f], es'[f], e, es[e].generation + 1, k);
      forall j | 0 <= j < |es[f].links|
        ensures es''[f].links[j] == if j < es[f].numLinks then Redirect(es[f].links[j], e, es[e].generation + 1, k + 1)
                                    else es[f].links[j]
      {
        if j < es[f].numLinks { LivePaired(es, f, j); }
      }
    }
  }

  /** When every partner has been told, the tables are consistent again and the
      graph they describe has not changed. */
  lemma {:induction false} MovedDone(es: seq<Entity>, e: nat, es': seq<Entity>)
    requires Wired(es) && e < |es| && Moved(es, e, es', es[e].numLinks)
    ensures Wired(es') && View(es') == View(es)
  {
    forall f | 0 <= f < |es| ensures Counted(es'[f], f) && LiveArcs(es'[f]) == LiveArcs(es[f]) {
      MovedArcs(es, e, es', f);
    }
    forall f, j | Live(es', f, j) ensures Paired(es', f, j) { MovedPaired(es, e, es', f, j); }
    assert View(es') == View(es);
  }

  lemma {:induction false} MovedArcs(es: seq<Entity>, e: nat, es': seq<Entity>, f: nat)
    requires Wired(es) && e < |es| && f < |es| && Moved(es, e, es', es[e].numLinks)
    ensures Counted(es'[f], f) && LiveArcs(es'[f]) == LiveArcs(es[f])
  {
    EntityCounted(es, f);
    if f != e { assert Told(es[f], es'[f], e, es[e].generation + 1, es[e].numLinks); }
    var a, b := es[f].links[..es[f].numLinks], es'[f].links[..es'[f].numLinks];
    SameIncoming(a, b, f);
    assert Arcs(a) == Arcs(b);
  }

  lemma {:induction false} MovedPaired(es: seq<Entity>, e: nat, es': seq<Entity>, f: nat, j: nat)
    requires Wired(es) && e < |es| && Moved(es, e, es', es[e].numLinks) && Live(es', f, j)
    ensures Paired(es', f, j)
  {
    if f != e { assert Told(es[f], es'[f], e, es[e].generation + 1, es[e].numLinks); }
    EntityCounted(es, f);
    LivePaired(es, f, j);
    var r := es[f].links[j].reverse;
    if r.entity != e { assert Told(es[r.entity], es'[r.entity], e, es[e].generation + 1, es[e].numLinks); }
    assert forall x :: 0 <= x < |es| ==> es'[x].numPads == es[x].numPads;
  }

  lemma {:induction false} SameIncoming(a: seq<Link>, b: seq<Link>, e: nat)
    requires |a| == |b| && forall j :: 0 <= j < |a| ==> a[j].sink == b[j].sink
    ensures Incoming(a, e) == Incoming(b, e)
  {
    if |a| > 0 { SameIncoming(a[..|a| - 1], b[..|a| - 1], e); }
  }

  lemma {:induction false} HideSetReverse(es: seq<Entity>, building: set<nat>, s: Slot, to: Slot)
    requires Points(es, s)
    ensures Points(Hide(es, building), s)
    ensures Hide(SetReverse(es, s, to), building) == SetReverse(Hide(es, building), s, to)
  {
    var a, b := Hide(SetReverse(es, s, to), building), SetReverse(Hide(es, building), s, to);
    assert forall x :: 0 <= x < |es| && x != s.entity ==> a[x] == b[x];
    assert a[s.entity] == b[s.entity];
    assert a == b;
  }

  /** es is was with the array of e two slots larger, at a new address, after k
      partners were told; slots that are still being filled are not looked at. */
  ghost predicate Growing(was: seq<Entity>, es: seq<Entity>, e: nat, building: set<nat>, k: nat) {
    && e < |was| && |es| == |was| && e !in building
    && Moved(Hide(was, building), e, Hide(es, building), k)
    && |es[e].links| == |was[e].links| + 2
    && (forall f {:trigger es[f].numLinks} :: 0 <= f < |es| ==> es[f].numLinks == was[f].numLinks)
  }

  lemma {:induction false} GrowStart(was: seq<Entity>, es: seq<Entity>, e: nat, building: set<nat>, junk: Link)
    requires e < |was| && e !in building && Wired(Hide(was, building))
    requires es == was[e := was[e].(links := was[e].links + [junk, junk], generation := was[e].generation + 1)]
    ensures Growing(was, es, e, building, 0)
  {
    var h, h' := Hide(was, building), Hide(es, building);
    forall f | 0 <= f < |was| && f != e ensures Told(h[f], h'[f], e, h[e].generation + 1, 0) {
      assert h'[f] == h[f];
    }
  }

  lemma {:induction false} GrowStep(was: seq<Entity>, es: seq<Entity>, e: nat, building: set<nat>, i: nat)
    requires Wired(Hide(was, building)) && Growing(was, es, e, building, i) && i < was[e].numLinks
    ensures i < |es[e].links|
    ensures var s := es[e].links[i].reverse;
            Points(es, s) && Growing(was, SetReverse(es, s, Slot(e, es[e].generation, i)), e, building, i + 1)
  {
    var h := Hide(was, building);
    LivePaired(h, e, i);
    MovedStep(h, e, Hide(es, building), i);
    HideSetReverse(es, building, es[e].links[i].reverse, Slot(e, es[e].generation, i));
  }

  // ------------------------------------------------------- adding a link

  /** An entity without its last slot, which is still being filled. */
  function HideLast(en: Entity): Entity {
    if en.numLinks > 0 then en.(numLinks := en.numLinks - 1) else en
  }

  /** The entities without the slots that are still being filled. */
  ghost function Hide(es: seq<Entity>, building: set<nat>): (r: seq<Entity>)
    ensures |r| == |es|
    ensures forall e :: 0 <= e < |es| ==> r[e] == (if e in building then HideLast(es[e]) else es[e])
  {
    seq(|es|, e requires 0 <= e < |es| => if e in building then HideLast(es[e]) else es[e])
  }

  lemma {:induction false} HideNothing(es: seq<Entity>)
    ensures Hide(es, {}) == es
  {
  }

  /** g' is g with one more link between s and k, appended at both of its ends. */
  ghost predicate AddsLink(g: Graph, g': Graph, s: nat, k: nat, a: Arc) {
    |g'| == |g| && forall f :: 0 <= f < |g| ==> g'[f] == if f == s || f == k then g[f] + [a] else g[f]
  }

  /** Entity en with its last slot filled by l. */
  function FillLast(en: Entity, l: Link): Entity
    requires 0 < en.numLinks <= |en.links|
  {
    en.(links := en.links[en.numLinks - 1 := l])
  }

  /** The last part of media_entity_create_link: fill in the backlink, let the two
      slots point at each other and count the backlink. */
  function FillBoth(es: seq<Entity>, s: nat, k: nat, l: Link, link: Slot, backlink: Slot): seq<Entity>
    requires s < |es| && k < |es|
    requires 0 < es[s].numLinks <= |es[s].links| && 0 < es[k].numLinks <= |es[k].links|
  {
    es[s := FillLast(es[s], l.(reverse := backlink))]
      [k := FillLast(es[k], l.(reverse := link)).(numBacklinks := es[k].numBacklinks + 1)]
  }

  lemma {:induction false} FilledLast(en: Entity, e: nat, l: Link)
    requires 0 < en.numLinks <= |en.links| && Counted(HideLast(en), e)
    ensures var en' := FillLast(en, l);
            && Counted(en'.(numBacklinks := en.numBacklinks + if l.sink.entity == e then 1 else 0), e)
            && LiveArcs(en') == LiveArcs(HideLast(en)) + [ToArc(l)]
  {
    var n := en.numLinks - 1;
    var ls := FillLast(en, l).links[..n + 1];
    assert ls[..n] == en.links[..n] && ls[n] == l;
    assert Arcs(ls) == Arcs(en.links[..n]) + [ToArc(l)];
  }

  /** The entities after both ends of a new link have been filled in. */
  ghost predicate Filled(es: seq<Entity>, s: nat, k: nat, a: Arc, es': seq<Entity>) {
    && s < |es| && k < |es| && s != k
    && 0 < es[s].numLinks <= |es[s].links| && 0 < es[k].numLinks <= |es[k].links|
    && a.source.entity == s && 0 <= a.source.index < es[s].numPads
    && a.sink.entity == k && 0 <= a.sink.index < es[k].numPads
    && |es'| == |es| && (forall x :: 0 <= x < |es| && x != s && x != k ==> es'[x] == es[x])
    && es'[s] == FillLast(es[s], Link(a.source, a.sink, Slot(k, es[k].generation, es[k].numLinks - 1), a.flags))
    && es'[k] == FillLast(es[k], Link(a.source, a.sink, Slot(s, es[s].generation, es[s].numLinks - 1), a.flags))
                 .(numBacklinks := es[k].numBacklinks + 1)
  }

  /** es and es' differ only in what their slots hold. */
  ghost predicate SameFrame(es: seq<Entity>, es': seq<Entity>) {
    |es'| == |es| && forall x :: 0 <= x < |es| ==>
      && es'[x].numPads == es[x].numPads && es'[x].generation == es[x].generation
      && es[x].numLinks <= es'[x].numLinks <= |es'[x].links| == |es[x].links|
  }

  /** A pair stays one when both of its slots keep pads and pointers and agree on the flags. */
  lemma {:induction false} PairKept(es: seq<Entity>, es': seq<Entity>, f: nat, j: nat, flags: Flags)
    requires SameFrame(es, es') && Live(es, f, j) && Paired(es, f, j)
    requires var l := es[f].links[j]; var r := l.reverse;
             && es'[f].links[j] == l.(flags := flags)
             && es'[r.entity].links[r.index] == es[r.entity].links[r.index].(flags := flags)
    ensures Paired(es', f, j)
  {
  }

  lemma {:induction false} FilledFrame(es: seq<Entity>, s: nat, k: nat, a: Arc, es': seq<Entity>)
    requires Filled(es, s, k, a, es') && Wired(Hide(es, {s, k}))
    ensures SameFrame(Hide(es, {s, k}), es')
  {
    var h := Hide(es, {s, k});
    forall x | 0 <= x < |es|
      ensures es'[x].numPads == h[x].numPads && es'[x].generation == h[x].generation
      ensures h[x].numLinks <= es'[x].numLinks <= |es'[x].links| == |h[x].links|
    {
      EntityCounted(h, x);
    }
  }

  lemma {:induction false} FilledKeeps(es: seq<Entity>, s: nat, k: nat, a: Arc, es': seq<Entity>, f: nat, j: nat)
    requires Filled(es, s, k, a, es') && Live(Hide(es, {s, k}), f, j)
    ensures j < |es'[f].links| && es'[f].links[j] == Hide(es, {s, k})[f].links[j]
  {
  }

  lemma {:induction false} OldPairKept(es: seq<Entity>, s: nat, k: nat, a: Arc, es': seq<Entity>, f: nat, j: nat)
    requires Filled(es, s, k, a, es') && SameFrame(Hide(es, {s, k}), es')
    requires Live(Hide(es, {s, k}), f, j) && Paired(Hide(es, {s, k}), f, j)
    ensures Live(es', f, j) && Paired(es', f, j)
  {
    var h := Hide(es, {s, k});
    var r := h[f].links[j].reverse;
    FilledKeeps(es, s, k, a, es', f, j);
    FilledKeeps(es, s, k, a, es', r.entity, r.index);
    PairKept(h, es', f, j, h[f].links[j].flags);
  }

  lemma {:induction false} NewPairMade(es: seq<Entity>, s: nat, k: nat, a: Arc, es': seq<Entity>)
    requires Filled(es, s, k, a, es')
    ensures Live(es', s, es[s].numLinks - 1) && Paired(es', s, es[s].numLinks - 1)
    ensures Live(es', k, es[k].numLinks - 1) && Paired(es', k, es[k].numLinks - 1)
  {
    assert Joint(es', s, es'[s].links[es[s].numLinks - 1]);
    assert Joint(es', k, es'[k].links[es[k].numLinks - 1]);
  }

  lemma {:induction false} OnlyLastIsNew(es: seq<Entity>, s: nat, k: nat, a: Arc, es': seq<Entity>, f: nat, j: nat)
    requires Filled(es, s, k, a, es') && Live(es', f, j) && !Live(Hide(es, {s, k}), f, j)
    ensures (f == s || f == k) && j == es[f].numLinks - 1
  {
  }

  /** Filling the last slots of both ends with the new link makes them live ... */
  lemma {:induction false} AddedWired(es: seq<Entity>, s: nat, k: nat, a: Arc, es': seq<Entity>)
    requires Wired(Hide(es, {s, k})) && Filled(es, s, k, a, es')
    ensures Wired(es')
  {
    var h := Hide(es, {s, k});
    FilledFrame(es, s, k, a, es');
    forall f | 0 <= f < |es| ensures Counted(es'[f], f) {
      EntityCounted(h, f);
      if f == s || f == k { FilledLast(es[f], f, es'[f].links[es[f].numLinks - 1]); }
    }
    NewPairMade(es, s, k, a, es');
    forall f, j | Live(es', f, j) ensures Paired(es', f, j) {
      if Live(h, f, j) { OldPairKept(es, s, k, a, es', f, j); } else { OnlyLastIsNew(es, s, k, a, es', f, j); }
    }
  }

  lemma {:induction false} AddedArcs(es: seq<Entity>, s: nat, k: nat, a: Arc, es': seq<Entity>, f: nat)
    requires Filled(es, s, k, a, es') && f < |es| && Counted(Hide(es, {s, k})[f], f)
    ensures var arcs := LiveArcs(Hide(es, {s, k})[f]);
            LiveArcs(es'[f]) == if f == s || f == k then arcs + [a] else arcs
  {
    if f == s || f == k { FilledLast(es[f], f, es'[f].links[es[f].numLinks - 1]); }
  }

  /** ... and adds the link to the graph at both ends. */
  lemma {:induction false} AddedView(es: seq<Entity>, s: nat, k: nat, a: Arc, es': seq<Entity>)
    requires Filled(es, s, k, a, es') && Wired(Hide(es, {s, k}))
    ensures AddsLink(View(Hide(es, {s, k})), View(es'), s, k, a)
  {
    var h := Hide(es, {s, k});
    forall f | 0 <= f < |es|
      ensures LiveArcs(es'[f]) == if f == s || f == k then LiveArcs(h[f]) + [a] else LiveArcs(h[f])
    {
      EntityCounted(h, f);
      AddedArcs(es, s, k, a, es', f);
    }
  }

  /** h' is h as far as live slots are concerned. */
  ghost predicate LiveSame(h: seq<Entity>, h': seq<Entity>) {
    && SameFrame(h, h')
    && (forall x :: 0 <= x < |h| ==> h'[x].numLinks == h[x].numLinks && h'[x].numBacklinks == h[x].numBacklinks)
    && (forall x, j :: Live(h, x, j) ==> h'[x].links[j] == h[x].links[j])
  }

  /** What lies in slots that are not live does not matter. */
  lemma {:induction false} DeadSlotsIgnored(h: seq<Entity>, h': seq<Entity>)
    requires Wired(h) && LiveSame(h, h')
    ensures Wired(h') && View(h') == View(h)
  {
    forall x | 0 <= x < |h| ensures Counted(h'[x], x) && LiveArcs(h'[x]) == LiveArcs(h[x]) {
      EntityCounted(h, x);
      assert forall j :: 0 <= j < h[x].numLinks ==> Live(h, x, j);
      assert h[x].links[..h[x].numLinks] == h'[x].links[..h'[x].numLinks];
    }
    forall x, j | Live(h', x, j) ensures Paired(h', x, j) {
      LivePaired(h, x, j);
      PairKept(h, h', x, j, h[x].links[j].flags);
    }
    assert View(h') == View(h);
  }

  /** A new entity brings no links. */
  lemma {:induction false} EntityAdded(es: seq<Entity>, en: Entity)
    requires Wired(es) && en.numLinks == 0 && en.numBacklinks == 0
    ensures Wired(es + [en]) && View(es + [en]) == View(es) + [[]]
  {
    var es' := es + [en];
    forall e | 0 <= e < |es'| ensures Counted(es'[e], e) {
      if e < |es| { EntityCounted(es, e); }
    }
    forall e, i | Live(es', e, i) ensures Paired(es', e, i) {
      LivePaired(es, e, i);
    }
    assert View(es') == View(es) + [[]];
  }

  /** es' is es with a new last slot in e, which nothing refers to yet. */
  ghost predicate Opened(es: seq<Entity>, es': seq<Entity>, e: nat, building: set<nat>) {
    && OpenedFrame(es, es', e, building)
    && Wired(Hide(es', building + {e})) && View(Hide(es', building + {e})) == View(Hide(es, building))
  }

  ghost predicate OpenedFrame(es: seq<Entity>, es': seq<Entity>, e: nat, building: set<nat>) {
    && e < |es| && |es'| == |es|
    && es'[e].numLinks == es[e].numLinks + 1 <= |es'[e].links| && es'[e].numPads == es[e].numPads
    && (forall f :: 0 <= f < |es| && f != e ==>
          es'[f] == es[f].(links := es'[f].links) && |es'[f].links| == |es[f].links|)
    && (forall f :: 0 <= f < |es| && f in building && 0 < es[f].numLinks <= |es[f].links| && f != e ==>
          es'[f].links[es[f].numLinks - 1] == es[f].links[es[f].numLinks - 1])
  }

  lemma {:induction false} OpenedInPlace(es: seq<Entity>, es': seq<Entity>, e: nat, building: set<nat>)
    requires e < |es| && e !in building && Wired(Hide(es, building)) && es[e].numLinks < |es[e].links|
    requires es' == es[e := es[e].(numLinks := es[e].numLinks + 1)]
    ensures Opened(es, es', e, building)
  {
    assert forall x :: 0 <= x < |es| ==> Hide(es', building + {e})[x] == Hide(es, building)[x];
    assert Hide(es', building + {e}) == Hide(es, building);
  }

  /** A moved array is the old one, elsewhere. */
  lemma {:induction false} OpenedAfterMove(es: seq<Entity>, moved: seq<Entity>, es': seq<Entity>, e: nat,
                                           building: set<nat>)
    requires e < |es| && Wired(Hide(es, building)) && Growing(es, moved, e, building, es[e].numLinks)
    requires es' == moved[e := moved[e].(numLinks := moved[e].numLinks + 1)]
    ensures Opened(es, es', e, building)
  {
    var h, hm := Hide(es, building), Hide(moved, building);
    EntityCounted(h, e);
    MovedDone(h, e, hm);
    OpenedInPlace(moved, es', e, building);
    forall f | 0 <= f < |es| && f != e
      ensures es'[f] == es[f].(links := es'[f].links) && |es'[f].links| == |es[f].links|
      ensures f in building && 0 < es[f].numLinks <= |es[f].links| ==>
                es'[f].links[es[f].numLinks - 1] == es[f].links[es[f].numLinks - 1]
    {
      assert Told(h[f], hm[f], e, h[e].generation + 1, es[e].numLinks);
    }
  }

  lemma {:induction false} DeadWrite(h: seq<Entity>, h': seq<Entity>, e: nat, l: Link)
    requires |h'| == |h| && e < |h| && h[e].numLinks < |h[e].links|
    requires forall x :: 0 <= x < |h| ==> h[x].numLinks <= |h[x].links|
    requires forall x :: 0 <= x < |h| && x != e ==> h'[x] == h[x]
    requires h'[e] == h[e].(links := h[e].links[h[e].numLinks := l])
    ensures LiveSame(h, h')
  {
  }

  lemma {:induction false} WriteKeepsLive(es: seq<Entity>, e: nat, l: Link)
    requires e < |es| && 0 < es[e].numLinks <= |es[e].links|
    requires forall x :: 0 <= x < |es| ==> Hide(es, {e})[x].numLinks <= |es[x].links|
    ensures LiveSame(Hide(es, {e}), Hide(es[e := FillLast(es[e], l)], {e}))
  {
    DeadWrite(Hide(es, {e}), Hide(es[e := FillLast(es[e], l)], {e}), e, l);
  }

  /** Writing to a slot that is still being filled disturbs nothing. */
  lemma {:induction false} BuildingWritten(es: seq<Entity>, e: nat, l: Link)
    requires e < |es| && 0 < es[e].numLinks <= |es[e].links| && Wired(Hide(es, {e}))
    ensures var es' := es[e := FillLast(es[e], l)];
            Wired(Hide(es', {e})) && View(Hide(es', {e})) == View(Hide(es, {e}))
  {
    assert forall x :: 0 <= x < |es| ==> Counted(Hide(es, {e})[x], x);
    WriteKeepsLive(es, e, l);
    DeadSlotsIgnored(Hide(es, {e}), Hide(es[e := FillLast(es[e], l)], {e}));
  }

  lemma {:induction false} LinkWritten(es: seq<Entity>, one: seq<Entity>, s: nat, l: Link)
    requires s < |es| && Opened(es, one, s, {})
    ensures var mid := one[s := FillLast(one[s], l)];
            Wired(Hide(mid, {s})) && View(Hide(mid, {s})) == View(Hide(es, {}))
  {
    assert {} + {s} == {s};
    BuildingWritten(one, s, l);
  }

  lemma {:induction false} OpenedKeeps(es: seq<Entity>, es': seq<Entity>, e: nat, building: set<nat>, f: nat)
    requires OpenedFrame(es, es', e, building) && f < |es| && f != e
    ensures es'[f].numLinks == es[f].numLinks && |es'[f].links| == |es[f].links|
    ensures es'[f].numPads == es[f].numPads && es'[f].generation == es[f].generation
  {
  }

  lemma {:induction false} CreatedFilled(es: seq<Entity>, one: seq<Entity>, l: Link, mid: seq<Entity>, two: seq<Entity>,
                                         es': seq<Entity>, s: nat, k: nat)
    requires s < |es| && k < |es| && s != k && Joint(es, s, l) && l.source.entity == s && l.sink.entity == k
    requires OpenedFrame(es, one, s, {}) && mid == one[s := FillLast(one[s], l)] && OpenedFrame(mid, two, k, {s})
    requires 0 < two[s].numLinks <= |two[s].links|
    requires es' == FillBoth(two, s, k, l, Slot(s, one[s].generation, one[s].numLinks - 1),
                             Slot(k, two[k].generation, two[k].numLinks - 1))
    ensures Filled(two, s, k, ToArc(l), es')
  {
    OpenedKeeps(mid, two, k, {s}, s);
    OpenedKeeps(es, one, s, {}, k);
  }

  /** The tables after both slots of a new link were opened and it was filled in at both ends. */
  lemma {:induction false} LinkCreated(es: seq<Entity>, one: seq<Entity>, l: Link, mid: seq<Entity>, two: seq<Entity>,
                                       es': seq<Entity>, s: nat, k: nat)
    requires s < |es| && k < |es| && s != k && Joint(es, s, l) && l.source.entity == s && l.sink.entity == k
    requires Hide(es, {}) == es && Opened(es, one, s, {})
    requires mid == one[s := FillLast(one[s], l)] && Opened(mid, two, k, {s})
    requires 0 < two[s].numLinks <= |two[s].links|
    requires es' == FillBoth(two, s, k, l, Slot(s, one[s].generation, one[s].numLinks - 1),
                             Slot(k, two[k].generation, two[k].numLinks - 1))
    ensures Wired(es') && AddsLink(View(es), View(es'), s, k, ToArc(l))
  {
    LinkWritten(es, one, s, l);
    assert {s} + {k} == {s, k};
    CreatedFilled(es, one, l, mid, two, es', s, k);
    AddedWired(two, s, k, ToArc(l), es');
    AddedView(two, s, k, ToArc(l), es');
  }

  /** The tables after the second slot could not be opened and the first was given up. */
  lemma {:induction false} LinkUndone(es: seq<Entity>, one: seq<Entity>, l: Link, mid: seq<Entity>, es': seq<Entity>,
                                      s: nat)
    requires s < |es| && Hide(es, {}) == es && Opened(es, one, s, {})
    requires mid == one[s := FillLast(one[s], l)] && es' == mid[s := HideLast(mid[s])]
    ensures Wired(es') && View(es') == View(es)
  {
    LinkWritten(es, one, s, l);
    assert forall x :: 0 <= x < |es| ==> es'[x] == Hide(mid, {s})[x];
    assert es' == Hide(mid, {s});
  }

  // --------------------------------------------------- pads and room

  /** Pads are as before, and so is the room for links, but for n more slots of e. */
  ghost predicate Roomier(es: seq<Entity>, es': seq<Entity>, e: nat, n: nat) {
    |es'| == |es| && forall f :: 0 <= f < |es| ==> RoomierAt(es[f], es'[f], if f == e then n else 0)
  }

  ghost predicate RoomierAt(en: Entity, en': Entity, n: nat) {
    en'.numPads == en.numPads && |en'.links| == |en.links| + n
  }

  lemma {:induction false} OpenedRoomier(es: seq<Entity>, es': seq<Entity>, e: nat, building: set<nat>, n: nat)
    requires OpenedFrame(es, es', e, building) && |es'[e].links| == |es[e].links| + n
    ensures Roomier(es, es', e, n)
  {
  }

  lemma {:induction false} FillRoomier(es: seq<Entity>, s: nat, l: Link, es': seq<Entity>, e: nat, n: nat)
    requires s < |es| && 0 < es[s].numLinks <= |es[s].links| && Roomier(es[s := FillLast(es[s], l)], es', e, n)
    ensures Roomier(es, es', e, n)
  {
    forall f | 0 <= f < |es| ensures RoomierAt(es[f], es'[f], if f == e then n else 0) {
      assert RoomierAt(es[s := FillLast(es[s], l)][f], es'[f], if f == e then n else 0);
    }
  }

  lemma {:induction false} BothRoomier(es: seq<Entity>, two: seq<Entity>, s: nat, k: nat, l: Link, link: Slot,
                                       back: Slot, n: nat)
    requires s < |two| && k < |two| && s != k && Roomier(es, two, k, n)
    requires 0 < two[s].numLinks <= |two[s].links| && 0 < two[k].numLinks <= |two[k].links|
    ensures Roomier(es, FillBoth(two, s, k, l, link, back), k, n)
  {
    var es' := FillBoth(two, s, k, l, link, back);
    forall f | 0 <= f < |es| ensures RoomierAt(es[f], es'[f], if f == k then n else 0) {
      assert RoomierAt(es[f], two[f], if f == k then n else 0);
    }
  }

  /** A finished link, with the room it took. */
  lemma {:induction false} LinkFinished(es: seq<Entity>, one: seq<Entity>, l: Link, mid: seq<Entity>, two: seq<Entity>,
                                        es': seq<Entity>, s: nat, k: nat, n: nat)
    requires s < |es| && k < |es| && s != k && Joint(es, s, l) && l.source.entity == s && l.sink.entity == k
    requires Hide(es, {}) == es && Opened(es, one, s, {})
    requires mid == one[s := FillLast(one[s], l)] && Opened(mid, two, k, {s}) && Roomier(mid, two, k, n)
    requires 0 < two[s].numLinks <= |two[s].links|
    requires es' == FillBoth(two, s, k, l, Slot(s, one[s].generation, one[s].numLinks - 1),
                             Slot(k, two[k].generation, two[k].numLinks - 1))
    ensures Wired(es') && AddsLink(View(es), View(es'), s, k, ToArc(l)) && Roomier(one, es', k, n)
  {
    LinkCreated(es, one, l, mid, two, es', s, k);
    FillRoomier(one, s, l, two, k, n);
    BothRoomier(one, two, s, k, l, Slot(s, one[s].generation, one[s].numLinks - 1),
                Slot(k, two[k].generation, two[k].numLinks - 1), n);
  }

  /** An abandoned link, with the room it took. */
  lemma {:induction false} LinkAbandoned(es: seq<Entity>, one: seq<Entity>, l: Link, mid: seq<Entity>, es': seq<Entity>,
                                         s: nat, k: nat)
    requires s < |es| && Hide(es, {}) == es && Opened(es, one, s, {})
    requires mid == one[s := FillLast(one[s], l)] && es' == mid[s := HideLast(mid[s])]
    ensures Wired(es') && View(es') == View(es) && Roomier(one, es', k, 0)
  {
    LinkUndone(es, one, l, mid, es', s);
  }

  // ------------------------------------------------------ changing flags

  function SetFlags(es: seq<Entity>, s: Slot, flags: Flags): seq<Entity>
    requires Points(es, s)
  {
    var en := es[s.entity];
    es[s.entity := en.(links := en.links[s.index := en.links[s.index].(flags := flags)])]
  }

  /** The graph with slot i of e and slot j of f carrying other flags. */
  ghost function WithFlags(g: Graph, e: nat, i: nat, f: nat, j: nat, flags: Flags): Graph
    requires e < |g| && i < |g[e]| && f < |g| && j < |g[f]| && e != f
  {
    g[e := g[e][i := g[e][i].(flags := flags)]][f := g[f][j := g[f][j].(flags := flags)]]
  }

  /** Flags of slot i of e and of its reverse replaced, as setup_link_notify does. */
  ghost function SetBothFlags(es: seq<Entity>, e: nat, i: nat, flags: Flags): seq<Entity>
    requires Live(es, e, i) && Paired(es, e, i)
  {
    SetFlags(SetFlags(es, Slot(e, es[e].generation, i), flags), es[e].links[i].reverse, flags)
  }

  /** Setting the flags of a link and of its reverse keeps the tables consistent ... */
  lemma {:induction false} FlagsWired(es: seq<Entity>, e: nat, i: nat, flags: Flags)
    requires Wired(es) && Live(es, e, i) && Paired(es, e, i)
    ensures Wired(SetBothFlags(es, e, i, flags))
  {
    var es' := SetBothFlags(es, e, i, flags);
    forall f | 0 <= f < |es|
      ensures Counted(es'[f], f) && es'[f].numLinks == es[f].numLinks && |es'[f].links| == |es[f].links|
    {
      EntityCounted(es, f);
      SameIncoming(es[f].links[..es[f].numLinks], es'[f].links[..es'[f].numLinks], f);
    }
    assert SameFrame(es, es');
    forall f, j | Live(es', f, j) ensures Paired(es', f, j) {
      LivePaired(es, f, j);
      FlagsPaired(es, e, i, flags, f, j);
    }
  }

  /** ... and changes these two slots of the graph and nothing else. */
  lemma {:induction false} FlagsView(es: seq<Entity>, e: nat, i: nat, flags: Flags)
    requires Live(es, e, i) && Paired(es, e, i)
    ensures var r := es[e].links[i].reverse;
            View(SetBothFlags(es, e, i, flags)) == WithFlags(View(es), e, i, r.entity, r.index, flags)
  {
    var r := es[e].links[i].reverse;
    var es' := SetBothFlags(es, e, i, flags);
    var g: Graph, g': Graph := View(es), View(es');
    assert g'[e] == g[e][i := g[e][i].(flags := flags)];
    assert g'[r.entity] == g[r.entity][r.index := g[r.entity][r.index].(flags := flags)];
    assert g' == WithFlags(g, e, i, r.entity, r.index, flags);
  }

  lemma {:induction false} FlagsPaired(es: seq<Entity>, e: nat, i: nat, flags: Flags, f: nat, j: nat)
    requires Live(es, e, i) && Paired(es, e, i) && SameFrame(es, SetBothFlags(es, e, i, flags))
    requires Live(es, f, j) && Paired(es, f, j)
    ensures Live(SetBothFlags(es, e, i, flags), f, j) && Paired(SetBothFlags(es, e, i, flags), f, j)
  {
    var r, q := es[e].links[i].reverse, es[f].links[j].reverse;
    var touched := (f == e && j == i) || (f == r.entity && j == r.index);
    var l := es[f].links[j];
    var x := if touched then flags else l.flags;
    FlagsAt(es, e, i, flags, f, j);
    FlagsAt(es, e, i, flags, q.entity, q.index);
    assert touched <==> (q.entity == e && q.index == i) || (q.entity == r.entity && q.index == r.index);
    PairKept(es, SetBothFlags(es, e, i, flags), f, j, x);
  }

  lemma {:induction false} FlagsAt(es: seq<Entity>, e: nat, i: nat, flags: Flags, f: nat, j: nat)
    requires Live(es, e, i) && Paired(es, e, i) && Live(es, f, j)
    ensures var r := es[e].links[i].reverse; var en := SetBothFlags(es, e, i, flags)[f];
            j < |en.links| && en.links[j] ==
              if (f == e && j == i) || (f == r.entity && j == r.index)
              then es[f].links[j].(flags := flags) else es[f].links[j]
  {
  }

  // ---------------------------------------------------- enumerating links

  /** The slots before k whose links start at e; the others are backlinks. */
  ghost function Starting(ls: seq<Link>, e: nat, k: nat): set<nat>
    requires k <= |ls|
  {
    set i: nat | i < k && ls[i].source.entity == e
  }

  lemma {:induction false} StartingCount(es: seq<Entity>, e: nat, k: nat)
    requires Wired(es) && e < |es| && k <= es[e].numLinks <= |es[e].links|
    ensures |Starting(es[e].links, e, k)| == k - Incoming(es[e].links[..k], e)
  {
    var ls := es[e].links;
    if k > 0 {
      StartingCount(es, e, k - 1);
      LivePaired(es, e, k - 1);
      assert ls[..k][..k - 1] == ls[..k - 1];
      if ls[k - 1].source.entity == e {
        assert Starting(ls, e, k) == Starting(ls, e, k - 1) + {k - 1};
      } else {
        assert Starting(ls, e, k) == Starting(ls, e, k - 1);
      }
    } else {
      assert Starting(ls, e, k) == {};
    }
  }

  /** num_links - num_backlinks is the number of links that start at an entity. */
  lemma {:induction false} LinksReported(es: seq<Entity>, e: nat)
    requires Wired(es) && e < |es|
    ensures es[e].numLinks <= |es[e].links|
    ensures |Starting(es[e].links, e, es[e].numLinks)| == es[e].numLinks - es[e].numBacklinks
  {
    EntityCounted(es, e);
    StartingCount(es, e, es[e].numLinks);
  }

  /** r are the links among the first k of en that start at entity e, in slot order; they
      lie in the slots idx. */
  ghost predicate Reports(en: Entity, e: nat, k: nat, r: seq<Arc>, idx: seq<nat>) {
    && k <= |en.links| && Ascending(idx) && |idx| == |r|
    && (forall i: nat :: i in idx <==> i < k && en.links[i].source.entity == e)
    && (forall j :: 0 <= j < |r| ==>
          && idx[j] < k && r[j].source == en.links[idx[j]].source && r[j].sink == en.links[idx[j]].sink
          && r[j].flags == en.links[idx[j]].flags)
  }

  lemma {:induction false} ReportsStep(en: Entity, e: nat, k: nat, r: seq<Arc>, idx: seq<nat>)
    requires Reports(en, e, k, r, idx) && k < |en.links|
    ensures if en.links[k].source.entity == e then Reports(en, e, k + 1, r + [ToArc(en.links[k])], idx + [k])
            else Reports(en, e, k + 1, r, idx)
  {
    forall j | 0 <= j < |idx| ensures idx[j] in idx && idx[j] < k {
    }
  }

  lemma {:induction false} ReportsCount(en: Entity, e: nat, k: nat, r: seq<Arc>, idx: seq<nat>)
    requires Reports(en, e, k, r, idx)
    ensures |r| == |Starting(en.links, e, k)|
  {
    var s := Starting(en.links, e, k);
    AscendingCount(idx, s);
  }

  lemma {:induction false} AscendingCount(idx: seq<nat>, s: set<nat>)
    requires Ascending(idx) && forall i: nat :: i in idx <==> i in s
    ensures |idx| == |s|
    decreases |idx|
  {
    if |idx| == 0 {
      assert forall i: nat :: i !in s;
      assert s == {};
    } else {
      var n := |idx| - 1;
      var rest := idx[..n];
      forall i: nat ensures i in rest <==> i in s - {idx[n]} {
        if i in rest {
          var j :| 0 <= j < n && rest[j] == i;
          assert idx[j] < idx[n];
        }
        if i in s - {idx[n]} {
          var j :| 0 <= j < |idx| && idx[j] == i;
          assert rest[j] == i;
        }
      }
      AscendingCount(rest, s - {idx[n]});
    }
  }

  /** Of the two slots of a link exactly one starts at its entity, so that all entities
      together report every link once. */
  lemma {:induction false} OneEndReported(es: seq<Entity>, e: nat, i: nat)
    requires Wired(es) && Live(es, e, i)
    ensures var r := es[e].links[i].reverse;
            && Live(es, r.entity, r.index)
            && (es[e].links[i].source.entity == e <==> es[r.entity].links[r.index].source.entity != r.entity)
  {
    LivePaired(es, e, i);
  }
}
