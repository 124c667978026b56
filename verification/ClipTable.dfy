/** The clip table of the SAA7146: what its entries mean, and why it clips exactly the
    pixels that the rectangles contain. */
module ClipTable {
  import opened Basics
  import opened Bits

  const MAX_CLIPS := 16

  /** A 32-bit signed value, read as unsigned. */
  function U32(n: int): nat {
    n % 0x1_0000_0000
  }

  /** A clip rectangle as the application gives it; extents may be negative. */
  datatype Clip = Clip(left: int, top: int, width: int, height: int)

  /** One side of a rectangle: len pixels (or lines) from lo on. */
  datatype Span = Span(lo: int, len: int)

  function Min(a: int, b: int): int {
    if a < b then a else b
  }

  function Max(a: int, b: int): int {
    if a < b then b else a
  }

  // ------------------------------------------------------ normalisation

  /** Turns a negative extent around, then cuts off what lies before 0. */
  function Normal(lo: int, len: int): Span {
    var lo1 := if len < 0 then lo + len else lo;
    var len1 := if len < 0 then -len else len;
    if lo1 < 0 then Span(0, len1 + lo1) else Span(lo1, len1)
  }

  function Flipped(s: Span, height: int): Span {
    Span(height - s.lo - s.len, s.len)
  }

  function Columns(c: Clip): Span {
    Normal(c.left, c.width)
  }

  function Rows(c: Clip, height: int, vflip: bool): Span {
    var s := Normal(c.top, c.height);
    if vflip then Flipped(s, height) else s
  }

  /** The pixels of one side as the application means it. */
  predicate Meant(lo: int, len: int, p: int) {
    if len < 0 then lo + len <= p < lo else lo <= p < lo + len
  }

  predicate Inside(s: Span, p: int) {
    s.lo <= p < s.lo + s.len
  }

  lemma {:induction false} NormalMeans(lo: int, len: int, p: nat)
    ensures Inside(Normal(lo, len), p) <==> Meant(lo, len, p)
  {
  }

  /** Flipping a window of height lines turns line p into line height - 1 - p. */
  lemma {:induction false} FlippedMeans(s: Span, height: int, p: int)
    ensures Inside(Flipped(s, height), p) <==> Inside(s, height - 1 - p)
  {
  }

  // --------------------------------------------------- the edge lists

  /** The two edges of each span, cut off at limit, as 32-bit words. */
  function Edges(spans: seq<Span>, limit: int): seq<nat> {
    seq(2 * |spans|, i requires 0 <= i < 2 * |spans| => Edge(spans[i / 2], i % 2 == 1, limit))
  }

  function Edge(s: Span, end: bool, limit: int): nat {
    U32(Min(if end then s.lo + s.len else s.lo, limit))
  }

  ghost predicate SameValues(a: seq<nat>, b: seq<nat>) {
    forall v :: v in a <==> v in b
  }

  /** The comparison that decides whether the mask at coordinate v gets the bit of s. */
  predicate Covers(s: Span, v: nat) {
    var lo := Max(s.lo, 0);
    v < U32(lo + s.len) && v >= U32(lo)
  }

  /** The mask at coordinate v for the first k spans. */
  function Marks(spans: seq<Span>, k: nat, v: nat): Word {
    set j: nat | j < k && j < |spans| && Covers(spans[j], v)
  }

  /** A table entry: coordinate above, mask below. */
  function Entry(spans: seq<Span>, v: nat): Word {
    Put(v, 16, 16) + Marks(spans, |spans|, v)
  }

  // --------------------------------------------------- reading the table

  function Coordinate(w: Word): nat {
    Field(w, 16, 16)
  }

  function Mask(w: Word): Word {
    set j: nat | j < 16 && j in w
  }

  /** The mask of the last of the first k entries whose coordinate is at most p. */
  function Lookup(words: seq<Word>, k: nat, p: nat): Word
    requires k <= |words|
  {
    if k == 0 then {}
    else if Coordinate(words[k - 1]) <= p then Mask(words[k - 1])
    else Lookup(words, k - 1, p)
  }

  /** The spans that p lies in. */
  function Within(spans: seq<Span>, p: nat): Word {
    set j: nat | j < |spans| && Inside(spans[j], p)
  }

  /** A span with both edges at or after the origin. */
  predicate Reaches(s: Span) {
    0 <= s.lo < 0x8000_0000 && 0 <= s.lo + s.len < 0x8000_0000
  }

  /** The unsigned comparisons are right at every coordinate exactly if the span is empty
      or has both edges at or after the origin. */
  lemma {:induction false} CoversExact(s: Span)
    requires -0x4000_0000 < s.lo < 65536 && -0x4000_0000 < s.len < 65536 && s.lo + s.len < 65536
    ensures (forall v: nat :: v < 65536 ==> (Covers(s, v) <==> Inside(s, v))) <==> s.len == 0 || Reaches(s)
  {
    if s.len != 0 && !Reaches(s) {
      var v := if s.len < 0 then Max(s.lo, 0) else Max(s.lo + s.len, 0);
      assert Covers(s, v) && !Inside(s, v);
    }
  }

  // ------------------------------------------------ what the table can tell

  /** A coordinate that stays apart from those of the window in 16 bits. */
  predicate Telling(edge: int, limit: int) {
    limit - 65536 <= edge < 0x8000_0000
  }

  /** Spans whose edges a table for limit coordinates can tell from these. */
  ghost predicate Apart(spans: seq<Span>, limit: int) {
    && |spans| <= MAX_CLIPS && 0 <= limit < 65536
    && forall j :: 0 <= j < |spans| ==> Telling(spans[j].lo, limit) && Telling(spans[j].lo + spans[j].len, limit)
  }

  lemma {:induction false} SixteenBits(n: nat)
    requires n < 65536
    ensures n < Pow2(16) == 65536
  {
    assert Pow2(8) == 256;
    assert Pow2(12) == 16 * Pow2(8);
    assert Pow2(16) == 16 * Pow2(12);
  }

  lemma {:induction false} EntryReads(spans: seq<Span>, v: nat)
    requires |spans| <= MAX_CLIPS
    ensures Coordinate(Entry(spans, v)) == v % 65536 && Mask(Entry(spans, v)) == Marks(spans, |spans|, v)
  {
    var q, n := v / 65536, v % 65536;
    SixteenBits(n);
    var w := Entry(spans, v);
    forall j: nat | j < 16 ensures 16 + j in w <==> Bit(n, j) {
      assert 16 + j in Put(v, 16, 16) <==> ShiftedBit(v, 16, 16 + j);
      LowBits(q, n, 16, j);
    }
    FieldHolds(w, 16, 16, n);
  }

  /** The coordinate is the upper half of an entry, and bit j below it is for span j. */
  lemma {:induction false} EntryLayout(spans: seq<Span>, v: nat, j: nat)
    requires |spans| <= MAX_CLIPS && j < 16
    ensures Field(Entry(spans, v), 16, 16) == v % 65536
    ensures j in Entry(spans, v) <==> j < |spans| && Covers(spans[j], v)
  {
    EntryReads(spans, v);
    assert j in Mask(Entry(spans, v)) <==> j in Entry(spans, v);
  }

  /** Edges before the origin come out beyond the window. */
  lemma {:induction false} EdgeCoordinate(spans: seq<Span>, limit: int, v: nat)
    requires Apart(spans, limit) && v in Edges(spans, limit)
    ensures if v <= limit then v % 65536 == v else v % 65536 >= limit
  {
    var i :| 0 <= i < 2 * |spans| && Edges(spans, limit)[i] == v;
    var e := if i % 2 == 1 then spans[i / 2].lo + spans[i / 2].len else spans[i / 2].lo;
    assert Telling(e, limit) && v == U32(Min(e, limit));
    TellingCoordinate(e, limit);
  }

  lemma {:induction false} TellingCoordinate(e: int, limit: int)
    requires 0 <= limit < 65536 && Telling(e, limit)
    ensures var v := U32(Min(e, limit)); if v <= limit then v % 65536 == v else v % 65536 >= limit
  {
    if e < 0 {
      assert U32(e) == 0x1_0000_0000 + e == 65535 * 65536 + (65536 + e);
    }
  }

  /** The last edge at or before p is v. */
  ghost predicate LastEdge(spans: seq<Span>, limit: int, p: nat, v: nat) {
    v in Edges(spans, limit) && v <= p && forall u :: u in Edges(spans, limit) && u <= p ==> u <= v
  }

  /** The table shows p as covered by span j. */
  ghost predicate Shown(spans: seq<Span>, limit: int, j: nat, p: nat) {
    j < |spans| && exists v: nat :: LastEdge(spans, limit, p, v) && Covers(spans[j], v)
  }

  lemma {:induction false} ShownAt(spans: seq<Span>, limit: int, j: nat, p: nat, v: nat)
    requires LastEdge(spans, limit, p, v) && j < |spans|
    ensures Shown(spans, limit, j, p) <==> Covers(spans[j], v)
  {
    if Shown(spans, limit, j, p) {
      var u: nat :| LastEdge(spans, limit, p, u) && Covers(spans[j], u);
      assert u == v;
    }
  }

  /** The mask found for p has the bits of the spans shown there. */
  lemma {:induction false} LookupFinds(spans: seq<Span>, list: seq<nat>, words: seq<Word>, limit: int, p: nat, k: nat)
    requires Apart(spans, limit) && p < limit && k <= |list|
    requires Ascending(list) && SameValues(list, Edges(spans, limit))
    requires |words| >= |list| && forall i :: 0 <= i < |list| ==> words[i] == Entry(spans, list[i])
    requires forall i :: k <= i < |list| ==> list[i] > p
    ensures forall j: nat :: j in Lookup(words, k, p) <==> Shown(spans, limit, j, p)
    decreases k
  {
    if k == 0 {
      NothingShown(spans, list, limit, p);
    } else {
      var v := list[k - 1];
      assert v in Edges(spans, limit);
      EdgeCoordinate(spans, limit, v);
      EntryReads(spans, v);
      if v <= p {
        LastShown(spans, list, limit, p, k);
      } else {
        LookupFinds(spans, list, words, limit, p, k - 1);
      }
    }
  }

  lemma {:induction false} NothingShown(spans: seq<Span>, list: seq<nat>, limit: int, p: nat)
    requires SameValues(list, Edges(spans, limit)) && forall i :: 0 <= i < |list| ==> list[i] > p
    ensures forall j: nat :: !Shown(spans, limit, j, p)
  {
    forall v: nat | v in Edges(spans, limit) ensures v > p {
      assert v in list;
    }
  }

  lemma {:induction false} LastShown(spans: seq<Span>, list: seq<nat>, limit: int, p: nat, k: nat)
    requires 0 < k <= |list| && Ascending(list) && SameValues(list, Edges(spans, limit))
    requires list[k - 1] <= p && forall i :: k <= i < |list| ==> list[i] > p
    ensures forall j: nat :: j in Marks(spans, |spans|, list[k - 1]) <==> Shown(spans, limit, j, p)
  {
    var v := list[k - 1];
    forall u | u in Edges(spans, limit) && u <= p ensures u <= v {
      assert u in list;
    }
    var last := LastEdge(spans, limit, p, v);
    assert last;
    forall j: nat ensures j in Marks(spans, |spans|, v) <==> Shown(spans, limit, j, p) {
      if j < |spans| { ShownAt(spans, limit, j, p, v); }
    }
  }

  // --------------------------------------------- when it tells the truth

  /** Edge e of span j, if it is not before the origin. */
  lemma {:induction false} EdgeListed(spans: seq<Span>, limit: int, j: nat, end: bool)
    requires Apart(spans, limit) && j < |spans|
    ensures var e := if end then spans[j].lo + spans[j].len else spans[j].lo;
            e >= 0 ==> Min(e, limit) in Edges(spans, limit)
  {
    var e := if end then spans[j].lo + spans[j].len else spans[j].lo;
    var v := Edges(spans, limit)[if end then 2 * j + 1 else 2 * j];
    assert v in Edges(spans, limit);
    assert Telling(e, limit);
  }

  lemma {:induction false} LastEdgeExists(spans: seq<Span>, limit: int, u: nat, p: nat) returns (v: nat)
    requires u in Edges(spans, limit) && u <= p
    ensures LastEdge(spans, limit, p, v)
    decreases p
  {
    if p in Edges(spans, limit) {
      v := p;
    } else {
      v := LastEdgeExists(spans, limit, u, p - 1);
    }
  }

  /** The mask bits of s are right on all of the window: s reaches it with both edges or
      is empty; or it starts before the origin and ends beyond the window, and some span
      has an edge at 0; or it lies before the origin, and no edge is where it is marked. */
  ghost predicate Right(spans: seq<Span>, limit: int, s: Span) {
    if s.len == 0 || Reaches(s) then true
    else if s.lo >= 0 then s.lo >= limit
    else if s.lo + s.len >= limit then 0 in Edges(spans, limit)
    else if s.lo + s.len >= 0 then false
    else forall v :: v in Edges(spans, limit) && v < limit ==> v >= U32(s.len)
  }

  /** No edge lies between p and the last edge before it. */
  lemma {:induction false} ReachesRight(spans: seq<Span>, limit: int, j: nat, p: nat)
    requires Apart(spans, limit) && p < limit && j < |spans| && Reaches(spans[j])
    ensures Shown(spans, limit, j, p) <==> Inside(spans[j], p)
  {
    EdgeListed(spans, limit, j, false);
    EdgeListed(spans, limit, j, true);
    var s := spans[j];
    if Shown(spans, limit, j, p) {
      var v: nat :| LastEdge(spans, limit, p, v) && Covers(s, v);
      Decides(s, v, p);
    } else if Inside(s, p) {
      var v := LastEdgeExists(spans, limit, s.lo, p);
      Decides(s, v, p);
    }
  }

  lemma {:induction false} Decides(s: Span, v: nat, p: nat)
    requires Reaches(s) && v <= p && (s.lo <= p ==> s.lo <= v) && (s.lo + s.len <= p ==> s.lo + s.len <= v)
    ensures Covers(s, v) <==> Inside(s, p)
  {
  }

  lemma {:induction false} RightShows(spans: seq<Span>, limit: int, j: nat, p: nat)
    requires Apart(spans, limit) && p < limit && j < |spans| && Right(spans, limit, spans[j])
    ensures Shown(spans, limit, j, p) <==> Inside(spans[j], p)
  {
    var s := spans[j];
    assert Telling(s.lo, limit) && Telling(s.lo + s.len, limit);
    if Reaches(s) {
      ReachesRight(spans, limit, j, p);
    } else if s.len != 0 && s.lo < 0 && s.lo + s.len >= limit {
      var v := LastEdgeExists(spans, limit, 0, p);
      assert Covers(s, v);
    }
  }

  /** Where the mask bits are not right, some coordinate shows it. */
  lemma {:induction false} WrongShows(spans: seq<Span>, limit: int, j: nat) returns (p: nat)
    requires Apart(spans, limit) && 0 < limit && j < |spans| && !Right(spans, limit, spans[j])
    ensures p < limit && (Shown(spans, limit, j, p) <==> !Inside(spans[j], p))
  {
    var s := spans[j];
    assert Telling(s.lo, limit) && Telling(s.lo + s.len, limit);
    if s.lo < 0 && s.lo + s.len >= limit {
      p := 0;
    } else {
      if s.lo >= 0 {
        p := s.lo;
        EdgeListed(spans, limit, j, false);
      } else if s.lo + s.len >= 0 {
        p := s.lo + s.len;
        EdgeListed(spans, limit, j, true);
      } else {
        p :| p in Edges(spans, limit) && p < limit && p < U32(s.len);
      }
      ShownAt(spans, limit, j, p, p);
    }
  }

  lemma {:induction false} AxisRight(spans: seq<Span>, limit: int, j: nat)
    requires Apart(spans, limit) && 0 < limit && j < |spans|
    requires forall p: nat :: p < limit ==> (Shown(spans, limit, j, p) <==> Inside(spans[j], p))
    ensures Right(spans, limit, spans[j])
  {
    if !Right(spans, limit, spans[j]) {
      var p := WrongShows(spans, limit, j);
    }
  }

  /** Some edge in the window carries the bit of s. */
  ghost predicate Marked(spans: seq<Span>, limit: int, s: Span) {
    exists v: nat :: v in Edges(spans, limit) && v < limit && Covers(s, v)
  }

  /** Some coordinate of the window lies in s. */
  predicate Meets(s: Span, limit: int) {
    Max(s.lo, 0) < Min(s.lo + s.len, limit)
  }

  lemma {:induction false} MarkedShows(spans: seq<Span>, limit: int, j: nat) returns (p: nat)
    requires j < |spans|
    ensures Marked(spans, limit, spans[j]) ==> p < limit && Shown(spans, limit, j, p)
    ensures !Marked(spans, limit, spans[j]) ==> forall p: nat :: p < limit ==> !Shown(spans, limit, j, p)
  {
    p := 0;
    if Marked(spans, limit, spans[j]) {
      p :| p in Edges(spans, limit) && p < limit && Covers(spans[j], p);
      ShownAt(spans, limit, j, p, p);
    }
  }

  /** A span before the origin that ends there is shown all over the window. */
  lemma {:induction false} BeforeOriginCovers(spans: seq<Span>, limit: int, j: nat, p: nat)
    requires Apart(spans, limit) && p < limit && j < |spans| && spans[j].lo == 0 && spans[j].len < 0
    ensures Shown(spans, limit, j, p) && !Inside(spans[j], p)
  {
    var s := spans[j];
    assert Telling(s.lo + s.len, limit);
    EdgeListed(spans, limit, j, false);
    var v := LastEdgeExists(spans, limit, 0, p);
    assert Covers(s, v);
  }
}
