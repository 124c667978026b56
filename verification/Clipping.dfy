/** Building the clip table: the edge lists are sorted in place, and the table is filled
    from them. */
module Clipping {
  import opened Basics
  import opened Bits
  import opened ClipTable

  const EINVAL := 22
  const CLIPPING_WORDS := 64

  /** Every item from top on is in place: no earlier item is greater. */
  ghost predicate SettledFrom(s: seq<nat>, top: int) {
    forall a, b :: 0 <= a < b < |s| && top <= b ==> s[a] <= s[b]
  }

  lemma {:induction false} SwapKeeps(s: seq<nat>, i: nat, t: seq<nat>)
    requires i + 1 < |s| && t == s[i := s[i + 1]][i + 1 := s[i]]
    ensures SameValues(s, t)
  {
    assert t[i] == s[i + 1] && t[i + 1] == s[i];
    forall v ensures v in s <==> v in t {
      if v in s {
        var k :| 0 <= k < |s| && s[k] == v;
        assert t[if k == i then i + 1 else if k == i + 1 then i else k] == v;
      }
      if v in t {
        var k :| 0 <= k < |t| && t[k] == v;
        assert s[if k == i then i + 1 else if k == i + 1 then i else k] == v;
      }
    }
  }

  /** Moves the greatest of the first top items to their end. */
  method Bubble(values: array<nat>, n: nat, top: nat)
    requires 0 < top <= n <= values.Length && SettledFrom(values[..n], top)
    modifies values
    ensures SettledFrom(values[..n], top - 1) && SameValues(old(values[..n]), values[..n])
    ensures values[n..] == old(values[n..])
  {
    var low, high := 0, 1;
    while high < top
      invariant low + 1 == high <= top
      invariant SettledFrom(values[..n], top) && SameValues(old(values[..n]), values[..n])
      invariant forall k :: 0 <= k < low ==> values[k] <= values[low]
      invariant values[n..] == old(values[n..])
    {
      if values[low] > values[high] {
        ghost var s := values[..n];
        var temp := values[low];
        values[low] := values[high];
        values[high] := temp;
        assert values[..n] == s[low := s[high]][high := s[low]];
        SwapKeeps(s, low, values[..n]);
      }
      low, high := low + 1, high + 1;
    }
  }

  /** Sorts the first n items. */
  method BubbleSort(values: array<nat>, n: nat)
    requires n <= values.Length
    modifies values
    ensures SettledFrom(values[..n], 0) && SameValues(old(values[..n]), values[..n])
    ensures values[n..] == old(values[n..])
  {
    var top := n;
    while top > 0
      invariant 0 <= top <= n && SettledFrom(values[..n], top) && SameValues(old(values[..n]), values[..n])
      invariant values[n..] == old(values[n..])
    {
      Bubble(values, n, top);
      top := top - 1;
    }
  }

  lemma {:induction false} Append(a: seq<nat>, b: seq<nat>, v: nat)
    requires SameValues(a, b)
    ensures SameValues(a + [v], b + [v]) && (v in b ==> SameValues(a + [v], b))
  {
  }

  lemma {:induction false} AppendGreater(a: seq<nat>, v: nat)
    requires Ascending(a) && 0 < |a| && a[|a| - 1] < v
    ensures Ascending(a + [v])
  {
  }

  /** Keeps one of each of the first n items, which are sorted. */
  method Eliminate(values: array<nat>, n: nat) returns (count: nat)
    requires 0 < n <= values.Length && SettledFrom(values[..n], 0)
    modifies values
    ensures 0 < count <= n && Ascending(values[..count]) && SameValues(old(values[..n]), values[..count])
  {
    ghost var s := values[..n];
    ghost var kept := [s[0]];
    var cur, next := 0, 1;
    assert s[..1] == kept;
    while next < n
      invariant 0 <= cur < next <= n && |kept| == cur + 1 && values[..cur + 1] == kept
      invariant Ascending(kept) && SameValues(s[..next], kept) && kept[cur] == s[next - 1]
      invariant forall k :: next <= k < n ==> values[k] == s[k]
    {
      assert s[..next + 1] == s[..next] + [s[next]];
      Append(s[..next], kept, s[next]);
      assert values[cur] == kept[cur];
      if values[cur] != values[next] {
        AppendGreater(kept, s[next]);
        cur := cur + 1;
        values[cur] := values[next];
        kept := kept + [s[next]];
        assert values[..cur + 1] == kept;
      }
      next := next + 1;
    }
    count := cur + 1;
    assert s[..n] == s;
  }

  /** Sorts the first count items and keeps one of each. A count of 0 becomes 1. */
  method SortAndEliminate(values: array<nat>, count: int) returns (r: int, count': int)
    requires count <= values.Length && values.Length > 0
    modifies values
    ensures r == (if count < 0 then -EINVAL else 0)
    ensures count < 0 ==> count' == count
    ensures count == 0 ==> count' == 1
    ensures count <= 0 ==> values[..] == old(values[..])
    ensures count > 0 ==> 0 < count' <= count && Ascending(values[..count'])
    ensures count > 0 ==> SameValues(old(values[..count]), values[..count'])
  {
    if count < 0 {
      return -EINVAL, count;
    }
    BubbleSort(values, count);
    if count == 0 {
      return 0, 1;
    }
    count' := Eliminate(values, count);
    r := 0;
  }

  // --------------------------------------------------------- the table

  function ColumnSpans(clips: seq<Clip>): seq<Span> {
    seq(|clips|, i requires 0 <= i < |clips| => Columns(clips[i]))
  }

  function RowSpans(clips: seq<Clip>, height: int, vflip: bool): seq<Span> {
    seq(|clips|, i requires 0 <= i < |clips| => Rows(clips[i], height, vflip))
  }

  method Normalise(lo: int, len: int) returns (s: Span)
    ensures s == Normal(lo, len)
  {
    var x, w := lo, len;
    if w < 0 {
      x := x + w;
      w := -w;
    }
    if x < 0 {
      w := w + x;
      x := 0;
    }
    s := Span(x, w);
  }

  /** Puts the two edges of span number i into its list. */
  method PutEdges(list: array<nat>, ghost spans: seq<Span>, i: nat, s: Span, limit: int)
    requires list.Length == 32 && i < |spans| <= MAX_CLIPS && spans[i] == s
    requires forall k :: 0 <= k < 2 * i ==> list[k] == Edges(spans, limit)[k]
    modifies list
    ensures forall k :: 0 <= k < 2 * i + 2 ==> list[k] == Edges(spans, limit)[k]
  {
    list[2 * i] := U32(Min(s.lo, limit));
    list[2 * i + 1] := U32(Min(s.lo + s.len, limit));
  }

  /** Normalises the rectangles and lists their edges. */
  method Collect(clips: seq<Clip>, width: int, height: int, vflip: bool, pixels: array<nat>, lines: array<nat>)
    returns (columns: seq<Span>, rows: seq<Span>)
    requires |clips| <= MAX_CLIPS && pixels != lines && pixels.Length == lines.Length == 32
    modifies pixels, lines
    ensures columns == ColumnSpans(clips) && rows == RowSpans(clips, height, vflip)
    ensures pixels[..2 * |clips|] == Edges(columns, width) && lines[..2 * |clips|] == Edges(rows, height)
  {
    ghost var cs, rs := ColumnSpans(clips), RowSpans(clips, height, vflip);
    columns, rows := [], [];
    for i := 0 to |clips|
      invariant columns == cs[..i] && rows == rs[..i]
      invariant forall k :: 0 <= k < 2 * i ==> pixels[k] == Edges(cs, width)[k]
      invariant forall k :: 0 <= k < 2 * i ==> lines[k] == Edges(rs, height)[k]
    {
      var c := Normalise(clips[i].left, clips[i].width);
      var r := Normalise(clips[i].top, clips[i].height);
      if vflip {
        r := Span(height - r.lo - r.len, r.len);
      }
      PutEdges(pixels, cs, i, c, width);
      PutEdges(lines, rs, i, r, height);
      columns, rows := columns + [c], rows + [r];
    }
    assert pixels[..2 * |clips|] == Edges(cs, width);
    assert lines[..2 * |clips|] == Edges(rs, height);
  }

  /** The words of one of the two interleaved halves of the table. */
  function Half(words: seq<Word>, start: nat): seq<Word>
    requires |words| == CLIPPING_WORDS && start < 2
  {
    seq(32, i requires 0 <= i < 32 => words[2 * i + start])
  }

  /** An entry while only the first k spans are marked. */
  function PartEntry(spans: seq<Span>, k: nat, v: nat): Word {
    Put(v, 16, 16) + Marks(spans, k, v)
  }

  /** The first n entries of the half that starts at start. */
  ghost predicate Filled(words: seq<Word>, start: nat, list: seq<nat>, spans: seq<Span>, k: nat) {
    && |words| == CLIPPING_WORDS && start < 2 && |list| <= 32
    && forall i :: 0 <= i < |list| ==> words[2 * i + start] == PartEntry(spans, k, list[i])
  }

  method PutCoordinates(table: array<Word>, start: nat, list: array<nat>, n: nat, ghost spans: seq<Span>)
    requires table.Length == CLIPPING_WORDS && start < 2 && n <= list.Length == 32
    requires forall i :: 0 <= i < n ==> table[2 * i + start] == {}
    modifies table
    ensures Filled(table[..], start, list[..n], spans, 0)
    ensures forall i :: 0 <= i < CLIPPING_WORDS && i % 2 != start ==> table[i] == old(table[i])
  {
    for i := 0 to n
      invariant forall k :: 0 <= k < i ==> table[2 * k + start] == PartEntry(spans, 0, list[k])
      invariant forall k :: i <= k < n ==> table[2 * k + start] == {}
      invariant forall k :: 0 <= k < CLIPPING_WORDS && k % 2 != start ==> table[k] == old(table[k])
    {
      table[2 * i + start] := table[2 * i + start] + Put(list[i], 16, 16);
    }
  }

  /** Sets the bit of span j in the entries it covers. */
  method MarkSpan(table: array<Word>, start: nat, list: array<nat>, n: nat, ghost spans: seq<Span>, j: nat, s: Span)
    requires table.Length == CLIPPING_WORDS && n <= list.Length == 32 && j < |spans| && spans[j] == s
    requires Filled(table[..], start, list[..n], spans, j)
    modifies table
    ensures Filled(table[..], start, list[..n], spans, j + 1)
    ensures forall i :: 0 <= i < CLIPPING_WORDS && i % 2 != start ==> table[i] == old(table[i])
  {
    var lo := s.lo;
    for i := 0 to n
      invariant Max(lo, 0) == Max(s.lo, 0)
      invariant forall k :: 0 <= k < i ==> table[2 * k + start] == PartEntry(spans, j + 1, list[k])
      invariant forall k :: i <= k < n ==> table[2 * k + start] == PartEntry(spans, j, list[k])
      invariant forall k :: 0 <= k < CLIPPING_WORDS && k % 2 != start ==> table[k] == old(table[k])
    {
      if lo < 0 {
        lo := 0;
      }
      MarksGrow(spans, j, list[i]);
      if list[i] < U32(lo + s.len) {
        if list[i] >= U32(lo) {
          table[2 * i + start] := table[2 * i + start] + {j};
        }
      }
    }
  }

  lemma {:induction false} MarksGrow(spans: seq<Span>, j: nat, v: nat)
    requires j < |spans|
    ensures PartEntry(spans, j + 1, v)
         == if Covers(spans[j], v) then PartEntry(spans, j, v) + {j} else PartEntry(spans, j, v)
  {
    assert Marks(spans, j + 1, v) == if Covers(spans[j], v) then Marks(spans, j, v) + {j} else Marks(spans, j, v);
  }

  /** Writes one half of the table from its edge list. */
  method FillHalf(table: array<Word>, start: nat, list: array<nat>, n: nat, spans: seq<Span>)
    requires table.Length == CLIPPING_WORDS && start < 2 && n <= list.Length == 32
    requires forall i :: 0 <= i < CLIPPING_WORDS && i % 2 == start ==> table[i] == {}
    modifies table
    ensures Filled(table[..], start, list[..n], spans, |spans|)
    ensures forall i :: 0 <= i < CLIPPING_WORDS && i % 2 != start ==> table[i] == old(table[i])
  {
    PutCoordinates(table, start, list, n, spans);
    for j := 0 to |spans|
      invariant Filled(table[..], start, list[..n], spans, j)
      invariant forall i :: 0 <= i < CLIPPING_WORDS && i % 2 != start ==> table[i] == old(table[i])
    {
      MarkSpan(table, start, list, n, spans, j, spans[j]);
    }
  }

  /** The rectangles that contain pixel (px, py) of the window, as the application means them. */
  ghost function Clipped(clips: seq<Clip>, height: int, vflip: bool, px: nat, py: nat): Word {
    set j: nat | j < |clips| && Meant(clips[j].left, clips[j].width, px)
                 && Meant(clips[j].top, clips[j].height, if vflip then height - 1 - py else py)
  }

  /** What the table must do: the two masks found for a pixel have in common the bits of
      the rectangles that contain it. */
  ghost predicate Agrees(table: seq<Word>, pixels: nat, lines: nat, clips: seq<Clip>, width: int, height: int,
                         vflip: bool) {
    && |table| == CLIPPING_WORDS && pixels <= 32 && lines <= 32
    && forall px: nat, py: nat :: px < width && py < height ==>
         Lookup(Half(table, 0), pixels, px) * Lookup(Half(table, 1), lines, py) == Clipped(clips, height, vflip, px, py)
  }

  lemma {:induction false} HalfFinds(table: seq<Word>, start: nat, list: seq<nat>, spans: seq<Span>, limit: int, p: nat)
    requires Filled(table, start, list, spans, |spans|) && Apart(spans, limit) && p < limit
    requires Ascending(list) && SameValues(list, Edges(spans, limit))
    ensures forall j: nat :: j in Lookup(Half(table, start), |list|, p) <==> Shown(spans, limit, j, p)
  {
    LookupFinds(spans, list, Half(table, start), limit, p, |list|);
  }

  lemma {:induction false} SpansMean(clips: seq<Clip>, height: int, vflip: bool, px: nat, py: nat)
    requires py < height
    ensures Within(ColumnSpans(clips), px) * Within(RowSpans(clips, height, vflip), py)
         == Clipped(clips, height, vflip, px, py)
  {
    forall j: nat | j < |clips|
      ensures Inside(Columns(clips[j]), px) <==> Meant(clips[j].left, clips[j].width, px)
      ensures Inside(Rows(clips[j], height, vflip), py)
         <==> Meant(clips[j].top, clips[j].height, if vflip then height - 1 - py else py)
    {
      NormalMeans(clips[j].left, clips[j].width, px);
      FlippedMeans(Normal(clips[j].top, clips[j].height), height, py);
      NormalMeans(clips[j].top, clips[j].height, if vflip then height - 1 - py else py);
    }
  }

  /** Rectangle j is clipped right: its mask bits are right on both axes, or no pixel is
      clipped for it and none should be. */
  ghost predicate Clean(columns: seq<Span>, rows: seq<Span>, width: int, height: int, j: nat)
    requires j < |columns| && j < |rows|
  {
    || (Right(columns, width, columns[j]) && Right(rows, height, rows[j]))
    || ((!Marked(columns, width, columns[j]) || !Marked(rows, height, rows[j]))
        && (!Meets(columns[j], width) || !Meets(rows[j], height)))
  }

  /** The condition on the rectangles of a window under which its table is right. */
  ghost predicate AllClean(clips: seq<Clip>, width: int, height: int, vflip: bool) {
    forall j: nat :: j < |clips| ==> Clean(ColumnSpans(clips), RowSpans(clips, height, vflip), width, height, j)
  }

  /** At pixel (px, py) the table says of rectangle j what it should. */
  ghost predicate RightAt(columns: seq<Span>, rows: seq<Span>, width: int, height: int, j: nat, px: nat, py: nat)
    requires j < |columns| && j < |rows|
  {
    Shown(columns, width, j, px) && Shown(rows, height, j, py) <==> Inside(columns[j], px) && Inside(rows[j], py)
  }

  lemma {:induction false} CleanRight(columns: seq<Span>, rows: seq<Span>, width: int, height: int, j: nat, px: nat,
                                      py: nat)
    requires Apart(columns, width) && Apart(rows, height) && j < |columns| && j < |rows| && px < width && py < height
    requires Clean(columns, rows, width, height, j)
    ensures RightAt(columns, rows, width, height, j, px, py)
  {
    if Right(columns, width, columns[j]) && Right(rows, height, rows[j]) {
      RightShows(columns, width, j, px);
      RightShows(rows, height, j, py);
    } else {
      var p := MarkedShows(columns, width, j);
      var q := MarkedShows(rows, height, j);
    }
  }

  /** If one pixel is clipped for j, and rightly, no mask bit beside it can be wrong. */
  lemma {:induction false} RightBeside(columns: seq<Span>, rows: seq<Span>, width: int, height: int, j: nat, px: nat,
                                       py: nat)
    requires Apart(columns, width) && Apart(rows, height) && j < |columns| && j < |rows| && px < width && py < height
    requires Shown(columns, width, j, px) && Shown(rows, height, j, py) && Inside(columns[j], px) && Inside(rows[j], py)
    requires forall x: nat, y: nat :: x < width && y < height ==> RightAt(columns, rows, width, height, j, x, y)
    ensures Right(columns, width, columns[j]) && Right(rows, height, rows[j])
  {
    forall x: nat | x < width ensures Shown(columns, width, j, x) <==> Inside(columns[j], x) {
      assert RightAt(columns, rows, width, height, j, x, py);
    }
    AxisRight(columns, width, j);
    forall y: nat | y < height ensures Shown(rows, height, j, y) <==> Inside(rows[j], y) {
      assert RightAt(columns, rows, width, height, j, px, y);
    }
    AxisRight(rows, height, j);
  }

  lemma {:induction false} RightClean(columns: seq<Span>, rows: seq<Span>, width: int, height: int, j: nat)
    requires Apart(columns, width) && Apart(rows, height) && j < |columns| && j < |rows|
    requires forall x: nat, y: nat :: x < width && y < height ==> RightAt(columns, rows, width, height, j, x, y)
    ensures Clean(columns, rows, width, height, j)
  {
    if Marked(columns, width, columns[j]) && Marked(rows, height, rows[j]) {
      var px := MarkedShows(columns, width, j);
      var py := MarkedShows(rows, height, j);
      assert RightAt(columns, rows, width, height, j, px, py);
      RightBeside(columns, rows, width, height, j, px, py);
    } else if Meets(columns[j], width) && Meets(rows[j], height) {
      var px, py := Max(columns[j].lo, 0), Max(rows[j].lo, 0);
      assert RightAt(columns, rows, width, height, j, px, py);
      RightBeside(columns, rows, width, height, j, px, py);
    }
  }

  /** The two masks found for a pixel have the bit of rectangle j in common exactly if
      both of its spans are shown there. */
  lemma {:induction false} PixelBits(table: seq<Word>, pixels: seq<nat>, lines: seq<nat>, clips: seq<Clip>,
                                     width: int, height: int, vflip: bool, px: nat, py: nat)
    requires Apart(ColumnSpans(clips), width) && Apart(RowSpans(clips, height, vflip), height)
    requires Ascending(pixels) && SameValues(pixels, Edges(ColumnSpans(clips), width))
    requires Ascending(lines) && SameValues(lines, Edges(RowSpans(clips, height, vflip), height))
    requires Filled(table, 0, pixels, ColumnSpans(clips), |clips|)
    requires Filled(table, 1, lines, RowSpans(clips, height, vflip), |clips|)
    requires px < width && py < height
    ensures Lookup(Half(table, 0), |pixels|, px) * Lookup(Half(table, 1), |lines|, py)
              == Clipped(clips, height, vflip, px, py)
       <==> forall j: nat :: j < |clips| ==>
              RightAt(ColumnSpans(clips), RowSpans(clips, height, vflip), width, height, j, px, py)
  {
    var columns, rows := ColumnSpans(clips), RowSpans(clips, height, vflip);
    var found := Lookup(Half(table, 0), |pixels|, px) * Lookup(Half(table, 1), |lines|, py);
    HalfFinds(table, 0, pixels, columns, width, px);
    HalfFinds(table, 1, lines, rows, height, py);
    SpansMean(clips, height, vflip, px, py);
    var meant := Clipped(clips, height, vflip, px, py);
    assert forall j: nat :: j in found <==> Shown(columns, width, j, px) && Shown(rows, height, j, py);
    assert forall j: nat :: j in meant <==> j < |clips| && Inside(columns[j], px) && Inside(rows[j], py);
    if found == meant {
      forall j: nat | j < |clips| ensures RightAt(columns, rows, width, height, j, px, py) {
        assert j in found <==> j in meant;
      }
    } else {
      var j: nat :| (j in found) != (j in meant);
      assert j < |clips| && !RightAt(columns, rows, width, height, j, px, py);
    }
  }

  /** The table agrees with the rectangles if and only if each of them is clean. */
  lemma {:induction false} TableAgrees(table: seq<Word>, pixels: seq<nat>, lines: seq<nat>, clips: seq<Clip>,
                                       width: int, height: int, vflip: bool)
    requires Apart(ColumnSpans(clips), width) && Apart(RowSpans(clips, height, vflip), height)
    requires Ascending(pixels) && SameValues(pixels, Edges(ColumnSpans(clips), width))
    requires Ascending(lines) && SameValues(lines, Edges(RowSpans(clips, height, vflip), height))
    requires Filled(table, 0, pixels, ColumnSpans(clips), |clips|)
    requires Filled(table, 1, lines, RowSpans(clips, height, vflip), |clips|)
    ensures Agrees(table, |pixels|, |lines|, clips, width, height, vflip) <==> AllClean(clips, width, height, vflip)
  {
    var columns, rows := ColumnSpans(clips), RowSpans(clips, height, vflip);
    if Agrees(table, |pixels|, |lines|, clips, width, height, vflip) {
      forall j: nat | j < |clips| ensures Clean(columns, rows, width, height, j) {
        forall px: nat, py: nat | px < width && py < height ensures RightAt(columns, rows, width, height, j, px, py) {
          PixelBits(table, pixels, lines, clips, width, height, vflip, px, py);
        }
        RightClean(columns, rows, width, height, j);
      }
    }
    if AllClean(clips, width, height, vflip) {
      forall px: nat, py: nat | px < width && py < height
        ensures Lookup(Half(table, 0), |pixels|, px) * Lookup(Half(table, 1), |lines|, py)
             == Clipped(clips, height, vflip, px, py)
      {
        forall j: nat | j < |clips| ensures RightAt(columns, rows, width, height, j, px, py) {
          assert Clean(columns, rows, width, height, j);
          CleanRight(columns, rows, width, height, j, px, py);
        }
        PixelBits(table, pixels, lines, clips, width, height, vflip, px, py);
      }
    }
  }

  /** Rectangles whose edges all lie at or after the origin are clean. */
  lemma {:induction false} ReachingClean(clips: seq<Clip>, width: int, height: int, vflip: bool)
    requires forall j :: 0 <= j < |clips| ==> Reaches(Columns(clips[j])) && Reaches(Rows(clips[j], height, vflip))
    ensures AllClean(clips, width, height, vflip)
  {
  }

  /** With vertical flip, a rectangle over a whole window of 10 lines and beyond is clipped
      if another one has an edge at line 0, and is lost if it is alone. */
  lemma {:induction false} EdgeAtOriginMatters(whole: Clip, last: Clip)
    requires whole == Clip(0, 0, 10, 20) && last == Clip(0, 9, 10, 1)
    ensures !Reaches(Rows(whole, 10, true))
    ensures AllClean([whole, last], 10, 10, true) && !AllClean([whole], 10, 10, true)
  {
    var rows, alone := RowSpans([whole, last], 10, true), RowSpans([whole], 10, true);
    assert Edges(rows, 10)[2] == 0;
    assert Edges(alone, 10)[0] > 10 && Edges(alone, 10)[1] == 10;
    assert !Clean(ColumnSpans([whole]), alone, 10, 10, 0);
  }

  /** A rectangle that ends left of the window is not clean if it has a marked line: its
      lines are clipped all across the window, though none of its pixels is in it. */
  lemma {:induction false} LeftRectangleClips(clips: seq<Clip>, width: int, height: int, vflip: bool, j: nat, px: nat,
                                              py: nat)
    requires Apart(ColumnSpans(clips), width) && Apart(RowSpans(clips, height, vflip), height)
    requires j < |clips| && px < width && py < height && Columns(clips[j]).len < 0
    requires Shown(RowSpans(clips, height, vflip), height, j, py)
    ensures Shown(ColumnSpans(clips), width, j, px) && !Inside(Columns(clips[j]), px)
    ensures !AllClean(clips, width, height, vflip)
  {
    var columns, rows := ColumnSpans(clips), RowSpans(clips, height, vflip);
    BeforeOriginCovers(columns, width, j, px);
    if Clean(columns, rows, width, height, j) {
      CleanRight(columns, rows, width, height, j, px, py);
    }
  }

  method Clear(table: array<Word>)
    modifies table
    ensures forall i :: 0 <= i < table.Length ==> table[i] == {}
  {
    for i := 0 to table.Length
      invariant forall k :: 0 <= k < i ==> table[k] == {}
    {
      table[i] := {};
    }
  }

  /** Writes both halves into a cleared table. */
  method FillTable(table: array<Word>, pixels: array<nat>, cntPixel: nat, lines: array<nat>, cntLine: nat,
                   columns: seq<Span>, rows: seq<Span>)
    requires table.Length == CLIPPING_WORDS && cntPixel <= pixels.Length == 32 && cntLine <= lines.Length == 32
    requires forall i :: 0 <= i < table.Length ==> table[i] == {}
    modifies table
    ensures Filled(table[..], 0, pixels[..cntPixel], columns, |columns|)
    ensures Filled(table[..], 1, lines[..cntLine], rows, |rows|)
  {
    FillHalf(table, 0, pixels, cntPixel, columns);
    FillHalf(table, 1, lines, cntLine, rows);
  }

  /** The edge lists of the rectangles, sorted and without duplicates. */
  method SortedEdges(clips: seq<Clip>, width: int, height: int, vflip: bool, pixels: array<nat>, lines: array<nat>)
    returns (columns: seq<Span>, rows: seq<Span>, cntPixel: nat, cntLine: nat)
    requires 0 < |clips| <= MAX_CLIPS && pixels != lines && pixels.Length == lines.Length == 32
    modifies pixels, lines
    ensures columns == ColumnSpans(clips) && rows == RowSpans(clips, height, vflip)
    ensures 0 < cntPixel <= 2 * |clips| && 0 < cntLine <= 2 * |clips|
    ensures Ascending(pixels[..cntPixel]) && SameValues(pixels[..cntPixel], Edges(columns, width))
    ensures Ascending(lines[..cntLine]) && SameValues(lines[..cntLine], Edges(rows, height))
  {
    columns, rows := Collect(clips, width, height, vflip, pixels, lines);
    var r, n := SortAndEliminate(pixels, 2 * |clips|);
    var r', n' := SortAndEliminate(lines, 2 * |clips|);
    cntPixel, cntLine := n, n';
  }

  /** Builds the table for the rectangles of an overlay window. All entries lie in the
      numdwords words the chip fetches. The table agrees with the rectangles if and only
      if they are clean. */
  method BuildTable(clips: seq<Clip>, width: int, height: int, vflip: bool, table: array<Word>)
    returns (cntPixel: nat, cntLine: nat, numdwords: int)
    requires 0 < |clips| <= 16 && table.Length == 64
    modifies table
    ensures 0 < cntPixel <= 2 * |clips| && 0 < cntLine <= 2 * |clips|
    ensures numdwords == Min(64, Max(4, 2 * Max(cntPixel + 1, cntLine + 1)))
    ensures 2 * cntPixel <= numdwords && 2 * cntLine <= numdwords
    ensures Apart(ColumnSpans(clips), width) && Apart(RowSpans(clips, height, vflip), height) ==>
              (Agrees(table[..], cntPixel, cntLine, clips, width, height, vflip)
               <==> AllClean(clips, width, height, vflip))
  {
    var pixels, lines := new nat[32](_ => 0), new nat[32](_ => 0);
    Clear(table);
    var columns, rows;
    columns, rows, cntPixel, cntLine := SortedEdges(clips, width, height, vflip, pixels, lines);
    numdwords := Max(cntLine + 1, cntPixel + 1) * 2;
    numdwords := Max(4, numdwords);
    numdwords := Min(CLIPPING_WORDS, numdwords);
    FillTable(table, pixels, cntPixel, lines, cntLine, columns, rows);
    if Apart(columns, width) && Apart(rows, height) {
      TableAgrees(table[..], pixels[..cntPixel], lines[..cntLine], clips, width, height, vflip);
    }
  }
}
