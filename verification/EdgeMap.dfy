/** The edge map of susan/susan.c: which pixels the two edge finders may mark,
    and how edge_draw paints the marked ones into the image. */
module EdgeMap {
  import opened Grid
  import opened Thinning
  import opened ThinningSafety

  /** What the floating-point part of an edge finder says of a pixel: the label
      it would mark it with, and the direction (a, b) of the maximum test. */
  datatype Verdict = Verdict(mark: Pixel, a: int, b: int)

  predicate VerdictOk(v: Verdict) {
    (v.mark == 1 || v.mark == 2) && -1 <= v.a <= 1 && -1 <= v.b <= 1
  }

  /** Rows and columns the marking loops skip at each border. */
  function Margin(small: bool): int {
    if small then 2 else 4
  }

  /** The response is a local maximum across the edge. */
  predicate IsMaximum(r: seq<int>, w: int, h: int, small: bool, p: Point, v: Verdict)
    requires |r| == w * h && Inset(p, w, h, Margin(small)) && VerdictOk(v)
  {
    var m := At(r, w, h, p);
    && m > At(r, w, h, P(p.y + v.a, p.x + v.b))
    && m >= At(r, w, h, P(p.y - v.a, p.x - v.b))
    && (small || (m > At(r, w, h, P(p.y + 2*v.a, p.x + 2*v.b))
                  && m >= At(r, w, h, P(p.y - 2*v.a, p.x - 2*v.b))))
  }

  /** How far the maximum test looks in either direction. */
  function Reach(small: bool): int {
    if small then 1 else 2
  }

  function Ahead(p: Point, v: Verdict, s: int): Point {
    P(p.y + s * v.a, p.x + s * v.b)
  }

  /** The response at p beats the one s steps ahead, and is not beaten by the one s steps
      behind. */
  predicate Beats(r: seq<int>, w: int, h: int, p: Point, v: Verdict, s: int)
    requires |r| == w * h && Inset(p, w, h, 2) && VerdictOk(v) && 1 <= s <= 2
  {
    At(r, w, h, Ahead(p, v, s)) < At(r, w, h, p) && At(r, w, h, Ahead(p, v, -s)) <= At(r, w, h, p)
  }

  /** A maximum beats everything within reach ahead, and nothing within reach behind
      beats it. */
  lemma MaximumMeans(r: seq<int>, w: int, h: int, small: bool, p: Point, v: Verdict)
    requires |r| == w * h && Inset(p, w, h, Margin(small)) && VerdictOk(v)
    ensures IsMaximum(r, w, h, small, p, v) <==> forall s :: 1 <= s <= Reach(small) ==> Beats(r, w, h, p, v, s)
  {
    assert Beats(r, w, h, p, v, 1) <==> At(r, w, h, p) > At(r, w, h, P(p.y + v.a, p.x + v.b))
                                        && At(r, w, h, p) >= At(r, w, h, P(p.y - v.a, p.x - v.b));
    assert Beats(r, w, h, p, v, 2) <==> At(r, w, h, p) > At(r, w, h, P(p.y + 2*v.a, p.x + 2*v.b))
                                        && At(r, w, h, p) >= At(r, w, h, P(p.y - 2*v.a, p.x - 2*v.b));
  }

  /** Of two pixels within reach of each other across the same edge, at most one is
      marked. */
  lemma OneMaximumAcross(r: seq<int>, w: int, h: int, small: bool, p: Point, v: Verdict, s: int)
    requires |r| == w * h && VerdictOk(v) && 1 <= s <= Reach(small)
    requires Inset(p, w, h, Margin(small)) && Inset(Ahead(p, v, s), w, h, Margin(small))
    ensures !(IsMaximum(r, w, h, small, p, v) && IsMaximum(r, w, h, small, Ahead(p, v, s), v))
  {
    var q := Ahead(p, v, s);
    assert s == 1 || s == 2;
    assert Ahead(q, v, -s) == p;
    MaximumMeans(r, w, h, small, p, v);
    MaximumMeans(r, w, h, small, q, v);
    assert !(Beats(r, w, h, p, v, s) && Beats(r, w, h, q, v, s));
  }

  /** What marking leaves at p. */
  function Marked(r: seq<int>, w: int, h: int, small: bool, verdicts: seq<Verdict>, old_: Pixel, p: Point): Pixel
    requires |r| == |verdicts| == w * h && Inside(p, w, h)
    requires forall k :: 0 <= k < |verdicts| ==> VerdictOk(verdicts[k])
  {
    if Selected(r, w, h, small, verdicts, p) then At(verdicts, w, h, p).mark else old_
  }

  predicate Selected(r: seq<int>, w: int, h: int, small: bool, verdicts: seq<Verdict>, p: Point)
    requires |r| == |verdicts| == w * h && Inside(p, w, h)
    requires forall k :: 0 <= k < |verdicts| ==> VerdictOk(verdicts[k])
  {
    && Inset(p, w, h, Margin(small)) && At(r, w, h, p) > 0
    && IsMaximum(r, w, h, small, p, At(verdicts, w, h, p))
  }

  method MarkAt(r: array<int>, mid: array<Pixel>, w: int, h: int, small: bool, verdicts: seq<Verdict>, i: int, j: int)
    requires r.Length == mid.Length == |verdicts| == w * h && r as object != mid
    requires forall k :: 0 <= k < |verdicts| ==> VerdictOk(verdicts[k])
    requires Inset(P(i, j), w, h, Margin(small))
    modifies mid
    ensures forall q :: Inside(q, w, h) ==> (At(mid[..], w, h, q) ==
      if q == P(i, j) then Marked(r[..], w, h, small, verdicts, At(old(mid[..]), w, h, q), q)
      else At(old(mid[..]), w, h, q))
  {
    ghost var p := P(i, j);
    IdxInRange(w, h, p);
    var k := i * w + j;
    ghost var before := mid[..];
    if r[k] > 0 {
      var maximum := TestMaximum(r, w, h, small, i, j, verdicts[k]);
      if maximum {
        mid[k] := verdicts[k].mark;
        WriteAt(before, w, h, p, verdicts[k].mark);
      }
    }
  }

  method TestMaximum(r: array<int>, w: int, h: int, small: bool, i: int, j: int, v: Verdict) returns (maximum: bool)
    requires r.Length == w * h && Inset(P(i, j), w, h, Margin(small)) && VerdictOk(v)
    ensures maximum == IsMaximum(r[..], w, h, small, P(i, j), v)
  {
    var a, b := v.a, v.b;
    var m := ReadAt(r, w, h, i, j, i * w + j);
    var ahead := ReadAt(r, w, h, i + a, j + b, (i + a) * w + j + b);
    var behind := ReadAt(r, w, h, i - a, j - b, (i - a) * w + j - b);
    maximum := m > ahead && m >= behind;
    if maximum && !small {
      var ahead2 := ReadAt(r, w, h, i + 2*a, j + 2*b, (i + 2*a) * w + j + 2*b);
      var behind2 := ReadAt(r, w, h, i - 2*a, j - 2*b, (i - 2*a) * w + j - 2*b);
      maximum := m > ahead2 && m >= behind2;
    }
  }

  method ReadAt(r: array<int>, ghost w: int, ghost h: int, ghost y: int, ghost x: int, k: int) returns (v: int)
    requires r.Length == w * h && Inside(P(y, x), w, h) && k == y * w + x
    ensures v == At(r[..], w, h, P(y, x))
  {
    IdxInRange(w, h, P(y, x));
    v := r[k];
  }

  lemma RowOffset(w: int, i: int, a: int)
    ensures (i + a) * w == i * w + a * w && (i - a) * w == i * w - a * w
  {
  }

  /** The marking loops of susan_edges and, when `small`, susan_edges_small. */
  method MarkEdges(r: array<int>, mid: array<Pixel>, w: int, h: int, small: bool, verdicts: seq<Verdict>)
    requires r.Length == mid.Length == |verdicts| == w * h && r as object != mid
    requires forall k :: 0 <= k < |verdicts| ==> VerdictOk(verdicts[k])
    modifies mid
    ensures forall p :: Inside(p, w, h) ==>
      At(mid[..], w, h, p) == Marked(r[..], w, h, small, verdicts, At(old(mid[..]), w, h, p), p)
  {
    var n := Margin(small);
    for i := n to Max(n, h - n)
      invariant forall p :: Inside(p, w, h) ==> (At(mid[..], w, h, p) ==
        if p.y < i then Marked(r[..], w, h, small, verdicts, At(old(mid[..]), w, h, p), p)
        else At(old(mid[..]), w, h, p))
    {
      for j := n to Max(n, w - n)
        invariant forall p :: Inside(p, w, h) ==> (At(mid[..], w, h, p) ==
          if Before(p, i, j) then Marked(r[..], w, h, small, verdicts, At(old(mid[..]), w, h, p), p)
          else At(old(mid[..]), w, h, p))
      {
        MarkAt(r, mid, w, h, small, verdicts, i, j);
      }
    }
  }

  // ---- Drawing -------------------------------------------------------------

  const WHITE: Pixel := 255
  const BLACK: Pixel := 0

  /** The eight buffer distances of the 3x3 block around a pixel. */
  predicate BlockOffset(w: int, d: int) {
    d == -w - 1 || d == -w || d == -w + 1 || d == -1 || d == 1 || d == w - 1 || d == w || d == w + 1
  }

  /** All edge points have a full 3x3 block in the image. */
  ghost predicate DrawableEdges(mid: seq<Pixel>, w: int, h: int) {
    |mid| == w * h && forall p :: p in Edges(mid, w, h) ==> Inset(p, w, h, 1)
  }

  /** Some edge point among the first n entries has k in its block. */
  ghost predicate Ringed(mid: seq<Pixel>, w: int, n: int, k: int)
    requires n <= |mid|
  {
    exists e :: 0 <= e < n && mid[e] < 8 && BlockOffset(w, k - e)
  }

  lemma BlockFits(mid: seq<Pixel>, w: int, h: int, k: int)
    requires DrawableEdges(mid, w, h) && 0 <= k < |mid| && mid[k] < 8 && 0 < w && 0 < h
    ensures 0 <= k - w - 1 && k + w + 1 < |mid| && 3 <= w
  {
    var p := PixelOf(w, h, k);
    assert p in Edges(mid, w, h);
    RoomAround(w, h, p, 1);
  }

  /** The nine stores around one edge point: inp walks the block row by row. */
  method PaintBlock(img: array<Pixel>, w: int, k: int)
    requires 3 <= w && 0 <= k - w - 1 && k + w + 1 < img.Length
    modifies img
    ensures forall m :: 0 <= m < img.Length ==>
      img[m] == if BlockOffset(w, m - k) then WHITE else old(img[m])
  {
    var inp := k - w - 1;
    img[inp] := WHITE; inp := inp + 1; img[inp] := WHITE; inp := inp + 1; img[inp] := WHITE; inp := inp + w - 2;
    img[inp] := WHITE; inp := inp + 1;                    inp := inp + 1; img[inp] := WHITE; inp := inp + w - 2;
    img[inp] := WHITE; inp := inp + 1; img[inp] := WHITE; inp := inp + 1; img[inp] := WHITE;
  }

  method PaintBlocks(img: array<Pixel>, mid: array<Pixel>, w: int, h: int)
    requires 0 < w && 0 < h && img.Length == mid.Length == w * h && img != mid
    requires DrawableEdges(mid[..], w, h)
    modifies img
    ensures forall k :: 0 <= k < w * h ==>
      img[k] == if Ringed(mid[..], w, w * h, k) then WHITE else old(img[k])
  {
    for i := 0 to w * h
      invariant forall k :: 0 <= k < w * h ==>
        img[k] == if Ringed(mid[..], w, i, k) then WHITE else old(img[k])
    {
      if mid[i] < 8 {
        BlockFits(mid[..], w, h, i);
        PaintBlock(img, w, i);
      }
      forall k | 0 <= k < w * h
        ensures Ringed(mid[..], w, i + 1, k) <==> Ringed(mid[..], w, i, k) || (mid[i] < 8 && BlockOffset(w, k - i))
      {
      }
    }
  }

  method PaintPoints(img: array<Pixel>, mid: array<Pixel>)
    requires img.Length == mid.Length && img != mid
    modifies img
    ensures forall k :: 0 <= k < img.Length ==> img[k] == if mid[k] < 8 then BLACK else old(img[k])
  {
    for i := 0 to img.Length
      invariant forall k :: 0 <= k < img.Length ==> img[k] == if k < i && mid[k] < 8 then BLACK else old(img[k])
    {
      if mid[i] < 8 { img[i] := BLACK; }
    }
  }

  ghost predicate EdgeBeside(mid: seq<Pixel>, w: int, h: int, p: Point)
    requires |mid| == w * h
  {
    exists e :: e in Edges(mid, w, h) && Adjacent(e, p)
  }

  /** In the buffer an edge point's block is its 8-neighbourhood, because edge
      points keep off the border and no row wraps into the next. */
  lemma RingedMeansBeside(mid: seq<Pixel>, w: int, h: int, p: Point)
    requires DrawableEdges(mid, w, h) && Inside(p, w, h)
    ensures Ringed(mid, w, |mid|, Idx(w, p)) <==> EdgeBeside(mid, w, h, p)
  {
    IdxInRange(w, h, p);
    if Ringed(mid, w, |mid|, Idx(w, p)) {
      var k :| 0 <= k < |mid| && mid[k] < 8 && BlockOffset(w, Idx(w, p) - k);
      var e := PixelOf(w, h, k);
      assert e in Edges(mid, w, h);
      var q := BlockPixel(w, h, e, Idx(w, p) - k);
      IdxInjective(w, h, p, q);
    }
    if EdgeBeside(mid, w, h, p) {
      var e :| e in Edges(mid, w, h) && Adjacent(e, p);
      IdxInRange(w, h, e);
      AdjacentOffset(w, e, p);
    }
  }

  lemma BlockPixel(w: int, h: int, e: Point, d: int) returns (q: Point)
    requires Inset(e, w, h, 1) && BlockOffset(w, d)
    ensures Inside(q, w, h) && Adjacent(e, q) && Idx(w, q) == Idx(w, e) + d
  {
    RowOffset(w, e.y, 1);
    var dy := if d < -1 then -1 else if d > 1 then 1 else 0;
    q := P(e.y + dy, e.x + d - dy * w);
  }

  lemma AdjacentOffset(w: int, e: Point, p: Point)
    requires Adjacent(e, p)
    ensures BlockOffset(w, Idx(w, p) - Idx(w, e))
  {
    RowOffset(w, e.y, 1);
  }

  /** edge_draw: white blocks around the edge points in mode 0, then the points
      themselves in black. Every store stays in the image. */
  method EdgeDraw(img: array<Pixel>, mid: array<Pixel>, w: int, h: int, mode: int)
    requires 0 < w && 0 < h && img.Length == mid.Length == w * h && img != mid
    requires DrawableEdges(mid[..], w, h)
    modifies img
    ensures forall p :: Inside(p, w, h) ==> (At(img[..], w, h, p) ==
      if p in Edges(mid[..], w, h) then BLACK
      else if mode == 0 && EdgeBeside(mid[..], w, h, p) then WHITE
      else At(old(img[..]), w, h, p))
  {
    if mode == 0 {
      PaintBlocks(img, mid, w, h);
    }
    PaintPoints(img, mid);
    forall p | Inside(p, w, h)
      ensures At(img[..], w, h, p) ==
        if p in Edges(mid[..], w, h) then BLACK
        else if mode == 0 && EdgeBeside(mid[..], w, h, p) then WHITE
        else At(old(img[..]), w, h, p)
    {
      IdxInRange(w, h, p);
      RingedMeansBeside(mid[..], w, h, p);
    }
  }

  /** A fresh mid buffer after marking. */
  ghost predicate MarkedFrom(r: seq<int>, w: int, h: int, small: bool, verdicts: seq<Verdict>, mid: seq<Pixel>)
    requires |r| == |verdicts| == w * h
    requires forall k :: 0 <= k < |verdicts| ==> VerdictOk(verdicts[k])
  {
    |mid| == w * h && forall p :: Inside(p, w, h) ==> At(mid, w, h, p) == Marked(r, w, h, small, verdicts, NO_EDGE, p)
  }

  /** The marked points are the selected ones. */
  lemma MarkedEdgesMean(r: seq<int>, w: int, h: int, small: bool, verdicts: seq<Verdict>, mid: seq<Pixel>, p: Point)
    requires |r| == |verdicts| == w * h && Inside(p, w, h)
    requires forall k :: 0 <= k < |verdicts| ==> VerdictOk(verdicts[k])
    requires MarkedFrom(r, w, h, small, verdicts, mid)
    ensures p in Edges(mid, w, h) <==> Selected(r, w, h, small, verdicts, p)
  {
    IdxInRange(w, h, p);
    assert VerdictOk(verdicts[Idx(w, p)]);
    assert At(mid, w, h, p) == Marked(r, w, h, small, verdicts, NO_EDGE, p);
  }

  /** Selected are the positive maxima four pixels inside, or two for the small mask. */
  lemma SelectedMeans(r: seq<int>, w: int, h: int, small: bool, verdicts: seq<Verdict>, p: Point)
    requires |r| == |verdicts| == w * h && Inside(p, w, h)
    requires forall k :: 0 <= k < |verdicts| ==> VerdictOk(verdicts[k])
    ensures VerdictOk(At(verdicts, w, h, p))
    ensures Selected(r, w, h, small, verdicts, p) <==>
      && Inset(p, w, h, if small then 2 else 4) && At(r, w, h, p) > 0
      && forall s :: 1 <= s <= Reach(small) ==> Beats(r, w, h, p, At(verdicts, w, h, p), s)
  {
    IdxInRange(w, h, p);
    var v := verdicts[Idx(w, p)];
    assert VerdictOk(v);
    if Inset(p, w, h, Margin(small)) {
      MaximumMeans(r, w, h, small, p, v);
    }
  }

  lemma MarkedEdgesInset(r: seq<int>, w: int, h: int, small: bool, verdicts: seq<Verdict>, mid: seq<Pixel>)
    requires |r| == |verdicts| == w * h
    requires forall k :: 0 <= k < |verdicts| ==> VerdictOk(verdicts[k])
    requires MarkedFrom(r, w, h, small, verdicts, mid)
    ensures forall p :: p in Edges(mid, w, h) ==> Inset(p, w, h, 2)
  {
  }

  /** Nothing marked comes to lie on the border, however long thinning runs. */
  lemma ThinnedEdgesDrawable(r: seq<int>, w: int, h: int, mid: seq<Pixel>, ratios: seq<bool>)
    requires |r| == |mid| == w * h
    requires forall p :: p in Edges(mid, w, h) ==> Inset(p, w, h, 2)
    ensures DrawableEdges(Scanned(r, w, h, Scan(mid, 4, 4), ratios).mid, w, h)
  {
    ScanKeepsInset(r, w, h, mid, ratios, 2);
    var mid' := Scanned(r, w, h, Scan(mid, 4, 4), ratios).mid;
    forall p | p in Edges(mid', w, h) ensures Inset(p, w, h, 1) {
      assert p in EdgesAfter(r, w, h, mid, ratios);
    }
  }

  method MarkFresh(r: array<int>, w: int, h: int, small: bool, verdicts: seq<Verdict>) returns (mid: array<Pixel>)
    requires 0 < w && 0 < h && r.Length == |verdicts| == w * h
    requires forall k :: 0 <= k < |verdicts| ==> VerdictOk(verdicts[k])
    ensures fresh(mid) && mid.Length == w * h
    ensures MarkedFrom(r[..], w, h, small, verdicts, mid[..])
  {
    mid := new Pixel[r.Length](_ => NO_EDGE);
    ghost var cleared := mid[..];
    assert forall k :: 0 <= k < |cleared| ==> cleared[k] == NO_EDGE;
    MarkEdges(r, mid, w, h, small, verdicts);
    ghost var marked := mid[..];
    FreshMarks(r[..], w, h, small, verdicts, cleared, marked);
  }

  lemma FreshMarks(r: seq<int>, w: int, h: int, small: bool, verdicts: seq<Verdict>,
                   cleared: seq<Pixel>, mid: seq<Pixel>)
    requires |r| == |verdicts| == |cleared| == |mid| == w * h
    requires forall k :: 0 <= k < |verdicts| ==> VerdictOk(verdicts[k])
    requires forall k :: 0 <= k < |cleared| ==> cleared[k] == NO_EDGE
    requires forall p :: Inside(p, w, h) ==>
      At(mid, w, h, p) == Marked(r, w, h, small, verdicts, At(cleared, w, h, p), p)
    ensures MarkedFrom(r, w, h, small, verdicts, mid)
  {
    forall p | Inside(p, w, h) ensures At(cleared, w, h, p) == NO_EDGE {
      IdxInRange(w, h, p);
    }
  }

  /** The edge map of the program: a cleared buffer, marked and maybe thinned. */
  method FindEdges(r: array<int>, w: int, h: int, small: bool, thin: bool, verdicts: seq<Verdict>, ratios: seq<bool>)
    returns (mid: array<Pixel>, ghost marked: seq<Pixel>)
    requires 0 < w && 0 < h && r.Length == |verdicts| == w * h
    requires forall k :: 0 <= k < |verdicts| ==> VerdictOk(verdicts[k])
    ensures fresh(mid) && MarkedFrom(r[..], w, h, small, verdicts, marked)
    ensures mid[..] == if thin then Scanned(r[..], w, h, Scan(marked, 4, 4), ratios).mid else marked
    ensures DrawableEdges(mid[..], w, h)
  {
    mid := MarkFresh(r, w, h, small, verdicts);
    marked := mid[..];
    MarkedEdgesInset(r[..], w, h, small, verdicts, marked);
    if thin {
      ThinnedEdgesDrawable(r[..], w, h, marked, ratios);
      var _, _ := ThinFor(r, mid, w, h, ratios);
    }
  }

  /** Edge mode of the program: find the edges, then draw them. */
  method DrawEdges(img: array<Pixel>, r: array<int>, w: int, h: int, small: bool, thin: bool, mode: int,
                   verdicts: seq<Verdict>, ratios: seq<bool>)
    returns (mid: array<Pixel>, ghost marked: seq<Pixel>)
    requires 0 < w && 0 < h && img.Length == r.Length == |verdicts| == w * h && r as object != img
    requires forall k :: 0 <= k < |verdicts| ==> VerdictOk(verdicts[k])
    modifies img
    ensures fresh(mid) && MarkedFrom(r[..], w, h, small, verdicts, marked) && mid.Length == w * h
    ensures mid[..] == if thin then Scanned(r[..], w, h, Scan(marked, 4, 4), ratios).mid else marked
    ensures forall p :: Inside(p, w, h) ==> (At(img[..], w, h, p) ==
      if p in Edges(mid[..], w, h) then BLACK
      else if mode == 0 && EdgeBeside(mid[..], w, h, p) then WHITE
      else At(old(img[..]), w, h, p))
  {
    mid, marked := FindEdges(r, w, h, small, thin, verdicts, ratios);
    EdgeDraw(img, mid, w, h, mode);
  }
}
