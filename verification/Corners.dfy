/** Corner selection in susan/susan.c: a pixel is reported when its response is
    the maximum of its 7x7 window, ties going to the earlier pixel. */
module Corners {
  import opened Arithmetic
  import opened Grid
  import Usan
  import CornerTest

  const MAX_CORNERS := 15000

  /** A slot of the corner list; info 7 ends the list. */
  datatype Corner = Corner(info: int, x: int, y: int, dx: int, dy: int, bright: Pixel)

  predicate InWindow(p: Point, q: Point) {
    -3 <= q.y - p.y <= 3 && -3 <= q.x - p.x <= 3
  }

  predicate Earlier(p: Point, q: Point) {
    Before(p, q.y, q.x)
  }

  /** The response at p beats the window before p and equals or beats it after. */
  ghost predicate LocalMax(r: seq<int>, w: int, h: int, p: Point)
    requires |r| == w * h && Inside(p, w, h)
  {
    && At(r, w, h, p) > 0
    && forall q :: Inside(q, w, h) && InWindow(p, q) && q != p ==>
      (if Earlier(q, p) then At(r, w, h, p) > At(r, w, h, q) else At(r, w, h, p) >= At(r, w, h, q))
  }

  /** Responses are zero within b pixels of the border, as the response loops leave them. */
  ghost predicate ZeroBorder(r: seq<int>, w: int, h: int, b: int) {
    |r| == w * h && forall p :: Inside(p, w, h) && !Inset(p, w, h, b) ==> At(r, w, h, p) == 0
  }

  // ---- The window test -----------------------------------------------------

  /** x beats (or, when not strict, equals) the seven entries around m. */
  predicate Beats7(r: seq<int>, m: int, x: int, strict: bool)
    requires 3 <= m < |r| - 3
  {
    var t := if strict then x - 1 else x;
    t >= r[m - 3] && t >= r[m - 2] && t >= r[m - 1] && t >= r[m] && t >= r[m + 1] && t >= r[m + 2] && t >= r[m + 3]
  }

  ghost predicate RowBeaten(r: seq<int>, w: int, h: int, p: Point, dy: int, x: int, strict: bool)
    requires |r| == w * h
  {
    forall q :: Inside(q, w, h) && InWindow(p, q) && q.y == p.y + dy ==>
      (if strict then x > At(r, w, h, q) else x >= At(r, w, h, q))
  }

  lemma RowEntry(r: seq<int>, w: int, h: int, p: Point, q: Point)
    requires |r| == w * h && Inset(p, w, h, 3) && InWindow(p, q)
    ensures Inside(q, w, h)
    ensures var m := Idx(w, p) + (q.y - p.y) * w + q.x - p.x; 0 <= m < |r| && At(r, w, h, q) == r[m]
  {
    IdxInRange(w, h, q);
    assert q.y * w == p.y * w + (q.y - p.y) * w;
  }

  /** The entry dx columns from m, the middle of row dy of the window. */
  lemma RowCell(r: seq<int>, w: int, h: int, p: Point, dy: int, m: int, dx: int)
    requires |r| == w * h && Inset(p, w, h, 3) && -3 <= dy <= 3 && -3 <= dx <= 3 && m == Idx(w, p) + dy * w
    ensures Inside(P(p.y + dy, p.x + dx), w, h) && 0 <= m + dx < |r| && At(r, w, h, P(p.y + dy, p.x + dx)) == r[m + dx]
  {
    RowEntry(r, w, h, p, P(p.y + dy, p.x + dx));
  }

  lemma RowTestAt(r: seq<int>, w: int, h: int, p: Point, dy: int, m: int, x: int, strict: bool)
    requires |r| == w * h && Inset(p, w, h, 3) && -3 <= dy <= 3 && m == Idx(w, p) + dy * w
    ensures 3 <= m < |r| - 3
    ensures Beats7(r, m, x, strict) <==> RowBeaten(r, w, h, p, dy, x, strict)
  {
    RowCell(r, w, h, p, dy, m, -3); RowCell(r, w, h, p, dy, m, -2); RowCell(r, w, h, p, dy, m, -1);
    RowCell(r, w, h, p, dy, m, 0);
    RowCell(r, w, h, p, dy, m, 1); RowCell(r, w, h, p, dy, m, 2); RowCell(r, w, h, p, dy, m, 3);
    forall q | Inside(q, w, h) && InWindow(p, q) && q.y == p.y + dy
      ensures Beats7(r, m, x, strict) ==> (if strict then x > At(r, w, h, q) else x >= At(r, w, h, q))
    {
      RowCell(r, w, h, p, dy, m, q.x - p.x);
      assert q == P(p.y + dy, p.x + (q.x - p.x));
    }
  }

  lemma RowTest(r: seq<int>, w: int, h: int, p: Point, dy: int, x: int, strict: bool)
    requires |r| == w * h && Inset(p, w, h, 3) && -3 <= dy <= 3
    ensures 3 <= Idx(w, p) + dy * w < |r| - 3
    ensures Beats7(r, Idx(w, p) + dy * w, x, strict) <==> RowBeaten(r, w, h, p, dy, x, strict)
  {
    RowTestAt(r, w, h, p, dy, Idx(w, p) + dy * w, x, strict);
  }

  /** The centre row: strict to the left, not to the right. */
  predicate BeatsCentreRow(r: seq<int>, k: int, x: int)
    requires 3 <= k < |r| - 3
  {
    x > r[k - 3] && x > r[k - 2] && x > r[k - 1] && x >= r[k + 1] && x >= r[k + 2] && x >= r[k + 3]
  }

  ghost predicate CentreRowBeaten(r: seq<int>, w: int, h: int, p: Point, x: int)
    requires |r| == w * h
  {
    forall q :: Inside(q, w, h) && InWindow(p, q) && q.y == p.y && q != p ==>
      (if q.x < p.x then x > At(r, w, h, q) else x >= At(r, w, h, q))
  }

  lemma CentreRowTest(r: seq<int>, w: int, h: int, p: Point, x: int)
    requires |r| == w * h && Inset(p, w, h, 3)
    ensures 3 <= Idx(w, p) < |r| - 3
    ensures BeatsCentreRow(r, Idx(w, p), x) <==> CentreRowBeaten(r, w, h, p, x)
  {
    RowEntry(r, w, h, p, P(p.y, p.x - 3)); RowEntry(r, w, h, p, P(p.y, p.x - 2)); RowEntry(r, w, h, p, P(p.y, p.x - 1));
    RowEntry(r, w, h, p, P(p.y, p.x + 1)); RowEntry(r, w, h, p, P(p.y, p.x + 2)); RowEntry(r, w, h, p, P(p.y, p.x + 3));
    forall q | Inside(q, w, h) && InWindow(p, q) && q.y == p.y && q != p
      ensures BeatsCentreRow(r, Idx(w, p), x) ==>
        (if q.x < p.x then x > At(r, w, h, q) else x >= At(r, w, h, q))
    {
      RowEntry(r, w, h, p, q);
    }
  }

  lemma WindowRows(r: seq<int>, w: int, h: int, p: Point)
    requires |r| == w * h && Inset(p, w, h, 3)
    ensures var x := At(r, w, h, p);
      LocalMax(r, w, h, p) <==> (x > 0
        && RowBeaten(r, w, h, p, -3, x, true) && RowBeaten(r, w, h, p, -2, x, true)
        && RowBeaten(r, w, h, p, -1, x, true) && CentreRowBeaten(r, w, h, p, x)
        && RowBeaten(r, w, h, p, 1, x, false) && RowBeaten(r, w, h, p, 2, x, false)
        && RowBeaten(r, w, h, p, 3, x, false))
  {
    var x := At(r, w, h, p);
    if x > 0
      && RowBeaten(r, w, h, p, -3, x, true) && RowBeaten(r, w, h, p, -2, x, true)
      && RowBeaten(r, w, h, p, -1, x, true) && CentreRowBeaten(r, w, h, p, x)
      && RowBeaten(r, w, h, p, 1, x, false) && RowBeaten(r, w, h, p, 2, x, false)
      && RowBeaten(r, w, h, p, 3, x, false)
    {
      forall q | Inside(q, w, h) && InWindow(p, q) && q != p
        ensures if Earlier(q, p) then x > At(r, w, h, q) else x >= At(r, w, h, q)
      {
        assert q.y == p.y + -3 || q.y == p.y + -2 || q.y == p.y + -1 || q.y == p.y
          || q.y == p.y + 1 || q.y == p.y + 2 || q.y == p.y + 3;
      }
    }
  }

  /** The window test on buffer entries. */
  lemma WindowTest(r: seq<int>, w: int, h: int, p: Point)
    requires |r| == w * h && Inset(p, w, h, 3)
    ensures var k := Idx(w, p);
      && 0 <= k - 3*w - 3 && k + 3*w + 3 < |r| && w >= 7
      && (LocalMax(r, w, h, p) <==> (r[k] > 0
        && Beats7(r, k - 3*w, r[k], true) && Beats7(r, k - 2*w, r[k], true) && Beats7(r, k - w, r[k], true)
        && BeatsCentreRow(r, k, r[k])
        && Beats7(r, k + w, r[k], false) && Beats7(r, k + 2*w, r[k], false) && Beats7(r, k + 3*w, r[k], false)))
  {
    RoomAround(w, h, p, 3);
    IdxInRange(w, h, p);
    var x := At(r, w, h, p);
    WindowRows(r, w, h, p);
    RowTest(r, w, h, p, -3, x, true); RowTest(r, w, h, p, -2, x, true); RowTest(r, w, h, p, -1, x, true);
    CentreRowTest(r, w, h, p, x);
    RowTest(r, w, h, p, 1, x, false); RowTest(r, w, h, p, 2, x, false); RowTest(r, w, h, p, 3, x, false);
  }

  /** The 48 comparisons of the source. */
  method TestWindow(r: array<int>, w: int, h: int, i: int, j: int) returns (maximum: bool)
    requires r.Length == w * h && Inset(P(i, j), w, h, 3)
    ensures maximum == LocalMax(r[..], w, h, P(i, j))
  {
    WindowTest(r[..], w, h, P(i, j));
    var k := i * w + j;
    var x := r[k];
    maximum := x > 0
      && x > r[k - 3*w - 3] && x > r[k - 3*w - 2] && x > r[k - 3*w - 1] && x > r[k - 3*w]
      && x > r[k - 3*w + 1] && x > r[k - 3*w + 2] && x > r[k - 3*w + 3]
      && x > r[k - 2*w - 3] && x > r[k - 2*w - 2] && x > r[k - 2*w - 1] && x > r[k - 2*w]
      && x > r[k - 2*w + 1] && x > r[k - 2*w + 2] && x > r[k - 2*w + 3]
      && x > r[k - w - 3] && x > r[k - w - 2] && x > r[k - w - 1] && x > r[k - w]
      && x > r[k - w + 1] && x > r[k - w + 2] && x > r[k - w + 3]
      && x > r[k - 3] && x > r[k - 2] && x > r[k - 1] && x >= r[k + 1] && x >= r[k + 2] && x >= r[k + 3]
      && x >= r[k + w - 3] && x >= r[k + w - 2] && x >= r[k + w - 1] && x >= r[k + w]
      && x >= r[k + w + 1] && x >= r[k + w + 2] && x >= r[k + w + 3]
      && x >= r[k + 2*w - 3] && x >= r[k + 2*w - 2] && x >= r[k + 2*w - 1] && x >= r[k + 2*w]
      && x >= r[k + 2*w + 1] && x >= r[k + 2*w + 2] && x >= r[k + 2*w + 3]
      && x >= r[k + 3*w - 3] && x >= r[k + 3*w - 2] && x >= r[k + 3*w - 1] && x >= r[k + 3*w]
      && x >= r[k + 3*w + 1] && x >= r[k + 3*w + 2] && x >= r[k + 3*w + 3];
  }

  // ---- The list ------------------------------------------------------------

  function Spot(c: Corner): Point {
    P(c.y, c.x)
  }

  /** What the selection reads: responses, gradients and the image. */
  datatype Buffers = Buffers(r: seq<int>, cgx: seq<int>, cgy: seq<int>, img: seq<Pixel>) {
    predicate Sized(n: int) {
      |r| == |cgx| == |cgy| == |img| == n
    }
  }

  /** The slots written so far: local maxima b pixels inside, in raster order,
      none left out before (i, j), each with the values of its pixel. */
  ghost predicate Listed(list: seq<Corner>, src: Buffers, w: int, h: int, b: int, i: int, j: int)
    requires src.Sized(w * h) && 0 <= b
  {
    && (forall k :: 0 <= k < |list| ==>
          var p := Spot(list[k]);
          && Inset(p, w, h, b) && Before(p, i, j) && LocalMax(src.r, w, h, p)
          && list[k] == Corner(0, p.x, p.y, At(src.cgx, w, h, p), At(src.cgy, w, h, p), At(src.img, w, h, p)))
    && (forall k, m :: 0 <= k < m < |list| ==> Earlier(Spot(list[k]), Spot(list[m])))
    && (forall p :: Inset(p, w, h, b) && Before(p, i, j) && LocalMax(src.r, w, h, p) ==>
          exists k :: 0 <= k < |list| && Spot(list[k]) == p)
  }

  lemma ListedSkip(list: seq<Corner>, src: Buffers, w: int, h: int, b: int, i: int, j: int)
    requires src.Sized(w * h) && 0 <= b && Inset(P(i, j), w, h, b)
    requires Listed(list, src, w, h, b, i, j) && !LocalMax(src.r, w, h, P(i, j))
    ensures Listed(list, src, w, h, b, i, j + 1)
  {
    forall p | Before(p, i, j + 1) ensures Before(p, i, j) || p == P(i, j) {
    }
  }

  lemma ListedAdd(list: seq<Corner>, src: Buffers, w: int, h: int, b: int, i: int, j: int)
    requires src.Sized(w * h) && 0 <= b && Inset(P(i, j), w, h, b)
    requires Listed(list, src, w, h, b, i, j) && LocalMax(src.r, w, h, P(i, j))
    ensures var p := P(i, j);
      Listed(list + [Corner(0, j, i, At(src.cgx, w, h, p), At(src.cgy, w, h, p), At(src.img, w, h, p))],
             src, w, h, b, i, j + 1)
  {
    var p := P(i, j);
    var list' := list + [Corner(0, j, i, At(src.cgx, w, h, p), At(src.cgy, w, h, p), At(src.img, w, h, p))];
    forall q | Inset(q, w, h, b) && Before(q, i, j + 1) && LocalMax(src.r, w, h, q)
      ensures exists k :: 0 <= k < |list'| && Spot(list'[k]) == q
    {
      if q == p {
        assert Spot(list'[|list|]) == p;
      } else {
        var k :| 0 <= k < |list| && Spot(list[k]) == q;
        assert list'[k] == list[k];
      }
    }
  }

  lemma ListedNextRow(list: seq<Corner>, src: Buffers, w: int, h: int, b: int, i: int)
    requires src.Sized(w * h) && 0 <= b
    requires Listed(list, src, w, h, b, i, Max(b, w - b))
    ensures Listed(list, src, w, h, b, i + 1, b)
  {
    assert forall p :: Inset(p, w, h, b) ==> (Before(p, i + 1, b) <==> Before(p, i, Max(b, w - b)));
  }

  /** The selection loops. The program gives up when the list is full; otherwise
      slot n holds the end mark. */
  method SelectCorners(r: array<int>, cgx: array<int>, cgy: array<int>, img: array<Pixel>,
                       list: array<Corner>, w: int, h: int, b: int)
    returns (ok: bool, n: nat)
    requires r.Length == cgx.Length == cgy.Length == img.Length == w * h && 3 <= b
    requires list.Length == MAX_CORNERS
    modifies list
    requires r as object != list && cgx as object != list && cgy as object != list && img as object != list
    ensures n <= MAX_CORNERS && ok == (n < MAX_CORNERS)
    ensures ok ==> list[n].info == 7
    ensures ok ==> Listed(list[..n], Buffers(r[..], cgx[..], cgy[..], img[..]), w, h, b, h, w)
    ensures !ok ==> exists i, j ::
      Listed(list[..n], Buffers(r[..], cgx[..], cgy[..], img[..]), w, h, b, i, j)
  {
    ghost var src := Buffers(r[..], cgx[..], cgy[..], img[..]);
    n := 0;
    for i := b to Max(b, h - b)
      invariant n < MAX_CORNERS
      invariant Listed(list[..n], src, w, h, b, i, b)
    {
      for j := b to Max(b, w - b)
        invariant n < MAX_CORNERS
        invariant Listed(list[..n], src, w, h, b, i, j)
      {
        n := SelectAt(r, cgx, cgy, img, list, w, h, b, i, j, n);
        if n == MAX_CORNERS {
          return false, n;
        }
      }
      ListedNextRow(list[..n], src, w, h, b, i);
    }
    ghost var found := list[..n];
    list[n] := list[n].(info := 7);
    assert list[..n] == found;
    ok := true;
    ListedAll(found, src, w, h, b);
  }

  method SelectAt(r: array<int>, cgx: array<int>, cgy: array<int>, img: array<Pixel>,
                  list: array<Corner>, w: int, h: int, b: int, i: int, j: int, n0: nat)
    returns (n: nat)
    requires r.Length == cgx.Length == cgy.Length == img.Length == w * h && 3 <= b
    requires list.Length == MAX_CORNERS && n0 < MAX_CORNERS
    requires r as object != list && cgx as object != list && cgy as object != list && img as object != list
    requires Inset(P(i, j), w, h, b)
    requires Listed(list[..n0], Buffers(r[..], cgx[..], cgy[..], img[..]), w, h, b, i, j)
    modifies list
    ensures n <= MAX_CORNERS
    ensures Listed(list[..n], Buffers(r[..], cgx[..], cgy[..], img[..]), w, h, b, i, j + 1)
  {
    n := n0;
    ghost var src := Buffers(r[..], cgx[..], cgy[..], img[..]);
    ghost var before := list[..n];
    var maximum := TestWindow(r, w, h, i, j);
    if maximum {
      IdxInRange(w, h, P(i, j));
      var k := i * w + j;
      list[n] := Corner(0, j, i, cgx[k], cgy[k], img[k]);
      n := n + 1;
      ghost var p := P(i, j);
      assert list[..n] == before + [Corner(0, j, i, At(src.cgx, w, h, p), At(src.cgy, w, h, p), At(src.img, w, h, p))];
      ListedAdd(before, src, w, h, b, i, j);
    } else {
      ListedSkip(before, src, w, h, b, i, j);
    }
  }

  lemma ListedAll(list: seq<Corner>, src: Buffers, w: int, h: int, b: int)
    requires src.Sized(w * h) && 0 <= b
    requires Listed(list, src, w, h, b, Max(b, h - b), b)
    ensures Listed(list, src, w, h, b, h, w)
  {
    assert forall p :: Inset(p, w, h, b) ==> Before(p, h, w) && Before(p, Max(b, h - b), b);
  }

  // ---- What the list says --------------------------------------------------

  /** No two reported corners lie within three rows and columns of each other. */
  lemma CornersApart(r: seq<int>, w: int, h: int, p: Point, q: Point)
    requires |r| == w * h && Inside(p, w, h) && Inside(q, w, h)
    requires LocalMax(r, w, h, p) && LocalMax(r, w, h, q) && p != q
    ensures !InWindow(p, q)
  {
    assert InWindow(p, q) <==> InWindow(q, p);
  }

  /** p has the greatest response, and nothing before it has that response. */
  ghost predicate FirstGreatest(r: seq<int>, w: int, h: int, p: Point)
    requires |r| == w * h && Inside(p, w, h)
  {
    forall q :: Inside(q, w, h) ==>
      At(r, w, h, q) <= At(r, w, h, p) && (Earlier(q, p) ==> At(r, w, h, q) < At(r, w, h, p))
  }

  lemma FirstGreatestReported(r: seq<int>, w: int, h: int, b: int, p: Point)
    requires ZeroBorder(r, w, h, b) && Inside(p, w, h)
    requires FirstGreatest(r, w, h, p) && At(r, w, h, p) > 0
    ensures Inset(p, w, h, b) && LocalMax(r, w, h, p)
  {
  }

  lemma RasterIsIndex(w: int, h: int, p: Point, q: Point)
    requires Inside(p, w, h) && Inside(q, w, h)
    ensures Earlier(p, q) <==> Idx(w, p) < Idx(w, q)
  {
    if p.y < q.y { MulLe(p.y + 1, q.y, w); }
    if q.y < p.y { MulLe(q.y + 1, p.y, w); }
  }

  lemma FirstGreatestEntry(r: seq<int>) returns (best: nat)
    requires |r| > 0
    ensures best < |r|
    ensures forall m :: 0 <= m < |r| ==> r[m] <= r[best] && (m < best ==> r[m] < r[best])
  {
    best := 0;
    for k := 1 to |r|
      invariant best < k
      invariant forall m :: 0 <= m < k ==> r[m] <= r[best] && (m < best ==> r[m] < r[best])
    {
      if r[k] > r[best] { best := k; }
    }
  }

  lemma FindFirstGreatest(r: seq<int>, w: int, h: int) returns (p: Point)
    requires |r| == w * h && 0 < w && 0 < h
    ensures Inside(p, w, h) && FirstGreatest(r, w, h, p)
  {
    IdxInRange(w, h, P(0, 0));
    var best := FirstGreatestEntry(r);
    p := PixelOf(w, h, best);
    forall q | Inside(q, w, h)
      ensures At(r, w, h, q) <= At(r, w, h, p) && (Earlier(q, p) ==> At(r, w, h, q) < At(r, w, h, p))
    {
      IdxInRange(w, h, q);
      RasterIsIndex(w, h, q, p);
    }
  }

  /** The list is nonempty exactly when some response is positive, and then it
      holds the first of the greatest responses. */
  lemma ListNonemptyIffPositive(list: seq<Corner>, src: Buffers, w: int, h: int, b: int)
    requires 0 < w && 0 < h && 3 <= b && src.Sized(w * h)
    requires ZeroBorder(src.r, w, h, b) && Listed(list, src, w, h, b, h, w)
    ensures list != [] <==> exists q :: Inside(q, w, h) && At(src.r, w, h, q) > 0
    ensures list != [] ==> exists k :: 0 <= k < |list| && FirstGreatest(src.r, w, h, Spot(list[k]))
  {
    var p := FindFirstGreatest(src.r, w, h);
    if At(src.r, w, h, p) > 0 {
      FirstGreatestReported(src.r, w, h, b, p);
      var k :| 0 <= k < |list| && Spot(list[k]) == p;
      assert FirstGreatest(src.r, w, h, Spot(list[k]));
    }
    if list != [] {
      assert LocalMax(src.r, w, h, Spot(list[0]));
      assert At(src.r, w, h, Spot(list[0])) > 0;
    }
  }

  /** Taken together, susan_corners reports something exactly when some pixel five pixels
      inside passes its corner test. */
  lemma ListNonemptyIffCorner(list: seq<Corner>, src: Buffers, bp: Usan.Table, w: int, h: int, maxNo: int)
    requires 0 < w && 0 < h && src.Sized(w * h)
    requires var s, a := CornerTest.View(src.img, bp, w, h, maxNo), CornerTest.Answers(src.r, src.cgx, src.cgy);
      forall p :: Inside(p, w, h) ==> CornerTest.Answered(s, a, p)
    requires Listed(list, src, w, h, 5, h, w)
    ensures list != [] <==> exists p :: Inset(p, w, h, 5) && CornerTest.IsCorner(src.img, bp, w, h, maxNo, p)
  {
    var s, a := CornerTest.View(src.img, bp, w, h, maxNo), CornerTest.Answers(src.r, src.cgx, src.cgy);
    forall p | Inside(p, w, h)
      ensures At(src.r, w, h, p) == CornerTest.CornerResponseAt(src.img, bp, w, h, maxNo, p)
      ensures At(src.r, w, h, p) > 0 <==> Inset(p, w, h, 5) && CornerTest.IsCorner(src.img, bp, w, h, maxNo, p)
    {
      assert CornerTest.Answered(s, a, p);
      CornerTest.CornersFilterPrinciple(src.img, bp, w, h, maxNo, p);
    }
    assert ZeroBorder(src.r, w, h, 5);
    ListNonemptyIffPositive(list, src, w, h, 5);
    if p :| Inset(p, w, h, 5) && CornerTest.IsCorner(src.img, bp, w, h, maxNo, p) {
      assert Inside(p, w, h) && At(src.r, w, h, p) > 0;
    }
  }
}
