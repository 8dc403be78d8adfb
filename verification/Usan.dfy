/** The SUSAN principle of susan/susan.c: how much of a circular mask is as
    bright as its centre, read by a pointer that walks the mask row by row. */
module Usan {
  import opened Arithmetic
  import opened Grid

  /** The brightness table: entry 258 + d is the similarity of two pixels whose
      brightness differs by d. */
  type Table = t: seq<int> | |t| == 516 && (forall i :: 0 <= i < 516 ==> 0 <= t[i] <= 100) && t[258] == 100
    witness seq(516, _ => 100)

  function Alike(bp: Table, centre: Pixel, v: Pixel): (n: int)
    ensures 0 <= n <= 100
  {
    bp[258 + centre - v]
  }

  // ---- What the mask is ----------------------------------------------------

  /** A disc of radius 3.4 around the centre, the centre aside. */
  predicate InMask(dy: int, dx: int) {
    dy * dy + dx * dx <= 11 && !(dy == 0 && dx == 0)
  }

  /** The mask is the disc of rows 3, 5, 7, 7, 7, 5 and 3 pixels wide: 36 around the centre. */
  lemma MaskIsDisc(dy: int, dx: int)
    ensures InMask(dy, dx) <==> (dy, dx) != (0, 0) && -3 <= dy <= 3 && -HalfWidth(dy) <= dx <= HalfWidth(dy)
  {
    if dx < -3 || dx > 3 { SquareAbove(dx, 3); }
    if dy < -3 || dy > 3 { SquareAbove(dy, 3); }
  }

  function HalfWidth(dy: int): int {
    if dy == -3 || dy == 3 then 1 else if dy == -2 || dy == 2 then 2 else 3
  }

  lemma SquareAbove(v: int, b: int)
    requires 0 <= b && (v < -b || v > b)
    ensures v * v >= (b + 1) * (b + 1)
  {
    var m: int := if v < 0 then -v else v;
    assert v * v == m * m;
    MulLe(b + 1, m, m);
    MulLe(b + 1, m, b + 1);
  }

  function Part(img: seq<Pixel>, bp: Table, w: int, h: int, c: Point, dy: int, dx: int): (n: int)
    requires |img| == w * h && Inset(c, w, h, 3) && -3 <= dy <= 3 && -3 <= dx <= 3
    ensures 0 <= n
  {
    if InMask(dy, dx) then Alike(bp, At(img, w, h, c), At(img, w, h, P(c.y + dy, c.x + dx))) else 0
  }

  /** The mask pixels of row dy from column dx on. */
  function RowFrom(img: seq<Pixel>, bp: Table, w: int, h: int, c: Point, dy: int, dx: int): (n: int)
    requires |img| == w * h && Inset(c, w, h, 3) && -3 <= dy <= 3 && -3 <= dx <= 4
    ensures 0 <= n
    decreases 4 - dx
  {
    if dx == 4 then 0 else Part(img, bp, w, h, c, dy, dx) + RowFrom(img, bp, w, h, c, dy, dx + 1)
  }

  function RowsFrom(img: seq<Pixel>, bp: Table, w: int, h: int, c: Point, dy: int): (n: int)
    requires |img| == w * h && Inset(c, w, h, 3) && -3 <= dy <= 4
    ensures 0 <= n
    decreases 4 - dy
  {
    if dy == 4 then 0 else RowFrom(img, bp, w, h, c, dy, -3) + RowsFrom(img, bp, w, h, c, dy + 1)
  }

  /** 100 for the centre and the similarity of every pixel of the mask. */
  function Area(img: seq<Pixel>, bp: Table, w: int, h: int, c: Point): int
    requires |img| == w * h && Inset(c, w, h, 3)
  {
    100 + RowsFrom(img, bp, w, h, c, -3)
  }

  /** The centre counts like any other pixel: it is perfectly alike to itself. */
  lemma CentreCountsItself(img: seq<Pixel>, bp: Table, w: int, h: int, c: Point)
    requires |img| == w * h && Inset(c, w, h, 3)
    ensures Area(img, bp, w, h, c) == Alike(bp, At(img, w, h, c), At(img, w, h, c)) + RowsFrom(img, bp, w, h, c, -3)
  {
  }

  /** The response of the principle: how far the area falls short of maxNo. */
  function Response(img: seq<Pixel>, bp: Table, w: int, h: int, maxNo: int, c: Point): int
    requires |img| == w * h && Inset(c, w, h, 3)
  {
    if Area(img, bp, w, h, c) <= maxNo then maxNo - Area(img, bp, w, h, c) else 0
  }

  // ---- What the walk reads -------------------------------------------------

  /** The entry at distance o from entry k, compared with entry k. */
  function Read(img: seq<Pixel>, bp: Table, k: int, o: int): (n: int)
    requires 0 <= k < |img| && 0 <= k + o < |img|
    ensures 0 <= n <= 100
  {
    Alike(bp, img[k], img[k + o])
  }

  ghost predicate Room3(w: int, k: int, size: int) {
    w >= 7 && 0 <= k - 3*w - 3 && k + 3*w + 3 < size
  }

  lemma EntryAt(img: seq<Pixel>, w: int, h: int, c: Point, dy: int, dx: int)
    requires |img| == w * h && Inset(c, w, h, 3) && -3 <= dy <= 3 && -3 <= dx <= 3
    ensures 0 <= Idx(w, c) < |img| && 0 <= Idx(w, c) + dy * w + dx < |img|
    ensures At(img, w, h, c) == img[Idx(w, c)]
    ensures At(img, w, h, P(c.y + dy, c.x + dx)) == img[Idx(w, c) + dy * w + dx]
  {
    IdxInRange(w, h, c);
    IdxInRange(w, h, P(c.y + dy, c.x + dx));
    assert (c.y + dy) * w == c.y * w + dy * w;
  }

  /** Three, five or seven reads in a row around distance o. */
  function Row3(img: seq<Pixel>, bp: Table, k: int, o: int): (n: int)
    requires 0 <= k < |img| && 1 <= k + o < |img| - 1
    ensures 0 <= n
  {
    Read(img, bp, k, o - 1) + Read(img, bp, k, o) + Read(img, bp, k, o + 1)
  }

  function Row5(img: seq<Pixel>, bp: Table, k: int, o: int): (n: int)
    requires 0 <= k < |img| && 2 <= k + o < |img| - 2
    ensures 0 <= n
  {
    Read(img, bp, k, o - 2) + Row3(img, bp, k, o) + Read(img, bp, k, o + 2)
  }

  function Row7(img: seq<Pixel>, bp: Table, k: int, o: int): (n: int)
    requires 0 <= k < |img| && 3 <= k + o < |img| - 3
    ensures 0 <= n
  {
    Read(img, bp, k, o - 3) + Row5(img, bp, k, o) + Read(img, bp, k, o + 3)
  }

  /** The first 18 reads: three rows and the left half of the centre row. */
  function Upper(img: seq<Pixel>, bp: Table, w: int, k: int): (n: int)
    requires Room3(w, k, |img|)
    ensures 0 <= n
  {
    Row3(img, bp, k, -3*w) + Row5(img, bp, k, -2*w) + Row7(img, bp, k, -w)
    + Read(img, bp, k, -3) + Read(img, bp, k, -2) + Read(img, bp, k, -1)
  }

  /** The next ten: the right half of the centre row and the row below it. */
  function Middle(img: seq<Pixel>, bp: Table, w: int, k: int): (n: int)
    requires Room3(w, k, |img|)
    ensures 0 <= n
  {
    Read(img, bp, k, 1) + Read(img, bp, k, 2) + Read(img, bp, k, 3) + Row7(img, bp, k, w)
  }

  /** The last eight. */
  function Lower(img: seq<Pixel>, bp: Table, w: int, k: int): (n: int)
    requires Room3(w, k, |img|)
    ensures 0 <= n
  {
    Row5(img, bp, k, 2*w) + Row3(img, bp, k, 3*w)
  }

  lemma RowParts(img: seq<Pixel>, bp: Table, w: int, h: int, c: Point, dy: int)
    requires |img| == w * h && Inset(c, w, h, 3) && -3 <= dy <= 3
    ensures RowFrom(img, bp, w, h, c, dy, -3) ==
      Part(img, bp, w, h, c, dy, -3) + Part(img, bp, w, h, c, dy, -2) + Part(img, bp, w, h, c, dy, -1)
      + Part(img, bp, w, h, c, dy, 0)
      + Part(img, bp, w, h, c, dy, 1) + Part(img, bp, w, h, c, dy, 2) + Part(img, bp, w, h, c, dy, 3)
  {
    assert RowFrom(img, bp, w, h, c, dy, 3) == Part(img, bp, w, h, c, dy, 3);
    assert RowFrom(img, bp, w, h, c, dy, 1) == Part(img, bp, w, h, c, dy, 1)
      + Part(img, bp, w, h, c, dy, 2) + Part(img, bp, w, h, c, dy, 3);
    assert RowFrom(img, bp, w, h, c, dy, -1) == Part(img, bp, w, h, c, dy, -1)
      + Part(img, bp, w, h, c, dy, 0) + RowFrom(img, bp, w, h, c, dy, 1);
  }

  lemma AreaRows(img: seq<Pixel>, bp: Table, w: int, h: int, c: Point)
    requires |img| == w * h && Inset(c, w, h, 3)
    ensures Area(img, bp, w, h, c) == 100 +
      RowFrom(img, bp, w, h, c, -3, -3) + RowFrom(img, bp, w, h, c, -2, -3) + RowFrom(img, bp, w, h, c, -1, -3)
      + RowFrom(img, bp, w, h, c, 0, -3)
      + RowFrom(img, bp, w, h, c, 1, -3) + RowFrom(img, bp, w, h, c, 2, -3) + RowFrom(img, bp, w, h, c, 3, -3)
  {
    assert RowsFrom(img, bp, w, h, c, 3) == RowFrom(img, bp, w, h, c, 3, -3);
    assert RowsFrom(img, bp, w, h, c, 1) == RowFrom(img, bp, w, h, c, 1, -3)
      + RowFrom(img, bp, w, h, c, 2, -3) + RowFrom(img, bp, w, h, c, 3, -3);
    assert RowsFrom(img, bp, w, h, c, -1) == RowFrom(img, bp, w, h, c, -1, -3)
      + RowFrom(img, bp, w, h, c, 0, -3) + RowsFrom(img, bp, w, h, c, 1);
  }

  function CentreRow(img: seq<Pixel>, bp: Table, w: int, k: int): int
    requires Room3(w, k, |img|)
  {
    Read(img, bp, k, -3) + Read(img, bp, k, -2) + Read(img, bp, k, -1)
    + Read(img, bp, k, 1) + Read(img, bp, k, 2) + Read(img, bp, k, 3)
  }

  lemma Row3Is(img: seq<Pixel>, bp: Table, w: int, h: int, c: Point, dy: int, k: int, o: int)
    requires |img| == w * h && Inset(c, w, h, 3) && (dy == -3 || dy == 3) && k == Idx(w, c) && o == dy * w
    ensures 1 <= k + o < |img| - 1 && 0 <= k < |img|
    ensures RowFrom(img, bp, w, h, c, dy, -3) == Row3(img, bp, k, o)
  {
    RowParts(img, bp, w, h, c, dy);
    EntryAt(img, w, h, c, dy, -1); EntryAt(img, w, h, c, dy, 0); EntryAt(img, w, h, c, dy, 1);
  }

  lemma Row5Is(img: seq<Pixel>, bp: Table, w: int, h: int, c: Point, dy: int, k: int, o: int)
    requires |img| == w * h && Inset(c, w, h, 3) && (dy == -2 || dy == 2) && k == Idx(w, c) && o == dy * w
    ensures 2 <= k + o < |img| - 2 && 0 <= k < |img|
    ensures RowFrom(img, bp, w, h, c, dy, -3) == Row5(img, bp, k, o)
  {
    RowParts(img, bp, w, h, c, dy);
    EntryAt(img, w, h, c, dy, -2); EntryAt(img, w, h, c, dy, -1); EntryAt(img, w, h, c, dy, 0);
    EntryAt(img, w, h, c, dy, 1); EntryAt(img, w, h, c, dy, 2);
  }

  lemma Row7Is(img: seq<Pixel>, bp: Table, w: int, h: int, c: Point, dy: int, k: int, o: int)
    requires |img| == w * h && Inset(c, w, h, 3) && (dy == -1 || dy == 1) && k == Idx(w, c) && o == dy * w
    ensures 3 <= k + o < |img| - 3 && 0 <= k < |img|
    ensures RowFrom(img, bp, w, h, c, dy, -3) == Row7(img, bp, k, o)
  {
    RowParts(img, bp, w, h, c, dy);
    EntryAt(img, w, h, c, dy, -3); EntryAt(img, w, h, c, dy, -2); EntryAt(img, w, h, c, dy, -1);
    EntryAt(img, w, h, c, dy, 0);
    EntryAt(img, w, h, c, dy, 1); EntryAt(img, w, h, c, dy, 2); EntryAt(img, w, h, c, dy, 3);
  }

  lemma CentreRowIs(img: seq<Pixel>, bp: Table, w: int, h: int, c: Point)
    requires |img| == w * h && Inset(c, w, h, 3) && Room3(w, Idx(w, c), |img|)
    ensures RowFrom(img, bp, w, h, c, 0, -3) == CentreRow(img, bp, w, Idx(w, c))
  {
    RowParts(img, bp, w, h, c, 0);
    EntryAt(img, w, h, c, 0, -3); EntryAt(img, w, h, c, 0, -2); EntryAt(img, w, h, c, 0, -1);
    EntryAt(img, w, h, c, 0, 1); EntryAt(img, w, h, c, 0, 2); EntryAt(img, w, h, c, 0, 3);
  }

  /** The reads of the three parts of the walk, row by row. */
  lemma UpperRows(img: seq<Pixel>, bp: Table, w: int, h: int, c: Point, k: int)
    requires |img| == w * h && Inset(c, w, h, 3) && k == Idx(w, c) && Room3(w, k, |img|)
    ensures Upper(img, bp, w, k) == RowFrom(img, bp, w, h, c, -3, -3) + RowFrom(img, bp, w, h, c, -2, -3)
      + RowFrom(img, bp, w, h, c, -1, -3) + Read(img, bp, k, -3) + Read(img, bp, k, -2) + Read(img, bp, k, -1)
  {
    Row3Is(img, bp, w, h, c, -3, k, -3*w);
    Row5Is(img, bp, w, h, c, -2, k, -2*w);
    Row7Is(img, bp, w, h, c, -1, k, -w);
  }

  lemma LowerRows(img: seq<Pixel>, bp: Table, w: int, h: int, c: Point, k: int)
    requires |img| == w * h && Inset(c, w, h, 3) && k == Idx(w, c) && Room3(w, k, |img|)
    ensures Row7(img, bp, k, w) == RowFrom(img, bp, w, h, c, 1, -3)
    ensures Lower(img, bp, w, k) == RowFrom(img, bp, w, h, c, 2, -3) + RowFrom(img, bp, w, h, c, 3, -3)
  {
    Row7Is(img, bp, w, h, c, 1, k, w);
    Row5Is(img, bp, w, h, c, 2, k, 2*w);
    Row3Is(img, bp, w, h, c, 3, k, 3*w);
  }

  /** The 36 reads of the walk are the 36 pixels of the disc. */
  lemma WalkCoversMask(img: seq<Pixel>, bp: Table, w: int, h: int, c: Point)
    requires |img| == w * h && Inset(c, w, h, 3)
    ensures Room3(w, Idx(w, c), |img|)
    ensures var k := Idx(w, c);
      Area(img, bp, w, h, c) == 100 + Upper(img, bp, w, k) + Middle(img, bp, w, k) + Lower(img, bp, w, k)
  {
    RoomAround(w, h, c, 3);
    var k := Idx(w, c);
    AreaRows(img, bp, w, h, c);
    UpperRows(img, bp, w, h, c, k);
    CentreRowIs(img, bp, w, h, c);
    LowerRows(img, bp, w, h, c, k);
  }

  // ---- The walks -----------------------------------------------------------

  method WalkTop(img: array<Pixel>, bp: Table, w: int, k: int) returns (n: int, p: int)
    requires Room3(w, k, img.Length)
    ensures n == 100 + Row3(img[..], bp, k, -3*w) + Row5(img[..], bp, k, -2*w) && p == k - w - 3
  {
    var cp := 258 + (img[k] as int);
    n := 100;
    p := k - 3*w - 1;

    n := n + bp[cp - img[p]]; p := p + 1;
    n := n + bp[cp - img[p]]; p := p + 1;
    n := n + bp[cp - img[p]];
    p := p + w - 3;

    n := n + bp[cp - img[p]]; p := p + 1;
    n := n + bp[cp - img[p]]; p := p + 1;
    n := n + bp[cp - img[p]]; p := p + 1;
    n := n + bp[cp - img[p]]; p := p + 1;
    n := n + bp[cp - img[p]];
    p := p + w - 5;
  }

  method WalkUpper(img: array<Pixel>, bp: Table, w: int, k: int) returns (n: int, p: int)
    requires Room3(w, k, img.Length)
    ensures n == 100 + Upper(img[..], bp, w, k) && p == k - 1
  {
    var cp := 258 + (img[k] as int);
    n, p := WalkTop(img, bp, w, k);

    n := n + bp[cp - img[p]]; p := p + 1;
    n := n + bp[cp - img[p]]; p := p + 1;
    n := n + bp[cp - img[p]]; p := p + 1;
    n := n + bp[cp - img[p]]; p := p + 1;
    n := n + bp[cp - img[p]]; p := p + 1;
    n := n + bp[cp - img[p]]; p := p + 1;
    n := n + bp[cp - img[p]];
    p := p + w - 6;

    n := n + bp[cp - img[p]]; p := p + 1;
    n := n + bp[cp - img[p]]; p := p + 1;
    n := n + bp[cp - img[p]];
  }

  method WalkMiddle(img: array<Pixel>, bp: Table, w: int, k: int, n0: int, p0: int) returns (n: int, p: int)
    requires Room3(w, k, img.Length) && p0 == k - 1
    ensures n == n0 + Middle(img[..], bp, w, k) && p == k + w + 3
  {
    var cp := 258 + (img[k] as int);
    n, p := n0, p0;
    p := p + 2;
    n := n + bp[cp - img[p]]; p := p + 1;
    n := n + bp[cp - img[p]]; p := p + 1;
    n := n + bp[cp - img[p]];
    p := p + w - 6;

    n := n + bp[cp - img[p]]; p := p + 1;
    n := n + bp[cp - img[p]]; p := p + 1;
    n := n + bp[cp - img[p]]; p := p + 1;
    n := n + bp[cp - img[p]]; p := p + 1;
    n := n + bp[cp - img[p]]; p := p + 1;
    n := n + bp[cp - img[p]]; p := p + 1;
    n := n + bp[cp - img[p]];
  }

  method WalkLower(img: array<Pixel>, bp: Table, w: int, k: int, n0: int, p0: int) returns (n: int)
    requires Room3(w, k, img.Length) && p0 == k + w + 3
    ensures n == n0 + Lower(img[..], bp, w, k)
  {
    var cp := 258 + (img[k] as int);
    var p;
    n, p := n0, p0;
    p := p + w - 5;
    n := n + bp[cp - img[p]]; p := p + 1;
    n := n + bp[cp - img[p]]; p := p + 1;
    n := n + bp[cp - img[p]]; p := p + 1;
    n := n + bp[cp - img[p]]; p := p + 1;
    n := n + bp[cp - img[p]];
    p := p + w - 3;

    n := n + bp[cp - img[p]]; p := p + 1;
    n := n + bp[cp - img[p]]; p := p + 1;
    n := n + bp[cp - img[p]];
  }

  /** The ladder of susan_corners_quick over the same reads: it stops as soon as
      n reaches maxNo. */
  method LadderMiddle(img: array<Pixel>, bp: Table, w: int, k: int, maxNo: int, n0: int, p0: int)
    returns (n: int, p: int)
    requires Room3(w, k, img.Length) && p0 == k - 1
    ensures var full := n0 + Middle(img[..], bp, w, k);
      if full < maxNo then n == full && p == k + w + 3 else n >= maxNo
  {
    var cp := 258 + (img[k] as int);
    n, p := n0, p0;
    if n < maxNo { p := p + 2; n := n + bp[cp - img[p]]; p := p + 1;
    if n < maxNo { n := n + bp[cp - img[p]]; p := p + 1;
    if n < maxNo { n := n + bp[cp - img[p]];
    }}}
    n, p := LadderBelow(img, bp, w, k, maxNo, n, p);
  }

  method LadderBelow(img: array<Pixel>, bp: Table, w: int, k: int, maxNo: int, n0: int, p0: int)
    returns (n: int, p: int)
    requires Room3(w, k, img.Length) && (n0 < maxNo ==> p0 == k + 3)
    ensures var full := n0 + Row7(img[..], bp, k, w);
      if full < maxNo then n == full && p == k + w + 3 else n >= maxNo
  {
    var cp := 258 + (img[k] as int);
    n, p := n0, p0;
    if n < maxNo { p := p + w - 6; n := n + bp[cp - img[p]]; p := p + 1;
    if n < maxNo { n := n + bp[cp - img[p]]; p := p + 1;
    if n < maxNo { n := n + bp[cp - img[p]]; p := p + 1;
    if n < maxNo { n := n + bp[cp - img[p]]; p := p + 1;
    if n < maxNo { n := n + bp[cp - img[p]]; p := p + 1;
    if n < maxNo { n := n + bp[cp - img[p]]; p := p + 1;
    if n < maxNo { n := n + bp[cp - img[p]];
    }}}}}}}
  }

  method LadderLower(img: array<Pixel>, bp: Table, w: int, k: int, maxNo: int, n0: int, p0: int)
    returns (n: int)
    requires Room3(w, k, img.Length) && (n0 < maxNo ==> p0 == k + w + 3)
    ensures var full := n0 + Lower(img[..], bp, w, k);
      if full < maxNo then n == full else n >= maxNo
  {
    var cp := 258 + (img[k] as int);
    var p;
    n, p := n0, p0;
    if n < maxNo { p := p + w - 5; n := n + bp[cp - img[p]]; p := p + 1;
    if n < maxNo { n := n + bp[cp - img[p]]; p := p + 1;
    if n < maxNo { n := n + bp[cp - img[p]]; p := p + 1;
    if n < maxNo { n := n + bp[cp - img[p]]; p := p + 1;
    if n < maxNo { n := n + bp[cp - img[p]];
    if n < maxNo { p := p + w - 3; n := n + bp[cp - img[p]]; p := p + 1;
    if n < maxNo { n := n + bp[cp - img[p]]; p := p + 1;
    if n < maxNo { n := n + bp[cp - img[p]];
    }}}}}}}}
  }

  // ---- The response images -------------------------------------------------

  /** What a response loop with margin b leaves at p, starting from a cleared r. */
  function ResponseAt(img: seq<Pixel>, bp: Table, w: int, h: int, maxNo: int, b: int, p: Point): int
    requires |img| == w * h && b >= 3
  {
    if Inset(p, w, h, b) then Response(img, bp, w, h, maxNo, p) else 0
  }

  /** The response of pixel c, in terms of entry k and the sums of the walk. */
  lemma ResponseFromReads(img: seq<Pixel>, bp: Table, w: int, h: int, maxNo: int, c: Point, k: int) returns (full: int)
    requires |img| == w * h && Inset(c, w, h, 3) && k == Idx(w, c)
    ensures Room3(w, k, |img|)
    ensures full == Area(img, bp, w, h, c) == 100 + Upper(img, bp, w, k) + Middle(img, bp, w, k) + Lower(img, bp, w, k)
    ensures Response(img, bp, w, h, maxNo, c) == if full < maxNo then maxNo - full else 0
  {
    WalkCoversMask(img, bp, w, h, c);
    full := Area(img, bp, w, h, c);
  }

  method WalkAll(img: array<Pixel>, bp: Table, w: int, k: int) returns (n: int)
    requires Room3(w, k, img.Length)
    ensures n == 100 + Upper(img[..], bp, w, k) + Middle(img[..], bp, w, k) + Lower(img[..], bp, w, k)
  {
    var p;
    n, p := WalkUpper(img, bp, w, k);
    n, p := WalkMiddle(img, bp, w, k, n, p);
    n := WalkLower(img, bp, w, k, n, p);
  }

  method LadderAll(img: array<Pixel>, bp: Table, w: int, k: int, maxNo: int) returns (n: int)
    requires Room3(w, k, img.Length)
    ensures var full := 100 + Upper(img[..], bp, w, k) + Middle(img[..], bp, w, k) + Lower(img[..], bp, w, k);
      if full < maxNo then n == full else n >= maxNo
  {
    var p;
    n, p := WalkUpper(img, bp, w, k);
    n, p := LadderMiddle(img, bp, w, k, maxNo, n, p);
    n := LadderLower(img, bp, w, k, maxNo, n, p);
  }

  /** The value susan_principle stores for the pixel at entry k. */
  method PrincipleValue(img: array<Pixel>, bp: Table, w: int, ghost h: int, maxNo: int, ghost c: Point, k: int)
    returns (v: int)
    requires img.Length == w * h && Inset(c, w, h, 3) && k == Idx(w, c)
    ensures v == Response(img[..], bp, w, h, maxNo, c)
  {
    ghost var full := ResponseFromReads(img[..], bp, w, h, maxNo, c, k);
    var n := WalkAll(img, bp, w, k);
    v := 0;
    if n <= maxNo { v := maxNo - n; }
  }

  /** The value susan_corners_quick stores for the pixel at entry k. */
  method QuickValue(img: array<Pixel>, bp: Table, w: int, ghost h: int, maxNo: int, ghost c: Point, k: int)
    returns (v: int)
    requires img.Length == w * h && Inset(c, w, h, 3) && k == Idx(w, c)
    ensures v == Response(img[..], bp, w, h, maxNo, c)
  {
    ghost var full := ResponseFromReads(img[..], bp, w, h, maxNo, c, k);
    var n := LadderAll(img, bp, w, k, maxNo);
    v := 0;
    if n < maxNo { v := maxNo - n; }
  }

  method Store(r: array<int>, w: int, h: int, i: int, j: int, v: int)
    requires r.Length == w * h && Inside(P(i, j), w, h)
    modifies r
    ensures forall p :: Inside(p, w, h) ==> (At(r[..], w, h, p) ==
      if p == P(i, j) then v else At(old(r[..]), w, h, p))
  {
    IdxInRange(w, h, P(i, j));
    ghost var before := r[..];
    r[i * w + j] := v;
    WriteAt(before, w, h, P(i, j), v);
  }

  method Clear(r: array<int>, w: int, h: int)
    requires r.Length == w * h
    modifies r
    ensures forall p :: Inside(p, w, h) ==> At(r[..], w, h, p) == 0
  {
    forall k | 0 <= k < r.Length { r[k] := 0; }
    FillAt(r[..], w, h, 0);
  }

  /** susan_principle: every pixel at least three pixels inside gets its response. */
  method SusanPrinciple(img: array<Pixel>, r: array<int>, bp: Table, w: int, h: int, maxNo: int)
    requires img.Length == r.Length == w * h && img as object != r
    modifies r
    ensures forall p :: Inside(p, w, h) ==>
      At(r[..], w, h, p) == ResponseAt(img[..], bp, w, h, maxNo, 3, p)
  {
    Clear(r, w, h);
    for i := 3 to Max(3, h - 3)
      invariant forall p :: Inside(p, w, h) ==> (At(r[..], w, h, p) ==
        if Before(p, i, 0) then ResponseAt(img[..], bp, w, h, maxNo, 3, p) else 0)
    {
      for j := 3 to Max(3, w - 3)
        invariant forall p :: Inside(p, w, h) ==> (At(r[..], w, h, p) ==
          if Before(p, i, j) then ResponseAt(img[..], bp, w, h, maxNo, 3, p) else 0)
      {
        var v := PrincipleValue(img, bp, w, h, maxNo, P(i, j), i * w + j);
        Store(r, w, h, i, j, v);
      }
    }
  }

  /** The response part of susan_corners_quick: with its early exits it leaves,
      seven pixels inside, exactly what susan_principle leaves there. */
  method SusanQuick(img: array<Pixel>, r: array<int>, bp: Table, w: int, h: int, maxNo: int)
    requires img.Length == r.Length == w * h && img as object != r
    modifies r
    ensures forall p :: Inside(p, w, h) ==>
      At(r[..], w, h, p) == ResponseAt(img[..], bp, w, h, maxNo, 7, p)
  {
    Clear(r, w, h);
    for i := 7 to Max(7, h - 7)
      invariant forall p :: Inside(p, w, h) ==> (At(r[..], w, h, p) ==
        if Before(p, i, 0) then ResponseAt(img[..], bp, w, h, maxNo, 7, p) else 0)
    {
      for j := 7 to Max(7, w - 7)
        invariant forall p :: Inside(p, w, h) ==> (At(r[..], w, h, p) ==
          if Before(p, i, j) then ResponseAt(img[..], bp, w, h, maxNo, 7, p) else 0)
      {
        var v := QuickValue(img, bp, w, h, maxNo, P(i, j), i * w + j);
        Store(r, w, h, i, j, v);
      }
    }
  }
}
