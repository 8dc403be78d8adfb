/** Pixels, their 8-neighbourhood, and the row-major buffers of susan/susan.c:
    pixel (y, x) of an image of width w is entry y*w + x. */
module Grid {
  import opened Arithmetic

  datatype Point = P(y: int, x: int)

  type Pixel = v: int | 0 <= v < 256

  predicate Inside(p: Point, w: int, h: int) {
    0 <= p.y < h && 0 <= p.x < w
  }

  /** At least b pixels away from every border. */
  predicate Inset(p: Point, w: int, h: int, b: int) {
    b <= p.y < h - b && b <= p.x < w - b
  }

  predicate Adjacent(p: Point, q: Point) {
    p != q && -1 <= p.y - q.y <= 1 && -1 <= p.x - q.x <= 1
  }

  function Idx(w: int, p: Point): int {
    p.y * w + p.x
  }

  /** The buffer entry of a pixel. */
  function At<T>(s: seq<T>, w: int, h: int, p: Point): (v: T)
    requires |s| == w * h && Inside(p, w, h)
  {
    IdxInRange(w, h, p);
    s[Idx(w, p)]
  }

  lemma IdxInRange(w: int, h: int, p: Point)
    requires Inside(p, w, h)
    ensures 0 <= Idx(w, p) < w * h
  {
    MulLe(p.y + 1, h, w);
  }

  /** Room around a pixel that is b pixels inside: b rows and b columns. */
  lemma RoomAround(w: int, h: int, p: Point, b: int)
    requires 0 <= b && Inset(p, w, h, b)
    ensures 0 <= Idx(w, p) - b * w - b
    ensures Idx(w, p) + b * w + b < w * h
  {
    MulLe(b, p.y, w);
    MulLe(p.y + b + 1, h, w);
    assert (p.y + b + 1) * w == p.y * w + b * w + w;
  }

  lemma IdxInjective(w: int, h: int, p: Point, q: Point)
    requires Inside(p, w, h) && Inside(q, w, h) && Idx(w, p) == Idx(w, q)
    ensures p == q
  {
    if p.y < q.y { MulLe(p.y + 1, q.y, w); }
    if q.y < p.y { MulLe(q.y + 1, p.y, w); }
  }

  /** Writing one pixel leaves every other pixel alone. */
  lemma AtUpdate<T>(s: seq<T>, w: int, h: int, p: Point, v: T, q: Point)
    requires |s| == w * h && Inside(p, w, h) && Inside(q, w, h)
    requires 0 <= Idx(w, p) < |s|
    ensures At(s[Idx(w, p) := v], w, h, q) == if q == p then v else At(s, w, h, q)
  {
    IdxInRange(w, h, q);
    UpdateElsewhere(s, Idx(w, p), v, Idx(w, q));
    if Idx(w, p) == Idx(w, q) {
      IdxInjective(w, h, p, q);
    }
  }

  lemma UpdateElsewhere<T>(s: seq<T>, k: int, v: T, m: int)
    requires 0 <= k < |s| && 0 <= m < |s|
    ensures s[k := v][m] == if m == k then v else s[m]
  {
  }

  /** Raster order: p comes before (i, j). */
  predicate Before(p: Point, i: int, j: int) {
    p.y < i || (p.y == i && p.x < j)
  }

  function Max(a: int, b: int): int {
    if a > b then a else b
  }

  lemma WriteAt<T>(s: seq<T>, w: int, h: int, p: Point, v: T)
    requires |s| == w * h && Inside(p, w, h) && 0 <= Idx(w, p) < |s|
    ensures forall q :: Inside(q, w, h) ==>
      At(s[Idx(w, p) := v], w, h, q) == if q == p then v else At(s, w, h, q)
  {
    forall q | Inside(q, w, h)
      ensures At(s[Idx(w, p) := v], w, h, q) == if q == p then v else At(s, w, h, q)
    {
      AtUpdate(s, w, h, p, v, q);
    }
  }

  /** A buffer of one value shows it at every pixel. */
  lemma FillAt<T>(s: seq<T>, w: int, h: int, v: T)
    requires |s| == w * h && forall k :: 0 <= k < |s| ==> s[k] == v
    ensures forall p :: Inside(p, w, h) ==> At(s, w, h, p) == v
  {
    forall p | Inside(p, w, h) ensures At(s, w, h, p) == v {
      IdxInRange(w, h, p);
    }
  }

  /** Every entry of the buffer is a pixel. */
  lemma PixelOf(w: int, h: int, k: int) returns (p: Point)
    requires 0 < w && 0 < h && 0 <= k < w * h
    ensures Inside(p, w, h) && Idx(w, p) == k
  {
    p := P(k / w, k % w);
    if p.y >= h { MulLe(h, p.y, w); }
  }
}
