/** Mirrored borders (enlarge in susan/susan.c). */
module Borders {
  import opened Arithmetic
  import opened Grid

  /** An image of w by h pixels inside one of W by H, with a border of b pixels. */
  datatype Frame = Frame(w: int, h: int, b: int, W: int, H: int) {
    predicate Ok() {
      0 < w && 0 < h && 0 <= b <= w && b <= h && W == w + 2*b && H == h + 2*b
    }
  }

  /** Half-sample mirror of a coordinate into 0..n. */
  function Mirror(k: int, n: int): int {
    if k < 0 then -1 - k else if k >= n then 2 * n - 1 - k else k
  }

  /** The mirrors stand half a pixel outside: the first pixel beyond an end shows the pixel at
      that end, and so on outwards. */
  lemma MirrorIsHalfSample(k: int, n: int)
    requires 0 <= k < n
    ensures Mirror(k, n) == k && Mirror(-1 - k, n) == k && Mirror(n + k, n) == n - 1 - k
  {
  }

  /** The mirror extension of an image, up to h rows and w columns beyond its border. */
  function Extended(img: seq<Pixel>, w: int, h: int, y: int, x: int): Pixel
    requires |img| == w * h && -h <= y < 2 * h && -w <= x < 2 * w
  {
    At(img, w, h, P(Mirror(y, h), Mirror(x, w)))
  }

  ghost predicate Sized(tmp: seq<Pixel>, img: seq<Pixel>, f: Frame) {
    f.Ok() && |img| == f.w * f.h && |tmp| == f.W * f.H
  }

  /** Pixel p of the enlarged image shows the extension around the original. */
  ghost predicate Shows(tmp: seq<Pixel>, img: seq<Pixel>, f: Frame, p: Point)
    requires Sized(tmp, img, f) && Inside(p, f.W, f.H)
  {
    At(tmp, f.W, f.H, p) == Extended(img, f.w, f.h, p.y - f.b, p.x - f.b)
  }

  /** The part of the enlarged image in rows y0..y1 and columns x0..x1 is done. */
  ghost predicate Done(tmp: seq<Pixel>, img: seq<Pixel>, f: Frame, y0: int, y1: int, x0: int, x1: int)
    requires Sized(tmp, img, f)
  {
    forall p :: Inside(p, f.W, f.H) && y0 <= p.y < y1 && x0 <= p.x < x1 ==> Shows(tmp, img, f, p)
  }

  // ---- Copies --------------------------------------------------------------

  /** memcpy of row srow of one image into row `row` of another, from column col. */
  method CopyRow(dst: array<Pixel>, W: int, H: int, row: int, col: int, src: array<Pixel>, w: int, h: int, srow: int)
    requires dst.Length == W * H && src.Length == w * h && dst != src
    requires 0 <= row < H && 0 <= col && 0 < w && col + w <= W && 0 <= srow < h
    modifies dst
    ensures forall p :: Inside(p, W, H) ==> (At(dst[..], W, H, p) ==
      if p.y == row && col <= p.x < col + w then At(src[..], w, h, P(srow, p.x - col))
      else At(old(dst[..]), W, H, p))
  {
    IdxInRange(W, H, P(row, col));
    IdxInRange(W, H, P(row, col + w - 1));
    IdxInRange(w, h, P(srow, 0));
    IdxInRange(w, h, P(srow, w - 1));
    var to, from := row * W + col, srow * w;
    ghost var before := dst[..];
    forall x | 0 <= x < w { dst[to + x] := src[from + x]; }
    ghost var after := dst[..];
    forall p | Inside(p, W, H)
      ensures At(after, W, H, p) ==
        if p.y == row && col <= p.x < col + w then At(src[..], w, h, P(srow, p.x - col)) else At(before, W, H, p)
    {
      RowEntry(W, H, row, col, w, p);
      if p.y == row && col <= p.x < col + w {
        IdxInRange(w, h, P(srow, p.x - col));
      }
    }
  }

  /** A row ends before the rows below it begin. */
  lemma RowEndsBefore(W: int, y: int, x: int, row: int)
    requires 0 <= x <= W && y < row
    ensures y * W + x <= row * W
  {
    MulLe(y + 1, row, W);
    assert (y + 1) * W == y * W + W;
  }

  /** Entries of a row segment are the pixels of that segment. */
  lemma RowEntry(W: int, H: int, row: int, col: int, w: int, p: Point)
    requires Inside(p, W, H) && 0 <= row < H && 0 <= col && 0 <= w && col + w <= W
    ensures 0 <= Idx(W, p) < W * H
    ensures row * W + col <= Idx(W, p) < row * W + col + w <==> p.y == row && col <= p.x < col + w
  {
    IdxInRange(W, H, p);
    if p.y < row {
      RowEndsBefore(W, p.y, p.x + 1, row);
    } else if p.y > row {
      RowEndsBefore(W, row, col + w, p.y);
    }
  }

  /** Copying a finished pixel to its mirror image finishes that and spoils none. */
  method FillPixel(tmp: array<Pixel>, ghost img: seq<Pixel>, f: Frame, row: int, to: int, from: int)
    requires Sized(tmp[..], img, f)
    requires Inside(P(row, to), f.W, f.H) && Inside(P(row, from), f.W, f.H)
    requires Mirror(to - f.b, f.w) == Mirror(from - f.b, f.w)
    requires Shows(tmp[..], img, f, P(row, from))
    modifies tmp
    ensures Shows(tmp[..], img, f, P(row, to))
    ensures StillShows(old(tmp[..]), tmp[..], img, f)
  {
    IdxInRange(f.W, f.H, P(row, to));
    IdxInRange(f.W, f.H, P(row, from));
    ghost var before := tmp[..];
    tmp[row * f.W + to] := tmp[row * f.W + from];
    WriteAt(before, f.W, f.H, P(row, to), before[row * f.W + from]);
  }

  /** No finished pixel is spoilt. */
  ghost predicate StillShows(before: seq<Pixel>, after: seq<Pixel>, img: seq<Pixel>, f: Frame)
    requires Sized(before, img, f) && Sized(after, img, f)
  {
    forall p :: Inside(p, f.W, f.H) && Shows(before, img, f, p) ==> Shows(after, img, f, p)
  }

  // ---- The three passes ----------------------------------------------------

  method Enlarge(img: array<Pixel>, tmp: array<Pixel>, f: Frame)
    requires Sized(tmp[..], img[..], f) && tmp != img
    modifies tmp
    ensures forall p :: Inside(p, f.W, f.H) ==> Shows(tmp[..], img[..], f, p)
  {
    CopyImage(img, tmp, f);
    for i := 0 to f.b
      invariant Done(tmp[..], img[..], f, f.b - i, f.b + f.h + i, f.b, f.b + f.w)
    {
      MirrorRows(img, tmp, f, i);
    }
    for i := 0 to f.b
      invariant Done(tmp[..], img[..], f, 0, f.H, f.b - i, f.b + f.w + i)
    {
      for j := 0 to f.H
        invariant Done(tmp[..], img[..], f, 0, f.H, f.b - i, f.b + f.w + i)
        invariant Done(tmp[..], img[..], f, 0, j, f.b - i - 1, f.b + f.w + i + 1)
      {
        MirrorColumns(tmp, img[..], f, i, j);
      }
    }
  }

  /** Image row srow becomes row `row` of the enlarged image, next to the done rows. */
  method CopyMirrored(img: array<Pixel>, tmp: array<Pixel>, f: Frame, row: int, srow: int, ghost y0: int, ghost y1: int)
    requires Sized(tmp[..], img[..], f) && tmp != img && 0 <= row < f.H && 0 <= srow < f.h
    requires Done(tmp[..], img[..], f, y0, y1, f.b, f.b + f.w)
    requires -f.h <= row - f.b < 2 * f.h && Mirror(row - f.b, f.h) == srow && (row == y0 - 1 || row == y1)
    modifies tmp
    ensures Done(tmp[..], img[..], f, if row == y1 then y0 else row, if row == y1 then y1 + 1 else y1, f.b, f.b + f.w)
  {
    ghost var before := tmp[..];
    CopyRow(tmp, f.W, f.H, row, f.b, img, f.w, f.h, srow);
    ghost var after := tmp[..];
    forall p | Inside(p, f.W, f.H) && f.b <= p.x < f.b + f.w && (p.y == row || y0 <= p.y < y1)
      ensures Shows(after, img[..], f, p)
    {
      if p.y != row { assert Shows(before, img[..], f, p); }
    }
  }

  method CopyImage(img: array<Pixel>, tmp: array<Pixel>, f: Frame)
    requires Sized(tmp[..], img[..], f) && tmp != img
    modifies tmp
    ensures Done(tmp[..], img[..], f, f.b, f.b + f.h, f.b, f.b + f.w)
  {
    for i := 0 to f.h
      invariant Done(tmp[..], img[..], f, f.b, f.b + i, f.b, f.b + f.w)
    {
      CopyMirrored(img, tmp, f, i + f.b, i, f.b, f.b + i);
    }
  }

  /** Rows i above and below the image. */
  method MirrorRows(img: array<Pixel>, tmp: array<Pixel>, f: Frame, i: int)
    requires Sized(tmp[..], img[..], f) && tmp != img && 0 <= i < f.b
    requires Done(tmp[..], img[..], f, f.b - i, f.b + f.h + i, f.b, f.b + f.w)
    modifies tmp
    ensures Done(tmp[..], img[..], f, f.b - i - 1, f.b + f.h + i + 1, f.b, f.b + f.w)
  {
    CopyMirrored(img, tmp, f, f.b - 1 - i, i, f.b - i, f.b + f.h + i);
    CopyMirrored(img, tmp, f, f.h + f.b + i, f.h - i - 1, f.b - i - 1, f.b + f.h + i);
  }

  /** The two pixels of row j that lie i columns beside the image. */
  method MirrorColumns(tmp: array<Pixel>, ghost img: seq<Pixel>, f: Frame, i: int, j: int)
    requires Sized(tmp[..], img, f) && 0 <= i < f.b && 0 <= j < f.H
    requires Done(tmp[..], img, f, 0, f.H, f.b - i, f.b + f.w + i)
    requires Done(tmp[..], img, f, 0, j, f.b - i - 1, f.b + f.w + i + 1)
    modifies tmp
    ensures Done(tmp[..], img, f, 0, f.H, f.b - i, f.b + f.w + i)
    ensures Done(tmp[..], img, f, 0, j + 1, f.b - i - 1, f.b + f.w + i + 1)
  {
    FillColumn(tmp, img, f, i, j, f.b - 1 - i, f.b + i, f.b - i, f.b + f.w + i);
    FillColumn(tmp, img, f, i, j, f.w + f.b + i, f.w + f.b - 1 - i, f.b - i - 1, f.b + f.w + i);
  }

  /** One of the two pixels of row j: it widens the done part x0..x1 of that row
      by the column on its left or right. */
  method FillColumn(tmp: array<Pixel>, ghost img: seq<Pixel>, f: Frame, i: int, j: int, to: int, from: int,
                    ghost x0: int, ghost x1: int)
    requires Sized(tmp[..], img, f) && 0 <= i < f.b && 0 <= j < f.H
    requires Columns(tmp[..], img, f, i, j, x0, x1)
    requires 0 <= to < f.W && (to == x0 - 1 || to == x1) && f.b - i <= from < f.b + f.w + i
    requires Mirror(to - f.b, f.w) == Mirror(from - f.b, f.w)
    modifies tmp
    ensures Columns(tmp[..], img, f, i, j, if to < x0 then to else x0, if to < x0 then x1 else to + 1)
  {
    ghost var before := tmp[..];
    DoneAt(before, img, f, i, P(j, from));
    FillPixel(tmp, img, f, j, to, from);
    Widen(before, tmp[..], img, f, i, j, x0, x1, to);
  }

  /** Between the two passes of a round: everything within i columns of the image,
      the rows before j one column further, and row j from x0 to x1. */
  ghost predicate Columns(s: seq<Pixel>, img: seq<Pixel>, f: Frame, i: int, j: int, x0: int, x1: int)
    requires Sized(s, img, f)
  {
    && Done(s, img, f, 0, f.H, f.b - i, f.b + f.w + i)
    && Done(s, img, f, 0, j, f.b - i - 1, f.b + f.w + i + 1)
    && Done(s, img, f, j, j + 1, x0, x1)
  }

  lemma Widen(s: seq<Pixel>, s': seq<Pixel>, img: seq<Pixel>, f: Frame, i: int, j: int, x0: int, x1: int, to: int)
    requires Sized(s, img, f) && Sized(s', img, f) && 0 <= j < f.H && 0 <= to < f.W
    requires Columns(s, img, f, i, j, x0, x1) && (to == x0 - 1 || to == x1)
    requires StillShows(s, s', img, f) && Shows(s', img, f, P(j, to))
    ensures Columns(s', img, f, i, j, if to < x0 then to else x0, if to < x0 then x1 else to + 1)
  {
    forall p | Inside(p, f.W, f.H) && p.y == j && (x0 <= p.x < x1 || p.x == to) ensures Shows(s', img, f, p) {
      if p.x == to { assert p == P(j, to); }
    }
  }

  lemma DoneAt(s: seq<Pixel>, img: seq<Pixel>, f: Frame, i: int, p: Point)
    requires Sized(s, img, f) && Done(s, img, f, 0, f.H, f.b - i, f.b + f.w + i)
    requires Inside(p, f.W, f.H) && f.b - i <= p.x < f.b + f.w + i
    ensures Shows(s, img, f, p)
  {
  }
}
