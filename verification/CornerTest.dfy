/** The corner finder susan_corners of susan/susan.c: where the area is small, the
    centre of gravity of the mask and three pixels towards it decide. */
module CornerTest {
  import opened Arithmetic
  import opened Grid
  import opened Usan

  // ---- The centre of gravity --------------------------------------------------

  /** The first moment, across, of row dy from column dx on. */
  function RowMoment(img: seq<Pixel>, bp: Table, w: int, h: int, c: Point, dy: int, dx: int): int
    requires |img| == w * h && Inset(c, w, h, 3) && -3 <= dy <= 3 && -3 <= dx <= 4
    decreases 4 - dx
  {
    if dx == 4 then 0 else dx * Part(img, bp, w, h, c, dy, dx) + RowMoment(img, bp, w, h, c, dy, dx + 1)
  }

  /** The first moments of the mask's similarities around its centre. */
  function MomentX(img: seq<Pixel>, bp: Table, w: int, h: int, c: Point, dy: int): int
    requires |img| == w * h && Inset(c, w, h, 3) && -3 <= dy <= 4
    decreases 4 - dy
  {
    if dy == 4 then 0 else RowMoment(img, bp, w, h, c, dy, -3) + MomentX(img, bp, w, h, c, dy + 1)
  }

  function MomentY(img: seq<Pixel>, bp: Table, w: int, h: int, c: Point, dy: int): int
    requires |img| == w * h && Inset(c, w, h, 3) && -3 <= dy <= 4
    decreases 4 - dy
  {
    if dy == 4 then 0 else dy * RowFrom(img, bp, w, h, c, dy, -3) + MomentY(img, bp, w, h, c, dy + 1)
  }

  lemma MomentParts(img: seq<Pixel>, bp: Table, w: int, h: int, c: Point, dy: int)
    requires |img| == w * h && Inset(c, w, h, 3) && -3 <= dy <= 3
    ensures RowMoment(img, bp, w, h, c, dy, -3) ==
      -3 * Part(img, bp, w, h, c, dy, -3) - 2 * Part(img, bp, w, h, c, dy, -2) - Part(img, bp, w, h, c, dy, -1)
      + Part(img, bp, w, h, c, dy, 1) + 2 * Part(img, bp, w, h, c, dy, 2) + 3 * Part(img, bp, w, h, c, dy, 3)
  {
    assert RowMoment(img, bp, w, h, c, dy, 3) == 3 * Part(img, bp, w, h, c, dy, 3);
    assert RowMoment(img, bp, w, h, c, dy, 1) == Part(img, bp, w, h, c, dy, 1)
      + 2 * Part(img, bp, w, h, c, dy, 2) + 3 * Part(img, bp, w, h, c, dy, 3);
    assert RowMoment(img, bp, w, h, c, dy, -1) == -Part(img, bp, w, h, c, dy, -1) + RowMoment(img, bp, w, h, c, dy, 1);
  }

  lemma MomentRows(img: seq<Pixel>, bp: Table, w: int, h: int, c: Point)
    requires |img| == w * h && Inset(c, w, h, 3)
    ensures MomentX(img, bp, w, h, c, -3) ==
      RowMoment(img, bp, w, h, c, -3, -3) + RowMoment(img, bp, w, h, c, -2, -3) + RowMoment(img, bp, w, h, c, -1, -3)
      + RowMoment(img, bp, w, h, c, 0, -3)
      + RowMoment(img, bp, w, h, c, 1, -3) + RowMoment(img, bp, w, h, c, 2, -3) + RowMoment(img, bp, w, h, c, 3, -3)
    ensures MomentY(img, bp, w, h, c, -3) ==
      -3 * RowFrom(img, bp, w, h, c, -3, -3) - 2 * RowFrom(img, bp, w, h, c, -2, -3) - RowFrom(img, bp, w, h, c, -1, -3)
      + RowFrom(img, bp, w, h, c, 1, -3) + 2 * RowFrom(img, bp, w, h, c, 2, -3) + 3 * RowFrom(img, bp, w, h, c, 3, -3)
  {
    assert MomentX(img, bp, w, h, c, 3) == RowMoment(img, bp, w, h, c, 3, -3);
    assert MomentX(img, bp, w, h, c, 1) == RowMoment(img, bp, w, h, c, 1, -3)
      + RowMoment(img, bp, w, h, c, 2, -3) + RowMoment(img, bp, w, h, c, 3, -3);
    assert MomentX(img, bp, w, h, c, -1) == RowMoment(img, bp, w, h, c, -1, -3)
      + RowMoment(img, bp, w, h, c, 0, -3) + MomentX(img, bp, w, h, c, 1);
    assert MomentY(img, bp, w, h, c, 3) == 3 * RowFrom(img, bp, w, h, c, 3, -3);
    assert MomentY(img, bp, w, h, c, 1) == RowFrom(img, bp, w, h, c, 1, -3)
      + 2 * RowFrom(img, bp, w, h, c, 2, -3) + 3 * RowFrom(img, bp, w, h, c, 3, -3);
    assert MomentY(img, bp, w, h, c, -1) == -RowFrom(img, bp, w, h, c, -1, -3) + MomentY(img, bp, w, h, c, 1);
  }

  /** One read of the walk: the similarity of mask pixel (dy, dx). */
  method Take(img: array<Pixel>, bp: Table, ghost w: int, ghost h: int, ghost c: Point, ghost dy: int, ghost dx: int,
              cp: int, p: int)
    returns (n: int)
    requires img.Length == w * h && Inset(c, w, h, 3) && -3 <= dy <= 3 && -3 <= dx <= 3 && InMask(dy, dx)
    requires cp == 258 + (At(img[..], w, h, c) as int) && p == Idx(w, c) + dy * w + dx
    ensures n == Part(img[..], bp, w, h, c, dy, dx)
  {
    EntryAt(img[..], w, h, c, dy, dx);
    n := bp[cp - img[p]];
  }

  /** Three, five and seven reads along row dy; what they add to x, and their sum, dy
      times which goes to y. */
  method Row3Moment(img: array<Pixel>, bp: Table, ghost w: int, ghost h: int, ghost m: Point, ghost dy: int, cp: int,
                    p0: int)
    returns (x: int, n: int, p: int)
    requires img.Length == w * h && Inset(m, w, h, 3) && (dy == -3 || dy == 3)
    requires cp == 258 + (At(img[..], w, h, m) as int) && p0 == Idx(w, m) + dy * w - 1
    ensures x == RowMoment(img[..], bp, w, h, m, dy, -3) && n == RowFrom(img[..], bp, w, h, m, dy, -3) && p == p0 + 2
  {
    MomentParts(img[..], bp, w, h, m, dy);
    RowParts(img[..], bp, w, h, m, dy);
    p, x, n := p0, 0, 0;
    var c := Take(img, bp, w, h, m, dy, -1, cp, p); p := p + 1; x, n := x - c, n + c;
    c := Take(img, bp, w, h, m, dy, 0, cp, p); p := p + 1; n := n + c;
    c := Take(img, bp, w, h, m, dy, 1, cp, p); x, n := x + c, n + c;
  }

  method Row5Moment(img: array<Pixel>, bp: Table, ghost w: int, ghost h: int, ghost m: Point, ghost dy: int, cp: int,
                    p0: int)
    returns (x: int, n: int, p: int)
    requires img.Length == w * h && Inset(m, w, h, 3) && (dy == -2 || dy == 2)
    requires cp == 258 + (At(img[..], w, h, m) as int) && p0 == Idx(w, m) + dy * w - 2
    ensures x == RowMoment(img[..], bp, w, h, m, dy, -3) && n == RowFrom(img[..], bp, w, h, m, dy, -3) && p == p0 + 4
  {
    MomentParts(img[..], bp, w, h, m, dy);
    RowParts(img[..], bp, w, h, m, dy);
    p, x, n := p0, 0, 0;
    var c := Take(img, bp, w, h, m, dy, -2, cp, p); p := p + 1; x, n := x - 2*c, n + c;
    c := Take(img, bp, w, h, m, dy, -1, cp, p); p := p + 1; x, n := x - c, n + c;
    c := Take(img, bp, w, h, m, dy, 0, cp, p); p := p + 1; n := n + c;
    c := Take(img, bp, w, h, m, dy, 1, cp, p); p := p + 1; x, n := x + c, n + c;
    c := Take(img, bp, w, h, m, dy, 2, cp, p); x, n := x + 2*c, n + c;
  }

  method Row7Moment(img: array<Pixel>, bp: Table, ghost w: int, ghost h: int, ghost m: Point, ghost dy: int, cp: int,
                    p0: int)
    returns (x: int, n: int, p: int)
    requires img.Length == w * h && Inset(m, w, h, 3) && (dy == -1 || dy == 1)
    requires cp == 258 + (At(img[..], w, h, m) as int) && p0 == Idx(w, m) + dy * w - 3
    ensures x == RowMoment(img[..], bp, w, h, m, dy, -3) && n == RowFrom(img[..], bp, w, h, m, dy, -3) && p == p0 + 6
  {
    MomentParts(img[..], bp, w, h, m, dy);
    RowParts(img[..], bp, w, h, m, dy);
    p, x, n := p0, 0, 0;
    var c := Take(img, bp, w, h, m, dy, -3, cp, p); p := p + 1; x, n := x - 3*c, n + c;
    c := Take(img, bp, w, h, m, dy, -2, cp, p); p := p + 1; x, n := x - 2*c, n + c;
    c := Take(img, bp, w, h, m, dy, -1, cp, p); p := p + 1; x, n := x - c, n + c;
    c := Take(img, bp, w, h, m, dy, 0, cp, p); p := p + 1; n := n + c;
    c := Take(img, bp, w, h, m, dy, 1, cp, p); p := p + 1; x, n := x + c, n + c;
    c := Take(img, bp, w, h, m, dy, 2, cp, p); p := p + 1; x, n := x + 2*c, n + c;
    c := Take(img, bp, w, h, m, dy, 3, cp, p); x, n := x + 3*c, n + c;
  }

  method CentreRowMoment(img: array<Pixel>, bp: Table, ghost w: int, ghost h: int, ghost m: Point, cp: int, p0: int)
    returns (x: int, p: int)
    requires img.Length == w * h && Inset(m, w, h, 3)
    requires cp == 258 + (At(img[..], w, h, m) as int) && p0 == Idx(w, m) - 3
    ensures x == RowMoment(img[..], bp, w, h, m, 0, -3) && p == p0 + 6
  {
    MomentParts(img[..], bp, w, h, m, 0);
    p, x := p0, 0;
    var c := Take(img, bp, w, h, m, 0, -3, cp, p); p := p + 1; x := x - 3*c;
    c := Take(img, bp, w, h, m, 0, -2, cp, p); p := p + 1; x := x - 2*c;
    c := Take(img, bp, w, h, m, 0, -1, cp, p); x := x - c;
    p := p + 2;
    c := Take(img, bp, w, h, m, 0, 1, cp, p); p := p + 1; x := x + c;
    c := Take(img, bp, w, h, m, 0, 2, cp, p); p := p + 1; x := x + 2*c;
    c := Take(img, bp, w, h, m, 0, 3, cp, p); x := x + 3*c;
  }

  /** Rows -3 to -1, from p on. */
  method UpperMoments(img: array<Pixel>, bp: Table, w: int, ghost h: int, ghost m: Point, cp: int, p0: int)
    returns (x: int, y: int, p: int)
    requires img.Length == w * h && Inset(m, w, h, 3)
    requires cp == 258 + (At(img[..], w, h, m) as int) && p0 == Idx(w, m) - 3*w - 1
    ensures x == RowMoment(img[..], bp, w, h, m, -3, -3) + RowMoment(img[..], bp, w, h, m, -2, -3)
      + RowMoment(img[..], bp, w, h, m, -1, -3)
    ensures y == -3 * RowFrom(img[..], bp, w, h, m, -3, -3) - 2 * RowFrom(img[..], bp, w, h, m, -2, -3)
      - RowFrom(img[..], bp, w, h, m, -1, -3)
    ensures p == Idx(w, m) - w + 3
  {
    var a, n;
    p := p0;
    a, n, p := Row3Moment(img, bp, w, h, m, -3, cp, p); x, y := a, -3*n; p := p + w - 3;
    a, n, p := Row5Moment(img, bp, w, h, m, -2, cp, p); x, y := x + a, y - 2*n; p := p + w - 5;
    a, n, p := Row7Moment(img, bp, w, h, m, -1, cp, p); x, y := x + a, y - n;
  }

  /** Rows 1 to 3. */
  method LowerMoments(img: array<Pixel>, bp: Table, w: int, ghost h: int, ghost m: Point, cp: int, p0: int)
    returns (x: int, y: int)
    requires img.Length == w * h && Inset(m, w, h, 3)
    requires cp == 258 + (At(img[..], w, h, m) as int) && p0 == Idx(w, m) + w - 3
    ensures x == RowMoment(img[..], bp, w, h, m, 1, -3) + RowMoment(img[..], bp, w, h, m, 2, -3)
      + RowMoment(img[..], bp, w, h, m, 3, -3)
    ensures y == RowFrom(img[..], bp, w, h, m, 1, -3) + 2 * RowFrom(img[..], bp, w, h, m, 2, -3)
      + 3 * RowFrom(img[..], bp, w, h, m, 3, -3)
  {
    var a, n;
    var p := p0;
    a, n, p := Row7Moment(img, bp, w, h, m, 1, cp, p); x, y := a, n; p := p + w - 5;
    a, n, p := Row5Moment(img, bp, w, h, m, 2, cp, p); x, y := x + a, y + 2*n; p := p + w - 3;
    a, n, p := Row3Moment(img, bp, w, h, m, 3, cp, p); x, y := x + a, y + 3*n;
  }

  /** The second walk over the mask of entry k leaves its first moments in x and y. */
  method Moments(img: array<Pixel>, bp: Table, w: int, ghost h: int, ghost m: Point, k: int, cp: int)
    returns (x: int, y: int)
    requires img.Length == w * h && Inset(m, w, h, 3) && k == Idx(w, m) && cp == 258 + (At(img[..], w, h, m) as int)
    ensures x == MomentX(img[..], bp, w, h, m, -3) && y == MomentY(img[..], bp, w, h, m, -3)
  {
    MomentRows(img[..], bp, w, h, m);
    var p := k - 3*w - 1;
    var a, b;
    x, y, p := UpperMoments(img, bp, w, h, m, cp, p);
    p := p + w - 6;
    a, p := CentreRowMoment(img, bp, w, h, m, cp, p);
    p := p + w - 6;
    x := x + a;
    a, b := LowerMoments(img, bp, w, h, m, cp, p);
    x, y := x + a, y + b;
  }

  // ---- Three pixels towards the centre of gravity -----------------------------------

  function Trunc(a: real): int {
    if a >= 0.0 then a.Floor else -((-a).Floor)
  }

  /** FTOI: round half away from zero. */
  function Ftoi(a: real): int {
    if a < 0.0 then Trunc(a - 0.5) else Trunc(a + 0.5)
  }

  function Sign(v: int): int {
    if v < 0 then -1 else 1
  }

  function Abs(v: int): int {
    if v < 0 then -v else v
  }

  /** Pixel t on the way from the centre in direction (x, y): t steps along the longer
      axis, and the rounded share of the other. */
  function Towards(x: int, y: int, t: int): (q: Point)
    requires x != 0 || y != 0
  {
    if y * y < x * x then P(Ftoi(t as real * (y as real / Abs(x) as real)), t * Sign(x))
    else
      SquareOrder(y, x);
      P(t * Sign(y), Ftoi(t as real * (x as real / Abs(y) as real)))
  }

  lemma FtoiIsNearest(a: real)
    ensures -0.5 <= Ftoi(a) as real - a <= 0.5
  {
  }

  /** Halves are rounded away from zero. */
  lemma FtoiTies(n: int)
    ensures Ftoi(n as real + 0.5) == if n >= 0 then n + 1 else n
  {
  }

  lemma SquareLess(a: nat, b: nat)
    ensures a < b ==> a * a < b * b
    ensures a <= b ==> a * a <= b * b
  {
    if a <= b {
      MulLe(a, b, a);
      MulLe(a, b, b);
    }
  }

  lemma SquareOfAbs(a: int)
    ensures a * a == Abs(a) * Abs(a)
  {
  }

  lemma SquareOrder(a: int, b: int)
    ensures a * a < b * b <==> Abs(a) < Abs(b)
  {
    SquareOfAbs(a);
    SquareOfAbs(b);
    SquareLess(Abs(a), Abs(b));
    SquareLess(Abs(b), Abs(a));
  }

  lemma ShareIsSmall(a: int, b: int, t: int)
    requires 0 <= t <= 3 && b != 0 && Abs(a) <= Abs(b)
    ensures -t <= Ftoi(t as real * (a as real / Abs(b) as real)) <= t
  {
    UnitQuotient(a, b);
    RoundedShare(t, a as real / Abs(b) as real);
  }

  lemma RoundedShare(t: int, q: real)
    requires -1.0 <= q <= 1.0 && 0 <= t
    ensures -t <= Ftoi(t as real * q) <= t
  {
    var a := t as real * q;
    ScaledShare(t as real, q, a);
    FtoiWithin(a, t);
  }

  lemma UnitQuotient(a: int, b: int)
    requires b != 0 && Abs(a) <= Abs(b)
    ensures -1.0 <= a as real / Abs(b) as real <= 1.0
  {
    UnitReal(a as real, Abs(b) as real);
  }

  lemma UnitReal(a: real, n: real)
    requires n > 0.0 && -n <= a <= n
    ensures -1.0 <= a / n <= 1.0
  {
    var q := a / n;
    assert q * n == a;
    UnitScale(q, n);
  }

  lemma ScaledShare(t: real, q: real, a: real)
    requires -1.0 <= q <= 1.0 && 0.0 <= t && a == t * q
    ensures -t <= a <= t
  {
    assert t * (1.0 - q) >= 0.0;
    assert t * (1.0 + q) >= 0.0;
  }

  lemma FtoiWithin(a: real, t: int)
    requires 0 <= t && -(t as real) <= a <= t as real
    ensures -t <= Ftoi(a) <= t
  {
  }

  lemma UnitScale(q: real, n: real)
    requires n > 0.0
    ensures q > 1.0 ==> q * n > n
    ensures q < -1.0 ==> q * n < -n
  {
    if q > 1.0 { assert (q - 1.0) * n > 0.0; }
    if q < -1.0 { assert (-1.0 - q) * n > 0.0; }
  }

  /** The three samples stay within reach of the mask, so five pixels inside they are in
      the image. */
  lemma TowardsInReach(x: int, y: int, t: int)
    requires (x != 0 || y != 0) && 1 <= t <= 3
    ensures -3 <= Towards(x, y, t).y <= 3 && -3 <= Towards(x, y, t).x <= 3
  {
    SquareOrder(y, x);
    if y * y < x * x {
      ShareIsSmall(y, x, t);
    } else {
      ShareIsSmall(x, y, t);
    }
  }

  /** Sample t lies t steps along the longer axis, on the side of (x, y), and as near to
      the line through (x, y) as a pixel can be. */
  ghost predicate OnTheWay(long: int, short: int, t: int, along: int, across: int) {
    along * Abs(long) == t * long && 2 * Abs(across * Abs(long) - t * short) <= Abs(long)
  }

  lemma TowardsMeans(x: int, y: int, t: int)
    requires (x != 0 || y != 0) && 1 <= t <= 3
    ensures var q := Towards(x, y, t);
      if y * y < x * x then OnTheWay(x, y, t, q.x, q.y) else OnTheWay(y, x, t, q.y, q.x)
  {
    SquareOrder(y, x);
    if y * y < x * x {
      StepsAlong(x, t);
      ShareIsNearest(y, x, t);
    } else {
      StepsAlong(y, t);
      ShareIsNearest(x, y, t);
    }
  }

  lemma StepsAlong(v: int, t: int)
    requires v != 0
    ensures (t * Sign(v)) * Abs(v) == t * v
  {
    assert Sign(v) * Abs(v) == v;
  }

  lemma ShareIsNearest(a: int, b: int, t: int)
    requires b != 0
    ensures 2 * Abs(Ftoi(t as real * (a as real / Abs(b) as real)) * Abs(b) - t * a) <= Abs(b)
  {
    var v := t as real * (a as real / Abs(b) as real);
    FtoiIsNearest(v);
    NearestReal(t as real, a as real, Abs(b) as real, Ftoi(v) as real);
    NearestInt(Ftoi(v), Abs(b), t, a);
  }

  lemma NearestReal(t: real, a: real, n: real, k: real)
    requires n > 0.0 && -0.5 <= k - t * (a / n) <= 0.5
    ensures -n <= 2.0 * (k * n - t * a) <= n
  {
    var v := t * (a / n);
    TimesDenominator(t, a, n);
    var p := v * n;
    assert p == t * a;
    var e := k - v;
    ErrorScaled(k, v, n);
    ScaledError(e, n);
    var d := e * n;
    assert d == k * n - p;
  }

  lemma NearestInt(k: int, n: int, t: int, a: int)
    requires -(n as real) <= 2.0 * (k as real * n as real - t as real * a as real) <= n as real
    ensures 2 * Abs(k * n - t * a) <= n
  {
    RealProduct(k, n);
    RealProduct(t, a);
    RealBound(k * n - t * a, n);
  }

  lemma RealBound(x: int, n: int)
    requires -(n as real) <= 2.0 * (x as real) <= n as real
    ensures 2 * Abs(x) <= n
  {
  }

  lemma TimesDenominator(t: real, a: real, n: real)
    requires n > 0.0
    ensures (t * (a / n)) * n == t * a
  {
    var q := a / n;
    assert q * n == a;
    assert (t * q) * n == t * (q * n);
  }

  lemma ErrorScaled(k: real, v: real, n: real)
    ensures (k - v) * n == k * n - v * n
  {
  }

  lemma RealProduct(a: int, b: int)
    ensures (a * b) as real == a as real * b as real
  {
  }

  lemma ScaledError(e: real, n: real)
    requires -0.5 <= e <= 0.5 && n > 0.0
    ensures -n <= 2.0 * (e * n) <= n
  {
    assert (0.5 - e) * n >= 0.0;
    assert (e + 0.5) * n >= 0.0;
  }

  // ---- The test ---------------------------------------------------------------------

  /** The centre of gravity of the mask, in sums over its pixels. */
  function Gravity(img: seq<Pixel>, bp: Table, w: int, h: int, c: Point): (int, int)
    requires |img| == w * h && Inset(c, w, h, 3)
  {
    (MomentX(img, bp, w, h, c, -3), MomentY(img, bp, w, h, c, -3))
  }

  /** The similarity of the pixel t steps towards (x, y). */
  function Sample(img: seq<Pixel>, bp: Table, w: int, h: int, c: Point, x: int, y: int, t: int): int
    requires |img| == w * h && Inset(c, w, h, 3) && (x != 0 || y != 0) && 1 <= t <= 3
  {
    TowardsInReach(x, y, t);
    var q := Towards(x, y, t);
    Alike(bp, At(img, w, h, c), At(img, w, h, P(c.y + q.y, c.x + q.x)))
  }

  function Samples(img: seq<Pixel>, bp: Table, w: int, h: int, c: Point, x: int, y: int): int
    requires |img| == w * h && Inset(c, w, h, 3) && (x != 0 || y != 0)
  {
    Sample(img, bp, w, h, c, x, y, 1) + Sample(img, bp, w, h, c, x, y, 2) + Sample(img, bp, w, h, c, x, y, 3)
  }

  /** The centre of gravity is far from the centre, in relation to the area n. */
  predicate Far(x: int, y: int, n: int) {
    x * x + y * y > (n * n) / 2
  }

  /** The distance to the centre of gravity, times the square root of two, exceeds the area. */
  lemma FarMeans(x: int, y: int, n: int)
    ensures Far(x, y, n) <==> 2 * (x * x + y * y) > n * n
  {
    var m := n * n;
    assert m == 2 * (m / 2) + m % 2;
  }

  lemma FarIsSomewhere(x: int, y: int, n: int)
    requires Far(x, y, n)
    ensures x != 0 || y != 0
  {
    assert n * n >= 0;
  }

  /** The three pixels are all much like the centre. */
  lemma AllThreeAlike(img: seq<Pixel>, bp: Table, w: int, h: int, c: Point, x: int, y: int, t: int)
    requires |img| == w * h && Inset(c, w, h, 3) && (x != 0 || y != 0) && 1 <= t <= 3
    requires Samples(img, bp, w, h, c, x, y) > 290
    ensures Sample(img, bp, w, h, c, x, y, t) > 90
  {
    assert t == 1 || t == 2 || t == 3;
  }

  /** Gravity is far to one side, and three pixels that way are like the centre. */
  predicate Drawn(img: seq<Pixel>, bp: Table, w: int, h: int, c: Point, n: int)
    requires |img| == w * h && Inset(c, w, h, 3)
  {
    var (x, y) := Gravity(img, bp, w, h, c);
    Far(x, y, n) && (FarIsSomewhere(x, y, n); Samples(img, bp, w, h, c, x, y) > 290)
  }

  /** A corner: a small area, and gravity to one side. */
  predicate IsCorner(img: seq<Pixel>, bp: Table, w: int, h: int, maxNo: int, c: Point)
    requires |img| == w * h && Inset(c, w, h, 3)
  {
    Area(img, bp, w, h, c) < maxNo && Drawn(img, bp, w, h, c, Area(img, bp, w, h, c))
  }

  /** What susan_corners leaves in r at p. */
  function CornerResponseAt(img: seq<Pixel>, bp: Table, w: int, h: int, maxNo: int, p: Point): int
    requires |img| == w * h
  {
    if Inset(p, w, h, 5) && IsCorner(img, bp, w, h, maxNo, p) then maxNo - Area(img, bp, w, h, p) else 0
  }

  /** The corner test only filters: every response it leaves is that of the principle,
      and it is positive exactly at the corners. */
  lemma CornersFilterPrinciple(img: seq<Pixel>, bp: Table, w: int, h: int, maxNo: int, p: Point)
    requires |img| == w * h
    ensures CornerResponseAt(img, bp, w, h, maxNo, p) == 0
         || CornerResponseAt(img, bp, w, h, maxNo, p) == ResponseAt(img, bp, w, h, maxNo, 3, p)
    ensures CornerResponseAt(img, bp, w, h, maxNo, p) > 0 <==> Inset(p, w, h, 5) && IsCorner(img, bp, w, h, maxNo, p)
  {
  }

  /** Division as in C. */
  function Quotient(a: int, b: int): int
    requires b > 0
  {
    if a < 0 then -((-a) / b) else a / b
  }

  /** The gradient of a corner: its centre of gravity times 51. */
  function GradientAt(img: seq<Pixel>, bp: Table, w: int, h: int, c: Point): (int, int)
    requires |img| == w * h && Inset(c, w, h, 3)
  {
    var (x, y), n := Gravity(img, bp, w, h, c), Area(img, bp, w, h, c);
    (Quotient(51 * x, n), Quotient(51 * y, n))
  }

  /** The gradient points to the centre of gravity: it is 51 times as far, in units of the
      area, without the fraction. */
  lemma GradientMeans(img: seq<Pixel>, bp: Table, w: int, h: int, c: Point)
    requires |img| == w * h && Inset(c, w, h, 3)
    ensures var (x, y), (gx, gy) := Gravity(img, bp, w, h, c), GradientAt(img, bp, w, h, c);
      var n := Area(img, bp, w, h, c);
      Truncates(gx, 51 * x, n) && Truncates(gy, 51 * y, n)
  {
    QuotientTruncates(51 * Gravity(img, bp, w, h, c).0, Area(img, bp, w, h, c));
    QuotientTruncates(51 * Gravity(img, bp, w, h, c).1, Area(img, bp, w, h, c));
  }

  /** q is a / b with its fraction cut off. */
  ghost predicate Truncates(q: int, a: int, b: int) {
    (a >= 0 ==> 0 <= q && 0 <= a - q * b < b) && (a <= 0 ==> q <= 0 && 0 <= q * b - a < b)
  }

  lemma QuotientTruncates(a: int, b: int)
    requires b > 0
    ensures Truncates(Quotient(a, b), a, b)
  {
    var m := Abs(a);
    assert m == m / b * b + m % b;
    assert m / b >= 0;
    assert (-(m / b)) * b == -(m / b * b);
  }

  method SampleAt(img: array<Pixel>, bp: Table, w: int, ghost h: int, ghost c: Point, k: int, x: int, y: int, t: int)
    returns (n: int)
    requires img.Length == w * h && Inset(c, w, h, 3) && k == Idx(w, c) && (x != 0 || y != 0) && 1 <= t <= 3
    ensures n == Sample(img[..], bp, w, h, c, x, y, t)
  {
    TowardsInReach(x, y, t);
    var q := Towards(x, y, t);
    EntryAt(img[..], w, h, c, q.y, q.x);
    n := bp[258 + (img[k] as int) - img[k + q.y * w + q.x]];
  }

  /** The three reads towards the centre of gravity. */
  method SampleSum(img: array<Pixel>, bp: Table, w: int, ghost h: int, ghost c: Point, k: int, x: int, y: int)
    returns (sq: int)
    requires img.Length == w * h && Inset(c, w, h, 3) && k == Idx(w, c) && (x != 0 || y != 0)
    ensures sq == Samples(img[..], bp, w, h, c, x, y)
  {
    var s1 := SampleAt(img, bp, w, h, c, k, x, y, 1);
    var s2 := SampleAt(img, bp, w, h, c, k, x, y, 2);
    var s3 := SampleAt(img, bp, w, h, c, k, x, y, 3);
    sq := s1 + s2 + s3;
  }

  /** The part of the test after the area n has come out small. */
  method TestGravity(img: array<Pixel>, bp: Table, w: int, ghost h: int, ghost c: Point, k: int, n: int)
    returns (corner: bool, x: int, y: int)
    requires img.Length == w * h && Inset(c, w, h, 3) && k == Idx(w, c)
    ensures (x, y) == Gravity(img[..], bp, w, h, c) && corner == Drawn(img[..], bp, w, h, c, n)
  {
    IdxInRange(w, h, c);
    x, y := Moments(img, bp, w, h, c, k, 258 + (img[k] as int));
    corner := false;
    if x*x + y*y > (n*n) / 2 {
      FarIsSomewhere(x, y, n);
      var sq := SampleSum(img, bp, w, h, c, k, x, y);
      corner := sq > 290;
    }
  }

  /** The ladder, in terms of the area. */
  method SmallArea(img: array<Pixel>, bp: Table, w: int, ghost h: int, maxNo: int, ghost c: Point, k: int)
    returns (n: int)
    requires img.Length == w * h && Inset(c, w, h, 3) && k == Idx(w, c)
    ensures if Area(img[..], bp, w, h, c) < maxNo then n == Area(img[..], bp, w, h, c) else n >= maxNo
  {
    ghost var full := ResponseFromReads(img[..], bp, w, h, maxNo, c, k);
    n := LadderAll(img, bp, w, k, maxNo);
  }

  /** What the tests found, put together. */
  lemma CornerResponseIs(img: seq<Pixel>, bp: Table, w: int, h: int, maxNo: int, c: Point, n: int, corner: bool)
    requires |img| == w * h && Inset(c, w, h, 5)
    requires if Area(img, bp, w, h, c) < maxNo then n == Area(img, bp, w, h, c) else n >= maxNo
    requires n < maxNo ==> corner == Drawn(img, bp, w, h, c, n)
    ensures CornerResponseAt(img, bp, w, h, maxNo, c) == if n < maxNo && corner then maxNo - n else 0
  {
  }

  /** The body of the response loop: r, and the gradient where there is a corner. */
  method CornerValue(img: array<Pixel>, bp: Table, w: int, ghost h: int, maxNo: int, ghost c: Point, k: int)
    returns (v: int, gx: int, gy: int)
    requires img.Length == w * h && Inset(c, w, h, 5) && k == Idx(w, c)
    ensures v == CornerResponseAt(img[..], bp, w, h, maxNo, c)
    ensures v > 0 ==> (gx, gy) == GradientAt(img[..], bp, w, h, c)
  {
    v, gx, gy := 0, 0, 0;
    var corner, x, y := false, 0, 0;
    var n := SmallArea(img, bp, w, h, maxNo, c, k);
    if n < maxNo {
      corner, x, y := TestGravity(img, bp, w, h, c, k, n);
      if corner {
        v, gx, gy := maxNo - n, Quotient(51 * x, n), Quotient(51 * y, n);
      }
    }
    CornerResponseIs(img[..], bp, w, h, maxNo, c, n, corner);
  }

  // ---- The response loop ------------------------------------------------------------

  /** The image, and what the test depends on. */
  datatype View = View(img: seq<Pixel>, bp: Table, w: int, h: int, maxNo: int) {
    predicate Ok() {
      |img| == w * h
    }
  }

  /** The buffers the loop writes. */
  datatype Answers = Answers(r: seq<int>, cgx: seq<int>, cgy: seq<int>) {
    predicate Sized(n: int) {
      |r| == |cgx| == |cgy| == n
    }
  }

  /** What the three buffers hold at a pixel the loop has passed. */
  ghost predicate Answered(s: View, a: Answers, p: Point)
    requires s.Ok() && a.Sized(s.w * s.h) && Inside(p, s.w, s.h)
  {
    && At(a.r, s.w, s.h, p) == CornerResponseAt(s.img, s.bp, s.w, s.h, s.maxNo, p)
    && (At(a.r, s.w, s.h, p) > 0 && Inset(p, s.w, s.h, 5) ==>
          (At(a.cgx, s.w, s.h, p), At(a.cgy, s.w, s.h, p)) == GradientAt(s.img, s.bp, s.w, s.h, p))
  }

  /** Answered before (i, j), zero from there on. */
  ghost predicate AnsweredAt(s: View, a: Answers, i: int, j: int, p: Point)
    requires s.Ok() && a.Sized(s.w * s.h) && Inside(p, s.w, s.h)
  {
    if Before(p, i, j) then Answered(s, a, p) else At(a.r, s.w, s.h, p) == 0
  }

  ghost predicate AnsweredTo(s: View, a: Answers, i: int, j: int) {
    && s.Ok() && a.Sized(s.w * s.h)
    && forall p :: Inside(p, s.w, s.h) ==> AnsweredAt(s, a, i, j, p)
  }

  /** Two sets of buffers agree at p. */
  ghost predicate SameAt(a: Answers, b: Answers, w: int, h: int, p: Point)
    requires a.Sized(w * h) && b.Sized(w * h) && Inside(p, w, h)
  {
    At(a.r, w, h, p) == At(b.r, w, h, p) && At(a.cgx, w, h, p) == At(b.cgx, w, h, p)
    && At(a.cgy, w, h, p) == At(b.cgy, w, h, p)
  }

  lemma AnsweredStep(s: View, a: Answers, b: Answers, i: int, j: int)
    requires AnsweredTo(s, a, i, j) && b.Sized(s.w * s.h)
    requires Inside(P(i, j), s.w, s.h) && Answered(s, b, P(i, j))
    requires forall p :: Inside(p, s.w, s.h) && p != P(i, j) ==> SameAt(b, a, s.w, s.h, p)
    ensures AnsweredTo(s, b, i, j + 1)
  {
    forall p | Inside(p, s.w, s.h) ensures AnsweredAt(s, b, i, j + 1, p) {
      if p != P(i, j) {
        assert AnsweredAt(s, a, i, j, p) && SameAt(b, a, s.w, s.h, p);
      }
    }
  }

  /** Pixels outside the margin count as answered from the start. */
  lemma AnsweredStart(s: View, a: Answers)
    requires s.Ok() && a.Sized(s.w * s.h)
    requires forall p :: Inside(p, s.w, s.h) ==> At(a.r, s.w, s.h, p) == 0
    ensures AnsweredTo(s, a, 5, 5)
  {
  }

  /** From the end of one row to the start of the next no pixel answers. */
  lemma RowsEnd(s: View, a: Answers, i: int, j: int)
    requires AnsweredTo(s, a, i, j) && s.w - 5 <= j && 0 <= i
    ensures AnsweredTo(s, a, i + 1, 5)
  {
    forall p | Inside(p, s.w, s.h) ensures AnsweredAt(s, a, i + 1, 5, p) {
      assert AnsweredAt(s, a, i, j, p);
    }
  }

  lemma LoopEnds(s: View, a: Answers, i: int)
    requires AnsweredTo(s, a, i, 5) && s.h - 5 <= i
    ensures forall p :: Inside(p, s.w, s.h) ==> Answered(s, a, p)
  {
    forall p | Inside(p, s.w, s.h) ensures Answered(s, a, p) {
      assert AnsweredAt(s, a, i, 5, p);
    }
  }

  /** Three stores for one pixel. */
  method StoreCorner(r: array<int>, cgx: array<int>, cgy: array<int>, w: int, h: int, i: int, j: int,
                     v: int, gx: int, gy: int)
    requires r.Length == cgx.Length == cgy.Length == w * h && Inside(P(i, j), w, h)
    requires r != cgx && r != cgy && cgx != cgy
    modifies r, cgx, cgy
    ensures var c, before, after := P(i, j), old(Answers(r[..], cgx[..], cgy[..])), Answers(r[..], cgx[..], cgy[..]);
      && At(after.r, w, h, c) == v && At(after.cgx, w, h, c) == gx && At(after.cgy, w, h, c) == gy
      && forall p :: Inside(p, w, h) && p != c ==> SameAt(after, before, w, h, p)
  {
    Store(r, w, h, i, j, v);
    Store(cgx, w, h, i, j, gx);
    Store(cgy, w, h, i, j, gy);
  }

  method AnswerNext(img: array<Pixel>, r: array<int>, cgx: array<int>, cgy: array<int>,
                    bp: Table, w: int, h: int, maxNo: int, i: int, j: int)
    requires img.Length == r.Length == cgx.Length == cgy.Length == w * h && Inset(P(i, j), w, h, 5)
    requires img as object != r && img as object != cgx && img as object != cgy && r != cgx && r != cgy && cgx != cgy
    requires AnsweredTo(View(img[..], bp, w, h, maxNo), Answers(r[..], cgx[..], cgy[..]), i, j)
    modifies r, cgx, cgy
    ensures AnsweredTo(View(img[..], bp, w, h, maxNo), Answers(r[..], cgx[..], cgy[..]), i, j + 1)
  {
    ghost var s, a := View(img[..], bp, w, h, maxNo), Answers(r[..], cgx[..], cgy[..]);
    var v, gx, gy := CornerValue(img, bp, w, h, maxNo, P(i, j), i * w + j);
    assert AnsweredAt(s, a, i, j, P(i, j));
    if v > 0 {
      StoreCorner(r, cgx, cgy, w, h, i, j, v, gx, gy);
    }
    AnsweredStep(s, a, Answers(r[..], cgx[..], cgy[..]), i, j);
  }

  /** The response loop of susan_corners. */
  method SusanCornerResponses(img: array<Pixel>, r: array<int>, cgx: array<int>, cgy: array<int>,
                              bp: Table, w: int, h: int, maxNo: int)
    requires img.Length == r.Length == cgx.Length == cgy.Length == w * h
    requires img as object != r && img as object != cgx && img as object != cgy && r != cgx && r != cgy && cgx != cgy
    modifies r, cgx, cgy
    ensures forall p :: Inside(p, w, h) ==>
      Answered(View(img[..], bp, w, h, maxNo), Answers(r[..], cgx[..], cgy[..]), p)
  {
    ghost var s := View(img[..], bp, w, h, maxNo);
    Clear(r, w, h);
    AnsweredStart(s, Answers(r[..], cgx[..], cgy[..]));
    for i := 5 to Max(5, h - 5)
      invariant AnsweredTo(s, Answers(r[..], cgx[..], cgy[..]), i, 5)
    {
      for j := 5 to Max(5, w - 5)
        invariant AnsweredTo(s, Answers(r[..], cgx[..], cgy[..]), i, j)
      {
        AnswerNext(img, r, cgx, cgy, bp, w, h, maxNo, i, j);
      }
      RowsEnd(s, Answers(r[..], cgx[..], cgy[..]), i, Max(5, w - 5));
    }
    LoopEnds(s, Answers(r[..], cgx[..], cgy[..]), Max(5, h - 5));
  }
}
