/** Edge thinning (susan_thin in susan/susan.c). `mid` below 8 marks an edge
    point. A visit to an edge point removes it, moves it, extends the line it
    ends, or leaves it, and may send the scan back. */
module Thinning {
  import opened Grid

  const MARGIN := 4
  const NO_EDGE: Pixel := 100

  // ---- One visit, as a decision --------------------------------------------

  /** What a visit does. A neighbour is named by its raster number c in the 3x3
      block, 0 at the top left and 4 for the point itself. */
  datatype Outcome =
    | Keep
    | Isolated
    | Extend(c: nat, level: Pixel)
    | Straighten(c: nat)
    | RightAngle
    | Thin

  /** Buffer distance of neighbour c. */
  function Off(w: int, c: nat): int {
    (if c < 3 then -w else if c < 6 then 0 else w) + c % 3 - 1
  }

  ghost predicate Room(w: int, k: int, size: int) {
    w > 8 && 0 <= k - 4*w - 4 && k + 4*w + 4 < size
  }

  function Edge(mid: seq<Pixel>, k: int): bool
    requires 0 <= k < |mid|
  {
    mid[k] < 8
  }

  function Near(mid: seq<Pixel>, w: int, k: int, c: nat): bool
    requires Room(w, k, |mid|) && c < 9
  {
    Edge(mid, k + Off(w, c))
  }

  function One(b: bool): int {
    if b then 1 else 0
  }

  function Neighbours(mid: seq<Pixel>, w: int, k: int): int
    requires Room(w, k, |mid|)
  {
    One(Near(mid, w, k, 0)) + One(Near(mid, w, k, 1)) + One(Near(mid, w, k, 2)) +
    One(Near(mid, w, k, 3)) + One(Near(mid, w, k, 5)) +
    One(Near(mid, w, k, 6)) + One(Near(mid, w, k, 7)) + One(Near(mid, w, k, 8))
  }

  function Sides(mid: seq<Pixel>, w: int, k: int): int
    requires Room(w, k, |mid|)
  {
    One(Near(mid, w, k, 1)) + One(Near(mid, w, k, 5)) + One(Near(mid, w, k, 7)) + One(Near(mid, w, k, 3))
  }

  /** Clockwise position around the centre, and the distance on that ring. */
  function Ring(c: nat): int {
    match c
    case 0 => 0 case 1 => 1 case 2 => 2 case 5 => 3
    case 8 => 4 case 7 => 5 case 6 => 6 case _ => 7
  }

  function RingDistance(a: nat, b: nat): int {
    var d := (Ring(a) - Ring(b)) % 8;
    if d <= 4 then d else 8 - d
  }

  /** A line may grow only away from the neighbour it has: straight ahead
      counts most, sideways least, and next to that neighbour not at all. */
  function Weight(present: nat, c: nat): int {
    if c == 4 || RingDistance(present, c) < 2 then 0 else RingDistance(present, c)
  }

  /** The weight of every pixel of the block; the centre has none. */
  function WeightRow(p: nat): (g: seq<int>)
    ensures |g| == 9
  {
    seq(9, c requires 0 <= c < 9 => Weight(p, c))
  }

  function Times(response: int, weight: int): int {
    response * weight
  }

  function Scaled(l: seq<int>, g: seq<int>): (s: seq<int>)
    requires |l| == 9 && |g| == 9
    ensures |s| == 9
  {
    seq(9, n requires 0 <= n < 9 => Times(l[n], g[n]))
  }

  function Responses(r: seq<int>, w: int, k: int): (l: seq<int>)
    requires Room(w, k, |r|)
    ensures |l| == 9
  {
    seq(9, n requires 0 <= n < 9 => r[k + Off(w, n)])
  }

  /** The responses around k, weighted: entry n belongs to neighbour n. */
  function Weighted(r: seq<int>, w: int, k: int, present: nat): (l: seq<int>)
    requires Room(w, k, |r|)
    ensures |l| == 9
  {
    Scaled(Responses(r, w, k), WeightRow(present))
  }

  /** The first neighbour in raster order that is an edge point. */
  function Present(mid: seq<Pixel>, w: int, k: int): (c: nat)
    requires Room(w, k, |mid|)
    ensures c < 9 && c != 4
  {
    if Near(mid, w, k, 0) then 0 else if Near(mid, w, k, 1) then 1
    else if Near(mid, w, k, 2) then 2 else if Near(mid, w, k, 3) then 3
    else if Near(mid, w, k, 5) then 5 else if Near(mid, w, k, 6) then 6
    else if Near(mid, w, k, 7) then 7 else 8
  }

  /** Value and number of the best of the first n entries that beats zero. */
  function Best(l: seq<int>, n: nat): (int, nat)
    requires n <= |l|
  {
    if n == 0 then (0, 4)
    else if l[n - 1] > Best(l, n - 1).0 then (l[n - 1], n - 1) else Best(l, n - 1)
  }

  /** The side of the centre that lies between two corners that are not opposite. */
  function Between(mid: seq<Pixel>, w: int, k: int): (c: nat)
    requires Room(w, k, |mid|)
    ensures c == 1 || c == 3 || c == 5 || c == 7
  {
    if Near(mid, w, k, 0) then (if Near(mid, w, k, 2) then 1 else 3)
    else if Near(mid, w, k, 2) then 5 else 7
  }

  function Hooked(mid: seq<Pixel>, w: int, k: int): bool
    requires Room(w, k, |mid|)
  {
    var b00, b02, b20, b22 := Near(mid, w, k, 0), Near(mid, w, k, 2), Near(mid, w, k, 6), Near(mid, w, k, 8);
    One(b00) + One(b02) + One(b20) + One(b22) == 2 && (b00 || b22) && (b02 || b20)
  }

  /** No edge point in the three pixels beyond side c. */
  function ClearBeyond(mid: seq<Pixel>, w: int, k: int, c: nat): bool
    requires Room(w, k, |mid|) && (c == 1 || c == 3 || c == 5 || c == 7)
  {
    var far := k + 2 * Off(w, c);
    var across := if c == 1 || c == 7 then 1 else w;
    !Edge(mid, far) && !Edge(mid, far - across) && !Edge(mid, far + across)
  }

  function OddRightAngle(mid: seq<Pixel>, w: int, k: int): bool
    requires Room(w, k, |mid|)
  {
    var b01, b12, b21, b10 := Near(mid, w, k, 1), Near(mid, w, k, 5), Near(mid, w, k, 7), Near(mid, w, k, 3);
    && Sides(mid, w, k) == 2 && (b10 || b12) && (b01 || b21)
    && ((b01 && (Edge(mid, k - 2*w - 1) || Edge(mid, k - 2*w + 1)))
        || (b10 && (Edge(mid, k - w - 2) || Edge(mid, k + w - 2)))
        || (b12 && (Edge(mid, k - w + 2) || Edge(mid, k + w + 2)))
        || (b21 && (Edge(mid, k + 2*w - 1) || Edge(mid, k + 2*w + 1))))
  }

  /** The number of separate pieces the neighbours form around the centre. */
  function Pieces(mid: seq<Pixel>, w: int, k: int): int
    requires Room(w, k, |mid|)
  {
    var b01, b12, b21, b10 := Near(mid, w, k, 1), Near(mid, w, k, 5), Near(mid, w, k, 7), Near(mid, w, k, 3);
    var p1, p2 := Near(mid, w, k, 0) || b01, Near(mid, w, k, 2) || b12;
    var p3, p4 := Near(mid, w, k, 8) || b21, Near(mid, w, k, 6) || b10;
    One(p1) + One(p2) + One(p3) + One(p4)
    - (One(b01 && p2) + One(b12 && p3) + One(b21 && p4) + One(b10 && p1))
  }

  /** The decision of one visit to edge point k. `ratio` answers the
      floating-point test that compares two responses. */
  function Decide(r: seq<int>, mid: seq<Pixel>, w: int, k: int, ratio: bool): (o: Outcome)
    requires |r| == |mid| && Room(w, k, |mid|) && Edge(mid, k)
  {
    var n := Neighbours(mid, w, k);
    if n == 0 then Isolated
    else if n == 1 then
      var best := Best(Weighted(r, w, k, Present(mid, w, k)), 9);
      if mid[k] < 6 && best.0 > 0
      then Extend(best.1, if mid[k] < 4 then 4 else mid[k] + 1)
      else Keep
    else if n == 2 then
      if Hooked(mid, w, k) then
        if ratio && ClearBeyond(mid, w, k, Between(mid, w, k)) then Straighten(Between(mid, w, k)) else Keep
      else if OddRightAngle(mid, w, k) then RightAngle else Keep
    else if Sides(mid, w, k) > 1 && Pieces(mid, w, k) < 2 then Thin else Keep
  }

  function Written(mid: seq<Pixel>, w: int, k: int, o: Outcome): seq<Pixel>
    requires Room(w, k, |mid|)
    requires o.Extend? || o.Straighten? ==> o.c < 9
  {
    match o
    case Keep => mid
    case Extend(c, level) => mid[k + Off(w, c) := level]
    case Straighten(c) => mid[k := NO_EDGE][k + Off(w, c) := 3]
    case _ => mid[k := NO_EDGE]
  }

  /** Where the scan stands after a visit to row i, column j. */
  function Resume(o: Outcome, i: int, j: int): (int, int) {
    match o
    case Extend(c, _) =>
      var a, b := c / 3, c % 3;
      if a + a + b < 3 then (AtLeastMargin(i + a - 1), AtLeastMargin(j + b - 2)) else (i, j)
    case RightAngle => (AtLeastMargin(i - 1), AtLeastMargin(j - 2))
    case Thin => (AtLeastMargin(i - 1), AtLeastMargin(j - 2))
    case _ => (i, j)
  }

  function AtLeastMargin(v: int): int {
    if v < MARGIN then MARGIN else v
  }

  lemma {:induction false} BestIsFirstMaximum(l: seq<int>, n: nat)
    requires n <= |l|
    ensures var (m, b) := Best(l, n);
      && m >= 0 && (forall d :: 0 <= d < n ==> l[d] <= m)
      && (m > 0 ==> b < n && l[b] == m && forall d :: 0 <= d < b ==> l[d] < m)
  {
    if n > 0 { BestIsFirstMaximum(l, n - 1); }
  }

  // ---- The visit as the program makes it -----------------------------------

  method CountNeighbours(mid: array<Pixel>, w: int, k: int) returns (n: int)
    requires Room(w, k, mid.Length)
    ensures n == Neighbours(mid[..], w, k)
  {
    var mp := k - w - 1;
    n := One(mid[mp] < 8) + One(mid[mp + 1] < 8) + One(mid[mp + 2] < 8) +
         One(mid[mp + w] < 8) + One(mid[mp + w + 2] < 8) +
         One(mid[mp + w + w] < 8) + One(mid[mp + w + w + 1] < 8) + One(mid[mp + w + w + 2] < 8);
  }

  lemma NineEntries(s: seq<int>)
    requires |s| == 9
    ensures s == [s[0], s[1], s[2], s[3], s[4], s[5], s[6], s[7], s[8]]
  {
  }

  /** The table of weights, one row per present neighbour. */
  lemma WeightTable(p: nat)
    requires p < 9 && p != 4
    ensures WeightRow(p) ==
      match p
      case 0 => [0, 0, 2, 0, 0, 3, 2, 3, 4]
      case 1 => [0, 0, 0, 2, 0, 2, 3, 4, 3]
      case 2 => [2, 0, 0, 3, 0, 0, 4, 3, 2]
      case 3 => [0, 2, 3, 0, 0, 4, 0, 2, 3]
      case 5 => [3, 2, 0, 4, 0, 0, 3, 2, 0]
      case 6 => [2, 3, 4, 0, 0, 3, 0, 0, 2]
      case 7 => [3, 4, 3, 2, 0, 2, 0, 0, 0]
      case _ => [4, 3, 2, 3, 0, 0, 2, 0, 0]
  {
    match p
    case 0 => WeightRow0();
    case 1 => WeightRow1();
    case 2 => WeightRow2();
    case 3 => WeightRow3();
    case 5 => WeightRow5();
    case 6 => WeightRow6();
    case 7 => WeightRow7();
    case _ => WeightRow8();
  }

  lemma WeightRow0() ensures WeightRow(0) == [0, 0, 2, 0, 0, 3, 2, 3, 4] { NineEntries(WeightRow(0)); }

  lemma WeightRow1() ensures WeightRow(1) == [0, 0, 0, 2, 0, 2, 3, 4, 3] { NineEntries(WeightRow(1)); }

  lemma WeightRow2() ensures WeightRow(2) == [2, 0, 0, 3, 0, 0, 4, 3, 2] { NineEntries(WeightRow(2)); }

  lemma WeightRow3() ensures WeightRow(3) == [0, 2, 3, 0, 0, 4, 0, 2, 3] { NineEntries(WeightRow(3)); }

  lemma WeightRow5() ensures WeightRow(5) == [3, 2, 0, 4, 0, 0, 3, 2, 0] { NineEntries(WeightRow(5)); }

  lemma WeightRow6() ensures WeightRow(6) == [2, 3, 4, 0, 0, 3, 0, 0, 2] { NineEntries(WeightRow(6)); }

  lemma WeightRow7() ensures WeightRow(7) == [3, 4, 3, 2, 0, 2, 0, 0, 0] { NineEntries(WeightRow(7)); }

  lemma WeightRow8() ensures WeightRow(8) == [4, 3, 2, 3, 0, 0, 2, 0, 0] { NineEntries(WeightRow(8)); }

  lemma ScaledListed(l: seq<int>, g: seq<int>)
    requires |l| == 9 && |g| == 9
    ensures Scaled(l, g) ==
      [Times(l[0], g[0]), Times(l[1], g[1]), Times(l[2], g[2]),
       Times(l[3], g[3]), Times(l[4], g[4]), Times(l[5], g[5]),
       Times(l[6], g[6]), Times(l[7], g[7]), Times(l[8], g[8])]
  {
    NineEntries(Scaled(l, g));
  }

  lemma ResponsesListed(r: seq<int>, w: int, k: int)
    requires Room(w, k, |r|)
    ensures Responses(r, w, k) ==
      [r[k - w - 1], r[k - w], r[k - w + 1], r[k - 1], r[k], r[k + 1], r[k + w - 1], r[k + w], r[k + w + 1]]
  {
    NineEntries(Responses(r, w, k));
  }

  /** The weighted responses around the end of a line. */
  method WeighNeighbours(r: array<int>, mid: array<Pixel>, w: int, k: int) returns (l: seq<int>)
    requires r.Length == mid.Length && Room(w, k, mid.Length)
    requires Neighbours(mid[..], w, k) == 1
    ensures l == Weighted(r[..], w, k, Present(mid[..], w, k))
  {
    l := [r[k - w - 1], r[k - w], r[k - w + 1],
          r[k - 1], 0, r[k + 1],
          r[k + w - 1], r[k + w], r[k + w + 1]];
    ResponsesListed(r[..], w, k);
    WeightTable(Present(mid[..], w, k));
    ScaledListed(Responses(r[..], w, k), WeightRow(Present(mid[..], w, k)));
    if mid[k - w - 1] < 8 {
      l := [0, 0, l[2]*2, 0, l[4], l[5]*3, l[6]*2, l[7]*3, l[8]*4];
    } else if mid[k - w] < 8 {
      l := [0, 0, 0, l[3]*2, l[4], l[5]*2, l[6]*3, l[7]*4, l[8]*3];
    } else if mid[k - w + 1] < 8 {
      l := [l[0]*2, 0, 0, l[3]*3, l[4], 0, l[6]*4, l[7]*3, l[8]*2];
    } else if mid[k - 1] < 8 {
      l := [0, l[1]*2, l[2]*3, 0, l[4], l[5]*4, 0, l[7]*2, l[8]*3];
    } else if mid[k + 1] < 8 {
      l := [l[0]*3, l[1]*2, 0, l[3]*4, l[4], 0, l[6]*3, l[7]*2, 0];
    } else if mid[k + w - 1] < 8 {
      l := [l[0]*2, l[1]*3, l[2]*4, 0, l[4], l[5]*3, 0, 0, l[8]*2];
    } else if mid[k + w] < 8 {
      l := [l[0]*3, l[1]*4, l[2]*3, l[3]*2, l[4], l[5]*2, 0, 0, 0];
    } else if mid[k + w + 1] < 8 {
      l := [l[0]*4, l[1]*3, l[2]*2, l[3]*3, l[4], 0, l[6]*2, 0, 0];
    }
  }

  method FindHighest(l: seq<int>) returns (m: int, a: int, b: int)
    requires |l| == 9
    ensures 0 <= a < 3 && 0 <= b < 3 && (m, a + a + a + b) == Best(l, 9)
  {
    m, a, b := 0, 1, 1;
    for y := 0 to 3
      invariant 0 <= a < 3 && 0 <= b < 3 && (m, a + a + a + b) == Best(l, 3 * y)
    {
      for x := 0 to 3
        invariant 0 <= a < 3 && 0 <= b < 3 && (m, a + a + a + b) == Best(l, 3 * y + x)
      {
        if l[y + y + y + x] > m { m, a, b := l[y + y + y + x], y, x; }
      }
    }
  }

  /** The written buffer and the next scan position are those of decision o. */
  twostate predicate Carries(mid: array<Pixel>, w: int, k: int, i0: int, j0: int, o: Outcome, i: int, j: int)
    requires Room(w, k, mid.Length)
    requires o.Extend? || o.Straighten? ==> o.c < 9
    reads mid
  {
    mid[..] == Written(old(mid[..]), w, k, o) && (i, j) == Resume(o, i0, j0)
  }

  lemma ExtendTarget(r: seq<int>, mid: seq<Pixel>, w: int, k: int, ratio: bool)
    requires |r| == |mid| && Room(w, k, |mid|) && Edge(mid, k)
    ensures var o := Decide(r, mid, w, k, ratio); o.Extend? || o.Straighten? ==> o.c < 9
  {
    BestIsFirstMaximum(Weighted(r, w, k, Present(mid, w, k)), 9);
  }

  method StepBack(i0: int, j0: int) returns (i: int, j: int)
    ensures i == AtLeastMargin(i0) && j == AtLeastMargin(j0)
  {
    i, j := i0, j0;
    if i < MARGIN { i := MARGIN; }
    if j < MARGIN { j := MARGIN; }
  }

  /** n == 1: extend the line if possible. */
  method ExtendLine(r: array<int>, mid: array<Pixel>, w: int, k: int, i0: int, j0: int, ratio: bool)
    returns (i: int, j: int)
    requires r.Length == mid.Length && Room(w, k, mid.Length) && r as object != mid
    requires Edge(mid[..], k) && Neighbours(mid[..], w, k) == 1
    modifies mid
    ensures var o := Decide(old(r[..]), old(mid[..]), w, k, ratio);
      && (o.Extend? || o.Straighten? ==> o.c < 9)
      && Carries(mid, w, k, i0, j0, o, i, j)
  {
    i, j := i0, j0;
    if mid[k] < 6 {
      var l := WeighNeighbours(r, mid, w, k);
      var m, a, b := FindHighest(l);
      BestIsFirstMaximum(l, 9);
      if m > 0 {
        i, j := WriteExtension(mid, w, k, i, j, a, b);
      }
    }
  }

  /** The new point, and the jump back when it lies before the next pixel of the scan. */
  method WriteExtension(mid: array<Pixel>, w: int, k: int, i0: int, j0: int, a: int, b: int) returns (i: int, j: int)
    requires Room(w, k, mid.Length) && Edge(mid[..], k) && 0 <= a < 3 && 0 <= b < 3
    modifies mid
    ensures Carries(mid, w, k, i0, j0, Extend(3 * a + b, if old(mid[k]) < 4 then 4 else old(mid[k]) + 1), i, j)
  {
    i, j := i0, j0;
    mid[k + Off(w, 3 * a + b)] := if mid[k] < 4 then 4 else mid[k] + 1;
    if a + a + b < 3 {
      i, j := StepBack(i + a - 1, j + b - 2);
    }
  }

  /** n == 2, two corners: move a point back into line. */
  method StraightenPoint(r: array<int>, mid: array<Pixel>, w: int, k: int, i0: int, j0: int, ratio: bool)
    returns (i: int, j: int)
    requires r.Length == mid.Length && Room(w, k, mid.Length) && r as object != mid
    requires Edge(mid[..], k) && Neighbours(mid[..], w, k) == 2 && Hooked(mid[..], w, k)
    modifies mid
    ensures var o := Decide(old(r[..]), old(mid[..]), w, k, ratio);
      && (o.Extend? || o.Straighten? ==> o.c < 9)
      && Carries(mid, w, k, i0, j0, o, i, j)
  {
    i, j := i0, j0;
    var x, y := FindSide(mid, w, k);
    var beside := if y == 0 then 0 else if y < 0 then -w else w;  // y*w
    if ratio {
      var clear := TestBeyond(mid, w, k, x, y, beside);
      if clear {
        mid[k] := NO_EDGE;
        mid[k + beside + x] := 3;
      }
    }
  }

  /** The step to side c of the centre. */
  predicate StepsTo(c: nat, x: int, y: int) {
    (c == 1 && x == 0 && y == -1) || (c == 3 && x == -1 && y == 0)
    || (c == 5 && x == 1 && y == 0) || (c == 7 && x == 0 && y == 1)
  }

  method FindSide(mid: array<Pixel>, w: int, k: int) returns (x: int, y: int)
    requires Room(w, k, mid.Length)
    ensures StepsTo(Between(mid[..], w, k), x, y)
  {
    var b00, b02 := mid[k - w - 1] < 8, mid[k - w + 1] < 8;
    x, y := 0, 0;
    if b00 {
      if b02 { y := -1; } else { x := -1; }
    } else {
      if b02 { x := 1; } else { y := 1; }
    }
  }

  method TestBeyond(mid: array<Pixel>, w: int, k: int, x: int, y: int, beside: int) returns (clear: bool)
    requires Room(w, k, mid.Length) && StepsTo(Between(mid[..], w, k), x, y)
    requires beside == if y == 0 then 0 else if y < 0 then -w else w
    ensures clear == ClearBeyond(mid[..], w, k, Between(mid[..], w, k))
  {
    clear :=
      (x == 0 && mid[k + 2*beside] > 7 && mid[k + 2*beside - 1] > 7 && mid[k + 2*beside + 1] > 7)
      || (y == 0 && mid[k + 2*x] > 7 && mid[k + w + 2*x] > 7 && mid[k - w + 2*x] > 7);
  }

  /** n == 2 otherwise: clear an odd right angle. */
  method ClearRightAngle(r: array<int>, mid: array<Pixel>, w: int, k: int, i0: int, j0: int, ratio: bool)
    returns (i: int, j: int)
    requires r.Length == mid.Length && Room(w, k, mid.Length) && r as object != mid
    requires Edge(mid[..], k) && Neighbours(mid[..], w, k) == 2 && !Hooked(mid[..], w, k)
    modifies mid
    ensures var o := Decide(old(r[..]), old(mid[..]), w, k, ratio);
      && (o.Extend? || o.Straighten? ==> o.c < 9)
      && Carries(mid, w, k, i0, j0, o, i, j)
  {
    i, j := i0, j0;
    var b01, b12, b21, b10 := mid[k - w] < 8, mid[k + 1] < 8, mid[k + w] < 8, mid[k - 1] < 8;
    if One(b01) + One(b12) + One(b21) + One(b10) == 2 && (b10 || b12) && (b01 || b21)
      && ((b01 && (mid[k - 2*w - 1] < 8 || mid[k - 2*w + 1] < 8))
          || (b10 && (mid[k - w - 2] < 8 || mid[k + w - 2] < 8))
          || (b12 && (mid[k - w + 2] < 8 || mid[k + w + 2] < 8))
          || (b21 && (mid[k + 2*w - 1] < 8 || mid[k + 2*w + 1] < 8)))
    {
      mid[k] := NO_EDGE;
      i, j := StepBack(i - 1, j - 2);
    }
  }

  method StraightenOrClear(r: array<int>, mid: array<Pixel>, w: int, k: int, i0: int, j0: int, ratio: bool)
    returns (i: int, j: int)
    requires r.Length == mid.Length && Room(w, k, mid.Length) && r as object != mid
    requires Edge(mid[..], k) && Neighbours(mid[..], w, k) == 2
    modifies mid
    ensures var o := Decide(old(r[..]), old(mid[..]), w, k, ratio);
      && (o.Extend? || o.Straighten? ==> o.c < 9)
      && Carries(mid, w, k, i0, j0, o, i, j)
  {
    var b00, b02 := mid[k - w - 1] < 8, mid[k - w + 1] < 8;
    var b20, b22 := mid[k + w - 1] < 8, mid[k + w + 1] < 8;
    if One(b00) + One(b02) + One(b20) + One(b22) == 2 && (b00 || b22) && (b02 || b20) {
      i, j := StraightenPoint(r, mid, w, k, i0, j0, ratio);
    } else {
      i, j := ClearRightAngle(r, mid, w, k, i0, j0, ratio);
    }
  }

  /** n > 2: remove the point unless that would break the line. */
  method ThinPoint(r: array<int>, mid: array<Pixel>, w: int, k: int, i0: int, j0: int, ratio: bool)
    returns (i: int, j: int)
    requires r.Length == mid.Length && Room(w, k, mid.Length) && r as object != mid
    requires Edge(mid[..], k) && Neighbours(mid[..], w, k) > 2
    modifies mid
    ensures var o := Decide(old(r[..]), old(mid[..]), w, k, ratio);
      && (o.Extend? || o.Straighten? ==> o.c < 9)
      && Carries(mid, w, k, i0, j0, o, i, j)
  {
    i, j := i0, j0;
    var b01, b12, b21, b10 := mid[k - w] < 8, mid[k + 1] < 8, mid[k + w] < 8, mid[k - 1] < 8;
    if One(b01) + One(b12) + One(b21) + One(b10) > 1 {
      var b00, b02 := mid[k - w - 1] < 8, mid[k - w + 1] < 8;
      var b20, b22 := mid[k + w - 1] < 8, mid[k + w + 1] < 8;
      var p1, p2, p3, p4 := b00 || b01, b02 || b12, b22 || b21, b20 || b10;
      if One(p1) + One(p2) + One(p3) + One(p4)
         - (One(b01 && p2) + One(b12 && p3) + One(b21 && p4) + One(b10 && p1)) < 2
      {
        mid[k] := NO_EDGE;
        i, j := StepBack(i - 1, j - 2);
      }
    }
  }

  /** A visit to pixel (i, j): what it leaves in mid, and where the scan goes. */
  method Visit(r: array<int>, mid: array<Pixel>, w: int, k: int, i0: int, j0: int, ratio: bool)
    returns (i: int, j: int)
    requires r.Length == mid.Length && Room(w, k, mid.Length) && r as object != mid
    requires Edge(mid[..], k)
    modifies mid
    ensures var o := Decide(old(r[..]), old(mid[..]), w, k, ratio);
      && (o.Extend? || o.Straighten? ==> o.c < 9)
      && Carries(mid, w, k, i0, j0, o, i, j)
  {
    i, j := i0, j0;
    var n := CountNeighbours(mid, w, k);
    if n == 0 {
      mid[k] := NO_EDGE;
    } else if n == 1 {
      i, j := ExtendLine(r, mid, w, k, i, j, ratio);
    } else if n == 2 {
      i, j := StraightenOrClear(r, mid, w, k, i, j, ratio);
    } else {
      i, j := ThinPoint(r, mid, w, k, i, j, ratio);
    }
  }
}
