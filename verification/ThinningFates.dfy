/** What a visit of thinning does to a point, said of points alone: how many edge points
    surround it, how they touch, and what lies beyond them (susan_thin in
    susan/susan.c). */
module ThinningFates {
  import opened Arithmetic
  import opened Grid
  import opened Connectivity
  import opened Thinning
  import opened ThinningSafety

  // ---- Neighbours as points -------------------------------------------------------

  function Corners(c: Point): set<Point> {
    {P(c.y - 1, c.x - 1), P(c.y - 1, c.x + 1), P(c.y + 1, c.x - 1), P(c.y + 1, c.x + 1)}
  }

  function SidesOf(c: Point): set<Point> {
    {P(c.y - 1, c.x), P(c.y, c.x + 1), P(c.y + 1, c.x), P(c.y, c.x - 1)}
  }

  ghost function Among(s: set<Point>, e: iset<Point>): set<Point> {
    set q | q in s && q in e
  }

  /** The edge points around c. */
  ghost function Around(e: iset<Point>, c: Point): iset<Point> {
    iset q | q in e && Adjacent(q, c)
  }

  lemma RingIsAdjacent(c: Point, q: Point)
    ensures Adjacent(q, c) <==> q in Corners(c) || q in SidesOf(c)
  {
  }

  lemma AmongAdd(s: set<Point>, q: Point, e: iset<Point>)
    requires q !in s
    ensures |Among(s + {q}, e)| == |Among(s, e)| + One(q in e)
  {
    assert Among(s + {q}, e) == Among(s, e) + if q in e then {q} else {};
  }

  lemma CountFour(a: Point, b: Point, c: Point, d: Point, e: iset<Point>)
    requires a != b && a != c && a != d && b != c && b != d && c != d
    ensures |Among({a, b, c, d}, e)| == One(a in e) + One(b in e) + One(c in e) + One(d in e)
  {
    assert Among({}, e) == {};
    AmongAdd({}, a, e);
    AmongAdd({} + {a}, b, e);
    AmongAdd({} + {a} + {b}, c, e);
    AmongAdd({} + {a} + {b} + {c}, d, e);
    assert {} + {a} + {b} + {c} + {d} == {a, b, c, d};
  }

  ghost function SideCount(e: iset<Point>, c: Point): nat {
    |Among(SidesOf(c), e)|
  }

  ghost function CornerCount(e: iset<Point>, c: Point): nat {
    |Among(Corners(c), e)|
  }

  /** The nine points of the block, by raster number. */
  lemma Numbered(c: Point)
    ensures Nb(c, 0) == P(c.y - 1, c.x - 1) && Nb(c, 1) == P(c.y - 1, c.x) && Nb(c, 2) == P(c.y - 1, c.x + 1)
    ensures Nb(c, 3) == P(c.y, c.x - 1) && Nb(c, 4) == c && Nb(c, 5) == P(c.y, c.x + 1)
    ensures Nb(c, 6) == P(c.y + 1, c.x - 1) && Nb(c, 7) == P(c.y + 1, c.x) && Nb(c, 8) == P(c.y + 1, c.x + 1)
  {
  }

  lemma SideCountIs(mid: seq<Pixel>, w: int, h: int, c: Point)
    requires Spot(mid, w, h, c)
    ensures Sides(mid, w, Idx(w, c)) == SideCount(Edges(mid, w, h), c)
  {
    NearMeansEdge(mid, w, h, c, 1);
    NearMeansEdge(mid, w, h, c, 3);
    NearMeansEdge(mid, w, h, c, 5);
    NearMeansEdge(mid, w, h, c, 7);
    CountFour(P(c.y - 1, c.x), P(c.y, c.x + 1), P(c.y + 1, c.x), P(c.y, c.x - 1), Edges(mid, w, h));
  }

  function CornersSeen(mid: seq<Pixel>, w: int, k: int): int
    requires Room(w, k, |mid|)
  {
    One(Near(mid, w, k, 0)) + One(Near(mid, w, k, 2)) + One(Near(mid, w, k, 6)) + One(Near(mid, w, k, 8))
  }

  lemma CornerCountIs(mid: seq<Pixel>, w: int, h: int, c: Point)
    requires Spot(mid, w, h, c)
    ensures CornersSeen(mid, w, Idx(w, c)) == CornerCount(Edges(mid, w, h), c)
  {
    NearMeansEdge(mid, w, h, c, 0);
    NearMeansEdge(mid, w, h, c, 2);
    NearMeansEdge(mid, w, h, c, 6);
    NearMeansEdge(mid, w, h, c, 8);
    CountFour(P(c.y - 1, c.x - 1), P(c.y - 1, c.x + 1), P(c.y + 1, c.x - 1), P(c.y + 1, c.x + 1), Edges(mid, w, h));
  }

  lemma NeighboursSplit(mid: seq<Pixel>, w: int, k: int)
    requires Room(w, k, |mid|)
    ensures Neighbours(mid, w, k) == Sides(mid, w, k) + CornersSeen(mid, w, k)
  {
  }

  /** The counts of the program are the numbers of edge points beside and around c. */
  lemma CountsAre(mid: seq<Pixel>, w: int, h: int, c: Point)
    requires Spot(mid, w, h, c)
    ensures var e, k := Edges(mid, w, h), Idx(w, c);
      && Sides(mid, w, k) == SideCount(e, c) && CornersSeen(mid, w, k) == CornerCount(e, c)
      && Neighbours(mid, w, k) == SideCount(e, c) + CornerCount(e, c)
  {
    SideCountIs(mid, w, h, c);
    CornerCountIs(mid, w, h, c);
    NeighboursSplit(mid, w, Idx(w, c));
  }

  // ---- One piece, and more than one --------------------------------------------------

  /** The edge points around c hang together among themselves. */
  ghost predicate OnePieceAround(e: iset<Point>, c: Point) {
    forall u, v :: u in Around(e, c) && v in Around(e, c) ==> Connected(Around(e, c), u, v)
  }

  lemma SameComponentConnects(e: iset<Point>, u: Point, v: Point)
    requires u in e && v in e && Component(e, u) == Component(e, v)
    ensures Connected(e, u, v)
  {
    ConnectedSelf(e, v);
    assert v in Component(e, v);
  }

  /** A crossing number below two means one piece. */
  lemma FewCrossingsOnePiece(mid: seq<Pixel>, w: int, h: int, c: Point)
    requires Spot(mid, w, h, c) && Pieces(mid, w, Idx(w, c)) < 2
    ensures OnePieceAround(Edges(mid, w, h), c)
  {
    var e := Edges(mid, w, h);
    var ring, b := Around(e, c), BlockOf(mid, w, h, c);
    forall n | 0 <= n < 9 && n != 4 ensures b[n] <==> Nb(c, n) in ring {
      assert Adjacent(Nb(c, n), c);
    }
    PiecesFromBlock(mid, w, Idx(w, c), b);
    RingLabels(ring, c, b);
    OnePiece(b, Labels(ring, c));
    forall u, v | u in ring && v in ring ensures Connected(ring, u, v) {
      var m := AdjacentIsNb(u, c);
      var n := AdjacentIsNb(v, c);
      assert Labels(ring, c)[m] == Labels(ring, c)[n];
      SameComponentConnects(ring, u, v);
    }
  }

  /** A path does not leave a set that nothing in e touches from outside. */
  lemma {:induction false} PathStays(e: iset<Point>, s: iset<Point>, path: seq<Point>)
    requires IsPath(e, path) && path[0] in s
    requires forall p, q :: p in s && q in e && Adjacent(p, q) ==> q in s
    ensures path[|path| - 1] in s
    decreases |path|
  {
    if |path| > 1 {
      var init := path[..|path| - 1];
      assert IsPath(e, init);
      PathStays(e, s, init);
      assert Adjacent(path[|path| - 2], path[|path| - 2 + 1]);
    }
  }

  lemma SeparateMeansApart(e: iset<Point>, s: iset<Point>, u: Point, v: Point)
    requires u in s && v !in s
    requires forall p, q :: p in s && q in e && Adjacent(p, q) ==> q in s
    ensures !Connected(e, u, v)
  {
    if Connected(e, u, v) {
      var path :| IsPath(e, path) && path[0] == u && path[|path| - 1] == v;
      PathStays(e, s, path);
    }
  }

  /** A corner point whose two sides are clear touches no other point around c. */
  lemma LoneCornerApart(ring: iset<Point>, c: Point, u: Point, v: Point)
    requires (forall q :: q in ring ==> Adjacent(q, c)) && u in ring && v in ring && u != v && u in Corners(c)
    requires P(u.y, c.x) !in ring && P(c.y, u.x) !in ring
    ensures !Connected(ring, u, v)
  {
    SeparateMeansApart(ring, iset{u}, u, v);
  }

  /** With the sides above and below clear, left and right do not touch. */
  lemma ColumnsApart(ring: iset<Point>, c: Point, u: Point, v: Point)
    requires (forall q :: q in ring ==> Adjacent(q, c)) && u in ring && v in ring && u.x < c.x < v.x
    requires P(c.y - 1, c.x) !in ring && P(c.y + 1, c.x) !in ring
    ensures !Connected(ring, u, v)
  {
    var half := iset q | q in ring && q.x < c.x;
    SeparateMeansApart(ring, half, u, v);
  }

  lemma RowsApart(ring: iset<Point>, c: Point, u: Point, v: Point)
    requires (forall q :: q in ring ==> Adjacent(q, c)) && u in ring && v in ring && u.y < c.y < v.y
    requires P(c.y, c.x - 1) !in ring && P(c.y, c.x + 1) !in ring
    ensures !Connected(ring, u, v)
  {
    var half := iset q | q in ring && q.y < c.y;
    SeparateMeansApart(ring, half, u, v);
  }

  /** A corner is present, the sides s and t next to it are clear, and so is something else. */
  predicate LoneCorner(b: seq<bool>, corner: nat, s: nat, t: nat, n: nat)
    requires |b| == 9 && corner < 9 && s < 9 && t < 9
  {
    n < 9 && n != 4 && n != corner && b[corner] && !b[s] && !b[t] && b[n]
  }

  /** The first of some numbers whose entry is set. */
  function FirstOf(b: seq<bool>, x: nat, y: nat, z: nat): (n: nat)
    requires |b| == 9 && x < 9 && y < 9 && z < 9
    ensures n == x || n == y || n == z
    ensures b[x] || b[y] || b[z] ==> b[n]
  {
    if b[x] then x else if b[y] then y else z
  }

  /** Some entry other than `corner` and the centre. */
  function Other(b: seq<bool>, corner: nat): (n: nat)
    requires |b| == 9
    ensures n < 9 && n != 4
  {
    if b[0] && corner != 0 then 0 else if b[1] && corner != 1 then 1 else if b[2] && corner != 2 then 2
    else if b[3] && corner != 3 then 3 else if b[5] && corner != 5 then 5 else if b[6] && corner != 6 then 6
    else if b[7] && corner != 7 then 7 else 8
  }

  /** With two crossings or more there is a lone corner, or two opposite sides are clear
      and both halves are occupied. */
  lemma TwoPiecesSeparate(b: seq<bool>)
    requires |b| == 9 && !b[4] && PiecesOf(b) >= 2
    ensures LoneCorner(b, 0, 1, 3, Other(b, 0)) || LoneCorner(b, 2, 1, 5, Other(b, 2))
         || LoneCorner(b, 8, 5, 7, Other(b, 8)) || LoneCorner(b, 6, 7, 3, Other(b, 6))
         || (!b[1] && !b[7] && b[FirstOf(b, 0, 3, 6)] && b[FirstOf(b, 2, 5, 8)])
         || (!b[3] && !b[5] && b[FirstOf(b, 0, 1, 2)] && b[FirstOf(b, 6, 7, 8)])
  {
  }

  lemma ManyCrossingsApart(mid: seq<Pixel>, w: int, h: int, c: Point) returns (u: Point, v: Point)
    requires Spot(mid, w, h, c) && Pieces(mid, w, Idx(w, c)) >= 2
    ensures var ring := Around(Edges(mid, w, h), c); u in ring && v in ring && !Connected(ring, u, v)
  {
    var e := Edges(mid, w, h);
    var ring, b := Around(e, c), BlockOf(mid, w, h, c);
    PiecesFromBlock(mid, w, Idx(w, c), b);
    TwoPiecesSeparate(b);
    Numbered(c);
    forall n | 0 <= n < 9 && n != 4 ensures b[n] <==> Nb(c, n) in ring {
      assert Adjacent(Nb(c, n), c);
    }
    u, v := ApartIn(ring, c, b);
  }

  lemma ApartIn(ring: iset<Point>, c: Point, b: seq<bool>) returns (u: Point, v: Point)
    requires forall q :: q in ring ==> Adjacent(q, c)
    requires |b| == 9 && !b[4] && PiecesOf(b) >= 2 && forall n :: 0 <= n < 9 && n != 4 ==> (b[n] <==> Nb(c, n) in ring)
    ensures u in ring && v in ring && !Connected(ring, u, v)
  {
    TwoPiecesSeparate(b);
    if LoneCorner(b, 0, 1, 3, Other(b, 0)) {
      u, v := Nb(c, 0), Nb(c, Other(b, 0));
      CornerApart(ring, c, b, 0, 1, 3, Other(b, 0));
    } else if LoneCorner(b, 2, 1, 5, Other(b, 2)) {
      u, v := Nb(c, 2), Nb(c, Other(b, 2));
      CornerApart(ring, c, b, 2, 1, 5, Other(b, 2));
    } else if LoneCorner(b, 8, 5, 7, Other(b, 8)) {
      u, v := Nb(c, 8), Nb(c, Other(b, 8));
      CornerApart(ring, c, b, 8, 7, 5, Other(b, 8));
    } else if LoneCorner(b, 6, 7, 3, Other(b, 6)) {
      u, v := Nb(c, 6), Nb(c, Other(b, 6));
      CornerApart(ring, c, b, 6, 7, 3, Other(b, 6));
    } else if !b[1] && !b[7] && b[FirstOf(b, 0, 3, 6)] && b[FirstOf(b, 2, 5, 8)] {
      u, v := Nb(c, FirstOf(b, 0, 3, 6)), Nb(c, FirstOf(b, 2, 5, 8));
      assert Nb(c, 1) !in ring && Nb(c, 7) !in ring;
      ColumnsApart(ring, c, u, v);
    } else {
      u, v := Nb(c, FirstOf(b, 0, 1, 2)), Nb(c, FirstOf(b, 6, 7, 8));
      assert Nb(c, 3) !in ring && Nb(c, 5) !in ring;
      RowsApart(ring, c, u, v);
    }
  }

  /** s is the side above or below the corner's column end, t the one beside its row. */
  lemma CornerApart(ring: iset<Point>, c: Point, b: seq<bool>, corner: nat, s: nat, t: nat, n: nat)
    requires forall q :: q in ring ==> Adjacent(q, c)
    requires |b| == 9 && forall n :: 0 <= n < 9 && n != 4 ==> (b[n] <==> Nb(c, n) in ring)
    requires (corner == 0 && s == 1 && t == 3) || (corner == 2 && s == 1 && t == 5)
          || (corner == 8 && s == 7 && t == 5) || (corner == 6 && s == 7 && t == 3)
    requires LoneCorner(b, corner, s, t, n)
    ensures Nb(c, corner) in ring && Nb(c, n) in ring && !Connected(ring, Nb(c, corner), Nb(c, n))
  {
    Numbered(c);
    assert Nb(c, s) !in ring && Nb(c, t) !in ring;
    LoneCornerApart(ring, c, Nb(c, corner), Nb(c, n));
  }

  // ---- The fate of a point with more than two neighbours ------------------------------

  /** The edge points after a visit to c. */
  ghost function Left(r: seq<int>, mid: seq<Pixel>, w: int, h: int, c: Point, ratio: bool): iset<Point>
    requires Spot(mid, w, h, c) && |r| == |mid|
  {
    Edges(Visited(r, mid, w, Idx(w, c), ratio), w, h)
  }

  /** An edge point with more than two edge neighbours is removed exactly when more than
      one of them is beside it and they hang together without it; nothing else changes. */
  lemma CrowdedPointRemovedIff(r: seq<int>, mid: seq<Pixel>, w: int, h: int, c: Point, ratio: bool)
    requires Spot(mid, w, h, c) && |r| == |mid|
    requires SideCount(Edges(mid, w, h), c) + CornerCount(Edges(mid, w, h), c) > 2
    ensures var e := Edges(mid, w, h);
      Left(r, mid, w, h, c, ratio) == if SideCount(e, c) > 1 && OnePieceAround(e, c) then e - iset{c} else e
    ensures var e := Edges(mid, w, h);
      Visited(r, mid, w, Idx(w, c), ratio)
        == if SideCount(e, c) > 1 && OnePieceAround(e, c) then mid[Idx(w, c) := 100] else mid
  {
    CountsAre(mid, w, h, c);
    if Pieces(mid, w, Idx(w, c)) < 2 {
      FewCrossingsOnePiece(mid, w, h, c);
    } else {
      var u, v := ManyCrossingsApart(mid, w, h, c);
    }
    WriteEdges(mid, w, h, c, NO_EDGE);
  }

  // ---- The fate of a point with no neighbour, or with two -----------------------------

  /** A point on its own is removed. */
  lemma LonelyPointRemoved(r: seq<int>, mid: seq<Pixel>, w: int, h: int, c: Point, ratio: bool)
    requires Spot(mid, w, h, c) && |r| == |mid|
    requires SideCount(Edges(mid, w, h), c) + CornerCount(Edges(mid, w, h), c) == 0
    ensures Left(r, mid, w, h, c, ratio) == Edges(mid, w, h) - iset{c}
    ensures Visited(r, mid, w, Idx(w, c), ratio) == mid[Idx(w, c) := 100]
  {
    CountsAre(mid, w, h, c);
    WriteEdges(mid, w, h, c, NO_EDGE);
  }

  /** m is a side of c next to all of its edge neighbours. */
  ghost predicate Gap(e: iset<Point>, c: Point, m: Point) {
    m in SidesOf(c) && forall q :: q in Around(e, c) ==> Adjacent(q, m)
  }

  /** Nothing touches m from beyond, as seen from c. */
  ghost predicate ClearPast(e: iset<Point>, c: Point, m: Point) {
    forall q :: q in e && Adjacent(q, m) ==> q == c || Adjacent(q, c)
  }

  /** The pixels up to two rows and columns away, in the buffer. */
  lemma FarMeansEdge(mid: seq<Pixel>, w: int, h: int, c: Point, dy: int, dx: int)
    requires Spot(mid, w, h, c) && -2 <= dy <= 2 && -2 <= dx <= 2
    ensures 0 <= Idx(w, c) + dy * w + dx < |mid|
    ensures Edge(mid, Idx(w, c) + dy * w + dx) <==> P(c.y + dy, c.x + dx) in Edges(mid, w, h)
  {
    IdxInRange(w, h, P(c.y + dy, c.x + dx));
    assert (c.y + dy) * w == c.y * w + dy * w;
  }

  lemma PastUpDown(mid: seq<Pixel>, w: int, h: int, c: Point, d: int)
    requires Spot(mid, w, h, c) && (d == -1 || d == 1)
    ensures ClearBeyond(mid, w, Idx(w, c), if d < 0 then 1 else 7) <==> ClearPast(Edges(mid, w, h), c, P(c.y + d, c.x))
  {
    FarMeansEdge(mid, w, h, c, 2 * d, -1);
    FarMeansEdge(mid, w, h, c, 2 * d, 0);
    FarMeansEdge(mid, w, h, c, 2 * d, 1);
    var e, m := Edges(mid, w, h), P(c.y + d, c.x);
    var a0, a1, a2 := P(c.y + 2 * d, c.x - 1), P(c.y + 2 * d, c.x), P(c.y + 2 * d, c.x + 1);
    assert Adjacent(a0, m) && Adjacent(a1, m) && Adjacent(a2, m);
    assert !Adjacent(a0, c) && !Adjacent(a1, c) && !Adjacent(a2, c);
    assert forall q :: Adjacent(q, m) && q != c && !Adjacent(q, c) ==>
      q.y == c.y + 2 * d && (q.x == c.x - 1 || q.x == c.x || q.x == c.x + 1);
  }

  lemma PastLeftRight(mid: seq<Pixel>, w: int, h: int, c: Point, d: int)
    requires Spot(mid, w, h, c) && (d == -1 || d == 1)
    ensures ClearBeyond(mid, w, Idx(w, c), if d < 0 then 3 else 5) <==> ClearPast(Edges(mid, w, h), c, P(c.y, c.x + d))
  {
    FarMeansEdge(mid, w, h, c, -1, 2 * d);
    FarMeansEdge(mid, w, h, c, 0, 2 * d);
    FarMeansEdge(mid, w, h, c, 1, 2 * d);
    var e, m := Edges(mid, w, h), P(c.y, c.x + d);
    var a0, a1, a2 := P(c.y - 1, c.x + 2 * d), P(c.y, c.x + 2 * d), P(c.y + 1, c.x + 2 * d);
    assert Adjacent(a0, m) && Adjacent(a1, m) && Adjacent(a2, m);
    assert !Adjacent(a0, c) && !Adjacent(a1, c) && !Adjacent(a2, c);
    assert forall q :: Adjacent(q, m) && q != c && !Adjacent(q, c) ==>
      q.x == c.x + 2 * d && (q.y == c.y - 1 || q.y == c.y || q.y == c.y + 1);
  }

  lemma PastMeans(mid: seq<Pixel>, w: int, h: int, c: Point, n: nat)
    requires Spot(mid, w, h, c) && (n == 1 || n == 3 || n == 5 || n == 7)
    ensures ClearBeyond(mid, w, Idx(w, c), n) <==> ClearPast(Edges(mid, w, h), c, Nb(c, n))
  {
    Numbered(c);
    match n
    case 1 => PastUpDown(mid, w, h, c, -1);
    case 7 => PastUpDown(mid, w, h, c, 1);
    case 3 => PastLeftRight(mid, w, h, c, -1);
    case _ => PastLeftRight(mid, w, h, c, 1);
  }

  /** Two corners on one side: the gap between them is the side the program finds. */
  lemma GapIsBetween(mid: seq<Pixel>, w: int, h: int, c: Point, m: Point)
    requires Spot(mid, w, h, c) && Gap(Edges(mid, w, h), c, m)
    requires SideCount(Edges(mid, w, h), c) == 0 && CornerCount(Edges(mid, w, h), c) == 2
    ensures Hooked(mid, w, Idx(w, c)) && m == Nb(c, Between(mid, w, Idx(w, c)))
  {
    CountsAre(mid, w, h, c);
    Numbered(c);
    var ring := Around(Edges(mid, w, h), c);
    NearMeansEdge(mid, w, h, c, 0);
    NearMeansEdge(mid, w, h, c, 2);
    NearMeansEdge(mid, w, h, c, 6);
    NearMeansEdge(mid, w, h, c, 8);
    assert Nb(c, 0) in ring <==> Near(mid, w, Idx(w, c), 0);
    assert Nb(c, 2) in ring <==> Near(mid, w, Idx(w, c), 2);
    assert Nb(c, 6) in ring <==> Near(mid, w, Idx(w, c), 6);
    assert Nb(c, 8) in ring <==> Near(mid, w, Idx(w, c), 8);
  }

  /** A point between two corner points on one side moves into the gap between them
      exactly when the responses allow it and nothing touches the gap from beyond. */
  lemma HookedPairFate(r: seq<int>, mid: seq<Pixel>, w: int, h: int, c: Point, m: Point, ratio: bool)
    requires Spot(mid, w, h, c) && |r| == |mid| && Gap(Edges(mid, w, h), c, m)
    requires SideCount(Edges(mid, w, h), c) == 0 && CornerCount(Edges(mid, w, h), c) == 2
    ensures var e := Edges(mid, w, h);
      Left(r, mid, w, h, c, ratio) == if ratio && ClearPast(e, c, m) then e - iset{c} + iset{m} else e
    ensures var k := Idx(w, m);
      && 0 <= k < |mid|
      && Visited(r, mid, w, Idx(w, c), ratio)
         == if ratio && ClearPast(Edges(mid, w, h), c, m) then mid[Idx(w, c) := 100][k := 3] else mid
  {
    IdxInRange(w, h, m);
    CountsAre(mid, w, h, c);
    GapIsBetween(mid, w, h, c, m);
    PastMeans(mid, w, h, c, Between(mid, w, Idx(w, c)));
    NearMeansEdge(mid, w, h, c, Between(mid, w, Idx(w, c)));
    StraightenedEdges(mid, w, h, c);
  }

  predicate Diagonal(p: Point, q: Point) {
    (q.y == p.y - 1 || q.y == p.y + 1) && (q.x == p.x - 1 || q.x == p.x + 1)
  }

  /** Some neighbour of c has an edge point diagonally beyond it, out of touch with c. */
  ghost predicate OddBeyond(e: iset<Point>, c: Point) {
    exists u, q :: u in Around(e, c) && q in e && Diagonal(u, q) && q != c && !Adjacent(q, c)
  }

  ghost predicate TouchEachOther(e: iset<Point>, c: Point) {
    forall u, v :: u in Around(e, c) && v in Around(e, c) ==> u == v || Adjacent(u, v)
  }

  /** A side neighbour with an edge point diagonally beyond it: the two far pixels beside
      side n, in the order of the program. */
  predicate FarBeside(mid: seq<Pixel>, w: int, k: int, n: nat)
    requires Room(w, k, |mid|) && (n == 1 || n == 3 || n == 5 || n == 7)
  {
    match n
    case 1 => Edge(mid, k - 2*w - 1) || Edge(mid, k - 2*w + 1)
    case 3 => Edge(mid, k - w - 2) || Edge(mid, k + w - 2)
    case 5 => Edge(mid, k - w + 2) || Edge(mid, k + w + 2)
    case _ => Edge(mid, k + 2*w - 1) || Edge(mid, k + 2*w + 1)
  }

  lemma FarBesideMeans(mid: seq<Pixel>, w: int, h: int, c: Point, n: nat)
    requires Spot(mid, w, h, c) && (n == 1 || n == 3 || n == 5 || n == 7)
    ensures FarBeside(mid, w, Idx(w, c), n) <==>
      exists q :: q in Edges(mid, w, h) && Diagonal(Nb(c, n), q) && q != c && !Adjacent(q, c)
  {
    var dy, dx := if n == 1 then -2 else if n == 7 then 2 else -1, if n == 3 then -2 else if n == 5 then 2 else -1;
    var dy', dx' := if n == 1 || n == 7 then dy else 1, if n == 3 || n == 5 then dx else 1;
    FarMeansEdge(mid, w, h, c, dy, dx);
    FarMeansEdge(mid, w, h, c, dy', dx');
    var a, b := P(c.y + dy, c.x + dx), P(c.y + dy', c.x + dx');
    assert Diagonal(Nb(c, n), a) && Diagonal(Nb(c, n), b) && !Adjacent(a, c) && !Adjacent(b, c) && a != c && b != c;
    assert forall q :: Diagonal(Nb(c, n), q) && q != c && !Adjacent(q, c) ==> q == a || q == b;
  }

  /** The program's test for an odd right angle, said of points. */
  lemma RightAngleMeans(mid: seq<Pixel>, w: int, h: int, c: Point)
    requires Spot(mid, w, h, c)
    requires SideCount(Edges(mid, w, h), c) + CornerCount(Edges(mid, w, h), c) == 2
    ensures var e := Edges(mid, w, h);
      OddRightAngle(mid, w, Idx(w, c)) <==> SideCount(e, c) == 2 && TouchEachOther(e, c) && OddBeyond(e, c)
  {
    var e, k := Edges(mid, w, h), Idx(w, c);
    CountsAre(mid, w, h, c);
    SidesSeen(mid, w, h, c);
    if SideCount(e, c) == 2 {
      TouchMeans(mid, w, h, c);
      BeyondMeans(mid, w, h, c);
    }
  }

  /** Which sides are edge points. */
  lemma SidesSeen(mid: seq<Pixel>, w: int, h: int, c: Point)
    requires Spot(mid, w, h, c)
    ensures forall n :: n == 1 || n == 3 || n == 5 || n == 7 ==>
      (Near(mid, w, Idx(w, c), n) <==> Nb(c, n) in Around(Edges(mid, w, h), c))
  {
    forall n | n == 1 || n == 3 || n == 5 || n == 7
      ensures Near(mid, w, Idx(w, c), n) <==> Nb(c, n) in Around(Edges(mid, w, h), c)
    {
      NearMeansEdge(mid, w, h, c, n);
      assert Adjacent(Nb(c, n), c);
    }
  }

  /** With no corner, the neighbours are sides. */
  lemma OnlySides(mid: seq<Pixel>, w: int, h: int, c: Point, u: Point)
    requires Spot(mid, w, h, c) && CornerCount(Edges(mid, w, h), c) == 0 && u in Around(Edges(mid, w, h), c)
    ensures u == Nb(c, 1) || u == Nb(c, 3) || u == Nb(c, 5) || u == Nb(c, 7)
  {
    RingIsAdjacent(c, u);
    var none := Among(Corners(c), Edges(mid, w, h));
    assert none == {} && u !in none;
  }

  lemma TouchMeans(mid: seq<Pixel>, w: int, h: int, c: Point)
    requires Spot(mid, w, h, c) && SideCount(Edges(mid, w, h), c) == 2 && CornerCount(Edges(mid, w, h), c) == 0
    ensures var k := Idx(w, c);
      TouchEachOther(Edges(mid, w, h), c) <==>
        (Near(mid, w, k, 3) || Near(mid, w, k, 5)) && (Near(mid, w, k, 1) || Near(mid, w, k, 7))
  {
    var ring := Around(Edges(mid, w, h), c);
    CountsAre(mid, w, h, c);
    SidesSeen(mid, w, h, c);
    Numbered(c);
    forall u | u in ring ensures u == Nb(c, 1) || u == Nb(c, 3) || u == Nb(c, 5) || u == Nb(c, 7) {
      OnlySides(mid, w, h, c, u);
    }
    assert !Adjacent(Nb(c, 1), Nb(c, 7)) && !Adjacent(Nb(c, 3), Nb(c, 5));
  }

  lemma BeyondMeans(mid: seq<Pixel>, w: int, h: int, c: Point)
    requires Spot(mid, w, h, c) && CornerCount(Edges(mid, w, h), c) == 0
    ensures var k := Idx(w, c);
      OddBeyond(Edges(mid, w, h), c) <==>
        || (Near(mid, w, k, 1) && FarBeside(mid, w, k, 1)) || (Near(mid, w, k, 3) && FarBeside(mid, w, k, 3))
        || (Near(mid, w, k, 5) && FarBeside(mid, w, k, 5)) || (Near(mid, w, k, 7) && FarBeside(mid, w, k, 7))
  {
    var e := Edges(mid, w, h);
    SidesSeen(mid, w, h, c);
    FarBesideMeans(mid, w, h, c, 1);
    FarBesideMeans(mid, w, h, c, 3);
    FarBesideMeans(mid, w, h, c, 5);
    FarBesideMeans(mid, w, h, c, 7);
    forall u | u in Around(e, c) ensures u == Nb(c, 1) || u == Nb(c, 3) || u == Nb(c, 5) || u == Nb(c, 7) {
      OnlySides(mid, w, h, c, u);
    }
  }

  /** Any other point with two neighbours is removed exactly when they form a right angle
      with an edge point diagonally beyond one of them. */
  lemma OtherPairFate(r: seq<int>, mid: seq<Pixel>, w: int, h: int, c: Point, ratio: bool)
    requires Spot(mid, w, h, c) && |r| == |mid|
    requires SideCount(Edges(mid, w, h), c) + CornerCount(Edges(mid, w, h), c) == 2
    requires SideCount(Edges(mid, w, h), c) > 0 || forall m :: !Gap(Edges(mid, w, h), c, m)
    ensures var e := Edges(mid, w, h);
      Left(r, mid, w, h, c, ratio) ==
        if SideCount(e, c) == 2 && TouchEachOther(e, c) && OddBeyond(e, c) then e - iset{c} else e
  {
    CountsAre(mid, w, h, c);
    if Hooked(mid, w, Idx(w, c)) {
      HookedHasGap(mid, w, h, c);
    }
    RightAngleMeans(mid, w, h, c);
    WriteEdges(mid, w, h, c, NO_EDGE);
  }

  lemma HookedHasGap(mid: seq<Pixel>, w: int, h: int, c: Point)
    requires Spot(mid, w, h, c) && Hooked(mid, w, Idx(w, c))
    requires SideCount(Edges(mid, w, h), c) + CornerCount(Edges(mid, w, h), c) == 2
    ensures SideCount(Edges(mid, w, h), c) == 0 && Gap(Edges(mid, w, h), c, Nb(c, Between(mid, w, Idx(w, c))))
  {
    CountsAre(mid, w, h, c);
    Numbered(c);
    var m := Nb(c, Between(mid, w, Idx(w, c)));
    forall q | q in Around(Edges(mid, w, h), c) ensures Adjacent(q, m) {
      CornersTouchBetween(mid, w, h, c, q);
    }
  }

  // ---- The end of a line ----------------------------------------------------------------

  /** How well pixel n of the block would continue a line that comes from neighbour p. */
  function Score(r: seq<int>, w: int, h: int, c: Point, p: nat, n: nat): int
    requires |r| == w * h && Inset(c, w, h, 4) && n < 9
  {
    Times(At(r, w, h, Nb(c, n)), Weight(p, n))
  }

  /** The first of the best continuations, if any is good at all. */
  predicate FirstBest(r: seq<int>, w: int, h: int, c: Point, p: nat, t: nat)
    requires |r| == w * h && Inset(c, w, h, 4)
  {
    && t < 9 && Score(r, w, h, c, p, t) > 0
    && (forall n :: 0 <= n < 9 ==> Score(r, w, h, c, p, n) <= Score(r, w, h, c, p, t))
    && (forall n :: 0 <= n < t ==> Score(r, w, h, c, p, n) < Score(r, w, h, c, p, t))
  }

  lemma NearAt(r: seq<int>, w: int, h: int, c: Point, n: nat)
    requires |r| == w * h && Inset(c, w, h, 4) && Room(w, Idx(w, c), |r|) && n < 9
    ensures 0 <= Idx(w, c) + Off(w, n) < |r| && Idx(w, Nb(c, n)) == Idx(w, c) + Off(w, n)
    ensures At(r, w, h, Nb(c, n)) == r[Idx(w, c) + Off(w, n)]
  {
    IdxInRange(w, h, Nb(c, n));
    if n < 3 {
      assert (c.y - 1) * w == c.y * w - w;
    } else if n >= 6 {
      assert (c.y + 1) * w == c.y * w + w;
    }
  }

  lemma WeightedIsScore(r: seq<int>, w: int, h: int, c: Point, p: nat)
    requires |r| == w * h && Inset(c, w, h, 4) && Room(w, Idx(w, c), |r|)
    ensures forall n :: 0 <= n < 9 ==> Weighted(r, w, Idx(w, c), p)[n] == Score(r, w, h, c, p, n)
  {
    forall n | 0 <= n < 9 ensures Weighted(r, w, Idx(w, c), p)[n] == Score(r, w, h, c, p, n) {
      NearAt(r, w, h, c, n);
    }
  }

  /** The program's best entry is the first best continuation, and there is no other. */
  lemma BestIsFirstBest(r: seq<int>, w: int, h: int, c: Point, p: nat)
    requires |r| == w * h && Inset(c, w, h, 4) && Room(w, Idx(w, c), |r|)
    ensures var (m, b) := Best(Weighted(r, w, Idx(w, c), p), 9);
      && (m > 0 ==> FirstBest(r, w, h, c, p, b))
      && forall t: nat :: FirstBest(r, w, h, c, p, t) ==> m > 0 && t == b
  {
    var l := Weighted(r, w, Idx(w, c), p);
    WeightedIsScore(r, w, h, c, p);
    BestIsFirstMaximum(l, 9);
    var (m, b) := Best(l, 9);
    forall t: nat | FirstBest(r, w, h, c, p, t) ensures m > 0 && t == b {
      assert l[t] == Score(r, w, h, c, p, t);
      assert l[b] == Score(r, w, h, c, p, b);
    }
  }

  lemma OnlyPresent(mid: seq<Pixel>, w: int, h: int, c: Point, p: nat)
    requires Spot(mid, w, h, c) && Neighbours(mid, w, Idx(w, c)) == 1 && p < 9 && p != 4 && Near(mid, w, Idx(w, c), p)
    ensures Present(mid, w, Idx(w, c)) == p
  {
  }

  /** The buffer after a visit to c. */
  function Visited(r: seq<int>, mid: seq<Pixel>, w: int, k: int, ratio: bool): seq<Pixel>
    requires |r| == |mid| && Room(w, k, |mid|) && Edge(mid, k)
  {
    ExtendTarget(r, mid, w, k, ratio);
    Written(mid, w, k, Decide(r, mid, w, k, ratio))
  }

  /** The level of an extension: one more than the point it starts from, and at least 4. */
  function NextLevel(level: Pixel): Pixel
    requires level < 6
  {
    if level < 4 then 4 else level + 1
  }

  lemma VisitedLineEnd(r: seq<int>, mid: seq<Pixel>, w: int, k: int, ratio: bool)
    requires |r| == |mid| && Room(w, k, |mid|) && Edge(mid, k) && Neighbours(mid, w, k) == 1
    ensures var (m, b) := Best(Weighted(r, w, k, Present(mid, w, k)), 9);
      && (mid[k] < 6 && m > 0 ==> b < 9 && 0 <= k + Off(w, b) < |mid|)
      && Visited(r, mid, w, k, ratio) == if mid[k] < 6 && m > 0 then mid[k + Off(w, b) := NextLevel(mid[k])] else mid
  {
    BestIsFirstMaximum(Weighted(r, w, k, Present(mid, w, k)), 9);
  }

  /** A point with one neighbour, from which a line has come, stays. Unless the point is
      itself the third extension in a row, it is continued by the first of the best
      pixels, if one is good; that pixel's level counts the extensions. */
  lemma LineEndFate(r: seq<int>, mid: seq<Pixel>, w: int, h: int, c: Point, p: nat, ratio: bool)
    requires Spot(mid, w, h, c) && |r| == |mid|
    requires SideCount(Edges(mid, w, h), c) + CornerCount(Edges(mid, w, h), c) == 1
    requires p < 9 && p != 4 && Nb(c, p) in Edges(mid, w, h)
    ensures var k := Idx(w, c); var after := Visited(r, mid, w, k, ratio);
      && (mid[k] >= 6 || (forall t: nat :: !FirstBest(r, w, h, c, p, t)) ==> after == mid)
      && (mid[k] < 6 ==> forall t: nat :: FirstBest(r, w, h, c, p, t) ==>
            0 <= Idx(w, Nb(c, t)) < |mid| && after == mid[Idx(w, Nb(c, t)) := NextLevel(mid[k])])
  {
    CountsAre(mid, w, h, c);
    NearMeansEdge(mid, w, h, c, p);
    OnlyPresent(mid, w, h, c, p);
    BestIsFirstBest(r, w, h, c, p);
    VisitedLineEnd(r, mid, w, Idx(w, c), ratio);
    var (m, b) := Best(Weighted(r, w, Idx(w, c), p), 9);
    if m > 0 { NearAt(r, w, h, c, b); }
  }

  // ---- Where the scan goes --------------------------------------------------------------

  /** After a removal that jumps back, the scan goes on with the first pixel that has the
      removed point for a neighbour, except next to the top and left margins. */
  lemma ResumesAtFirstNeighbour(o: Outcome, c: Point)
    requires o == Thin || o == RightAngle
    requires 4 <= c.y && 4 <= c.x
    ensures var (i, j) := Resume(o, c.y, c.x); P(i, j + 1) == Nb(c, 0) <==> 5 <= c.y && 6 <= c.x
  {
  }

  /** After an extension the scan goes on with the new point if that lies before the next
      pixel, except next to the top and left margins, and otherwise with the next pixel. */
  lemma ResumesAtExtension(c: Point, n: nat, level: Pixel)
    requires 4 <= c.y && 4 <= c.x && n < 9 && n != 4
    ensures var (i, j) := Resume(Extend(n, level), c.y, c.x);
      && (Before(Nb(c, n), c.y, c.x) && 4 <= Nb(c, n).y && 5 <= Nb(c, n).x ==> P(i, j + 1) == Nb(c, n))
      && (!Before(Nb(c, n), c.y, c.x) ==> (i, j) == (c.y, c.x))
  {
  }

  /** No visit before (y, x) would change anything. */
  ghost predicate QuietBefore(r: seq<int>, mid: seq<Pixel>, w: int, h: int, y: int, x: int)
    requires |r| == |mid| == w * h
  {
    forall p, ratio :: Inset(p, w, h, 4) && Before(p, y, x) && Spot(mid, w, h, p) ==>
      Decide(r, mid, w, Idx(w, p), ratio) == Keep
  }

  /** Rounds from the first pixel of the scan to (y, x): one per pixel, and one more per row. */
  function Rounds(w: int, y: int, x: int): int {
    (y - 4) * (w - 7) + (x - 4)
  }

  lemma RoundsRow(w: int, y: int)
    ensures Rounds(w, y + 1, 4) == Rounds(w, y, w - 4) + 1
  {
  }

  lemma QuietStep(r: seq<int>, mid: seq<Pixel>, w: int, h: int, y: int, x: int, ratio: bool)
    requires |r| == |mid| == w * h && 4 <= y < h - 4 && 4 <= x < w - 4 && QuietBefore(r, mid, w, h, y, x + 1)
    ensures ScanStep(r, w, h, Scan(mid, y, x), ratio) == Scan(mid, y, x + 1)
  {
    RoomAround(w, h, P(y, x), 4);
    if Edge(mid, y * w + x) {
      assert Spot(mid, w, h, P(y, x));
    }
  }

  lemma ScannedNext(r: seq<int>, w: int, h: int, s: Scan, ratios: seq<bool>, n: nat)
    requires ScanOk(r, w, h, s) && n < |ratios|
    ensures Scanned(r, w, h, s, ratios[..n + 1]) == ScanStep(r, w, h, Scanned(r, w, h, s, ratios[..n]), ratios[n])
  {
    assert ratios[..n + 1][..n] == ratios[..n];
  }

  /** The scan stands at (y, x) after n rounds, with the buffer untouched. */
  ghost predicate StandsAt(r: seq<int>, mid: seq<Pixel>, w: int, h: int, ratios: seq<bool>, n: nat, y: int, x: int)
    requires |r| == |mid| == w * h
  {
    n <= |ratios| && Scanned(r, w, h, Scan(mid, 4, 4), ratios[..n]) == Scan(mid, y, x)
  }

  lemma StandsNext(r: seq<int>, mid: seq<Pixel>, w: int, h: int, ratios: seq<bool>, n: nat, y: int, x: int)
    requires |r| == |mid| == w * h && StandsAt(r, mid, w, h, ratios, n, y, x) && n < |ratios|
    requires 4 <= y < h - 4 && 4 <= x <= w - 4
    requires x < w - 4 ==> QuietBefore(r, mid, w, h, y, x + 1)
    ensures x < w - 4 ==> StandsAt(r, mid, w, h, ratios, n + 1, y, x + 1)
    ensures x == w - 4 ==> StandsAt(r, mid, w, h, ratios, n + 1, y + 1, 4)
  {
    ScannedNext(r, w, h, Scan(mid, 4, 4), ratios, n);
    if x < w - 4 {
      QuietStep(r, mid, w, h, y, x, ratios[n]);
    }
  }

  /** The scan looks at every pixel: as long as no visit before (y, x) has anything to
      change, it arrives there, with the buffer untouched, after that many rounds. */
  lemma {:induction false} ScanArrives(r: seq<int>, mid: seq<Pixel>, w: int, h: int, y: int, x: int,
                                       ratios: seq<bool>, n: nat)
    requires |r| == |mid| == w * h && 4 <= y < h - 4 && 4 <= x <= w - 4 && QuietBefore(r, mid, w, h, y, x)
    requires n == Rounds(w, y, x) && n <= |ratios|
    ensures StandsAt(r, mid, w, h, ratios, n, y, x)
    decreases y, x
  {
    if x > 4 {
      RoundsAtLeast(w, y, x - 1);
      ScanArrives(r, mid, w, h, y, x - 1, ratios, n - 1);
      StandsNext(r, mid, w, h, ratios, n - 1, y, x - 1);
    } else if y > 4 {
      RoundsRow(w, y - 1);
      RoundsAtLeast(w, y - 1, w - 4);
      ScanArrives(r, mid, w, h, y - 1, w - 4, ratios, n - 1);
      StandsNext(r, mid, w, h, ratios, n - 1, y - 1, w - 4);
    } else {
      assert ratios[..0] == [];
    }
  }

  lemma RoundsAtLeast(w: int, y: int, x: int)
    requires 4 <= y && 4 <= x <= w - 4
    ensures Rounds(w, y, x) >= 0
  {
    MulLe(0, y - 4, w - 7);
  }
}
