/** What thinning keeps: every step, and so every run, keeps edge points that
    stay on the image 8-connected, and keeps them away from the border. */
module ThinningSafety {
  import opened Grid
  import opened Connectivity
  import opened Thinning

  ghost function Edges(mid: seq<Pixel>, w: int, h: int): iset<Point>
    requires |mid| == w * h
  {
    iset p: Point | Inside(p, w, h) && At(mid, w, h, p) < 8
  }

  /** The neighbour of c with raster number n. */
  function Nb(c: Point, n: nat): Point {
    P(c.y + n / 3 - 1, c.x + n % 3 - 1)
  }

  lemma NearMeansEdge(mid: seq<Pixel>, w: int, h: int, c: Point, n: nat)
    requires |mid| == w * h && Inset(c, w, h, 4) && Room(w, Idx(w, c), |mid|) && n < 9
    ensures Idx(w, Nb(c, n)) == Idx(w, c) + Off(w, n)
    ensures Near(mid, w, Idx(w, c), n) <==> Nb(c, n) in Edges(mid, w, h)
  {
    if n < 3 {
      assert (c.y - 1) * w == c.y * w - w;
    } else if n >= 6 {
      assert (c.y + 1) * w == c.y * w + w;
    }
  }

  lemma AdjacentIsNb(u: Point, c: Point) returns (n: nat)
    requires Adjacent(u, c)
    ensures n < 9 && n != 4 && u == Nb(c, n)
  {
    n := 3 * (u.y - c.y + 1) + (u.x - c.x + 1);
  }

  lemma WriteEdges(mid: seq<Pixel>, w: int, h: int, p: Point, v: Pixel)
    requires |mid| == w * h && Inside(p, w, h) && 0 <= Idx(w, p) < |mid|
    ensures Edges(mid[Idx(w, p) := v], w, h)
      == if v < 8 then Edges(mid, w, h) + iset{p} else Edges(mid, w, h) - iset{p}
  {
    var e, e' := Edges(mid, w, h), Edges(mid[Idx(w, p) := v], w, h);
    forall q ensures q in e' <==> if q == p then v < 8 else q in e {
      if Inside(q, w, h) { AtUpdate(mid, w, h, p, v, q); }
    }
  }

  /** The crossing number of a block, as Pieces computes it from the buffer. */
  function PiecesOf(b: seq<bool>): int
    requires |b| == 9
  {
    One(b[0] || b[1]) + One(b[2] || b[5]) + One(b[8] || b[7]) + One(b[6] || b[3])
    - (One(b[1] && (b[2] || b[5])) + One(b[5] && (b[8] || b[7]))
       + One(b[7] && (b[6] || b[3])) + One(b[3] && (b[0] || b[1])))
  }

  /** Labels of the present entries agree on touching ones. */
  ghost predicate RingAgrees<T(!new)>(b: seq<bool>, l: seq<T>)
    requires |b| == 9 && |l| == 9
  {
    && (b[0] && b[1] ==> l[0] == l[1]) && (b[1] && b[2] ==> l[1] == l[2])
    && (b[2] && b[5] ==> l[2] == l[5]) && (b[5] && b[8] ==> l[5] == l[8])
    && (b[8] && b[7] ==> l[8] == l[7]) && (b[7] && b[6] ==> l[7] == l[6])
    && (b[6] && b[3] ==> l[6] == l[3]) && (b[3] && b[0] ==> l[3] == l[0])
    && (b[1] && b[5] ==> l[1] == l[5]) && (b[5] && b[7] ==> l[5] == l[7])
    && (b[7] && b[3] ==> l[7] == l[3]) && (b[3] && b[1] ==> l[3] == l[1])
  }

  /** A crossing number below two leaves one piece: any labelling of the present
      neighbours that agrees on touching ones agrees on all of them. */
  lemma OnePiece<T(!new)>(b: seq<bool>, l: seq<T>)
    requires |b| == 9 && |l| == 9 && !b[4] && RingAgrees(b, l) && PiecesOf(b) < 2
    ensures forall m, n :: 0 <= m < 9 && 0 <= n < 9 && b[m] && b[n] ==> l[m] == l[n]
  {
  }

  /** The present neighbours of c after removing it, labelled by their component
      in what remains: adjacent ones agree. */
  ghost function Labels(e': iset<Point>, c: Point): (l: seq<iset<Point>>)
    ensures |l| == 9 && forall n :: 0 <= n < 9 ==> l[n] == Component(e', Nb(c, n))
  {
    seq(9, n requires 0 <= n < 9 => Component(e', Nb(c, n)))
  }

  lemma AdjacentLabels(e': iset<Point>, c: Point, m: nat, n: nat)
    requires m < 9 && n < 9 && Adjacent(Nb(c, m), Nb(c, n))
    ensures Nb(c, m) in e' && Nb(c, n) in e' ==> Labels(e', c)[m] == Labels(e', c)[n]
  {
    if Nb(c, m) in e' && Nb(c, n) in e' {
      AdjacentComponents(e', Nb(c, m), Nb(c, n));
    }
  }

  ghost predicate Spot(mid: seq<Pixel>, w: int, h: int, c: Point) {
    |mid| == w * h && Inset(c, w, h, 4) && Room(w, Idx(w, c), |mid|) && Edge(mid, Idx(w, c))
  }

  /** Which of the 3x3 block around c, c aside, lie in e'. */
  ghost predicate Block(e': iset<Point>, c: Point, b: seq<bool>) {
    |b| == 9 && !b[4] && forall n :: 0 <= n < 9 && n != 4 ==> (b[n] <==> Nb(c, n) in e')
  }

  lemma RingLabels(e': iset<Point>, c: Point, b: seq<bool>)
    requires Block(e', c, b)
    ensures RingAgrees(b, Labels(e', c))
  {
    AdjacentLabels(e', c, 0, 1); AdjacentLabels(e', c, 1, 2); AdjacentLabels(e', c, 2, 5);
    AdjacentLabels(e', c, 5, 8); AdjacentLabels(e', c, 8, 7); AdjacentLabels(e', c, 7, 6);
    AdjacentLabels(e', c, 6, 3); AdjacentLabels(e', c, 3, 0); AdjacentLabels(e', c, 1, 5);
    AdjacentLabels(e', c, 5, 7); AdjacentLabels(e', c, 7, 3); AdjacentLabels(e', c, 3, 1);
  }

  /** Equal labels on the block mean one component around c. */
  lemma LabelsMeanComponent(e: iset<Point>, e': iset<Point>, c: Point, b: seq<bool>)
    requires Block(e', c, b) && e' >= e - iset{c}
    requires forall m, n :: 0 <= m < 9 && 0 <= n < 9 && b[m] && b[n] ==> Labels(e', c)[m] == Labels(e', c)[n]
    ensures OneComponentAround(e, e', c)
  {
    forall u, v | u in e && v in e && Adjacent(u, c) && Adjacent(v, c)
      ensures Component(e', u) == Component(e', v)
    {
      var m := AdjacentIsNb(u, c);
      var n := AdjacentIsNb(v, c);
      assert b[m] && b[n];
    }
  }

  ghost function BlockOf(mid: seq<Pixel>, w: int, h: int, c: Point): (b: seq<bool>)
    requires Spot(mid, w, h, c)
    ensures Block(Edges(mid, w, h) - iset{c}, c, b)
    ensures forall n :: 0 <= n < 9 && n != 4 ==> b[n] == Near(mid, w, Idx(w, c), n)
  {
    assert forall n :: 0 <= n < 9 && n != 4 ==>
      (Near(mid, w, Idx(w, c), n) <==> Nb(c, n) in Edges(mid, w, h) - iset{c}) by {
      forall n | 0 <= n < 9 && n != 4
        ensures Near(mid, w, Idx(w, c), n) <==> Nb(c, n) in Edges(mid, w, h) - iset{c}
      {
        NearMeansEdge(mid, w, h, c, n);
      }
    }
    seq(9, n requires 0 <= n < 9 => n != 4 && Near(mid, w, Idx(w, c), n))
  }

  lemma PiecesFromBlock(mid: seq<Pixel>, w: int, k: int, b: seq<bool>)
    requires Room(w, k, |mid|) && |b| == 9
    requires forall n :: 0 <= n < 9 && n != 4 ==> b[n] == Near(mid, w, k, n)
    ensures Pieces(mid, w, k) == PiecesOf(b)
  {
  }

  lemma PiecesConnect(mid: seq<Pixel>, w: int, h: int, c: Point)
    requires Spot(mid, w, h, c) && Pieces(mid, w, Idx(w, c)) < 2
    ensures OneComponentAround(Edges(mid, w, h), Edges(mid, w, h) - iset{c}, c)
  {
    var e := Edges(mid, w, h);
    var e' := e - iset{c};
    var b := BlockOf(mid, w, h, c);
    PiecesFromBlock(mid, w, Idx(w, c), b);
    RingLabels(e', c, b);
    OnePiece(b, Labels(e', c));
    LabelsMeanComponent(e, e', c, b);
  }

  /** Two side neighbours that form a right angle touch diagonally: one piece. */
  lemma RightAngleIsOnePiece(mid: seq<Pixel>, w: int, k: int)
    requires Room(w, k, |mid|) && Neighbours(mid, w, k) == 2 && OddRightAngle(mid, w, k)
    ensures Pieces(mid, w, k) < 2
  {
  }

  lemma IsolatedIsNoPiece(mid: seq<Pixel>, w: int, k: int)
    requires Room(w, k, |mid|) && Neighbours(mid, w, k) == 0
    ensures Pieces(mid, w, k) < 2
  {
  }

  lemma RemovalStep(mid: seq<Pixel>, w: int, h: int, c: Point)
    requires Spot(mid, w, h, c) && Pieces(mid, w, Idx(w, c)) < 2
    ensures KeepsJoined(Edges(mid, w, h), Edges(mid[Idx(w, c) := NO_EDGE], w, h))
  {
    WriteEdges(mid, w, h, c, NO_EDGE);
    PiecesConnect(mid, w, h, c);
    RemovalKeepsJoined(Edges(mid, w, h), Edges(mid, w, h) - iset{c}, c);
  }

  /** Moving a point between its two corner neighbours. */
  lemma StraightenStep(mid: seq<Pixel>, w: int, h: int, c: Point)
    requires Spot(mid, w, h, c)
    requires Neighbours(mid, w, Idx(w, c)) == 2 && Hooked(mid, w, Idx(w, c))
    ensures var o := Straighten(Between(mid, w, Idx(w, c)));
      KeepsJoined(Edges(mid, w, h), Edges(Written(mid, w, Idx(w, c), o), w, h))
  {
    var e, q := Edges(mid, w, h), Nb(c, Between(mid, w, Idx(w, c)));
    StraightenedEdges(mid, w, h, c);
    var e' := e - iset{c} + iset{q};
    forall u | u in e && Adjacent(u, c) ensures Component(e', u) == Component(e', q) {
      CornersTouchBetween(mid, w, h, c, u);
      AdjacentComponents(e', u, q);
    }
    RemovalKeepsJoined(e, e', c);
  }

  lemma StraightenedEdges(mid: seq<Pixel>, w: int, h: int, c: Point)
    requires Spot(mid, w, h, c)
    ensures var m := Between(mid, w, Idx(w, c));
      Edges(Written(mid, w, Idx(w, c), Straighten(m)), w, h) == Edges(mid, w, h) - iset{c} + iset{Nb(c, m)}
  {
    var k, m := Idx(w, c), Between(mid, w, Idx(w, c));
    NearMeansEdge(mid, w, h, c, m);
    WriteEdges(mid, w, h, c, NO_EDGE);
    WriteEdges(mid[k := NO_EDGE], w, h, Nb(c, m), 3);
  }

  lemma CornersTouchBetween(mid: seq<Pixel>, w: int, h: int, c: Point, u: Point)
    requires Spot(mid, w, h, c) && u in Edges(mid, w, h) && Adjacent(u, c)
    requires Neighbours(mid, w, Idx(w, c)) == 2 && Hooked(mid, w, Idx(w, c))
    ensures Adjacent(u, Nb(c, Between(mid, w, Idx(w, c))))
  {
    var n := AdjacentIsNb(u, c);
    NearMeansEdge(mid, w, h, c, n);
    HookedNeighbour(mid, w, Idx(w, c), n);
  }

  /** Around a hook only the two corners next to its open side are present. */
  lemma HookedNeighbour(mid: seq<Pixel>, w: int, k: int, n: nat)
    requires Room(w, k, |mid|) && n < 9 && n != 4 && Near(mid, w, k, n)
    requires Neighbours(mid, w, k) == 2 && Hooked(mid, w, k)
    ensures match Between(mid, w, k)
            case 1 => n == 0 || n == 2
            case 3 => n == 0 || n == 6
            case 5 => n == 2 || n == 8
            case _ => n == 6 || n == 8
  {
  }

  /** What is known of the neighbourhood when a visit decides o. */
  ghost predicate Justified(mid: seq<Pixel>, w: int, k: int, o: Outcome)
    requires Room(w, k, |mid|)
  {
    match o
    case Keep => true
    case Extend(c, level) => c < 9 && level < 8
    case Straighten(c) => Neighbours(mid, w, k) == 2 && Hooked(mid, w, k) && c == Between(mid, w, k)
    case _ => Pieces(mid, w, k) < 2
  }

  lemma DecideIsJustified(r: seq<int>, mid: seq<Pixel>, w: int, k: int, ratio: bool)
    requires |r| == |mid| && Room(w, k, |mid|) && Edge(mid, k)
    ensures Justified(mid, w, k, Decide(r, mid, w, k, ratio))
  {
    ExtendTarget(r, mid, w, k, ratio);
    match Decide(r, mid, w, k, ratio)
    case Isolated => IsolatedIsNoPiece(mid, w, k);
    case RightAngle => RightAngleIsOnePiece(mid, w, k);
    case _ =>
  }

  lemma ExtendStep(mid: seq<Pixel>, w: int, h: int, c: Point, n: nat, level: Pixel)
    requires Spot(mid, w, h, c) && n < 9 && level < 8
    ensures KeepsJoined(Edges(mid, w, h), Edges(mid[Idx(w, c) + Off(w, n) := level], w, h))
  {
    NearMeansEdge(mid, w, h, c, n);
    WriteEdges(mid, w, h, Nb(c, n), level);
    GrowingKeepsJoined(Edges(mid, w, h), Edges(mid, w, h) + iset{Nb(c, n)});
  }

  /** One visit: whatever it decides keeps joined points joined. */
  lemma StepKeepsJoined(mid: seq<Pixel>, w: int, h: int, c: Point, o: Outcome)
    requires Spot(mid, w, h, c) && Justified(mid, w, Idx(w, c), o)
    ensures KeepsJoined(Edges(mid, w, h), Edges(Written(mid, w, Idx(w, c), o), w, h))
  {
    match o
    case Keep => GrowingKeepsJoined(Edges(mid, w, h), Edges(mid, w, h));
    case Straighten(_) => StraightenStep(mid, w, h, c);
    case Extend(n, level) => ExtendStep(mid, w, h, c, n, level);
    case _ => RemovalStep(mid, w, h, c);
  }

  /** No visit brings an edge point closer than b <= 3 pixels to the border. */
  lemma StepKeepsInset(mid: seq<Pixel>, w: int, h: int, c: Point, o: Outcome, b: int)
    requires Spot(mid, w, h, c) && Justified(mid, w, Idx(w, c), o) && 0 <= b <= 3
    requires forall p :: p in Edges(mid, w, h) ==> Inset(p, w, h, b)
    ensures forall p :: p in Edges(Written(mid, w, Idx(w, c), o), w, h) ==> Inset(p, w, h, b)
  {
    WriteEdges(mid, w, h, c, NO_EDGE);
    match o
    case Keep =>
    case Straighten(n) =>
      NearMeansEdge(mid, w, h, c, n);
      WriteEdges(mid[Idx(w, c) := NO_EDGE], w, h, Nb(c, n), 3);
    case Extend(n, level) =>
      NearMeansEdge(mid, w, h, c, n);
      WriteEdges(mid, w, h, Nb(c, n), level);
    case _ =>
  }

  // ---- The scan ------------------------------------------------------------

  /** The buffer and the loop position (i, j) of susan_thin. */
  datatype Scan = Scan(mid: seq<Pixel>, i: int, j: int)

  predicate ScanOk(r: seq<int>, w: int, h: int, s: Scan) {
    |s.mid| == |r| == w * h && 4 <= s.i && 4 <= s.j
  }

  /** One round of the nested loops: end of image, end of row, or a pixel. */
  function ScanStep(r: seq<int>, w: int, h: int, s: Scan, ratio: bool): (s': Scan)
    requires ScanOk(r, w, h, s)
    ensures ScanOk(r, w, h, s')
  {
    if s.i >= h - 4 then s
    else if s.j >= w - 4 then Scan(s.mid, s.i + 1, 4)
    else
      RoomAround(w, h, P(s.i, s.j), 4);
      var k := s.i * w + s.j;
      if Edge(s.mid, k) then
        ExtendTarget(r, s.mid, w, k, ratio);
        var o := Decide(r, s.mid, w, k, ratio);
        var (i, j) := Resume(o, s.i, s.j);
        Scan(Written(s.mid, w, k, o), i, j + 1)
      else
        Scan(s.mid, s.i, s.j + 1)
  }

  /** Any number of rounds; ratios[t] answers the response comparison in round t. */
  function Scanned(r: seq<int>, w: int, h: int, s: Scan, ratios: seq<bool>): (s': Scan)
    requires ScanOk(r, w, h, s)
    ensures ScanOk(r, w, h, s')
    decreases |ratios|
  {
    if ratios == [] then s
    else ScanStep(r, w, h, Scanned(r, w, h, s, ratios[..|ratios| - 1]), ratios[|ratios| - 1])
  }

  ghost function EdgesAfter(r: seq<int>, w: int, h: int, mid: seq<Pixel>, ratios: seq<bool>): iset<Point>
    requires |mid| == |r| == w * h
  {
    Edges(Scanned(r, w, h, Scan(mid, 4, 4), ratios).mid, w, h)
  }

  lemma ScanStepIsSafe(r: seq<int>, w: int, h: int, s: Scan, ratio: bool, b: int)
    requires ScanOk(r, w, h, s) && 0 <= b <= 3
    ensures var e, e' := Edges(s.mid, w, h), Edges(ScanStep(r, w, h, s, ratio).mid, w, h);
      && KeepsJoined(e, e')
      && ((forall p :: p in e ==> Inset(p, w, h, b)) ==> forall p :: p in e' ==> Inset(p, w, h, b))
  {
    GrowingKeepsJoined(Edges(s.mid, w, h), Edges(s.mid, w, h));
    if s.i < h - 4 && s.j < w - 4 {
      var c := P(s.i, s.j);
      RoomAround(w, h, c, 4);
      if Edge(s.mid, Idx(w, c)) {
        var o := Decide(r, s.mid, w, Idx(w, c), ratio);
        DecideIsJustified(r, s.mid, w, Idx(w, c), ratio);
        StepKeepsJoined(s.mid, w, h, c, o);
        if forall p :: p in Edges(s.mid, w, h) ==> Inset(p, w, h, b) {
          StepKeepsInset(s.mid, w, h, c, o, b);
        }
      }
    }
  }

  /** Main result: over any number of rounds, edge points that are present after
      every round and were 8-connected at the start are 8-connected at the end. */
  lemma {:induction false} ScanKeepsJoined(r: seq<int>, w: int, h: int, mid: seq<Pixel>,
                                           ratios: seq<bool>, p: Point, q: Point)
    requires |mid| == |r| == w * h
    requires forall t :: 0 <= t <= |ratios| ==>
      p in EdgesAfter(r, w, h, mid, ratios[..t]) && q in EdgesAfter(r, w, h, mid, ratios[..t])
    requires Connected(Edges(mid, w, h), p, q)
    ensures Connected(EdgesAfter(r, w, h, mid, ratios), p, q)
    decreases |ratios|
  {
    assert ratios[..|ratios|] == ratios;
    if ratios != [] {
      var init := ratios[..|ratios| - 1];
      assert forall t :: 0 <= t <= |init| ==> init[..t] == ratios[..t];
      ScanKeepsJoined(r, w, h, mid, init, p, q);
      ScanStepIsSafe(r, w, h, Scanned(r, w, h, Scan(mid, 4, 4), init), ratios[|init|], 0);
    }
  }

  /** Main result: edge points at least b <= 3 pixels inside the image stay there
      over any number of rounds. */
  lemma {:induction false} ScanKeepsInset(r: seq<int>, w: int, h: int, mid: seq<Pixel>,
                                          ratios: seq<bool>, b: int)
    requires |mid| == |r| == w * h && 0 <= b <= 3
    requires forall p :: p in Edges(mid, w, h) ==> Inset(p, w, h, b)
    ensures forall p :: p in EdgesAfter(r, w, h, mid, ratios) ==> Inset(p, w, h, b)
    decreases |ratios|
  {
    if ratios != [] {
      var init := ratios[..|ratios| - 1];
      ScanKeepsInset(r, w, h, mid, init, b);
      ScanStepIsSafe(r, w, h, Scanned(r, w, h, Scan(mid, 4, 4), init), ratios[|init|], b);
    }
  }

  method VisitAt(r: array<int>, mid: array<Pixel>, w: int, h: int, i0: int, j0: int, ratio: bool)
    returns (i: int, j: int)
    requires r.Length == mid.Length == w * h && r as object != mid
    requires 4 <= i0 < h - 4 && 4 <= j0 < w - 4
    modifies mid
    ensures ScanOk(r[..], w, h, Scan(old(mid[..]), i0, j0))
    ensures Scan(mid[..], i, j + 1) == ScanStep(r[..], w, h, Scan(old(mid[..]), i0, j0), ratio)
  {
    i, j := i0, j0;
    RoomAround(w, h, P(i, j), 4);
    var k := i * w + j;
    if mid[k] < 8 {
      i, j := Visit(r, mid, w, k, i, j, ratio);
    }
  }

  /** The scan of susan_thin in place, cut off after as many rounds as there are
      answers in `ratios`: nested loops over i and j, whose positions the visits
      rewrite. Whether the scan ends by itself is not claimed. */
  method ThinFor(r: array<int>, mid: array<Pixel>, w: int, h: int, ratios: seq<bool>)
    returns (i: int, j: int)
    requires r.Length == mid.Length == w * h && r as object != mid
    modifies mid
    ensures ScanOk(r[..], w, h, Scan(old(mid[..]), 4, 4))
    ensures Scan(mid[..], i, j) == Scanned(r[..], w, h, Scan(old(mid[..]), 4, 4), ratios)
  {
    i, j := 4, 4;
    for t := 0 to |ratios|
      invariant ScanOk(r[..], w, h, Scan(mid[..], i, j))
      invariant Scan(mid[..], i, j) == Scanned(r[..], w, h, Scan(old(mid[..]), 4, 4), ratios[..t])
    {
      assert ratios[..t + 1][..t] == ratios[..t];
      if i < h - 4 {
        if j >= w - 4 {
          i, j := i + 1, 4;
        } else {
          i, j := VisitAt(r, mid, w, h, i, j, ratios[t]);
          j := j + 1;
        }
      }
    }
    assert ratios[..|ratios|] == ratios;
  }
}
