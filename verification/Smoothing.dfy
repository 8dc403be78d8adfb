/** Smoothing in susan/susan.c: every pixel becomes an average of its window,
    weighted by distance and by brightness, its own weight left out. */
module Smoothing {
  import opened Arithmetic
  import opened Grid
  import opened Usan
  import opened Borders

  /** The distance table over a window of n*n pixels: weights up to 100, and 100
      at the centre. */
  predicate Kernel(dp: seq<int>, m: int) {
    && 0 <= m && |dp| == (2*m + 1) * (2*m + 1)
    && (forall t :: 0 <= t < |dp| ==> 0 <= dp[t] <= 100)
    && 0 <= m * (2*m + 1) + m < |dp|
  }

  /** Cell t of the window around c, counted row by row. */
  function Cell(img: seq<Pixel>, w: int, h: int, m: int, c: Point, t: int): Pixel
    requires |img| == w * h && Inside(c, w, h) && 0 <= m <= w && m <= h && 0 <= t < (2*m + 1) * (2*m + 1)
  {
    RowOfCell(m, t);
    Extended(img, w, h, c.y - m + t / (2*m + 1), c.x - m + t % (2*m + 1))
  }

  lemma RowOfCell(m: int, t: int)
    requires 0 <= m && 0 <= t < (2*m + 1) * (2*m + 1)
    ensures 0 <= t / (2*m + 1) <= 2*m && 0 <= t % (2*m + 1) <= 2*m
  {
    if t / (2*m + 1) > 2*m { MulLe(2*m + 1, t / (2*m + 1), 2*m + 1); }
  }

  function CellWeight(img: seq<Pixel>, bp: Table, dp: seq<int>, w: int, h: int, m: int, c: Point, t: int): (n: int)
    requires |img| == w * h && Inside(c, w, h) && m <= w && m <= h && Kernel(dp, m) && 0 <= t < |dp|
    ensures 0 <= n
  {
    MulLe(0, dp[t], Alike(bp, At(img, w, h, c), Cell(img, w, h, m, c, t)));
    dp[t] * Alike(bp, At(img, w, h, c), Cell(img, w, h, m, c, t))
  }

  /** Sum of the weights, and of the weighted brightnesses, of the first t cells. */
  function AreaTo(img: seq<Pixel>, bp: Table, dp: seq<int>, w: int, h: int, m: int, c: Point, t: int): int
    requires |img| == w * h && Inside(c, w, h) && m <= w && m <= h && Kernel(dp, m) && 0 <= t <= |dp|
    decreases t
  {
    if t == 0 then 0
    else AreaTo(img, bp, dp, w, h, m, c, t - 1) + CellWeight(img, bp, dp, w, h, m, c, t - 1)
  }

  function TotalTo(img: seq<Pixel>, bp: Table, dp: seq<int>, w: int, h: int, m: int, c: Point, t: int): int
    requires |img| == w * h && Inside(c, w, h) && m <= w && m <= h && Kernel(dp, m) && 0 <= t <= |dp|
    decreases t
  {
    if t == 0 then 0
    else TotalTo(img, bp, dp, w, h, m, c, t - 1)
         + CellWeight(img, bp, dp, w, h, m, c, t - 1) * Cell(img, w, h, m, c, t - 1)
  }

  /** Every cell of the window lies between lo and hi. */
  ghost predicate WindowWithin(img: seq<Pixel>, w: int, h: int, m: int, c: Point, lo: int, hi: int)
    requires |img| == w * h && Inside(c, w, h) && 0 <= m <= w && m <= h
  {
    forall t :: 0 <= t < (2*m + 1) * (2*m + 1) ==> lo <= Cell(img, w, h, m, c, t) <= hi
  }

  function CentreCell(m: int): int {
    m * (2*m + 1) + m
  }

  lemma CentreCellIs(img: seq<Pixel>, w: int, h: int, m: int, c: Point)
    requires |img| == w * h && Inside(c, w, h) && 0 <= m <= w && m <= h
    ensures 0 <= CentreCell(m) < (2*m + 1) * (2*m + 1)
    ensures Cell(img, w, h, m, c, CentreCell(m)) == At(img, w, h, c)
  {
    DivModRow(2*m + 1, m, m);
  }

  lemma DivModRow(n: int, y: int, x: int)
    requires 0 <= x < n && 0 <= y
    ensures (y * n + x) / n == y && (y * n + x) % n == x
    ensures y < n ==> y * n + x < n * n
  {
    DivModIs(y * n + x, n, y, x);
    if y < n { MulLe(y + 1, n, n); }
  }

  /** The same sums without the centre cell: what the average is taken over. */
  function AreaAround(img: seq<Pixel>, bp: Table, dp: seq<int>, w: int, h: int, m: int, c: Point, t: int): (n: int)
    requires |img| == w * h && Inside(c, w, h) && m <= w && m <= h && Kernel(dp, m) && 0 <= t <= |dp|
    ensures 0 <= n
    decreases t
  {
    if t == 0 then 0
    else if t - 1 == CentreCell(m) then AreaAround(img, bp, dp, w, h, m, c, t - 1)
    else AreaAround(img, bp, dp, w, h, m, c, t - 1) + CellWeight(img, bp, dp, w, h, m, c, t - 1)
  }

  function TotalAround(img: seq<Pixel>, bp: Table, dp: seq<int>, w: int, h: int, m: int, c: Point, t: int): int
    requires |img| == w * h && Inside(c, w, h) && m <= w && m <= h && Kernel(dp, m) && 0 <= t <= |dp|
    decreases t
  {
    if t == 0 then 0
    else if t - 1 == CentreCell(m) then TotalAround(img, bp, dp, w, h, m, c, t - 1)
    else TotalAround(img, bp, dp, w, h, m, c, t - 1)
         + CellWeight(img, bp, dp, w, h, m, c, t - 1) * Cell(img, w, h, m, c, t - 1)
  }

  /** Subtracting the centre's own weight after the walk leaves it out. */
  lemma {:induction false} CentreLeftOut(img: seq<Pixel>, bp: Table, dp: seq<int>, w: int, h: int, m: int, c: Point,
                                         t: int)
    requires |img| == w * h && Inside(c, w, h) && m <= w && m <= h && Kernel(dp, m) && 0 <= t <= |dp|
    ensures var own := if t > CentreCell(m) then dp[CentreCell(m)] * 100 else 0;
      && AreaTo(img, bp, dp, w, h, m, c, t) - own == AreaAround(img, bp, dp, w, h, m, c, t)
      && TotalTo(img, bp, dp, w, h, m, c, t) - own * At(img, w, h, c) == TotalAround(img, bp, dp, w, h, m, c, t)
  {
    if t > 0 {
      CentreCellIs(img, w, h, m, c);
      CentreLeftOut(img, bp, dp, w, h, m, c, t - 1);
    }
  }

  lemma {:induction false} SumsWithin(img: seq<Pixel>, bp: Table, dp: seq<int>, w: int, h: int, m: int, c: Point,
                                      lo: int, hi: int, t: int)
    requires |img| == w * h && Inside(c, w, h) && m <= w && m <= h && Kernel(dp, m) && 0 <= t <= |dp|
    requires WindowWithin(img, w, h, m, c, lo, hi)
    ensures var area, total := AreaAround(img, bp, dp, w, h, m, c, t), TotalAround(img, bp, dp, w, h, m, c, t);
      lo * area <= total <= hi * area
  {
    if t > 0 {
      SumsWithin(img, bp, dp, w, h, m, c, lo, hi, t - 1);
      ScaleWithin(AreaAround(img, bp, dp, w, h, m, c, t - 1), CellWeight(img, bp, dp, w, h, m, c, t - 1),
                  lo, Cell(img, w, h, m, c, t - 1), hi);
    }
  }

  lemma ScaleWithin(area: int, k: int, lo: int, v: int, hi: int)
    requires 0 <= k && lo <= v <= hi
    ensures lo * (area + k) <= lo * area + k * v && hi * area + k * v <= hi * (area + k)
  {
    MulLe(lo, v, k);
    MulLe(v, hi, k);
    assert lo * (area + k) == lo * area + lo * k && hi * (area + k) == hi * area + hi * k;
  }

  lemma QuotientWithin(lo: int, hi: int, area: int, total: int)
    requires 0 < area && lo * area <= total <= hi * area
    ensures lo <= total / area <= hi
  {
    var q := total / area;
    assert q * area <= total < (q + 1) * area;
    if q < lo { MulLe(q + 1, lo, area); }
    if q > hi { MulLe(hi + 1, q, area); }
  }

  // ---- The median of the eight neighbours ----------------------------------

  predicate Ascending(s: seq<int>) {
    forall i, j :: 0 <= i <= j < |s| ==> s[i] <= s[j]
  }

  /** s in ascending order. */
  function Sorted(s: seq<int>): (t: seq<int>)
    ensures Ascending(t) && multiset(t) == multiset(s)
  {
    if s == [] then []
    else
      assert s == [s[0]] + s[1..];
      Insert(s[0], Sorted(s[1..]))
  }

  function Insert(x: int, s: seq<int>): (t: seq<int>)
    requires Ascending(s)
    ensures multiset(t) == multiset{x} + multiset(s)
    ensures Ascending(t)
  {
    if s == [] then [x]
    else if x <= s[0] then [x] + s
    else
      assert s == [s[0]] + s[1..];
      var t := Insert(x, s[1..]);
      FrontIsLeast(s[0], t, multiset{x} + multiset(s[1..]));
      [s[0]] + t
  }

  lemma FrontIsLeast(y: int, t: seq<int>, all: multiset<int>)
    requires Ascending(t) && multiset(t) == all && forall z :: z in all ==> y <= z
    ensures Ascending([y] + t)
  {
    forall i | 0 <= i < |t| ensures y <= t[i] {
      assert t[i] in multiset(t);
    }
  }

  /** An ascending arrangement is the only one. */
  lemma {:induction false} SortedUnique(a: seq<int>, b: seq<int>)
    requires Ascending(a) && Ascending(b) && multiset(a) == multiset(b)
    ensures a == b
    decreases |a|
  {
    if a == [] {
      assert |b| == |multiset(b)| == 0;
    } else {
      assert a[0] in multiset(b) && b != [];
      HeadIsLeast(b, a[0]);
      assert b[0] in multiset(a);
      HeadIsLeast(a, b[0]);
      TailOf(a);
      TailOf(b);
      SortedUnique(a[1..], b[1..]);
      SameHeadAndTail(a, b);
    }
  }

  lemma SameHeadAndTail(a: seq<int>, b: seq<int>)
    requires a != [] && b != [] && a[0] == b[0] && a[1..] == b[1..]
    ensures a == b
  {
    assert a == [a[0]] + a[1..] == b;
  }

  lemma TailOf(s: seq<int>)
    requires Ascending(s) && s != []
    ensures Ascending(s[1..]) && multiset(s[1..]) == multiset(s) - multiset{s[0]}
  {
    assert s == [s[0]] + s[1..];
  }

  lemma HeadIsLeast(s: seq<int>, x: int)
    requires Ascending(s) && x in multiset(s)
    ensures s != [] && s[0] <= x
  {
    assert x in s;
  }

  /** The value median gives for eight neighbours: the mean of the middle two. */
  function MiddleMean(s: seq<int>): int
    requires |s| == 8
  {
    assert |Sorted(s)| == |multiset(Sorted(s))| == |multiset(s)| == 8;
    (Sorted(s)[3] + Sorted(s)[4]) / 2
  }

  lemma MiddleMeanWithin(s: seq<int>, lo: int, hi: int)
    requires |s| == 8 && forall i :: 0 <= i < 8 ==> lo <= s[i] <= hi
    ensures lo <= MiddleMean(s) <= hi
  {
    var t := Sorted(s);
    assert |t| == |multiset(t)| == |multiset(s)| == 8;
    assert t[3] in multiset(s) && t[4] in multiset(s);
    assert t[3] in s && t[4] in s;
  }

  /** How many entries are at most v, and at least v. */
  function AtMost(s: seq<int>, v: int): nat {
    if s == [] then 0 else (if s[0] <= v then 1 else 0) + AtMost(s[1..], v)
  }

  function AtLeast(s: seq<int>, v: int): nat {
    if s == [] then 0 else (if s[0] >= v then 1 else 0) + AtLeast(s[1..], v)
  }

  lemma {:induction false} InsertCounts(x: int, s: seq<int>, v: int)
    requires Ascending(s)
    ensures AtMost(Insert(x, s), v) == (if x <= v then 1 else 0) + AtMost(s, v)
    ensures AtLeast(Insert(x, s), v) == (if x >= v then 1 else 0) + AtLeast(s, v)
  {
    if s != [] {
      if x > s[0] {
        InsertCounts(x, s[1..], v);
        assert Insert(x, s)[1..] == Insert(x, s[1..]);
      } else {
        assert Insert(x, s)[1..] == s;
      }
    }
  }

  lemma {:induction false} SortedCounts(s: seq<int>, v: int)
    ensures AtMost(Sorted(s), v) == AtMost(s, v) && AtLeast(Sorted(s), v) == AtLeast(s, v)
  {
    if s != [] {
      SortedCounts(s[1..], v);
      InsertCounts(s[0], Sorted(s[1..]), v);
    }
  }

  lemma {:induction false} PlaceCounts(t: seq<int>, k: nat, v: int)
    requires Ascending(t) && k < |t| && v == t[k]
    ensures AtMost(t, v) >= k + 1 && AtLeast(t, v) >= |t| - k
  {
    if k > 0 {
      PlaceCounts(t[1..], k - 1, v);
    } else if |t| > 1 {
      AllAtLeast(t[1..], v);
    }
  }

  lemma {:induction false} AllAtLeast(t: seq<int>, v: int)
    requires forall i :: 0 <= i < |t| ==> v <= t[i]
    ensures AtLeast(t, v) == |t|
  {
    if t != [] { AllAtLeast(t[1..], v); }
  }

  lemma {:induction false} CountsApart(s: seq<int>, a: int, b: int)
    requires a < b
    ensures AtMost(s, a) + AtLeast(s, b) <= |s|
  {
    if s != [] { CountsApart(s[1..], a, b); }
  }

  /** The fourth and the fifth of eight values in ascending order. */
  ghost predicate Middle(s: seq<int>, a: int, b: int) {
    AtMost(s, a) >= 4 && AtLeast(s, a) >= 5 && AtMost(s, b) >= 5 && AtLeast(s, b) >= 4
  }

  /** The program's value is the median: the mean of the two middle values, and those are
      determined by how many entries lie on either side. */
  lemma MiddleMeanIsMedian(s: seq<int>, a: int, b: int)
    requires |s| == 8
    ensures Middle(s, a, b) ==> MiddleMean(s) == (a + b) / 2
    ensures exists x, y :: Middle(s, x, y)
  {
    var t := Sorted(s);
    assert |t| == |multiset(t)| == |multiset(s)| == 8;
    PlaceCounts(t, 3, t[3]);
    PlaceCounts(t, 4, t[4]);
    SortedCounts(s, t[3]);
    SortedCounts(s, t[4]);
    assert Middle(s, t[3], t[4]);
    if Middle(s, a, b) {
      SameMiddle(s, a, t[3], 4);
      SameMiddle(s, b, t[4], 5);
    }
  }

  lemma SameMiddle(s: seq<int>, a: int, b: int, k: nat)
    requires |s| == 8 && k <= 8
    requires AtMost(s, a) >= k && AtLeast(s, a) >= 9 - k && AtMost(s, b) >= k && AtLeast(s, b) >= 9 - k
    ensures a == b
  {
    if a < b { CountsApart(s, a, b); }
    if b < a { CountsApart(s, b, a); }
  }

  lemma SwapPermutes(s: seq<int>, l: int)
    requires 0 <= l < |s| - 1
    ensures multiset(s[l := s[l + 1]][l + 1 := s[l]]) == multiset(s)
  {
    var front, x, y, back := s[..l], s[l], s[l + 1], s[l + 2..];
    assert s == front + [x, y] + back;
    assert s[l := y][l + 1 := x] == front + [y, x] + back;
    SwapBetween(front, x, y, back);
  }

  lemma SwapBetween(front: seq<int>, x: int, y: int, back: seq<int>)
    ensures multiset(front + [x, y] + back) == multiset(front + [y, x] + back)
  {
  }

  /** The last k entries are in their places. */
  predicate TailPlaced(s: seq<int>, k: int) {
    forall a, b :: |s| - k <= b < |s| && 0 <= a <= b ==> s[a] <= s[b]
  }

  /** One comparison: the larger of two neighbours moves up. */
  method CompareSwap(p: array<int>, k: int, l: int)
    requires p.Length == 8 && 0 <= k < 7 && 0 <= l < 7 - k
    requires TailPlaced(p[..], k) && forall a :: 0 <= a <= l ==> p[a] <= p[l]
    modifies p
    ensures TailPlaced(p[..], k) && forall a :: 0 <= a <= l + 1 ==> p[a] <= p[l + 1]
    ensures multiset(p[..]) == multiset(old(p[..]))
  {
    if p[l] > p[l + 1] {
      SwapPermutes(p[..], l);
      ghost var before := p[..];
      p[l], p[l + 1] := p[l + 1], p[l];
      assert p[..] == before[l := before[l + 1]][l + 1 := before[l]];
    }
  }

  /** The bubble sort of the source on its local buffer. */
  method BubbleSort(p: array<int>)
    requires p.Length == 8
    modifies p
    ensures p[..] == Sorted(old(p[..]))
  {
    for k := 0 to 7
      invariant multiset(p[..]) == multiset(old(p[..])) && TailPlaced(p[..], k)
    {
      for l := 0 to 7 - k
        invariant multiset(p[..]) == multiset(old(p[..])) && TailPlaced(p[..], k)
        invariant forall a :: 0 <= a <= l ==> p[a] <= p[l]
      {
        CompareSwap(p, k, l);
      }
    }
    SortedUnique(p[..], Sorted(old(p[..])));
  }

  // ---- The smoothed image --------------------------------------------------

  /** Row and column distance of neighbour k, counted row by row. */
  function RowOf(k: int): int {
    if k < 3 then -1 else if k < 5 then 0 else 1
  }

  function ColumnOf(k: int): int {
    if k == 0 || k == 3 || k == 5 then -1 else if k == 1 || k == 6 then 0 else 1
  }

  /** The eight offsets are those of the eight neighbours, each once. */
  lemma OffsetsAreNeighbours(c: Point, q: Point)
    ensures Adjacent(q, c) <==> exists k :: 0 <= k < 8 && q == P(c.y + RowOf(k), c.x + ColumnOf(k))
    ensures forall k, m :: 0 <= k < m < 8 ==> RowOf(k) < RowOf(m) || (RowOf(k) == RowOf(m) && ColumnOf(k) < ColumnOf(m))
  {
    if Adjacent(q, c) {
      var n := 3 * (q.y - c.y + 1) + (q.x - c.x + 1);
      var k := if n < 4 then n else n - 1;
      assert q == P(c.y + RowOf(k), c.x + ColumnOf(k));
    }
  }

  /** The eight neighbours of c in the mirror extension, row by row. */
  function NeighboursOf(img: seq<Pixel>, w: int, h: int, c: Point): (s: seq<int>)
    requires |img| == w * h && Inside(c, w, h)
    ensures |s| == 8
  {
    seq(8, k requires 0 <= k < 8 => Extended(img, w, h, c.y + RowOf(k), c.x + ColumnOf(k)) as int)
  }

  /** A window whose centre has distance weight g: 100 for the Gaussian mask, 1 for the
      flat one. */
  predicate Mask(dp: seq<int>, m: int, g: int) {
    Kernel(dp, m) && 1 <= m && dp[CentreCell(m)] == g
  }

  /** The 3x3 mask weighs all its cells alike. */
  const FLAT: seq<int> := [1, 1, 1, 1, 1, 1, 1, 1, 1]

  /** What smoothing makes of pixel c: the weighted mean of the rest of its
      window, or the median of its neighbours when nothing in there is alike. */
  function Smoothed(img: seq<Pixel>, bp: Table, dp: seq<int>, w: int, h: int, m: int, c: Point): int
    requires |img| == w * h && Inside(c, w, h) && 1 <= m <= w && m <= h && Kernel(dp, m)
  {
    var area := AreaAround(img, bp, dp, w, h, m, c, |dp|);
    if area == 0 then MiddleMean(NeighboursOf(img, w, h, c))
    else TotalAround(img, bp, dp, w, h, m, c, |dp|) / area
  }

  /** A pixel that is like nothing in its window becomes the median of its neighbours. */
  lemma {:induction false} NoiseIsAlone(img: seq<Pixel>, bp: Table, dp: seq<int>, w: int, h: int, m: int, c: Point,
                                        t: int)
    requires |img| == w * h && Inside(c, w, h) && m <= w && m <= h && Kernel(dp, m) && 0 <= t <= |dp|
    requires forall k :: 0 <= k < t && k != CentreCell(m) ==> CellWeight(img, bp, dp, w, h, m, c, k) == 0
    ensures AreaAround(img, bp, dp, w, h, m, c, t) == 0
  {
    if t > 0 { NoiseIsAlone(img, bp, dp, w, h, m, c, t - 1); }
  }

  lemma NoiseBecomesMedian(img: seq<Pixel>, bp: Table, dp: seq<int>, w: int, h: int, m: int, c: Point, a: int, b: int)
    requires |img| == w * h && Inside(c, w, h) && 1 <= m <= w && m <= h && Kernel(dp, m)
    requires forall k :: 0 <= k < |dp| && k != CentreCell(m) ==> CellWeight(img, bp, dp, w, h, m, c, k) == 0
    requires Middle(NeighboursOf(img, w, h, c), a, b)
    ensures Smoothed(img, bp, dp, w, h, m, c) == (a + b) / 2
  {
    NoiseIsAlone(img, bp, dp, w, h, m, c, |dp|);
    MiddleMeanIsMedian(NeighboursOf(img, w, h, c), a, b);
  }

  /** Main result: no smoothed pixel leaves the range of its window. */
  lemma SmoothedWithin(img: seq<Pixel>, bp: Table, dp: seq<int>, w: int, h: int, m: int, c: Point, lo: int, hi: int)
    requires |img| == w * h && Inside(c, w, h) && 1 <= m <= w && m <= h && Kernel(dp, m)
    requires WindowWithin(img, w, h, m, c, lo, hi)
    ensures lo <= Smoothed(img, bp, dp, w, h, m, c) <= hi
  {
    SumsWithin(img, bp, dp, w, h, m, c, lo, hi, |dp|);
    var area := AreaAround(img, bp, dp, w, h, m, c, |dp|);
    if area == 0 {
      var s := NeighboursOf(img, w, h, c);
      forall k | 0 <= k < 8 ensures lo <= s[k] <= hi {
        NeighbourWithin(img, w, h, m, c, lo, hi, RowOf(k), ColumnOf(k));
      }
      MiddleMeanWithin(s, lo, hi);
    } else {
      QuotientWithin(lo, hi, area, TotalAround(img, bp, dp, w, h, m, c, |dp|));
    }
  }

  lemma NeighbourWithin(img: seq<Pixel>, w: int, h: int, m: int, c: Point, lo: int, hi: int, dy: int, dx: int)
    requires |img| == w * h && Inside(c, w, h) && 1 <= m <= w && m <= h && -1 <= dy <= 1 && -1 <= dx <= 1
    requires WindowWithin(img, w, h, m, c, lo, hi)
    ensures lo <= Extended(img, w, h, c.y + dy, c.x + dx) <= hi
  {
    var t := CellAt(img, w, h, m, c, m + dy, m + dx);
  }

  lemma CellAt(img: seq<Pixel>, w: int, h: int, m: int, c: Point, y: int, x: int) returns (t: int)
    requires |img| == w * h && Inside(c, w, h) && 0 <= m <= w && m <= h && 0 <= y <= 2*m && 0 <= x <= 2*m
    ensures t == y * (2*m + 1) + x && 0 <= t < (2*m + 1) * (2*m + 1)
    ensures Cell(img, w, h, m, c, t) == Extended(img, w, h, c.y - m + y, c.x - m + x)
  {
    t := y * (2*m + 1) + x;
    DivModRow(2*m + 1, y, x);
    MulLe(0, y, 2*m + 1);
  }

  lemma SmoothedIsPixel(img: seq<Pixel>, bp: Table, dp: seq<int>, w: int, h: int, m: int, c: Point)
    requires |img| == w * h && Inside(c, w, h) && 1 <= m <= w && m <= h && Kernel(dp, m)
    ensures 0 <= Smoothed(img, bp, dp, w, h, m, c) < 256
  {
    SmoothedWithin(img, bp, dp, w, h, m, c, 0, 255);
  }

  ghost predicate Enlarged(tmp: seq<Pixel>, img: seq<Pixel>, f: Frame) {
    Sized(tmp, img, f) && forall p :: Inside(p, f.W, f.H) ==> Shows(tmp, img, f, p)
  }

  /** Entry (i, j) of the enlarged buffer. */
  lemma EnlargedEntry(tmp: seq<Pixel>, img: seq<Pixel>, f: Frame, i: int, j: int)
    requires Enlarged(tmp, img, f) && 0 <= i < f.H && 0 <= j < f.W
    ensures 0 <= i * f.W + j < |tmp| && tmp[i * f.W + j] == Extended(img, f.w, f.h, i - f.b, j - f.b)
  {
    IdxInRange(f.W, f.H, P(i, j));
    assert Shows(tmp, img, f, P(i, j));
  }

  // ---- The loops -----------------------------------------------------------

  /** A read of pixel (i, j) of the enlarged buffer, at entry k. */
  method Fetch(tmp: array<Pixel>, ghost img: seq<Pixel>, ghost f: Frame, ghost i: int, ghost j: int, k: int)
    returns (v: Pixel)
    requires Enlarged(tmp[..], img, f) && 0 <= i < f.H && 0 <= j < f.W && k == i * f.W + j
    ensures v == Extended(img, f.w, f.h, i - f.b, j - f.b)
  {
    EnlargedEntry(tmp[..], img, f, i, j);
    v := tmp[k];
  }

  /** median: the eight neighbours of (i, j) in the enlarged image. */
  method Median(tmp: array<Pixel>, ghost img: seq<Pixel>, f: Frame, i: int, j: int) returns (v: int)
    requires 1 <= f.b && Enlarged(tmp[..], img, f) && Inside(P(i - f.b, j - f.b), f.w, f.h)
    ensures v == MiddleMean(NeighboursOf(img, f.w, f.h, P(i - f.b, j - f.b)))
  {
    var s := GatherNeighbours(tmp, img, f, i, j);
    var p := new int[8];
    p[0], p[1], p[2], p[3], p[4], p[5], p[6], p[7] := s[0], s[1], s[2], s[3], s[4], s[5], s[6], s[7];
    assert p[..] == s;
    BubbleSort(p);
    v := (p[3] + p[4]) / 2;
  }

  method GatherNeighbours(tmp: array<Pixel>, ghost img: seq<Pixel>, f: Frame, i: int, j: int) returns (s: seq<int>)
    requires 1 <= f.b && Enlarged(tmp[..], img, f) && Inside(P(i - f.b, j - f.b), f.w, f.h)
    ensures s == NeighboursOf(img, f.w, f.h, P(i - f.b, j - f.b))
  {
    var p0 := Neighbour(tmp, img, f, i, j, 0, (i - 1) * f.W + j - 1);
    var p1 := Neighbour(tmp, img, f, i, j, 1, (i - 1) * f.W + j);
    var p2 := Neighbour(tmp, img, f, i, j, 2, (i - 1) * f.W + j + 1);
    var p3 := Neighbour(tmp, img, f, i, j, 3, i * f.W + j - 1);
    var p4 := Neighbour(tmp, img, f, i, j, 4, i * f.W + j + 1);
    var p5 := Neighbour(tmp, img, f, i, j, 5, (i + 1) * f.W + j - 1);
    var p6 := Neighbour(tmp, img, f, i, j, 6, (i + 1) * f.W + j);
    var p7 := Neighbour(tmp, img, f, i, j, 7, (i + 1) * f.W + j + 1);
    s := [p0, p1, p2, p3, p4, p5, p6, p7];
  }

  method Neighbour(tmp: array<Pixel>, ghost img: seq<Pixel>, ghost f: Frame, ghost i: int, ghost j: int,
                   ghost n: int, k: int)
    returns (v: int)
    requires 1 <= f.b && Enlarged(tmp[..], img, f) && Inside(P(i - f.b, j - f.b), f.w, f.h)
    requires 0 <= n < 8 && k == (i + RowOf(n)) * f.W + j + ColumnOf(n)
    ensures v == NeighboursOf(img, f.w, f.h, P(i - f.b, j - f.b))[n]
  {
    v := Fetch(tmp, img, f, i + RowOf(n), j + ColumnOf(n), k);
  }

  /** The body of the inner loops: cell (y, x) of the window whose first pixel is
      (i, j) of the enlarged image. */
  method AddCell(tmp: array<Pixel>, ghost img: seq<Pixel>, bp: Table, dp: seq<int>, ghost f: Frame,
                 ghost i: int, ghost j: int, ghost y: int, ghost x: int,
                 ip: int, dpt: int, centre: Pixel, area0: int, total0: int)
    returns (area: int, total: int)
    requires 1 <= f.b && Enlarged(tmp[..], img, f) && Kernel(dp, f.b) && Inside(P(i, j), f.w, f.h)
    requires 0 <= y <= 2*f.b && 0 <= x <= 2*f.b && centre == At(img, f.w, f.h, P(i, j))
    requires ip == (i + y) * f.W + (j + x) && dpt == y * (2*f.b + 1) + x && 0 <= dpt < |dp|
    requires area0 == AreaTo(img, bp, dp, f.w, f.h, f.b, P(i, j), dpt)
    requires total0 == TotalTo(img, bp, dp, f.w, f.h, f.b, P(i, j), dpt)
    ensures area == AreaTo(img, bp, dp, f.w, f.h, f.b, P(i, j), dpt + 1)
    ensures total == TotalTo(img, bp, dp, f.w, f.h, f.b, P(i, j), dpt + 1)
  {
    ghost var t := CellAt(img, f.w, f.h, f.b, P(i, j), y, x);
    var brightness := Fetch(tmp, img, f, i + y, j + x, ip);
    var k := dp[dpt] * bp[258 + (centre as int) - brightness];
    area := area0 + k;
    total := total0 + k * brightness;
  }

  /** The inner loops: from pixel (i, j) of the enlarged image ip walks the window,
      and dpt the table. */
  method WindowSums(tmp: array<Pixel>, ghost img: seq<Pixel>, bp: Table, dp: seq<int>, f: Frame, i: int, j: int,
                    centre: Pixel)
    returns (area: int, total: int)
    requires 1 <= f.b && Enlarged(tmp[..], img, f) && Kernel(dp, f.b) && Inside(P(i, j), f.w, f.h)
    requires centre == At(img, f.w, f.h, P(i, j))
    ensures area == AreaTo(img, bp, dp, f.w, f.h, f.b, P(i, j), |dp|)
    ensures total == TotalTo(img, bp, dp, f.w, f.h, f.b, P(i, j), |dp|)
  {
    ghost var c := P(i, j);
    var n := 2*f.b + 1;
    var ip, dpt := i * f.W + j, 0;
    area, total := 0, 0;
    for y := 0 to n
      invariant dpt == y * n && 0 <= dpt <= |dp| && ip == (i + y) * f.W + j
      invariant area == AreaTo(img, bp, dp, f.w, f.h, f.b, c, dpt)
      invariant total == TotalTo(img, bp, dp, f.w, f.h, f.b, c, dpt)
    {
      RowStep(n, f.W, y, i);
      for x := 0 to n
        invariant dpt == y * n + x && 0 <= dpt <= |dp| && ip == (i + y) * f.W + j + x
        invariant area == AreaTo(img, bp, dp, f.w, f.h, f.b, c, dpt)
        invariant total == TotalTo(img, bp, dp, f.w, f.h, f.b, c, dpt)
      {
        area, total := AddCell(tmp, img, bp, dp, f, i, j, y, x, ip, dpt, centre, area, total);
        ip, dpt := ip + 1, dpt + 1;
      }
      ip := ip + f.W - n;
    }
  }

  lemma RowStep(n: int, W: int, y: int, i: int)
    requires 0 <= y < n
    ensures 0 <= y * n && y * n + n <= n * n && (y + 1) * n == y * n + n
    ensures (i + (y + 1)) * W == (i + y) * W + W
  {
    MulLe(y + 1, n, n);
    MulLe(0, y, n);
  }

  /** Area and total over the first t cells of the flat window. */
  ghost predicate FlatSumsAre(img: seq<Pixel>, bp: Table, w: int, h: int, c: Point, t: int, area: int, total: int)
    requires |img| == w * h && Inside(c, w, h) && 1 <= w && 1 <= h && 0 <= t <= 9
  {
    area == AreaTo(img, bp, FLAT, w, h, 1, c, t) && total == TotalTo(img, bp, FLAT, w, h, 1, c, t)
  }

  lemma FlatNext(img: seq<Pixel>, bp: Table, w: int, h: int, c: Point, t: int, area: int, total: int, k: int, v: int)
    requires |img| == w * h && Inside(c, w, h) && 1 <= w && 1 <= h && 0 <= t < 9
    requires FlatSumsAre(img, bp, w, h, c, t, area, total)
    requires v == Cell(img, w, h, 1, c, t) && k == Alike(bp, At(img, w, h, c), Cell(img, w, h, 1, c, t))
    ensures FlatSumsAre(img, bp, w, h, c, t + 1, area + k, total + k * v)
  {
    assert FLAT[t] == 1;
  }

  /** One cell of the flat window. */
  method AddFlatCell(tmp: array<Pixel>, ghost img: seq<Pixel>, bp: Table, ghost f: Frame, ghost i: int, ghost j: int,
                     ghost y: int, ghost x: int, ghost t: int, ip: int, centre: Pixel, area0: int, total0: int)
    returns (area: int, total: int)
    requires f.b == 1 && Enlarged(tmp[..], img, f) && Inside(P(i, j), f.w, f.h)
    requires 0 <= y <= 2 && 0 <= x <= 2 && t == 3*y + x && ip == (i + y) * f.W + (j + x)
    requires centre == At(img, f.w, f.h, P(i, j))
    requires FlatSumsAre(img, bp, f.w, f.h, P(i, j), t, area0, total0)
    ensures FlatSumsAre(img, bp, f.w, f.h, P(i, j), t + 1, area, total)
  {
    ghost var cell := CellAt(img, f.w, f.h, 1, P(i, j), y, x);
    var brightness := Fetch(tmp, img, f, i + y, j + x, ip);
    var k := bp[258 + (centre as int) - brightness];
    FlatNext(img, bp, f.w, f.h, P(i, j), cell, area0, total0, k, brightness);
    area := area0 + k;
    total := total0 + k * brightness;
  }

  method AddFlatRow(tmp: array<Pixel>, ghost img: seq<Pixel>, bp: Table, ghost f: Frame, ghost i: int, ghost j: int,
                    ghost y: int, ghost t: int, ip0: int, centre: Pixel, area0: int, total0: int)
    returns (area: int, total: int, ip: int)
    requires f.b == 1 && Enlarged(tmp[..], img, f) && Inside(P(i, j), f.w, f.h)
    requires 0 <= y <= 2 && t == 3*y && centre == At(img, f.w, f.h, P(i, j)) && ip0 == (i + y) * f.W + j
    requires FlatSumsAre(img, bp, f.w, f.h, P(i, j), t, area0, total0)
    ensures FlatSumsAre(img, bp, f.w, f.h, P(i, j), t + 3, area, total)
    ensures ip == ip0 + 2
  {
    ip := ip0;
    area, total := AddFlatCell(tmp, img, bp, f, i, j, y, 0, t, ip, centre, area0, total0);
    ip := ip + 1;
    area, total := AddFlatCell(tmp, img, bp, f, i, j, y, 1, t + 1, ip, centre, area, total);
    ip := ip + 1;
    area, total := AddFlatCell(tmp, img, bp, f, i, j, y, 2, t + 2, ip, centre, area, total);
  }

  /** The nine unrolled reads of the flat mask. */
  method FlatSums(tmp: array<Pixel>, ghost img: seq<Pixel>, bp: Table, f: Frame, i: int, j: int, centre: Pixel)
    returns (area: int, total: int)
    requires f.b == 1 && Enlarged(tmp[..], img, f) && Inside(P(i, j), f.w, f.h)
    requires centre == At(img, f.w, f.h, P(i, j))
    ensures FlatSumsAre(img, bp, f.w, f.h, P(i, j), 9, area, total)
  {
    var ip := i * f.W + j;
    NextRow(i, f.W);
    NextRow(i + 1, f.W);
    area, total, ip := AddFlatRow(tmp, img, bp, f, i, j, 0, 0, ip, centre, 0, 0);
    ip := ip + f.W - 2;
    area, total, ip := AddFlatRow(tmp, img, bp, f, i, j, 1, 3, ip, centre, area, total);
    ip := ip + f.W - 2;
    area, total, ip := AddFlatRow(tmp, img, bp, f, i, j, 2, 6, ip, centre, area, total);
  }

  /** What the sums of a window make of its centre. */
  lemma SumsGive(img: seq<Pixel>, bp: Table, dp: seq<int>, w: int, h: int, m: int, own: int, c: Point, area: int,
                 total: int)
    requires |img| == w * h && Inside(c, w, h) && m <= w && m <= h && Kernel(dp, m) && 1 <= m
    requires own == dp[CentreCell(m)] * 100
    requires area == AreaTo(img, bp, dp, w, h, m, c, |dp|) && total == TotalTo(img, bp, dp, w, h, m, c, |dp|)
    ensures Smoothed(img, bp, dp, w, h, m, c) ==
      if area - own == 0 then MiddleMean(NeighboursOf(img, w, h, c))
      else (total - (At(img, w, h, c) as int) * own) / (area - own)
  {
    CentreLeftOut(img, bp, dp, w, h, m, c, |dp|);
    SwapFactors(own, At(img, w, h, c));
  }

  lemma SwapFactors(a: int, b: int)
    ensures a * b == b * a
  {
  }

  /** The distance weight of the centre. */
  function CentreWeight(flat: bool): int {
    if flat then 1 else 100
  }

  /** The table of a mask: the 3x3 mask has none, all its cells count once. */
  predicate MaskOf(dp: seq<int>, m: int, flat: bool) {
    Mask(dp, m, CentreWeight(flat)) && (flat ==> m == 1 && dp == FLAT)
  }

  /** The sums over the window of pixel c, at (i, j) of the enlarged image. */
  method GatherSums(tmp: array<Pixel>, ghost img: seq<Pixel>, bp: Table, dp: seq<int>, flat: bool, f: Frame,
                    ghost c: Point, i: int, j: int, centre: Pixel)
    returns (area: int, total: int)
    requires Enlarged(tmp[..], img, f) && MaskOf(dp, f.b, flat) && c == P(i - f.b, j - f.b) && Inside(c, f.w, f.h)
    requires centre == At(img, f.w, f.h, c)
    ensures area == AreaTo(img, bp, dp, f.w, f.h, f.b, c, |dp|)
    ensures total == TotalTo(img, bp, dp, f.w, f.h, f.b, c, |dp|)
  {
    if flat {
      area, total := FlatSums(tmp, img, bp, f, i - 1, j - 1, centre);
    } else {
      area, total := WindowSums(tmp, img, bp, dp, f, i - f.b, j - f.b, centre);
    }
  }

  /** The value stored for pixel c, at (i, j) of the enlarged image. */
  method SmoothPixel(tmp: array<Pixel>, ghost img: seq<Pixel>, bp: Table, dp: seq<int>, flat: bool, f: Frame,
                     ghost c: Point, i: int, j: int)
    returns (v: Pixel)
    requires Enlarged(tmp[..], img, f) && MaskOf(dp, f.b, flat) && c == P(i - f.b, j - f.b) && Inside(c, f.w, f.h)
    ensures v == Smoothed(img, bp, dp, f.w, f.h, f.b, c)
  {
    var centre := Fetch(tmp, img, f, i, j, i * f.W + j);
    var area, total := GatherSums(tmp, img, bp, dp, flat, f, c, i, j, centre);
    var own := CentreWeight(flat) * 100;
    SumsGive(img, bp, dp, f.w, f.h, f.b, own, c, area, total);
    SmoothedIsPixel(img, bp, dp, f.w, f.h, f.b, c);
    if area - own == 0 {
      v := Median(tmp, img, f, i, j);
    } else {
      v := (total - (centre as int) * own) / (area - own);
    }
  }

  method NewEnlarged(img: array<Pixel>, f: Frame) returns (tmp: array<Pixel>)
    requires f.Ok() && img.Length == f.w * f.h
    ensures fresh(tmp) && Enlarged(tmp[..], img[..], f)
  {
    SizePositive(f.W, f.H);
    tmp := new Pixel[f.W * f.H];
    Enlarge(img, tmp, f);
  }

  /** susan_smoothing, with the Gaussian or the flat mask. `out` walks the caller's own image
      while every read goes to the enlarged copy, so each pixel is computed from
      the image as it was. The program has refused images smaller than the mask. */
  method SusanSmoothing(img: array<Pixel>, bp: Table, dp: seq<int>, flat: bool, w: int, h: int, m: int)
    requires img.Length == w * h && MaskOf(dp, m, flat) && 2*m + 1 <= w && 2*m + 1 <= h
    modifies img
    ensures forall p :: Inside(p, w, h) ==>
      At(img[..], w, h, p) == Smoothed(old(img[..]), bp, dp, w, h, m, p)
  {
    ghost var before := img[..];
    var f := Frame(w, h, m, w + 2*m, h + 2*m);
    var tmp := NewEnlarged(img, f);
    ghost var enlarged := tmp[..];
    var out := 0;
    for i := m to f.H - m
      invariant out == (i - m) * w
      invariant forall p :: Inside(p, w, h) && Before(p, i - m, 0) ==>
        At(img[..], w, h, p) == Smoothed(before, bp, dp, w, h, m, p)
      invariant tmp[..] == enlarged
    {
      for j := m to f.W - m
        invariant out == (i - m) * w + (j - m)
        invariant forall p :: Inside(p, w, h) && Before(p, i - m, j - m) ==>
          At(img[..], w, h, p) == Smoothed(before, bp, dp, w, h, m, p)
        invariant tmp[..] == enlarged
      {
        var v := SmoothPixel(tmp, before, bp, dp, flat, f, P(i - m, j - m), i, j);
        PutPixel(img, w, h, i - m, j - m, out, v);
        out := out + 1;
      }
      NextRow(i - m, w);
    }
  }

  lemma NextRow(y: int, w: int)
    ensures (y + 1) * w == y * w + w
  {
  }

  method PutPixel(img: array<Pixel>, ghost w: int, ghost h: int, ghost y: int, ghost x: int, out: int, v: Pixel)
    requires img.Length == w * h && Inside(P(y, x), w, h) && out == y * w + x
    modifies img
    ensures forall p :: Inside(p, w, h) ==>
      (At(img[..], w, h, p) == if p == P(y, x) then v else At(old(img[..]), w, h, p))
  {
    IdxInRange(w, h, P(y, x));
    ghost var before := img[..];
    img[out] := v;
    WriteAt(before, w, h, P(y, x), v);
  }

  lemma SizePositive(a: int, b: int)
    requires 0 <= a && 0 <= b
    ensures 0 <= a * b
  {
  }
}
