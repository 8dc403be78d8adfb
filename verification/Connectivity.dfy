/** 8-connectivity of a set of points, and when taking a point away keeps it. */
module Connectivity {
  import opened Grid

  ghost predicate IsPath(e: iset<Point>, path: seq<Point>) {
    && |path| > 0
    && (forall i :: 0 <= i < |path| ==> path[i] in e)
    && (forall i :: 0 <= i < |path| - 1 ==> Adjacent(path[i], path[i + 1]))
  }

  ghost predicate Connected(e: iset<Point>, p: Point, q: Point) {
    exists path :: IsPath(e, path) && path[0] == p && path[|path| - 1] == q
  }

  /** All points connected to p: two points have equal components exactly when
      they are connected. */
  ghost function Component(e: iset<Point>, p: Point): iset<Point> {
    iset q | Connected(e, p, q)
  }

  /** Whatever is still there after the step from e to e' and was connected
      before is connected after. */
  ghost predicate KeepsJoined(e: iset<Point>, e': iset<Point>) {
    forall p, q :: p in e' && q in e' && Connected(e, p, q) ==> Connected(e', p, q)
  }

  /** The e-neighbours of c all lie in one component of e'. */
  ghost predicate OneComponentAround(e: iset<Point>, e': iset<Point>, c: Point) {
    forall u, v ::
      u in e && v in e && Adjacent(u, c) && Adjacent(v, c) ==> Component(e', u) == Component(e', v)
  }

  lemma ConnectedSelf(e: iset<Point>, p: Point)
    requires p in e
    ensures Connected(e, p, p)
  {
    assert IsPath(e, [p]);
  }

  lemma ConnectedStep(e: iset<Point>, p: Point, q: Point)
    requires p in e && q in e && Adjacent(p, q)
    ensures Connected(e, p, q)
  {
    assert IsPath(e, [p, q]);
  }

  lemma ConnectedJoin(e: iset<Point>, p: Point, q: Point, r: Point)
    requires Connected(e, p, q) && Connected(e, q, r)
    ensures Connected(e, p, r)
  {
    var a :| IsPath(e, a) && a[0] == p && a[|a| - 1] == q;
    var b :| IsPath(e, b) && b[0] == q && b[|b| - 1] == r;
    var path := a + b[1..];
    assert IsPath(e, path);
  }

  lemma AdjacentComponents(e: iset<Point>, p: Point, q: Point)
    requires p in e && q in e && Adjacent(p, q)
    ensures Component(e, p) == Component(e, q)
  {
    ConnectedStep(e, p, q);
    ConnectedStep(e, q, p);
    forall r ensures Connected(e, p, r) <==> Connected(e, q, r) {
      if Connected(e, p, r) { ConnectedJoin(e, q, p, r); }
      if Connected(e, q, r) { ConnectedJoin(e, p, q, r); }
    }
  }

  lemma SameComponent(e: iset<Point>, p: Point, q: Point)
    requires q in e && Component(e, p) == Component(e, q)
    ensures Connected(e, p, q)
  {
    ConnectedSelf(e, q);
    assert q in Component(e, q);
  }

  lemma GrowingKeepsJoined(e: iset<Point>, e': iset<Point>)
    requires e <= e'
    ensures KeepsJoined(e, e')
  {
    forall p, q | Connected(e, p, q) ensures Connected(e', p, q) {
      var a :| IsPath(e, a) && a[0] == p && a[|a| - 1] == q;
      assert IsPath(e', a);
    }
  }

  /** Reroute a path around c, whose neighbours on the path all lie in one
      component of the points that remain. */
  lemma {:induction false} Reroute(e: iset<Point>, e': iset<Point>, c: Point, path: seq<Point>)
    requires forall p :: p in e && p != c ==> p in e'
    requires OneComponentAround(e, e', c)
    requires IsPath(e, path) && path[0] != c && path[|path| - 1] != c
    ensures Connected(e', path[0], path[|path| - 1])
    decreases |path|
  {
    var n := |path|;
    var last := path[n - 1];
    if n == 1 {
      ConnectedSelf(e', last);
    } else if path[n - 2] != c {
      assert IsPath(e, path[..n - 1]);
      Reroute(e, e', c, path[..n - 1]);
      assert Adjacent(path[n - 2], path[n - 1]);
      ConnectedStep(e', path[n - 2], last);
      ConnectedJoin(e', path[0], path[n - 2], last);
    } else {
      assert Adjacent(path[n - 3], path[n - 2]) && Adjacent(path[n - 2], path[n - 1]);
      assert IsPath(e, path[..n - 2]);
      Reroute(e, e', c, path[..n - 2]);
      SameComponent(e', path[n - 3], last);
      ConnectedJoin(e', path[0], path[n - 3], last);
    }
  }

  lemma RemovalKeepsJoined(e: iset<Point>, e': iset<Point>, c: Point)
    requires c !in e' && forall p :: p in e && p != c ==> p in e'
    requires OneComponentAround(e, e', c)
    ensures KeepsJoined(e, e')
  {
    forall p, q | p in e' && q in e' && Connected(e, p, q) ensures Connected(e', p, q) {
      var path :| IsPath(e, path) && path[0] == p && path[|path| - 1] == q;
      Reroute(e, e', c, path);
    }
  }
}
