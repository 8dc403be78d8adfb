/** The worklist search over the static call graph (libc/parse_static_reachable_funcs.py). */
module CallGraph {
  import opened StringSets
  import opened Text

  type Graph = map<string, seq<string>>

  type Worklist = seq<(string, nat)>

  /** A call chain from a root; its length is the depth of its last function. */
  ghost predicate IsPath(g: Graph, roots: seq<string>, p: seq<string>) {
    && p != [] && p[0] in roots
    && forall i :: 0 <= i < |p| - 1 ==> p[i] in g && p[i + 1] in g[p[i]]
  }

  ghost predicate ReachedAt(g: Graph, roots: seq<string>, f: string, depth: nat) {
    exists p :: IsPath(g, roots, p) && |p| == depth && p[|p| - 1] == f
  }

  ghost predicate Reachable(g: Graph, roots: seq<string>, f: string) {
    exists p :: IsPath(g, roots, p) && p[|p| - 1] == f
  }

  lemma RootReached(g: Graph, roots: seq<string>, f: string)
    requires f in roots
    ensures ReachedAt(g, roots, f, 1)
  {
    assert IsPath(g, roots, [f]);
  }

  lemma CalleeReached(g: Graph, roots: seq<string>, f: string, depth: nat, callee: string)
    requires ReachedAt(g, roots, f, depth) && f in g && callee in g[f]
    ensures ReachedAt(g, roots, callee, depth + 1)
  {
    var p :| IsPath(g, roots, p) && |p| == depth && p[|p| - 1] == f;
    assert IsPath(g, roots, p + [callee]);
  }

  // ---- Out-degrees --------------------------------------------------------------

  function Calls(g: Graph, f: string): nat {
    if f in g then |g[f]| else 0
  }

  function CallSum(g: Graph, order: seq<string>): nat {
    if order == [] then 0 else CallSum(g, order[..|order| - 1]) + Calls(g, order[|order| - 1])
  }

  ghost predicate Distinct(order: seq<string>) {
    forall i, j :: 0 <= i < j < |order| ==> order[i] != order[j]
  }

  lemma {:induction false} CallSumConcat(g: Graph, a: seq<string>, b: seq<string>)
    ensures CallSum(g, a + b) == CallSum(g, a) + CallSum(g, b)
    decreases |b|
  {
    if b == [] {
      assert a + b == a;
    } else {
      CallSumConcat(g, a, b[..|b| - 1]);
      assert (a + b)[..|a + b| - 1] == a + b[..|b| - 1];
    }
  }

  lemma ElementsWithout(order: seq<string>, k: nat)
    requires k < |order| && Distinct(order)
    ensures var rest := order[..k] + order[k + 1..];
            Distinct(rest) && Elements(rest) == Elements(order) - {order[k]}
  {
    var front, back := order[..k], order[k + 1..];
    forall f | f in order && f != order[k] ensures f in front + back {
      var i :| 0 <= i < |order| && order[i] == f;
      assert f == if i < k then front[i] else back[i - k - 1];
    }
  }

  lemma CallSumWithout(g: Graph, order: seq<string>, k: nat)
    requires k < |order|
    ensures CallSum(g, order) == CallSum(g, order[..k] + order[k + 1..]) + Calls(g, order[k])
  {
    var front, back := order[..k], order[k + 1..];
    assert order == (front + [order[k]]) + back;
    CallSumConcat(g, front + [order[k]], back);
    CallSumConcat(g, front, [order[k]]);
    CallSumConcat(g, front, back);
    assert CallSum(g, [order[k]]) == Calls(g, order[k]);
  }

  /** The sum of out-list lengths depends on the set of functions only. */
  lemma {:induction false} CallSumOfSet(g: Graph, a: seq<string>, b: seq<string>)
    requires Distinct(a) && Distinct(b) && Elements(a) == Elements(b)
    ensures CallSum(g, a) == CallSum(g, b)
    decreases |a|
  {
    EmptyListing(a);
    EmptyListing(b);
    if a != [] {
      var f := a[|a| - 1];
      assert f in Elements(b);
      var k :| 0 <= k < |b| && b[k] == f;
      ElementsWithout(a, |a| - 1);
      ElementsWithout(b, k);
      CallSumWithout(g, a, |a| - 1);
      CallSumWithout(g, b, k);
      assert a[..|a| - 1] + a[|a|..] == a[..|a| - 1];
      CallSumOfSet(g, a[..|a| - 1], b[..k] + b[k + 1..]);
    }
  }

  // ---- Invariants of the search ---------------------------------------------------

  /** Everything waiting has a call chain of the noted depth. */
  ghost predicate Justified(g: Graph, roots: seq<string>, work: Worklist) {
    forall k :: 0 <= k < |work| ==> ReachedAt(g, roots, work[k].0, work[k].1)
  }

  ghost predicate Waiting(work: Worklist, f: string) {
    exists k :: 0 <= k < |work| && work[k].0 == f
  }

  ghost predicate Seen(work: Worklist, visited: set<string>, f: string) {
    f in visited || Waiting(work, f)
  }

  /** Roots, and callees of visited functions, are visited or waiting. */
  ghost predicate Covered(g: Graph, roots: seq<string>, work: Worklist, visited: set<string>) {
    && (forall f :: f in roots ==> Seen(work, visited, f))
    && (forall f, callee :: f in visited && f in g && callee in g[f] ==> Seen(work, visited, callee))
  }

  lemma {:induction false} PathVisited(g: Graph, roots: seq<string>, visited: set<string>, p: seq<string>)
    requires Covered(g, roots, [], visited) && IsPath(g, roots, p)
    ensures p[|p| - 1] in visited
    decreases |p|
  {
    if |p| == 1 {
      assert Seen([], visited, p[0]);
    } else {
      var init := p[..|p| - 1];
      assert IsPath(g, roots, init);
      PathVisited(g, roots, visited, init);
      assert p[|p| - 2] in g && p[|p| - 2 + 1] in g[p[|p| - 2]];
      assert Seen([], visited, p[|p| - 1]);
    }
  }

  /** Depths at first visit: level `top` is the deepest, and no level is skipped. */
  ghost predicate Levels(depthOf: map<string, nat>, top: nat) {
    && (forall f :: f in depthOf ==> 1 <= depthOf[f] <= top)
    && (forall d: nat :: 1 <= d <= top ==> d in depthOf.Values)
  }

  ghost predicate Shallow(work: Worklist, top: nat) {
    forall k :: 0 <= k < |work| ==> 1 <= work[k].1 <= top + 1
  }

  lemma LevelsBound(depthOf: map<string, nat>, top: nat)
    requires Levels(depthOf, top)
    ensures top <= |depthOf|
  {
    ValuesBound(depthOf);
    SubsetSize(UpTo(top), depthOf.Values);
  }

  lemma {:induction false} ValuesBound(m: map<string, nat>)
    ensures |m.Values| <= |m|
    decreases |m|
  {
    if m != map[] {
      var k :| k in m;
      var rest := m - {k};
      assert |rest| == |m| - 1 by { assert rest.Keys == m.Keys - {k}; }
      ValuesBound(rest);
      assert m.Values == rest.Values + {m[k]};
    }
  }

  ghost function UpTo(top: nat): (s: set<nat>)
    ensures |s| == top && forall d :: d in s <==> 1 <= d <= top
  {
    if top == 0 then {} else UpTo(top - 1) + {top}
  }

  lemma {:induction false} SubsetSize<T>(a: set<T>, b: set<T>)
    requires a <= b
    ensures |a| <= |b|
    decreases |a|
  {
    if a != {} {
      var x :| x in a;
      SubsetSize(a - {x}, b - {x});
    }
  }

  // ---- One turn ---------------------------------------------------------------------

  ghost function Universe(g: Graph, roots: seq<string>): set<string> {
    Elements(roots) + set f, callee | f in g && callee in g[f] :: callee
  }

  ghost predicate Inside(work: Worklist, universe: set<string>) {
    forall k :: 0 <= k < |work| ==> work[k].0 in universe
  }

  function Pushed(work: Worklist, callees: seq<string>, depth: nat): (r: Worklist)
    ensures |r| == |work| + |callees|
    ensures forall k :: 0 <= k < |work| ==> r[k] == work[k]
    ensures forall k :: 0 <= k < |callees| ==> r[|work| + k] == (callees[k], depth)
  {
    work + seq(|callees|, k requires 0 <= k < |callees| => (callees[k], depth))
  }

  /** What waits after a first visit to f: its callees are added, one level deeper. */
  function After(g: Graph, work: Worklist, f: string, depth: nat): Worklist {
    if f in g then Pushed(work, g[f], depth + 1) else work
  }

  lemma AfterJustified(g: Graph, roots: seq<string>, work: Worklist, f: string, depth: nat)
    requires Justified(g, roots, work) && ReachedAt(g, roots, f, depth)
    ensures Justified(g, roots, After(g, work, f, depth))
  {
    if f in g {
      var next := After(g, work, f, depth);
      forall k | 0 <= k < |next| ensures ReachedAt(g, roots, next[k].0, next[k].1) {
        if k >= |work| {
          assert next[k] == (g[f][k - |work|], depth + 1);
          CalleeReached(g, roots, f, depth, next[k].0);
        }
      }
    }
  }

  lemma AfterCovered(g: Graph, roots: seq<string>, work: Worklist, visited: set<string>, f: string, depth: nat)
    requires work != [] && work[|work| - 1].0 == f && Covered(g, roots, work, visited)
    ensures Covered(g, roots, After(g, work[..|work| - 1], f, depth), visited + {f})
  {
    var rest := work[..|work| - 1];
    var next := After(g, rest, f, depth);
    forall x | Seen(work, visited, x) ensures Seen(next, visited + {f}, x) {
      StillSeen(g, work, visited, f, depth, x);
    }
    forall callee | f in g && callee in g[f] ensures Waiting(next, callee) {
      var k :| 0 <= k < |g[f]| && g[f][k] == callee;
      assert next[|rest| + k].0 == callee;
    }
  }

  lemma StillSeen(g: Graph, work: Worklist, visited: set<string>, f: string, depth: nat, x: string)
    requires work != [] && work[|work| - 1].0 == f && Seen(work, visited, x)
    ensures Seen(After(g, work[..|work| - 1], f, depth), visited + {f}, x)
  {
    if x !in visited + {f} {
      var k :| 0 <= k < |work| && work[k].0 == x;
      assert After(g, work[..|work| - 1], f, depth)[k].0 == x;
    }
  }

  /** Popping a function that was visited before loses nothing. */
  lemma PopCovered(g: Graph, roots: seq<string>, work: Worklist, visited: set<string>)
    requires work != [] && work[|work| - 1].0 in visited && Covered(g, roots, work, visited)
    ensures Covered(g, roots, work[..|work| - 1], visited)
  {
    var rest := work[..|work| - 1];
    forall x | Seen(work, visited, x) ensures Seen(rest, visited, x) {
      if x !in visited {
        var k :| 0 <= k < |work| && work[k].0 == x;
        assert rest[k].0 == x;
      }
    }
  }

  lemma LevelsAdd(depthOf: map<string, nat>, top: nat, f: string, depth: nat)
    requires Levels(depthOf, top) && f !in depthOf && 1 <= depth <= top + 1
    ensures Levels(depthOf[f := depth], if depth > top then depth else top)
  {
    var next := depthOf[f := depth];
    forall d: nat | d in depthOf.Values ensures d in next.Values {
      var x :| x in depthOf && depthOf[x] == d;
      assert next[x] == d;
    }
    assert next[f] == depth;
  }

  /** Every visited function has a call chain of the depth at which it was visited. */
  ghost predicate Explained(g: Graph, roots: seq<string>, depthOf: map<string, nat>) {
    forall f :: f in depthOf ==> ReachedAt(g, roots, f, depthOf[f])
  }

  /** The functions visited so far, in order. */
  ghost predicate Enumerates(order: seq<string>, visited: set<string>) {
    Distinct(order) && Elements(order) == visited && |order| == |visited|
  }

  lemma EnumeratesAdd(order: seq<string>, visited: set<string>, f: string)
    requires Enumerates(order, visited) && f !in visited
    ensures Enumerates(order + [f], visited + {f})
  {
    assert f !in Elements(order);
    forall x | x in visited + {f} ensures x in order + [f] {
      if x in visited { assert x in Elements(order); }
    }
  }

  datatype Stats = Stats(maxDepth: nat, edges: nat, nonDivergent: nat, keyErrors: nat)

  /** The counters are those of the visited functions. */
  ghost predicate Counted(g: Graph, nonDivergent: set<string>, order: seq<string>, visited: set<string>, stats: Stats) {
    && stats.edges == CallSum(g, order)
    && stats.nonDivergent == |visited * nonDivergent|
    && stats.keyErrors == |visited - g.Keys|
  }

  /** How a first visit changes the counters. */
  function Tally(g: Graph, nonDivergent: set<string>, stats: Stats, f: string): Stats {
    stats.(nonDivergent := stats.nonDivergent + if f in nonDivergent then 1 else 0,
           keyErrors := stats.keyErrors + if f in g then 0 else 1,
           edges := stats.edges + Calls(g, f))
  }

  lemma CountIn(visited: set<string>, names: set<string>, f: string)
    requires f !in visited
    ensures |(visited + {f}) * names| == |visited * names| + if f in names then 1 else 0
    ensures |(visited + {f}) - names| == |visited - names| + if f in names then 0 else 1
  {
    if f in names {
      assert (visited + {f}) * names == visited * names + {f} && (visited + {f}) - names == visited - names;
    } else {
      assert (visited + {f}) * names == visited * names && (visited + {f}) - names == visited - names + {f};
    }
  }

  lemma CountedAdd(g: Graph, nonDivergent: set<string>, order: seq<string>, visited: set<string>, stats: Stats,
                   f: string)
    requires Counted(g, nonDivergent, order, visited, stats) && f !in visited
    ensures Counted(g, nonDivergent, order + [f], visited + {f}, Tally(g, nonDivergent, stats, f))
  {
    assert (order + [f])[..|order|] == order;
    CountIn(visited, nonDivergent, f);
    CountIn(visited, g.Keys, f);
  }

  // ---- The search ---------------------------------------------------------------------

  ghost predicate Searching(g: Graph, roots: seq<string>, work: Worklist, visited: set<string>,
                            depthOf: map<string, nat>, top: nat)
  {
    && Justified(g, roots, work) && Covered(g, roots, work, visited) && Shallow(work, top)
    && Levels(depthOf, top) && Explained(g, roots, depthOf) && depthOf.Keys == visited
  }

  lemma SearchStarts(g: Graph, roots: seq<string>, work: Worklist)
    requires work == Pushed([], roots, 1)
    ensures Searching(g, roots, work, {}, map[], 0)
  {
    forall k | 0 <= k < |work| ensures ReachedAt(g, roots, work[k].0, work[k].1) {
      assert work[k] == (roots[k], 1);
      RootReached(g, roots, roots[k]);
    }
    forall f | f in roots ensures Seen(work, {}, f) {
      var k :| 0 <= k < |roots| && roots[k] == f;
      assert work[k].0 == f;
    }
    var m: map<string, nat> := map[];
    assert m.Keys == {};
  }

  lemma SearchSkips(g: Graph, roots: seq<string>, work: Worklist, visited: set<string>, depthOf: map<string, nat>,
                    top: nat)
    requires Searching(g, roots, work, visited, depthOf, top) && work != [] && work[|work| - 1].0 in visited
    ensures Searching(g, roots, work[..|work| - 1], visited, depthOf, top)
  {
    PopCovered(g, roots, work, visited);
  }

  lemma SearchVisits(g: Graph, roots: seq<string>, work: Worklist, visited: set<string>, depthOf: map<string, nat>,
                     top: nat, f: string, depth: nat)
    requires Searching(g, roots, work, visited, depthOf, top) && work != []
    requires work[|work| - 1] == (f, depth) && f !in visited
    ensures Searching(g, roots, After(g, work[..|work| - 1], f, depth), visited + {f}, depthOf[f := depth],
                      if depth > top then depth else top)
  {
    var rest := work[..|work| - 1];
    assert ReachedAt(g, roots, work[|work| - 1].0, work[|work| - 1].1);
    assert Justified(g, roots, rest);
    AfterJustified(g, roots, rest, f, depth);
    AfterCovered(g, roots, work, visited, f, depth);
    LevelsAdd(depthOf, top, f, depth);
    AfterShallow(g, work, f, depth, top);
    assert depthOf[f := depth].Keys == visited + {f};
  }

  lemma AfterShallow(g: Graph, work: Worklist, f: string, depth: nat, top: nat)
    requires work != [] && work[|work| - 1] == (f, depth) && Shallow(work, top)
    ensures Shallow(After(g, work[..|work| - 1], f, depth), if depth > top then depth else top)
  {
    var rest := work[..|work| - 1];
    var next := After(g, rest, f, depth);
    forall k | 0 <= k < |next| ensures 1 <= next[k].1 <= (if depth > top then depth else top) + 1 {
      if k < |rest| {
        assert next[k] == work[k] && 1 <= work[k].1 <= top + 1;
      } else {
        assert next[k] == (g[f][k - |rest|], depth + 1);
      }
    }
  }

  lemma CalleeInUniverse(g: Graph, roots: seq<string>, f: string, callee: string)
    requires f in g && callee in g[f]
    ensures callee in Universe(g, roots)
  {
  }

  lemma AfterInside(g: Graph, roots: seq<string>, work: Worklist, f: string, depth: nat)
    requires Inside(work, Universe(g, roots))
    ensures Inside(After(g, work, f, depth), Universe(g, roots))
  {
    var next := After(g, work, f, depth);
    forall k | 0 <= k < |next| ensures next[k].0 in Universe(g, roots) {
      if k >= |work| {
        assert next[k] == (g[f][k - |work|], depth + 1);
        CalleeInUniverse(g, roots, f, next[k].0);
      }
    }
  }

  /** A reachable function has some chain no longer than the bound. */
  ghost predicate Within(g: Graph, roots: seq<string>, f: string, bound: nat) {
    exists d: nat :: d <= bound && ReachedAt(g, roots, f, d)
  }

  /** What explains the state of the loop: the depth at which each function was first
      visited, the deepest level, and the order of the visits. */
  datatype History = History(depthOf: map<string, nat>, top: nat, order: seq<string>)

  ghost predicate Sound(g: Graph, nonDivergent: set<string>, roots: seq<string>, work: Worklist,
                        visited: set<string>, stats: Stats, h: History)
  {
    && Searching(g, roots, work, visited, h.depthOf, h.top)
    && Inside(work, Universe(g, roots)) && Tallied(g, nonDivergent, visited, stats, h)
  }

  ghost predicate Tallied(g: Graph, nonDivergent: set<string>, visited: set<string>, stats: Stats, h: History) {
    && h.top <= stats.maxDepth <= h.top + 1
    && Enumerates(h.order, visited) && Counted(g, nonDivergent, h.order, visited, stats)
  }

  function Deeper(stats: Stats, depth: nat): Stats {
    stats.(maxDepth := if depth > stats.maxDepth then depth else stats.maxDepth)
  }

  function Visited(h: History, f: string, depth: nat): History {
    History(h.depthOf[f := depth], if depth > h.top then depth else h.top, h.order + [f])
  }

  lemma SoundStart(g: Graph, nonDivergent: set<string>, roots: seq<string>, work: Worklist)
    requires work == Pushed([], roots, 1)
    ensures Sound(g, nonDivergent, roots, work, {}, Stats(0, 0, 0, 0), History(map[], 0, []))
  {
    SearchStarts(g, roots, work);
    RootsInside(g, roots, work);
    var none: set<string> := {};
    assert none * nonDivergent == {} && none - g.Keys == {};
  }

  lemma RootsInside(g: Graph, roots: seq<string>, work: Worklist)
    requires work == Pushed([], roots, 1)
    ensures Inside(work, Universe(g, roots))
  {
    var universe := Universe(g, roots);
    assert Elements(roots) <= universe;
    forall k | 0 <= k < |work| ensures work[k].0 in universe {
      assert work[k] == (roots[k], 1) && roots[k] in Elements(roots);
    }
  }

  lemma SoundSkip(g: Graph, nonDivergent: set<string>, roots: seq<string>, work: Worklist, visited: set<string>,
                  stats: Stats, h: History)
    requires Sound(g, nonDivergent, roots, work, visited, stats, h)
    requires work != [] && work[|work| - 1].0 in visited
    ensures Sound(g, nonDivergent, roots, work[..|work| - 1], visited, Deeper(stats, work[|work| - 1].1), h)
  {
    SearchSkips(g, roots, work, visited, h.depthOf, h.top);
    PoppedBounds(g, roots, work, h.top);
  }

  lemma SoundVisit(g: Graph, nonDivergent: set<string>, roots: seq<string>, work: Worklist, visited: set<string>,
                   stats: Stats, h: History,
                   f: string, depth: nat, next: Worklist, visited': set<string>, stats': Stats)
    requires Sound(g, nonDivergent, roots, work, visited, stats, h)
    requires work != [] && work[|work| - 1] == (f, depth) && f !in visited
    requires next == After(g, work[..|work| - 1], f, depth) && visited' == visited + {f}
    requires stats' == Tally(g, nonDivergent, Deeper(stats, depth), f)
    ensures f in Universe(g, roots)
    ensures Sound(g, nonDivergent, roots, next, visited', stats', Visited(h, f, depth))
  {
    PoppedBounds(g, roots, work, h.top);
    SearchingVisit(g, roots, work, visited, h, f, depth, next);
    TalliedVisit(g, nonDivergent, visited, stats, h, f, depth);
  }

  lemma PoppedBounds(g: Graph, roots: seq<string>, work: Worklist, top: nat)
    requires work != [] && Inside(work, Universe(g, roots)) && Shallow(work, top)
    ensures work[|work| - 1].0 in Universe(g, roots) && 1 <= work[|work| - 1].1 <= top + 1
  {
  }

  lemma SearchingVisit(g: Graph, roots: seq<string>, work: Worklist, visited: set<string>, h: History, f: string,
                       depth: nat, next: Worklist)
    requires Searching(g, roots, work, visited, h.depthOf, h.top) && Inside(work, Universe(g, roots)) && work != []
    requires work[|work| - 1] == (f, depth) && f !in visited && next == After(g, work[..|work| - 1], f, depth)
    ensures Searching(g, roots, next, visited + {f}, Visited(h, f, depth).depthOf, Visited(h, f, depth).top)
    ensures Inside(next, Universe(g, roots))
  {
    SearchVisits(g, roots, work, visited, h.depthOf, h.top, f, depth);
    AfterInside(g, roots, work[..|work| - 1], f, depth);
  }

  lemma TalliedVisit(g: Graph, nonDivergent: set<string>, visited: set<string>, stats: Stats, h: History, f: string,
                     depth: nat)
    requires Tallied(g, nonDivergent, visited, stats, h) && f !in visited && 1 <= depth <= h.top + 1
    ensures Tallied(g, nonDivergent, visited + {f}, Tally(g, nonDivergent, Deeper(stats, depth), f),
                    Visited(h, f, depth))
  {
    EnumeratesAdd(h.order, visited, f);
    CountedAdd(g, nonDivergent, h.order, visited, Deeper(stats, depth), f);
  }

  /** One turn: the entry on top is popped, and a function met for the first time is
      counted and its callees pushed. */
  ghost predicate Turned(g: Graph, nonDivergent: set<string>, work: Worklist, visited: set<string>, stats: Stats,
                         work': Worklist, visited': set<string>, stats': Stats)
    requires work != []
  {
    var (f, depth) := work[|work| - 1];
    if f in visited then work' == work[..|work| - 1] && visited' == visited && stats' == Deeper(stats, depth)
    else work' == After(g, work[..|work| - 1], f, depth) && visited' == visited + {f}
         && stats' == Tally(g, nonDivergent, Deeper(stats, depth), f)
  }

  /** The body of the loop. */
  method Turn(g: Graph, nonDivergent: set<string>, work: Worklist, visited: set<string>, stats: Stats)
    returns (work': Worklist, visited': set<string>, stats': Stats)
    requires work != []
    ensures Turned(g, nonDivergent, work, visited, stats, work', visited', stats')
  {
    var (f, depth) := work[|work| - 1];
    work', visited', stats' := work[..|work| - 1], visited, stats;
    if depth > stats'.maxDepth {
      stats' := stats'.(maxDepth := depth);
    }
    if f in visited { return; }
    visited' := visited' + {f};
    if f in nonDivergent {
      stats' := stats'.(nonDivergent := stats'.nonDivergent + 1);
    }
    if f !in g {
      stats' := stats'.(keyErrors := stats'.keyErrors + 1);
      return;
    }
    stats' := stats'.(edges := stats'.edges + |g[f]|);
    work' := Pushed(work', g[f], depth + 1);
  }

  lemma SoundTurn(g: Graph, nonDivergent: set<string>, roots: seq<string>, work: Worklist, visited: set<string>,
                  stats: Stats, h: History,
                  work': Worklist, visited': set<string>, stats': Stats)
    returns (h': History)
    requires Sound(g, nonDivergent, roots, work, visited, stats, h) && work != []
    requires Turned(g, nonDivergent, work, visited, stats, work', visited', stats')
    ensures Sound(g, nonDivergent, roots, work', visited', stats', h')
    ensures (visited' == visited && |work'| < |work|) || Universe(g, roots) - visited' < Universe(g, roots) - visited
  {
    var (f, depth) := work[|work| - 1];
    if f in visited {
      SoundSkip(g, nonDivergent, roots, work, visited, stats, h);
      h' := h;
    } else {
      SoundVisit(g, nonDivergent, roots, work, visited, stats, h, f, depth, work', visited', stats');
      h' := Visited(h, f, depth);
      assert f in Universe(g, roots) - visited && f !in Universe(g, roots) - visited';
    }
  }

  // ---- The order of the search ----------------------------------------------------------

  /** The stack and the visited functions once these entries have been popped. */
  ghost function StackAfter(g: Graph, roots: seq<string>, popped: Worklist): (Worklist, set<string>) {
    if popped == [] then (Pushed([], roots, 1), {})
    else
      var (work, visited) := StackAfter(g, roots, popped[..|popped| - 1]);
      if work == [] then (work, visited)
      else
        var (f, depth) := work[|work| - 1];
        if f in visited then (work[..|work| - 1], visited)
        else (After(g, work[..|work| - 1], f, depth), visited + {f})
  }

  /** These entries are popped in this order, last in first out. */
  ghost predicate StackRun(g: Graph, roots: seq<string>, popped: Worklist) {
    forall n :: 0 <= n < |popped| ==> TopAfter(g, roots, popped, n)
  }

  ghost predicate TopAfter(g: Graph, roots: seq<string>, popped: Worklist, n: nat)
    requires n < |popped|
  {
    var work := StackAfter(g, roots, popped[..n]).0;
    work != [] && work[|work| - 1] == popped[n]
  }

  /** The greatest depth of the entries, and the last one. */
  ghost predicate Depths(popped: Worklist, maxDepth: nat, lastDepth: Option<nat>) {
    if popped == [] then maxDepth == 0 && lastDepth == None
    else
      && lastDepth == Some(popped[|popped| - 1].1)
      && (forall k :: 0 <= k < |popped| ==> popped[k].1 <= maxDepth)
      && (exists k :: 0 <= k < |popped| && popped[k].1 == maxDepth)
  }

  /** Every entry that was pushed, for a root or for a call, is popped or waits. */
  ghost predicate Logged(g: Graph, roots: seq<string>, popped: Worklist, work: Worklist, visited: set<string>,
                         stats: Stats, lastDepth: Option<nat>)
  {
    && StackRun(g, roots, popped) && StackAfter(g, roots, popped) == (work, visited)
    && Depths(popped, stats.maxDepth, lastDepth)
    && |popped| + |work| == |roots| + stats.edges
  }

  lemma DepthsAdd(popped: Worklist, stats: Stats, lastDepth: Option<nat>, e: (string, nat))
    requires Depths(popped, stats.maxDepth, lastDepth)
    ensures Depths(popped + [e], Deeper(stats, e.1).maxDepth, Some(e.1))
  {
    var more := popped + [e];
    assert more[|popped|] == e;
    if popped != [] && e.1 <= stats.maxDepth {
      var k :| 0 <= k < |popped| && popped[k].1 == stats.maxDepth;
      assert more[k].1 == stats.maxDepth;
    }
  }

  lemma StackRunAdd(g: Graph, roots: seq<string>, popped: Worklist, work: Worklist, visited: set<string>)
    requires StackRun(g, roots, popped) && StackAfter(g, roots, popped) == (work, visited) && work != []
    ensures StackRun(g, roots, popped + [work[|work| - 1]])
  {
    var more := popped + [work[|work| - 1]];
    forall n | 0 <= n < |more| ensures TopAfter(g, roots, more, n) {
      assert more[..n] == popped[..n];
      if n < |popped| {
        assert TopAfter(g, roots, popped, n);
      } else {
        assert popped[..n] == popped;
      }
    }
  }

  lemma StackAfterAdd(g: Graph, roots: seq<string>, popped: Worklist, e: (string, nat))
    ensures StackAfter(g, roots, popped + [e]) ==
            (var (work, visited) := StackAfter(g, roots, popped);
             if work == [] then (work, visited)
             else
               var (f, depth) := work[|work| - 1];
               if f in visited then (work[..|work| - 1], visited)
               else (After(g, work[..|work| - 1], f, depth), visited + {f}))
  {
    assert (popped + [e])[..|popped|] == popped;
  }

  lemma LoggedTurn(g: Graph, nonDivergent: set<string>, roots: seq<string>, popped: Worklist, work: Worklist,
                   visited: set<string>, stats: Stats, lastDepth: Option<nat>,
                   work': Worklist, visited': set<string>, stats': Stats)
    requires Logged(g, roots, popped, work, visited, stats, lastDepth) && work != []
    requires Turned(g, nonDivergent, work, visited, stats, work', visited', stats')
    ensures Logged(g, roots, popped + [work[|work| - 1]], work', visited', stats', Some(work[|work| - 1].1))
  {
    var e := work[|work| - 1];
    StackRunAdd(g, roots, popped, work, visited);
    StackAfterAdd(g, roots, popped, e);
    DepthsAdd(popped, stats, lastDepth, e);
  }

  /** The search visits exactly the reachable functions, and counts them, their
      out-lists and the ones without an entry. It pops one entry for every root and every
      counted call, last in first out. The greatest depth it pops is at least the shortest
      depth of every reachable function, and exceeds the number of visited functions by
      one at most. The last depth, printed at the end, is that of the last entry, and
      exists exactly when there is a root. */
  method Search(g: Graph, nonDivergent: set<string>, roots: seq<string>)
    returns (stats: Stats, visited: set<string>, lastDepth: Option<nat>,
             ghost order: seq<string>, ghost popped: Worklist)
    ensures forall f :: f in visited <==> Reachable(g, roots, f)
    ensures Enumerates(order, visited) && Counted(g, nonDivergent, order, visited, stats)
    ensures StackRun(g, roots, popped) && |popped| == |roots| + stats.edges
    ensures Depths(popped, stats.maxDepth, lastDepth)
    ensures forall f :: f in visited ==> Within(g, roots, f, stats.maxDepth)
    ensures stats.maxDepth <= |visited| + 1
    ensures lastDepth.Some? <==> roots != []
  {
    stats, visited, lastDepth, popped := Stats(0, 0, 0, 0), {}, None, [];
    var work := Pushed([], roots, 1);
    ghost var h := History(map[], 0, []);
    SoundStart(g, nonDivergent, roots, work);
    LoggedStart(g, roots, work);
    while |work| > 0
      invariant Sound(g, nonDivergent, roots, work, visited, stats, h)
      invariant Logged(g, roots, popped, work, visited, stats, lastDepth)
      decreases Universe(g, roots) - visited, |work|
    {
      ghost var top, was := work[|work| - 1], lastDepth;
      lastDepth := Some(work[|work| - 1].1);
      var work', visited', stats' := Turn(g, nonDivergent, work, visited, stats);
      h := SoundTurn(g, nonDivergent, roots, work, visited, stats, h, work', visited', stats');
      LoggedTurn(g, nonDivergent, roots, popped, work, visited, stats, was, work', visited', stats');
      popped := popped + [top];
      work, visited, stats := work', visited', stats';
    }
    order := h.order;
    LoggedEnds(g, roots, popped, visited, stats, lastDepth);
    SearchEnds(g, roots, visited, h.depthOf, h.top, stats.maxDepth);
  }

  lemma LoggedStart(g: Graph, roots: seq<string>, work: Worklist)
    requires work == Pushed([], roots, 1)
    ensures Logged(g, roots, [], work, {}, Stats(0, 0, 0, 0), None)
  {
  }

  lemma LoggedEnds(g: Graph, roots: seq<string>, popped: Worklist, visited: set<string>, stats: Stats,
                   lastDepth: Option<nat>)
    requires Logged(g, roots, popped, [], visited, stats, lastDepth)
    ensures StackRun(g, roots, popped) && |popped| == |roots| + stats.edges
    ensures Depths(popped, stats.maxDepth, lastDepth)
    ensures lastDepth.Some? <==> roots != []
  {
    if popped != [] { PoppedHasRoot(g, roots, popped); }
  }

  lemma PoppedHasRoot(g: Graph, roots: seq<string>, popped: Worklist)
    requires StackRun(g, roots, popped) && popped != []
    ensures roots != []
  {
    assert TopAfter(g, roots, popped, 0) && popped[..0] == [];
  }

  lemma SearchEnds(g: Graph, roots: seq<string>, visited: set<string>, depthOf: map<string, nat>, top: nat,
                   maxDepth: nat)
    requires Searching(g, roots, [], visited, depthOf, top) && top <= maxDepth <= top + 1
    ensures forall f :: f in visited <==> Reachable(g, roots, f)
    ensures forall f :: f in visited ==> Within(g, roots, f, maxDepth)
    ensures maxDepth <= |visited| + 1
  {
    forall f | f in visited ensures Reachable(g, roots, f) && Within(g, roots, f, maxDepth) {
      assert ReachedAt(g, roots, f, depthOf[f]);
    }
    forall f | Reachable(g, roots, f) ensures f in visited {
      var p :| IsPath(g, roots, p) && p[|p| - 1] == f;
      PathVisited(g, roots, visited, p);
    }
    LevelsBound(depthOf, top);
  }
}
