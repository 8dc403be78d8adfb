/** A fitted decision tree as parallel arrays, and the explicit-stack pass over it
    (pathPredictionProject/src/plot_unveil_tree_structure.py). */
module TreeTable {
  /** Row i describes node i: children, feature, threshold text, predicted class.
      Leaves have equal child entries. */
  datatype Table = Table(left: seq<int>, right: seq<int>, feature: seq<int>, threshold: seq<string>, class_: seq<nat>) {
    function Size(): nat { |left| }

    predicate Sized() {
      |left| == |right| == |feature| == |threshold| == |class_|
    }

    predicate IsLeaf(i: nat)
      requires Sized() && i < Size()
    {
      left[i] == right[i]
    }
  }

  /** The arrays describe one tree rooted at node 0: every other node is a child of
      its parent, which has a smaller number, and of no other node. */
  ghost predicate Rooted(t: Table, parent: seq<nat>) {
    && t.Sized() && 0 < t.Size() == |parent|
    && (forall i :: 0 <= i < t.Size() && !t.IsLeaf(i) ==>
          && i < t.left[i] < t.Size() && i < t.right[i] < t.Size()
          && parent[t.left[i]] == i && parent[t.right[i]] == i)
    && (forall j :: 0 < j < t.Size() ==>
          && parent[j] < j && !t.IsLeaf(parent[j])
          && (t.left[parent[j]] == j || t.right[parent[j]] == j))
  }

  /** Distance from the root. */
  ghost function Depth(t: Table, parent: seq<nat>, i: nat): nat
    requires Rooted(t, parent) && i < t.Size()
  {
    if i == 0 then 0 else Depth(t, parent, parent[i]) + 1
  }

  type Stack = seq<(int, int)>

  ghost predicate OnStack(stack: Stack, i: int) {
    exists k :: 0 <= k < |stack| && stack[k].0 == i
  }

  /** A waiting node is unvisited and knows the depth of its visited parent. */
  ghost predicate Entry(t: Table, parent: seq<nat>, visited: set<int>, e: (int, int))
    requires Rooted(t, parent)
  {
    && 0 <= e.0 < t.Size() && e.0 !in visited && e.1 + 1 == Depth(t, parent, e.0)
    && (e.0 == 0 || parent[e.0] as int in visited)
  }

  ghost predicate Entries(t: Table, parent: seq<nat>, stack: Stack, visited: set<int>)
    requires Rooted(t, parent)
  {
    && (forall k :: 0 <= k < |stack| ==> Entry(t, parent, visited, stack[k]))
    && (forall k, m :: 0 <= k < m < |stack| ==> stack[k].0 != stack[m].0)
  }

  ghost predicate Reached(stack: Stack, visited: set<int>, i: int) {
    i in visited || OnStack(stack, i)
  }

  /** Visited nodes have visited parents, and their children are visited or waiting. */
  ghost predicate Frontier(t: Table, parent: seq<nat>, stack: Stack, visited: set<int>)
    requires Rooted(t, parent)
  {
    && Reached(stack, visited, 0)
    && (forall i :: i in visited ==> 0 <= i < t.Size() && (i == 0 || parent[i] as int in visited))
    && (forall i :: i in visited && !t.IsLeaf(i) ==>
          Reached(stack, visited, t.left[i]) && Reached(stack, visited, t.right[i]))
  }

  ghost predicate Pending(t: Table, parent: seq<nat>, stack: Stack, visited: set<int>)
    requires Rooted(t, parent)
  {
    Entries(t, parent, stack, visited) && Frontier(t, parent, stack, visited)
  }

  lemma {:induction false} NothingPending(t: Table, parent: seq<nat>, visited: set<int>, i: nat)
    requires Rooted(t, parent) && Pending(t, parent, [], visited) && i < t.Size()
    ensures i in visited
  {
    if i > 0 { NothingPending(t, parent, visited, parent[i]); }
  }

  lemma PopLeafEntries(t: Table, parent: seq<nat>, stack: Stack, visited: set<int>, i: nat, up: int)
    requires Rooted(t, parent) && Entries(t, parent, stack, visited) && stack != []
    requires stack[|stack| - 1] == (i, up)
    ensures Entries(t, parent, stack[..|stack| - 1], visited + {i})
  {
    forall k | 0 <= k < |stack| - 1 ensures Entry(t, parent, visited + {i}, stack[k]) {
      assert Entry(t, parent, visited, stack[k]);
      assert stack[k].0 != stack[|stack| - 1].0;
    }
  }

  /** What was reached stays reached when the stack and the visited set change so. */
  ghost predicate KeepsReach(stack: Stack, visited: set<int>, stack': Stack, visited': set<int>) {
    forall j :: Reached(stack, visited, j) ==> Reached(stack', visited', j)
  }

  lemma FrontierAdd(t: Table, parent: seq<nat>, stack: Stack, visited: set<int>, i: nat, stack': Stack)
    requires Rooted(t, parent) && Frontier(t, parent, stack, visited)
    requires i < t.Size() && (i == 0 || parent[i] as int in visited)
    requires KeepsReach(stack, visited, stack', visited + {i})
    requires !t.IsLeaf(i) ==> OnStack(stack', t.left[i]) && OnStack(stack', t.right[i])
    ensures Frontier(t, parent, stack', visited + {i})
  {
    assert Reached(stack, visited, 0);
    forall j | j in visited + {i} && !t.IsLeaf(j)
      ensures Reached(stack', visited + {i}, t.left[j]) && Reached(stack', visited + {i}, t.right[j])
    {
      if j in visited {
        assert Reached(stack, visited, t.left[j]) && Reached(stack, visited, t.right[j]);
      }
    }
  }

  /** One turn: a leaf is popped and visited. */
  lemma PopLeaf(t: Table, parent: seq<nat>, stack: Stack, visited: set<int>, i: nat, up: int)
    requires Rooted(t, parent) && Pending(t, parent, stack, visited) && stack != []
    requires stack[|stack| - 1] == (i, up) && i < t.Size() && t.IsLeaf(i)
    ensures Pending(t, parent, stack[..|stack| - 1], visited + {i})
  {
    PopLeafEntries(t, parent, stack, visited, i, up);
    assert Entry(t, parent, visited, (i, up));
    Popped(stack, i);
    FrontierAdd(t, parent, stack, visited, i, stack[..|stack| - 1]);
  }

  lemma Popped(stack: Stack, top: int)
    requires stack != [] && stack[|stack| - 1].0 == top
    ensures forall i :: OnStack(stack, i) ==> i == top || OnStack(stack[..|stack| - 1], i)
  {
    forall i | OnStack(stack, i) ensures i == top || OnStack(stack[..|stack| - 1], i) {
      var k :| 0 <= k < |stack| && stack[k].0 == i;
      if k < |stack| - 1 { assert stack[..|stack| - 1][k].0 == i; }
    }
  }

  lemma Pushed(stack: Stack, a: (int, int), b: (int, int))
    ensures forall i :: OnStack(stack + [a, b], i) <==> OnStack(stack, i) || i == a.0 || i == b.0
  {
    var s := stack + [a, b];
    assert s[|stack|] == a && s[|stack| + 1] == b;
    forall i | OnStack(stack, i) ensures OnStack(s, i) {
      var k :| 0 <= k < |stack| && stack[k].0 == i;
      assert s[k].0 == i;
    }
  }

  /** The children of an unvisited node are neither visited nor waiting. */
  lemma ChildIsNew(t: Table, parent: seq<nat>, stack: Stack, visited: set<int>, i: nat, child: nat)
    requires Rooted(t, parent) && Pending(t, parent, stack, visited)
    requires i < t.Size() && i !in visited && 0 < child < t.Size() && parent[child] == i
    ensures child !in visited && forall k :: 0 <= k < |stack| ==> stack[k].0 != child
  {
    forall k | 0 <= k < |stack| ensures stack[k].0 != child {
      assert Entry(t, parent, visited, stack[k]);
    }
  }

  lemma PopTestEntries(t: Table, parent: seq<nat>, stack: Stack, visited: set<int>, i: nat, up: int, l: nat, r: nat)
    requires Rooted(t, parent) && Pending(t, parent, stack, visited) && stack != []
    requires stack[|stack| - 1] == (i, up) && i < t.Size() && !t.IsLeaf(i) && l == t.left[i] && r == t.right[i]
    ensures Entries(t, parent, stack[..|stack| - 1] + [(l, up + 1), (r, up + 1)], visited + {i})
  {
    assert Entry(t, parent, visited, (i, up));
    ChildIsNew(t, parent, stack, visited, i, l);
    ChildIsNew(t, parent, stack, visited, i, r);
    var rest := stack[..|stack| - 1];
    var stack', visited' := rest + [(l, up + 1), (r, up + 1)], visited + {i};
    assert Entry(t, parent, visited', (l, up + 1)) && Entry(t, parent, visited', (r, up + 1));
    forall k | 0 <= k < |rest| ensures stack'[k] == stack[k] && Entry(t, parent, visited', stack'[k]) {
      assert Entry(t, parent, visited, stack[k]);
    }
  }

  lemma PopTestFrontier(t: Table, parent: seq<nat>, stack: Stack, visited: set<int>, i: nat, up: int, l: nat, r: nat)
    requires Rooted(t, parent) && Pending(t, parent, stack, visited) && stack != []
    requires stack[|stack| - 1] == (i, up) && i < t.Size() && !t.IsLeaf(i) && l == t.left[i] && r == t.right[i]
    ensures Frontier(t, parent, stack[..|stack| - 1] + [(l, up + 1), (r, up + 1)], visited + {i})
  {
    assert Entry(t, parent, visited, (i, up));
    Popped(stack, i);
    var stack' := stack[..|stack| - 1] + [(l, up + 1), (r, up + 1)];
    Pushed(stack[..|stack| - 1], (l, up + 1), (r, up + 1));
    FrontierAdd(t, parent, stack, visited, i, stack');
  }

  /** One turn: the popped node is visited, and a test node's children wait. */
  lemma PopTest(t: Table, parent: seq<nat>, stack: Stack, visited: set<int>, i: nat, up: int, l: nat, r: nat)
    requires Rooted(t, parent) && Pending(t, parent, stack, visited) && stack != []
    requires stack[|stack| - 1] == (i, up) && i < t.Size() && !t.IsLeaf(i) && l == t.left[i] && r == t.right[i]
    ensures Pending(t, parent, stack[..|stack| - 1] + [(l, up + 1), (r, up + 1)], visited + {i})
  {
    PopTestEntries(t, parent, stack, visited, i, up, l, r);
    PopTestFrontier(t, parent, stack, visited, i, up, l, r);
  }

  /** The stack after one turn. */
  function Turn(t: Table, stack: Stack): Stack
    requires t.Sized() && stack != [] && 0 <= stack[|stack| - 1].0 < t.Size()
  {
    var (i, up) := stack[|stack| - 1];
    stack[..|stack| - 1] + if t.left[i] == t.right[i] then [] else [(t.left[i], up + 1), (t.right[i], up + 1)]
  }

  lemma TurnKeepsPending(t: Table, parent: seq<nat>, stack: Stack, visited: set<int>)
    requires Rooted(t, parent) && Pending(t, parent, stack, visited) && stack != []
    ensures Entry(t, parent, visited, stack[|stack| - 1])
    ensures Pending(t, parent, Turn(t, stack), visited + {stack[|stack| - 1].0})
  {
    var e := stack[|stack| - 1];
    assert Entry(t, parent, visited, e);
    if t.IsLeaf(e.0) {
      PopLeaf(t, parent, stack, visited, e.0, e.1);
      assert Turn(t, stack) == stack[..|stack| - 1];
    } else {
      PopTest(t, parent, stack, visited, e.0, e.1, t.left[e.0], t.right[e.0]);
    }
  }

  /** node_depth and is_leaves, computed with an explicit stack. Every node is
      visited exactly once, which is why the loop ends. */
  method MeasureTree(t: Table, ghost parent: seq<nat>) returns (nodeDepth: array<int>, isLeaf: array<bool>)
    requires Rooted(t, parent)
    ensures nodeDepth.Length == isLeaf.Length == t.Size()
    ensures forall i :: 0 <= i < t.Size() ==> nodeDepth[i] == Depth(t, parent, i) && isLeaf[i] == t.IsLeaf(i)
  {
    nodeDepth := new int[t.Size()](_ => 0);
    isLeaf := new bool[t.Size()](_ => false);
    var stack: Stack := [(0, -1)];
    ghost var visited: set<int> := {};
    assert stack[0].0 == 0;
    while |stack| > 0
      invariant Pending(t, parent, stack, visited)
      invariant Recorded(t, parent, visited, nodeDepth[..], isLeaf[..])
      decreases Unvisited(t, visited)
    {
      TurnKeepsPending(t, parent, stack, visited);
      var (i, up) := stack[|stack| - 1];
      FewerUnvisited(t, visited, i);
      RecordedAdd(t, parent, visited, nodeDepth[..], isLeaf[..], i);
      visited := visited + {i};
      stack := Turn(t, stack);
      nodeDepth[i] := up + 1;
      if t.left[i] == t.right[i] {
        isLeaf[i] := true;
      }
    }
    AllRecorded(t, parent, visited, nodeDepth[..], isLeaf[..]);
  }

  /** What the two arrays hold once `visited` has been visited. */
  ghost predicate Recorded(t: Table, parent: seq<nat>, visited: set<int>, depth: seq<int>, leaf: seq<bool>)
    requires Rooted(t, parent)
  {
    && |depth| == |leaf| == t.Size()
    && forall i :: 0 <= i < t.Size() ==>
         (i in visited ==> depth[i] == Depth(t, parent, i)) && (leaf[i] <==> i in visited && t.IsLeaf(i))
  }

  lemma RecordedAdd(t: Table, parent: seq<nat>, visited: set<int>, depth: seq<int>, leaf: seq<bool>, i: nat)
    requires Rooted(t, parent) && Recorded(t, parent, visited, depth, leaf) && i < t.Size() && i !in visited
    ensures !leaf[i]
    ensures Recorded(t, parent, visited + {i}, depth[i := Depth(t, parent, i)], leaf[i := t.IsLeaf(i)])
  {
  }

  lemma AllRecorded(t: Table, parent: seq<nat>, visited: set<int>, depth: seq<int>, leaf: seq<bool>)
    requires Rooted(t, parent) && Pending(t, parent, [], visited) && Recorded(t, parent, visited, depth, leaf)
    ensures forall i :: 0 <= i < t.Size() ==> depth[i] == Depth(t, parent, i) && leaf[i] == t.IsLeaf(i)
  {
    forall i | 0 <= i < t.Size() ensures i in visited {
      NothingPending(t, parent, visited, i);
    }
  }

  ghost function Unvisited(t: Table, visited: set<int>): set<int> {
    set i | 0 <= i < t.Size() && i !in visited
  }

  lemma FewerUnvisited(t: Table, visited: set<int>, i: int)
    requires 0 <= i < t.Size() && i !in visited
    ensures Unvisited(t, visited + {i}) < Unvisited(t, visited)
  {
    assert i in Unvisited(t, visited);
  }
}
