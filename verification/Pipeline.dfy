/** From a recorded trace to the prediction made at a call site: the recorder's ids, the
    id table, the printed tree and the specialised code fit together. */
module Pipeline {
  import opened Text
  import opened StringSets
  import TreeTable
  import TreeText
  import TraceTable
  import Recorder
  import opened ChainIds
  import opened Specialise

  // ---- From the trace to the sets ---------------------------------------------------

  predicate ProperTrace(ev: seq<TraceTable.Event>) {
    forall i :: 0 <= i < |ev| && ev[i].Called? ==> Proper(ev[i].name)
  }

  lemma SpelledIsFlattened(text: string, names: set<string>) returns (s: seq<string>)
    requires TraceTable.Spelled(text, names) && forall x :: x in names ==> Proper(x)
    ensures text == Flatten(s) && AllProper(s) && Elements(s) == names && Flat(text)
  {
    s :| Lists(s, names) && text == Flatten(s);
    forall i | 0 <= i < |s| ensures Proper(s[i]) {
      assert s[i] in Elements(s);
    }
    FlattenIsFlat(s);
  }

  lemma ChainOfRow(ev: seq<TraceTable.Event>, rows: TraceTable.Rows, r: nat) returns (s: seq<string>)
    requires TraceTable.Reflects(ev, rows) && ProperTrace(ev) && r < |rows.chains|
    ensures var i := TraceTable.Starts(ev)[r];
            && TraceTable.End(ev, i + 1) < |ev|
            && rows.chains[r] == Flatten(s) && Flat(rows.chains[r])
            && AllProper(s) && Elements(s) == TraceTable.Chain(ev, i)
  {
    var i := TraceTable.Starts(ev)[r];
    assert TraceTable.ChainAt(ev, i, rows.chains[r]);
    s := SpelledIsFlattened(rows.chains[r], TraceTable.Chain(ev, i));
  }

  /** The chains of the table are the entries of the recorder's map, in some order. */
  ghost predicate ListsIds(chains: seq<Row>, ids: map<string, nat>) {
    && (forall i :: 0 <= i < |chains| ==> chains[i].text in ids && ids[chains[i].text] == chains[i].id)
    && (forall i, j :: 0 <= i < j < |chains| ==> chains[i].text != chains[j].text)
    && (forall text :: text in ids ==> Row(text, ids[text]) in chains)
  }

  /** The other strings got ids above those of the chains. */
  ghost predicate Above(others: seq<Row>, n: nat) {
    WellFormed(others) && forall j :: 0 <= j < |others| ==> others[j].id >= n
  }

  lemma TableIsWellFormed(chains: seq<Row>, others: seq<Row>, ids: map<string, nat>, order: seq<string>)
    requires ListsIds(chains, ids) && Recorder.Numbered(ids, order) && Above(others, |ids|)
    requires forall text :: text in ids ==> Flat(text)
    ensures WellFormed(chains + others)
  {
    Recorder.IdsDense(ids, order);
    var rows := chains + others;
    forall i, j | 0 <= i < j < |rows| ensures rows[i].id != rows[j].id {
      if j < |chains| {
        assert chains[i].text != chains[j].text;
      } else if i >= |chains| {
        assert others[i - |chains|].id != others[j - |chains|].id;
      }
    }
  }

  lemma TraceIdsAreFlat(ev: seq<TraceTable.Event>, context: Recorder.Context)
    requires Recorder.ReadTo(context, ev) && ProperTrace(ev)
    ensures forall text :: text in context.ids ==> Flat(text)
  {
    forall text | text in context.ids ensures Flat(text) {
      var q :| 0 <= q < |context.chains| && context.chains[q] == text;
      var _ := ChainOfRow(ev, context.Table(), q);
    }
  }

  /** For every completed row of the trace, the index that the compiler derives from the
      row's training id selects, at run time, exactly the functions that were called. */
  lemma RecordedSetIsSelected(ev: seq<TraceTable.Event>, context: Recorder.Context, chains: seq<Row>,
                              others: seq<Row>, r: nat)
    requires Recorder.ReadTo(context, ev) && ProperTrace(ev) && r < |context.chains|
    requires ListsIds(chains, context.ids) && Above(others, |context.ids|)
    ensures var lines := Split(TableText(Lines(chains + others)), '\n');
            var i := TraceTable.Starts(ev)[r];
            && context.chains[r] in context.ids && Loaded(lines).Some?
            && context.ids[context.chains[r]] in Loaded(lines).value.counterOf
            && var index := Loaded(lines).value.counterOf[context.ids[context.chains[r]]];
            && 0 < index < |PredSets(lines)| && TraceTable.End(ev, i + 1) < |ev|
            && PredSets(lines)[index] == TraceTable.Chain(ev, i)
  {
    TraceIdsAreFlat(ev, context);
    TableIsWellFormed(chains, others, context.ids, context.order);
    var s := ChainOfRow(ev, context.Table(), r);
    var k :| 0 <= k < |chains| && chains[k] == Row(context.chains[r], context.ids[context.chains[r]]);
    IdSelectsItsSet(chains, others, k, s);
  }

  // ---- From the tree to the prediction --------------------------------------------------

  function LeavesOf(ids: Ids): Leaves {
    Leaves(ids.counterOf, ids.textOf)
  }

  /** When the tree reaches the leaf of a chain's id, and that leaf is not suppressed, the
      specialised code makes one prediction, and its index selects the chain's set. */
  lemma PredictionSelectsChain(tree: TreeText.Tree, number: string -> real, site: Site, functionId: int, args: seq<int>,
                               chains: seq<Row>, others: seq<Row>, k: nat, s: seq<string>)
    requires |args| == |site.kinds| && Convertible(tree, number, site, functionId)
    requires forall i :: 0 <= i < |args| ==> Int32(args[i])
    requires WellFormed(chains + others) && k < |chains| && AllProper(s) && chains[k].text == Flatten(s)
    requires Walk(Exact, tree, number, site, functionId, args) == Some(chains[k].id)
    ensures var lines := Split(TableText(Lines(chains + others)), '\n');
            && Loaded(lines).Some?
            && var leaves := LeavesOf(Loaded(lines).value);
            var calls := Exec(Emit(tree, number, site, functionId, leaves), args);
            if leaves.Suppressed(chains[k].id) then calls == []
            else |calls| == 1 && calls[0] < |PredSets(lines)| && PredSets(lines)[calls[0]] == Elements(s)
  {
    IdSelectsItsSet(chains, others, k, s);
    var lines := Split(TableText(Lines(chains + others)), '\n');
    SpecialisationPreservesMeaning(tree, number, site, functionId, LeavesOf(Loaded(lines).value), args);
  }

  /** The class that the fitted arrays give a feature vector: at a test node, left when
      the feature is at most the threshold. */
  ghost function Predicted(t: TreeTable.Table, parent: seq<nat>, number: string -> real, call: Call, i: nat): nat
    requires TreeTable.Rooted(t, parent) && TreeText.Printable(t) && i < t.Size()
    decreases t.Size() - i
  {
    if t.left[i] == t.right[i] then t.class_[i]
    else
      var goesLeft := call.Entry(t.feature[i]) as real <= number(t.threshold[i]);
      Predicted(t, parent, number, call, if goesLeft then t.left[i] else t.right[i])
  }

  /** The printed tree decides as the arrays do. */
  lemma {:induction false} TreeDecidesAsTable(t: TreeTable.Table, parent: seq<nat>, number: string -> real,
                                              call: Call, i: nat)
    requires TreeTable.Rooted(t, parent) && TreeText.Printable(t) && i < t.Size()
    ensures LeafFor(TreeText.TreeOf(t, parent, i), number, call) == Predicted(t, parent, number, call, i)
    decreases t.Size() - i
  {
    if t.left[i] != t.right[i] {
      TreeDecidesAsTable(t, parent, number, call, t.left[i]);
      TreeDecidesAsTable(t, parent, number, call, t.right[i]);
    }
  }

  function FirstIdFor(name: string, functionIds: map<string, int>, stringIds: map<string, int>): int {
    if name in functionIds then functionIds[name] else if name in stringIds then stringIds[name] else 1
  }

  /** A tree that is printed, parsed, searched for its root and embedded at a call site
      gives the specialisation of that tree. `keys` is the iteration order of the map. */
  method EmbedPrintedTree(t: TreeTable.Table, ghost parent: seq<nat>, keys: seq<string>, site: Site,
                          functionIds: map<string, int>, stringIds: map<string, int>, leaves: Leaves,
                          number: string -> real)
    returns (code: Code)
    requires TreeTable.Rooted(t, parent) && TreeText.Printable(t)
    requires TreeText.InKeyOrder(keys, TreeText.Reread(t, parent))
    ensures var functionId := FirstIdFor(site.function_, functionIds, stringIds);
            code == Emit(TreeText.TreeOf(t, parent, 0), number, site, functionId, leaves)
  {
    var text := TreeText.PrintTree(t, parent);
    var dtree := TreeText.LoadTree(text);
    var root := TreeText.FirstNode(keys);
    TreeText.RootFound(t, parent, keys, root);
    code := EmbedTree(dtree, root, TreeText.TreeOf(t, parent, 0), site, functionIds, stringIds, leaves, number);
  }

  /** A fresh pass, at the first call site it meets. */
  method EmbedTree(dtree: TreeText.Dtree, root: string, ghost tree: TreeText.Tree, site: Site,
                   functionIds: map<string, int>, stringIds: map<string, int>, leaves: Leaves, number: string -> real)
    returns (code: Code)
    requires TreeText.Spells(dtree, root, tree)
    ensures code == Emit(tree, number, site, FirstIdFor(site.function_, functionIds, stringIds), leaves)
  {
    var pass_ := new Pass(dtree, functionIds, stringIds, leaves, number);
    code := pass_.Embed(root, site, tree);
  }

  // ---- The columns a tree is trained on ---------------------------------------------

  function Reals(args: seq<int>): (r: seq<real>)
    ensures |r| == |args| && forall i :: 0 <= i < |args| ==> r[i] == args[i] as real
  {
    seq(|args|, i requires 0 <= i < |args| => args[i] as real)
  }

  /** The training line of a call with these arguments. */
  function LineOf(site: Site, functionId: nat, flagsId: nat, args: seq<int>): seq<real>
    requires site.callSite >= 0
  {
    TraceTable.Columns(site.callSite, functionId, flagsId, Reals(args))
  }

  predicate CallOf(site: Site, args: seq<int>) {
    site.callSite >= 0 && |args| == |site.kinds|
  }

  /** At every call whose line has column p, the pass supplies that column's value. */
  ghost predicate ColumnAgrees(p: nat) {
    forall site: Site, functionId: nat, flagsId: nat, args: seq<int> ::
      CallOf(site, args) && p < |LineOf(site, functionId, flagsId, args)| ==>
        Supplies(FeatureOf(site, functionId, p), args, LineOf(site, functionId, flagsId, args)[p])
  }

  /** The recorder's columns and the pass's features agree on the call site and on the
      function, and on nothing else: the pass looks for flags where the recorder writes
      the flag set and the arguments, and for arguments from feature 12 on. */
  lemma ColumnAgreesIff(p: nat)
    ensures ColumnAgrees(p) <==> p <= 1
  {
    if p > 1 {
      var n := if p < 8 then 0 else p - 2;
      var site := Site(0, "f", seq(n, _ => Kind.Other));
      var args: seq<int> := seq(n, _ => 0);
      assert CallOf(site, args) && p < |LineOf(site, 0, 0, args)|;
      assert LineOf(site, 0, 0, args)[p] == 0.0;
      assert !Supplies(FeatureOf(site, 0, p), args, LineOf(site, 0, 0, args)[p]);
    }
  }

  /** So the single argument of a call is printed as feature 3, where the pass supplies
      -1, while the feature under which the pass knows it is no column of the line. */
  lemma FirstArgumentIsMisplaced(v: int)
    ensures var site := Site(5, "f", [Integer]);
            var line := LineOf(site, 7, 9, [v]);
            && line[3] == v as real && FeatureOf(site, 7, 3) == Constant(-1)
            && FeatureOf(site, 7, 12) == Argument(0) && |line| == 8
  {
    assert TraceTable.Padded(Reals([v]))[..1][0] == v as real;
  }

  /** The leaf a tree gives a line of the table. */
  function LeafOfLine(tree: TreeText.Tree, number: string -> real, line: seq<real>): Option<nat> {
    match tree
    case Leaf(c) => Some(c)
    case Branch(p, threshold, yes, no) =>
      if p >= |line| then None else LeafOfLine(if line[p] <= number(threshold) then yes else no, number, line)
  }

  predicate TestsOnlySiteAndFunction(tree: TreeText.Tree) {
    tree.Leaf? || (tree.feature <= 1 && TestsOnlySiteAndFunction(tree.yes) && TestsOnlySiteAndFunction(tree.no))
  }

  /** A tree that tests only those two columns reaches at a call the leaf it gives the
      call's line. */
  lemma {:induction false} LineLeafIsCallLeaf(tree: TreeText.Tree, number: string -> real, site: Site,
                                              functionId: nat, flagsId: nat, args: seq<int>)
    requires CallOf(site, args) && TestsOnlySiteAndFunction(tree)
    ensures Walk(Exact, tree, number, site, functionId, args)
         == LeafOfLine(tree, number, LineOf(site, functionId, flagsId, args))
  {
    if tree.Branch? {
      LineLeafIsCallLeaf(tree.yes, number, site, functionId, flagsId, args);
      LineLeafIsCallLeaf(tree.no, number, site, functionId, flagsId, args);
    }
  }

  // ---- The test for the empty set ---------------------------------------------------------

  /** Leaves are suppressed exactly when their own chain is empty. */
  ghost predicate SuppressionRight(leaves: Leaves, chains: seq<Row>) {
    forall k :: 0 <= k < |chains| ==> (leaves.Suppressed(chains[k].id) <==> chains[k].text == ";")
  }

  /** A string outside the chains that reads ";" and has the first id after theirs. */
  ghost predicate Clash(others: seq<Row>, n: nat) {
    Row(";", n) in others
  }

  lemma TextOfId(rows: seq<Row>, ids: Ids, id: nat)
    requires WellFormed(rows) && Indexed(rows, |rows|, ids)
    ensures id in ids.textOf && ids.textOf[id] == ";" <==> Row(";", id) in rows
  {
    if id in ids.textOf {
      var i :| 0 <= i < |rows| && rows[i].id == id;
      assert ids.textOf[rows[i].id] == rows[i].text;
      assert rows[i] == Row(rows[i].text, id);
    }
    if Row(";", id) in rows {
      var j :| 0 <= j < |rows| && rows[j] == Row(";", id);
      assert ids.textOf[rows[j].id] == rows[j].text;
    }
  }

  /** The empty chain sorts first, so it can only be row zero. */
  lemma EmptyChainFirst(chains: seq<Row>, i: nat)
    requires forall a, b :: 0 <= a < b < |chains| ==> LexLess(chains[a].text, chains[b].text)
    requires forall a :: 0 <= a < |chains| ==> Flat(chains[a].text)
    requires 0 < i < |chains|
    ensures chains[i].text != ";"
  {
    assert LexLess(chains[0].text, chains[i].text) && Flat(chains[0].text);
    NothingBefore(chains[0].text);
  }

  lemma NothingBefore(text: string)
    requires Flat(text)
    ensures !LexLess(text, ";")
  {
    assert ";"[1..] == "";
  }

  lemma SuppressedWhen(chains: seq<Row>, others: seq<Row>, ids: Ids, k: nat)
    requires WellFormed(chains + others) && Indexed(chains + others, |chains + others|, ids)
    requires forall a, b :: 0 <= a < b < |chains| ==> LexLess(chains[a].text, chains[b].text)
    requires forall i :: 0 <= i < |chains| ==> chains[i].id < |chains|
    requires forall j :: 0 <= j < |others| ==> others[j].id >= |chains|
    requires k < |chains|
    ensures LeavesOf(ids).Suppressed(chains[k].id) <==>
            (chains[0] == Row(";", k + 1)) || (k + 1 == |chains| && Clash(others, |chains|))
  {
    var rows := chains + others;
    assert rows[k] == chains[k] && ids.counterOf[rows[k].id] == k + 1;
    TextOfId(rows, ids, k + 1);
    forall i | 0 <= i < |chains| ensures Flat(chains[i].text) {
      assert rows[i] == chains[i];
    }
    forall i | 0 < i < |chains| ensures chains[i].text != ";" {
      EmptyChainFirst(chains, i);
    }
    assert Row(";", k + 1) in rows <==> Row(";", k + 1) in chains || Row(";", k + 1) in others;
    if Row(";", k + 1) in chains {
      var i :| 0 <= i < |chains| && chains[i] == Row(";", k + 1);
      assert i == 0;
    }
    assert chains[0] in chains;
  }

  /** The test before a prediction looks up the translated number. It singles out the
      empty chain in all leaves exactly when the empty chain was the second one recorded
      (id 1), or, with no empty chain, when no other string ";" got the first free id;
      with the empty chain as the only chain, that accident is what makes it right. */
  lemma SuppressionRightIff(chains: seq<Row>, others: seq<Row>, ids: Ids)
    requires chains != [] && WellFormed(chains + others) && Indexed(chains + others, |chains + others|, ids)
    requires forall a, b :: 0 <= a < b < |chains| ==> LexLess(chains[a].text, chains[b].text)
    requires forall i :: 0 <= i < |chains| ==> chains[i].id < |chains|
    requires forall j :: 0 <= j < |others| ==> others[j].id >= |chains|
    ensures SuppressionRight(LeavesOf(ids), chains) <==>
            if chains[0].text != ";" then !Clash(others, |chains|)
            else if |chains| == 1 then Clash(others, 1)
            else chains[0].id == 1 && !Clash(others, |chains|)
  {
    forall k | 0 <= k < |chains|
      ensures LeavesOf(ids).Suppressed(chains[k].id) <==>
              (chains[0] == Row(";", k + 1)) || (k + 1 == |chains| && Clash(others, |chains|))
      ensures k > 0 ==> chains[k].text != ";"
    {
      SuppressedWhen(chains, others, ids, k);
      forall i | 0 <= i < |chains| ensures Flat(chains[i].text) {
        assert (chains + others)[i] == chains[i];
      }
      if k > 0 { EmptyChainFirst(chains, k); }
    }
    var n := |chains|;
    assert chains[n - 1].id < n;
    assert chains[0].id < n;
    if chains[0].text == ";" && chains[0].id > 1 {
      assert LeavesOf(ids).Suppressed(chains[chains[0].id - 1].id);
    }
  }
}
