/** The tree as text: the printer (pathPredictionProject/src/plot_unveil_tree_structure.py)
    and the parser inside the compiler pass (embedDtree.cpp). */
module TreeText {
  import opened Text
  import opened StringSets
  import opened TreeTable

  /** What the pass keeps of a file: node name to either [condition, yes, no] or [class]. */
  type Dtree = map<string, seq<string>>

  // ---- Printing ---------------------------------------------------------------

  function Tabs(n: nat): (s: string)
    ensures |s| == n && forall i :: 0 <= i < n ==> s[i] == '\t'
  {
    seq(n, _ => '\t')
  }

  function Name(i: nat): string {
    "node_" + Decimal(i)
  }

  function Condition(feature: nat, threshold: string): string {
    "param " + Decimal(feature) + " <= " + threshold + " "
  }

  function NodeLine(t: Table, i: nat): string
    requires Printable(t) && i < t.Size()
  {
    if t.IsLeaf(i) then Name(i) + "-leaf_class=" + Decimal(t.class_[i])
    else
      Name(i) + "-if." + Condition(t.feature[i], t.threshold[i]) + ":"
      + Name(t.left[i]) + ";else:" + Name(t.right[i]) + ";"
  }

  /** Threshold texts are the decimal forms of numbers: no white space and no colon. */
  predicate Printable(t: Table) {
    && t.Sized()
    && forall i :: 0 <= i < t.Size() && !t.IsLeaf(i) ==>
         && 0 <= t.left[i] < t.Size() && 0 <= t.right[i] < t.Size() && t.feature[i] >= 0
         && Solid(t.threshold[i]) && ':' !in t.threshold[i]
  }

  ghost function PrintedLine(t: Table, parent: seq<nat>, i: nat): string
    requires Rooted(t, parent) && Printable(t) && i < t.Size()
  {
    Tabs(Depth(t, parent, i)) + NodeLine(t, i)
  }

  /** The printed lines of the first n nodes. */
  ghost function PrintedNodes(t: Table, parent: seq<nat>, n: nat): seq<string>
    requires Rooted(t, parent) && Printable(t) && n <= t.Size()
  {
    if n == 0 then [] else PrintedNodes(t, parent, n - 1) + [PrintedLine(t, parent, n - 1)]
  }

  /** One line per node, then the empty line of the final print(). */
  ghost function PrintedLines(t: Table, parent: seq<nat>): seq<string>
    requires Rooted(t, parent) && Printable(t)
  {
    PrintedNodes(t, parent, t.Size()) + [""]
  }

  function FileText(lines: seq<string>): string {
    if lines == [] then "" else lines[0] + "\n" + FileText(lines[1..])
  }

  lemma {:induction false} FileTextAppend(lines: seq<string>, line: string)
    ensures FileText(lines + [line]) == FileText(lines) + line + "\n"
  {
    if lines == [] {
      assert lines + [line] == [line];
    } else {
      assert (lines + [line])[1..] == lines[1..] + [line];
      FileTextAppend(lines[1..], line);
    }
  }

  method PrintNode(t: Table, i: nat, depth: nat, isLeaf: bool) returns (line: string)
    requires Printable(t) && i < t.Size() && isLeaf == t.IsLeaf(i)
    ensures line == Tabs(depth) + NodeLine(t, i)
  {
    line := Tabs(depth);
    if isLeaf {
      line := line + (Name(i) + "-leaf_class=" + Decimal(t.class_[i]));
    } else {
      line := line + (Name(i) + "-if." + Condition(t.feature[i], t.threshold[i]) + ":"
                      + Name(t.left[i]) + ";else:" + Name(t.right[i]) + ";");
    }
  }

  method PrintTree(t: Table, ghost parent: seq<nat>) returns (text: string)
    requires Rooted(t, parent) && Printable(t)
    ensures text == FileText(PrintedLines(t, parent))
  {
    var nodeDepth, isLeaf := MeasureTree(t, parent);
    text := "";
    for i := 0 to t.Size()
      modifies {}
      invariant text == FileText(PrintedNodes(t, parent, i))
    {
      FileTextAppend(PrintedNodes(t, parent, i), PrintedLine(t, parent, i));
      var line := PrintNode(t, i, nodeDepth[i], isLeaf[i]);
      text := text + line + "\n";
    }
    FileTextAppend(PrintedNodes(t, parent, t.Size()), "");
    text := text + "\n";
  }

  /** The format, in an example. */
  lemma WordsExample()
    ensures Name(0) == "node_0" && Name(1) == "node_1" && Name(2) == "node_2" && Decimal(17) == "17"
    ensures Condition(3, "0.5") == "param 3 <= 0.5 "
  {
    assert Decimal(0) == "0" && Decimal(1) == "1" && Decimal(2) == "2" && Decimal(3) == "3";
    assert Decimal(17) == Decimal(1) + "7";
  }

  lemma LinesExample()
    ensures var t := Table([1, -1, -1], [2, -1, -1], [3, -2, -2], ["0.5", "-2.0", "-2.0"], [0, 4, 17]);
            && Printable(t)
            && NodeLine(t, 0) == "node_0" + "-if." + "param 3 <= 0.5 " + ":" + "node_1" + ";else:" + "node_2" + ";"
            && NodeLine(t, 2) == "node_2" + "-leaf_class=" + "17"
  {
    WordsExample();
  }

  // ---- Parsing ----------------------------------------------------------------

  function AfterEquals(line: string): string {
    if Find(line, '=') < |line| then Rest(line, '=') else line
  }

  function LineNode(line: string): string {
    Token(SkipSpaces(line), '-')
  }

  function LineParts(line: string): seq<string> {
    var body := Rest(SkipSpaces(line), '-');
    if Token(body, '.') != "if" then [AfterEquals(line)]
    else
      var test := Rest(body, '.');
      var branches := Rest(test, ':');
      [Token(test, ':'), Token(branches, ';'), Token(Rest(Rest(branches, ';'), ':'), ';')]
  }

  function Loaded(lines: seq<string>): Dtree {
    if lines == [] then map[]
    else
      var last := lines[|lines| - 1];
      Loaded(lines[..|lines| - 1])[LineNode(last) := LineParts(last)]
  }

  /** One line of the tree file, taken apart by successive getline calls. */
  method ReadLine(line: string) returns (node: string, parts: seq<string>)
    ensures node == LineNode(line) && parts == LineParts(line)
  {
    var ss := SkipSpaces(line);
    node := Token(ss, '-');
    ss := Rest(ss, '-');
    var kind := Token(ss, '.');
    ss := Rest(ss, '.');
    if kind == "if" {
      var cond := Token(ss, ':');
      ss := Rest(ss, ':');
      var yes := Token(ss, ';');
      ss := Rest(Rest(ss, ';'), ':');
      var no := Token(ss, ';');
      parts := [cond, yes, no];
    } else {
      parts := [AfterEquals(line)];
    }
  }

  lemma LoadedAdd(lines: seq<string>, line: string)
    ensures Loaded(lines + [line]) == Loaded(lines)[LineNode(line) := LineParts(line)]
  {
    assert (lines + [line])[..|lines|] == lines;
  }

  /** The loop over the tree file. */
  method LoadTree(text: string) returns (dtree: Dtree)
    ensures dtree == Loaded(Split(text, '\n'))
  {
    dtree := map[];
    var rest := text;
    ghost var done: seq<string> := [];
    while rest != ""
      invariant Halfway(text, '\n', done, rest)
      invariant dtree == Loaded(done)
      decreases |rest|
    {
      HalfwayNext(text, '\n', done, rest);
      var line := Token(rest, '\n');
      LoadedAdd(done, line);
      rest := Rest(rest, '\n');
      var node, parts := ReadLine(line);
      dtree := dtree[node := parts];
      done := done + [line];
    }
    HalfwayEnd(text, '\n', done);
  }

  datatype Test = Test(feature: nat, threshold: string)

  /** streamCond >> dummyparam >> pindex >> dummypred >> fvalue, the number as text. */
  function ReadCondition(cond: string): Option<Test> {
    var afterParam := AfterWord(cond);
    var afterFeature := AfterWord(afterParam);
    match Stoi(Word(afterParam))
    case None => None
    case Some(feature) => Some(Test(feature, Word(AfterWord(afterFeature))))
  }

  // ---- Reading a printed file back ----------------------------------------------

  lemma {:induction false} SplitFileText(lines: seq<string>)
    requires forall i :: 0 <= i < |lines| ==> '\n' !in lines[i]
    ensures Split(FileText(lines), '\n') == lines
  {
    if lines != [] {
      TokenAt(lines[0], '\n', FileText(lines[1..]));
      SplitFileText(lines[1..]);
    }
  }

  lemma NameChars(i: nat)
    ensures forall c :: c in Name(i) ==> IsDigit(c) || c == '_' || 'a' <= c <= 'z'
  {
  }

  lemma {:induction false} SkipTabs(n: nat, s: string)
    requires s != "" && !IsSpace(s[0])
    ensures SkipSpaces(Tabs(n) + s) == s
    decreases n
  {
    if n == 0 {
      assert Tabs(n) + s == s;
    } else {
      assert (Tabs(n) + s)[1..] == Tabs(n - 1) + s;
      SkipTabs(n - 1, s);
    }
  }

  lemma NextWord(w: string, rest: string)
    requires Solid(w) && rest != "" && rest[0] == ' '
    ensures Word(" " + w + rest) == w && AfterWord(" " + w + rest) == rest
  {
    assert " " + w + rest == [' '] + (w + rest);
    WordSkip(w + rest);
    WordAt(w, rest);
  }

  lemma ConditionRead(feature: nat, threshold: string)
    requires Solid(threshold)
    ensures ReadCondition(Condition(feature, threshold)) == Some(Test(feature, threshold))
  {
    var s3 := " " + threshold + " ";
    var s2 := " " + "<=" + s3;
    var s1 := " " + Decimal(feature) + s2;
    assert Condition(feature, threshold) == "param" + s1;
    WordAt("param", s1);
    ConditionWords(Decimal(feature), threshold);
    StoiOfDecimal(feature);
  }

  lemma ConditionWords(feature: string, threshold: string)
    requires Solid(feature) && Solid(threshold)
    ensures var s3 := " " + threshold + " ";
            var s2 := " " + "<=" + s3;
            var s1 := " " + feature + s2;
            Word(s1) == feature && AfterWord(s1) == s2 && AfterWord(s2) == s3 && Word(s3) == threshold
  {
    var s3 := " " + threshold + " ";
    NextWord(feature, " " + "<=" + s3);
    NextWord("<=", s3);
    NextWord(threshold, " ");
  }

  lemma LeafLineRead(tabs: nat, name: string, class_: string)
    requires name != "" && !IsSpace(name[0]) && '-' !in name && '=' !in name && '.' !in class_
    ensures var line := Tabs(tabs) + (name + "-leaf_class=" + class_);
            LineNode(line) == name && LineParts(line) == [class_]
  {
    var text, body := name + "-leaf_class=" + class_, "leaf_class=" + class_;
    assert text[0] == name[0];
    SkipTabs(tabs, text);
    assert text == name + ['-'] + body;
    TokenAt(name, '-', body);
    TokenLast(body, '.');
    assert body[0] == 'l';
    var front := Tabs(tabs) + name + "-leaf_class";
    assert Tabs(tabs) + text == front + ['='] + class_;
    FindAt(front, '=', class_);
    TokenAt(front, '=', class_);
  }

  lemma BranchesRead(yes: string, no: string)
    requires ';' !in yes && ';' !in no
    ensures var branches := yes + ";else:" + no + ";";
            Token(branches, ';') == yes && Token(Rest(Rest(branches, ';'), ':'), ';') == no
  {
    assert yes + ";else:" + no + ";" == yes + [';'] + ("else:" + no + ";");
    TokenAt(yes, ';', "else:" + no + ";");
    ElseRead(no);
  }

  lemma ElseRead(no: string)
    requires ';' !in no
    ensures Token(Rest("else:" + no + ";", ':'), ';') == no
  {
    assert "else:" + no + ";" == "else" + [':'] + (no + ";");
    TokenAt("else", ':', no + ";");
    assert no + ";" == no + [';'] + "";
    TokenAt(no, ';', "");
  }

  lemma HeadRead(tabs: nat, name: string, test: string)
    requires name != "" && !IsSpace(name[0]) && '-' !in name
    ensures var line := Tabs(tabs) + (name + "-if." + test);
            var body := Rest(SkipSpaces(line), '-');
            LineNode(line) == name && Token(body, '.') == "if" && Rest(body, '.') == test
  {
    var text := name + "-if." + test;
    assert text[0] == name[0];
    SkipTabs(tabs, text);
    assert text == name + ['-'] + ("if." + test);
    TokenAt(name, '-', "if." + test);
    KindRead(test);
  }

  lemma KindRead(test: string)
    ensures Token("if." + test, '.') == "if" && Rest("if." + test, '.') == test
  {
    assert "if." + test == "if" + ['.'] + test;
    TokenAt("if", '.', test);
  }

  lemma TestLineRead(tabs: nat, name: string, cond: string, yes: string, no: string)
    requires name != "" && !IsSpace(name[0]) && '-' !in name && ':' !in cond && ';' !in yes && ';' !in no
    ensures var line := Tabs(tabs) + (name + "-if." + cond + ":" + yes + ";else:" + no + ";");
            LineNode(line) == name && LineParts(line) == [cond, yes, no]
  {
    var branches := yes + ";else:" + no + ";";
    var test := cond + [':'] + branches;
    assert name + "-if." + cond + ":" + yes + ";else:" + no + ";" == name + "-if." + test;
    HeadRead(tabs, name, test);
    TokenAt(cond, ':', branches);
    BranchesRead(yes, no);
  }

  lemma NodeRead(t: Table, i: nat, tabs: nat)
    requires Printable(t) && i < t.Size()
    ensures LineNode(Tabs(tabs) + NodeLine(t, i)) == Name(i)
    ensures LineParts(Tabs(tabs) + NodeLine(t, i)) == Parts(t, i)
  {
    NameChars(i);
    if t.IsLeaf(i) {
      LeafLineRead(tabs, Name(i), Decimal(t.class_[i]));
    } else {
      var cond := Condition(t.feature[i], t.threshold[i]);
      NameChars(t.left[i]);
      NameChars(t.right[i]);
      CondHasNoColon(t.feature[i], t.threshold[i]);
      TestLineRead(tabs, Name(i), cond, Name(t.left[i]), Name(t.right[i]));
    }
  }

  lemma CondHasNoColon(feature: nat, threshold: string)
    requires ':' !in threshold
    ensures ':' !in Condition(feature, threshold)
  {
    assert ':' !in "param " && ':' !in Decimal(feature) && ':' !in " <= " && ':' !in " ";
  }

  /** The entry the parser makes of node i. */
  function Parts(t: Table, i: nat): seq<string>
    requires Printable(t) && i < t.Size()
  {
    if t.IsLeaf(i) then [Decimal(t.class_[i])]
    else [Condition(t.feature[i], t.threshold[i]), Name(t.left[i]), Name(t.right[i])]
  }

  ghost predicate Recovered(t: Table, i: nat, dtree: Dtree)
    requires Printable(t) && i < t.Size()
  {
    Name(i) in dtree && dtree[Name(i)] == Parts(t, i)
  }

  ghost predicate NameBelow(n: nat, k: string) {
    exists i: nat :: i < n && k == Name(i)
  }

  /** Nodes below n, and nothing else, have their entries. */
  ghost predicate Holds(t: Table, n: nat, dtree: Dtree)
    requires Printable(t) && n <= t.Size()
  {
    && (forall i :: 0 <= i < n ==> Recovered(t, i, dtree))
    && (forall k :: k in dtree ==> NameBelow(n, k))
  }

  lemma HoldsAdd(t: Table, n: nat, dtree: Dtree)
    requires Printable(t) && n < t.Size() && Holds(t, n, dtree)
    ensures Holds(t, n + 1, dtree[Name(n) := Parts(t, n)])
  {
    var more := dtree[Name(n) := Parts(t, n)];
    forall i: nat | i < n ensures Recovered(t, i, more) {
      assert Recovered(t, i, dtree);
      if Name(i) == Name(n) { SameName(i, n); }
    }
    forall k | NameBelow(n, k) ensures NameBelow(n + 1, k) { }
    assert NameBelow(n + 1, Name(n));
  }

  lemma LoadedNode(t: Table, parent: seq<nat>, i: nat)
    requires Rooted(t, parent) && Printable(t) && i < t.Size()
    ensures Loaded(PrintedNodes(t, parent, i + 1)) == Loaded(PrintedNodes(t, parent, i))[Name(i) := Parts(t, i)]
  {
    LoadedAdd(PrintedNodes(t, parent, i), PrintedLine(t, parent, i));
    NodeRead(t, i, Depth(t, parent, i));
  }

  lemma {:induction false} NodesRead(t: Table, parent: seq<nat>, n: nat)
    requires Rooted(t, parent) && Printable(t) && n <= t.Size()
    ensures Holds(t, n, Loaded(PrintedNodes(t, parent, n)))
  {
    if n > 0 {
      var m := n - 1;
      NodesRead(t, parent, m);
      LoadedNode(t, parent, m);
      HoldsAdd(t, m, Loaded(PrintedNodes(t, parent, m)));
    }
  }

  lemma SameName(i: nat, j: nat)
    requires Name(i) == Name(j)
    ensures i == j
  {
    assert Name(i)[5..] == Decimal(i) && Name(j)[5..] == Decimal(j);
    DecimalInjective(i, j);
  }

  ghost function Reread(t: Table, parent: seq<nat>): Dtree
    requires Rooted(t, parent) && Printable(t)
  {
    Loaded(Split(FileText(PrintedLines(t, parent)), '\n'))
  }

  /** Printing a tree and parsing the file gives every node its entry back, under its
      own name, and nothing else except the entry of the final empty line. */
  lemma PrintedTreeParses(t: Table, parent: seq<nat>)
    requires Rooted(t, parent) && Printable(t)
    ensures forall i :: 0 <= i < t.Size() ==> Recovered(t, i, Reread(t, parent))
    ensures forall k :: k in Reread(t, parent) ==> k == "" || NameBelow(t.Size(), k)
    ensures "" in Reread(t, parent) && Reread(t, parent)[""] == [""]
  {
    RereadIsNodesPlusEmpty(t, parent);
    var nodes := Loaded(PrintedNodes(t, parent, t.Size()));
    NodesRead(t, parent, t.Size());
    HoldsBesideEmpty(t, nodes, Reread(t, parent));
  }

  lemma HoldsBesideEmpty(t: Table, dtree: Dtree, more: Dtree)
    requires Printable(t) && Holds(t, t.Size(), dtree) && more == dtree["" := [""]]
    ensures forall i :: 0 <= i < t.Size() ==> Recovered(t, i, more)
    ensures forall k :: k in more ==> k == "" || NameBelow(t.Size(), k)
  {
    forall i | 0 <= i < t.Size() ensures Recovered(t, i, more) {
      assert Recovered(t, i, dtree) && Name(i) != "";
    }
  }

  lemma {:induction false} NodesAreOneLine(t: Table, parent: seq<nat>, n: nat)
    requires Rooted(t, parent) && Printable(t) && n <= t.Size()
    ensures forall line :: line in PrintedNodes(t, parent, n) ==> '\n' !in line
  {
    if n > 0 {
      NodesAreOneLine(t, parent, n - 1);
      LineIsOneLine(t, n - 1, Depth(t, parent, n - 1));
    }
  }

  lemma RereadIsNodesPlusEmpty(t: Table, parent: seq<nat>)
    requires Rooted(t, parent) && Printable(t)
    ensures Reread(t, parent) == Loaded(PrintedNodes(t, parent, t.Size()))["" := [""]]
  {
    var lines, nodes := PrintedLines(t, parent), PrintedNodes(t, parent, t.Size());
    NodesAreOneLine(t, parent, t.Size());
    SplitFileText(lines);
    assert lines[..|lines| - 1] == nodes;
    EmptyLineRead();
  }

  lemma EmptyLineRead()
    ensures LineNode("") == "" && LineParts("") == [""]
  {
    assert Token("", '.') == "" && AfterEquals("") == "";
  }

  lemma SolidIsOneLine(w: string)
    requires Solid(w)
    ensures '\n' !in w
  {
    assert IsSpace('\n');
  }

  lemma NodeLineIsOneLine(t: Table, i: nat)
    requires Printable(t) && i < t.Size()
    ensures '\n' !in NodeLine(t, i)
  {
    NameChars(i);
    if !t.IsLeaf(i) {
      NameChars(t.left[i]);
      NameChars(t.right[i]);
      ConditionIsOneLine(t.feature[i], t.threshold[i]);
    }
  }

  lemma ConditionIsOneLine(feature: nat, threshold: string)
    requires Solid(threshold)
    ensures '\n' !in Condition(feature, threshold)
  {
    SolidIsOneLine(threshold);
    assert '\n' !in "param " && '\n' !in Decimal(feature) && '\n' !in " <= " && '\n' !in " ";
  }

  lemma LineIsOneLine(t: Table, i: nat, tabs: nat)
    requires Printable(t) && i < t.Size()
    ensures '\n' !in Tabs(tabs) + NodeLine(t, i)
  {
    NodeLineIsOneLine(t, i);
  }

  // ---- The tree a parsed file stands for ------------------------------------------

  datatype Tree = Leaf(class_: nat) | Branch(feature: nat, threshold: string, yes: Tree, no: Tree)

  ghost function TreeOf(t: Table, parent: seq<nat>, i: nat): Tree
    requires Rooted(t, parent) && Printable(t) && i < t.Size()
    decreases t.Size() - i
  {
    if t.IsLeaf(i) then Leaf(t.class_[i])
    else Branch(t.feature[i], t.threshold[i], TreeOf(t, parent, t.left[i]), TreeOf(t, parent, t.right[i]))
  }

  /** Read from `node` on, the entries spell `tree`. */
  predicate Spells(dtree: Dtree, node: string, tree: Tree)
    decreases tree
  {
    && node in dtree
    && match tree
       case Leaf(c) => |dtree[node]| == 1 && Stoi(dtree[node][0]) == Some(c)
       case Branch(feature, threshold, yes, no) =>
         && |dtree[node]| == 3
         && ReadCondition(dtree[node][0]) == Some(Test(feature, threshold))
         && Spells(dtree, dtree[node][1], yes) && Spells(dtree, dtree[node][2], no)
  }

  lemma {:induction false} EntriesSpell(t: Table, parent: seq<nat>, dtree: Dtree, i: nat)
    requires Rooted(t, parent) && Printable(t) && i < t.Size()
    requires forall j :: 0 <= j < t.Size() ==> Recovered(t, j, dtree)
    ensures Spells(dtree, Name(i), TreeOf(t, parent, i))
    decreases t.Size() - i
  {
    assert Recovered(t, i, dtree);
    if t.IsLeaf(i) {
      StoiOfDecimal(t.class_[i]);
    } else {
      ConditionRead(t.feature[i], t.threshold[i]);
      EntriesSpell(t, parent, dtree, t.left[i]);
      EntriesSpell(t, parent, dtree, t.right[i]);
    }
  }

  // ---- Choosing the root ------------------------------------------------------------

  predicate HasNode(s: string) {
    exists i :: 0 <= i <= |s| && NodeAt(s, i)
  }

  predicate NodeAt(s: string, i: nat) {
    i + 4 <= |s| && s[i..i + 4] == "node"
  }

  /** The keys of a std::map in iteration order. */
  ghost predicate InKeyOrder(order: seq<string>, dtree: Dtree) {
    && (forall i, j :: 0 <= i < j < |order| ==> LexLess(order[i], order[j]))
    && (forall k :: k in order <==> k in dtree)
  }

  ghost predicate FirstWithNode(order: seq<string>, k: nat) {
    k < |order| && HasNode(order[k]) && forall j :: 0 <= j < k ==> !HasNode(order[j])
  }

  /** The loop of insertDtree: the first key that contains "node". */
  method FirstNode(order: seq<string>) returns (root: string)
    ensures (forall j :: 0 <= j < |order| ==> !HasNode(order[j])) ==> root == ""
    ensures forall k: nat :: FirstWithNode(order, k) ==> root == order[k]
  {
    root := "";
    for n := 0 to |order|
      invariant forall j :: 0 <= j < n ==> !HasNode(order[j])
    {
      if HasNode(order[n]) {
        OneFirst(order, n);
        return order[n];
      }
    }
  }

  lemma OneFirst(order: seq<string>, n: nat)
    requires FirstWithNode(order, n)
    ensures forall k: nat :: FirstWithNode(order, k) ==> k == n
  {
  }

  /** Some key contains "node", so some key is the first to do so. */
  lemma {:induction false} SomeFirst(order: seq<string>, j: nat)
    requires j < |order| && HasNode(order[j])
    ensures exists k: nat :: FirstWithNode(order, k)
    decreases j
  {
    if i: nat :| i < j && HasNode(order[i]) {
      SomeFirst(order, i);
    } else {
      assert FirstWithNode(order, j);
    }
  }

  lemma NodeZeroFirst(i: nat)
    requires i > 0
    ensures LexLess(Name(0), Name(i))
  {
    LeadingDigit(i);
    LexAfterPrefix("node_", Decimal(0), Decimal(i));
  }

  /** In key order, the first name that contains "node" is node_0. */
  lemma FirstIsNodeZero(n: nat, order: seq<string>, k: nat)
    requires n > 0 && FirstWithNode(order, k)
    requires forall i, j :: 0 <= i < j < |order| ==> LexLess(order[i], order[j])
    requires Name(0) in order && NameBelow(n, order[k])
    ensures order[k] == Name(0)
  {
    var i: nat :| i < n && order[k] == Name(i);
    var m :| 0 <= m < |order| && order[m] == Name(0);
    assert NodeAt(Name(0), 0);
    if i > 0 {
      NodeZeroFirst(i);
      LexAsymmetric(Name(0), Name(i));
    }
  }

  /** The key order of the parsed map makes node_0 the root, and from there the entries
      spell the tree that was printed. */
  lemma RootRecovered(t: Table, parent: seq<nat>, order: seq<string>, k: nat)
    requires Rooted(t, parent) && Printable(t)
    requires InKeyOrder(order, Reread(t, parent)) && FirstWithNode(order, k)
    ensures order[k] == Name(0)
    ensures Spells(Reread(t, parent), order[k], TreeOf(t, parent, 0))
  {
    PrintedTreeParses(t, parent);
    assert Recovered(t, 0, Reread(t, parent));
    assert Name(0) in order && order[k] in Reread(t, parent) && order[k] != "";
    FirstIsNodeZero(t.Size(), order, k);
    EntriesSpell(t, parent, Reread(t, parent), 0);
  }

  lemma SomeNode(t: Table, parent: seq<nat>, order: seq<string>)
    requires Rooted(t, parent) && Printable(t) && InKeyOrder(order, Reread(t, parent))
    ensures exists k: nat :: FirstWithNode(order, k)
  {
    PrintedTreeParses(t, parent);
    assert Recovered(t, 0, Reread(t, parent));
    assert Name(0) in order;
    var j :| 0 <= j < |order| && order[j] == Name(0);
    assert NodeAt(Name(0), 0);
    SomeFirst(order, j);
  }

  /** So the loop of insertDtree finds node_0 and with it the printed tree. */
  lemma RootFound(t: Table, parent: seq<nat>, order: seq<string>, root: string)
    requires Rooted(t, parent) && Printable(t) && InKeyOrder(order, Reread(t, parent))
    requires forall k: nat :: FirstWithNode(order, k) ==> root == order[k]
    ensures root == Name(0) && Spells(Reread(t, parent), root, TreeOf(t, parent, 0))
  {
    SomeNode(t, parent, order);
    var k: nat :| FirstWithNode(order, k);
    RootRecovered(t, parent, order, k);
  }
}
