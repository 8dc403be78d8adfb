/** Partial evaluation of the decision tree at a call site
    (pathPredictionProject/llvm/llvm/lib/Transforms/embedDtree/embedDtree.cpp). */
module Specialise {
  import opened Text
  import opened TreeText

  const FIRST_RDF: nat := 2
  const LAST_RDF: nat := 11
  const FIRST_ARG: nat := 12
  const LAST_ARG: nat := 21

  /** The static type of an argument, as far as the pass distinguishes it. */
  datatype Kind = Integer | Floating | Other

  datatype Site = Site(callSite: int, function_: string, kinds: seq<Kind>)

  /** The instructions put in front of a call. */
  datatype Code = Nothing | Predict(index: nat) | If(argument: nat, bound: int, yes: Code, no: Code)

  predicate Int32(v: int) {
    -0x8000_0000 <= v < 0x8000_0000
  }

  function Wrap32(v: int): (r: int)
    ensures Int32(r)
  {
    var m := v % 0x1_0000_0000;
    if m < 0x8000_0000 then m else m - 0x1_0000_0000
  }

  /** ConstantInt::get(int32Ty, fvalue): the number loses its fraction, then its high bits. */
  function Immediate(threshold: real): int {
    Wrap32(if threshold >= 0.0 then threshold.Floor else -((-threshold).Floor))
  }

  /** The calls blankit_predict(k) made when the code runs on arguments already cast to
      32 bits. */
  function Exec(code: Code, args: seq<int>): seq<nat> {
    match code
    case Nothing => []
    case Predict(k) => [k]
    case If(a, bound, yes, no) =>
      if (if a < |args| then args[a] else 0) <= bound then Exec(yes, args) else Exec(no, args)
  }

  // ---- What the tree means at a site ------------------------------------------------

  datatype Feature = Constant(value: int) | Argument(number: nat) | Unsupported

  /** What feature p stands for at a call: the site, the callee, an argument, or -1 when
      the call has no such argument. */
  function FeatureOf(site: Site, functionId: int, p: nat): Feature {
    var n := |site.kinds|;
    if p == 0 then Constant(site.callSite)
    else if p == 1 then Constant(functionId)
    else if n == 0 then Constant(-1)
    else if p <= LAST_RDF then
      if p - FIRST_RDF < n then Unsupported else Constant(-1)
    else if p <= LAST_ARG then
      if p - FIRST_ARG >= n then Constant(-1)
      else if p < LAST_ARG && site.kinds[p - FIRST_ARG] != Other then Argument(p - FIRST_ARG)
      else Unsupported
    else Unsupported
  }

  /** How an argument is compared: as the tree means it, or as the emitted code does it. */
  datatype Rule = Exact | Compiled

  predicate Passes(rule: Rule, v: int, threshold: real) {
    if rule == Exact then v as real <= threshold else v <= Immediate(threshold)
  }

  /** The leaf the tree reaches, or None when it meets an unsupported feature. */
  function Walk(rule: Rule, tree: Tree, number: string -> real, site: Site, functionId: int,
                args: seq<int>): Option<nat>
    requires |args| == |site.kinds|
  {
    match tree
    case Leaf(c) => Some(c)
    case Branch(p, threshold, yes, no) =>
      match FeatureOf(site, functionId, p)
      case Unsupported => None
      case Constant(v) =>
        Walk(rule, if v as real <= number(threshold) then yes else no, number, site, functionId, args)
      case Argument(i) =>
        Walk(rule, if Passes(rule, args[i], number(threshold)) then yes else no, number, site, functionId, args)
  }

  /** Names of leaves: what the pass loaded from string2id_map.csv. */
  datatype Leaves = Leaves(index: map<nat, nat>, text: map<nat, string>)
  {
    /** stringId_2counter_map[class]: zero when absent. */
    function IndexOf(c: nat): nat {
      if c in index then index[c] else 0
    }

    /** The test before the call looks the translated number up. */
    predicate Suppressed(c: nat) {
      IndexOf(c) in text && text[IndexOf(c)] == ";"
    }

    ghost predicate SameAs(other: Leaves) {
      text == other.text && forall c :: IndexOf(c) == other.IndexOf(c)
    }
  }

  function Predictions(leaves: Leaves, leaf: Option<nat>): seq<nat> {
    match leaf
    case None => []
    case Some(c) => if leaves.Suppressed(c) then [] else [leaves.IndexOf(c)]
  }

  // ---- The feature vector of a call -------------------------------------------------

  /** What was recorded of the run that leads to a call, feature by feature: the site, the
      function, ten flags of the arguments, ten arguments, and -1 where the call has no
      such argument. */
  datatype Call = Call(site: int, function_: int, flags: seq<int>, args: seq<int>) {
    function Entry(p: nat): int {
      if p == 0 then site
      else if p == 1 then function_
      else if 2 <= p < 12 && p - 2 < |flags| then flags[p - 2]
      else if 12 <= p < 22 && p - 12 < |args| then args[p - 12]
      else -1
    }
  }

  /** A call at this site: one flag and one value for each argument. */
  predicate CallAt(call: Call, site: Site, functionId: int) {
    call.site == site.callSite && call.function_ == functionId && |call.flags| == |call.args| == |site.kinds|
  }

  /** The features for which the pass emits no test: flags and the tenth argument of the
      arguments there are, arguments of other types, and numbers beyond the vector. */
  predicate Refused(site: Site, p: nat) {
    var n := |site.kinds|;
    || (2 <= p < 12 && p - 2 < n)
    || (12 <= p < 22 && p - 12 < n && (p == 21 || site.kinds[p - 12] == Other))
    || (p >= 22 && n > 0)
  }

  /** The pass supplies this value for the feature. */
  predicate Supplies(f: Feature, args: seq<int>, value: real) {
    match f
    case Constant(v) => value == v as real
    case Argument(i) => i < |args| && value == args[i] as real
    case Unsupported => false
  }

  /** Wherever the pass supplies anything for a feature, it is the entry of the call's
      vector, and it supplies nothing exactly for the features it refuses. */
  lemma FeatureIsEntry(site: Site, functionId: int, call: Call, p: nat)
    requires CallAt(call, site, functionId)
    ensures FeatureOf(site, functionId, p) == Unsupported <==> Refused(site, p)
    ensures !Refused(site, p) ==> Supplies(FeatureOf(site, functionId, p), call.args, call.Entry(p) as real)
  {
  }

  /** The leaf of a tree for a vector of features. */
  function LeafFor(tree: Tree, number: string -> real, call: Call): nat {
    match tree
    case Leaf(c) => c
    case Branch(p, threshold, yes, no) =>
      LeafFor(if call.Entry(p) as real <= number(threshold) then yes else no, number, call)
  }

  /** The way to that leaf meets a refused feature. */
  predicate MeetsRefused(tree: Tree, number: string -> real, site: Site, call: Call) {
    match tree
    case Leaf(_) => false
    case Branch(p, threshold, yes, no) =>
      || Refused(site, p)
      || MeetsRefused(if call.Entry(p) as real <= number(threshold) then yes else no, number, site, call)
  }

  /** The walk is the tree's own decision on the vector, given up at a refused feature. */
  lemma {:induction false} WalkIsDecision(tree: Tree, number: string -> real, site: Site, functionId: int, call: Call)
    requires CallAt(call, site, functionId)
    ensures Walk(Exact, tree, number, site, functionId, call.args)
         == if MeetsRefused(tree, number, site, call) then None else Some(LeafFor(tree, number, call))
  {
    if tree.Branch? {
      FeatureIsEntry(site, functionId, call, tree.feature);
      WalkIsDecision(tree.yes, number, site, functionId, call);
      WalkIsDecision(tree.no, number, site, functionId, call);
    }
  }

  // ---- The specialised code -----------------------------------------------------------

  function Emit(tree: Tree, number: string -> real, site: Site, functionId: int, leaves: Leaves): Code {
    match tree
    case Leaf(c) => if leaves.Suppressed(c) then Nothing else Predict(leaves.IndexOf(c))
    case Branch(p, threshold, yes, no) =>
      match FeatureOf(site, functionId, p)
      case Unsupported => Nothing
      case Constant(v) => Emit(if v as real <= number(threshold) then yes else no, number, site, functionId, leaves)
      case Argument(i) =>
        If(i, Immediate(number(threshold)),
           Emit(yes, number, site, functionId, leaves), Emit(no, number, site, functionId, leaves))
  }

  lemma {:induction false} EmitSame(tree: Tree, number: string -> real, site: Site, functionId: int, a: Leaves,
                                    b: Leaves)
    requires a.SameAs(b)
    ensures Emit(tree, number, site, functionId, a) == Emit(tree, number, site, functionId, b)
  {
    match tree
    case Leaf(c) => assert a.IndexOf(c) == b.IndexOf(c);
    case Branch(_, _, yes, no) =>
      EmitSame(yes, number, site, functionId, a, b);
      EmitSame(no, number, site, functionId, a, b);
  }

  /** Running the code predicts exactly the leaf that the walk reaches, once, and
      nothing when the walk meets an unsupported feature or a suppressed leaf. */
  lemma {:induction false} EmitMeansWalk(tree: Tree, number: string -> real, site: Site, functionId: int,
                                         leaves: Leaves, args: seq<int>)
    requires |args| == |site.kinds|
    ensures Exec(Emit(tree, number, site, functionId, leaves), args)
         == Predictions(leaves, Walk(Compiled, tree, number, site, functionId, args))
  {
    if tree.Branch? {
      EmitMeansWalk(tree.yes, number, site, functionId, leaves, args);
      EmitMeansWalk(tree.no, number, site, functionId, leaves, args);
    }
  }

  /** The threshold is not negative, and its low 32 bits hold it or are the largest
      integer. */
  predicate Survives(threshold: real) {
    0.0 <= threshold && (threshold < 2147483648.0 || threshold.Floor % 0x1_0000_0000 == 0x7fff_ffff)
  }

  /** Where the conversion of the threshold to a 64-bit unsigned number is defined, the
      compiled test is the tree's test on every 32-bit argument exactly when the
      threshold survives it. */
  lemma TruncationAgreesIff(threshold: real)
    requires -1.0 < threshold < 18446744073709551616.0
    ensures (forall v | Int32(v) :: Passes(Compiled, v, threshold) == Passes(Exact, v, threshold))
       <==> Survives(threshold)
  {
    if threshold < 0.0 {
      assert Passes(Compiled, 0, threshold) && !Passes(Exact, 0, threshold);
    } else if threshold < 2147483648.0 {
      assert Immediate(threshold) == threshold.Floor;
    } else {
      assert Int32(0x7fff_ffff) && Passes(Exact, 0x7fff_ffff, threshold);
      assert Immediate(threshold) == 0x7fff_ffff <==> threshold.Floor % 0x1_0000_0000 == 0x7fff_ffff;
      assert forall v :: Int32(v) ==> v as real <= threshold;
    }
  }

  /** Every argument test has a threshold that survives the conversion. */
  predicate Convertible(tree: Tree, number: string -> real, site: Site, functionId: int) {
    match tree
    case Leaf(_) => true
    case Branch(p, threshold, yes, no) =>
      && (FeatureOf(site, functionId, p).Argument? ==>
            number(threshold) < 18446744073709551616.0 && Survives(number(threshold)))
      && Convertible(yes, number, site, functionId)
      && Convertible(no, number, site, functionId)
  }

  /** Specialising preserves meaning: on all 32-bit arguments the code predicts the leaf
      of the original tree. */
  lemma {:induction false} SpecialisationPreservesMeaning(tree: Tree, number: string -> real, site: Site,
      functionId: int, leaves: Leaves, args: seq<int>)
    requires |args| == |site.kinds| && Convertible(tree, number, site, functionId)
    requires forall i :: 0 <= i < |args| ==> Int32(args[i])
    ensures Exec(Emit(tree, number, site, functionId, leaves), args)
         == Predictions(leaves, Walk(Exact, tree, number, site, functionId, args))
  {
    if tree.Branch? {
      SpecialisationPreservesMeaning(tree.yes, number, site, functionId, leaves, args);
      SpecialisationPreservesMeaning(tree.no, number, site, functionId, leaves, args);
      if FeatureOf(site, functionId, tree.feature).Argument? {
        TruncationAgreesIff(number(tree.threshold));
      }
    }
  }

  /** Main result: at every call with 32-bit arguments the emitted code predicts, once, the
      leaf of the tree for the call's feature vector, or nothing when the way there meets a
      refused feature or the leaf is suppressed. */
  lemma CodeDecidesCall(tree: Tree, number: string -> real, site: Site, functionId: int, leaves: Leaves, call: Call)
    requires CallAt(call, site, functionId) && Convertible(tree, number, site, functionId)
    requires forall i :: 0 <= i < |call.args| ==> Int32(call.args[i])
    ensures Exec(Emit(tree, number, site, functionId, leaves), call.args)
         == if MeetsRefused(tree, number, site, call) then []
            else Predictions(leaves, Some(LeafFor(tree, number, call)))
  {
    SpecialisationPreservesMeaning(tree, number, site, functionId, leaves, call.args);
    WalkIsDecision(tree, number, site, functionId, call);
  }

  // ---- The pass ---------------------------------------------------------------------

  predicate IsPindexValid(p: nat, numArgs: nat) {
    if p == 0 || p == 1 then true
    else if numArgs == 0 then false
    else if FIRST_RDF <= p <= LAST_RDF then numArgs - (p - FIRST_RDF) > 0
    else if FIRST_ARG <= p <= LAST_ARG then numArgs - (p - FIRST_ARG) > 0
    else true
  }

  /** An index is valid unless the feature is the constant -1 for want of an argument. */
  lemma ValidIffPresent(site: Site, functionId: int, p: nat)
    ensures IsPindexValid(p, |site.kinds|) <==> p <= 1 || FeatureOf(site, functionId, p) != Constant(-1)
    ensures FeatureOf(site, functionId, p).Argument? ==> IsPindexValid(p, |site.kinds|)
  {
  }

  class Pass {
    var functionIds: map<string, int>
    var functionCounter: int
    var leaves: Leaves
    const dtree: Dtree
    const stringIds: map<string, int>
    const number: string -> real

    constructor (dtree: Dtree, functionIds: map<string, int>, stringIds: map<string, int>, leaves: Leaves,
                 number: string -> real)
      ensures this.dtree == dtree && this.functionIds == functionIds && this.stringIds == stringIds
      ensures this.leaves == leaves && this.number == number && functionCounter == 0
    {
      this.dtree, this.functionIds, this.stringIds := dtree, functionIds, stringIds;
      this.leaves, this.number, this.functionCounter := leaves, number, 0;
    }

    predicate Known(name: string)
      reads this`functionIds
    {
      name in functionIds || name in stringIds
    }

    /** The id a name has, or would be given now. */
    function IdFor(name: string): int
      reads this`functionIds, this`functionCounter
    {
      if name in functionIds then functionIds[name]
      else if name in stringIds then stringIds[name]
      else functionCounter + 1
    }

    /** A name is resolved to the same id ever after, and resolving one name leaves
        every other known name alone. */
    method ResolveFunction(name: string) returns (id: int)
      modifies this`functionIds, this`functionCounter
      ensures id == old(IdFor(name)) == IdFor(name) && Known(name)
      ensures forall other :: old(Known(other)) ==> Known(other) && IdFor(other) == old(IdFor(other))
    {
      if name in functionIds {
        id := functionIds[name];
      } else if name in stringIds {
        id := stringIds[name];
      } else {
        functionCounter := functionCounter + 1;
        functionIds := functionIds[name := functionCounter];
        id := functionCounter;
      }
    }

    /** The value a test is made on: nothing, a constant, or an argument. */
    method FeatureValue(site: Site, p: nat) returns (f: Feature)
      modifies this`functionIds, this`functionCounter
      ensures f == FeatureOf(site, old(IdFor(site.function_)), p)
      ensures IdFor(site.function_) == old(IdFor(site.function_))
      ensures forall other :: old(Known(other)) ==> Known(other) && IdFor(other) == old(IdFor(other))
    {
      f := Unsupported;
      if IsPindexValid(p, |site.kinds|) {
        if p == 1 {
          var id := ResolveFunction(site.function_);
          f := Constant(id);
        } else if p == 0 {
          f := Constant(site.callSite);
        } else if p < FIRST_ARG {
          // No reverse dominance frontier flag is ever registered for an argument.
          f := Unsupported;
        } else if p < LAST_ARG {
          var argument := p - FIRST_ARG;
          if site.kinds[argument].Floating? || site.kinds[argument].Integer? {
            f := Argument(argument);
          }
        }
      } else {
        f := Constant(-1);
      }
    }

    /** The leaf case: the class id becomes an index, and the text looked up under that
        index decides whether a call is made. */
    method EmbedLeaf(class_: nat) returns (code: Code)
      modifies this`leaves
      ensures code == if old(leaves).Suppressed(class_) then Nothing else Predict(old(leaves).IndexOf(class_))
      ensures leaves.SameAs(old(leaves))
    {
      if class_ !in leaves.index {
        leaves := leaves.(index := leaves.index[class_ := 0]);
      }
      var k := leaves.index[class_];
      var text := "";
      if k in leaves.text {
        text := leaves.text[k];
      }
      code := if text != ";" then Predict(k) else Nothing;
    }

    /** recursiveIfElseTree, for any node from which the parsed entries spell a tree. */
    method Embed(node: string, site: Site, ghost tree: Tree) returns (code: Code)
      requires Spells(dtree, node, tree)
      modifies this
      ensures code == Emit(tree, number, site, old(IdFor(site.function_)), old(leaves))
      ensures leaves.SameAs(old(leaves))
      ensures IdFor(site.function_) == old(IdFor(site.function_))
      ensures forall other :: old(Known(other)) ==> Known(other) && IdFor(other) == old(IdFor(other))
      decreases tree
    {
      var predicate_ := dtree[node];
      if |predicate_| > 2 {
        var test := ReadCondition(predicate_[0]).value;
        var f := FeatureValue(site, test.feature);
        match f
        case Unsupported =>
          code := Nothing;
        case Constant(v) =>
          if v as real <= number(test.threshold) {
            code := Embed(predicate_[1], site, tree.yes);
          } else {
            code := Embed(predicate_[2], site, tree.no);
          }
        case Argument(i) =>
          var yes := Embed(predicate_[1], site, tree.yes);
          EmitSame(tree.no, number, site, IdFor(site.function_), leaves, old(leaves));
          var no := Embed(predicate_[2], site, tree.no);
          code := If(i, Immediate(number(test.threshold)), yes, no);
      } else {
        code := EmbedLeaf(Stoi(predicate_[0]).value);
      }
    }
  }
}
