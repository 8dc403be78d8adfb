/** Which library functions are resident (replace_probed/decrypt_probe.cpp): a
    predict call names the set of functions expected next, entering a function
    brings its whole predicted set back, and the eager and the lazy predict call
    differ in when everything is blanked again. */
module Blanking {
  type Name = string
  type Addr = nat

  /** names is addr_to_name, byName is name_to_addr_and_size without the sizes,
      resident is the key set of copied_funcs, idx is pred_set_idx. */
  datatype Machine = Machine(names: map<Addr, Name>, byName: map<Name, Addr>, resident: set<Addr>, idx: nat)

  datatype Event =
    | Load(name: Name, addr: Addr)
    | Predict(i: nat)
    | Enter(a: Addr)

  const START := Machine(map[], map[], {}, 0)

  type PredSets = seq<set<Name>>

  predicate Enabled(sets: PredSets, m: Machine, e: Event) {
    match e
    case Load(_, addr) => addr !in m.names
    case Predict(i) => i < |sets|
    case Enter(a) => a in m.names && m.idx < |sets|
  }

  /** The loaded functions of a predicted set. */
  function Chain(byName: map<Name, Addr>, names: set<Name>): set<Addr> {
    set n | n in names && n in byName :: byName[n]
  }

  /** What the probe at a brings in. */
  function Touched(sets: PredSets, m: Machine, a: Addr): set<Addr>
    requires a in m.names && m.idx < |sets|
  {
    if a in m.resident then {}
    else if m.names[a] in sets[m.idx] then Chain(m.byName, sets[m.idx])
    else {a}
  }

  function Step(sets: PredSets, lazy: bool, m: Machine, e: Event): Machine
    requires Enabled(sets, m, e)
  {
    match e
    case Load(name, addr) => m.(names := m.names[addr := name], byName := m.byName[name := addr])
    case Predict(i) => m.(idx := i, resident := if lazy && i == m.idx then m.resident else {})
    case Enter(a) => m.(resident := m.resident + Touched(sets, m, a))
  }

  // ---- Entered functions run on their own code ------------------------------

  /** Every name leads to a function of that name; resident ones are loaded. */
  ghost predicate Indexed(m: Machine) {
    && (forall n :: n in m.byName ==> m.byName[n] in m.names && m.names[m.byName[n]] == n)
    && (forall a :: a in m.names ==> m.names[a] in m.byName)
    && m.resident <= m.names.Keys
  }

  ghost predicate UniqueNames(m: Machine) {
    forall a, b :: a in m.names && b in m.names && m.names[a] == m.names[b] ==> a == b
  }

  lemma StepKeepsIndexed(sets: PredSets, lazy: bool, m: Machine, e: Event)
    requires Indexed(m) && Enabled(sets, m, e)
    ensures Indexed(Step(sets, lazy, m, e))
  {
  }

  lemma StepKeepsUniqueNames(sets: PredSets, lazy: bool, m: Machine, e: Event)
    requires Indexed(m) && UniqueNames(m) && Enabled(sets, m, e)
    ensures UniqueNames(Step(sets, lazy, m, e)) <==> (e.Load? ==> e.name !in m.byName)
  {
    if e.Load? && e.name in m.byName {
      var b := m.byName[e.name];
      assert Step(sets, lazy, m, e).names[b] == Step(sets, lazy, m, e).names[e.addr];
    }
  }

  /** An entered function is resident afterwards unless it is predicted under a
      name that meanwhile leads to another function. */
  lemma EnteredIsResidentIff(sets: PredSets, lazy: bool, m: Machine, a: Addr)
    requires Indexed(m) && Enabled(sets, m, Enter(a))
    ensures a in Step(sets, lazy, m, Enter(a)).resident <==>
      (a in m.resident || m.names[a] !in sets[m.idx] || m.byName[m.names[a]] == a)
  {
    var n := m.names[a];
    if a !in m.resident && n in sets[m.idx] {
      if m.byName[n] == a {
        assert a in Chain(m.byName, sets[m.idx]);
      }
    }
  }

  /** In particular never when names are unique across images. */
  lemma EnteredIsResident(sets: PredSets, lazy: bool, m: Machine, a: Addr)
    requires Indexed(m) && UniqueNames(m) && Enabled(sets, m, Enter(a))
    ensures a in Step(sets, lazy, m, Enter(a)).resident
  {
    EnteredIsResidentIff(sets, lazy, m, a);
    var n := m.names[a];
    assert m.names[m.byName[n]] == n;
  }

  /** No load of the run repeats a name. */
  ghost predicate FreshLoads(sets: PredSets, lazy: bool, m: Machine, events: seq<Event>)
    decreases |events|
  {
    events == [] || (
      && Enabled(sets, m, events[0]) && (events[0].Load? ==> events[0].name !in m.byName)
      && FreshLoads(sets, lazy, Step(sets, lazy, m, events[0]), events[1..]))
  }

  function After(sets: PredSets, lazy: bool, m: Machine, events: seq<Event>): Machine
    requires FreshLoads(sets, lazy, m, events)
    decreases |events|
  {
    if events == [] then m else After(sets, lazy, Step(sets, lazy, m, events[0]), events[1..])
  }

  /** Under either discipline, wherever in a run a function is entered, it is resident
      when its body starts. */
  lemma {:induction false} EveryEntryIsResident(sets: PredSets, lazy: bool, m: Machine, events: seq<Event>, a: Addr)
    requires Indexed(m) && UniqueNames(m) && FreshLoads(sets, lazy, m, events)
    requires Enabled(sets, After(sets, lazy, m, events), Enter(a))
    ensures a in Step(sets, lazy, After(sets, lazy, m, events), Enter(a)).resident
    decreases |events|
  {
    if events == [] {
      EnteredIsResident(sets, lazy, m, a);
    } else {
      StepKeepsIndexed(sets, lazy, m, events[0]);
      StepKeepsUniqueNames(sets, lazy, m, events[0]);
      EveryEntryIsResident(sets, lazy, Step(sets, lazy, m, events[0]), events[1..], a);
    }
  }

  /** That happens: with one name in two images, as `copysign` is in libc and libm, the
      second load takes the name over, and entering the first function while its name is
      predicted brings in the other one instead. */
  lemma RepeatedNameIsReachable(lazy: bool)
    ensures var sets: PredSets := [{}, {"f"}];
            var m1 := Step(sets, lazy, START, Load("f", 100));
            var m2 := Step(sets, lazy, m1, Load("f", 200));
            var m3 := Step(sets, lazy, m2, Predict(1));
            && Enabled(sets, START, Load("f", 100))
            && Enabled(sets, m1, Load("f", 200)) && Enabled(sets, m2, Predict(1))
            && Enabled(sets, m3, Enter(100)) && 100 !in Step(sets, lazy, m3, Enter(100)).resident
  {
    var sets: PredSets := [{}, {"f"}];
    var m2 := Step(sets, lazy, Step(sets, lazy, START, Load("f", 100)), Load("f", 200));
    var m3 := Step(sets, lazy, m2, Predict(1));
    assert m3.names[100] == "f" && m3.byName["f"] == 200;
    EnteredIsResidentIff(sets, lazy, m3, 100);
  }

  // ---- Lazy blanking refines eager blanking ---------------------------------

  /** The same events under both disciplines. `seen` collects what the eager one
      has had resident since the index last changed. */
  datatype Pair = Pair(eager: Machine, lazy: Machine, seen: set<Addr>)

  const START_PAIR := Pair(START, START, {})

  predicate BothEnabled(sets: PredSets, p: Pair, e: Event) {
    Enabled(sets, p.eager, e) && Enabled(sets, p.lazy, e)
  }

  function PairStep(sets: PredSets, p: Pair, e: Event): Pair
    requires BothEnabled(sets, p, e)
  {
    var eager := Step(sets, false, p.eager, e);
    Pair(eager, Step(sets, true, p.lazy, e),
         if e.Predict? && e.i != p.eager.idx then eager.resident else p.seen + eager.resident)
  }

  predicate ValidRun(sets: PredSets, p: Pair, events: seq<Event>)
    decreases |events|
  {
    events == [] || (BothEnabled(sets, p, events[0]) && ValidRun(sets, PairStep(sets, p, events[0]), events[1..]))
  }

  function Final(sets: PredSets, p: Pair, events: seq<Event>): Pair
    requires ValidRun(sets, p, events)
    decreases |events|
  {
    if events == [] then p else Final(sets, PairStep(sets, p, events[0]), events[1..])
  }

  ghost predicate Refines(p: Pair) {
    p.eager.resident <= p.lazy.resident == p.seen
  }

  /** One resident predicted function means the whole predicted set is resident. */
  ghost predicate ChainClosed(sets: PredSets, m: Machine)
    requires m.resident <= m.names.Keys
  {
    m.idx < |sets| ==> forall a :: a in m.resident && m.names[a] in sets[m.idx] ==>
      Chain(m.byName, sets[m.idx]) <= m.resident
  }

  ghost predicate PairInv(sets: PredSets, p: Pair) {
    && p.eager.names == p.lazy.names && p.eager.byName == p.lazy.byName && p.eager.idx == p.lazy.idx
    && Indexed(p.eager) && Indexed(p.lazy)
    && Refines(p) && ChainClosed(sets, p.lazy)
  }

  /** Loading a function under this name does not add to a predicted set that is
      already resident. Loading everything before the first call always is quiet. */
  predicate Quiet(sets: PredSets, m: Machine, name: Name)
    requires m.resident <= m.names.Keys
  {
    m.idx < |sets| && name in sets[m.idx] ==> forall a :: a in m.resident ==> m.names[a] !in sets[m.idx]
  }

  ghost predicate QuietRun(sets: PredSets, p: Pair, events: seq<Event>)
    requires ValidRun(sets, p, events)
    decreases |events|
  {
    events == [] || (
      && (events[0].Load? ==> p.lazy.resident <= p.lazy.names.Keys && Quiet(sets, p.lazy, events[0].name))
      && QuietRun(sets, PairStep(sets, p, events[0]), events[1..]))
  }

  lemma LoadKeepsChainClosedIffQuiet(sets: PredSets, m: Machine, name: Name, addr: Addr)
    requires Indexed(m) && ChainClosed(sets, m) && addr !in m.names
    ensures var m' := Step(sets, true, m, Load(name, addr));
      m'.resident <= m'.names.Keys && (ChainClosed(sets, m') <==> Quiet(sets, m, name))
  {
    var m' := Step(sets, true, m, Load(name, addr));
    if m.idx < |sets| {
      var s := sets[m.idx];
      if name in s {
        assert m'.byName[name] == addr;
        assert addr in Chain(m'.byName, s);
      } else {
        assert Chain(m'.byName, s) == Chain(m.byName, s);
      }
    }
  }

  lemma PairStepKeepsInv(sets: PredSets, p: Pair, e: Event)
    requires PairInv(sets, p) && BothEnabled(sets, p, e)
    requires e.Load? ==> Quiet(sets, p.lazy, e.name)
    ensures PairInv(sets, PairStep(sets, p, e))
  {
    StepKeepsIndexed(sets, false, p.eager, e);
    StepKeepsIndexed(sets, true, p.lazy, e);
    match e
    case Load(name, addr) => LoadKeepsChainClosedIffQuiet(sets, p.lazy, name, addr);
    case Predict(i) =>
    case Enter(a) =>
      if a !in p.lazy.resident {
        assert Touched(sets, p.eager, a) == Touched(sets, p.lazy, a);
      }
  }

  lemma StartInv(sets: PredSets)
    ensures PairInv(sets, START_PAIR)
  {
  }

  /** The invariant survives every run whose loads are quiet. */
  lemma {:induction false} RunKeepsPairInv(sets: PredSets, p: Pair, events: seq<Event>)
    requires PairInv(sets, p) && ValidRun(sets, p, events) && QuietRun(sets, p, events)
    ensures PairInv(sets, Final(sets, p, events))
    decreases |events|
  {
    if events != [] {
      PairStepKeepsInv(sets, p, events[0]);
      RunKeepsPairInv(sets, PairStep(sets, p, events[0]), events[1..]);
    }
  }

  /** Main result: over every run from the start whose loads are quiet, what is resident
      under eager blanking is resident under lazy blanking, the lazy set is all the eager
      one has held since the index last changed, and chains are resident as a whole. */
  lemma LazyRefinesEager(sets: PredSets, events: seq<Event>)
    requires ValidRun(sets, START_PAIR, events) && QuietRun(sets, START_PAIR, events)
    ensures var p := Final(sets, START_PAIR, events);
            && p.eager.resident <= p.lazy.resident == p.seen
            && p.lazy.resident <= p.lazy.names.Keys && ChainClosed(sets, p.lazy)
  {
    StartInv(sets);
    RunKeepsPairInv(sets, START_PAIR, events);
  }

  ghost predicate RefinesEverAfter(sets: PredSets, p: Pair) {
    forall events :: ValidRun(sets, p, events) && QuietRun(sets, p, events) ==> Refines(Final(sets, p, events))
  }

  /** A load that is not quiet is where refinement ends: predict the same set again
      and enter a function of it, and the eager discipline brings in the new
      function while the lazy one finds nothing to do. */
  lemma LoadSafeIffQuiet(sets: PredSets, p: Pair, name: Name, addr: Addr)
    requires PairInv(sets, p) && BothEnabled(sets, p, Load(name, addr))
    ensures RefinesEverAfter(sets, PairStep(sets, p, Load(name, addr))) <==> Quiet(sets, p.lazy, name)
  {
    var p1 := PairStep(sets, p, Load(name, addr));
    if Quiet(sets, p.lazy, name) {
      PairStepKeepsInv(sets, p, Load(name, addr));
      forall events | ValidRun(sets, p1, events) && QuietRun(sets, p1, events)
        ensures Refines(Final(sets, p1, events))
      {
        RunKeepsPairInv(sets, p1, events);
      }
    } else {
      var i := p.lazy.idx;
      var a :| a in p.lazy.resident && p.lazy.names[a] in sets[i];
      var p2 := PairStep(sets, p1, Predict(i));
      var p3 := PairStep(sets, p2, Enter(a));
      assert p1.eager.byName[name] == addr && addr in Chain(p2.eager.byName, sets[i]);
      assert addr in p3.eager.resident && addr !in p3.lazy.resident;
      var events := [Predict(i), Enter(a)];
      assert events[1..] == [Enter(a)] && [Enter(a)][1..] == [];
      assert ValidRun(sets, p2, [Enter(a)]) && Final(sets, p2, [Enter(a)]) == p3;
      assert QuietRun(sets, p2, [Enter(a)]);
      assert ValidRun(sets, p1, events) && QuietRun(sets, p1, events) && Final(sets, p1, events) == p3;
    }
  }

  /** A load that is not quiet is reachable: one function of a predicted set is loaded
      and entered, then the other is loaded. */
  lemma LoudLoadIsReachable()
    ensures var sets: PredSets := [{}, {"f", "g"}];
            var before := [Load("f", 100), Predict(1), Enter(100)];
            && ValidRun(sets, START_PAIR, before) && QuietRun(sets, START_PAIR, before)
            && var p := Final(sets, START_PAIR, before);
            && BothEnabled(sets, p, Load("g", 200))
            && !RefinesEverAfter(sets, PairStep(sets, p, Load("g", 200)))
  {
    var sets: PredSets := [{}, {"f", "g"}];
    var before := [Load("f", 100), Predict(1), Enter(100)];
    var p1 := PairStep(sets, START_PAIR, before[0]);
    var p2 := PairStep(sets, p1, before[1]);
    var p3 := PairStep(sets, p2, before[2]);
    assert before[1..] == [Predict(1), Enter(100)] && before[1..][1..] == [Enter(100)] && before[1..][1..][1..] == [];
    assert Touched(sets, p2.lazy, 100) == Chain(p2.lazy.byName, sets[1]);
    assert p2.lazy.byName["f"] == 100 && 100 in Chain(p2.lazy.byName, sets[1]);
    assert 100 in p3.lazy.resident && p3.lazy.names[100] == "f";
    assert QuietRun(sets, p2, before[1..][1..]);
    StartInv(sets);
    RunKeepsPairInv(sets, START_PAIR, before);
    LoadSafeIffQuiet(sets, p3, "g", 200);
  }
}
