/** Whole runs of the blanking runtime on memory (replace_probed/decrypt_probe.cpp): the
    events of Blanking, carried out by the methods of BlankingRuntime. */
module BlankingRun {
  import opened Blanking
  import opened BlankingRuntime

  /** The copied sizes of all routines that may be loaded: they do not overlap. */
  ghost predicate Layout(rt: Runtime, layout: map<Addr, nat>)
    reads rt
  {
    && Fits(layout, |rt.orig|)
    && forall a :: a in rt.t.addrToSize ==> a in layout && rt.t.addrToSize[a] == layout[a]
  }

  lemma LayoutFits(rt: Runtime, layout: map<Addr, nat>, a: Addr)
    requires Layout(rt, layout) && a in layout
    ensures Fits(rt.t.addrToSize[a := layout[a]], |rt.orig|)
  {
    var sizes := rt.t.addrToSize[a := layout[a]];
    assert forall b :: b in sizes ==> b in layout && sizes[b] == layout[b];
  }

  /** The routine at a has its own code in memory, from offset 14 on. */
  ghost predicate Pristine(rt: Runtime, a: Addr)
    reads rt, rt.mem.bytes
  {
    && a in rt.t.addrToSize && a + 14 + rt.t.addrToSize[a] <= |rt.orig| == rt.mem.bytes.Length
    && Body(rt.mem.bytes[..], a, rt.t.addrToSize[a]) == Body(rt.orig, a, rt.t.addrToSize[a])
  }

  lemma ResidentIsPristine(rt: Runtime, a: Addr)
    requires rt.Valid() && a in rt.copiedFuncs
    ensures Pristine(rt, a)
  {
    ImageBody(rt.orig, rt.t.addrToSize, rt.copiedFuncs.Keys, a);
  }

  /** A state from which a run can go on: it is the abstract machine m on memory. */
  ghost predicate Runs(rt: Runtime, layout: map<Addr, nat>, sets: PredSets, m: Machine)
    reads rt, rt.mem.bytes, rt.mem.perms
  {
    rt.Valid() && Layout(rt, layout) && rt.predSets == sets && rt.Abstract() == m
  }

  /** Names lead back and forth, and no two routines share one. */
  ghost predicate Sound(m: Machine) {
    Indexed(m) && UniqueNames(m)
  }

  ghost predicate Loadable(e: Event, layout: map<Addr, nat>) {
    e.Load? ==> e.addr in layout && layout[e.addr] > 0
  }

  /** Stores at offset 14 reach the bodies of all routines of the layout. */
  ghost predicate AllReached(rt: Runtime, layout: map<Addr, nat>) {
    forall a :: a in layout ==> rt.mem.reaches(a, layout[a])
  }

  lemma TouchedIsLoaded(sets: PredSets, m: Machine, a: Addr)
    requires Indexed(m) && Enabled(sets, m, Enter(a))
    ensures Touched(sets, m, a) <= m.names.Keys
  {
  }

  lemma NamedIsSized(t: Tables, orig: seq<Byte>)
    requires TablesOk(t, orig)
    ensures t.addrToName.Keys <= t.addrToSize.Keys
  {
    forall b | b in t.addrToName ensures b in t.addrToSize {
      assert RoutineOk(t, orig, b);
    }
  }

  lemma TouchedIsReached(rt: Runtime, layout: map<Addr, nat>, sets: PredSets, m: Machine, a: Addr)
    requires Runs(rt, layout, sets, m) && Sound(m) && Enabled(sets, m, Enter(a)) && AllReached(rt, layout)
    ensures AllCovered(Touched(sets, m, a), rt.t.addrToSize, rt.mem.reaches)
  {
    TouchedIsLoaded(sets, m, a);
    NamedIsSized(rt.t, rt.orig);
    LoadedAreCovered(Touched(sets, m, a), rt.t.addrToSize, layout, rt.mem.reaches);
  }

  lemma LoadedAreCovered(addrs: set<Addr>, sizes: map<Addr, nat>, layout: map<Addr, nat>, reaches: (Addr, nat) -> bool)
    requires addrs <= sizes.Keys && forall a :: a in sizes ==> a in layout && sizes[a] == layout[a]
    requires forall a :: a in layout ==> reaches(a, layout[a])
    ensures AllCovered(addrs, sizes, reaches)
  {
  }

  method TakeLoad(rt: Runtime, lazy: bool, e: Event, layout: map<Addr, nat>, ghost sets: PredSets,
              ghost m: Machine, ghost next: Machine)
    requires Runs(rt, layout, sets, m) && e.Load? && Enabled(sets, m, e) && Loadable(e, layout)
    requires next == Step(sets, lazy, m, e)
    modifies rt`t, rt.mem.bytes, rt.mem.perms
    ensures Runs(rt, layout, sets, next)
  {
    LayoutFits(rt, layout, e.addr);
    rt.LoadRoutine(e.name, e.addr, layout[e.addr] + MAGIC_OFFSET);
  }

  method TakePredict(rt: Runtime, lazy: bool, e: Event, ghost layout: map<Addr, nat>, ghost sets: PredSets,
              ghost m: Machine, ghost next: Machine)
    requires Runs(rt, layout, sets, m) && e.Predict? && Enabled(sets, m, e)
    requires next == Step(sets, lazy, m, e)
    modifies rt`copiedFuncs, rt`predSetIdx, rt`oldPredSetIdx, rt.mem.bytes, rt.mem.perms
    ensures Runs(rt, layout, sets, next)
  {
    if lazy {
      rt.PredictLazy(e.i);
    } else {
      rt.PredictEager(e.i);
    }
  }

  /** An entry faults exactly when its stores do not reach some body it restores;
      otherwise it leaves the entered routine pristine. */
  method TakeEnter(rt: Runtime, lazy: bool, e: Event, ghost layout: map<Addr, nat>, ghost sets: PredSets,
              ghost m: Machine, ghost next: Machine)
    returns (ok: bool)
    requires Runs(rt, layout, sets, m) && Sound(m) && e.Enter? && Enabled(sets, m, e)
    requires next == Step(sets, lazy, m, e)
    modifies rt`copiedFuncs, rt.mem.bytes, rt.mem.perms
    ensures ok == AllCovered(Touched(sets, m, e.a), rt.t.addrToSize, rt.mem.reaches)
    ensures ok ==> Runs(rt, layout, sets, next) && Pristine(rt, e.a)
  {
    EnteredIsResident(sets, lazy, m, e.a);
    ok := rt.ProbeCopy(e.a);
    if ok {
      ResidentIsPristine(rt, e.a);
    }
  }

  method TakeEntry(rt: Runtime, lazy: bool, e: Event, ghost layout: map<Addr, nat>, ghost sets: PredSets,
                   ghost m: Machine, ghost next: Machine)
    returns (ok: bool)
    requires Runs(rt, layout, sets, m) && Sound(m) && e.Enter? && Enabled(sets, m, e)
    requires next == Step(sets, lazy, m, e)
    modifies rt`copiedFuncs, rt.mem.bytes, rt.mem.perms
    ensures ok ==> Runs(rt, layout, sets, next) && Pristine(rt, e.a)
    ensures AllReached(rt, layout) ==> ok
  {
    if AllReached(rt, layout) {
      TouchedIsReached(rt, layout, sets, m, e.a);
    }
    ok := TakeEnter(rt, lazy, e, layout, sets, m, next);
  }

  /** The names of a machine stay sound when no load repeats one. */
  lemma StepStaysSound(sets: PredSets, lazy: bool, m: Machine, e: Event)
    requires Sound(m) && Enabled(sets, m, e) && (e.Load? ==> e.name !in m.byName)
    ensures Sound(Step(sets, lazy, m, e))
  {
    StepKeepsIndexed(sets, lazy, m, e);
    StepKeepsUniqueNames(sets, lazy, m, e);
  }

  /** One event. Only an entry can fault. */
  method Take(rt: Runtime, lazy: bool, e: Event, layout: map<Addr, nat>, ghost sets: PredSets,
              ghost m: Machine, ghost next: Machine)
    returns (ok: bool)
    requires Runs(rt, layout, sets, m) && Sound(m) && Enabled(sets, m, e) && Loadable(e, layout)
    requires next == Step(sets, lazy, m, e)
    modifies rt`t, rt`copiedFuncs, rt`predSetIdx, rt`oldPredSetIdx, rt.mem.bytes, rt.mem.perms
    ensures ok ==> Runs(rt, layout, sets, next) && (e.Enter? ==> Pristine(rt, e.a))
    ensures !e.Enter? || AllReached(rt, layout) ==> ok
  {
    ok := true;
    match e
    case Load(_, _) => TakeLoad(rt, lazy, e, layout, sets, m, next);
    case Predict(_) => TakePredict(rt, lazy, e, layout, sets, m, next);
    case Enter(_) => ok := TakeEntry(rt, lazy, e, layout, sets, m, next);
  }

  lemma Onward(sets: PredSets, lazy: bool, m: Machine, events: seq<Event>, layout: map<Addr, nat>)
    requires events != [] && FreshLoads(sets, lazy, m, events) && forall e :: e in events ==> Loadable(e, layout)
    ensures Enabled(sets, m, events[0]) && (events[0].Load? ==> events[0].name !in m.byName)
    ensures Loadable(events[0], layout) && forall e :: e in events[1..] ==> Loadable(e, layout)
    ensures FreshLoads(sets, lazy, Step(sets, lazy, m, events[0]), events[1..])
    ensures After(sets, lazy, m, events) == After(sets, lazy, Step(sets, lazy, m, events[0]), events[1..])
  {
  }

  /** Any run of loads with fresh names, eager or lazy predictions and entries: memory
      follows the abstract run from m to goal. A run ends early only in an entry that
      faults, so never when all bodies are within reach of their stores. */
  method Play(rt: Runtime, lazy: bool, events: seq<Event>, layout: map<Addr, nat>, ghost sets: PredSets,
              ghost m: Machine, ghost goal: Machine)
    returns (ok: bool)
    requires Runs(rt, layout, sets, m) && Sound(m) && FreshLoads(sets, lazy, m, events)
    requires goal == After(sets, lazy, m, events) && forall e :: e in events ==> Loadable(e, layout)
    modifies rt`t, rt`copiedFuncs, rt`predSetIdx, rt`oldPredSetIdx, rt.mem.bytes, rt.mem.perms
    ensures ok ==> Runs(rt, layout, sets, goal) && Sound(goal)
    ensures AllReached(rt, layout) ==> ok
    decreases |events|
  {
    ok := true;
    if events != [] {
      Onward(sets, lazy, m, events, layout);
      StepStaysSound(sets, lazy, m, events[0]);
      ghost var next := Step(sets, lazy, m, events[0]);
      ok := Take(rt, lazy, events[0], layout, sets, m, next);
      if ok {
        ok := Play(rt, lazy, events[1..], layout, sets, next, goal);
      }
    }
  }

  /** After any such run, a function that is entered without a fault starts on its own
      code. */
  method PlayThenEnter(rt: Runtime, lazy: bool, events: seq<Event>, a: Addr, layout: map<Addr, nat>,
                       ghost sets: PredSets, ghost m: Machine, ghost last: Machine)
    returns (ok: bool)
    requires Runs(rt, layout, sets, m) && Sound(m) && FreshLoads(sets, lazy, m, events)
    requires last == After(sets, lazy, m, events) && forall e :: e in events ==> Loadable(e, layout)
    requires Enabled(sets, last, Enter(a))
    modifies rt`t, rt`copiedFuncs, rt`predSetIdx, rt`oldPredSetIdx, rt.mem.bytes, rt.mem.perms
    ensures ok ==> Pristine(rt, a)
    ensures AllReached(rt, layout) ==> ok
    ensures ok ==> Runs(rt, layout, sets, Step(sets, lazy, last, Enter(a)))
  {
    ghost var next := Step(sets, lazy, last, Enter(a));
    ok := Play(rt, lazy, events, layout, sets, m, last);
    if ok {
      ok := Take(rt, lazy, Enter(a), layout, sets, last, next);
    }
  }

  /** Every run starts with nothing loaded, in a state these methods accept. */
  method StartRun(mem: Memory, sets: PredSets, ghost layout: map<Addr, nat>) returns (rt: Runtime)
    requires mem.Ok() && mem.AtRest() && Fits(layout, mem.bytes.Length)
    ensures fresh(rt) && rt.mem == mem && Runs(rt, layout, sets, START) && Sound(START)
  {
    rt := new Runtime(mem, sets);
  }
}
