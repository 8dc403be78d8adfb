/** The per-CPU pin slots of prep_basicmath/pin/Pin.c. Processes share one
    signed `char` counter per CPU and touch it only with atomic fetch-and-add
    and fetch-and-sub; every such operation is one step, and steps of different
    processes interleave freely. */
module PinSlots {
  const SLOTS := 64  // SHMSZ
  const THRESH := 1

  /** Where a process stands between two atomic operations.
      Lost, AffinityFailed and Releasing each still owe the counter one
      fetch-and-sub; Won has its increment and is about to set its affinity. */
  datatype Pc = Ready | Lost | Won | AffinityFailed | Releasing | Gone

  datatype Process = Process(pc: Pc, pinned: bool, proc: nat, mask: set<nat>, wasMask: set<nat>)

  datatype State = State(procs: seq<Process>, shm: seq<int>)

  /** Pin is Attempt (sched_getcpu and fetch-and-add), then Retreat after a lost
      attempt or SetAffinity after a won one. UnPin is UnpinAffinity, then
      Release. PinFree is Free. `ok` is what sched_setaffinity answered. */
  datatype Event =
    | Attempt(p: nat, cpu: nat)
    | Retreat(p: nat)
    | SetAffinity(p: nat, ok: bool)
    | UnpinAffinity(p: nat, ok: bool)
    | Release(p: nat)
    | Free(p: nat)

  /** The value a signed char keeps of v. */
  function Char(v: int): int {
    (v + 128) % 256 - 128
  }

  function Init(masks: seq<set<nat>>): State {
    State(seq(|masks|, i requires 0 <= i < |masks| => Process(Ready, false, 0, masks[i], masks[i])),
          seq(SLOTS, _ => 0))
  }

  predicate Enabled(s: State, e: Event) {
    && |s.shm| == SLOTS
    && e.p < |s.procs|
    && var q := s.procs[e.p];
    && match e
       case Attempt(_, cpu) => q.pc == Ready && cpu in q.mask && cpu < SLOTS
       case Retreat(_) => q.proc < SLOTS && (q.pc == Lost || q.pc == AffinityFailed)
       case SetAffinity(_, _) => q.pc == Won
       case UnpinAffinity(_, _) => q.pc == Ready && q.pinned
       case Release(_) => q.proc < SLOTS && q.pc == Releasing
       case Free(_) => q.pc == Ready && (q.pinned ==> q.proc < SLOTS)
  }

  function Apply(s: State, e: Event): State
    requires Enabled(s, e)
  {
    var q := s.procs[e.p];
    match e
    case Attempt(p, cpu) =>
      var old_ := s.shm[cpu];
      State(s.procs[p := q.(proc := cpu, pc := if old_ >= THRESH then Lost else Won)],
            s.shm[cpu := Char(old_ + 1)])
    case Retreat(p) =>
      State(s.procs[p := q.(pc := Ready)], Decrement(s.shm, q.proc))
    case SetAffinity(p, ok) =>
      s.(procs := s.procs[p := if ok then q.(pc := Ready, pinned := true, mask := {q.proc})
                               else q.(pc := AffinityFailed)])
    case UnpinAffinity(p, ok) =>
      s.(procs := s.procs[p := if ok then q.(pc := Releasing, pinned := false, mask := q.wasMask)
                               else q.(pc := Releasing)])
    case Release(p) =>
      State(s.procs[p := q.(pc := Ready)], Decrement(s.shm, q.proc))
    case Free(p) =>
      State(s.procs[p := q.(pc := Gone)], if q.pinned then Decrement(s.shm, q.proc) else s.shm)
  }

  function Decrement(shm: seq<int>, c: nat): seq<int>
    requires c < |shm|
  {
    shm[c := Char(shm[c] - 1)]
  }

  predicate ValidRun(s: State, events: seq<Event>)
    decreases |events|
  {
    events == [] || (Enabled(s, events[0]) && ValidRun(Apply(s, events[0]), events[1..]))
  }

  function Final(s: State, events: seq<Event>): State
    requires ValidRun(s, events)
    decreases |events|
  {
    if events == [] then s else Final(Apply(s, events[0]), events[1..])
  }

  // ---- Accounting ----------------------------------------------------------

  predicate Holds(q: Process, c: nat) {
    q.pinned && q.pc != Gone && q.proc == c
  }

  /** An increment of slot c that q has made and not yet taken back. */
  predicate InFlight(q: Process, c: nat) {
    q.proc == c && (q.pc == Lost || q.pc == Won || q.pc == AffinityFailed || q.pc == Releasing)
  }

  /** q holds c, or found it free and has neither pinned itself nor released yet. */
  predicate Owner(q: Process, c: nat) {
    Holds(q, c) || (q.proc == c && (q.pc == Won || q.pc == AffinityFailed || q.pc == Releasing))
  }

  function Share(q: Process, c: nat): (n: nat)
    ensures n <= 2
  {
    (if Holds(q, c) then 1 else 0) + (if InFlight(q, c) then 1 else 0)
  }

  /** Holders plus in-flight attempts plus releases not yet applied. */
  function Shares(procs: seq<Process>, c: nat): nat {
    if procs == [] then 0 else Share(procs[0], c) + Shares(procs[1..], c)
  }

  ghost predicate ProcessOk(q: Process) {
    && q.proc < SLOTS && q.mask <= q.wasMask && (!q.pinned ==> q.mask == q.wasMask)
    && (q.pinned && q.pc != Gone ==> q.mask == {q.proc} && (q.pc == Ready || q.pc == Lost))
    && (Share(q, q.proc) > 0 ==> q.proc in q.wasMask)
  }

  /** How many of the processes may run on CPU c. */
  function Runners(procs: seq<Process>, c: nat): nat {
    if procs == [] then 0 else (if c in procs[0].wasMask then 1 else 0) + Runners(procs[1..], c)
  }

  /** At most 127 processes may run on any one CPU. */
  ghost predicate Uncrowded(procs: seq<Process>) {
    forall c :: 0 <= c < SLOTS ==> Runners(procs, c) <= 127
  }

  lemma {:induction false} RunnersUpdate(procs: seq<Process>, p: nat, q: Process, c: nat)
    requires p < |procs| && q.wasMask == procs[p].wasMask
    ensures Runners(procs[p := q], c) == Runners(procs, c)
  {
    if p == 0 {
      assert procs[p := q][1..] == procs[1..];
    } else {
      assert procs[p := q][1..] == procs[1..][p - 1 := q];
      RunnersUpdate(procs[1..], p - 1, q, c);
    }
  }

  ghost predicate MutualExclusion(s: State) {
    forall p, q, c: nat :: 0 <= p < q < |s.procs| && Holds(s.procs[p], c) ==> !Holds(s.procs[q], c)
  }

  ghost predicate OneOwner(procs: seq<Process>) {
    forall p, q, c: nat :: 0 <= p < q < |procs| && Owner(procs[p], c) ==> !Owner(procs[q], c)
  }

  ghost predicate Accounted(s: State) {
    |s.shm| == SLOTS && forall c :: 0 <= c < SLOTS ==> s.shm[c] == Char(Shares(s.procs, c))
  }

  ghost predicate Inv(s: State) {
    && Accounted(s)
    && OneOwner(s.procs)
    && forall p :: 0 <= p < |s.procs| ==> ProcessOk(s.procs[p])
  }

  lemma {:induction false} SharesUpdate(procs: seq<Process>, p: nat, q: Process, c: nat)
    requires p < |procs|
    ensures Shares(procs[p := q], c) == Shares(procs, c) - Share(procs[p], c) + Share(q, c)
  {
    if p == 0 {
      assert procs[p := q][1..] == procs[1..];
    } else {
      assert procs[p := q][1..] == procs[1..][p - 1 := q];
      SharesUpdate(procs[1..], p - 1, q, c);
    }
  }

  /** With one owner per slot, a slot's shares number at most one per process that
      may run there and one more for an owner that retries. */
  lemma {:induction false} SharesBound(procs: seq<Process>, c: nat)
    requires OneOwner(procs)
    requires forall p :: 0 <= p < |procs| ==> ProcessOk(procs[p])
    ensures Shares(procs, c) <= Runners(procs, c) + 1
    ensures (forall p :: 0 <= p < |procs| ==> !Owner(procs[p], c)) ==> Shares(procs, c) <= Runners(procs, c)
  {
    if procs != [] {
      var rest := procs[1..];
      assert forall p :: 0 <= p < |rest| ==> rest[p] == procs[p + 1];
      assert ProcessOk(procs[0]);
      SharesBound(rest, c);
    }
  }

  lemma {:induction false} SharesPositive(procs: seq<Process>, c: nat, p: nat)
    requires p < |procs|
    ensures Shares(procs, c) >= Share(procs[p], c)
  {
    if p > 0 { SharesPositive(procs[1..], c, p - 1); }
  }

  /** The process about to attempt leaves room for one share: its attempt reads
      a count of at most the number of processes that may run there. */
  lemma SharesBeforeAttempt(procs: seq<Process>, p: nat, c: nat)
    requires OneOwner(procs) && p < |procs| && procs[p].pc == Ready
    requires forall i :: 0 <= i < |procs| ==> ProcessOk(procs[i])
    requires c < SLOTS && c in procs[p].mask
    ensures Shares(procs, c) <= Runners(procs, c)
  {
    // Were the process to retry a slot it holds, or wait behind its owner,
    // the bound of one share more would still apply.
    var q := procs[p].(pc := Lost, proc := c);
    var procs' := procs[p := q];
    assert ProcessOk(procs[p]);
    forall a, b, d: nat | 0 <= a < b < |procs'| && Owner(procs'[a], d)
      ensures !Owner(procs'[b], d)
    {
      assert Owner(procs[a], d) && (Owner(procs'[b], d) ==> Owner(procs[b], d));
    }
    assert forall i :: 0 <= i < |procs'| ==> ProcessOk(procs'[i]);
    SharesBound(procs', c);
    SharesUpdate(procs, p, q, c);
    RunnersUpdate(procs, p, q, c);
  }

  lemma {:induction false} SharesZero(procs: seq<Process>, c: nat)
    requires forall i :: 0 <= i < |procs| ==> Share(procs[i], c) == 0
    ensures Shares(procs, c) == 0
  {
    if procs != [] { SharesZero(procs[1..], c); }
  }

  // ---- Safety --------------------------------------------------------------

  predicate AffinityRestored(e: Event) {
    e.UnpinAffinity? ==> e.ok
  }

  lemma CharSteps(n: int)
    ensures Char(Char(n) + 1) == Char(n + 1) && Char(Char(n) - 1) == Char(n - 1)
    ensures -128 <= n <= 127 ==> Char(n) == n
  {
  }

  /** A step of process p that makes it owner only of a slot it owned, or of a
      slot nobody owned, keeps owners unique. */
  lemma OwnersChangeAt(procs: seq<Process>, p: nat, q: Process)
    requires p < |procs| && OneOwner(procs)
    requires forall c: nat :: Owner(q, c) ==>
      Owner(procs[p], c) || forall i :: 0 <= i < |procs| ==> !Owner(procs[i], c)
    ensures OneOwner(procs[p := q])
  {
  }

  /** Moving one process and its slot's counter by the same amount keeps every
      counter equal to its shares. */
  lemma CounterFollows(s: State, s': State, p: nat, q: Process, slot: nat)
    requires Accounted(s) && p < |s.procs| && s'.procs == s.procs[p := q] && slot < SLOTS
    requires |s'.shm| == SLOTS
    requires forall c :: 0 <= c < SLOTS && c != slot ==>
      s'.shm[c] == s.shm[c] && Share(q, c) == Share(s.procs[p], c)
    requires -1 <= Share(q, slot) - Share(s.procs[p], slot) <= 1
    requires s'.shm[slot] == if Share(q, slot) == Share(s.procs[p], slot) then s.shm[slot]
                             else Char(s.shm[slot] + Share(q, slot) - Share(s.procs[p], slot))
    ensures Accounted(s')
  {
    CharSteps(Shares(s.procs, slot));
    forall c | 0 <= c < SLOTS ensures s'.shm[c] == Char(Shares(s'.procs, c)) {
      SharesUpdate(s.procs, p, q, c);
    }
  }

  lemma AttemptKeepsInv(s: State, p: nat, cpu: nat)
    requires Inv(s) && Uncrowded(s.procs) && Enabled(s, Attempt(p, cpu))
    ensures Inv(Apply(s, Attempt(p, cpu)))
  {
    var s' := Apply(s, Attempt(p, cpu));
    var q, q' := s.procs[p], s'.procs[p];
    assert ProcessOk(q);
    SharesBeforeAttempt(s.procs, p, cpu);
    SharesPositive(s.procs, cpu, p);
    CharSteps(Shares(s.procs, cpu));
    assert s.shm[cpu] == Shares(s.procs, cpu);
    CounterFollows(s, s', p, q', cpu);
    if q'.pc == Won {
      NoShareNoOwner(s.procs, cpu);
    }
    OwnersChangeAt(s.procs, p, q');
  }

  lemma NoShareNoOwner(procs: seq<Process>, c: nat)
    requires Shares(procs, c) == 0
    ensures forall i :: 0 <= i < |procs| ==> !Owner(procs[i], c)
  {
    forall i | 0 <= i < |procs| ensures !Owner(procs[i], c) {
      SharesPositive(procs, c, i);
    }
  }

  lemma OtherStepKeepsInv(s: State, e: Event)
    requires Inv(s) && Enabled(s, e) && !e.Attempt? && AffinityRestored(e)
    ensures Inv(Apply(s, e))
  {
    var s' := Apply(s, e);
    var q, q' := s.procs[e.p], s'.procs[e.p];
    assert ProcessOk(q) && ProcessOk(q');
    CounterFollows(s, s', e.p, q', q.proc);
    OwnersChangeAt(s.procs, e.p, q');
  }

  lemma InitInv(masks: seq<set<nat>>)
    ensures Inv(Init(masks))
  {
    var s := Init(masks);
    forall c | 0 <= c < SLOTS ensures Shares(s.procs, c) == 0 {
      SharesZero(s.procs, c);
    }
  }

  /** The same processes, which remember the masks they started with. */
  ghost predicate SameStart(s: State, s': State) {
    |s.procs| == |s'.procs| && forall p :: 0 <= p < |s.procs| ==> s'.procs[p].wasMask == s.procs[p].wasMask
  }

  lemma StepKeepsRunners(s: State, e: Event)
    requires Enabled(s, e) && Uncrowded(s.procs)
    ensures Uncrowded(Apply(s, e).procs)
  {
    forall c | 0 <= c < SLOTS ensures Runners(Apply(s, e).procs, c) <= 127 {
      RunnersUpdate(s.procs, e.p, Apply(s, e).procs[e.p], c);
    }
  }

  /** Every interleaving of processes of which at most 127 may run on any one CPU, and
      whose unpinning can restore the affinity, keeps the accounting and the
      ownership of every slot. */
  lemma {:induction false} RunKeepsInv(s: State, events: seq<Event>)
    requires Inv(s) && Uncrowded(s.procs) && ValidRun(s, events)
    requires forall e :: e in events ==> AffinityRestored(e)
    ensures Inv(Final(s, events)) && Uncrowded(Final(s, events).procs) && SameStart(s, Final(s, events))
    decreases |events|
  {
    if events != [] {
      var e := events[0];
      assert e in events;
      if e.Attempt? {
        AttemptKeepsInv(s, e.p, e.cpu);
      } else {
        OtherStepKeepsInv(s, e);
      }
      StepKeepsRunners(s, e);
      RunKeepsInv(Apply(s, e), events[1..]);
    }
  }

  /** What the invariant gives a reader of the counters: a counter is its number of
      shares, except that the 128th share, which only a retrying holder can add, reads
      as -128. A process that is not pinned may attempt every CPU of its original mask. */
  lemma InvMeans(s: State)
    requires Inv(s) && Uncrowded(s.procs)
    ensures MutualExclusion(s)
    ensures forall c :: 0 <= c < SLOTS ==> Shares(s.procs, c) <= Runners(s.procs, c) + 1 <= 128
    ensures forall c :: 0 <= c < SLOTS ==> s.shm[c] == if Shares(s.procs, c) == 128 then -128 else Shares(s.procs, c)
    ensures (forall p, c :: 0 <= p < |s.procs| && 0 <= c < SLOTS ==> Share(s.procs[p], c) == 0)
      ==> forall c :: 0 <= c < SLOTS ==> s.shm[c] == 0
    ensures forall p: nat, c: nat :: p < |s.procs| && s.procs[p].pc == Ready && !s.procs[p].pinned ==>
      (Enabled(s, Attempt(p, c)) <==> c in s.procs[p].wasMask && c < SLOTS)
  {
    forall c | 0 <= c < SLOTS
      ensures Shares(s.procs, c) <= Runners(s.procs, c) + 1
      ensures (forall p :: 0 <= p < |s.procs| ==> Share(s.procs[p], c) == 0) ==> Shares(s.procs, c) == 0
    {
      SharesBound(s.procs, c);
      if forall p :: 0 <= p < |s.procs| ==> Share(s.procs[p], c) == 0 {
        SharesZero(s.procs, c);
      }
    }
    forall p, q, c: nat | 0 <= p < q < |s.procs| && Holds(s.procs[p], c)
      ensures !Holds(s.procs[q], c)
    {
      assert Owner(s.procs[p], c);
      assert Holds(s.procs[q], c) ==> Owner(s.procs[q], c);
    }
  }

  // ---- The limits of the guarantee -----------------------------------------

  ghost predicate Safe(masks: seq<set<nat>>) {
    forall events: seq<Event> ::
      ValidRun(Init(masks), events) && (forall e :: e in events ==> AffinityRestored(e))
      ==> MutualExclusion(Final(Init(masks), events))
  }

  lemma {:induction false} RunAppend(s: State, events: seq<Event>, e: Event)
    requires ValidRun(s, events) && Enabled(Final(s, events), e)
    ensures ValidRun(s, events + [e])
    ensures Final(s, events + [e]) == Apply(Final(s, events), e)
    decreases |events|
  {
    if events == [] {
      assert ValidRun(Apply(s, e), []);
      assert (events + [e])[1..] == [];
    } else {
      assert (events + [e])[1..] == events[1..] + [e];
      RunAppend(Apply(s, events[0]), events[1..], e);
    }
  }

  /** The processes that start with CPU c in their affinity mask. */
  function Users(masks: seq<set<nat>>, c: nat): set<nat> {
    set i | 0 <= i < |masks| && c in masks[i]
  }

  /** Different processes that may all run on CPU c. */
  ghost predicate MayRun(masks: seq<set<nat>>, c: nat, ids: seq<nat>) {
    && (forall m :: 0 <= m < |ids| ==> ids[m] < |masks| && c in masks[ids[m]])
    && forall m, n :: 0 <= m < n < |ids| ==> ids[m] != ids[n]
  }

  lemma {:induction false} ListUsers(masks: seq<set<nat>>, c: nat, users: set<nat>) returns (ids: seq<nat>)
    requires users <= Users(masks, c)
    ensures MayRun(masks, c, ids) && |ids| == |users| && forall i :: i in ids ==> i in users
    decreases |users|
  {
    if users == {} {
      ids := [];
    } else {
      var i :| i in users;
      ids := ListUsers(masks, c, users - {i});
      ids := ids + [i];
    }
  }

  lemma {:induction false} RunnersAppend(procs: seq<Process>, q: Process, c: nat)
    ensures Runners(procs + [q], c) == Runners(procs, c) + if c in q.wasMask then 1 else 0
  {
    if procs == [] {
      assert procs + [q] == [q];
    } else {
      assert (procs + [q])[1..] == procs[1..] + [q];
      RunnersAppend(procs[1..], q, c);
    }
  }

  lemma {:induction false} RunnersAreUsers(masks: seq<set<nat>>, c: nat)
    ensures Runners(Init(masks).procs, c) == |Users(masks, c)|
  {
    if masks != [] {
      var n := |masks| - 1;
      var init := masks[..n];
      RunnersAreUsers(init, c);
      RunnersAppend(Init(init).procs, Init(masks).procs[n], c);
      assert Init(masks).procs == Init(init).procs + [Init(masks).procs[n]];
      assert Users(masks, c) == Users(init, c) + if c in masks[n] then {n} else {};
    }
  }

  /** Process ids[0] holds c and retries it while ids[1..k] attempt it too. */
  function Crowd(masks: seq<set<nat>>, c: nat, ids: seq<nat>, k: nat): State
    requires c < SLOTS && k < |ids|
  {
    State(
      seq(|masks|, i requires 0 <= i < |masks| =>
        if i == ids[0] then Process(Lost, true, c, {c}, masks[i])
        else if i in ids[..k + 1] then Process(Lost, false, c, masks[i], masks[i])
        else Process(Ready, false, 0, masks[i], masks[i])),
      seq(SLOTS, i => if i == c then Char(k + 2) else 0))
  }

  lemma CrowdStarts(masks: seq<set<nat>>, c: nat, ids: seq<nat>) returns (events: seq<Event>)
    requires c < SLOTS && MayRun(masks, c, ids) && ids != []
    ensures ValidRun(Init(masks), events) && Final(Init(masks), events) == Crowd(masks, c, ids, 0)
    ensures forall e :: e in events ==> AffinityRestored(e)
  {
    var s, p := Init(masks), ids[0];
    RunAppend(s, [], Attempt(p, c));
    RunAppend(s, [] + [Attempt(p, c)], SetAffinity(p, true));
    RunAppend(s, [] + [Attempt(p, c)] + [SetAffinity(p, true)], Attempt(p, c));
    events := [] + [Attempt(p, c)] + [SetAffinity(p, true)] + [Attempt(p, c)];
    var t := Final(s, events);
    assert ids[..1] == [p];
    assert t.procs == Crowd(masks, c, ids, 0).procs;
    assert t.shm == Crowd(masks, c, ids, 0).shm;
  }

  lemma CrowdGrows(masks: seq<set<nat>>, c: nat, ids: seq<nat>, k: nat)
    requires c < SLOTS && MayRun(masks, c, ids) && 0 < k < |ids| && k <= 126
    ensures Enabled(Crowd(masks, c, ids, k - 1), Attempt(ids[k], c))
    ensures Apply(Crowd(masks, c, ids, k - 1), Attempt(ids[k], c)) == Crowd(masks, c, ids, k)
  {
    var t := Crowd(masks, c, ids, k - 1);
    assert ids[..k + 1] == ids[..k] + [ids[k]];
    assert ids[k] !in ids[..k];
    CharSteps(k + 1);
    var t' := Apply(t, Attempt(ids[k], c));
    assert t'.procs == Crowd(masks, c, ids, k).procs;
    assert t'.shm == Crowd(masks, c, ids, k).shm;
  }

  lemma {:induction false} CrowdGathers(masks: seq<set<nat>>, c: nat, ids: seq<nat>, k: nat)
    returns (events: seq<Event>)
    requires c < SLOTS && MayRun(masks, c, ids) && k < |ids| && k <= 126
    ensures ValidRun(Init(masks), events) && Final(Init(masks), events) == Crowd(masks, c, ids, k)
    ensures forall e :: e in events ==> AffinityRestored(e)
  {
    if k == 0 {
      events := CrowdStarts(masks, c, ids);
    } else {
      events := CrowdGathers(masks, c, ids, k - 1);
      CrowdGrows(masks, c, ids, k);
      RunAppend(Init(masks), events, Attempt(ids[k], c));
      events := events + [Attempt(ids[k], c)];
    }
  }

  /** With 128 processes on one CPU, the slot of a holder that retries wraps to -128
      and the last attempt wins it again. */
  lemma CrowdBreaksExclusion(masks: seq<set<nat>>, c: nat)
    requires c < SLOTS && |Users(masks, c)| > 127
    ensures !Safe(masks)
  {
    var ids := ListUsers(masks, c, Users(masks, c));
    var events := CrowdGathers(masks, c, ids, 126);
    var p := ids[127];
    assert p !in ids[..127];
    RunAppend(Init(masks), events, Attempt(p, c));
    RunAppend(Init(masks), events + [Attempt(p, c)], SetAffinity(p, true));
    var run := events + [Attempt(p, c)] + [SetAffinity(p, true)];
    var s := Final(Init(masks), run);
    assert Holds(s.procs[ids[0]], c) && Holds(s.procs[p], c);
    assert !MutualExclusion(s);
  }

  /** The char counter carries at most 127 processes per CPU: all runs are safe exactly
      when no CPU is in the affinity masks of more. */
  lemma SafeIffAtMost127PerCpu(masks: seq<set<nat>>)
    ensures Safe(masks) <==> forall c :: 0 <= c < SLOTS ==> |Users(masks, c)| <= 127
  {
    if c :| 0 <= c < SLOTS && |Users(masks, c)| > 127 {
      CrowdBreaksExclusion(masks, c);
    } else {
      forall c | 0 <= c < SLOTS ensures Runners(Init(masks).procs, c) <= 127 {
        RunnersAreUsers(masks, c);
      }
      forall events: seq<Event> |
        ValidRun(Init(masks), events) && (forall e :: e in events ==> AffinityRestored(e))
        ensures MutualExclusion(Final(Init(masks), events))
      {
        InitInv(masks);
        RunKeepsInv(Init(masks), events);
        InvMeans(Final(Init(masks), events));
      }
    }
  }

  /** UnPin releases the slot even when the affinity could not be restored.
      That answer, and no other, ends the accounting. */
  lemma UnpinAccountedIffRestored(s: State, p: nat, ok: bool)
    requires Inv(s) && Enabled(s, UnpinAffinity(p, ok))
    ensures Accounted(Apply(s, UnpinAffinity(p, ok))) <==> ok
  {
    var s' := Apply(s, UnpinAffinity(p, ok));
    if ok {
      OtherStepKeepsInv(s, UnpinAffinity(p, ok));
    } else {
      var c := s.procs[p].proc;
      assert ProcessOk(s.procs[p]);
      SharesUpdate(s.procs, p, s'.procs[p], c);
      assert s'.shm[c] != Char(Shares(s'.procs, c));
    }
  }

  /** After such a release two processes can hold one slot. */
  lemma FailedUnpinLosesExclusion(c: nat) returns (events: seq<Event>)
    requires c < SLOTS
    ensures ValidRun(Init([{c}, {c}]), events)
    ensures !MutualExclusion(Final(Init([{c}, {c}]), events))
  {
    var s := Init([{c}, {c}]);
    var steps := [Attempt(0, c), SetAffinity(0, true), UnpinAffinity(0, false), Release(0),
                  Attempt(1, c), SetAffinity(1, true)];
    events := [];
    for i := 0 to 6
      invariant events == steps[..i] && ValidRun(s, events)
      invariant var t := Final(s, events);
        && t.shm == s.shm[c := if i == 0 || i == 4 then 0 else 1]
        && t.procs == [
             if i == 0 then s.procs[0]
             else Process(if i == 1 then Won else if i == 3 then Releasing else Ready, i >= 2, c, {c}, {c}),
             if i <= 4 then s.procs[1] else Process(if i == 5 then Won else Ready, i == 6, c, {c}, {c})]
    {
      RunAppend(s, events, steps[i]);
      events := events + [steps[i]];
    }
    var t := Final(s, events);
    assert Holds(t.procs[0], c) && Holds(t.procs[1], c);
  }
}
