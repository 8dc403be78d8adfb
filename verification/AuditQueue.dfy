/** The simulated audit thread (audit/mispredict-timeline-results/parse_mispredicts.py):
    mispredictions queue for one server that spends `audit` on each. */
module AuditQueue {
  function Max(a: real, b: real): real {
    if a < b then b else a
  }

  /** When each audit ends; entry zero is the start of time. A job starts when it has
      arrived and its predecessor is done. */
  function Ends(times: seq<int>, audit: real): (ends: seq<real>)
    ensures |ends| == |times| + 1 && ends[0] == 0.0
  {
    if times == [] then [0.0]
    else
      var before := Ends(times[..|times| - 1], audit);
      before + [Max(times[|times| - 1] as real, before[|times| - 1]) + audit]
  }

  lemma EndsNext(times: seq<int>, audit: real, n: nat)
    requires n < |times|
    ensures Ends(times[..n + 1], audit)
         == Ends(times[..n], audit) + [Max(times[n] as real, Ends(times[..n], audit)[n]) + audit]
  {
    assert times[..n + 1][..n] == times[..n];
  }

  lemma {:induction false} EndsRise(times: seq<int>, audit: real)
    requires audit >= 0.0
    ensures forall i, j :: 0 <= i <= j <= |times| ==> Ends(times, audit)[i] <= Ends(times, audit)[j]
  {
    if times != [] {
      EndsRise(times[..|times| - 1], audit);
    }
  }

  /** The length of a busy period of `jobs` audits that starts at `from`. */
  function BusyUntil(from: real, jobs: nat, audit: real): real {
    from + jobs as real * audit
  }

  lemma BusyLonger(from: real, jobs: nat, audit: real)
    ensures BusyUntil(from, jobs + 1, audit) == BusyUntil(from, jobs, audit) + audit
  {
  }

  /** The last end is the latest of all busy periods that could lead to it: the server
      is never idle while a job waits, and never does two jobs at once. */
  lemma {:induction false} EndIsLongestBusyPeriod(times: seq<int>, audit: real)
    ensures var n := |times|;
            && Ends(times, audit)[n] >= BusyUntil(0.0, n, audit)
            && (forall j :: 0 <= j < n ==> Ends(times, audit)[n] >= BusyUntil(times[j] as real, n - j, audit))
            && (Ends(times, audit)[n] == BusyUntil(0.0, n, audit)
                || exists j :: 0 <= j < n && Ends(times, audit)[n] == BusyUntil(times[j] as real, n - j, audit))
  {
    var n := |times|;
    if n > 0 {
      var init := times[..n - 1];
      EndIsLongestBusyPeriod(init, audit);
      BusyLonger(0.0, n - 1, audit);
      BusyLonger(times[n - 1] as real, 0, audit);
      forall j | 0 <= j < n - 1
        ensures BusyUntil(times[j] as real, n - j, audit) == BusyUntil(init[j] as real, n - 1 - j, audit) + audit
      {
        BusyLonger(times[j] as real, n - 1 - j, audit);
      }
    }
  }

  /** The loop with its moving index. It appends exactly the end the queue prescribes,
      for timestamps in any order, and moves the index once per entry at most. */
  method Simulate(times: seq<int>, audit: real) returns (ends: seq<real>, advances: nat)
    requires audit >= 0.0
    ensures ends == Ends(times, audit)
    ensures advances <= |times| + 1
  {
    ends := [0.0];
    var i := 0;
    advances := 0;
    for n := 0 to |times|
      invariant ends == Ends(times[..n], audit)
      invariant i == advances <= n < |ends|
    {
      EndsRise(times[..n], audit);
      EndsNext(times, audit, n);
      while i < |ends| && times[n] as real > ends[i]
        invariant i == advances <= |ends|
        invariant i == |ends| ==> times[n] as real > ends[n]
      {
        i, advances := i + 1, advances + 1;
      }
      if i == |ends| {
        ends := ends + [times[n] as real + audit];
      } else {
        assert ends[i] <= ends[n];
        ends := ends + [ends[|ends| - 1] + audit];
      }
    }
    assert times[..|times|] == times;
  }
}
