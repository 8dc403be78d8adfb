/** The training table that a trace stands for: call sites and the library calls that
    follow them (pathPredictionProject/src/parsePinTrace.cpp). */
module TraceTable {
  import opened StringSets

  /** The lines of a trace that matter, once main has been called. */
  datatype Event =
    | Site(site: nat, function_: nat, args: seq<real>)
    | Rdf(flag: nat, site: nat)
    | Return(site: nat)
    | Called(name: string)

  // ---- The table a trace should give ------------------------------------------------

  /** A row starts at a library call that directly follows a call-site line. */
  predicate StartsRow(ev: seq<Event>, i: nat) {
    0 < i < |ev| && ev[i].Called? && ev[i - 1].Site?
  }

  /** A row ends at a return, at a dominance-frontier line, or where the next row starts. */
  predicate Ends(ev: seq<Event>, j: nat) {
    j < |ev| && (ev[j].Return? || ev[j].Rdf? || StartsRow(ev, j))
  }

  /** The first end at or after j; the length of the trace when there is none. */
  function End(ev: seq<Event>, j: nat): (e: nat)
    requires j <= |ev|
    ensures j <= e <= |ev| && (e < |ev| ==> Ends(ev, e))
    ensures forall k :: j <= k < e ==> !Ends(ev, k)
    decreases |ev| - j
  {
    if j == |ev| || Ends(ev, j) then j else End(ev, j + 1)
  }

  /** The functions called in ev[i..j]. */
  function CalledIn(ev: seq<Event>, i: nat, j: nat): set<string>
    requires i <= j <= |ev|
  {
    set k | i <= k < j && ev[k].Called? :: ev[k].name
  }

  /** The call chain of the row that starts at i: what was called up to the return, or
      nothing when the row was abandoned. */
  function Chain(ev: seq<Event>, i: nat): set<string>
    requires i < |ev| && End(ev, i + 1) < |ev|
  {
    if ev[End(ev, i + 1)].Return? then CalledIn(ev, i, End(ev, i + 1)) else {}
  }

  /** In terms of lines: the row that starts at i ends with the first return or dominance-
      frontier line after it, or the first library call that directly follows a call-site
      line; its chain is what was called up to a return, and empty otherwise. */
  lemma ChainMeans(ev: seq<Event>, i: nat, j: nat)
    requires i < j < |ev|
    requires ev[j].Return? || ev[j].Rdf? || (ev[j].Called? && ev[j - 1].Site?)
    requires forall k :: i < k < j ==> !ev[k].Return? && !ev[k].Rdf? && !(ev[k].Called? && ev[k - 1].Site?)
    ensures End(ev, i + 1) == j
    ensures forall x :: x in Chain(ev, i) <==> ev[j].Return? && exists k :: i <= k < j && ev[k] == Called(x)
  {
    assert Ends(ev, j);
    assert forall k :: i < k < j ==> !Ends(ev, k);
    forall x | ev[j].Return? && exists k :: i <= k < j && ev[k] == Called(x) ensures x in Chain(ev, i) {
      var k :| i <= k < j && ev[k] == Called(x);
      assert ev[k].Called? && ev[k].name == x;
    }
  }

  /** Where the rows start. */
  function Starts(ev: seq<Event>): (s: seq<nat>)
    ensures forall r :: 0 <= r < |s| ==> StartsRow(ev, s[r])
  {
    if ev == [] then []
    else
      var n := |ev| - 1;
      Starts(ev[..n]) + if StartsRow(ev, n) then [n] else []
  }

  /** All the starts, in the order of the trace. */
  lemma {:induction false} StartsAreAll(ev: seq<Event>)
    ensures forall q, r :: 0 <= q < r < |Starts(ev)| ==> Starts(ev)[q] < Starts(ev)[r]
    ensures forall i: nat :: StartsRow(ev, i) ==> i in Starts(ev)
  {
    if ev != [] {
      var n := |ev| - 1;
      StartsAreAll(ev[..n]);
      assert forall i: nat :: i < n ==> StartsRow(ev[..n], i) == StartsRow(ev, i);
    }
  }

  /** The call-site lines of the rows. */
  function Headers(ev: seq<Event>): (h: seq<Event>)
    ensures forall r :: 0 <= r < |h| ==> h[r].Site?
  {
    if ev == [] then []
    else
      var n := |ev| - 1;
      Headers(ev[..n]) + if StartsRow(ev, n) then [ev[n - 1]] else []
  }

  lemma {:induction false} HeadersPrecedeStarts(ev: seq<Event>)
    ensures |Headers(ev)| == |Starts(ev)|
    ensures forall r :: 0 <= r < |Starts(ev)| ==> Headers(ev)[r] == ev[Starts(ev)[r] - 1]
  {
    if ev != [] {
      HeadersPrecedeStarts(ev[..|ev| - 1]);
    }
  }

  predicate Open(ev: seq<Event>) {
    var s := Starts(ev);
    s != [] && End(ev, s[|s| - 1] + 1) == |ev|
  }

  // ---- Growing a trace by one event ----------------------------------------------------

  lemma EndsKept(ev: seq<Event>, e: Event, j: nat)
    requires j < |ev|
    ensures Ends(ev + [e], j) == Ends(ev, j)
  {
  }

  lemma {:induction false} EndGrows(ev: seq<Event>, e: Event, j: nat)
    requires j <= |ev|
    ensures End(ev, j) < |ev| ==> End(ev + [e], j) == End(ev, j)
    ensures End(ev, j) == |ev| ==> End(ev + [e], j) == if Ends(ev + [e], |ev|) then |ev| else |ev| + 1
    decreases |ev| - j
  {
    if j < |ev| {
      EndsKept(ev, e, j);
      EndGrows(ev, e, j + 1);
    }
  }

  lemma StartsGrow(ev: seq<Event>, e: Event)
    ensures Starts(ev + [e]) == Starts(ev) + if StartsRow(ev + [e], |ev|) then [|ev|] else []
  {
    assert (ev + [e])[..|ev|] == ev;
  }

  lemma HeadersGrow(ev: seq<Event>, e: Event)
    ensures Headers(ev + [e]) == Headers(ev) + if StartsRow(ev + [e], |ev|) then [ev[|ev| - 1]] else []
  {
    assert (ev + [e])[..|ev|] == ev;
  }

  lemma CalledInKept(ev: seq<Event>, e: Event, i: nat, j: nat)
    requires i <= j <= |ev|
    ensures CalledIn(ev + [e], i, j) == CalledIn(ev, i, j)
    ensures CalledIn(ev + [e], i, |ev| + 1) == CalledIn(ev, i, |ev|) + if e.Called? then {e.name} else {}
  {
    var grown := ev + [e];
    forall x | x in CalledIn(ev, i, j) ensures x in CalledIn(grown, i, j) {
      var k :| i <= k < j && ev[k].Called? && ev[k].name == x;
      assert grown[k].Called? && grown[k].name == x;
    }
    forall x | x in CalledIn(ev, i, |ev|) ensures x in CalledIn(grown, i, |ev| + 1) {
      var k :| i <= k < |ev| && ev[k].Called? && ev[k].name == x;
      assert grown[k].Called? && grown[k].name == x;
    }
    assert grown[|ev|] == e;
  }

  lemma ChainKept(ev: seq<Event>, e: Event, i: nat)
    requires i < |ev| && End(ev, i + 1) < |ev|
    ensures End(ev + [e], i + 1) == End(ev, i + 1) && Chain(ev + [e], i) == Chain(ev, i)
  {
    EndGrows(ev, e, i + 1);
    CalledInKept(ev, e, i, End(ev, i + 1));
  }

  // ---- What the recorder holds ---------------------------------------------------------

  /** The recorder's table: one row per call site; the chain of the last row is missing
      while a call is open. */
  datatype Rows = Rows(sites: seq<nat>, functions: map<nat, nat>, params: seq<seq<real>>, chains: seq<string>,
                       inside: bool, current: seq<string>)

  /** text is the flattened listing of the set. */
  ghost predicate Spelled(text: string, names: set<string>) {
    exists s :: Lists(s, names) && text == Flatten(s)
  }

  ghost predicate RowsMatch(h: seq<Event>, rows: Rows) {
    && |rows.sites| == |rows.params| == |h|
    && forall r :: 0 <= r < |h| ==> h[r].Site? && rows.sites[r] == h[r].site && rows.params[r] == h[r].args
  }

  ghost predicate Latest(h: seq<Event>, r: nat)
    requires forall q :: 0 <= q < |h| ==> h[q].Site?
  {
    r < |h| && forall q :: r < q < |h| ==> h[q].site != h[r].site
  }

  /** The function of a site is that of its latest row. */
  ghost predicate FunctionsMatch(h: seq<Event>, functions: map<nat, nat>)
    requires forall q :: 0 <= q < |h| ==> h[q].Site?
  {
    forall r :: 0 <= r < |h| && Latest(h, r) ==> h[r].site in functions && functions[h[r].site] == h[r].function_
  }

  lemma FunctionsAdd(h: seq<Event>, functions: map<nat, nat>, site: Event)
    requires (forall q :: 0 <= q < |h| ==> h[q].Site?) && site.Site? && FunctionsMatch(h, functions)
    ensures FunctionsMatch(h + [site], functions[site.site := site.function_])
  {
    var t := h + [site];
    forall r | 0 <= r < |t| && Latest(t, r)
      ensures t[r].site in functions[site.site := site.function_]
      ensures functions[site.site := site.function_][t[r].site] == t[r].function_
    {
      if r < |h| {
        assert t[|h|].site != t[r].site;
        forall q | r < q < |h| ensures h[q].site != h[r].site {
          assert t[q] == h[q];
        }
        assert Latest(h, r);
      }
    }
  }

  /** The row that starts at i is over, and text spells its chain. */
  ghost predicate ChainAt(ev: seq<Event>, i: nat, text: string) {
    i < |ev| && End(ev, i + 1) < |ev| && Spelled(text, Chain(ev, i))
  }

  ghost predicate ChainsAt(ev: seq<Event>, chains: seq<string>) {
    |chains| <= |Starts(ev)| && forall r :: 0 <= r < |chains| ==> ChainAt(ev, Starts(ev)[r], chains[r])
  }

  lemma ChainsPush(ev: seq<Event>, chains: seq<string>, text: string)
    requires ChainsAt(ev, chains) && |chains| < |Starts(ev)| && ChainAt(ev, Starts(ev)[|chains|], text)
    ensures ChainsAt(ev, chains + [text])
  {
  }

  ghost predicate ChainsMatch(ev: seq<Event>, rows: Rows) {
    |rows.chains| + (if rows.inside then 1 else 0) == |Starts(ev)| && ChainsAt(ev, rows.chains)
  }

  ghost predicate CurrentMatches(ev: seq<Event>, rows: Rows) {
    && (rows.inside <==> Open(ev))
    && (rows.inside ==> var s := Starts(ev); Lists(rows.current, CalledIn(ev, s[|s| - 1], |ev|)))
  }

  /** The rows are those of the trace read so far. */
  ghost predicate Reflects(ev: seq<Event>, rows: Rows) {
    && RowsMatch(Headers(ev), rows) && FunctionsMatch(Headers(ev), rows.functions)
    && ChainsMatch(ev, rows) && CurrentMatches(ev, rows)
  }

  /** What this says of row r: its site, its arguments and, once the row is over, its chain
      belong to the call-site line before the r-th start. */
  lemma RowBelongsToSite(ev: seq<Event>, rows: Rows, r: nat)
    requires Reflects(ev, rows) && r < |Starts(ev)|
    ensures |rows.sites| == |rows.params| == |Starts(ev)| && |rows.chains| == |Starts(ev)| - if Open(ev) then 1 else 0
    ensures var i := Starts(ev)[r];
            && StartsRow(ev, i) && rows.sites[r] == ev[i - 1].site && rows.params[r] == ev[i - 1].args
            && (r < |rows.chains| ==> ChainAt(ev, i, rows.chains[r]))
  {
    HeadersPrecedeStarts(ev);
  }

  /** The function recorded for a site is the one of the site's last row. */
  lemma LastRowNamesFunction(ev: seq<Event>, rows: Rows, r: nat)
    requires Reflects(ev, rows) && r < |Starts(ev)|
    requires forall q :: r < q < |Starts(ev)| ==> ev[Starts(ev)[q] - 1].site != ev[Starts(ev)[r] - 1].site
    ensures var line := ev[Starts(ev)[r] - 1];
            line.Site? && line.site in rows.functions && rows.functions[line.site] == line.function_
  {
    HeadersPrecedeStarts(ev);
    assert Latest(Headers(ev), r);
  }

  /** The open row, if any, gets its chain. */
  function Closed(rows: Rows, chain: seq<string>): Rows {
    if rows.inside then rows.(chains := rows.chains + [Flatten(chain)], inside := false) else rows
  }

  function Started(rows: Rows, site: nat, function_: nat, args: seq<real>): Rows {
    rows.(sites := rows.sites + [site], functions := rows.functions[site := function_], params := rows.params + [args],
          inside := true, current := [])
  }

  predicate EndsNow(ev: seq<Event>, e: Event) {
    Ends(ev + [e], |ev|)
  }

  lemma ChainsKept(ev: seq<Event>, e: Event, chains: seq<string>)
    requires ChainsAt(ev, chains)
    ensures ChainsAt(ev + [e], chains)
  {
    StartsGrow(ev, e);
    forall r | 0 <= r < |chains| ensures ChainAt(ev + [e], Starts(ev + [e])[r], chains[r]) {
      assert ChainAt(ev, Starts(ev)[r], chains[r]);
      ChainKept(ev, e, Starts(ev)[r]);
    }
  }

  /** When an event ends the open row, its chain is what was called, or nothing. */
  lemma ChainsClose(ev: seq<Event>, e: Event, rows: Rows, chain: seq<string>, next: Rows)
    requires ChainsMatch(ev, rows) && CurrentMatches(ev, rows) && EndsNow(ev, e)
    requires chain == if e.Return? then rows.current else []
    requires next.chains == Closed(rows, chain).chains && next.inside == StartsRow(ev + [e], |ev|)
    ensures ChainsMatch(ev + [e], next)
  {
    StartsGrow(ev, e);
    ChainsKept(ev, e, rows.chains);
    if rows.inside {
      LastChain(ev, e, rows, chain);
      ChainsPush(ev + [e], rows.chains, Flatten(chain));
    }
  }

  lemma QuietCurrent(ev: seq<Event>, e: Event, rows: Rows, next: Rows)
    requires CurrentMatches(ev, rows) && !EndsNow(ev, e)
    requires next == if rows.inside && e.Called? then rows.(current := Insert(rows.current, e.name)) else rows
    ensures CurrentMatches(ev + [e], next)
  {
    StartsGrow(ev, e);
    if Starts(ev) != [] {
      var i := Starts(ev)[|Starts(ev)| - 1];
      EndGrows(ev, e, i + 1);
      CalledInKept(ev, e, i, |ev|);
      if e.Called? && rows.inside { InsertLists(rows.current, CalledIn(ev, i, |ev|), e.name); }
    }
  }

  lemma QuietChains(ev: seq<Event>, e: Event, rows: Rows, next: Rows)
    requires ChainsMatch(ev, rows) && !EndsNow(ev, e)
    requires next.chains == rows.chains && next.inside == rows.inside
    ensures ChainsMatch(ev + [e], next)
  {
    StartsGrow(ev, e);
    ChainsKept(ev, e, rows.chains);
  }

  /** An event that does not end the open row: a call in it is added to its set. */
  lemma QuietStep(ev: seq<Event>, e: Event, rows: Rows, next: Rows)
    requires Reflects(ev, rows) && !EndsNow(ev, e)
    requires next == if rows.inside && e.Called? then rows.(current := Insert(rows.current, e.name)) else rows
    ensures Reflects(ev + [e], next)
  {
    HeadersGrow(ev, e);
    QuietChains(ev, e, rows, next);
    QuietCurrent(ev, e, rows, next);
  }

  /** An event that ends the open row: its chain is what was called, or nothing. */
  lemma CloseStep(ev: seq<Event>, e: Event, rows: Rows, chain: seq<string>, next: Rows)
    requires Reflects(ev, rows) && (e.Return? || e.Rdf?)
    requires chain == if e.Return? then rows.current else []
    requires next == Closed(rows, chain).(current := next.current)
    ensures Reflects(ev + [e], next)
  {
    HeadersGrow(ev, e);
    ChainsClose(ev, e, rows, chain, next);
    CloseCurrent(ev, e);
  }

  lemma CloseCurrent(ev: seq<Event>, e: Event)
    requires EndsNow(ev, e) && !StartsRow(ev + [e], |ev|)
    ensures !Open(ev + [e])
  {
    StartsGrow(ev, e);
    if Starts(ev) != [] {
      EndGrows(ev, e, Starts(ev)[|Starts(ev)| - 1] + 1);
    }
  }

  lemma LastChain(ev: seq<Event>, e: Event, rows: Rows, chain: seq<string>)
    requires CurrentMatches(ev, rows) && EndsNow(ev, e) && rows.inside
    requires chain == if e.Return? then rows.current else []
    ensures ChainAt(ev + [e], Starts(ev)[|Starts(ev)| - 1], Flatten(chain))
  {
    var i := Starts(ev)[|Starts(ev)| - 1];
    EndGrows(ev, e, i + 1);
    CalledInKept(ev, e, i, |ev|);
    assert Lists(chain, Chain(ev + [e], i));
  }

  lemma StartCurrent(ev: seq<Event>, e: Event, next: Rows)
    requires StartsRow(ev + [e], |ev|) && next.inside && next.current == [e.name]
    ensures CurrentMatches(ev + [e], next)
  {
    StartsGrow(ev, e);
    CalledInKept(ev, e, |ev|, |ev|);
  }

  lemma StartTable(ev: seq<Event>, e: Event, rows: Rows, site: Event, next: Rows)
    requires Reflects(ev, rows) && StartsRow(ev + [e], |ev|) && site == ev[|ev| - 1]
    requires next.sites == rows.sites + [site.site] && next.params == rows.params + [site.args]
    requires next.functions == rows.functions[site.site := site.function_]
    ensures RowsMatch(Headers(ev + [e]), next) && FunctionsMatch(Headers(ev + [e]), next.functions)
  {
    HeadersGrow(ev, e);
    FunctionsAdd(Headers(ev), rows.functions, site);
  }

  /** A call that starts a row: the open row is abandoned, and the new one holds the
      site, its function, its arguments and the called name. */
  lemma StartStep(ev: seq<Event>, e: Event, rows: Rows, site: Event, next: Rows)
    requires Reflects(ev, rows) && StartsRow(ev + [e], |ev|) && site == ev[|ev| - 1]
    requires next == Started(Closed(rows, []), site.site, site.function_, site.args).(current := [e.name])
    ensures Reflects(ev + [e], next)
  {
    StartTable(ev, e, rows, site, next);
    ChainsClose(ev, e, rows, [], next);
    StartCurrent(ev, e, next);
  }

  /** `latest` is the call-site line read last; it waits until another line follows. */
  ghost predicate Waiting(ev: seq<Event>, valid: bool, latest: Event) {
    && latest.Site?
    && (valid <==> ev != [] && ev[|ev| - 1].Site?)
    && (valid ==> latest == ev[|ev| - 1])
  }

  /** How one line changes the rows. */
  ghost predicate Stepped(rows: Rows, e: Event, valid: bool, latest: Event, next: Rows)
    requires latest.Site?
  {
    match e
    case Site(_, _, _) => next == rows
    case Return(_) => next == Closed(rows, rows.current)
    case Rdf(_, _) => next == Closed(rows, []).(current := next.current)
    case Called(name) =>
      if valid then next == Started(Closed(rows, []), latest.site, latest.function_, latest.args).(current := [name])
      else next == if rows.inside then rows.(current := Insert(rows.current, name)) else rows
  }

  /** One line keeps the rows those of the trace. */
  lemma StepReflects(ev: seq<Event>, e: Event, valid: bool, latest: Event, rows: Rows, next: Rows)
    requires Reflects(ev, rows) && Waiting(ev, valid, latest) && Stepped(rows, e, valid, latest, next)
    ensures Reflects(ev + [e], next)
  {
    if e.Return? || e.Rdf? {
      CloseStep(ev, e, rows, if e.Return? then rows.current else [], next);
    } else if e.Called? && valid {
      StartStep(ev, e, rows, latest, next);
    } else {
      QuietStep(ev, e, rows, next);
    }
  }

  // ---- A line of the training table -------------------------------------------------

  /** The parameters of a row, filled up with zeros to five columns. */
  function Padded(params: seq<real>): (cols: seq<real>)
    ensures |cols| == if |params| < 5 then 5 else |params|
    ensures cols[..|params|] == params && forall i :: |params| <= i < |cols| ==> cols[i] == 0.0
  {
    params + seq(if |params| < 5 then 5 - |params| else 0, _ => 0.0)
  }

  /** The columns after the label: call site, function, id of the flag set, parameters. */
  function Columns(site: nat, function_: nat, flagsId: nat, params: seq<real>): seq<real> {
    [site as real, function_ as real, flagsId as real] + Padded(params)
  }
}
