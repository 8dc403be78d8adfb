/** The trace recorder (pathPredictionProject/src/parsePinTrace.cpp): it keeps the rows of
    the training table while it reads the trace. */
module Recorder {
  import opened StringSets
  import opened TraceTable

  // ---- Ids --------------------------------------------------------------------------

  /** Ids count the distinct chain texts in the order in which they were completed. */
  ghost predicate Numbered(ids: map<string, nat>, order: seq<string>) {
    && (forall i :: 0 <= i < |order| ==> order[i] in ids && ids[order[i]] == i)
    && (forall text :: text in ids ==> text in order)
  }

  lemma NumberedSize(ids: map<string, nat>, order: seq<string>)
    requires Numbered(ids, order)
    ensures |ids| == |order|
  {
    assert ids.Keys == Elements(order);
    assert forall i, j :: 0 <= i < j < |order| ==> ids[order[i]] != ids[order[j]];
    DistinctSize(order);
  }

  lemma {:induction false} DistinctSize(s: seq<string>)
    requires forall i, j :: 0 <= i < j < |s| ==> s[i] != s[j]
    ensures |Elements(s)| == |s|
  {
    if s != [] {
      var init := s[..|s| - 1];
      DistinctSize(init);
      assert Elements(s) == Elements(init) + {s[|s| - 1]};
    }
  }

  lemma NumberedAdd(ids: map<string, nat>, order: seq<string>, text: string)
    requires Numbered(ids, order) && text !in ids
    ensures Numbered(ids[text := |ids|], order + [text])
  {
    NumberedSize(ids, order);
  }

  /** Chain ids are injective and dense from zero. */
  lemma IdsDense(ids: map<string, nat>, order: seq<string>)
    requires Numbered(ids, order)
    ensures forall a, b :: a in ids && b in ids && ids[a] == ids[b] ==> a == b
    ensures forall a :: a in ids ==> ids[a] < |ids|
    ensures forall n: nat :: n < |ids| ==> n in ids.Values
  {
    NumberedSize(ids, order);
    forall n: nat | n < |ids| ensures n in ids.Values {
      assert order[n] in ids;
    }
  }

  // ---- The recorder -------------------------------------------------------------------

  /** index++ on an unsigned int. */
  function NextIndex(index: nat): nat {
    (index + 1) % 0x1_0000_0000
  }

  class Context {
    var callSites: seq<nat>
    var rdfs: seq<set<nat>>
    var chains: seq<string>
    var params: seq<seq<real>>
    var functionOf: map<nat, nat>
    var rdfOf: map<nat, set<nat>>
    var ids: map<string, nat>
    var callStack: seq<nat>
    var index: nat
    var current: seq<string>
    var inside: bool
    ghost var order: seq<string>

    ghost predicate Valid()
      reads this
    {
      && Shaped()
      && Numbered(ids, order)
      && (forall r :: 0 <= r < |chains| ==> chains[r] in ids)
      && (forall text :: text in ids ==> text in chains)
      && forall r :: 0 <= r < |callSites| ==> callSites[r] in functionOf
    }

    ghost function Table(): Rows
      reads this
    {
      Rows(callSites, functionOf, params, chains, inside, current)
    }

    constructor ()
      ensures Valid() && Table() == Rows([], map[], [], [], false, []) && rdfOf == map[] && rdfs == []
    {
      callSites, rdfs, chains, params := [], [], [], [];
      functionOf, rdfOf, ids, callStack := map[], map[], map[], [];
      index, current, inside, order := 0xffff_ffff, [], false, [];
    }

    /** The open row gets the id of its flattened set: a known one, or the next. */
    method FinalizeCalledFuncs()
      requires Valid()
      modifies this
      ensures Valid() && Table() == Closed(old(Table()), old(current)) && !inside
      ensures rdfOf == old(rdfOf) && rdfs == old(rdfs) && old(order) <= order
      ensures forall text :: text in old(ids) ==> text in ids && ids[text] == old(ids)[text]
    {
      if !inside { return; }
      var text := FlattenSet(current);
      NumberText(text);
      CloseRow(text);
    }

    /** A text that has no id yet gets the next one. */
    method NumberText(text: string)
      requires Numbered(ids, order)
      modifies this`ids, this`order
      ensures Numbered(ids, order) && old(order) <= order && ids.Keys == old(ids).Keys + {text}
      ensures forall other :: other in old(ids) ==> other in ids && ids[other] == old(ids)[other]
    {
      if text !in ids {
        NumberedAdd(ids, order, text);
        ids, order := ids[text := |ids|], order + [text];
      }
    }

    ghost predicate Shaped()
      reads this
    {
      && |callSites| == |rdfs| == |params| < 0x1_0000_0000
      && |callSites| == |chains| + |callStack|
      && |callStack| == (if inside then 1 else 0)
      && index == (if callSites == [] then 0xffff_ffff else |callSites| - 1)
    }

    method CloseRow(text: string)
      requires Shaped() && inside
      modifies this`chains, this`callStack, this`inside
      ensures Shaped() && !inside && chains == old(chains) + [text]
    {
      chains := chains + [text];
      callStack := callStack[..|callStack| - 1];
      inside := false;
    }

    /** An open row is closed with the empty set. */
    method ClearCurrentCalledFuncs()
      requires Valid()
      modifies this
      ensures Valid() && !inside && rdfOf == old(rdfOf) && rdfs == old(rdfs)
      ensures Table() == Closed(old(Table()), []).(current := if old(inside) then [] else old(current))
    {
      if !inside { return; }
      current := [];
      FinalizeCalledFuncs();
    }

    /** getRDF4callsite, then clearRDF4callsite. */
    method TakeRdf(site: nat) returns (flags: set<nat>)
      modifies this`rdfOf
      ensures flags == if site in old(rdfOf) then old(rdfOf)[site] else {}
      ensures rdfOf == if site in old(rdfOf) then old(rdfOf)[site := {}] else old(rdfOf)
    {
      flags := if site in rdfOf then rdfOf[site] else {};
      if site in rdfOf {
        rdfOf := rdfOf[site := {}];
      }
    }

    method OpenRow(site: nat, function_: nat, flags: set<nat>)
      requires Valid() && !inside && |callSites| < 0xffff_ffff
      modifies this`index, this`current, this`callSites, this`rdfs
      modifies this`params, this`functionOf, this`inside, this`callStack
      ensures Valid()
      ensures Table() == Started(old(Table()), site, function_, [])
      ensures rdfs == old(rdfs) + [flags]
    {
      index := NextIndex(index);
      current := [];
      callSites := callSites + [site];
      rdfs := rdfs + [flags];
      params := params + [[]];
      functionOf := functionOf[site := function_];
      inside := true;
      callStack := callStack + [site];
    }

    /** Whatever happened before, the new site gets its own row; an open call is
        abandoned with the empty set. */
    method RecordCallsite(site: nat, function_: nat)
      requires Valid() && |callSites| < 0xffff_ffff
      modifies this
      ensures Valid()
      ensures Table() == Started(Closed(old(Table()), []), site, function_, [])
      ensures rdfs == old(rdfs) + [if site in old(rdfOf) then old(rdfOf)[site] else {}]
      ensures rdfOf == if site in old(rdfOf) then old(rdfOf)[site := {}] else old(rdfOf)
    {
      if inside {
        ClearCurrentCalledFuncs();
      }
      var flags := TakeRdf(site);
      OpenRow(site, function_, flags);
    }

    /** A parameter goes to the row of the open call, which is always the last row. */
    method AddFuncParam(value: real)
      requires Valid()
      modifies this`params
      ensures Valid()
      ensures var n := |callSites|;
        params == if inside then old(params)[..n - 1] + [old(params)[n - 1] + [value]] else old(params)
    {
      if !inside { return; }
      params := params[index := params[index] + [value]];
    }

    method AddCalledFunc(name: string)
      requires Valid()
      modifies this`current
      ensures Valid()
      ensures current == if inside then Insert(old(current), name) else old(current)
    {
      if !inside { return; }
      current := Insert(current, name);
    }

    method RecordRdf(flag: nat, site: nat)
      requires Valid()
      modifies this`rdfOf
      ensures Valid()
      ensures !inside ==> rdfOf == old(rdfOf)
      ensures inside ==> rdfOf == old(rdfOf)[site := (if site in old(rdfOf) then old(rdfOf)[site] else {}) + {flag}]
    {
      if !inside { return; }
      rdfOf := rdfOf[site := (if site in rdfOf then rdfOf[site] else {}) + {flag}];
    }

    method AddFuncParams(args: seq<real>)
      requires Valid() && inside && params[|params| - 1] == []
      modifies this`params
      ensures Valid() && params == old(params)[..|callSites| - 1] + [args]
    {
      assert params == params[..|callSites| - 1] + [args[..0]];
      for i := 0 to |args|
        invariant Valid() && params == old(params)[..|callSites| - 1] + [args[..i]]
      {
        assert args[..i + 1] == args[..i] + [args[i]];
        AddFuncParam(args[i]);
      }
      assert args[..|args|] == args;
    }
  }

  /** One line of the trace. */
  method TakeLine(context: Context, valid: bool, latest: Event, e: Event)
    requires context.Valid() && latest.Site? && context.rdfOf == map[] && |context.callSites| < 0xffff_ffff
    modifies context
    ensures context.Valid() && Stepped(old(context.Table()), e, valid, latest, context.Table())
    ensures context.rdfOf == map[] && (context.rdfs == old(context.rdfs) || context.rdfs == old(context.rdfs) + [{}])
    ensures |context.callSites| <= |old(context.callSites)| + 1
  {
    match e
    case Site(_, _, _) =>
    case Return(_) =>
      context.FinalizeCalledFuncs();
    case Rdf(flag, site) =>
      context.ClearCurrentCalledFuncs();
      context.RecordRdf(flag, site);
    case Called(name) =>
      if valid {
        context.RecordCallsite(latest.site, latest.function_);
        context.AddFuncParams(latest.args);
      }
      context.AddCalledFunc(name);
  }

  /** The rows are those of the lines read so far, and no row has a dominance-frontier flag. */
  ghost predicate ReadTo(context: Context, done: seq<Event>)
    reads context
  {
    && context.Valid() && Reflects(done, context.Table())
    && context.rdfOf == map[] && |context.callSites| <= |done|
    && forall r :: 0 <= r < |context.rdfs| ==> context.rdfs[r] == {}
  }

  method Begin() returns (context: Context)
    ensures fresh(context) && ReadTo(context, [])
  {
    context := new Context();
  }

  method TakeNext(context: Context, valid: bool, latest: Event, e: Event, ghost done: seq<Event>)
    returns (valid': bool, latest': Event)
    requires ReadTo(context, done) && Waiting(done, valid, latest) && |done| < 0xffff_ffff
    modifies context
    ensures ReadTo(context, done + [e]) && Waiting(done + [e], valid', latest')
  {
    ghost var rows := context.Table();
    TakeLine(context, valid, latest, e);
    StepReflects(done, e, valid, latest, rows, context.Table());
    valid', latest' := e.Site?, if e.Site? then e else latest;
  }

  lemma Prefixes(ev: seq<Event>)
    ensures ev[..0] == [] && ev[..|ev|] == ev
    ensures forall i: nat :: i < |ev| ==> ev[..i] + [ev[i]] == ev[..i + 1]
  {
  }

  /** The loop over the trace. */
  method ParseTrace(ev: seq<Event>) returns (context: Context)
    requires |ev| < 0xffff_ffff
    ensures ReadTo(context, ev)
  {
    Prefixes(ev);
    context := Begin();
    var valid, latest := false, Site(0, 0, []);
    for i := 0 to |ev|
      invariant fresh(context) && ReadTo(context, ev[..i])
      invariant Waiting(ev[..i], valid, latest)
    {
      valid, latest := TakeNext(context, valid, latest, ev[i], ev[..i]);
    }
  }

  /** flattenSet for parameters, on numbers: the values, then zeros up to five. */
  method FlattenParams(params: seq<real>) returns (cols: seq<real>)
    ensures cols == Padded(params)
  {
    cols := [];
    var i := 0;
    while i < |params|
      invariant i <= |params| && cols == params[..i]
    {
      cols := cols + [params[i]];
      i := i + 1;
    }
    assert params[..i] == params;
    while i < 5
      invariant |params| <= i && |cols| == i && cols[..|params|] == params
      invariant i <= 5 || i == |params|
      invariant forall k :: |params| <= k < i ==> cols[k] == 0.0
    {
      cols := cols + [0.0];
      i := i + 1;
    }
    assert cols == cols[..|params|] + cols[|params|..];
  }

  /** The columns print writes for row r, given the id of its flag set. */
  method TrainingColumns(context: Context, r: nat, flagsId: nat) returns (cols: seq<real>)
    requires context.Valid() && r < |context.callSites|
    ensures cols == Columns(context.callSites[r], context.functionOf[context.callSites[r]], flagsId, context.params[r])
  {
    var site := context.callSites[r];
    var params := FlattenParams(context.params[r]);
    cols := [site as real, context.functionOf[site] as real, flagsId as real] + params;
  }
}
