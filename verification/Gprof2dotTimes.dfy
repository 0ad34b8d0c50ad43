/** Propagation of time along the calls of a profile without cycles: `call_ratios` and `integrate`. */
module Gprof2dotTimes {
  import opened Helpers
  import opened Digraph
  import opened Sums
  import opened TimePropagation
  import opened Gprof2dot

  ghost function Calls(p: Profile): set<Call> {
    set f, k | f in p.functions && k in p.functions[f].calls :: p.functions[f].calls[k]
  }

  /** There is one call object for every pair of functions, and none is shared. */
  ghost predicate CallsOwned(p: Profile) {
    forall f, k, f', k' | f in p.functions && k in p.functions[f].calls && f' in p.functions
        && k' in p.functions[f'].calls ::
      p.functions[f].calls[k] == p.functions[f'].calls[k'] ==> f == f' && k == k'
  }

  ghost function CallCounts(calls: map<Id, Call>, event: Event): map<Id, real>
    reads calls.Values`events
  {
    map k | k in calls && event in calls[k].events :: calls[k].events[event]
  }

  /** The value of an event on the calls that carry it. */
  ghost function Counts(p: Profile, event: Event): Matrix
    reads Calls(p)`events
  {
    map f | f in p.functions :: CallCounts(p.functions[f].calls, event)
  }

  lemma GraphFacts(p: Profile)
    requires p.Valid()
    ensures p.CallGraph().Keys == p.functions.Keys && Closed(p.CallGraph())
  {
  }

  /** What function f adds to the total of y. */
  ghost function Contribution(g: Graph, counts: Matrix, f: Id, y: Id): real
    requires f in g
  {
    if y in Callees(g, f) && Counted(counts, f, y) then counts[f][y] else 0.0
  }

  /** Adds the event on the calls of one function to the totals of its callees. */
  method AddCalls(p: Profile, event: Event, f: Id, totals0: map<Id, real>, ghost g: Graph, ghost counts: Matrix)
    returns (totals: map<Id, real>)
    requires p.Valid() && f in p.functions && totals0.Keys == p.functions.Keys
    requires g == p.CallGraph() && counts == Counts(p, event)
    ensures totals.Keys == p.functions.Keys && counts == Counts(p, event)
    ensures forall y | y in totals :: totals[y] == totals0[y] + Contribution(g, counts, f, y)
  {
    totals := totals0;
    var calls := p.functions[f].calls.Keys;
    while calls != {}
      invariant calls <= p.functions[f].calls.Keys && totals.Keys == p.functions.Keys
      invariant forall y | y in totals ::
        totals[y] == totals0[y] + if y in calls then 0.0 else Contribution(g, counts, f, y)
      decreases calls
    {
      var k :| k in calls;
      var call := p.functions[f].calls[k];
      calls := calls - {k};
      if k != f && event in call.events {
        totals := totals[k := totals[k] + call.events[event]];
      }
    }
  }

  /** Pass 1 of `call_ratios`: adds up the event over the calls into each function. */
  method CallTotals(p: Profile, event: Event, ghost g: Graph, ghost counts: Matrix) returns (totals: map<Id, real>)
    requires p.Valid() && g == p.CallGraph() && g.Keys == p.functions.Keys
    requires counts == Counts(p, event)
    ensures totals.Keys == p.functions.Keys
    ensures forall y | y in totals :: totals[y] == CallTotal(g, counts, y)
  {
    hide Sum, Counts, CallCounts, CountColumn, CountedCallers, Contribution, Closed, PartTotal, CallTotal, Callers,
         Profile.Valid, Profile.CallGraph;
    totals := map id | id in p.functions :: 0.0;
    var todo := p.functions.Keys;
    forall y | y in totals ensures 0.0 == PartTotal(g, counts, y, todo) {
      NothingAdded(g, counts, y);
    }
    while todo != {}
      invariant todo <= totals.Keys == p.functions.Keys
      invariant counts == Counts(p, event)
      invariant forall y | y in totals :: totals[y] == PartTotal(g, counts, y, todo)
      decreases todo
    {
      var f :| f in todo;
      totals := AddCalls(p, event, f, totals, g, counts);
      forall y | y in totals
        ensures PartTotal(g, counts, y, todo - {f}) == PartTotal(g, counts, y, todo) + Contribution(g, counts, f, y)
      {
        CountCaller(g, counts, y, todo, f);
      }
      todo := todo - {f};
    }
    forall y | y in totals ensures PartTotal(g, counts, y, {}) == CallTotal(g, counts, y) {
      AllAdded(g, counts, y);
    }
  }

  /** The sum over the callers of y that are no longer to do. */
  ghost function PartTotal(g: Graph, counts: Matrix, y: Id, todo: set<Id>): real {
    Sum(CountedCallers(g, counts, y) - todo, CountColumn(g, counts, y))
  }

  lemma NothingAdded(g: Graph, counts: Matrix, y: Id)
    ensures PartTotal(g, counts, y, g.Keys) == 0.0
  {
    assert CountedCallers(g, counts, y) - g.Keys == {};
  }

  lemma AllAdded(g: Graph, counts: Matrix, y: Id)
    ensures PartTotal(g, counts, y, {}) == CallTotal(g, counts, y)
  {
    assert CountedCallers(g, counts, y) - {} == CountedCallers(g, counts, y);
  }

  lemma CountCaller(g: Graph, counts: Matrix, y: Id, todo: set<Id>, f: Id)
    requires f in todo && f in g
    ensures PartTotal(g, counts, y, todo - {f}) == PartTotal(g, counts, y, todo) + Contribution(g, counts, f, y)
  {
    hide Sum;
    var after := CountedCallers(g, counts, y) - (todo - {f});
    if f in CountedCallers(g, counts, y) {
      SumPick(after, CountColumn(g, counts, y), f);
      assert after - {f} == CountedCallers(g, counts, y) - todo;
    } else {
      assert after == CountedCallers(g, counts, y) - todo;
    }
  }

  // ---------- pass 2: the ratio of every call ----------

  /** The ratio that belongs on a call, given the total of its callee; zero if it does not carry the event. */
  ghost function RatioOn(call: Call, event: Event, total: real): real
    reads call`events
  {
    if event in call.events then Ratio(call.events[event], total) else 0.0
  }

  /** Every call of another function has its ratio, except those from functions still to do. */
  ghost predicate RatiosSet(p: Profile, event: Event, totals: map<Id, real>, f: Id, calls: set<Id>)
    requires p.Valid() && totals.Keys == p.functions.Keys && f in p.functions
    reads p.functions[f].calls.Values
  {
    forall k | k in p.functions[f].calls ::
      p.functions[f].calls[k].ratio ==
        if k == f || k in calls then None else Some(RatioOn(p.functions[f].calls[k], event, totals[k]))
  }

  method SetRatios(p: Profile, event: Event, f: Id, totals: map<Id, real>)
    requires p.Valid() && CallsOwned(p) && totals.Keys == p.functions.Keys && f in p.functions
    requires forall k | k in p.functions[f].calls :: p.functions[f].calls[k].ratio == None
    modifies p.functions[f].calls.Values`ratio
    ensures RatiosSet(p, event, totals, f, {})
  {
    var calls := p.functions[f].calls.Keys;
    while calls != {}
      invariant calls <= p.functions[f].calls.Keys
      invariant RatiosSet(p, event, totals, f, calls)
      decreases calls
    {
      var k :| k in calls;
      var call := p.functions[f].calls[k];
      calls := calls - {k};
      if k != f {
        if event in call.events {
          call.ratio := Some(Ratio(call.events[event], totals[k]));
        } else {
          call.ratio := Some(0.0);
        }
      }
    }
  }

  ghost predicate RatiosUnset(calls: map<Id, Call>)
    reads calls.Values`ratio
  {
    forall k | k in calls :: calls[k].ratio == None
  }

  lemma OthersCalls(p: Profile, f: Id, f': Id)
    requires CallsOwned(p) && f in p.functions && f' in p.functions && f != f'
    ensures p.functions[f].calls.Values !! p.functions[f'].calls.Values
  {
  }

  /** Pass 2 of `call_ratios`. */
  method SetAllRatios(p: Profile, event: Event, totals: map<Id, real>)
    requires p.Valid() && CallsOwned(p) && totals.Keys == p.functions.Keys
    requires forall f | f in p.functions :: RatiosUnset(p.functions[f].calls)
    modifies Calls(p)`ratio
    ensures forall f | f in p.functions :: RatiosSet(p, event, totals, f, {})
  {
    hide CallsOwned;
    var todo := p.functions.Keys;
    while todo != {}
      invariant todo <= p.functions.Keys
      invariant forall f | f in p.functions && f !in todo :: RatiosSet(p, event, totals, f, {})
      invariant forall f | f in todo :: RatiosUnset(p.functions[f].calls)
      decreases todo
    {
      var f :| f in todo;
      forall f' | f' in p.functions && f' != f
        ensures p.functions[f].calls.Values !! p.functions[f'].calls.Values
      {
        OthersCalls(p, f, f');
      }
      SetRatios(p, event, f, totals);
      todo := todo - {f};
    }
  }

  ghost function RatioRow(calls: map<Id, Call>): map<Id, real>
    reads calls.Values`ratio
  {
    map k | k in calls && calls[k].ratio.Some? :: calls[k].ratio.value
  }

  ghost function Ratios(p: Profile): Matrix
    reads Calls(p)`ratio
  {
    map f | f in p.functions :: RatioRow(p.functions[f].calls)
  }

  ghost predicate WithoutCycles(p: Profile)
    reads p`cycles, p.functions.Values`cycle
  {
    (forall c :: c !in p.cycles) && forall f | f in p.functions :: p.functions[f].cycle == null
  }

  lemma RatioIsSet(p: Profile, event: Event, totals: map<Id, real>, f: Id, k: Id)
    requires p.Valid() && totals.Keys == p.functions.Keys && f in p.functions && k in Callees(p.CallGraph(), f)
    requires RatiosSet(p, event, totals, f, {})
    ensures f in Ratios(p) && k in Ratios(p)[f] && k in totals
    ensures Ratios(p)[f][k] ==
      if Counted(Counts(p, event), f, k) then Ratio(Counts(p, event)[f][k], totals[k]) else 0.0
  {
    hide Ratio;
  }

  lemma RatiosAreSet(p: Profile, event: Event, totals: map<Id, real>)
    requires p.Valid() && totals.Keys == p.functions.Keys
    requires forall f | f in p.functions :: RatiosSet(p, event, totals, f, {})
    requires forall y | y in totals :: totals[y] == CallTotal(p.CallGraph(), Counts(p, event), y)
    ensures OnCalls(p.CallGraph(), Ratios(p)) && RatiosOf(p.CallGraph(), Counts(p, event), Ratios(p))
  {
    GraphFacts(p);
    hide CallTotal, Ratio, RatiosSet, Counts, CallCounts, RatioRow, Profile.CallGraph, Profile.Valid;
    forall f, k | f in p.functions && k in Callees(p.CallGraph(), f)
      ensures f in Ratios(p) && k in Ratios(p)[f] && k in totals
      ensures Ratios(p)[f][k] ==
        if Counted(Counts(p, event), f, k) then Ratio(Counts(p, event)[f][k], totals[k]) else 0.0
    {
      RatioIsSet(p, event, totals, f, k);
    }
  }

  /** `call_ratios` on a profile without cycles: the share of the callee's total that each call carries. */
  method CallRatios(p: Profile, event: Event)
    requires p.Valid() && CallsOwned(p) && WithoutCycles(p)
    requires forall f | f in p.functions :: RatiosUnset(p.functions[f].calls)
    modifies Calls(p)`ratio
    ensures OnCalls(p.CallGraph(), Ratios(p)) && RatiosOf(p.CallGraph(), Counts(p, event), Ratios(p))
    ensures forall f | f in p.functions && f in p.functions[f].calls :: p.functions[f].calls[f].ratio == None
    ensures Counts(p, event) == old(Counts(p, event))
  {
    GraphFacts(p);
    var totals := CallTotals(p, event, p.CallGraph(), Counts(p, event));
    ghost var counts := Counts(p, event);
    SetAllRatios(p, event, totals);
    assert counts == Counts(p, event);
    RatiosAreSet(p, event, totals);
    forall f | f in p.functions && f in p.functions[f].calls ensures p.functions[f].calls[f].ratio == None {
      assert RatiosSet(p, event, totals, f, {});
    }
  }
}
