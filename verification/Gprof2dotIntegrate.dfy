/** `Profile.integrate` on a profile without cycles. */
module Gprof2dotIntegrate {
  import opened Helpers
  import opened Digraph
  import opened Sums
  import opened TimePropagation
  import opened Gprof2dot
  import opened Gprof2dotTimes

  // ---------- what the events of a profile hold ----------

  /** The value of an event on the functions that carry it. */
  ghost function FunctionValues(p: Profile, e: Event): map<Id, real>
    reads p.functions.Values`events
  {
    map f | f in p.functions && e in p.functions[f].events :: p.functions[f].events[e]
  }

  ghost function RowValues(calls: map<Id, Call>, e: Event): map<Id, real>
    reads calls.Values`events
  {
    map k | k in calls && e in calls[k].events :: calls[k].events[e]
  }

  /** The value of an event on the calls that carry it. */
  ghost function CallValues(p: Profile, e: Event): Matrix
    reads Calls(p)`events
  {
    map f | f in p.functions :: RowValues(p.functions[f].calls, e)
  }

  method SetFunctionValue(p: Profile, x: Id, e: Event, v: real)
    requires p.Valid() && x in p.functions
    modifies {p.functions[x]}`events
    ensures FunctionValues(p, e) == old(FunctionValues(p, e))[x := v]
    ensures forall e' | e' != e :: FunctionValues(p, e') == old(FunctionValues(p, e'))
  {
    var fun := p.functions[x];
    fun.events := fun.events[e := v];
    assert forall f | f in p.functions && f != x :: p.functions[f] != fun;
  }

  method SetRowValue(calls: map<Id, Call>, k: Id, e: Event, v: real)
    requires k in calls && forall i, j | i in calls && j in calls && i != j :: calls[i] != calls[j]
    modifies {calls[k]}`events
    ensures RowValues(calls, e) == old(RowValues(calls, e))[k := v]
  {
    var call := calls[k];
    call.events := call.events[e := v];
  }

  lemma CallIsOwned(p: Profile, x: Id, k: Id)
    requires CallsOwned(p) && x in p.functions && k in p.functions[x].calls
    ensures forall f | f in p.functions && f != x :: p.functions[x].calls[k] !in p.functions[f].calls.Values
    ensures var calls := p.functions[x].calls; forall i, j | i in calls && j in calls && i != j :: calls[i] != calls[j]
  {
  }

  method SetCallValue(p: Profile, x: Id, k: Id, e: Event, v: real)
    requires p.Valid() && CallsOwned(p) && x in p.functions && k in p.functions[x].calls
    modifies {p.functions[x].calls[k]}`events
    ensures CallValues(p, e) == old(CallValues(p, e))[x := old(CallValues(p, e))[x][k := v]]
  {
    hide CallsOwned, RowValues, Profile.Valid;
    CallIsOwned(p, x, k);
    SetRowValue(p.functions[x].calls, k, e, v);
    forall f | f in p.functions && f != x
      ensures RowValues(p.functions[f].calls, e) == old(RowValues(p.functions[f].calls, e))
    {
    }
  }

  // ---------- the state of the propagation, on values ----------

  /** The result of x and of its calls, once x has been integrated. */
  ghost predicate Settled(g: Graph, self: map<Id, real>, ratios: Matrix, outs: map<Id, real>, shares: Matrix, x: Id)
    requires OnCalls(g, ratios) && g.Keys <= self.Keys && g.Keys <= shares.Keys && x in g && x in outs
  {
    && shares[x].Keys == Callees(g, x)
    && (forall y | y in Callees(g, x) :: y in outs && shares[x][y] == Times(ratios[x][y], outs[y]))
    && outs[x] == self[x] + Sum(Callees(g, x), shares[x])
  }

  /** Functions with a result are settled; of the others, only those being integrated have calls with a result. */
  ghost predicate Consistent(g: Graph, self: map<Id, real>, ratios: Matrix, outs: map<Id, real>, shares: Matrix,
                             active: set<Id>) {
    && OnCalls(g, ratios) && g.Keys <= self.Keys && g.Keys == shares.Keys
    && outs.Keys <= g.Keys
    && (forall x | x in outs :: x !in active && Settled(g, self, ratios, outs, shares, x))
    && (forall x | x in g && x !in outs && x !in active :: shares[x] == map[])
  }

  /** Halfway through integrating x, with the calls in todo still to be followed. */
  ghost predicate InProgress(g: Graph, self: map<Id, real>, ratios: Matrix, outs: map<Id, real>, shares: Matrix,
                             active: set<Id>, x: Id, todo: set<Id>, total: real) {
    && Consistent(g, self, ratios, outs, shares, active + {x})
    && x in g
    && shares[x].Keys == Callees(g, x) - todo
    && (forall y | y in Callees(g, x) && y !in todo :: y in outs && shares[x][y] == Times(ratios[x][y], outs[y]))
    && total == self[x] + Sum(Callees(g, x) - todo, shares[x])
  }

  /** Integrating another function keeps every result so far, and leaves the calls of active functions alone. */
  ghost predicate Grown(outs: map<Id, real>, shares: Matrix, outs': map<Id, real>, shares': Matrix, active: set<Id>) {
    && (forall x | x in outs :: x in outs' && outs'[x] == outs[x])
    && (forall x | x in active && x in shares :: x in shares' && shares'[x] == shares[x])
  }

  lemma StartFunction(g: Graph, self: map<Id, real>, ratios: Matrix, outs: map<Id, real>, shares: Matrix,
                      active: set<Id>, x: Id)
    requires Consistent(g, self, ratios, outs, shares, active)
    requires x in g && x !in active && x !in outs
    ensures InProgress(g, self, ratios, outs, shares, active, x, g[x], self[x])
  {
    hide Sum, Times, Settled;
    assert Callees(g, x) - g[x] == {};
    SumZero({}, shares[x]);
  }

  lemma SkipSelfCall(g: Graph, self: map<Id, real>, ratios: Matrix, outs: map<Id, real>, shares: Matrix,
                     active: set<Id>, x: Id, todo: set<Id>, total: real)
    requires InProgress(g, self, ratios, outs, shares, active, x, todo, total)
    ensures InProgress(g, self, ratios, outs, shares, active, x, todo - {x}, total)
  {
    hide Sum, Times;
    assert Callees(g, x) - (todo - {x}) == Callees(g, x) - todo;
  }

  lemma ShareAdded(done: set<Id>, row: map<Id, real>, k: Id, share: real)
    requires row.Keys == done && k !in done
    ensures Sum(done + {k}, row[k := share]) == Sum(done, row) + share
  {
    SumPick(done + {k}, row[k := share], k);
    assert done + {k} - {k} == done;
    SumSame(done, row[k := share], row);
  }

  lemma OtherRowKept(g: Graph, self: map<Id, real>, ratios: Matrix, outs: map<Id, real>, shares: Matrix,
                     active: set<Id>, x: Id, row: map<Id, real>)
    requires Consistent(g, self, ratios, outs, shares, active) && x in active
    ensures Consistent(g, self, ratios, outs, shares[x := row], active) || x !in g
  {
    hide Sum, Times;
  }

  lemma FollowedCall(g: Graph, self: map<Id, real>, ratios: Matrix, outs: map<Id, real>, shares: Matrix,
                     active: set<Id>,
                     x: Id, todo: set<Id>, total: real, outs': map<Id, real>, shares': Matrix, k: Id, share: real)
    requires InProgress(g, self, ratios, outs, shares, active, x, todo, total)
    requires k in todo && k in Callees(g, x)
    requires Consistent(g, self, ratios, outs', shares', active + {x})
        && Grown(outs, shares, outs', shares', active + {x})
    requires k in outs' && k in ratios[x] && share == Times(ratios[x][k], outs'[k])
    requires x in shares'
    ensures InProgress(g, self, ratios, outs', shares'[x := shares'[x][k := share]], active, x, todo - {k},
        total + share)
  {
    hide Times, Sum, Settled;
    var done := Callees(g, x) - todo;
    assert Callees(g, x) - (todo - {k}) == done + {k};
    assert x in active + {x} && shares'[x] == shares[x];
    ShareAdded(done, shares[x], k, share);
    OtherRowKept(g, self, ratios, outs', shares', active + {x}, x, shares'[x][k := share]);
  }

  lemma FinishFunction(g: Graph, self: map<Id, real>, ratios: Matrix, outs: map<Id, real>, shares: Matrix,
                       active: set<Id>, x: Id, total: real)
    requires InProgress(g, self, ratios, outs, shares, active, x, {}, total)
    requires x !in active
    ensures Consistent(g, self, ratios, outs[x := total], shares, active)
  {
    hide Sum, Times;
    assert Callees(g, x) - {} == Callees(g, x);
  }

  /** A callee is never one of the functions whose integration is waiting for it. */
  lemma CalleeIsNotActive(g: Graph, active: set<Id>, x: Id, k: Id)
    requires Closed(g) && Acyclic(g) && x in g && k in g[x] && k != x
    requires forall a | a in active :: Reaches(g, a, x)
    ensures k in g && k !in active + {x}
    ensures forall a | a in active + {x} :: Reaches(g, a, k)
  {
    ReachesStep(g, x, k);
    assert Mutual(g, x, k) ==> k in Component(g, x);
    forall a | a in active ensures Reaches(g, a, k) {
      ReachesTrans(g, a, x, k);
    }
  }

  lemma InProgressFacts(g: Graph, self: map<Id, real>, ratios: Matrix, outs: map<Id, real>, shares: Matrix,
                        active: set<Id>, x: Id, todo: set<Id>, total: real)
    requires InProgress(g, self, ratios, outs, shares, active, x, todo, total)
    ensures Consistent(g, self, ratios, outs, shares, active + {x})
    ensures x in ratios && x in shares && x !in outs && g.Keys == shares.Keys
    ensures forall k | k in Callees(g, x) :: k in ratios[x] && (k in todo ==> k !in shares[x])
  {
  }

  lemma ConsistentFacts(g: Graph, self: map<Id, real>, ratios: Matrix, outs: map<Id, real>, shares: Matrix,
                        active: set<Id>)
    requires Consistent(g, self, ratios, outs, shares, active)
    ensures g.Keys <= self.Keys && g.Keys == shares.Keys
    ensures Grown(outs, shares, outs, shares, active)
  {
  }

  lemma GrownTrans(outs: map<Id, real>, shares: Matrix, outs1: map<Id, real>, shares1: Matrix,
                   outs2: map<Id, real>, shares2: Matrix, active: set<Id>,
                   x: Id, row: map<Id, real>)
    requires Grown(outs, shares, outs1, shares1, active) && Grown(outs1, shares1, outs2, shares2, active + {x})
    ensures x !in active ==> Grown(outs, shares, outs2, shares2[x := row], active)
  {
  }

  lemma GrownByResult(outs: map<Id, real>, shares: Matrix, outs': map<Id, real>, shares': Matrix, active: set<Id>,
                      x: Id, total: real)
    requires Grown(outs, shares, outs', shares', active) && x !in outs
    ensures Grown(outs, shares, outs'[x := total], shares', active)
  {
  }

  // ---------- the profile while integrate runs ----------

  /** The profile has no cycles, and holds the self times and ratios that integrate started from. */
  ghost predicate Ready(p: Profile, outevent: Event, inevent: Event, g: Graph, self: map<Id, real>, ratios: Matrix)
    reads p.functions.Values, Calls(p)
  {
    && p.Valid() && CallsOwned(p) && outevent != inevent
    && g == p.CallGraph() && Acyclic(g)
    && (forall f | f in p.functions :: p.functions[f].cycle == null)
    && self == FunctionValues(p, inevent) && ratios == Ratios(p)
  }

  lemma ReadyFacts(p: Profile, outevent: Event, inevent: Event, g: Graph, self: map<Id, real>, ratios: Matrix, x: Id)
    requires Ready(p, outevent, inevent, g, self, ratios)
    ensures Closed(g) && Acyclic(g) && g.Keys == p.functions.Keys
    ensures x in g ==> g[x] == p.functions[x].calls.Keys
    ensures x in self ==> inevent in p.functions[x].events && p.functions[x].events[inevent] == self[x]
    ensures x in g ==> (outevent in p.functions[x].events <==> x in FunctionValues(p, outevent))
    ensures x in FunctionValues(p, outevent) ==> p.functions[x].events[outevent] == FunctionValues(p, outevent)[x]
    ensures x in g ==> forall k | k in g[x] && x in ratios && k in ratios[x] ::
      p.functions[x].calls[k].ratio == Some(ratios[x][k])
    ensures x in g ==> forall k | k in g[x] && x in CallValues(p, outevent) && k !in CallValues(p, outevent)[x] ::
      outevent !in p.functions[x].calls[k].events
  {
    hide Reaches, Acyclic, CallsOwned;
  }

  method SetTotal(p: Profile, x: Id, outevent: Event, inevent: Event, total: real,
                  ghost g: Graph, ghost self: map<Id, real>, ghost ratios: Matrix)
    requires Ready(p, outevent, inevent, g, self, ratios) && x in p.functions
    modifies {p.functions[x]}`events
    ensures Ready(p, outevent, inevent, g, self, ratios)
    ensures FunctionValues(p, outevent) == old(FunctionValues(p, outevent))[x := total]
    ensures CallValues(p, outevent) == old(CallValues(p, outevent))
  {
    hide Reaches, Acyclic, CallsOwned, Profile.Valid, Profile.CallGraph, FunctionValues;
    SetFunctionValue(p, x, outevent, total);
    assert self == FunctionValues(p, inevent);
    assert ratios == Ratios(p);
  }

  method SetShare(p: Profile, x: Id, k: Id, outevent: Event, inevent: Event, share: real,
                  ghost g: Graph, ghost self: map<Id, real>, ghost ratios: Matrix)
    requires Ready(p, outevent, inevent, g, self, ratios) && x in p.functions && k in p.functions[x].calls
    modifies {p.functions[x].calls[k]}`events
    ensures Ready(p, outevent, inevent, g, self, ratios)
    ensures FunctionValues(p, outevent) == old(FunctionValues(p, outevent))
    ensures CallValues(p, outevent) == old(CallValues(p, outevent))[x := old(CallValues(p, outevent))[x][k := share]]
  {
    hide Reaches, Acyclic, CallsOwned, Profile.Valid, Profile.CallGraph, CallValues;
    SetCallValue(p, x, k, outevent, share);
    assert self == FunctionValues(p, inevent);
    assert ratios == Ratios(p);
  }

  // ---------- the recursion of integrate ----------

  /** `_integrate_function`: the time of x, computed once and kept. */
  method IntegrateFunction(p: Profile, x: Id, outevent: Event, inevent: Event,
                           ghost g: Graph, ghost self: map<Id, real>, ghost ratios: Matrix, ghost active: set<Id>)
    returns (result: real)
    requires Ready(p, outevent, inevent, g, self, ratios)
    requires Consistent(g, self, ratios, FunctionValues(p, outevent), CallValues(p, outevent), active)
    requires x in g && x !in active && forall a | a in active :: Reaches(g, a, x)
    modifies p.functions.Values`events, Calls(p)`events
    ensures Ready(p, outevent, inevent, g, self, ratios)
    ensures Consistent(g, self, ratios, FunctionValues(p, outevent), CallValues(p, outevent), active)
    ensures Grown(old(FunctionValues(p, outevent)), old(CallValues(p, outevent)),
                  FunctionValues(p, outevent), CallValues(p, outevent), active)
    ensures x in FunctionValues(p, outevent) && result == FunctionValues(p, outevent)[x]
    decreases ReachSet(g, x), 1
  {
    hide Sum, Times, Settled, Consistent, InProgress, Grown, Reaches, Closed, Acyclic, CallsOwned, ReachSet,
         Ready, FunctionValues, CallValues, Ratios, Profile.Valid, Profile.CallGraph, Callees, Calls;
    ReadyFacts(p, outevent, inevent, g, self, ratios, x);
    ghost var outs0, shares0 := FunctionValues(p, outevent), CallValues(p, outevent);
    ConsistentFacts(g, self, ratios, outs0, shares0, active);
    if outevent !in p.functions[x].events {
      StartFunction(g, self, ratios, outs0, shares0, active, x);
      var total := p.functions[x].events[inevent];
      var calls := p.functions[x].calls.Keys;
      while calls != {}
        invariant calls <= g[x]
        invariant Ready(p, outevent, inevent, g, self, ratios)
        invariant InProgress(g, self, ratios, FunctionValues(p, outevent), CallValues(p, outevent), active, x, calls,
            total)
        invariant Grown(outs0, shares0, FunctionValues(p, outevent), CallValues(p, outevent), active)
        decreases calls
      {
        var k :| k in calls;
        if k != x {
          var share := IntegrateCall(p, x, k, outevent, inevent, g, self, ratios, active, calls, total, outs0, shares0);
          total := total + share;
        } else {
          SkipSelfCall(g, self, ratios, FunctionValues(p, outevent), CallValues(p, outevent), active, k, calls, total);
        }
        calls := calls - {k};
      }
      FinishFunction(g, self, ratios, FunctionValues(p, outevent), CallValues(p, outevent), active, x, total);
      GrownByResult(outs0, shares0, FunctionValues(p, outevent), CallValues(p, outevent), active, x, total);
      SetTotal(p, x, outevent, inevent, total, g, self, ratios);
    }
    ReadyFacts(p, outevent, inevent, g, self, ratios, x);
    result := p.functions[x].events[outevent];
  }

  /** `_integrate_call`: the part of the callee's time that belongs to this call. */
  method IntegrateCall(p: Profile, x: Id, k: Id, outevent: Event, inevent: Event,
                       ghost g: Graph, ghost self: map<Id, real>, ghost ratios: Matrix, ghost active: set<Id>,
                       ghost todo: set<Id>, ghost total: real, ghost outs0: map<Id, real>, ghost shares0: Matrix)
    returns (subtotal: real)
    requires Ready(p, outevent, inevent, g, self, ratios)
    requires InProgress(g, self, ratios, FunctionValues(p, outevent), CallValues(p, outevent), active, x, todo, total)
    requires Grown(outs0, shares0, FunctionValues(p, outevent), CallValues(p, outevent), active)
    requires x in g && x !in active && forall a | a in active :: Reaches(g, a, x)
    requires k in todo && k in g[x] && k != x
    modifies p.functions.Values`events, Calls(p)`events
    ensures Ready(p, outevent, inevent, g, self, ratios)
    ensures InProgress(g, self, ratios, FunctionValues(p, outevent), CallValues(p, outevent), active, x, todo - {k},
        total + subtotal)
    ensures Grown(outs0, shares0, FunctionValues(p, outevent), CallValues(p, outevent), active)
    decreases ReachSet(g, x), 0
  {
    hide Sum, Times, Settled, Consistent, InProgress, Grown, Reaches, Closed, Acyclic, CallsOwned, ReachSet,
         Ready, FunctionValues, CallValues, Ratios, Profile.Valid, Profile.CallGraph;
    ghost var outs, shares := FunctionValues(p, outevent), CallValues(p, outevent);
    ReadyFacts(p, outevent, inevent, g, self, ratios, x);
    InProgressFacts(g, self, ratios, outs, shares, active, x, todo, total);
    CalleeIsNotActive(g, active, x, k);
    CalleeReachesLess(g, x, k);
    var call := p.functions[x].calls[k];
    assert outevent !in call.events && call.ratio.Some?;
    var time := IntegrateFunction(p, k, outevent, inevent, g, self, ratios, active + {x});
    ReadyFacts(p, outevent, inevent, g, self, ratios, x);
    ghost var outs', shares' := FunctionValues(p, outevent), CallValues(p, outevent);
    ConsistentFacts(g, self, ratios, outs', shares', active + {x});
    subtotal := Times(call.ratio.value, time);
    FollowedCall(g, self, ratios, outs, shares, active, x, todo, total, outs', shares', k, subtotal);
    GrownTrans(outs0, shares0, outs, shares, outs', shares', active, x, shares'[x][k := subtotal]);
    SetShare(p, x, k, outevent, inevent, subtotal, g, self, ratios);
  }

  lemma SettledRow(g: Graph, self: map<Id, real>, ratios: Matrix, outs: map<Id, real>, shares: Matrix, x: Id)
    requires Closed(g) && OnCalls(g, ratios) && g.Keys <= self.Keys && g.Keys <= shares.Keys && g.Keys <= outs.Keys
    requires x in g && Settled(g, self, ratios, outs, shares, x)
    ensures shares[x] == Shares(g, ratios, outs, x)
    ensures outs[x] == self[x] + Sum(Callees(g, x), Shares(g, ratios, outs, x))
  {
    hide Sum, Times;
  }

  /** The times of functions and calls solve the equations of time propagation. */
  ghost predicate Solved(g: Graph, self: map<Id, real>, ratios: Matrix, total: map<Id, real>, shares: Matrix) {
    && Closed(g) && OnCalls(g, ratios) && self.Keys == total.Keys == g.Keys == shares.Keys
    && Propagated(g, self, ratios, total)
    && forall x | x in g :: shares[x] == Shares(g, ratios, total, x)
  }

  lemma SettledIsSolved(g: Graph, self: map<Id, real>, ratios: Matrix, outs: map<Id, real>, shares: Matrix)
    requires Closed(g) && Consistent(g, self, ratios, outs, shares, {}) && g.Keys <= outs.Keys && self.Keys == g.Keys
    ensures Solved(g, self, ratios, outs, shares)
  {
    hide Sum, Times, Settled, Callees;
    forall x | x in g
      ensures shares[x] == Shares(g, ratios, outs, x)
      ensures outs[x] == self[x] + Sum(Callees(g, x), Shares(g, ratios, outs, x))
    {
      SettledRow(g, self, ratios, outs, shares, x);
    }
  }

  /** Nothing carries the result yet, and every function carries the self time. */
  ghost predicate Unintegrated(p: Profile, outevent: Event, inevent: Event)
    reads p`events, p.functions.Values`events, Calls(p)`events
  {
    && outevent != inevent && outevent !in p.events
    && (forall f | f in p.functions :: outevent !in p.functions[f].events && inevent in p.functions[f].events)
    && (forall call | call in Calls(p) :: outevent !in call.events)
  }

  /** What integrate asserts on entry, besides the absence of cycles. */
  ghost predicate CanIntegrate(p: Profile, outevent: Event, inevent: Event)
    reads p, p.functions.Values, Calls(p)
  {
    && p.Valid() && CallsOwned(p) && WithoutCycles(p) && Unintegrated(p, outevent, inevent)
    && OnCalls(p.CallGraph(), Ratios(p))
  }

  lemma NothingSettled(g: Graph, self: map<Id, real>, ratios: Matrix, shares: Matrix)
    requires OnCalls(g, ratios) && self.Keys == shares.Keys == g.Keys
    requires forall x | x in g :: shares[x] == map[]
    ensures Consistent(g, self, ratios, map[], shares, {})
  {
  }

  lemma NothingIntegrated(p: Profile, outevent: Event, inevent: Event)
    requires CanIntegrate(p, outevent, inevent) && Acyclic(p.CallGraph())
    ensures Ready(p, outevent, inevent, p.CallGraph(), FunctionValues(p, inevent), Ratios(p))
    ensures FunctionValues(p, inevent).Keys == p.functions.Keys == p.CallGraph().Keys
    ensures FunctionValues(p, outevent) == map[]
    ensures Consistent(p.CallGraph(), FunctionValues(p, inevent), Ratios(p), map[], CallValues(p, outevent), {})
  {
    hide Acyclic, OnCalls, Sum, Times, Consistent, CallsOwned, Ratios;
    forall f | f in p.functions ensures CallValues(p, outevent)[f] == map[] {
      assert forall k | k in p.functions[f].calls :: p.functions[f].calls[k] in Calls(p);
    }
    NothingSettled(p.CallGraph(), FunctionValues(p, inevent), Ratios(p), CallValues(p, outevent));
  }

  /** The last loop of `integrate`: integrates every function and adds up the self times. */
  method IntegrateAll(p: Profile, outevent: Event, inevent: Event, ghost g: Graph, ghost self: map<Id, real>,
                      ghost ratios: Matrix)
    returns (total: real)
    requires Ready(p, outevent, inevent, g, self, ratios) && self.Keys == g.Keys == p.functions.Keys
    requires Consistent(g, self, ratios, FunctionValues(p, outevent), CallValues(p, outevent), {})
    modifies p.functions.Values`events, Calls(p)`events
    ensures Ready(p, outevent, inevent, g, self, ratios)
    ensures Consistent(g, self, ratios, FunctionValues(p, outevent), CallValues(p, outevent), {})
    ensures g.Keys <= FunctionValues(p, outevent).Keys
    ensures total == Sum(g.Keys, self)
  {
    hide Sum, Times, Settled, Consistent, Reaches, Acyclic, CallsOwned, Ready, FunctionValues, CallValues, Ratios,
         CanIntegrate, Profile.Valid, Profile.CallGraph, Grown, OnCalls, Closed, ReachSet;
    total := 0.0;
    SumZero({}, self);
    var todo := p.functions.Keys;
    ghost var done := {};
    while todo != {}
      invariant todo + done == g.Keys && todo !! done
      invariant done <= FunctionValues(p, outevent).Keys
      invariant Ready(p, outevent, inevent, g, self, ratios)
      invariant Consistent(g, self, ratios, FunctionValues(p, outevent), CallValues(p, outevent), {})
      invariant total == Sum(done, self)
      decreases todo
    {
      var id :| id in todo;
      ReadyFacts(p, outevent, inevent, g, self, ratios, id);
      total := total + p.functions[id].events[inevent];
      AddToSum(done, self, id);
      ghost var outs, shares := FunctionValues(p, outevent), CallValues(p, outevent);
      var time := IntegrateFunction(p, id, outevent, inevent, g, self, ratios, {});
      GrownKeys(outs, shares, FunctionValues(p, outevent), CallValues(p, outevent), {});
      todo, done := todo - {id}, done + {id};
    }
    assert done == g.Keys;
  }

  /** The times of functions and calls solve the equations, and the profile holds the sum of all self times. */
  ghost predicate Integrated(p: Profile, outevent: Event, inevent: Event)
    reads p, p.functions.Values, Calls(p)
  {
    var g, self := p.CallGraph(), FunctionValues(p, inevent);
    && Solved(g, self, Ratios(p), FunctionValues(p, outevent), CallValues(p, outevent))
    && outevent in p.events && p.events[outevent] == Sum(g.Keys, self)
  }

  /** `integrate`: the time of every function, of every call, and of the profile. */
  method Integrate(p: Profile, outevent: Event, inevent: Event)
    requires CanIntegrate(p, outevent, inevent) && Acyclic(p.CallGraph())
    modifies p`events, p.functions.Values`events, Calls(p)`events
    ensures Integrated(p, outevent, inevent)
    ensures FunctionValues(p, inevent) == old(FunctionValues(p, inevent)) && Ratios(p) == old(Ratios(p))
    ensures p.events - {outevent} == old(p.events) - {outevent}
  {
    hide Sum, Times, Settled, Consistent, Reaches, Acyclic, CallsOwned, Ready, CanIntegrate, Profile.Valid,
         Profile.CallGraph, Grown, OnCalls, Propagated, FunctionValues, CallValues, Ratios, Shares, Integrated;
    NothingIntegrated(p, outevent, inevent);
    ghost var g, self, ratios := p.CallGraph(), FunctionValues(p, inevent), Ratios(p);
    var total := IntegrateAll(p, outevent, inevent, g, self, ratios);
    StoreTotal(p, outevent, inevent, g, self, ratios, total);
  }

  method StoreTotal(p: Profile, outevent: Event, inevent: Event, ghost g: Graph, ghost self: map<Id, real>,
                    ghost ratios: Matrix, total: real)
    requires Ready(p, outevent, inevent, g, self, ratios) && self.Keys == g.Keys && total == Sum(g.Keys, self)
    requires Consistent(g, self, ratios, FunctionValues(p, outevent), CallValues(p, outevent), {})
    requires g.Keys <= FunctionValues(p, outevent).Keys
    modifies p`events
    ensures Integrated(p, outevent, inevent)
    ensures self == FunctionValues(p, inevent) && ratios == Ratios(p)
    ensures p.events == old(p.events)[outevent := total]
  {
    hide Sum, Times, Settled, Consistent, Reaches, Acyclic, CallsOwned, Profile.Valid, Profile.CallGraph,
         OnCalls, Propagated, Shares, Integrated;
    p.events := p.events[outevent := total];
    Finished(p, outevent, inevent, g, self, ratios, total);
  }

  lemma AddToSum(done: set<Id>, self: map<Id, real>, id: Id)
    requires id !in done && done + {id} <= self.Keys
    ensures Sum(done + {id}, self) == Sum(done, self) + self[id]
  {
    SumPick(done + {id}, self, id);
    assert done + {id} - {id} == done;
  }

  lemma GrownKeys(outs: map<Id, real>, shares: Matrix, outs': map<Id, real>, shares': Matrix, active: set<Id>)
    requires Grown(outs, shares, outs', shares', active)
    ensures outs.Keys <= outs'.Keys
  {
  }

  lemma Finished(p: Profile, outevent: Event, inevent: Event, g: Graph, self: map<Id, real>, ratios: Matrix,
                 total: real)
    requires Ready(p, outevent, inevent, g, self, ratios) && self.Keys == g.Keys && total == Sum(g.Keys, self)
    requires Consistent(g, self, ratios, FunctionValues(p, outevent), CallValues(p, outevent), {})
    requires g.Keys <= FunctionValues(p, outevent).Keys
    requires outevent in p.events && p.events[outevent] == total
    ensures Integrated(p, outevent, inevent)
    ensures self == FunctionValues(p, inevent) && ratios == Ratios(p)
  {
    assert Closed(g);
    hide Acyclic, Reaches, Sum, Times, CallsOwned, Closed, Solved, Consistent, FunctionValues, CallValues, Ratios,
         Profile.CallGraph;
    SettledIsSolved(g, self, ratios, FunctionValues(p, outevent), CallValues(p, outevent));
  }

  // ---------- conservation on the profile ----------

  /** The functions nobody else calls carry exactly the total time when every function with time is charged once;
      more, if some are only charged repeatedly; less, if some are only never charged. */
  ghost predicate RootsCarryTotal(p: Profile, self: map<Id, real>, counts: Matrix, outevent: Event)
    reads p`events, p.functions.Values`events
  {
    var g, total := p.CallGraph(), FunctionValues(p, outevent);
    && outevent in p.events && Closed(g) && Acyclic(g)
    && g.Keys <= total.Keys && g.Keys <= self.Keys
    && p.events[outevent] == Sum(g.Keys, self)
    && RootsTell(Sum(Roots(g), total), p.events[outevent],
                 ChargedAtMostOnce(g, self, counts), ChargedAtLeastOnce(g, self, counts))
  }

  /** After `call_ratios` and `integrate`, whatever the call graph and the counts. */
  lemma IntegratedRoots(p: Profile, counts: Matrix, outevent: Event, inevent: Event, ratios: Matrix)
    requires Integrated(p, outevent, inevent) && Acyclic(p.CallGraph()) && ratios == Ratios(p)
    requires OnCalls(p.CallGraph(), ratios)
    requires RatiosOf(p.CallGraph(), counts, ratios) && NonNegative(p.CallGraph(), counts)
    requires forall y | y in FunctionValues(p, inevent) :: FunctionValues(p, inevent)[y] >= 0.0
    ensures RootsCarryTotal(p, FunctionValues(p, inevent), counts, outevent)
  {
    hide Sum, Times, Acyclic, RatiosOf, NonNegative, Propagated, ChargedAtMostOnce, ChargedAtLeastOnce, Roots,
         RootsTell, FunctionValues, CallValues, Ratios, Profile.CallGraph, Shares;
    RootTimeExact(p.CallGraph(), FunctionValues(p, inevent), counts, ratios, FunctionValues(p, outevent));
  }

  /** Counts and self times are not negative. */
  ghost predicate Measured(p: Profile, callEvent: Event, inevent: Event)
    reads p.functions.Values`events, Calls(p)`events
  {
    && NonNegative(p.CallGraph(), Counts(p, callEvent))
    && forall y | y in FunctionValues(p, inevent) :: FunctionValues(p, inevent)[y] >= 0.0
  }

  lemma MeasuredFacts(p: Profile, callEvent: Event, inevent: Event)
    requires Measured(p, callEvent, inevent)
    ensures NonNegative(p.CallGraph(), Counts(p, callEvent))
    ensures forall y | y in FunctionValues(p, inevent) :: FunctionValues(p, inevent)[y] >= 0.0
  {
  }

  lemma NowCanIntegrate(p: Profile, outevent: Event, inevent: Event)
    requires p.Valid() && CallsOwned(p) && WithoutCycles(p) && Unintegrated(p, outevent, inevent)
    requires OnCalls(p.CallGraph(), Ratios(p))
    ensures CanIntegrate(p, outevent, inevent)
  {
  }

  /** The ratios of calls, then the times along them: what root functions carry, told from the input alone. */
  method PropagateTimes(p: Profile, callEvent: Event, outevent: Event, inevent: Event)
    requires p.Valid() && CallsOwned(p) && WithoutCycles(p) && Acyclic(p.CallGraph())
    requires forall f | f in p.functions :: RatiosUnset(p.functions[f].calls)
    requires Unintegrated(p, outevent, inevent) && Measured(p, callEvent, inevent)
    modifies p`events, p.functions.Values`events, Calls(p)`events, Calls(p)`ratio
    ensures RootsCarryTotal(p, old(FunctionValues(p, inevent)), old(Counts(p, callEvent)), outevent)
  {
    hide Sum, Times, Acyclic, Reaches, Closed, RatiosOf, NonNegative, ChargedAtMostOnce, ChargedAtLeastOnce, Counted,
         FunctionValues, CallValues, Ratios, Counts, CallCounts, Profile.CallGraph, Profile.Valid, CallsOwned,
         Integrated, OnCalls, RootsCarryTotal, Callees, CallTotal, Unintegrated, Measured, CanIntegrate,
         WithoutCycles, RatiosUnset;
    ghost var self, counts := FunctionValues(p, inevent), Counts(p, callEvent);
    MeasuredFacts(p, callEvent, inevent);
    CallRatios(p, callEvent);
    NowCanIntegrate(p, outevent, inevent);
    ghost var ratios := Ratios(p);
    Integrate(p, outevent, inevent);
    IntegratedRoots(p, counts, outevent, inevent, ratios);
  }

  /** On a call graph without cycles, what `find_cycles` ensures means that no cycle was found. */
  lemma AcyclicHasNoTags(p: Profile)
    requires Acyclic(p.CallGraph())
    requires forall x | x in p.functions :: p.functions[x].cycle == null <==> Component(p.CallGraph(), x) == {x}
    requires forall c :: c in p.cycles <==> exists x :: x in p.functions && p.functions[x].cycle == c
    ensures WithoutCycles(p)
  {
    hide Component, Reaches;
    assert forall x | x in p.functions :: x in p.CallGraph();
  }

  /** The whole analysis of a call graph without cycles: `find_cycles`, `call_ratios`, `integrate`. */
  method Analyze(p: Profile, callEvent: Event, outevent: Event, inevent: Event)
    requires p.Valid() && CallsOwned(p) && Acyclic(p.CallGraph())
    requires forall f | f in p.functions :: p.functions[f].cycle == null && RatiosUnset(p.functions[f].calls)
    requires Unintegrated(p, outevent, inevent) && Measured(p, callEvent, inevent)
    modifies p`cycles, p.functions.Values`cycle, p`events, p.functions.Values`events, Calls(p)`events, Calls(p)`ratio
    ensures WithoutCycles(p)
    ensures RootsCarryTotal(p, old(FunctionValues(p, inevent)), old(Counts(p, callEvent)), outevent)
  {
    hide Sum, Acyclic, Reaches, FunctionValues, Counts, Profile.CallGraph, Profile.Valid, CallsOwned, OnCalls,
         RootsCarryTotal, Component, Mutual, Objects, Unintegrated, Measured, WithoutCycles;
    p.FindCycles();
    AcyclicHasNoTags(p);
    PropagateTimes(p, callEvent, outevent, inevent);
  }
}
