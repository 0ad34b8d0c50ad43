/** The invariant of Tarjan's search, on values, and what each step of the search does to it. */
module TarjanSearch {
  import opened Helpers
  import opened Digraph

  // ---------- the invariant of the search, on values ----------
  // `on` is the set of functions on the Tarjan stack; their order on it is the order of their numbers.

  type Numbering = map<Id, nat>

  ghost predicate WellNumbered(g: Graph, on: set<Id>, orders: Numbering, order: nat) {
    && on <= orders.Keys <= g.Keys
    && (forall x | x in orders :: orders[x] < order)
  }

  /** Functions earlier on the stack reach functions later on the stack. */
  ghost predicate StackReaches(g: Graph, on: set<Id>, orders: Numbering)
    requires on <= orders.Keys
  {
    forall x, y {:trigger Reaches(g, x, y)} | x in on && y in on && orders[x] <= orders[y] :: Reaches(g, x, y)
  }

  /** y reaches a function still being explored that was discovered no later. */
  ghost predicate Anchored(g: Graph, orders: Numbering, grays: set<Id>, y: Id) {
    exists z | z in grays :: z in orders && y in orders && orders[z] <= orders[y] && Reaches(g, y, z)
  }

  /** Finished functions call only discovered ones, and popped ones only popped ones. */
  ghost predicate CallsDiscovered(g: Graph, on: set<Id>, orders: Numbering, grays: set<Id>)
    requires orders.Keys <= g.Keys
  {
    && (forall x, y | x in orders && x !in grays && y in g[x] :: y in orders)
    && (forall x, y | x in orders && x !in on && y in g[x] :: y !in on)
  }

  /** The search invariant; grays are the functions whose exploration is still going on. */
  ghost predicate Inv(g: Graph, on: set<Id>, orders: Numbering, order: nat, grays: set<Id>) {
    && WellNumbered(g, on, orders, order)
    && grays <= on
    && CallsDiscovered(g, on, orders, grays)
    && StackReaches(g, on, orders)
    && (forall y {:trigger Anchored(g, orders, grays, y)} | y in on :: Anchored(g, orders, grays, y))
  }

  /** The lowlink of x is the number of a function on the stack that x reaches. */
  ghost predicate LowWitness(g: Graph, on: set<Id>, orders: Numbering, x: Id, low: nat) {
    exists y | y in on :: y in orders && orders[y] == low && Reaches(g, x, y)
  }

  /** No call from stack functions numbered base or more goes below base to one numbered less than low. */
  ghost predicate LowBounds(g: Graph, on: set<Id>, orders: Numbering, base: nat, low: nat)
    requires on <= orders.Keys <= g.Keys
  {
    forall u, v | u in on && v in on && v in g[u] && orders[v] < base <= orders[u] :: low <= orders[v]
  }

  ghost function Below(on: set<Id>, orders: Numbering, base: nat): set<Id>
    requires on <= orders.Keys
  {
    set y | y in on && orders[y] < base
  }

  lemma PushKeepsInv(g: Graph, on: set<Id>, orders: Numbering, order: nat, grays: set<Id>, x: Id)
    requires Closed(g) && Inv(g, on, orders, order, grays)
    requires x in g && x !in orders
    requires forall z | z in grays :: Reaches(g, z, x)
    ensures Inv(g, on + {x}, orders[x := order], order + 1, grays + {x})
  {
    var orders', grays' := orders[x := order], grays + {x};
    ReachesSelf(g, x);
    forall y | y in on
      ensures Reaches(g, y, x) && Anchored(g, orders', grays', y)
    {
      assert Anchored(g, orders, grays, y);
      var z :| z in grays && z in orders && orders[z] <= orders[y] && Reaches(g, y, z);
      ReachesTrans(g, y, z, x);
      assert z in grays' && orders'[z] <= orders'[y];
    }
    assert x in grays' && orders'[x] <= orders'[x];
  }

  /** All calls of x have been followed, and the functions still being explored are below x on the stack. */
  ghost predicate CallsFollowed(g: Graph, on: set<Id>, orders: Numbering, order: nat, grays: set<Id>, x: Id) {
    && Inv(g, on, orders, order, grays + {x})
    && grays <= Below(on, orders, orders[x])
    && g[x] <= orders.Keys
  }

  /** x is the root of its component: no call from x or above leaves for the stack below x. */
  ghost predicate IsRoot(g: Graph, on: set<Id>, orders: Numbering, order: nat, grays: set<Id>, x: Id) {
    && CallsFollowed(g, on, orders, order, grays, x)
    && LowBounds(g, on, orders, orders[x], orders[x])
  }

  /** A function below x on the stack never needs x as its anchor. */
  lemma BelowKeepsAnchor(g: Graph, on: set<Id>, orders: Numbering, order: nat, grays: set<Id>, x: Id, y: Id)
    requires CallsFollowed(g, on, orders, order, grays, x)
    requires y in Below(on, orders, orders[x])
    ensures Anchored(g, orders, grays, y)
  {
    assert Anchored(g, orders, grays + {x}, y);
  }

  lemma AboveMutual(g: Graph, on: set<Id>, orders: Numbering, order: nat, grays: set<Id>, x: Id, u: Id)
    requires CallsFollowed(g, on, orders, order, grays, x)
    requires u in on && orders[x] <= orders[u]
    ensures Mutual(g, x, u)
  {
    assert Anchored(g, orders, grays + {x}, u);
    var z :| z in grays + {x} && z in orders && orders[z] <= orders[u] && Reaches(g, u, z);
    assert Reaches(g, z, x);
    ReachesTrans(g, u, z, x);
  }

  /** With a lowlink equal to the number of x, no call from x or above leaves for the stack below x. */
  lemma AboveCallsStay(g: Graph, on: set<Id>, orders: Numbering, order: nat, grays: set<Id>, x: Id, u: Id, v: Id)
    requires IsRoot(g, on, orders, order, grays, x)
    requires u in on && orders[x] <= orders[u] && v in g[u]
    ensures v in orders && v !in Below(on, orders, orders[x])
  {
  }

  lemma AboveIsComponent(g: Graph, on: set<Id>, orders: Numbering, order: nat, grays: set<Id>, x: Id, u: Id)
    requires IsRoot(g, on, orders, order, grays, x)
    requires u in on && orders[x] <= orders[u]
    ensures Component(g, u) == on - Below(on, orders, orders[x])
  {
    var members := on - Below(on, orders, orders[x]);
    var popped := orders.Keys - on;
    forall v | v in members ensures Mutual(g, u, v) {
      AboveMutual(g, on, orders, order, grays, x, u);
      AboveMutual(g, on, orders, order, grays, x, v);
      ReachesTrans(g, u, x, v);
      ReachesTrans(g, v, x, u);
    }
    forall v | v in g && Mutual(g, u, v) ensures v in members {
      forall w, w' | w in members + popped && w' in g[w] ensures w' in members + popped {
        if w in members {
          AboveCallsStay(g, on, orders, order, grays, x, w, w');
        }
      }
      ClosedSetKeepsReachable(g, members + popped, u, v);
      if v in popped {
        ClosedSetKeepsReachable(g, popped, v, u);
      }
    }
  }

  lemma PopKeepsInv(g: Graph, on: set<Id>, orders: Numbering, order: nat, grays: set<Id>, x: Id)
    requires IsRoot(g, on, orders, order, grays, x)
    ensures Inv(g, Below(on, orders, orders[x]), orders, order, grays)
  {
    hide Reaches, Anchored, CallsDiscovered, LowBounds;
    PoppedCallsDiscovered(g, on, orders, order, grays, x);
    var lower := Below(on, orders, orders[x]);
    forall y | y in lower ensures Anchored(g, orders, grays, y) {
      BelowKeepsAnchor(g, on, orders, order, grays, x, y);
    }
  }

  lemma PoppedCallsDiscovered(g: Graph, on: set<Id>, orders: Numbering, order: nat, grays: set<Id>, x: Id)
    requires IsRoot(g, on, orders, order, grays, x)
    ensures CallsDiscovered(g, Below(on, orders, orders[x]), orders, grays)
  {
    hide Reaches, Anchored, StackReaches;
    var lower := Below(on, orders, orders[x]);
    forall u, v | u in orders && u !in lower && v in g[u]
      ensures v in orders && v !in lower
    {
      if u in on {
        AboveCallsStay(g, on, orders, order, grays, x, u, v);
      }
    }
  }

  lemma FinishedCallsDiscovered(g: Graph, on: set<Id>, orders: Numbering, order: nat, grays: set<Id>, x: Id)
    requires CallsFollowed(g, on, orders, order, grays, x)
    ensures CallsDiscovered(g, on, orders, grays)
  {
    forall u, v | u in orders && u !in grays && v in g[u] ensures v in orders {
      if u != x {
        assert u !in grays + {x};
      }
    }
  }

  lemma WitnessIsBelow(g: Graph, on: set<Id>, orders: Numbering, order: nat, grays: set<Id>, x: Id, low: nat)
    requires CallsFollowed(g, on, orders, order, grays, x)
    requires low < orders[x] && LowWitness(g, on, orders, x, low)
    ensures LowWitness(g, Below(on, orders, orders[x]), orders, x, low)
  {
    var y :| y in on && y in orders && orders[y] == low && Reaches(g, x, y);
    assert y in Below(on, orders, orders[x]);
  }

  /** When x can reach below itself it stays on the stack, and another function takes over as anchor. */
  lemma FinishKeepsInv(g: Graph, on: set<Id>, orders: Numbering, order: nat, grays: set<Id>, x: Id, low: nat)
    requires CallsFollowed(g, on, orders, order, grays, x)
    requires LowWitness(g, Below(on, orders, orders[x]), orders, x, low)
    ensures Inv(g, on, orders, order, grays)
  {
    hide Reaches, Anchored, WellNumbered, CallsDiscovered, StackReaches, LowWitness;
    FinishedCallsDiscovered(g, on, orders, order, grays, x);
    FinishKeepsAnchors(g, on, orders, order, grays, x, low);
  }

  lemma FinishKeepsAnchors(g: Graph, on: set<Id>, orders: Numbering, order: nat, grays: set<Id>, x: Id, low: nat)
    requires CallsFollowed(g, on, orders, order, grays, x)
    requires LowWitness(g, Below(on, orders, orders[x]), orders, x, low)
    ensures forall y | y in on :: Anchored(g, orders, grays, y)
  {
    var y0 :| y0 in Below(on, orders, orders[x]) && orders[y0] == low && Reaches(g, x, y0);
    BelowKeepsAnchor(g, on, orders, order, grays, x, y0);
    var z0 :| z0 in grays && z0 in orders && orders[z0] <= orders[y0] && Reaches(g, y0, z0);
    ReachesTrans(g, x, y0, z0);
    forall y | y in on ensures Anchored(g, orders, grays, y) {
      AnchorTakenOver(g, on, orders, order, grays, x, z0, y);
    }
  }

  lemma AnchorTakenOver(g: Graph, on: set<Id>, orders: Numbering, order: nat, grays: set<Id>, x: Id, z0: Id, y: Id)
    requires CallsFollowed(g, on, orders, order, grays, x)
    requires z0 in grays && orders[z0] <= orders[x] && Reaches(g, x, z0) && y in on
    ensures Anchored(g, orders, grays, y)
  {
    assert Anchored(g, orders, grays + {x}, y);
    var z :| z in grays + {x} && z in orders && orders[z] <= orders[y] && Reaches(g, y, z);
    if z == x {
      ReachesTrans(g, y, x, z0);
      assert z0 in grays && orders[z0] <= orders[y];
    }
  }

  /** Following one more call of x, to a function numbered `child` or more, keeps the bound on calls going below x. */
  lemma ChildKeepsLowBounds(g: Graph, on: set<Id>, on': set<Id>, orders: Numbering, orders': Numbering,
                            base: nat, child: nat, low: nat, childLow: nat)
    requires on <= orders.Keys <= g.Keys && on' <= orders'.Keys <= g.Keys
    requires forall y | y in orders :: y in orders' && orders'[y] == orders[y] < child
    requires forall y | y in on' && y !in on :: child <= orders'[y]
    requires base <= child
    requires LowBounds(g, on, orders, base, low)
    requires LowBounds(g, on', orders', child, childLow)
    ensures LowBounds(g, on', orders', base, if childLow < low then childLow else low)
  {
  }

  // ---------- one exploration ----------

  /** A snapshot of the search, with the stack as a set. */
  datatype State = State(on: set<Id>, orders: Numbering, lowlinks: Numbering)

  ghost predicate SearchOk(g: Graph, st: State, order: nat, grays: set<Id>) {
    && Inv(g, st.on, st.orders, order, grays)
    && st.lowlinks.Keys == st.orders.Keys
  }

  /** The search has only discovered more functions, numbered from order0 on, and stacked some of them. */
  ghost predicate Extends(st0: State, st: State, order0: nat) {
    && st0.on <= st.on
    && (forall y | y in st.on && y !in st0.on :: y in st.orders && y !in st0.orders)
    && (forall y | y in st0.orders ::
          && y in st.orders && st.orders[y] == st0.orders[y]
          && y in st0.lowlinks && y in st.lowlinks && st.lowlinks[y] == st0.lowlinks[y])
    && (forall y | y in st.orders && y !in st0.orders :: order0 <= st.orders[y])
  }

  /** What exploring x from st0 achieves: x is popped with its component, or keeps a way down the stack. */
  ghost predicate Explored(g: Graph, st0: State, st: State, x: Id, order0: nat) {
    && Extends(st0, st, order0)
    && x !in st0.orders && x in st.orders && x in st.lowlinks
    && st.orders[x] == order0
    && st.lowlinks[x] <= order0
    && (st.lowlinks[x] == order0 ==> st.on == st0.on)
    && (st.lowlinks[x] < order0 ==> LowWitness(g, st0.on, st.orders, x, st.lowlinks[x]))
    && st.on <= st.orders.Keys <= g.Keys
    && LowBounds(g, st.on, st.orders, order0, st.lowlinks[x])
  }

  /** The calls of x that have been followed are accounted for in its lowlink. */
  ghost predicate CallsSeen(g: Graph, st: State, x: Id, order0: nat, todo: set<Id>)
    requires x in g && x in st.lowlinks
  {
    forall v | v in g[x] && v !in todo ::
      v in st.orders && (v in st.on && st.orders[v] < order0 ==> st.lowlinks[x] <= st.orders[v])
  }

  /** Halfway through exploring x: the calls in todo are still to be followed. */
  ghost predicate Exploring(g: Graph, st0: State, st: State, x: Id, order0: nat, order: nat, grays: set<Id>,
                            todo: set<Id>) {
    && SearchOk(g, st, order, grays + {x})
    && Extends(st0, st, order0)
    && x !in st0.orders && x in st.orders && order0 < order
    && st.orders[x] == order0
    && st.lowlinks[x] <= order0
    && (forall y | y in st.orders && st.orders[y] <= order0 :: y == x || y in st0.orders)
    && (forall y | y in st0.orders :: st0.orders[y] < order0)
    && grays <= st0.on <= st0.orders.Keys
    && LowWitness(g, st.on, st.orders, x, st.lowlinks[x])
    && LowBounds(g, st.on, st.orders, order0 + 1, st.lowlinks[x])
    && CallsSeen(g, st, x, order0, todo)
  }

  lemma ExploringFacts(g: Graph, st0: State, st: State, x: Id, order0: nat, order: nat, grays: set<Id>, todo: set<Id>)
    requires Exploring(g, st0, st, x, order0, order, grays, todo)
    ensures st.on <= st.orders.Keys == st.lowlinks.Keys <= g.Keys
    ensures x in st.orders && st.orders[x] == order0 < order && x !in st0.orders
    ensures st0.orders.Keys <= st.orders.Keys
    ensures forall y | y in st.orders :: st.orders[y] < order
    ensures SearchOk(g, st, order, grays + {x})
  {
  }

  lemma SearchFacts(g: Graph, st: State, order: nat, grays: set<Id>)
    requires SearchOk(g, st, order, grays)
    ensures st.on <= st.orders.Keys == st.lowlinks.Keys <= g.Keys
    ensures forall x | x in st.orders :: st.orders[x] < order
  {
  }

  lemma ExploredFacts(g: Graph, st0: State, st: State, x: Id, order0: nat)
    requires Explored(g, st0, st, x, order0)
    ensures x in st.lowlinks && x in st.orders && st.orders[x] == order0 && st.lowlinks[x] <= order0
    ensures forall y | y in st0.orders :: y in st.orders && st.orders[y] == st0.orders[y]
    ensures forall y | y in st0.orders :: y in st.lowlinks && y in st0.lowlinks && st.lowlinks[y] == st0.lowlinks[y]
    ensures st.lowlinks[x] == order0 ==> st.on == st0.on
  {
  }

  /** A function calls only known functions, and everything being explored reaches its callees. */
  lemma GraysReachCallee(g: Graph, st0: State, st: State, x: Id, y: Id, order0: nat, order: nat, grays: set<Id>,
                         todo: set<Id>)
    requires Closed(g) && Exploring(g, st0, st, x, order0, order, grays, todo)
    requires x in g && y in g[x]
    requires forall z | z in grays :: Reaches(g, z, x)
    ensures y in g && forall z | z in grays + {x} :: Reaches(g, z, y)
  {
    ReachesStep(g, x, y);
    forall z | z in grays ensures Reaches(g, z, y) {
      ReachesTrans(g, z, x, y);
    }
  }

  lemma StartExploring(g: Graph, st0: State, x: Id, order0: nat, grays: set<Id>)
    requires Closed(g) && SearchOk(g, st0, order0, grays)
    requires x in g && x !in st0.orders
    requires forall z | z in grays :: Reaches(g, z, x)
    ensures Exploring(g, st0, State(st0.on + {x}, st0.orders[x := order0], st0.lowlinks[x := order0]),
                      x, order0, order0 + 1, grays, g[x])
  {
    PushKeepsInv(g, st0.on, st0.orders, order0, grays, x);
    ReachesSelf(g, x);
    assert x in st0.on + {x};
  }

  lemma FollowNewCall(g: Graph, st0: State, st: State, st': State, x: Id, y: Id,
                      order0: nat, order: nat, order': nat, grays: set<Id>, todo: set<Id>)
    requires Closed(g) && Exploring(g, st0, st, x, order0, order, grays, todo)
    requires y in todo && y in g[x]
    requires SearchOk(g, st', order', grays + {x}) && Explored(g, st, st', y, order) && order < order'
    ensures Exploring(g, st0, st'.(lowlinks := st'.lowlinks[x := Min(st'.lowlinks[x], st'.lowlinks[y])]),
                      x, order0, order', grays, todo - {y})
  {
    hide Reaches, Anchored, LowWitness, CallsSeen, CallsDiscovered, StackReaches, Closed, Inv, Extends, LowBounds;
    ExploringFacts(g, st0, st, x, order0, order, grays, todo);
    ExploredFacts(g, st, st', y, order);
    FollowWitness(g, st, st', x, y, order);
    FollowSeen(g, st, st', x, y, order0, order, todo);
    FollowExtends(st0, st, st', x, y, order0, order);
    FollowLowBounds(g, st, st', x, y, order0, order);
  }

  lemma FollowLowBounds(g: Graph, st: State, st': State, x: Id, y: Id, order0: nat, order: nat)
    requires Explored(g, st, st', y, order) && order0 < order
    requires x in st.orders && x in st.lowlinks && st.on <= st.orders.Keys <= g.Keys
    requires forall z | z in st.orders :: st.orders[z] < order
    requires LowBounds(g, st.on, st.orders, order0 + 1, st.lowlinks[x])
    ensures LowBounds(g, st'.on, st'.orders, order0 + 1, Min(st'.lowlinks[x], st'.lowlinks[y]))
  {
    ChildKeepsLowBounds(g, st.on, st'.on, st.orders, st'.orders, order0 + 1, order, st.lowlinks[x], st'.lowlinks[y]);
  }

  lemma FollowSeen(g: Graph, st: State, st': State, x: Id, y: Id, order0: nat, order: nat, todo: set<Id>)
    requires x in g && x in st.orders && x in st.lowlinks && order0 <= order && st.on <= st.orders.Keys
    requires CallsSeen(g, st, x, order0, todo)
    requires Explored(g, st, st', y, order)
    ensures CallsSeen(g, st'.(lowlinks := st'.lowlinks[x := Min(st'.lowlinks[x], st'.lowlinks[y])]), x, order0,
        todo - {y})
  {
  }

  lemma FollowExtends(st0: State, st: State, st': State, x: Id, y: Id, order0: nat, order: nat)
    requires Extends(st0, st, order0) && Extends(st, st', order) && order0 < order
    requires x !in st0.orders && x in st.orders
    requires forall y | y in st.orders && st.orders[y] <= order0 :: y == x || y in st0.orders
    requires y in st'.lowlinks
    ensures Extends(st0, st'.(lowlinks := st'.lowlinks[x := Min(st'.lowlinks[x], st'.lowlinks[y])]), order0)
    ensures forall y | y in st'.orders && st'.orders[y] <= order0 :: y == x || y in st0.orders
  {
  }

  lemma FollowWitness(g: Graph, st: State, st': State, x: Id, y: Id, order: nat)
    requires Closed(g) && x in g && y in g[x] && Explored(g, st, st', y, order)
    requires x in st.orders && x in st.lowlinks && st.lowlinks[x] <= st.orders[x] < order
    requires LowWitness(g, st.on, st.orders, x, st.lowlinks[x])
    ensures LowWitness(g, st'.on, st'.orders, x, Min(st'.lowlinks[x], st'.lowlinks[y]))
  {
    if st'.lowlinks[y] < st.lowlinks[x] {
      var z :| z in st.on && z in st'.orders && st'.orders[z] == st'.lowlinks[y] && Reaches(g, y, z);
      ReachesStep(g, x, y);
      ReachesTrans(g, x, y, z);
      assert z in st'.on;
    } else {
      var z :| z in st.on && z in st.orders && st.orders[z] == st.lowlinks[x] && Reaches(g, x, z);
      assert z in st'.on;
    }
  }

  lemma FollowKnownCall(g: Graph, st0: State, st: State, x: Id, y: Id, order0: nat, order: nat, grays: set<Id>,
                        todo: set<Id>)
    requires Closed(g) && Exploring(g, st0, st, x, order0, order, grays, todo)
    requires y in todo && y in g[x] && y in st.orders
    ensures y in st.on ==>
      Exploring(g, st0, st.(lowlinks := st.lowlinks[x := Min(st.lowlinks[x], st.orders[y])]), x, order0, order,
          grays, todo - {y})
    ensures y !in st.on ==> Exploring(g, st0, st, x, order0, order, grays, todo - {y})
  {
    hide Reaches, Anchored, StackReaches;
    ReachesStep(g, x, y);
  }

  /** All calls followed and no way down the stack: everything from x up is a component and can be popped. */
  lemma PopExplored(g: Graph, st0: State, st: State, x: Id, order0: nat, order: nat, grays: set<Id>)
    requires Exploring(g, st0, st, x, order0, order, grays, {})
    requires st.lowlinks[x] == order0
    ensures st0.on <= st.on && forall u | u in st.on - st0.on :: Component(g, u) == st.on - st0.on
    ensures SearchOk(g, st.(on := st0.on), order, grays) && Explored(g, st0, st.(on := st0.on), x, order0)
  {
    assert Below(st.on, st.orders, order0) == st0.on;
    PopKeepsInv(g, st.on, st.orders, order, grays, x);
    forall u | u in st.on - st0.on ensures Component(g, u) == st.on - st0.on {
      AboveIsComponent(g, st.on, st.orders, order, grays, x, u);
    }
  }

  lemma KeepExplored(g: Graph, st0: State, st: State, x: Id, order0: nat, order: nat, grays: set<Id>)
    requires Exploring(g, st0, st, x, order0, order, grays, {})
    requires st.lowlinks[x] != order0
    ensures SearchOk(g, st, order, grays) && Explored(g, st0, st, x, order0)
  {
    assert Below(st.on, st.orders, order0) == st0.on;
    WitnessIsBelow(g, st.on, st.orders, order, grays, x, st.lowlinks[x]);
    FinishKeepsInv(g, st.on, st.orders, order, grays, x, st.lowlinks[x]);
  }

  // ---------- the stack as a list ----------

  ghost predicate Sorted(stack: seq<Id>, orders: Numbering) {
    && (forall x | x in stack :: x in orders)
    && (forall i, j | 0 <= i < j < |stack| :: orders[stack[i]] < orders[stack[j]])
  }

  lemma CutStack(stack: seq<Id>, orders: Numbering, pos: nat)
    requires pos < |stack| && Sorted(stack, orders)
    ensures stack[pos] in orders && Elements(stack) <= orders.Keys
    ensures Elements(stack[..pos]) == Below(Elements(stack), orders, orders[stack[pos]])
    ensures Elements(stack[pos..]) == Elements(stack) - Below(Elements(stack), orders, orders[stack[pos]])
    ensures forall i, j | pos <= i < j < |stack| :: stack[i] != stack[j]
  {
  }

  lemma PushStack(stack: seq<Id>, orders: Numbering, x: Id, order: nat)
    requires Sorted(stack, orders) && x !in orders
    requires forall y | y in orders :: orders[y] < order
    ensures Sorted(stack + [x], orders[x := order])
    ensures Elements(stack + [x]) == Elements(stack) + {x}
  {
  }

  /** Everything above the old stack, once popped, leaves the old stack; members are distinct. */
  lemma CutAt(stack0: seq<Id>, x: Id, stack: seq<Id>, orders: Numbering)
    requires stack0 + [x] <= stack && Sorted(stack, orders)
    ensures |stack0| < |stack| && stack[..|stack0|] == stack0 && stack[|stack0|] == x && x in orders
    ensures Sorted(stack0, orders)
    ensures Elements(stack0) == Below(Elements(stack), orders, orders[x])
    ensures Elements(stack[|stack0|..]) == Elements(stack) - Elements(stack0)
    ensures forall i, j | |stack0| <= i < j < |stack| :: stack[i] != stack[j]
  {
    assert stack[..|stack0|] == stack0;
    CutStack(stack, orders, |stack0|);
  }

  lemma EmptySearch(g: Graph)
    ensures Sorted([], map[]) && SearchOk(g, State({}, map[], map[]), 0, {})
  {
  }
}
