/** Cycle detection of the call-graph profiler: `Profile.find_cycles` and `Profile._tarjan`. */
module Gprof2dot {
  import opened Helpers
  import opened Digraph
  import opened TarjanSearch

  /** The kinds of value that a function, a call or the profile can carry. */
  datatype Event = CALLS | SAMPLES | SAMPLES2 | TOTAL_SAMPLES | TIME | TIME_RATIO | TOTAL_TIME | TOTAL_TIME_RATIO

  class Call {
    const calleeId: Id
    var ratio: Option<real>
    var events: map<Event, real>

    constructor (calleeId: Id, events: map<Event, real>)
      ensures this.calleeId == calleeId && ratio == None && this.events == events
    {
      this.calleeId := calleeId;
      ratio := None;
      this.events := events;
    }
  }

  class Function {
    const id: Id
    const calls: map<Id, Call>  // keyed by callee id; complete once the profile has been parsed
    var cycle: Cycle?
    var events: map<Event, real>

    constructor (id: Id, calls: map<Id, Call>, events: map<Event, real>)
      ensures this.id == id && this.calls == calls && cycle == null && this.events == events
    {
      this.id := id;
      this.calls := calls;
      cycle := null;
      this.events := events;
    }
  }

  class Cycle {
    var functions: set<Function>

    constructor ()
      ensures functions == {}
    {
      functions := {};
    }

    /** Puts f into this cycle, taking it out of any cycle it was in. */
    method AddFunction(f: Function)
      requires f !in functions
      requires f.cycle != this
      modifies this`functions, f`cycle
      ensures functions == old(functions) + {f}
      ensures f.cycle == this
    {
      functions := functions + {f};
      // The source then walks f's old cycle, but pulls nobody in: its test whether f is missing here fails.
      f.cycle := this;
    }
  }

  /** The Tarjan stack, the two numberings of one search, and the functions seen by any search so far. */
  datatype Search = Search(stack: seq<Id>, orders: Numbering, lowlinks: Numbering, visited: set<Id>) {
    ghost function Snapshot(): State {
      State(Elements(stack), orders, lowlinks)
    }
  }

  // ---------- cycle tags ----------

  /** The cycle object of a function, and what that cycle object holds. */
  datatype Tag = Tag(cycle: Cycle?, members: set<Function>)

  type Tags = map<Id, Tag>

  ghost function Objects(functions: map<Id, Function>, ids: set<Id>): set<Function> {
    set id | id in ids && id in functions :: functions[id]
  }

  /** The cycle of this function is exactly its strongly connected component, when that has other members. */
  ghost predicate Tagged(g: Graph, functions: map<Id, Function>, tags: Tags, id: Id)
    requires id in tags
  {
    var c := Component(g, id);
    if c == {id} then
      tags[id].cycle == null
    else
      && tags[id].cycle != null
      && tags[id].members == Objects(functions, c)
      && forall y | y in c :: y in tags && tags[y].cycle == tags[id].cycle
  }

  /** Functions in done are tagged; the others are tagged too or have no cycle yet. */
  ghost predicate TagsRight(g: Graph, functions: map<Id, Function>, tags: Tags, done: set<Id>) {
    forall id {:trigger Tagged(g, functions, tags, id)} | id in tags ::
      Tagged(g, functions, tags, id) || (tags[id].cycle == null && id !in done)
  }

  lemma FewerDone(g: Graph, functions: map<Id, Function>, tags: Tags, done: set<Id>, done': set<Id>)
    requires TagsRight(g, functions, tags, done) && done' <= done
    ensures TagsRight(g, functions, tags, done')
  {
  }

  ghost function Retag(tags: Tags, ids: set<Id>, tag: Tag): Tags {
    map id | id in tags :: if id in ids then tag else tags[id]
  }

  /** Giving one whole component a new cycle leaves all other components as they were. */
  lemma RetagKeepsTags(g: Graph, functions: map<Id, Function>, tags: Tags, ids: set<Id>, cycle: Cycle, done: set<Id>)
    requires tags.Keys == g.Keys
    requires forall u | u in ids :: u in g && Component(g, u) == ids && ids != {u}
    requires TagsRight(g, functions, tags, done)
    ensures TagsRight(g, functions, Retag(tags, ids, Tag(cycle, Objects(functions, ids))), done + ids)
  {
    var tags' := Retag(tags, ids, Tag(cycle, Objects(functions, ids)));
    forall id | id in tags'
      ensures Tagged(g, functions, tags', id) || (tags'[id].cycle == null && id !in done + ids)
    {
      if id !in ids {
        assert Tagged(g, functions, tags, id) || (tags[id].cycle == null && id !in done);
        forall y | y in Component(g, id) ensures y !in ids {
          assert y in ids ==> id in Component(g, y);
        }
      }
    }
  }

  /** A function that is a component of its own has no cycle, so popping it leaves the tags right. */
  lemma LonePopKeepsTags(g: Graph, functions: map<Id, Function>, tags: Tags, id: Id, done: set<Id>)
    requires id in tags && Component(g, id) == {id}
    requires TagsRight(g, functions, tags, done)
    ensures TagsRight(g, functions, tags, done + {id})
  {
  }

  ghost predicate KeyedById(functions: map<Id, Function>) {
    forall id | id in functions :: functions[id].id == id
  }

  lemma TagsDecideReachability(g: Graph, functions: map<Id, Function>, tags: Tags, x: Id, y: Id)
    requires KeyedById(functions) && tags.Keys == g.Keys == functions.Keys
    requires TagsRight(g, functions, tags, g.Keys)
    requires x in g && y in g && (tags[x].cycle == tags[y].cycle ==> tags[x].members == tags[y].members)
    ensures x != y ==> (Mutual(g, x, y) <==> tags[x].cycle != null && tags[x].cycle == tags[y].cycle)
    ensures tags[x].cycle == null <==> Component(g, x) == {x}
    ensures tags[x].cycle != null ==> tags[x].members == Objects(functions, Component(g, x))
  {
    hide Reaches;
    assert Tagged(g, functions, tags, x) && Tagged(g, functions, tags, y);
    ReachesSelf(g, y);
    if tags[x].cycle != null && tags[x].cycle == tags[y].cycle {
      assert functions[y] in Objects(functions, Component(g, y));
      assert y in Component(g, x);
    }
    if x != y && Mutual(g, x, y) {
      assert y in Component(g, x);
    }
  }

  class Profile {
    const functions: map<Id, Function>
    var cycles: seq<Cycle>
    var events: map<Event, real>

    constructor (functions: map<Id, Function>)
      ensures this.functions == functions && cycles == [] && events == map[]
    {
      this.functions := functions;
      cycles := [];
      events := map[];
    }

    /** What `validate` establishes: calls are filed under their callee, and callees exist. */
    ghost predicate Valid()
    {
      && KeyedById(functions)
      && (forall id, k | id in functions && k in functions[id].calls ::
            k in functions && functions[id].calls[k].calleeId == k)
    }

    ghost function CallGraph(): Graph
    {
      map id | id in functions :: functions[id].calls.Keys
    }

    ghost function CycleTags(): Tags
      reads functions.Values`cycle
      reads (set f | f in functions.Values && f.cycle != null :: f.cycle)`functions
    {
      map id | id in functions ::
        Tag(functions[id].cycle, if functions[id].cycle == null then {} else functions[id].cycle.functions)
    }

    /** Puts the members into a new cycle. */
    method MarkCycle(members: seq<Id>) returns (cycle: Cycle)
      requires Valid()
      requires forall i | 0 <= i < |members| :: members[i] in functions
      requires forall i, j | 0 <= i < j < |members| :: members[i] != members[j]
      modifies functions.Values`cycle
      ensures fresh(cycle) && cycle.functions == Objects(functions, Elements(members))
      ensures forall id | id in functions ::
        functions[id].cycle == if id in Elements(members) then cycle else old(functions[id].cycle)
    {
      cycle := new Cycle();
      ghost var ids := {};
      for i := 0 to |members|
        invariant ids == Elements(members[..i])
        invariant cycle.functions == Objects(functions, ids)
        invariant forall id | id in functions ::
          functions[id].cycle == if id in ids then cycle else old(functions[id].cycle)
      {
        assert members[i] !in ids;
        cycle.AddFunction(functions[members[i]]);
        ids := ids + {members[i]};
        assert members[..i + 1] == members[..i] + [members[i]];
      }
      assert members[..|members|] == members;
    }

    /** A component popped from the stack becomes a cycle if it has more than one member. */
    method TagComponent(members: seq<Id>, ghost g: Graph, ghost done: set<Id>)
      requires Valid() && g == CallGraph()
      requires members != []
      requires forall i | 0 <= i < |members| :: members[i] in functions
      requires forall i, j | 0 <= i < j < |members| :: members[i] != members[j]
      requires forall u | u in Elements(members) :: Component(g, u) == Elements(members)
      requires TagsRight(g, functions, CycleTags(), done)
      modifies functions.Values`cycle
      ensures TagsRight(g, functions, CycleTags(), done + Elements(members))
    {
      hide Reaches, Component, TagsRight;
      ghost var tags := CycleTags();
      if |members| > 1 {
        assert members[0] in Elements(members) && members[1] in Elements(members);
        ghost var ids := Elements(members);
        var cycle := MarkCycle(members);
        assert CycleTags() == Retag(tags, ids, Tag(cycle, Objects(functions, ids)));
        RetagKeepsTags(g, functions, tags, ids, cycle, done);
      } else {
        assert Elements(members) == {members[0]};
        LonePopKeepsTags(g, functions, CycleTags(), members[0], done);
      }
    }

    lemma CallGraphFacts()
      requires Valid()
      ensures Closed(CallGraph())
      ensures CallGraph().Keys == functions.Keys
      ensures forall x | x in functions :: CallGraph()[x] == functions[x].calls.Keys
    {
    }

    /** `_tarjan`: explores x and everything undiscovered below it, tagging each component it completes.
        The search is handed back instead of being changed in place. */
    method Visit(x: Id, order0: nat, s0: Search, ghost g: Graph, ghost grays: set<Id>) returns (order: nat, s: Search)
      requires Valid() && g == CallGraph() && Closed(g)
      requires x in functions && x !in s0.orders
      requires Sorted(s0.stack, s0.orders) && SearchOk(g, s0.Snapshot(), order0, grays)
      requires s0.orders.Keys <= s0.visited
      requires TagsRight(g, functions, CycleTags(), s0.visited - Elements(s0.stack))
      requires forall z | z in grays :: Reaches(g, z, x)
      modifies functions.Values`cycle
      ensures Sorted(s.stack, s.orders) && SearchOk(g, s.Snapshot(), order, grays)
      ensures s0.visited + s.orders.Keys <= s.visited
      ensures TagsRight(g, functions, CycleTags(), s.visited - Elements(s.stack))
      ensures Explored(g, s0.Snapshot(), s.Snapshot(), x, order0)
      ensures s0.stack <= s.stack && order0 < order
      ensures x in s.lowlinks && (s.lowlinks[x] == order0 ==> s.stack == s0.stack)
      decreases g.Keys - s0.orders.Keys, 0
    {
      hide Reaches, Inv, LowWitness, LowBounds, CallsSeen, TagsRight, Component, Closed, Sorted, Extends, Exploring,
           Explored, SearchOk, CycleTags, CallGraph, Valid;
      CallGraphFacts();
      ghost var st0 := s0.Snapshot();
      SearchFacts(g, st0, order0, grays);
      StartExploring(g, st0, x, order0, grays);
      PushStack(s0.stack, s0.orders, x, order0);
      order := order0;
      s := Search(s0.stack + [x], s0.orders[x := order], s0.lowlinks[x := order], s0.visited + {x});
      order := order + 1;
      FewerDone(g, functions, CycleTags(), s0.visited - st0.on, s.visited - Elements(s.stack));
      var pos := |s0.stack|;
      var calls := functions[x].calls.Keys;
      while calls != {}
        invariant Sorted(s.stack, s.orders) && Exploring(g, st0, s.Snapshot(), x, order0, order, grays, calls)
        invariant calls <= g[x]
        invariant s0.visited + s.orders.Keys <= s.visited
        invariant TagsRight(g, functions, CycleTags(), s.visited - Elements(s.stack))
        invariant s0.stack + [x] <= s.stack
        decreases calls
      {
        var calleeId :| calleeId in calls;
        ghost var st := s.Snapshot();
        ExploringFacts(g, st0, st, x, order0, order, grays, calls);
        GraysReachCallee(g, st0, st, x, calleeId, order0, order, grays, calls);
        if calleeId !in s.orders {
          ghost var order1 := order;
          order, s := Visit(calleeId, order, s, g, grays + {x});
          ExploredFacts(g, st, s.Snapshot(), calleeId, order1);
          FollowNewCall(g, st0, st, s.Snapshot(), x, calleeId, order0, order1, order, grays, calls);
          s := s.(lowlinks := s.lowlinks[x := Min(s.lowlinks[x], s.lowlinks[calleeId])]);
        } else {
          FollowKnownCall(g, st0, st, x, calleeId, order0, order, grays, calls);
          if calleeId in s.stack {
            s := s.(lowlinks := s.lowlinks[x := Min(s.lowlinks[x], s.orders[calleeId])]);
          }
        }
        calls := calls - {calleeId};
      }
      ExploringFacts(g, st0, s.Snapshot(), x, order0, order, grays, {});
      if s.lowlinks[x] == s.orders[x] {
        CutAt(s0.stack, x, s.stack, s.orders);
        PopExplored(g, st0, s.Snapshot(), x, order0, order, grays);
        var members := s.stack[pos..];
        ghost var done := s.visited - Elements(s.stack);
        s := s.(stack := s.stack[..pos]);
        TagComponent(members, g, done);
        FewerDone(g, functions, CycleTags(), done + Elements(members), s.visited - Elements(s.stack));
      } else {
        KeepExplored(g, st0, s.Snapshot(), x, order0, order, grays);
      }
    }

    /** `find_cycles`: two functions share a cycle object exactly when each reaches the other through calls. */
    method FindCycles()
      requires Valid()
      requires forall id | id in functions :: functions[id].cycle == null
      modifies `cycles, functions.Values`cycle
      ensures forall x, y | x in functions && y in functions && x != y ::
        Mutual(CallGraph(), x, y) <==> functions[x].cycle != null && functions[x].cycle == functions[y].cycle
      ensures forall x | x in functions :: functions[x].cycle == null <==> Component(CallGraph(), x) == {x}
      ensures forall x | x in functions && functions[x].cycle != null ::
        functions[x].cycle.functions == Objects(functions, Component(CallGraph(), x))
      ensures forall c :: c in cycles <==> exists x :: x in functions && functions[x].cycle == c
      ensures forall i, j | 0 <= i < j < |cycles| :: cycles[i] != cycles[j]
    {
      TagAll();
      forall x, y | x in functions && y in functions
        ensures x != y ==>
          (Mutual(CallGraph(), x, y) <==> functions[x].cycle != null && functions[x].cycle == functions[y].cycle)
        ensures functions[x].cycle == null <==> Component(CallGraph(), x) == {x}
        ensures functions[x].cycle != null ==>
          functions[x].cycle.functions == Objects(functions, Component(CallGraph(), x))
      {
        TagsDecideReachability(CallGraph(), functions, CycleTags(), x, y);
      }
      CollectCycles();
    }

    /** The searches of `find_cycles`: one from every function that no earlier search has visited. */
    method TagAll()
      requires Valid()
      requires forall id | id in functions :: functions[id].cycle == null
      modifies functions.Values`cycle
      ensures TagsRight(CallGraph(), functions, CycleTags(), functions.Keys)
    {
      hide Reaches, Component, Inv, LowWitness, LowBounds, Closed, Sorted, SearchOk, Explored, Tagged;
      ghost var g := CallGraph();
      CallGraphFacts();
      EmptySearch(g);
      var visited := {};
      var todo := functions.Keys;
      while todo != {}
        invariant todo <= functions.Keys <= todo + visited
        invariant TagsRight(g, functions, CycleTags(), visited)
      {
        var id :| id in todo;
        todo := todo - {id};
        if id !in visited {
          var s0 := Search([], map[], map[], visited);
          assert s0.Snapshot() == State({}, map[], map[]);
          FewerDone(g, functions, CycleTags(), visited, visited - Elements(s0.stack));
          var order, s := Visit(id, 0, s0, g, {});
          visited := s.visited;
          ExploredFacts(g, s0.Snapshot(), s.Snapshot(), id, 0);
          assert s.stack == [] && visited - Elements(s.stack) == visited;
        }
      }
      FewerDone(g, functions, CycleTags(), visited, functions.Keys);
    }

    method CollectCycles()
      modifies `cycles
      ensures forall c :: c in cycles <==> exists x :: x in functions && functions[x].cycle == c
      ensures forall i, j | 0 <= i < j < |cycles| :: cycles[i] != cycles[j]
    {
      var found: seq<Cycle> := [];
      var todo := functions.Keys;
      while todo != {}
        invariant todo <= functions.Keys
        invariant forall c :: c in found <==> exists x :: x in functions && x !in todo && functions[x].cycle == c
        invariant forall i, j | 0 <= i < j < |found| :: found[i] != found[j]
      {
        var id :| id in todo;
        var cycle := functions[id].cycle;
        if cycle != null && cycle !in found {
          found := found + [cycle];
        }
        todo := todo - {id};
      }
      cycles := found;
    }
  }
}
