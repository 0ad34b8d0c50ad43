/** Finite directed graphs over function ids, and reachability by paths. */
module Digraph {

  type Id(==, !new)

  type Graph = map<Id, set<Id>>

  /** Every callee is itself a function of the profile. */
  ghost predicate Closed(g: Graph) {
    forall x, y | x in g && y in g[x] :: y in g
  }

  ghost predicate IsPath(g: Graph, p: seq<Id>) {
    && p != []
    && (forall i | 0 <= i < |p| :: p[i] in g)
    && (forall i | 0 <= i < |p| - 1 :: p[i + 1] in g[p[i]])
  }

  ghost predicate Reaches(g: Graph, x: Id, y: Id) {
    exists p :: IsPath(g, p) && p[0] == x && p[|p| - 1] == y
  }

  ghost predicate Mutual(g: Graph, x: Id, y: Id) {
    Reaches(g, x, y) && Reaches(g, y, x)
  }

  /** The strongly connected component of x. */
  ghost function Component(g: Graph, x: Id): set<Id> {
    set y | y in g && Mutual(g, x, y)
  }

  lemma ReachesSelf(g: Graph, x: Id)
    requires x in g
    ensures Reaches(g, x, x)
  {
    assert IsPath(g, [x]);
  }

  lemma ReachesStep(g: Graph, x: Id, y: Id)
    requires Closed(g) && x in g && y in g[x]
    ensures Reaches(g, x, y)
  {
    assert IsPath(g, [x, y]);
  }

  lemma ReachesTrans(g: Graph, x: Id, y: Id, z: Id)
    requires Reaches(g, x, y) && Reaches(g, y, z)
    ensures Reaches(g, x, z)
  {
    var p :| IsPath(g, p) && p[0] == x && p[|p| - 1] == y;
    var q :| IsPath(g, q) && q[0] == y && q[|q| - 1] == z;
    var r := p + q[1..];
    assert IsPath(g, r) && r[0] == x && r[|r| - 1] == z;
  }

  ghost function Elements(s: seq<Id>): set<Id> {
    set x | x in s
  }

  /** A set closed under calls keeps everything reachable from it. */
  lemma ClosedSetKeepsReachable(g: Graph, s: set<Id>, x: Id, y: Id)
    requires forall u, v | u in s && u in g && v in g[u] :: v in s
    requires x in s && Reaches(g, x, y)
    ensures y in s
  {
    var p :| IsPath(g, p) && p[0] == x && p[|p| - 1] == y;
    for i := 0 to |p| - 1
      invariant p[i] in s
    {
      assert p[i + 1] in g[p[i]];
    }
  }

  /** No two functions call each other, directly or through others; a function may call itself. */
  ghost predicate Acyclic(g: Graph) {
    forall x | x in g :: Component(g, x) == {x}
  }

  ghost function ReachSet(g: Graph, x: Id): set<Id> {
    set y | y in g && Reaches(g, x, y)
  }

  lemma ReachesLess(g: Graph, x: Id, y: Id)
    requires Acyclic(g) && x in g && Reaches(g, x, y) && x != y
    ensures ReachSet(g, y) < ReachSet(g, x)
  {
    ReachesSelf(g, x);
    forall z | z in ReachSet(g, y) ensures z in ReachSet(g, x) {
      ReachesTrans(g, x, y, z);
    }
    var p :| IsPath(g, p) && p[0] == x && p[|p| - 1] == y;
    assert y in g;
    assert Mutual(g, x, y) ==> y in Component(g, x);
    assert x in ReachSet(g, x) && x !in ReachSet(g, y);
  }

  lemma CalleeReachesLess(g: Graph, x: Id, y: Id)
    requires Closed(g) && Acyclic(g) && x in g && y in g[x] && y != x
    ensures ReachSet(g, y) < ReachSet(g, x)
  {
    ReachesStep(g, x, y);
    ReachesLess(g, x, y);
  }
}
