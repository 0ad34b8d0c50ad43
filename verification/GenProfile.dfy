/** The profile of call stacks: totals over subtrees, and folding some calls into their callers. */
module GenProfile {
  import opened Helpers
  import opened Digraph
  import opened Sums

  // ---------- the forest of call stacks ----------

  /** The calls each call made; rank is the length of a stack, which grows from caller to callee. */
  datatype Forest = Forest(kids: map<Id, set<Id>>, rank: map<Id, nat>, height: nat)

  ghost predicate Ok(f: Forest) {
    && f.rank.Keys == f.kids.Keys
    && (forall x | x in f.kids :: f.rank[x] <= f.height)
    && (forall x, y | x in f.kids && y in f.kids[x] :: y in f.kids && f.rank[x] < f.rank[y])
    && (forall x, z, y | x in f.kids && z in f.kids && y in f.kids[x] && y in f.kids[z] :: x == z)
  }

  /** The sum of v over a call and all calls below it. */
  ghost function TreeTotal(f: Forest, v: map<Id, real>, x: Id): real
    requires Ok(f) && x in f.kids && v.Keys == f.kids.Keys
    decreases f.height - f.rank[x], 1
  {
    v[x] + Sum(f.kids[x], KidTotals(f, v, x))
  }

  ghost function KidTotals(f: Forest, v: map<Id, real>, x: Id): (m: map<Id, real>)
    requires Ok(f) && x in f.kids && v.Keys == f.kids.Keys
    ensures m.Keys == f.kids[x]
    decreases f.height - f.rank[x], 0
  {
    map c | c in f.kids[x] :: TreeTotal(f, v, c)
  }

  /** A call's own value after its folded callees were added to it, and theirs to them. */
  ghost function SelfTotal(f: Forest, folded: set<Id>, v: map<Id, real>, x: Id): real
    requires Ok(f) && x in f.kids && v.Keys == f.kids.Keys
    decreases f.height - f.rank[x], 1
  {
    v[x] + Sum(f.kids[x] * folded, FoldedTotals(f, folded, v, x))
  }

  ghost function FoldedTotals(f: Forest, folded: set<Id>, v: map<Id, real>, x: Id): (m: map<Id, real>)
    requires Ok(f) && x in f.kids && v.Keys == f.kids.Keys
    ensures m.Keys == f.kids[x] * folded
    decreases f.height - f.rank[x], 0
  {
    map c | c in f.kids[x] * folded :: SelfTotal(f, folded, v, c)
  }

  /** The callees of a call that are left after folding: a folded callee makes room for its own. */
  ghost function VisibleKids(f: Forest, folded: set<Id>, x: Id): (s: set<Id>)
    requires Ok(f) && x in f.kids
    ensures forall y | y in s :: y in f.kids && f.rank[x] < f.rank[y] && y !in folded
    decreases f.height - f.rank[x]
  {
    (f.kids[x] - folded) + set c, g | c in f.kids[x] * folded && g in VisibleKids(f, folded, c) :: g
  }

  /** The sum of the own values over a call and all calls visible below it. */
  ghost function VisibleTotal(f: Forest, folded: set<Id>, v: map<Id, real>, x: Id): real
    requires Ok(f) && x in f.kids && v.Keys == f.kids.Keys
    decreases f.height - f.rank[x]
  {
    SelfTotal(f, folded, v, x)
    + Sum(VisibleKids(f, folded, x), map g | g in VisibleKids(f, folded, x) :: VisibleTotal(f, folded, v, g))
  }

  ghost function TreeTotals(f: Forest, v: map<Id, real>): (m: map<Id, real>)
    requires Ok(f) && v.Keys == f.kids.Keys
    ensures m.Keys == f.kids.Keys
  {
    map x | x in f.kids :: TreeTotal(f, v, x)
  }

  ghost function SelfTotals(f: Forest, folded: set<Id>, v: map<Id, real>): (m: map<Id, real>)
    requires Ok(f) && v.Keys == f.kids.Keys
    ensures m.Keys == f.kids.Keys
  {
    map x | x in f.kids :: SelfTotal(f, folded, v, x)
  }

  ghost function VisibleTotals(f: Forest, folded: set<Id>, v: map<Id, real>): (m: map<Id, real>)
    requires Ok(f) && v.Keys == f.kids.Keys
    ensures m.Keys == f.kids.Keys
  {
    map x | x in f.kids :: VisibleTotal(f, folded, v, x)
  }

  lemma TreeTotalIs(f: Forest, v: map<Id, real>, x: Id)
    requires Ok(f) && x in f.kids && v.Keys == f.kids.Keys
    ensures f.kids[x] <= f.kids.Keys
    ensures TreeTotals(f, v)[x] == TreeTotal(f, v, x) == v[x] + Sum(f.kids[x], TreeTotals(f, v))
  {
    hide Ok, Sum;
    KidsInside(f, x);
    SumSame(f.kids[x], KidTotals(f, v, x), TreeTotals(f, v));
  }

  lemma SelfTotalIs(f: Forest, folded: set<Id>, v: map<Id, real>, x: Id)
    requires Ok(f) && x in f.kids && v.Keys == f.kids.Keys
    ensures f.kids[x] <= f.kids.Keys
    ensures SelfTotals(f, folded, v)[x] == SelfTotal(f, folded, v, x)
        == v[x] + Sum(f.kids[x] * folded, SelfTotals(f, folded, v))
  {
    hide Ok, Sum;
    KidsInside(f, x);
    SumSame(f.kids[x] * folded, FoldedTotals(f, folded, v, x), SelfTotals(f, folded, v));
  }

  lemma VisibleTotalIs(f: Forest, folded: set<Id>, v: map<Id, real>, x: Id)
    requires Ok(f) && x in f.kids && v.Keys == f.kids.Keys
    ensures VisibleKids(f, folded, x) <= f.kids.Keys
    ensures VisibleTotals(f, folded, v)[x] == VisibleTotal(f, folded, v, x)
         == SelfTotals(f, folded, v)[x] + Sum(VisibleKids(f, folded, x), VisibleTotals(f, folded, v))
  {
    SumSame(VisibleKids(f, folded, x), map g | g in VisibleKids(f, folded, x) :: VisibleTotal(f, folded, v, g),
            VisibleTotals(f, folded, v));
  }

  // ---------- subtrees do not meet ----------

  /** A call and all calls below it. */
  ghost function Subtree(f: Forest, x: Id): set<Id>
    requires Ok(f) && x in f.kids
    decreases f.height - f.rank[x]
  {
    {x} + set c, y | c in f.kids[x] && y in Subtree(f, c) :: y
  }

  lemma {:induction false} SubtreeRanks(f: Forest, x: Id, y: Id)
    requires Ok(f) && x in f.kids && y in Subtree(f, x)
    ensures y in f.kids && (y == x || f.rank[x] < f.rank[y])
    decreases f.height - f.rank[x]
  {
    if y != x {
      var c :| c in f.kids[x] && y in Subtree(f, c);
      SubtreeRanks(f, c, y);
    }
  }

  /** Every call of a subtree but its root has its caller there. */
  lemma {:induction false} CallerInSubtree(f: Forest, x: Id, y: Id) returns (p: Id)
    requires Ok(f) && x in f.kids && y in Subtree(f, x) && y != x
    ensures p in f.kids && y in f.kids[p] && p in Subtree(f, x)
    decreases f.height - f.rank[x]
  {
    var c :| c in f.kids[x] && y in Subtree(f, c);
    if y == c {
      p := x;
    } else {
      p := CallerInSubtree(f, c, y);
    }
  }

  lemma {:induction false} SubtreesApart(f: Forest, x: Id, c: Id, d: Id, y: Id)
    requires Ok(f) && x in f.kids && c in f.kids[x] && d in f.kids[x] && c != d && y in Subtree(f, c)
    ensures y !in Subtree(f, d)
    decreases if y in f.rank then f.rank[y] else 0
  {
    if y in Subtree(f, d) {
      if y == c {
        NotBelowSibling(f, x, d, c);
      } else if y == d {
        NotBelowSibling(f, x, c, d);
      } else {
        var p := CallerInSubtree(f, c, y);
        var q := CallerInSubtree(f, d, y);
        SubtreesApart(f, x, c, d, p);
      }
    }
  }

  lemma NotBelowSibling(f: Forest, x: Id, c: Id, d: Id)
    requires Ok(f) && x in f.kids && c in f.kids[x] && d in f.kids[x] && c != d
    ensures d !in Subtree(f, c)
  {
    if d in Subtree(f, c) {
      var p := CallerInSubtree(f, c, d);
      SubtreeRanks(f, c, p);
    }
  }

  lemma {:induction false} VisibleInSubtree(f: Forest, folded: set<Id>, x: Id)
    requires Ok(f) && x in f.kids
    ensures VisibleKids(f, folded, x) <= Subtree(f, x)
    decreases f.height - f.rank[x]
  {
    forall y | y in VisibleKids(f, folded, x) ensures y in Subtree(f, x) {
      hide Ok;
      VisibleComesFrom(f, folded, x, y);
      var c :| c in f.kids[x] && c in f.kids && (y == c || (c in folded && y in VisibleKids(f, folded, c)));
      if y == c {
        SubtreeOfKid(f, x, c, y);
      } else {
        CallerFirst(f, x, c);
        VisibleInSubtree(f, folded, c);
        SubtreeOfKid(f, x, c, y);
      }
    }
  }

  lemma CallerFirst(f: Forest, x: Id, c: Id)
    requires Ok(f) && x in f.kids && c in f.kids[x]
    ensures c in f.kids && f.rank[x] < f.rank[c] <= f.height
  {
  }

  lemma SubtreeOfKid(f: Forest, x: Id, c: Id, y: Id)
    requires Ok(f) && x in f.kids && c in f.kids[x] && c in f.kids && (y == c || y in Subtree(f, c))
    ensures y in Subtree(f, x)
  {
    assert c in Subtree(f, c);
  }

  lemma VisibleComesFrom(f: Forest, folded: set<Id>, x: Id, y: Id)
    requires Ok(f) && x in f.kids && y in VisibleKids(f, folded, x)
    ensures exists c :: c in f.kids[x] && c in f.kids && (y == c || (c in folded && y in VisibleKids(f, folded, c)))
  {
  }

  // ---------- folding keeps totals ----------

  ghost function Family(f: Forest, folded: set<Id>, cs: set<Id>): set<Id>
    requires Ok(f) && cs <= f.kids.Keys
  {
    set c, g | c in cs && g in VisibleKids(f, folded, c) :: g
  }

  /** Folded callees with what is visible below them make up their visible totals. */
  lemma {:induction false} FamilyTotal(f: Forest, folded: set<Id>, v: map<Id, real>, x: Id, cs: set<Id>)
    requires Ok(f) && x in f.kids && v.Keys == f.kids.Keys && cs <= f.kids[x] * folded
    ensures Family(f, folded, cs) <= f.kids.Keys && cs <= f.kids.Keys
    ensures Sum(cs, SelfTotals(f, folded, v)) + Sum(Family(f, folded, cs), VisibleTotals(f, folded, v))
         == Sum(cs, VisibleTotals(f, folded, v))
    decreases cs
  {
    KidsInside(f, x);
    var selfs, visibles := SelfTotals(f, folded, v), VisibleTotals(f, folded, v);
    if cs == {} {
      assert Family(f, folded, cs) == {};
      assert Sum({}, selfs) == Sum({}, visibles) == 0.0;
    } else {
      hide Ok, Sum, SelfTotals, VisibleTotals, VisibleKids, Family;
      var c :| c in cs;
      var others := Family(f, folded, cs - {c});
      FamilyTotal(f, folded, v, x, cs - {c});
      FamilyApart(f, folded, x, cs, c);
      SumUnion(VisibleKids(f, folded, c), others, visibles);
      SumPick(cs, selfs, c);
      SumPick(cs, visibles, c);
      VisibleTotalIs(f, folded, v, c);
    }
  }

  lemma KidsInside(f: Forest, x: Id)
    requires Ok(f) && x in f.kids
    ensures f.kids[x] <= f.kids.Keys
  {
  }

  lemma FamilyApart(f: Forest, folded: set<Id>, x: Id, cs: set<Id>, c: Id)
    requires Ok(f) && x in f.kids && cs <= f.kids[x] * folded && c in cs
    ensures cs <= f.kids.Keys
    ensures VisibleKids(f, folded, c) !! Family(f, folded, cs - {c})
    ensures Family(f, folded, cs) == VisibleKids(f, folded, c) + Family(f, folded, cs - {c})
  {
    forall g | g in VisibleKids(f, folded, c) ensures g !in Family(f, folded, cs - {c}) {
      if g in Family(f, folded, cs - {c}) {
        var d :| d in cs - {c} && g in VisibleKids(f, folded, d);
        VisibleInSubtree(f, folded, c);
        VisibleInSubtree(f, folded, d);
        SubtreesApart(f, x, c, d, g);
      }
    }
  }

  /** The callees that stay visible at once are apart from those that folded callees leave. */
  lemma VisibleSplits(f: Forest, folded: set<Id>, x: Id)
    requires Ok(f) && x in f.kids
    ensures f.kids[x] <= f.kids.Keys
    ensures VisibleKids(f, folded, x) == (f.kids[x] - folded) + Family(f, folded, f.kids[x] * folded)
    ensures (f.kids[x] - folded) !! Family(f, folded, f.kids[x] * folded)
  {
    forall g | g in f.kids[x] - folded ensures g !in Family(f, folded, f.kids[x] * folded) {
      if g in Family(f, folded, f.kids[x] * folded) {
        var d :| d in f.kids[x] * folded && g in VisibleKids(f, folded, d);
        VisibleInSubtree(f, folded, d);
        NotBelowSibling(f, x, d, g);
      }
    }
  }

  /** One level up: if it holds for every callee, it holds for the caller. */
  lemma CallerKeepsTotals(f: Forest, folded: set<Id>, v: map<Id, real>, x: Id)
    requires Ok(f) && x in f.kids && v.Keys == f.kids.Keys && f.kids[x] <= f.kids.Keys
    requires forall c | c in f.kids[x] :: VisibleTotals(f, folded, v)[c] == TreeTotals(f, v)[c]
    ensures VisibleTotal(f, folded, v, x) == TreeTotal(f, v, x)
  {
    hide Ok, Sum, SelfTotals, VisibleTotals, TreeTotals, VisibleKids, Family, SelfTotal, VisibleTotal, TreeTotal;
    var kids, visibles, trees := f.kids[x], VisibleTotals(f, folded, v), TreeTotals(f, v);
    SumSame(kids, visibles, trees);
    VisibleSplits(f, folded, x);
    FamilyTotal(f, folded, v, x, kids * folded);
    SumUnion(kids - folded, Family(f, folded, kids * folded), visibles);
    SumUnion(kids - folded, kids * folded, visibles);
    assert (kids - folded) + kids * folded == kids;
    VisibleTotalIs(f, folded, v, x);
    SelfTotalIs(f, folded, v, x);
    TreeTotalIs(f, v, x);
  }

  /** Whatever is folded, the own values that remain visible below a call add up to what its whole subtree had. */
  lemma {:induction false} FoldingKeepsTotals(f: Forest, folded: set<Id>, v: map<Id, real>, x: Id)
    requires Ok(f) && x in f.kids && v.Keys == f.kids.Keys
    ensures VisibleTotal(f, folded, v, x) == TreeTotal(f, v, x)
    decreases f.height - f.rank[x]
  {
    hide Ok, VisibleTotal, TreeTotal;
    KidsInside(f, x);
    forall c | c in f.kids[x] ensures VisibleTotals(f, folded, v)[c] == TreeTotals(f, v)[c] {
      CallerFirst(f, x, c);
      FoldingKeepsTotals(f, folded, v, c);
    }
    CallerKeepsTotals(f, folded, v, x);
  }

  // ---------- callees before callers ----------

  ghost predicate CalleesFirst(f: Forest, s: seq<Id>)
    requires Ok(f) && forall x | x in s :: x in f.kids
  {
    forall i, j | 0 <= i < |s| && 0 <= j < |s| && s[i] in f.kids[s[j]] :: i < j
  }

  ghost function Roots(f: Forest): set<Id> {
    set x | x in f.kids && forall p | p in f.kids :: x !in f.kids[p]
  }

  lemma {:induction false} DistinctSize(s: seq<Id>)
    requires Distinct(s)
    ensures |Elements(s)| == |s|
  {
    if s != [] {
      DistinctSize(s[1..]);
      assert Elements(s) == Elements(s[1..]) + {s[0]};
    }
  }

  /** The calls put in order so far, newest first, and those still to be visited. */
  ghost predicate Visiting(f: Forest, ordered: seq<Id>, pending: seq<Id>) {
    && Ok(f) && (forall x | x in ordered :: x in f.kids) && (forall x | x in pending :: x in f.kids)
    && Distinct(ordered) && Distinct(pending) && (forall x | x in ordered :: x !in pending)
    && CalleesFirst(f, ordered)
    && (forall x, y | x in f.kids && y in f.kids[x] && (y in ordered || y in pending) :: x in ordered)
    && (forall x, y | x in ordered && y in f.kids[x] :: y in ordered || y in pending)
    && (forall x | x in Roots(f) :: x in ordered || x in pending)
  }

  lemma VisitKeeps(f: Forest, ordered: seq<Id>, pending: seq<Id>, pending': seq<Id>)
    requires Visiting(f, ordered, pending) && pending != []
    requires var x := pending[|pending| - 1];
      (forall y :: y in pending' <==> y in pending[..|pending| - 1] || y in f.kids[x]) && Distinct(pending')
    ensures Visiting(f, [pending[|pending| - 1]] + ordered, pending')
  {
    var x := pending[|pending| - 1];
    var ordered' := [x] + ordered;
    assert x in pending && x !in ordered;
    assert pending == pending[..|pending| - 1] + [x];
    assert forall y :: y in pending <==> y in pending[..|pending| - 1] || y == x;
    assert forall y :: y in ordered' <==> y == x || y in ordered;
    assert x !in pending[..|pending| - 1];
    assert forall y | y in ordered' :: y !in f.kids[x];
    assert forall y | y in ordered' :: y !in pending';
    forall i, j | 0 <= i < |ordered'| && 0 <= j < |ordered'| && ordered'[i] in f.kids[ordered'[j]] ensures i < j {
      assert ordered'[i] in ordered' && j > 0;
    }
    forall y, p | p in f.kids && y in f.kids[p] && (y in ordered' || y in pending') ensures p in ordered' {
      if y !in ordered && y !in pending {
        assert y in f.kids[x];
      }
    }
  }

  /** A caller that was reached has all its callees reached; so nothing is left out. */
  lemma {:induction false} AllVisited(f: Forest, ordered: seq<Id>, x: Id)
    requires Visiting(f, ordered, []) && x in f.kids
    ensures x in ordered
    decreases f.rank[x]
  {
    if x !in Roots(f) {
      var p :| p in f.kids && x in f.kids[p];
      AllVisited(f, ordered, p);
    }
  }

  // ---------- building the totals ----------

  type Key = string

  const CALLS: Key := "calls"

  type Vec = map<Key, real>

  function AddVec(a: Vec, b: Vec): Vec
    requires a.Keys == b.Keys
  {
    map k | k in a :: a[k] + b[k]
  }

  /** Folding adds a callee's values to its caller's, except for the number of calls. */
  function FoldVec(a: Vec, b: Vec): Vec
    requires a.Keys == b.Keys
  {
    map k | k in a :: if k == CALLS then a[k] else a[k] + b[k]
  }

  /** One column of the data. */
  ghost function KeyColumn(data: map<Id, Vec>, k: Key): (v: map<Id, real>)
    ensures v.Keys == data.Keys
  {
    map x | x in data :: if k in data[x] then data[x][k] else 0.0
  }

  /** Values added to sums that start at zero. */
  function Accumulated(a: Vec, b: Vec): Vec {
    map k | k in a.Keys + b.Keys :: (if k in a then a[k] else 0.0) + (if k in b then b[k] else 0.0)
  }

  /** The total of a call, key by key. */
  ghost function TreeVec(f: Forest, orig: map<Id, Vec>, keys: set<Key>, x: Id): (v: Vec)
    requires Ok(f) && orig.Keys == f.kids.Keys && x in f.kids
    ensures v.Keys == keys
  {
    map k | k in keys :: TreeTotal(f, KeyColumn(orig, k), x)
  }

  /** The own values of a call after folding, key by key. */
  ghost function SelfVec(f: Forest, folded: set<Id>, orig: map<Id, Vec>, keys: set<Key>, x: Id): (v: Vec)
    requires Ok(f) && orig.Keys == f.kids.Keys && x in f.kids
    ensures v.Keys == keys
  {
    map k | k in keys :: if k == CALLS then KeyColumn(orig, k)[x] else SelfTotal(f, folded, KeyColumn(orig, k), x)
  }

  // The same while only the callees in `done` have been taken into account.

  ghost function TreeAt(f: Forest, v: map<Id, real>, x: Id, done: set<Id>): real
    requires Ok(f) && x in f.kids && v.Keys == f.kids.Keys && done <= f.kids.Keys
  {
    v[x] + Sum(done, TreeTotals(f, v))
  }

  ghost function SelfAt(f: Forest, folded: set<Id>, v: map<Id, real>, x: Id, done: set<Id>): real
    requires Ok(f) && x in f.kids && v.Keys == f.kids.Keys && done <= f.kids.Keys
  {
    v[x] + Sum(done * folded, SelfTotals(f, folded, v))
  }

  lemma TreeAtNext(f: Forest, v: map<Id, real>, x: Id, done: set<Id>, c: Id)
    requires Ok(f) && x in f.kids && v.Keys == f.kids.Keys && done <= f.kids.Keys && c in f.kids && c !in done
    ensures TreeAt(f, v, x, done + {c}) == TreeAt(f, v, x, done) + TreeTotal(f, v, c)
  {
    hide Ok, Sum, TreeTotal;
    SumPick(done + {c}, TreeTotals(f, v), c);
    assert done + {c} - {c} == done;
  }

  lemma SelfAtNext(f: Forest, folded: set<Id>, v: map<Id, real>, x: Id, done: set<Id>, c: Id)
    requires Ok(f) && x in f.kids && v.Keys == f.kids.Keys && done <= f.kids.Keys && c in f.kids && c !in done
    ensures SelfAt(f, folded, v, x, done + {c})
         == SelfAt(f, folded, v, x, done) + if c in folded then SelfTotal(f, folded, v, c) else 0.0
  {
    hide Ok, Sum, SelfTotal;
    if c in folded {
      assert (done + {c}) * folded == done * folded + {c};
      SumPick(done * folded + {c}, SelfTotals(f, folded, v), c);
      assert done * folded + {c} - {c} == done * folded;
    } else {
      assert (done + {c}) * folded == done * folded;
    }
  }

  lemma AtEnds(f: Forest, folded: set<Id>, v: map<Id, real>, x: Id)
    requires Ok(f) && x in f.kids && v.Keys == f.kids.Keys
    ensures f.kids[x] <= f.kids.Keys
    ensures TreeAt(f, v, x, {}) == SelfAt(f, folded, v, x, {}) == v[x]
    ensures TreeAt(f, v, x, f.kids[x]) == TreeTotal(f, v, x)
    ensures SelfAt(f, folded, v, x, f.kids[x]) == SelfTotal(f, folded, v, x)
  {
    TreeTotalIs(f, v, x);
    SelfTotalIs(f, folded, v, x);
    assert {} * folded == {};
    assert Sum({}, TreeTotals(f, v)) == Sum({}, SelfTotals(f, folded, v)) == 0.0;
  }

  ghost function TreePart(f: Forest, orig: map<Id, Vec>, keys: set<Key>, x: Id, done: set<Id>): (v: Vec)
    requires Ok(f) && orig.Keys == f.kids.Keys && x in f.kids && done <= f.kids.Keys
    ensures v.Keys == keys
  {
    map k | k in keys :: TreeAt(f, KeyColumn(orig, k), x, done)
  }

  ghost function SelfPart(f: Forest, folded: set<Id>, orig: map<Id, Vec>, keys: set<Key>, x: Id,
                          done: set<Id>): (v: Vec)
    requires Ok(f) && orig.Keys == f.kids.Keys && x in f.kids && done <= f.kids.Keys
    ensures v.Keys == keys
  {
    map k | k in keys :: if k == CALLS then KeyColumn(orig, k)[x] else SelfAt(f, folded, KeyColumn(orig, k), x, done)
  }

  ghost function KidsPart(f: Forest, folded: set<Id>, x: Id, done: set<Id>): set<Id>
    requires Ok(f) && x in f.kids && done <= f.kids.Keys
  {
    KidsAt(f, folded, x, done * folded)
  }

  ghost function KidsAt(f: Forest, folded: set<Id>, x: Id, gone: set<Id>): set<Id>
    requires Ok(f) && x in f.kids && gone <= f.kids.Keys
  {
    (f.kids[x] - gone) + Family(f, folded, gone)
  }

  lemma PartStart(f: Forest, folded: set<Id>, orig: map<Id, Vec>, keys: set<Key>, x: Id)
    requires Ok(f) && orig.Keys == f.kids.Keys && x in f.kids && orig[x].Keys == keys
    ensures TreePart(f, orig, keys, x, {}) == orig[x]
    ensures SelfPart(f, folded, orig, keys, x, {}) == orig[x]
  {
    hide Ok, TreeAt, SelfAt, KeyColumn;
    forall k | k in keys
      ensures TreeAt(f, KeyColumn(orig, k), x, {}) == SelfAt(f, folded, KeyColumn(orig, k), x, {}) == orig[x][k]
          == KeyColumn(orig, k)[x]
    {
      AtEnds(f, folded, KeyColumn(orig, k), x);
      ColumnIs(orig, k, x);
    }
  }

  lemma ColumnIs(orig: map<Id, Vec>, k: Key, x: Id)
    requires x in orig && k in orig[x]
    ensures KeyColumn(orig, k)[x] == orig[x][k]
  {
  }

  lemma TreePartEnd(f: Forest, folded: set<Id>, orig: map<Id, Vec>, keys: set<Key>, x: Id)
    requires Ok(f) && orig.Keys == f.kids.Keys && x in f.kids
    ensures f.kids[x] <= f.kids.Keys
    ensures TreePart(f, orig, keys, x, f.kids[x]) == TreeVec(f, orig, keys, x)
  {
    KidsInside(f, x);
    hide Ok, TreeAt, TreeTotal, KeyColumn;
    forall k | k in keys ensures TreeAt(f, KeyColumn(orig, k), x, f.kids[x]) == TreeTotal(f, KeyColumn(orig, k), x) {
      AtEnds(f, folded, KeyColumn(orig, k), x);
    }
  }

  lemma SelfPartEnd(f: Forest, folded: set<Id>, orig: map<Id, Vec>, keys: set<Key>, x: Id)
    requires Ok(f) && orig.Keys == f.kids.Keys && x in f.kids
    ensures f.kids[x] <= f.kids.Keys
    ensures SelfPart(f, folded, orig, keys, x, f.kids[x]) == SelfVec(f, folded, orig, keys, x)
  {
    KidsInside(f, x);
    hide Ok, SelfAt, SelfTotal, KeyColumn;
    forall k | k in keys
      ensures SelfAt(f, folded, KeyColumn(orig, k), x, f.kids[x]) == SelfTotal(f, folded, KeyColumn(orig, k), x)
    {
      AtEnds(f, folded, KeyColumn(orig, k), x);
    }
  }

  lemma KidsEnds(f: Forest, folded: set<Id>, x: Id)
    requires Ok(f) && x in f.kids
    ensures f.kids[x] <= f.kids.Keys
    ensures KidsPart(f, folded, x, {}) == f.kids[x] && KidsPart(f, folded, x, f.kids[x]) == VisibleKids(f, folded, x)
  {
    VisibleSplits(f, folded, x);
    assert {} * folded == {};
    assert Family(f, folded, {}) == {};
    assert f.kids[x] - f.kids[x] * folded == f.kids[x] - folded;
  }

  lemma TreeNext(f: Forest, orig: map<Id, Vec>, keys: set<Key>, x: Id, done: set<Id>, c: Id)
    requires Ok(f) && orig.Keys == f.kids.Keys && x in f.kids && done <= f.kids.Keys && c in f.kids && c !in done
    ensures TreePart(f, orig, keys, x, done + {c})
         == AddVec(TreePart(f, orig, keys, x, done), TreeVec(f, orig, keys, c))
  {
    hide Ok, TreeAt, TreeTotal, KeyColumn;
    forall k | k in keys
      ensures TreeAt(f, KeyColumn(orig, k), x, done + {c}) == TreeAt(f, KeyColumn(orig, k), x, done)
          + TreeTotal(f, KeyColumn(orig, k), c)
    {
      TreeAtNext(f, KeyColumn(orig, k), x, done, c);
    }
  }

  lemma SelfNext(f: Forest, folded: set<Id>, orig: map<Id, Vec>, keys: set<Key>, x: Id, done: set<Id>, c: Id)
    requires Ok(f) && orig.Keys == f.kids.Keys && x in f.kids && done <= f.kids.Keys && c in f.kids && c !in done
    ensures SelfPart(f, folded, orig, keys, x, done + {c}) ==
      if c in folded then FoldVec(SelfPart(f, folded, orig, keys, x, done), SelfVec(f, folded, orig, keys, c))
      else SelfPart(f, folded, orig, keys, x, done)
  {
    hide Ok, SelfAt, SelfTotal, KeyColumn;
    forall k | k in keys
      ensures SelfAt(f, folded, KeyColumn(orig, k), x, done + {c})
           == SelfAt(f, folded, KeyColumn(orig, k), x, done)
               + if c in folded then SelfTotal(f, folded, KeyColumn(orig, k), c) else 0.0
    {
      SelfAtNext(f, folded, KeyColumn(orig, k), x, done, c);
    }
  }

  lemma KidsNext(f: Forest, folded: set<Id>, x: Id, done: set<Id>, c: Id)
    requires Ok(f) && x in f.kids && done <= f.kids[x] && c in f.kids[x] && c !in done
    ensures f.kids[x] <= f.kids.Keys
    ensures KidsPart(f, folded, x, done + {c}) ==
      if c in folded then KidsPart(f, folded, x, done) - {c} + VisibleKids(f, folded, c)
          else KidsPart(f, folded, x, done)
  {
    KidsInside(f, x);
    hide Ok, KidsAt, VisibleKids;
    if c in folded {
      assert (done + {c}) * folded == done * folded + {c};
      KidsAtNext(f, folded, x, done * folded, c);
    } else {
      assert (done + {c}) * folded == done * folded;
    }
  }

  lemma KidsAtNext(f: Forest, folded: set<Id>, x: Id, gone: set<Id>, c: Id)
    requires Ok(f) && x in f.kids && gone <= f.kids.Keys && c in f.kids && c in folded
    ensures KidsAt(f, folded, x, gone + {c}) == KidsAt(f, folded, x, gone) - {c} + VisibleKids(f, folded, c)
  {
    hide Ok, Family, VisibleKids;
    FamilyNext(f, folded, gone, c);
    TakeOut(f.kids[x], gone, Family(f, folded, gone), VisibleKids(f, folded, c), c);
  }

  lemma TakeOut(kids: set<Id>, done: set<Id>, left: set<Id>, more: set<Id>, c: Id)
    requires c !in left
    ensures (kids - (done + {c})) + (left + more) == ((kids - done) + left) - {c} + more
  {
  }

  lemma FamilyNext(f: Forest, folded: set<Id>, cs: set<Id>, c: Id)
    requires Ok(f) && cs <= f.kids.Keys && c in f.kids && c in folded
    ensures Family(f, folded, cs + {c}) == Family(f, folded, cs) + VisibleKids(f, folded, c)
    ensures c !in Family(f, folded, cs)
  {
    hide Ok;
  }

  class Call {
    const stack: Id
    const isPlt: bool
    var data: Vec
    var total: Vec
    var children: set<Id>
    var folded: bool

    constructor (stack: Id, isPlt: bool, data: Vec)
      ensures this.stack == stack && this.isPlt == isPlt && this.data == data
    {
      this.stack, this.isPlt, this.data := stack, isPlt, data;
      total, children, folded := map[], {}, false;
    }
  }

  class Profile {
    const calls: map<Id, Call>
    const children: map<Id, set<Id>>
    var totals: Vec

    constructor (calls: map<Id, Call>, children: map<Id, set<Id>>)
      ensures this.calls == calls && this.children == children && totals == map[]
    {
      this.calls, this.children, totals := calls, children, map[];
    }

    ghost predicate Shape(f: Forest)
    {
      && Ok(f) && f.kids == children && calls.Keys == children.Keys
      && forall x | x in calls :: calls[x].stack == x
    }

    ghost function Folded(): set<Id> {
      set x | x in calls && calls[x].isPlt
    }

    /** The call has its totals, its own values after folding, and the callees it shows. */
    ghost predicate Built(f: Forest, orig: map<Id, Vec>, keys: set<Key>, x: Id)
      requires Shape(f) && orig.Keys == children.Keys && x in calls
      reads calls[x]
    {
      && calls[x].total == TreeVec(f, orig, keys, x)
      && calls[x].data == SelfVec(f, Folded(), orig, keys, x)
      && calls[x].children == VisibleKids(f, Folded(), x)
      && calls[x].folded == calls[x].isPlt
    }

    /** Builds one call, all callees of which have been built. */
    method BuildTotal(stack: Id, ghost f: Forest, ghost orig: map<Id, Vec>, ghost keys: set<Key>)
      requires Shape(f) && orig.Keys == children.Keys && stack in calls && orig[stack].Keys == keys
      requires calls[stack].data == orig[stack]
      requires forall c | c in children[stack] :: c in calls && c != stack && Built(f, orig, keys, c)
      modifies calls[stack], `totals
      ensures Built(f, orig, keys, stack)
      ensures totals == Accumulated(old(totals), orig[stack])
    {
      hide Ok, TreePart, SelfPart, KidsPart, TreeVec, SelfVec, VisibleKids, Accumulated, AddVec, FoldVec;
      var call := calls[stack];
      ghost var folded := Folded();
      KidsInside(f, stack);
      PartStart(f, folded, orig, keys, stack);
      KidsEnds(f, folded, stack);
      TreePartEnd(f, folded, orig, keys, stack);
      SelfPartEnd(f, folded, orig, keys, stack);
      call.children := children[stack];
      totals := Accumulated(totals, call.data);
      call.total := call.data;
      var rest := call.children;
      ghost var done: set<Id> := {};
      while rest != {}
        invariant rest + done == children[stack] && rest !! done
        invariant call.total == TreePart(f, orig, keys, stack, done)
        invariant call.data == SelfPart(f, folded, orig, keys, stack, done)
        invariant call.children == KidsPart(f, folded, stack, done)
        invariant totals == Accumulated(old(totals), orig[stack])
        decreases rest
      {
        var c :| c in rest;
        assert c in children[stack] && calls[c] != call && Built(f, orig, keys, c);
        TreeNext(f, orig, keys, stack, done, c);
        SelfNext(f, folded, orig, keys, stack, done, c);
        KidsNext(f, folded, stack, done, c);
        rest := rest - {c};
        call.total := AddVec(call.total, calls[c].total);
        if calls[c].folded {
          call.data := FoldVec(call.data, calls[c].data);
          call.children := call.children - {c} + calls[c].children;
        }
        done := done + {c};
      }
      assert done == children[stack];
      call.folded := call.isPlt;
    }

    method FindRoots(ghost f: Forest) returns (roots: set<Id>)
      requires Shape(f)
      ensures roots == Roots(f)
    {
      roots := calls.Keys;
      var rest := calls.Keys;
      while rest != {}
        invariant rest <= calls.Keys
        invariant forall x :: x in roots <==> x in f.kids && forall p | p in f.kids && p !in rest :: x !in f.kids[p]
        decreases rest
      {
        var parent :| parent in rest;
        rest := rest - {parent};
        roots := roots - children[parent];
      }
    }

    /** The pending calls with the elements of a set behind them, in some order. */
    method Extend(pending: seq<Id>, xs: set<Id>) returns (r: seq<Id>)
      requires Distinct(pending) && forall x | x in xs :: x !in pending
      ensures Distinct(r) && forall x :: x in r <==> x in pending || x in xs
    {
      r := pending;
      var rest := xs;
      while rest != {}
        invariant rest <= xs && Distinct(r)
        invariant forall x :: x in r <==> x in pending || (x in xs && x !in rest)
        decreases rest
      {
        var x :| x in rest;
        rest := rest - {x};
        r := r + [x];
      }
    }

    /** Every call, once, with its callees before it. */
    method OrderCalls(ghost f: Forest) returns (ordered: seq<Id>)
      requires Shape(f)
      ensures Distinct(ordered) && (forall x :: x in ordered <==> x in calls) && CalleesFirst(f, ordered)
    {
      hide Visiting, CalleesFirst;
      ordered := [];
      var roots := FindRoots(f);
      var pending := Extend([], roots);
      StartVisiting(f, pending);
      while pending != []
        invariant Visiting(f, ordered, pending)
        decreases |calls| - |ordered|
      {
        VisitingFacts(f, ordered, pending);
        NextCall(f, ordered, pending);
        var stack := pending[|pending| - 1];
        ghost var before, prior := pending, ordered;
        ordered := [stack] + ordered;
        pending := Extend(pending[..|pending| - 1], children[stack]);
        VisitKeeps(f, prior, before, pending);
        VisitingFacts(f, ordered, pending);
      }
      VisitingFacts(f, ordered, pending);
      forall x | x in calls ensures x in ordered {
        AllVisited(f, ordered, x);
      }
    }

    /** Builds every call: in whatever order the roots and callees come, each call's callees are built before it. */
    method BuildAll(ghost f: Forest, ghost orig: map<Id, Vec>, ghost keys: set<Key>)
      requires Shape(f) && orig.Keys == children.Keys && totals == map[]
      requires forall x | x in calls :: calls[x].data == orig[x] && orig[x].Keys == keys
      modifies calls.Values, `totals
      ensures forall x | x in calls :: Built(f, orig, keys, x)
      ensures calls != map[] ==> totals == SumVec(orig, keys, calls.Keys)
    {
      hide CalleesFirst, Built, Accumulated, Ok, SumVec;
      var ordered := OrderCalls(f);
      BuildInOrder(ordered, f, orig, keys);
      forall x | x in calls ensures Built(f, orig, keys, x) {
        assert x in ordered;
        var j :| 0 <= j < |ordered| && ordered[j] == x;
      }
      assert Elements(ordered) == calls.Keys;
      if calls != map[] {
        InOrderIsSum(orig, keys, ordered);
      }
    }

    lemma CalleesBuilt(ordered: seq<Id>, i: nat, f: Forest, orig: map<Id, Vec>, keys: set<Key>)
      requires Shape(f) && orig.Keys == children.Keys && i < |ordered|
      requires (forall x :: x in ordered <==> x in calls) && CalleesFirst(f, ordered)
      requires forall j | 0 <= j < i :: Built(f, orig, keys, ordered[j])
      ensures ordered[i] in calls
      ensures forall c | c in children[ordered[i]] :: c in calls && c != ordered[i] && Built(f, orig, keys, c)
    {
      CalleesBefore(f, ordered, i);
      assert ordered[i] in ordered;
      hide CalleesFirst, Built, Ok;
      forall c | c in children[ordered[i]] ensures Built(f, orig, keys, c) {
        assert c in ordered[..i];
        var j :| 0 <= j < i && ordered[j] == c;
      }
    }

    lemma OtherCalls(ordered: seq<Id>, i: nat, f: Forest)
      requires Shape(f) && Distinct(ordered) && i < |ordered| && forall x :: x in ordered <==> x in calls
      ensures forall j | 0 <= j < |ordered| && j != i :: ordered[j] in calls && calls[ordered[j]] != calls[ordered[i]]
    {
      assert forall j | 0 <= j < |ordered| :: ordered[j] in ordered;
    }

    method BuildInOrder(ordered: seq<Id>, ghost f: Forest, ghost orig: map<Id, Vec>, ghost keys: set<Key>)
      requires Shape(f) && orig.Keys == children.Keys && totals == map[]
      requires Distinct(ordered) && (forall x :: x in ordered <==> x in calls) && CalleesFirst(f, ordered)
      requires forall x | x in calls :: calls[x].data == orig[x] && orig[x].Keys == keys
      modifies calls.Values, `totals
      ensures forall j | 0 <= j < |ordered| :: Built(f, orig, keys, ordered[j])
      ensures totals == InOrder(orig, ordered)
    {
      hide CalleesFirst, Built, Accumulated, Ok, Distinct, Folded;
      for i := 0 to |ordered|
        invariant forall j | 0 <= j < i :: Built(f, orig, keys, ordered[j])
        invariant forall j | i <= j < |ordered| :: calls[ordered[j]].data == orig[ordered[j]]
        invariant totals == InOrder(orig, ordered[..i])
      {
        var stack := ordered[i];
        assert stack in ordered;
        CalleesBuilt(ordered, i, f, orig, keys);
        OtherCalls(ordered, i, f);
        BuildTotal(stack, f, orig, keys);
        assert ordered[..i + 1][..i] == ordered[..i];
      }
      assert ordered[..|ordered|] == ordered;
    }

    /** What the report relies on: a call's total is what its whole subtree had, and it is the call's own value with
        the totals of the callees it shows; but of the calls a call keeps its own number, whatever it folds. */
    lemma ShownValuesAddUp(f: Forest, orig: map<Id, Vec>, keys: set<Key>, x: Id, k: Key)
      requires Shape(f) && orig.Keys == children.Keys && x in calls && k in keys
      requires forall y | y in calls :: Built(f, orig, keys, y)
      ensures k in calls[x].total && k in calls[x].data && calls[x].children <= calls.Keys
      ensures calls[x].total[k] == TreeTotal(f, KeyColumn(orig, k), x)
      ensures forall y | y in calls :: k in calls[y].total
      ensures k == "calls" && k in orig[x] ==> calls[x].data[k] == orig[x][k]
      ensures k != "calls" ==>
        calls[x].total[k] == calls[x].data[k] + Sum(calls[x].children, map y | y in calls :: calls[y].total[k])
    {
      hide Ok, TreeTotal, SelfTotal, VisibleTotal;
      var v, folded := KeyColumn(orig, k), Folded();
      FoldingKeepsTotals(f, folded, v, x);
      VisibleTotalIs(f, folded, v, x);
      SelfTotalIs(f, folded, v, x);
      var shown := map y | y in calls :: if k in calls[y].total then calls[y].total[k] else 0.0;
      assert Built(f, orig, keys, x);
      forall y | y in calls ensures k in calls[y].total && VisibleTotals(f, folded, v)[y] == calls[y].total[k] {
        assert Built(f, orig, keys, y);
        FoldingKeepsTotals(f, folded, v, y);
      }
      SumSame(calls[x].children, VisibleTotals(f, folded, v), map y | y in calls :: calls[y].total[k]);
    }
  }

  /** The values of calls accumulated one after the other. */
  function InOrder(orig: map<Id, Vec>, s: seq<Id>): Vec
    requires forall x | x in s :: x in orig
  {
    if s == [] then map[] else Accumulated(InOrder(orig, s[..|s| - 1]), orig[s[|s| - 1]])
  }

  /** The sum over a set of calls, key by key. */
  ghost function SumVec(orig: map<Id, Vec>, keys: set<Key>, s: set<Id>): Vec
    requires s <= orig.Keys
  {
    map k | k in keys :: Sum(s, KeyColumn(orig, k))
  }

  lemma SumVecNext(orig: map<Id, Vec>, keys: set<Key>, s: set<Id>, x: Id)
    requires s <= orig.Keys && x in orig && x !in s && orig[x].Keys == keys
    ensures SumVec(orig, keys, s + {x}) == Accumulated(SumVec(orig, keys, s), orig[x])
    ensures s == {} ==> SumVec(orig, keys, s + {x}) == Accumulated(map[], orig[x])
  {
    hide Sum, KeyColumn;
    forall k | k in keys
      ensures Sum(s + {x}, KeyColumn(orig, k)) == Sum(s, KeyColumn(orig, k)) + orig[x][k]
      ensures s == {} ==> Sum(s, KeyColumn(orig, k)) == 0.0
    {
      SumColumnNext(orig, k, s, x);
    }
  }

  lemma SumColumnNext(orig: map<Id, Vec>, k: Key, s: set<Id>, x: Id)
    requires s <= orig.Keys && x in orig && x !in s && k in orig[x]
    ensures Sum(s + {x}, KeyColumn(orig, k)) == Sum(s, KeyColumn(orig, k)) + orig[x][k]
    ensures s == {} ==> Sum(s, KeyColumn(orig, k)) == 0.0
  {
    SumPick(s + {x}, KeyColumn(orig, k), x);
    assert s + {x} - {x} == s;
  }

  lemma {:induction false} InOrderIsSum(orig: map<Id, Vec>, keys: set<Key>, s: seq<Id>)
    requires s != [] && Distinct(s) && forall x | x in s :: x in orig && orig[x].Keys == keys
    ensures InOrder(orig, s) == SumVec(orig, keys, Elements(s))
  {
    hide SumVec, Accumulated;
    var n := |s| - 1;
    var front, last := s[..n], s[n];
    assert last in s && s == front + [last];
    assert Elements(s) == Elements(front) + {last} && last !in Elements(front);
    SumVecNext(orig, keys, Elements(front), last);
    if front != [] {
      InOrderIsSum(orig, keys, front);
    } else {
      assert Elements(front) == {};
    }
  }

  lemma CalleesBefore(f: Forest, ordered: seq<Id>, i: nat)
    requires Ok(f) && (forall x :: x in ordered <==> x in f.kids) && CalleesFirst(f, ordered) && i < |ordered|
    ensures forall c | c in f.kids[ordered[i]] :: c in f.kids && c != ordered[i] && c in ordered[..i]
  {
    assert ordered[i] in ordered;
    forall c | c in f.kids[ordered[i]] ensures c in ordered[..i] {
      assert c in ordered;
      var j :| 0 <= j < |ordered| && ordered[j] == c;
      assert j < i;
    }
  }

  lemma StartVisiting(f: Forest, pending: seq<Id>)
    requires Ok(f) && Distinct(pending) && forall x :: x in pending <==> x in Roots(f)
    ensures Visiting(f, [], pending)
  {
  }

  lemma VisitingFacts(f: Forest, ordered: seq<Id>, pending: seq<Id>)
    requires Visiting(f, ordered, pending)
    ensures |ordered| <= |f.kids| && Distinct(ordered) && (forall x | x in ordered :: x in f.kids)
        && CalleesFirst(f, ordered)
  {
    DistinctSize(ordered);
    SubsetSize(Elements(ordered), f.kids.Keys);
  }

  /** The next call is a new one, and none of its callees is waiting already. */
  lemma NextCall(f: Forest, ordered: seq<Id>, pending: seq<Id>)
    requires Visiting(f, ordered, pending) && pending != []
    ensures var x := pending[|pending| - 1];
      var rest := pending[..|pending| - 1];
      x in f.kids && x !in ordered && Distinct(rest) && forall y | y in f.kids[x] :: y !in rest
  {
    var x := pending[|pending| - 1];
    assert x in pending;
    assert x !in ordered;
    hide CalleesFirst, Ok;
    forall y | y in pending[..|pending| - 1] ensures y !in f.kids[x] {
      assert y in pending;
    }
  }
}
