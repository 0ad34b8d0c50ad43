/** What `Profile.call_ratios` and `Profile.integrate` compute, as equations over the call graph. */
module TimePropagation {
  import opened Digraph
  import opened Sums

  /** The other functions that call y. */
  ghost function Callers(g: Graph, y: Id): set<Id> {
    set x | x in g && x != y && y in g[x]
  }

  ghost function Callees(g: Graph, x: Id): set<Id>
    requires x in g
  {
    g[x] - {x}
  }

  /** A table with an entry for every call of one function by another. */
  ghost predicate OnCalls(g: Graph, m: Matrix) {
    g.Keys <= m.Keys && forall x, y | x in g && y in Callees(g, x) :: y in m[x]
  }

  ghost function Shares(g: Graph, ratios: Matrix, total: map<Id, real>, x: Id): map<Id, real>
    requires Closed(g) && OnCalls(g, ratios) && g.Keys <= total.Keys && x in g
  {
    map y | y in Callees(g, x) :: Times(ratios[x][y], total[y])
  }

  /** The time of a function is its own plus its share of the time of every function it calls. */
  ghost predicate Propagated(g: Graph, self: map<Id, real>, ratios: Matrix, total: map<Id, real>)
    requires Closed(g) && OnCalls(g, ratios) && g.Keys <= self.Keys && g.Keys <= total.Keys
  {
    forall x | x in g :: total[x] == self[x] + Sum(Callees(g, x), Shares(g, ratios, total, x))
  }

  ghost function InColumn(g: Graph, m: Matrix, y: Id): map<Id, real>
    requires OnCalls(g, m)
  {
    map x | x in Callers(g, y) :: m[x][y]
  }

  /** The part of the time of y that its callers are charged for, summed over the callers. */
  ghost function Charged(g: Graph, ratios: Matrix, y: Id): real
    requires OnCalls(g, ratios)
  {
    Sum(Callers(g, y), InColumn(g, ratios, y))
  }

  ghost function Uncharged(g: Graph, ratios: Matrix, total: map<Id, real>): (m: map<Id, real>)
    requires OnCalls(g, ratios) && g.Keys <= total.Keys
    ensures m.Keys == g.Keys
  {
    map y | y in g :: Times(1.0 - Charged(g, ratios, y), total[y])
  }

  /** The shares of x in the time of all functions, zero for those it does not call. */
  ghost function FullShares(g: Graph, ratios: Matrix, total: map<Id, real>, x: Id): (row: map<Id, real>)
    requires Closed(g) && OnCalls(g, ratios) && g.Keys <= total.Keys && x in g
    ensures row.Keys == g.Keys
  {
    map y | y in g :: if y in Callees(g, x) then Times(ratios[x][y], total[y]) else 0.0
  }

  ghost function ShareTable(g: Graph, ratios: Matrix, total: map<Id, real>): (m: Matrix)
    requires Closed(g) && OnCalls(g, ratios) && g.Keys <= total.Keys
    ensures Covers(m, g.Keys, g.Keys)
  {
    map x | x in g :: FullShares(g, ratios, total, x)
  }

  lemma ShareRow(g: Graph, self: map<Id, real>, ratios: Matrix, total: map<Id, real>, x: Id)
    requires Closed(g) && OnCalls(g, ratios) && g.Keys <= self.Keys && g.Keys <= total.Keys
    requires Propagated(g, self, ratios, total) && x in g
    ensures total[x] == self[x] + Sum(g.Keys, ShareTable(g, ratios, total)[x])
  {
    hide Sum, Times;
    var row := ShareTable(g, ratios, total)[x];
    SumSupport(g.Keys, Callees(g, x), row);
    SumSame(Callees(g, x), row, Shares(g, ratios, total, x));
  }

  lemma ShareEntry(g: Graph, ratios: Matrix, total: map<Id, real>, x: Id, y: Id)
    requires Closed(g) && OnCalls(g, ratios) && g.Keys <= total.Keys && x in g && y in g
    ensures x in Callers(g, y) ==> Column(ShareTable(g, ratios, total), g.Keys, y)[x] == Times(ratios[x][y], total[y])
    ensures x !in Callers(g, y) ==> Column(ShareTable(g, ratios, total), g.Keys, y)[x] == 0.0
  {
    hide Times;
  }

  lemma ShareColumn(g: Graph, ratios: Matrix, total: map<Id, real>, y: Id)
    requires Closed(g) && OnCalls(g, ratios) && g.Keys <= total.Keys && y in g
    ensures ColumnSums(ShareTable(g, ratios, total), g.Keys, g.Keys)[y] == Times(Charged(g, ratios, y), total[y])
  {
    hide Sum, Times, ShareTable;
    var column := Column(ShareTable(g, ratios, total), g.Keys, y);
    forall x | x in g
      ensures x in Callers(g, y) ==> column[x] == Times(ratios[x][y], total[y])
      ensures x !in Callers(g, y) ==> column[x] == 0.0
    {
      ShareEntry(g, ratios, total, x, y);
    }
    SumSupport(g.Keys, Callers(g, y), column);
    SumScale(Callers(g, y), InColumn(g, ratios, y), column, total[y]);
  }

  lemma ChargedAndUncharged(g: Graph, ratios: Matrix, total: map<Id, real>, y: Id)
    requires OnCalls(g, ratios) && g.Keys <= total.Keys && y in g
    ensures total[y] == Uncharged(g, ratios, total)[y] + Times(Charged(g, ratios, y), total[y])
  {
    hide Sum, Times, Charged;
    TimesAdd(Charged(g, ratios, y), 0.0, total[y]);
  }

  lemma TotalByRows(g: Graph, self: map<Id, real>, ratios: Matrix, total: map<Id, real>)
    requires Closed(g) && OnCalls(g, ratios) && g.Keys <= self.Keys && g.Keys <= total.Keys
    requires Propagated(g, self, ratios, total)
    ensures Sum(g.Keys, total) ==
      Sum(g.Keys, self) + Sum(g.Keys, RowSums(ShareTable(g, ratios, total), g.Keys, g.Keys))
  {
    hide Sum, Times;
    var rows := RowSums(ShareTable(g, ratios, total), g.Keys, g.Keys);
    forall x | x in g ensures total[x] == self[x] + rows[x] {
      ShareRow(g, self, ratios, total, x);
    }
    SumAdd(g.Keys, total, self, rows);
  }

  lemma TotalByColumns(g: Graph, ratios: Matrix, total: map<Id, real>)
    requires Closed(g) && OnCalls(g, ratios) && g.Keys <= total.Keys
    ensures Sum(g.Keys, total) ==
      Sum(g.Keys, Uncharged(g, ratios, total)) + Sum(g.Keys, ColumnSums(ShareTable(g, ratios, total), g.Keys, g.Keys))
  {
    hide Sum, Times, Charged, Uncharged, ColumnSums, ShareTable;
    var columns := ColumnSums(ShareTable(g, ratios, total), g.Keys, g.Keys);
    forall y | y in g ensures total[y] == Uncharged(g, ratios, total)[y] + columns[y] {
      ShareColumn(g, ratios, total, y);
      ChargedAndUncharged(g, ratios, total, y);
    }
    SumAdd(g.Keys, total, Uncharged(g, ratios, total), columns);
  }

  /** Self time is conserved: it is exactly the time that is not charged to callers, whatever the ratios. */
  lemma SelfTimeIsUncharged(g: Graph, self: map<Id, real>, ratios: Matrix, total: map<Id, real>)
    requires Closed(g) && OnCalls(g, ratios) && g.Keys <= self.Keys && g.Keys <= total.Keys
    requires Propagated(g, self, ratios, total)
    ensures Sum(g.Keys, self) == Sum(g.Keys, Uncharged(g, ratios, total))
  {
    hide Sum, Times;
    TotalByRows(g, self, ratios, total);
    TotalByColumns(g, ratios, total);
    SumSwap(ShareTable(g, ratios, total), g.Keys, g.Keys);
  }

  // ---------- the ratios that call_ratios assigns ----------

  /** `ratio`: clamped to [0, 1], and 1 when there is nothing to divide by. */
  function Ratio(numerator: real, denominator: real): real {
    if denominator == 0.0 then 1.0
    else
      var r := numerator / denominator;
      if r < 0.0 then 0.0 else if r > 1.0 then 1.0 else r
  }

  /** Whether the call from x to y carries a count; the source goes on when it does not. */
  ghost predicate Counted(counts: Matrix, x: Id, y: Id) {
    x in counts && y in counts[x]
  }

  ghost function CountedCallers(g: Graph, counts: Matrix, y: Id): set<Id> {
    set x | x in Callers(g, y) && Counted(counts, x, y)
  }

  ghost function CountColumn(g: Graph, counts: Matrix, y: Id): map<Id, real> {
    map x | x in CountedCallers(g, counts, y) :: counts[x][y]
  }

  /** The sum of the counts on the calls of y by other functions. */
  ghost function CallTotal(g: Graph, counts: Matrix, y: Id): real {
    Sum(CountedCallers(g, counts, y), CountColumn(g, counts, y))
  }

  /** The ratios that `call_ratios` gives to calls: zero to a call without a count. */
  ghost predicate RatiosOf(g: Graph, counts: Matrix, ratios: Matrix)
    requires OnCalls(g, ratios)
  {
    forall x, y | x in g && y in Callees(g, x) ::
      ratios[x][y] == if Counted(counts, x, y) then Ratio(counts[x][y], CallTotal(g, counts, y)) else 0.0
  }

  ghost predicate NonNegative(g: Graph, counts: Matrix) {
    forall x, y | x in g && y in Callees(g, x) && Counted(counts, x, y) :: counts[x][y] >= 0.0
  }

  lemma {:induction false} SumOnes(s: set<Id>, v: map<Id, real>)
    requires s <= v.Keys && forall x | x in s :: v[x] == 1.0
    ensures Sum(s, v) == |s| as real
    decreases s
  {
    if s != {} {
      var x :| x in s;
      SumPick(s, v, x);
      SumOnes(s - {x}, v);
    }
  }

  lemma RatioOfPart(part: real, whole: real)
    requires 0.0 <= part <= whole && whole > 0.0
    ensures Ratio(part, whole) == Times(part, 1.0 / whole)
    ensures Times(whole, 1.0 / whole) == 1.0
  {
    assert part / whole == part * (1.0 / whole);
    assert 0.0 <= part / whole <= 1.0;
  }

  /** A function with counts is charged in full; with only zero counts it is charged in full to every caller that
      carries one, and so not at all when none does. */
  lemma ChargedInFull(g: Graph, counts: Matrix, ratios: Matrix, y: Id)
    requires OnCalls(g, ratios) && RatiosOf(g, counts, ratios) && NonNegative(g, counts)
    ensures CallTotal(g, counts, y) > 0.0 ==> Charged(g, ratios, y) == 1.0
    ensures CallTotal(g, counts, y) == 0.0 ==> Charged(g, ratios, y) == |CountedCallers(g, counts, y)| as real
    ensures CallTotal(g, counts, y) >= 0.0
  {
    hide Sum, Times, Ratio;
    var counted, total, row := CountedCallers(g, counts, y), CallTotal(g, counts, y), InColumn(g, ratios, y);
    SumNonNegative(counted, CountColumn(g, counts, y));
    forall x | x in Callers(g, y) ensures x !in counted ==> row[x] == 0.0 {
      assert y in Callees(g, x);
    }
    SumSupport(Callers(g, y), counted, row);
    if total > 0.0 {
      forall x | x in counted ensures row[x] == Times(counts[x][y], 1.0 / total) {
        assert y in Callees(g, x) && counts[x][y] == CountColumn(g, counts, y)[x];
        RatioOfPart(counts[x][y], total);
      }
      SumScale(counted, CountColumn(g, counts, y), row, 1.0 / total);
      RatioOfPart(total, total);
    } else {
      forall x | x in counted ensures row[x] == 1.0 {
        assert y in Callees(g, x);
        RatioByZero(counts[x][y]);
      }
      SumOnes(counted, row);
    }
  }

  lemma RatioByZero(part: real)
    ensures Ratio(part, 0.0) == 1.0
  {
  }

  // ---------- conservation ----------

  ghost function Roots(g: Graph): set<Id> {
    set y | y in g && Callers(g, y) == {}
  }

  /** What each called function adds to the time of the roots, beyond its share: its time, for every time it is charged
      more than once; less its time, if it is not charged at all. */
  ghost function Surplus(g: Graph, ratios: Matrix, total: map<Id, real>): (m: map<Id, real>)
    requires OnCalls(g, ratios) && g.Keys <= total.Keys
    ensures m.Keys == g.Keys - Roots(g)
  {
    map y | y in g && y !in Roots(g) :: Times(Charged(g, ratios, y) - 1.0, total[y])
  }

  ghost function RootShare(g: Graph, total: map<Id, real>): map<Id, real>
    requires g.Keys <= total.Keys
  {
    map y | y in g :: if y in Roots(g) then total[y] else 0.0
  }

  ghost function FullSurplus(g: Graph, ratios: Matrix, total: map<Id, real>): map<Id, real>
    requires OnCalls(g, ratios) && g.Keys <= total.Keys
  {
    map y | y in g :: if y in Roots(g) then 0.0 else Surplus(g, ratios, total)[y]
  }

  lemma CancelTimes(k: real, t: real)
    ensures Times(1.0 - k, t) + Times(k - 1.0, t) == 0.0
    ensures k == 1.0 ==> Times(k - 1.0, t) == 0.0
    ensures k == 0.0 ==> Times(1.0 - k, t) == t
  {
  }

  lemma RootIsUnchargedPlusSurplus(g: Graph, ratios: Matrix, total: map<Id, real>, y: Id)
    requires OnCalls(g, ratios) && g.Keys <= total.Keys && y in g
    ensures RootShare(g, total)[y] == Uncharged(g, ratios, total)[y] + FullSurplus(g, ratios, total)[y]
  {
    hide Times, Charged, Sum;
    CancelTimes(Charged(g, ratios, y), total[y]);
    RootIsNotCharged(g, ratios, y);
  }

  lemma RootIsNotCharged(g: Graph, ratios: Matrix, y: Id)
    requires OnCalls(g, ratios)
    ensures y in Roots(g) ==> Charged(g, ratios, y) == 0.0
  {
    hide OnCalls;
    SumOfNone(InColumn(g, ratios, y));
  }

  /** The general equation, for any ratios at all: the functions nobody else calls carry all self time, plus what
      charging a function more or less than once adds or loses. */
  lemma RootTime(g: Graph, self: map<Id, real>, ratios: Matrix, total: map<Id, real>)
    requires Closed(g) && OnCalls(g, ratios) && g.Keys <= self.Keys && g.Keys <= total.Keys
    requires Propagated(g, self, ratios, total)
    ensures Sum(Roots(g), total) == Sum(g.Keys, self) + Sum(g.Keys - Roots(g), Surplus(g, ratios, total))
  {
    hide Sum, Times, Surplus, Uncharged, Charged;
    SelfTimeIsUncharged(g, self, ratios, total);
    forall y | y in g
      ensures RootShare(g, total)[y] == Uncharged(g, ratios, total)[y] + FullSurplus(g, ratios, total)[y]
    {
      RootIsUnchargedPlusSurplus(g, ratios, total, y);
    }
    SumAdd(g.Keys, RootShare(g, total), Uncharged(g, ratios, total), FullSurplus(g, ratios, total));
    SumSupport(g.Keys, Roots(g), RootShare(g, total));
    SumSame(Roots(g), RootShare(g, total), total);
    SumSupport(g.Keys, g.Keys - Roots(g), FullSurplus(g, ratios, total));
    SumSame(g.Keys - Roots(g), FullSurplus(g, ratios, total), Surplus(g, ratios, total));
  }

  /** On a call graph without cycles the equations have only one solution. */
  lemma {:induction false} PropagationUnique(g: Graph, self: map<Id, real>, ratios: Matrix, t1: map<Id, real>,
                                             t2: map<Id, real>, x: Id)
    requires Closed(g) && Acyclic(g) && OnCalls(g, ratios)
    requires g.Keys <= self.Keys && g.Keys <= t1.Keys && g.Keys <= t2.Keys
    requires Propagated(g, self, ratios, t1) && Propagated(g, self, ratios, t2)
    requires x in g
    ensures t1[x] == t2[x]
    decreases ReachSet(g, x)
  {
    hide Sum, Times, ReachSet, Acyclic, Reaches;
    forall y | y in Callees(g, x) ensures t1[y] == t2[y] {
      CalleeReachesLess(g, x, y);
      PropagationUnique(g, self, ratios, t1, t2, y);
    }
    SumSame(Callees(g, x), Shares(g, ratios, t1, x), Shares(g, ratios, t2, x));
  }

  // ---------- when time is conserved, for given self times ----------

  /** The call from x to y charges x for time of y: it has a positive count, or a zero count as have all others. */
  ghost predicate PassesTime(g: Graph, counts: Matrix, x: Id, y: Id) {
    Counted(counts, x, y) && (CallTotal(g, counts, y) == 0.0 || counts[x][y] > 0.0)
  }

  /** Neither x nor any function whose time it is charged for, directly or through others, has time of its own. */
  ghost predicate Idle(g: Graph, self: map<Id, real>, counts: Matrix, x: Id)
    requires Closed(g) && Acyclic(g) && g.Keys <= self.Keys && x in g
    decreases ReachSet(g, x)
  {
    && self[x] == 0.0
    && forall y | y in Callees(g, x) ::
        CalleeReachesLess(g, x, y); PassesTime(g, counts, x, y) ==> Idle(g, self, counts, y)
  }

  lemma RatioOfCall(g: Graph, counts: Matrix, ratios: Matrix, x: Id, y: Id)
    requires OnCalls(g, ratios) && RatiosOf(g, counts, ratios) && NonNegative(g, counts)
    requires x in g && y in Callees(g, x)
    ensures ratios[x][y] >= 0.0 && (ratios[x][y] == 0.0 <==> !PassesTime(g, counts, x, y))
  {
    hide Sum;
    var total, column := CallTotal(g, counts, y), CountColumn(g, counts, y);
    SumNonNegative(CountedCallers(g, counts, y), column);
    if Counted(counts, x, y) {
      assert x in CountedCallers(g, counts, y) && column[x] == counts[x][y];
      RatioSign(counts[x][y], total);
    }
  }

  lemma RatioSign(part: real, whole: real)
    requires 0.0 <= part <= whole
    ensures Ratio(part, whole) >= 0.0
    ensures Ratio(part, whole) == 0.0 <==> whole != 0.0 && part == 0.0
  {
    if whole > 0.0 {
      assert part / whole >= 0.0;
      assert part > 0.0 ==> part / whole > 0.0;
    }
  }

  lemma ShareIsZero(ratio: real, t: real)
    requires ratio >= 0.0 && t >= 0.0
    ensures Times(ratio, t) >= 0.0 && (Times(ratio, t) == 0.0 <==> ratio == 0.0 || t == 0.0)
  {
  }

  /** A function ends up without time exactly when it is idle, which can be told from the input. */
  lemma {:induction false} NoTimeIffIdle(g: Graph, self: map<Id, real>, counts: Matrix, ratios: Matrix,
                                         total: map<Id, real>, x: Id)
    requires Closed(g) && Acyclic(g) && OnCalls(g, ratios) && g.Keys <= self.Keys && g.Keys <= total.Keys
    requires RatiosOf(g, counts, ratios) && NonNegative(g, counts) && Propagated(g, self, ratios, total)
    requires x in g && forall y | y in g :: self[y] >= 0.0
    ensures total[x] >= 0.0 && (total[x] == 0.0 <==> Idle(g, self, counts, x))
    decreases ReachSet(g, x)
  {
    hide Sum, Times, Ratio, ReachSet, Acyclic, Reaches, PassesTime, RatiosOf, NonNegative;
    var shares := Shares(g, ratios, total, x);
    forall y | y in Callees(g, x)
      ensures shares[y] >= 0.0
      ensures shares[y] == 0.0 <==> (PassesTime(g, counts, x, y) ==> Idle(g, self, counts, y))
    {
      CalleeReachesLess(g, x, y);
      NoTimeIffIdle(g, self, counts, ratios, total, y);
      RatioOfCall(g, counts, ratios, x, y);
      ShareIsZero(ratios[x][y], total[y]);
    }
    SumNonNegative(Callees(g, x), shares);
  }

  /** Several calls of y carry a count, and all these counts are zero: each caller is charged for all of y. */
  ghost predicate ChargedRepeatedly(g: Graph, counts: Matrix, y: Id) {
    y in g && y !in Roots(g) && CallTotal(g, counts, y) == 0.0 && |CountedCallers(g, counts, y)| >= 2
  }

  /** y is called, but no call carries a count: no caller is charged. */
  ghost predicate NeverCharged(g: Graph, counts: Matrix, y: Id) {
    y in g && y !in Roots(g) && CountedCallers(g, counts, y) == {}
  }

  ghost predicate ChargedAtMostOnce(g: Graph, self: map<Id, real>, counts: Matrix)
    requires Closed(g) && Acyclic(g) && g.Keys <= self.Keys
  {
    forall y | y in g && ChargedRepeatedly(g, counts, y) :: Idle(g, self, counts, y)
  }

  ghost predicate ChargedAtLeastOnce(g: Graph, self: map<Id, real>, counts: Matrix)
    requires Closed(g) && Acyclic(g) && g.Keys <= self.Keys
  {
    forall y | y in g && NeverCharged(g, counts, y) :: Idle(g, self, counts, y)
  }

  lemma SurplusSign(g: Graph, counts: Matrix, ratios: Matrix, total: map<Id, real>, y: Id)
    requires OnCalls(g, ratios) && RatiosOf(g, counts, ratios) && NonNegative(g, counts)
    requires g.Keys <= total.Keys && y in g && y !in Roots(g) && total[y] >= 0.0
    ensures var s := Surplus(g, ratios, total)[y];
      if ChargedRepeatedly(g, counts, y) then s >= 0.0 && (s == 0.0 <==> total[y] == 0.0)
      else if NeverCharged(g, counts, y) then s <= 0.0 && (s == 0.0 <==> total[y] == 0.0)
      else s == 0.0
  {
    hide Sum, Times, CallTotal, Charged, RatiosOf, NonNegative, Roots;
    ChargedInFull(g, counts, ratios, y);
    var charged := Charged(g, ratios, y);
    CancelTimes(charged, total[y]);
    SurplusOf(charged, total[y]);
    assert |CountedCallers(g, counts, y)| == 0 <==> CountedCallers(g, counts, y) == {};
    if NeverCharged(g, counts, y) {
      NothingCounted(g, counts, y);
    }
  }

  lemma NothingCounted(g: Graph, counts: Matrix, y: Id)
    requires CountedCallers(g, counts, y) == {}
    ensures CallTotal(g, counts, y) == 0.0
  {
  }

  lemma SurplusOf(charged: real, t: real)
    requires t >= 0.0
    ensures charged >= 2.0 ==> Times(charged - 1.0, t) >= 0.0 && (Times(charged - 1.0, t) == 0.0 <==> t == 0.0)
    ensures charged == 0.0 ==> Times(charged - 1.0, t) == -t
  {
    if charged >= 2.0 {
      assert (charged - 1.0) * t == t + (charged - 2.0) * t;
    }
  }

  lemma SumNonPositive(s: set<Id>, v: map<Id, real>)
    requires s <= v.Keys && forall x | x in s :: v[x] <= 0.0
    ensures Sum(s, v) <= 0.0
    ensures Sum(s, v) == 0.0 <==> forall x | x in s :: v[x] == 0.0
  {
    var negated, zero := map x | x in s :: -v[x], map x | x in s :: 0.0;
    SumAdd(s, zero, v, negated);
    SumZero(s, zero);
    SumNonNegative(s, negated);
    forall x | x in s ensures v[x] == 0.0 <==> negated[x] == 0.0 {
    }
  }

  /** What the root functions carry, told from the call graph, the self times and the counts. */
  ghost predicate RootsTell(roots: real, all: real, atMost: bool, atLeast: bool) {
    && (atMost && atLeast ==> roots == all)
    && (!atMost && atLeast ==> roots > all)
    && (atMost && !atLeast ==> roots < all)
  }

  /** The roots carry exactly the self time when functions are charged once; if some are only charged too often, the
      roots carry more, and if some are only not charged, less. */
  lemma RootTimeExact(g: Graph, self: map<Id, real>, counts: Matrix, ratios: Matrix, total: map<Id, real>)
    requires Closed(g) && Acyclic(g) && OnCalls(g, ratios) && g.Keys <= self.Keys && g.Keys <= total.Keys
    requires RatiosOf(g, counts, ratios) && NonNegative(g, counts) && Propagated(g, self, ratios, total)
    requires forall y | y in g :: self[y] >= 0.0
    ensures RootsTell(Sum(Roots(g), total), Sum(g.Keys, self),
                      ChargedAtMostOnce(g, self, counts), ChargedAtLeastOnce(g, self, counts))
  {
    hide Sum, Times, Acyclic, Reaches, Surplus, Callers, RatiosOf, NonNegative, Propagated, Idle, CountedCallers,
         CallTotal, Roots;
    RootTime(g, self, ratios, total);
    var called, surplus := g.Keys - Roots(g), Surplus(g, ratios, total);
    forall y | y in called
      ensures if ChargedRepeatedly(g, counts, y) then
                surplus[y] >= 0.0 && (surplus[y] == 0.0 <==> Idle(g, self, counts, y))
              else if NeverCharged(g, counts, y) then
                surplus[y] <= 0.0 && (surplus[y] == 0.0 <==> Idle(g, self, counts, y))
              else surplus[y] == 0.0
    {
      NoTimeIffIdle(g, self, counts, ratios, total, y);
      SurplusSign(g, counts, ratios, total, y);
    }
    if ChargedAtLeastOnce(g, self, counts) {
      SumNonNegative(called, surplus);
    }
    if ChargedAtMostOnce(g, self, counts) {
      SumNonPositiveIf(called, surplus);
    }
  }

  lemma SumNonPositiveIf(s: set<Id>, v: map<Id, real>)
    requires s <= v.Keys
    ensures (forall x | x in s :: v[x] <= 0.0) ==>
      Sum(s, v) <= 0.0 && (Sum(s, v) == 0.0 <==> forall x | x in s :: v[x] == 0.0)
  {
    if forall x | x in s :: v[x] <= 0.0 {
      SumNonPositive(s, v);
    }
  }

  /** In particular when every call has a positive count. */
  lemma PositiveCountsChargeOnce(g: Graph, self: map<Id, real>, counts: Matrix)
    requires Closed(g) && Acyclic(g) && OnCalls(g, counts) && g.Keys <= self.Keys
    requires forall x, y | x in g && y in Callees(g, x) :: counts[x][y] > 0.0
    ensures EachChargedOnce(g, counts)
    ensures ChargedAtMostOnce(g, self, counts) && ChargedAtLeastOnce(g, self, counts)
  {
    hide Sum, Acyclic, Idle;
    forall y | y in g && y !in Roots(g) ensures CallTotal(g, counts, y) > 0.0 && CountedCallers(g, counts, y) != {} {
      var x :| x in Callers(g, y);
      assert y in Callees(g, x) && x in CountedCallers(g, counts, y);
      forall z | z in CountedCallers(g, counts, y) ensures CountColumn(g, counts, y)[z] > 0.0 {
        assert y in Callees(g, z);
      }
      SumNonNegative(CountedCallers(g, counts, y), CountColumn(g, counts, y));
      assert CountColumn(g, counts, y)[x] > 0.0;
    }
  }

  // ---------- when time is conserved, for all self times ----------

  /** Every called function has a positive count on some call, or a count on exactly one. */
  ghost predicate EachChargedOnce(g: Graph, counts: Matrix) {
    forall y | y in g && y !in Roots(g) :: !ChargedRepeatedly(g, counts, y) && !NeverCharged(g, counts, y)
  }

  ghost predicate Solution(g: Graph, self: map<Id, real>, ratios: Matrix, total: map<Id, real>)
    requires Closed(g) && OnCalls(g, ratios)
  {
    && self.Keys == total.Keys == g.Keys && (forall y | y in g :: self[y] >= 0.0)
    && Propagated(g, self, ratios, total)
  }

  ghost predicate AlwaysConserved(g: Graph, ratios: Matrix)
    requires Closed(g) && OnCalls(g, ratios)
  {
    forall self, total | Solution(g, self, ratios, total) :: Sum(Roots(g), total) == Sum(g.Keys, self)
  }

  /** The solution of the time equations on a call graph without cycles. */
  ghost function Solve(g: Graph, self: map<Id, real>, ratios: Matrix, x: Id): real
    requires Closed(g) && Acyclic(g) && OnCalls(g, ratios) && g.Keys <= self.Keys && x in g
    decreases ReachSet(g, x), 1
  {
    self[x] + Sum(Callees(g, x), SolveShares(g, self, ratios, x))
  }

  ghost function SolveShares(g: Graph, self: map<Id, real>, ratios: Matrix, x: Id): (m: map<Id, real>)
    requires Closed(g) && Acyclic(g) && OnCalls(g, ratios) && g.Keys <= self.Keys && x in g
    ensures m.Keys == Callees(g, x)
    decreases ReachSet(g, x), 0
  {
    map y | y in Callees(g, x) :: CalleeReachesLess(g, x, y); Times(ratios[x][y], Solve(g, self, ratios, y))
  }

  lemma SolveSolves(g: Graph, self: map<Id, real>, ratios: Matrix) returns (total: map<Id, real>)
    requires Closed(g) && Acyclic(g) && OnCalls(g, ratios) && g.Keys <= self.Keys
    ensures total.Keys == g.Keys && Propagated(g, self, ratios, total)
  {
    hide Sum, Times, Acyclic, ReachSet;
    total := map x | x in g :: Solve(g, self, ratios, x);
    forall x | x in g ensures total[x] == self[x] + Sum(Callees(g, x), Shares(g, ratios, total, x)) {
      assert Shares(g, ratios, total, x) == SolveShares(g, self, ratios, x);
    }
  }

  /** Only functions that reach y get time of y. */
  lemma {:induction false} NoTimeFrom(g: Graph, self: map<Id, real>, ratios: Matrix, total: map<Id, real>, y: Id, x: Id)
    requires Closed(g) && Acyclic(g) && OnCalls(g, ratios) && g.Keys <= self.Keys && g.Keys <= total.Keys
    requires Propagated(g, self, ratios, total) && forall z | z in g && z != y :: self[z] == 0.0
    requires x in g && !Reaches(g, x, y)
    ensures total[x] == 0.0
    decreases ReachSet(g, x)
  {
    hide Sum, ReachSet, Acyclic;
    ReachesSelf(g, x);
    hide Reaches;
    SharesWithoutTime(g, self, ratios, total, y, x);
    SumZero(Callees(g, x), Shares(g, ratios, total, x));
  }

  lemma {:induction false} SharesWithoutTime(g: Graph, self: map<Id, real>, ratios: Matrix, total: map<Id, real>,
                                             y: Id, x: Id)
    requires Closed(g) && Acyclic(g) && OnCalls(g, ratios) && g.Keys <= self.Keys && g.Keys <= total.Keys
    requires Propagated(g, self, ratios, total) && forall z | z in g && z != y :: self[z] == 0.0
    requires x in g && (x == y || !Reaches(g, x, y))
    ensures forall z | z in Callees(g, x) :: Shares(g, ratios, total, x)[z] == 0.0
    decreases ReachSet(g, x), 0
  {
    hide Sum, ReachSet, Acyclic, Reaches;
    forall z | z in Callees(g, x) ensures Shares(g, ratios, total, x)[z] == 0.0 {
      CalleeReachesLess(g, x, z);
      CalleeLacks(g, x, z, y);
      NoTimeFrom(g, self, ratios, total, y, z);
    }
  }

  lemma CalleeLacks(g: Graph, x: Id, z: Id, y: Id)
    requires Closed(g) && Acyclic(g) && x in g && z in Callees(g, x) && (x == y || !Reaches(g, x, y))
    ensures !Reaches(g, z, y)
  {
    hide Reaches;
    ReachesStep(g, x, z);
    assert Reaches(g, z, x) ==> z in Component(g, x);
    if Reaches(g, z, y) {
      ReachesTrans(g, x, z, y);
    }
  }

  ghost predicate NotChargedOnce(g: Graph, counts: Matrix, y: Id) {
    ChargedRepeatedly(g, counts, y) || NeverCharged(g, counts, y)
  }

  /** Of the functions that are not charged once, one that no other such function reaches. */
  lemma {:induction false} Topmost(g: Graph, counts: Matrix, y: Id) returns (t: Id)
    requires Acyclic(g) && NotChargedOnce(g, counts, y)
    ensures NotChargedOnce(g, counts, t)
    ensures forall z | NotChargedOnce(g, counts, z) && z != t :: !Reaches(g, z, t)
    decreases g.Keys - ReachSet(g, y)
  {
    hide ChargedRepeatedly, NeverCharged, Reaches, Acyclic;
    BadIsCalled(g, counts, y);
    if z :| NotChargedOnce(g, counts, z) && z != y && Reaches(g, z, y) {
      BadIsCalled(g, counts, z);
      ReachesLess(g, z, y);
      assert g.Keys - ReachSet(g, z) < g.Keys - ReachSet(g, y) by {
        var w :| w in ReachSet(g, z) && w !in ReachSet(g, y);
      }
      t := Topmost(g, counts, z);
    } else {
      t := y;
    }
  }

  lemma BadIsCalled(g: Graph, counts: Matrix, y: Id)
    requires NotChargedOnce(g, counts, y)
    ensures y in g && y !in Roots(g)
  {
  }

  /** When only y has time, and no other function that is not charged once gets any of it, time is not conserved. */
  lemma NotConserved(g: Graph, self: map<Id, real>, counts: Matrix, ratios: Matrix, total: map<Id, real>, y: Id)
    requires Closed(g) && Acyclic(g) && OnCalls(g, ratios) && self.Keys == total.Keys == g.Keys
    requires RatiosOf(g, counts, ratios) && NonNegative(g, counts) && Propagated(g, self, ratios, total)
    requires NotChargedOnce(g, counts, y) && y in g && self[y] == 1.0 && forall z | z in g && z != y :: self[z] == 0.0
    requires forall z | NotChargedOnce(g, counts, z) && z != y :: !Reaches(g, z, y)
    ensures Sum(Roots(g), total) != Sum(g.Keys, self)
  {
    hide Sum, Times, Acyclic, Reaches, Surplus, Callers, RatiosOf, NonNegative, Idle, CountedCallers, CallTotal,
         Roots, ChargedRepeatedly, NeverCharged;
    RootTime(g, self, ratios, total);
    BadIsCalled(g, counts, y);
    SharesWithoutTime(g, self, ratios, total, y, y);
    SumZero(Callees(g, y), Shares(g, ratios, total, y));
    hide Propagated;
    var called, surplus := g.Keys - Roots(g), Surplus(g, ratios, total);
    forall z | z in called && z != y ensures surplus[z] == 0.0 {
      if NotChargedOnce(g, counts, z) {
        NoTimeFrom(g, self, ratios, total, y, z);
        SurplusSign(g, counts, ratios, total, z);
      } else {
        NoSurplus(g, counts, ratios, total, z);
      }
    }
    SurplusSign(g, counts, ratios, total, y);
    SumSupport(called, {y}, surplus);
    SumOfOne(y, surplus);
  }

  lemma NoSurplus(g: Graph, counts: Matrix, ratios: Matrix, total: map<Id, real>, y: Id)
    requires OnCalls(g, ratios) && RatiosOf(g, counts, ratios) && NonNegative(g, counts)
    requires g.Keys <= total.Keys && y in g && y !in Roots(g) && !NotChargedOnce(g, counts, y)
    ensures Surplus(g, ratios, total)[y] == 0.0
  {
    hide Sum, Times, CallTotal, Charged, RatiosOf, NonNegative, Roots;
    ChargedInFull(g, counts, ratios, y);
    CancelTimes(Charged(g, ratios, y), total[y]);
    assert |CountedCallers(g, counts, y)| == 0 <==> CountedCallers(g, counts, y) == {};
  }

  /** Exactly which call graphs and counts conserve time whatever the self times are. */
  lemma ConservedIffChargedOnce(g: Graph, counts: Matrix, ratios: Matrix)
    requires Closed(g) && Acyclic(g) && OnCalls(g, ratios)
    requires RatiosOf(g, counts, ratios) && NonNegative(g, counts)
    ensures AlwaysConserved(g, ratios) <==> EachChargedOnce(g, counts)
  {
    hide Sum, Acyclic, RatiosOf, NonNegative, Surplus, ChargedRepeatedly, NeverCharged, Propagated, Reaches, Callers;
    if EachChargedOnce(g, counts) {
      forall self, total | Solution(g, self, ratios, total) ensures Sum(Roots(g), total) == Sum(g.Keys, self) {
        RootTime(g, self, ratios, total);
        forall y | y in g && y !in Roots(g) ensures Surplus(g, ratios, total)[y] == 0.0 {
          NoSurplus(g, counts, ratios, total, y);
        }
        SurplusKeys(g, ratios, total);
        SumZero(g.Keys - Roots(g), Surplus(g, ratios, total));
      }
    } else {
      var bad :| bad in g && bad !in Roots(g) && NotChargedOnce(g, counts, bad);
      var y := Topmost(g, counts, bad);
      BadIsCalled(g, counts, y);
      var self := map z | z in g :: if z == y then 1.0 else 0.0;
      var total := SolveSolves(g, self, ratios);
      NotConserved(g, self, counts, ratios, total, y);
      assert Solution(g, self, ratios, total);
    }
  }

  lemma SurplusKeys(g: Graph, ratios: Matrix, total: map<Id, real>)
    requires OnCalls(g, ratios) && g.Keys <= total.Keys
    ensures Surplus(g, ratios, total).Keys == g.Keys - Roots(g)
  {
  }

  // ---------- profiles on which time is not conserved ----------

  /** Function a calls b, without a count, and only b has time of its own: the root carries nothing. */
  lemma LostTime(a: Id, b: Id) returns (self: map<Id, real>, counts: Matrix, ratios: Matrix, total: map<Id, real>)
    requires a != b
    ensures var g := map[a := {b}, b := {}];
      && Closed(g) && Acyclic(g) && OnCalls(g, ratios) && g.Keys <= self.Keys && g.Keys <= total.Keys
      && RatiosOf(g, counts, ratios) && NonNegative(g, counts) && Propagated(g, self, ratios, total)
      && (forall y | y in g :: !ChargedRepeatedly(g, counts, y))
      && Sum(g.Keys, self) == 1.0 && Sum(Roots(g), total) == 0.0
  {
    var g: Graph := map[a := {b}, b := {}];
    self, total := map[a := 0.0, b := 1.0], map[a := 0.0, b := 1.0];
    counts, ratios := map[a := map[], b := map[]], map[a := map[b := 0.0], b := map[]];
    OneCallAcyclic(a, b);
    OneCallShape(a, b, counts);
    assert Propagated(g, self, ratios, total) by {
      hide Sum, Callers, Roots, Acyclic;
      SumOfOne(b, Shares(g, ratios, total, a));
      SumOfNone(Shares(g, ratios, total, b));
    }
    hide *;
    SumOfOne(a, total);
    SumOfTwo(a, b, self);
  }

  lemma OneCallAcyclic(a: Id, b: Id)
    requires a != b
    ensures Closed(map[a := {b}, b := {}]) && Acyclic(map[a := {b}, b := {}])
  {
    var g: Graph := map[a := {b}, b := {}];
    forall x | x in g ensures Component(g, x) == {x} {
      ReachesSelf(g, x);
      if Reaches(g, b, a) {
        ClosedSetKeepsReachable(g, {b}, b, a);
      }
    }
  }

  lemma OneCallShape(a: Id, b: Id, counts: Matrix)
    requires a != b && counts == map[a := map[], b := map[]]
    ensures var g: Graph := map[a := {b}, b := {}];
      && g.Keys == {a, b} && Roots(g) == {a} && Callees(g, a) == {b} && Callees(g, b) == {}
      && forall y :: CountedCallers(g, counts, y) == {}
  {
    var g: Graph := map[a := {b}, b := {}];
    assert a in Callers(g, b) && Callers(g, a) == {};
  }

  /** Functions a and b call c, both with a count of zero, and only c has time of its own. */
  ghost function TwoCallers(a: Id, b: Id, c: Id): Graph {
    map[a := {c}, b := {c}, c := {}]
  }

  lemma TwoCallersAcyclic(a: Id, b: Id, c: Id)
    requires a != b && a != c && b != c
    ensures Closed(TwoCallers(a, b, c)) && Acyclic(TwoCallers(a, b, c))
  {
    var g := TwoCallers(a, b, c);
    ClosedSetOfC(a, b, c);
    forall x | x in g ensures Component(g, x) == {x} {
      ReachesSelf(g, x);
      forall y | y in g && y != x ensures y !in Component(g, x) {
        if y == c {
          assert !Reaches(g, c, x);
        } else {
          NobodyCalls(a, b, c, y, x);
        }
      }
    }
  }

  lemma ClosedSetOfC(a: Id, b: Id, c: Id)
    requires a != b && a != c && b != c
    ensures forall y | y != c :: !Reaches(TwoCallers(a, b, c), c, y)
  {
    var g := TwoCallers(a, b, c);
    forall y | Reaches(g, c, y) ensures y == c {
      ClosedSetKeepsReachable(g, {c}, c, y);
    }
  }

  lemma NobodyCalls(a: Id, b: Id, c: Id, y: Id, x: Id)
    requires a != b && a != c && b != c && (y == a || y == b) && x != y && x in TwoCallers(a, b, c)
    ensures !Reaches(TwoCallers(a, b, c), x, y)
  {
    var g := TwoCallers(a, b, c);
    if Reaches(g, x, y) {
      ClosedSetKeepsReachable(g, {x, c}, x, y);
    }
  }

  lemma TwoCallersShape(a: Id, b: Id, c: Id)
    requires a != b && a != c && b != c
    ensures var g := TwoCallers(a, b, c);
      && g.Keys == {a, b, c} && Roots(g) == {a, b} && Callers(g, c) == {a, b}
      && Callees(g, a) == {c} && Callees(g, b) == {c} && Callees(g, c) == {}
  {
    var g := TwoCallers(a, b, c);
    assert c in Callees(g, a) && c in Callees(g, b);
    forall y | y in g ensures y in Roots(g) <==> y in {a, b} {
      assert y != c ==> Callers(g, y) == {};
      assert a in Callers(g, c);
    }
  }

  /** A table with the same value on both calls. */
  ghost function OnBothCalls(a: Id, b: Id, c: Id, v: real): Matrix {
    map[a := map[c := v], b := map[c := v], c := map[]]
  }

  lemma BothRatiosAreOne(a: Id, b: Id, c: Id)
    requires a != b && a != c && b != c
    ensures var g, counts, ratios := TwoCallers(a, b, c), OnBothCalls(a, b, c, 0.0), OnBothCalls(a, b, c, 1.0);
      OnCalls(g, counts) && OnCalls(g, ratios) && RatiosOf(g, counts, ratios) && NonNegative(g, counts)
  {
    var g, counts := TwoCallers(a, b, c), OnBothCalls(a, b, c, 0.0);
    TwoCallersShape(a, b, c);
    hide Sum, Callers, Roots;
    forall x, y | x in g && y in Callees(g, x) ensures y == c && (x == a || x == b) {
    }
    assert CallTotal(g, counts, c) == 0.0 by {
      assert CountedCallers(g, counts, c) == {a, b};
      var column := CountColumn(g, counts, c);
      assert column[a] == 0.0 && column[b] == 0.0;
      SumOfTwo(a, b, column);
    }
  }

  lemma BothGetTheTime(a: Id, b: Id, c: Id, self: map<Id, real>, total: map<Id, real>)
    requires a != b && a != c && b != c
    requires self == map[a := 0.0, b := 0.0, c := 1.0] && total == map[a := 1.0, b := 1.0, c := 1.0]
    ensures var g, ratios := TwoCallers(a, b, c), OnBothCalls(a, b, c, 1.0);
      Closed(g) && OnCalls(g, ratios) && g.Keys <= self.Keys && g.Keys <= total.Keys
          && Propagated(g, self, ratios, total)
  {
    var g, ratios := TwoCallers(a, b, c), OnBothCalls(a, b, c, 1.0);
    TwoCallersShape(a, b, c);
    TwoCallersAcyclic(a, b, c);
    hide Sum, Callers, Roots, Acyclic;
    SumOfOne(c, Shares(g, ratios, total, a));
    SumOfOne(c, Shares(g, ratios, total, b));
    SumOfNone(Shares(g, ratios, total, c));
  }

  /** There the root functions carry twice the self time. */
  lemma ChargedTwice(a: Id, b: Id, c: Id) returns (self: map<Id, real>, counts: Matrix, ratios: Matrix,
                     total: map<Id, real>)
    requires a != b && a != c && b != c
    ensures var g := TwoCallers(a, b, c);
      && Closed(g) && Acyclic(g) && OnCalls(g, counts) && OnCalls(g, ratios)
      && g.Keys <= self.Keys && g.Keys <= total.Keys
      && RatiosOf(g, counts, ratios) && NonNegative(g, counts) && Propagated(g, self, ratios, total)
      && Sum(g.Keys, self) == 1.0 && Sum(Roots(g), total) == 2.0
  {
    self, total := map[a := 0.0, b := 0.0, c := 1.0], map[a := 1.0, b := 1.0, c := 1.0];
    counts, ratios := OnBothCalls(a, b, c, 0.0), OnBothCalls(a, b, c, 1.0);
    TwoCallersAcyclic(a, b, c);
    BothRatiosAreOne(a, b, c);
    BothGetTheTime(a, b, c, self, total);
    TwoCallersShape(a, b, c);
    hide *;
    SumOfTwo(a, b, total);
    SumOfThree(a, b, c, self);
  }

  lemma SumOfThree(a: Id, b: Id, c: Id, v: map<Id, real>)
    requires a != b && a != c && b != c && a in v && b in v && c in v
    ensures Sum({a, b, c}, v) == v[a] + v[b] + v[c]
  {
    SumPick({a, b, c}, v, c);
    assert {a, b, c} - {c} == {a, b};
    SumOfTwo(a, b, v);
  }

  lemma SumOfNone(v: map<Id, real>)
    ensures Sum({}, v) == 0.0
  {
  }

  lemma SumOfOne(a: Id, v: map<Id, real>)
    requires a in v
    ensures Sum({a}, v) == v[a]
  {
    SumPick({a}, v, a);
    assert {a} - {a} == {};
  }

  lemma SumOfTwo(a: Id, b: Id, v: map<Id, real>)
    requires a != b && a in v && b in v
    ensures Sum({a, b}, v) == v[a] + v[b]
  {
    SumPick({a, b}, v, a);
    assert {a, b} - {a} == {b};
    SumOfOne(b, v);
  }
}
