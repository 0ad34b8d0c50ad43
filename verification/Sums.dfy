/** Finite sums of reals over sets of function ids. */
module Sums {
  import opened Digraph

  ghost function Sum(s: set<Id>, v: map<Id, real>): real
    requires s <= v.Keys
  {
    if s == {} then 0.0 else
      var x :| x in s;
      v[x] + Sum(s - {x}, v)
  }

  lemma {:induction false} SumPick(s: set<Id>, v: map<Id, real>, x: Id)
    requires x in s && s <= v.Keys
    ensures Sum(s, v) == v[x] + Sum(s - {x}, v)
    decreases s
  {
    var y :| y in s && Sum(s, v) == v[y] + Sum(s - {y}, v);
    if y != x {
      SumPick(s - {y}, v, x);
      SumPick(s - {x}, v, y);
      assert s - {y} - {x} == s - {x} - {y};
    }
  }

  lemma {:induction false} SumSame(s: set<Id>, v: map<Id, real>, w: map<Id, real>)
    requires s <= v.Keys && s <= w.Keys
    requires forall x | x in s :: v[x] == w[x]
    ensures Sum(s, v) == Sum(s, w)
    decreases s
  {
    if s != {} {
      var x :| x in s;
      SumPick(s, v, x);
      SumPick(s, w, x);
      SumSame(s - {x}, v, w);
    }
  }

  lemma {:induction false} SumAdd(s: set<Id>, u: map<Id, real>, v: map<Id, real>, w: map<Id, real>)
    requires s <= u.Keys && s <= v.Keys && s <= w.Keys
    requires forall x | x in s :: u[x] == v[x] + w[x]
    ensures Sum(s, u) == Sum(s, v) + Sum(s, w)
    decreases s
  {
    if s != {} {
      var x :| x in s;
      SumPick(s, u, x);
      SumPick(s, v, x);
      SumPick(s, w, x);
      SumAdd(s - {x}, u, v, w);
    }
  }

  lemma {:induction false} SumUnion(s: set<Id>, t: set<Id>, v: map<Id, real>)
    requires s !! t && s + t <= v.Keys
    ensures Sum(s + t, v) == Sum(s, v) + Sum(t, v)
    decreases s
  {
    if s == {} {
      assert s + t == t;
    } else {
      var x :| x in s;
      SumPick(s, v, x);
      SumPick(s + t, v, x);
      assert s + t - {x} == (s - {x}) + t;
      SumUnion(s - {x}, t, v);
    }
  }

  /** Multiplication under a name, so that proofs can keep products apart from sums. */
  function Times(a: real, b: real): real {
    a * b
  }

  lemma TimesAdd(a: real, b: real, c: real)
    ensures Times(a + b, c) == Times(a, c) + Times(b, c)
    ensures Times(1.0 - a, c) + Times(a, c) == c
    ensures Times(0.0, c) == 0.0
  {
  }

  lemma {:induction false} SumScale(s: set<Id>, v: map<Id, real>, w: map<Id, real>, c: real)
    requires s <= v.Keys && s <= w.Keys
    requires forall x | x in s :: w[x] == Times(v[x], c)
    ensures Sum(s, w) == Times(Sum(s, v), c)
    decreases s
  {
    hide Times;
    if s == {} {
      TimesAdd(0.0, 0.0, c);
    } else {
      var x :| x in s;
      SumPick(s, v, x);
      SumPick(s, w, x);
      SumScale(s - {x}, v, w, c);
      TimesAdd(v[x], Sum(s - {x}, v), c);
    }
  }

  /** Entries that are zero may be left out of a sum. */
  lemma {:induction false} SumSupport(s: set<Id>, t: set<Id>, v: map<Id, real>)
    requires t <= s <= v.Keys
    requires forall x | x in s - t :: v[x] == 0.0
    ensures Sum(s, v) == Sum(t, v)
    decreases s
  {
    if s <= t {
      assert s == t;
    } else {
      var x :| x in s && x !in t;
      SumPick(s, v, x);
      SumSupport(s - {x}, t, v);
    }
  }

  lemma {:induction false} SumNonNegative(s: set<Id>, v: map<Id, real>)
    requires s <= v.Keys && forall x | x in s :: v[x] >= 0.0
    ensures Sum(s, v) >= 0.0
    ensures Sum(s, v) == 0.0 <==> forall x | x in s :: v[x] == 0.0
    ensures forall x | x in s :: v[x] <= Sum(s, v)
    decreases s
  {
    if s != {} {
      var x :| x in s;
      SumPick(s, v, x);
      SumNonNegative(s - {x}, v);
      assert forall y | y in s :: y == x || y in s - {x};
    }
  }

  lemma SumZero(s: set<Id>, v: map<Id, real>)
    requires s <= v.Keys && forall x | x in s :: v[x] == 0.0
    ensures Sum(s, v) == 0.0
  {
    SumSupport(s, {}, v);
  }

  /** A table with one row for each caller. */
  type Matrix = map<Id, map<Id, real>>

  ghost predicate Covers(m: Matrix, s: set<Id>, t: set<Id>) {
    s <= m.Keys && forall x, y | x in s && y in t :: y in m[x]
  }

  ghost function Column(m: Matrix, s: set<Id>, y: Id): map<Id, real>
    requires s <= m.Keys && forall x | x in s :: y in m[x]
  {
    map x | x in s :: m[x][y]
  }

  ghost function RowSums(m: Matrix, s: set<Id>, t: set<Id>): (r: map<Id, real>)
    requires Covers(m, s, t)
    ensures r.Keys == s
  {
    map x | x in s :: Sum(t, m[x])
  }

  ghost function ColumnSums(m: Matrix, s: set<Id>, t: set<Id>): (r: map<Id, real>)
    requires Covers(m, s, t)
    ensures r.Keys == t
  {
    map y | y in t :: Sum(s, Column(m, s, y))
  }

  lemma PeelRow(m: Matrix, s: set<Id>, t: set<Id>, x: Id)
    requires Covers(m, s, t) && x in s
    ensures Sum(s, RowSums(m, s, t)) == Sum(t, m[x]) + Sum(s - {x}, RowSums(m, s - {x}, t))
  {
    hide Sum;
    SumPick(s, RowSums(m, s, t), x);
    SumSame(s - {x}, RowSums(m, s, t), RowSums(m, s - {x}, t));
  }

  lemma PeelColumns(m: Matrix, s: set<Id>, t: set<Id>, x: Id)
    requires Covers(m, s, t) && x in s
    ensures Sum(t, ColumnSums(m, s, t)) == Sum(t, m[x]) + Sum(t, ColumnSums(m, s - {x}, t))
  {
    hide Sum;
    forall y | y in t ensures ColumnSums(m, s, t)[y] == m[x][y] + ColumnSums(m, s - {x}, t)[y] {
      SumPick(s, Column(m, s, y), x);
      SumSame(s - {x}, Column(m, s, y), Column(m, s - {x}, y));
    }
    SumAdd(t, ColumnSums(m, s, t), m[x], ColumnSums(m, s - {x}, t));
  }

  /** Adding up a table by rows or by columns gives the same total. */
  lemma {:induction false} SumSwap(m: Matrix, s: set<Id>, t: set<Id>)
    requires Covers(m, s, t)
    ensures Sum(s, RowSums(m, s, t)) == Sum(t, ColumnSums(m, s, t))
    decreases s
  {
    if s == {} {
      SumZero(t, ColumnSums(m, s, t));
    } else {
      hide Sum;
      var x :| x in s;
      PeelRow(m, s, t, x);
      SumSwap(m, s - {x}, t);
      PeelColumns(m, s, t, x);
    }
  }
}
