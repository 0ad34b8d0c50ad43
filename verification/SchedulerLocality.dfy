/** The locality-aware scheduler: at most one thread per core, and every interval the threads that have run least. */
module SchedulerLocality {
  import opened Helpers

  /** What a thread object holds. */
  datatype Slot = Slot(core: Option<nat>, runnable: bool, unscheduled: bool, score: int, metricLast: int)

  type Slots = map<nat, Slot>

  // ---------- cores and threads, on values ----------

  predicate Increasing(cores: seq<nat>) {
    forall i, j | 0 <= i < j < |cores| :: cores[i] < cores[j]
  }

  ghost predicate OwnCores(m: Slots) {
    forall a, b | a in m && b in m && a != b && m[a].core.Some? :: m[a].core != m[b].core
  }

  /** At most one thread per core, and only runnable threads on cores. */
  ghost predicate Apart(cores: seq<nat>, m: Slots) {
    OwnCores(m) && forall a | a in m && m[a].core.Some? :: m[a].runnable && m[a].core.value in cores
  }

  /** Moreover the cores in use were given to starting threads before, and until every core has been, there are no
      more threads than cores given out. */
  ghost predicate Inv(cores: seq<nat>, lastCore: nat, m: Slots) {
    && Increasing(cores) && lastCore <= |cores| && Apart(cores, m)
    && (forall a | a in m && m[a].core.Some? :: m[a].core.value in cores[..lastCore])
    && (lastCore < |cores| ==> |m| <= lastCore)
  }

  ghost function Runnable(m: Slots): set<nat> {
    set a | a in m && m[a].runnable
  }

  ghost function Running(m: Slots): set<nat> {
    set a | a in m && m[a].core.Some?
  }

  ghost function CoresOf(m: Slots, threads: set<nat>): set<nat>
    requires threads <= Running(m)
  {
    set a | a in threads :: m[a].core.value
  }

  /** As many cores are in use as threads use them. */
  lemma {:induction false} CountCores(m: Slots, threads: set<nat>)
    requires threads <= Running(m) && OwnCores(m)
    ensures |CoresOf(m, threads)| == |threads|
    decreases |threads|
  {
    if threads != {} {
      var a :| a in threads;
      CountCores(m, threads - {a});
      assert CoresOf(m, threads) == CoresOf(m, threads - {a}) + {m[a].core.value};
      assert m[a].core.value !in CoresOf(m, threads - {a});
    }
  }

  function SetOf(cores: seq<nat>): set<nat> {
    set c | c in cores
  }

  lemma {:induction false} CountIncreasing(cores: seq<nat>)
    requires Increasing(cores)
    ensures |SetOf(cores)| == |cores|
  {
    if cores != [] {
      var n := |cores| - 1;
      CountIncreasing(cores[..n]);
      assert SetOf(cores) == SetOf(cores[..n]) + {cores[n]};
    }
  }

  /** Some thread is on the core. */
  ghost predicate InUse(m: Slots, c: nat) {
    exists a :: a in m && m[a].core == Some(c)
  }

  ghost predicate FreeCore(cores: seq<nat>, m: Slots, c: nat) {
    c in cores && !InUse(m, c)
  }

  /** The lowest core that is not in use. */
  ghost predicate LowestFree(cores: seq<nat>, m: Slots, c: nat) {
    FreeCore(cores, m, c) && forall d | d in cores && d < c :: InUse(m, d)
  }

  /** While cores are left that were never given out, the lowest free core is one that was. */
  lemma LowestFreeWasGiven(cores: seq<nat>, lastCore: nat, m: Slots, t: nat, c: nat)
    requires Inv(cores, lastCore, m) && t in m && m[t].core.None? && LowestFree(cores, m, c)
    ensures c in cores[..lastCore]
  {
    if lastCore < |cores| && c !in cores[..lastCore] {
      var k :| 0 <= k < |cores| && cores[k] == c;
      forall d | d in cores[..lastCore] ensures d in CoresOf(m, Running(m)) {
        var j :| 0 <= j < lastCore && cores[j] == d;
        assert InUse(m, d);
        var a :| a in m && m[a].core == Some(d);
        assert a in Running(m);
      }
      CountIncreasing(cores[..lastCore]);
      SubsetSize(SetOf(cores[..lastCore]), CoresOf(m, Running(m)));
      CountCores(m, Running(m));
      assert Running(m) <= m.Keys - {t};
      SubsetSize(Running(m), m.Keys - {t});
    }
  }

  // ---------- one interval ----------

  ghost function Ids(news: seq<nat>): set<nat> {
    set a | a in news
  }

  ghost function Kept(m: Slots, selected: set<nat>): set<nat> {
    selected * Running(m)
  }

  /** Which threads are to run, which of them have no core yet, and which cores no kept thread is on. */
  ghost predicate Plan(cores: seq<nat>, m: Slots, selected: set<nat>, news: seq<nat>, free: seq<nat>) {
    && Increasing(cores)
    && selected <= Runnable(m) && |selected| == Min(|Runnable(m)|, |cores|)
    && Ids(news) == selected - Running(m) && |Ids(news)| == |news|
    && Increasing(free) && SetOf(free) == SetOf(cores) - CoresOf(m, Kept(m, selected))
  }

  /** There is a free core for every new thread. */
  lemma EnoughFree(cores: seq<nat>, m: Slots, selected: set<nat>, news: seq<nat>, free: seq<nat>)
    requires Plan(cores, m, selected, news, free)
    ensures |news| <= |free|
  {
    var kept := Kept(m, selected);
    CoresAtMost(m, kept);
    CountIncreasing(cores);
    CountIncreasing(free);
    hide Increasing, CoresOf, SetOf, Runnable, Running;
    SplitSize(selected, kept, Ids(news));
    SubsetSize(SetOf(cores), SetOf(free) + CoresOf(m, kept));
    assert |SetOf(free) + CoresOf(m, kept)| <= |SetOf(free)| + |CoresOf(m, kept)|;
  }

  lemma {:induction false} CoresAtMost(m: Slots, threads: set<nat>)
    requires threads <= Running(m)
    ensures |CoresOf(m, threads)| <= |threads|
    decreases |threads|
  {
    if threads != {} {
      var a :| a in threads;
      CoresAtMost(m, threads - {a});
      assert CoresOf(m, threads) == CoresOf(m, threads - {a}) + {m[a].core.value};
    }
  }

  lemma PlanCounts(cores: seq<nat>, m: Slots, selected: set<nat>, news: seq<nat>, free: seq<nat>)
    requires Plan(cores, m, selected, news, free) && Apart(cores, m)
    ensures |selected| == |Kept(m, selected)| + |news|
    ensures |free| == |cores| - |Kept(m, selected)|
    ensures |news| <= |free|
  {
    var kept := Kept(m, selected);
    CountCores(m, kept);
    CountIncreasing(cores);
    CountIncreasing(free);
    KeptInCores(cores, m, kept);
    hide Apart, Increasing, CoresOf, OwnCores, SetOf, Runnable, Running;
    SplitSize(selected, kept, Ids(news));
    SplitSize(SetOf(cores), CoresOf(m, kept), SetOf(free));
  }

  lemma InvFacts(cores: seq<nat>, lastCore: nat, m: Slots)
    requires Inv(cores, lastCore, m)
    ensures Increasing(cores) && lastCore <= |cores| && Apart(cores, m)
  {
  }

  lemma KeptInCores(cores: seq<nat>, m: Slots, kept: set<nat>)
    requires kept <= Running(m) && forall a | a in m && m[a].core.Some? :: m[a].core.value in cores
    ensures CoresOf(m, kept) <= SetOf(cores)
  {
  }

  lemma SplitSize<T>(whole: set<T>, a: set<T>, b: set<T>)
    requires a <= whole && b == whole - a
    ensures |whole| == |a| + |b|
  {
    assert whole == a + b;
  }

  /** While cores are left that were never given out, the cores handed to new threads are among those that were. */
  lemma FreeWereGiven(cores: seq<nat>, lastCore: nat, m: Slots, selected: set<nat>, news: seq<nat>, free: seq<nat>,
                      j: nat)
    requires Plan(cores, m, selected, news, free) && Inv(cores, lastCore, m) && j < |news|
    ensures j < |free| && free[j] in cores[..lastCore]
  {
    InvFacts(cores, lastCore, m);
    PlanCounts(cores, m, selected, news, free);
    assert free[j] in SetOf(free);
    if free[j] !in cores[..lastCore] {
      var kept := Kept(m, selected);
      var used := CoresOf(m, kept);
      var given := SetOf(cores[..lastCore]);
      GivenComeFirst(cores, lastCore, used, free, j);
      CountIncreasing(cores[..lastCore]);
      CountIncreasing(free[..j]);
      CountCores(m, kept);
      hide Inv, Plan, Increasing, Kept, CoresOf, Ids;
      SubsetSize(given - used, SetOf(free[..j]));
      SubsetSize(given, (given - used) + used);
      SubsetSize(selected, m.Keys);
    }
  }

  lemma GivenComeFirst(cores: seq<nat>, lastCore: nat, used: set<nat>, free: seq<nat>, j: nat)
    requires Increasing(cores) && Increasing(free) && lastCore <= |cores| && SetOf(free) == SetOf(cores) - used
    requires j < |free| && free[j] !in cores[..lastCore]
    ensures SetOf(cores[..lastCore]) - used <= SetOf(free[..j]) && lastCore < |cores|
  {
    assert free[j] in SetOf(free);
    forall c | c in SetOf(cores[..lastCore]) - used ensures c in SetOf(free[..j]) {
      GivenIsLower(cores, lastCore, c, free[j]);
      assert c in SetOf(free);
      var k :| 0 <= k < |free| && free[k] == c;
      assert k < j;
    }
    var k :| 0 <= k < |cores| && cores[k] == free[j];
  }

  lemma GivenIsLower(cores: seq<nat>, lastCore: nat, c: nat, d: nat)
    requires Increasing(cores) && lastCore <= |cores| && c in cores[..lastCore] && d in cores && d !in cores[..lastCore]
    ensures c < d && lastCore < |cores|
  {
    var i :| 0 <= i < lastCore && cores[i] == c;
    var j :| 0 <= j < |cores| && cores[j] == d;
    assert cores[..lastCore][i] == c;
  }

  ghost predicate Moved(m: Slots, m': Slots, news: seq<nat>, free: seq<nat>, i: nat) {
    && i <= |news| <= |free| && m'.Keys == m.Keys
    && forall a | a in m :: m'[a] == m[a].(core := m'[a].core) && CoreIs(m, m', news, free, i, a)
  }

  ghost predicate CoreIs(m: Slots, m': Slots, news: seq<nat>, free: seq<nat>, i: nat, a: nat)
    requires a in m && a in m' && i <= |news| <= |free|
  {
    && (forall j | 0 <= j < i && news[j] == a :: m'[a].core == Some(free[j]))
    && (a !in news[..i] && m[a].core.Some? && m[a].core.value in free[..i] ==> m'[a].core.None?)
    && (a !in news[..i] && !(m[a].core.Some? && m[a].core.value in free[..i]) ==> m'[a].core == m[a].core)
  }

  lemma DistinctNews(news: seq<nat>)
    requires |Ids(news)| == |news|
    ensures forall i, j | 0 <= i < j < |news| :: news[i] != news[j]
  {
    if exists i, j :: 0 <= i < j < |news| && news[i] == news[j] {
      var i, j :| 0 <= i < j < |news| && news[i] == news[j];
      var fewer := news[..j] + news[j + 1..];
      forall a | a in news ensures a in fewer {
        var k :| 0 <= k < |news| && news[k] == a;
        if k < j {
          assert fewer[k] == a;
        } else if k > j {
          assert fewer[k - 1] == a;
        } else {
          assert fewer[i] == a;
        }
      }
      assert Ids(news) <= Ids(fewer);
      SubsetSize(Ids(news), Ids(fewer));
      IdsAtMost(fewer);
    }
  }

  lemma {:induction false} IdsAtMost(news: seq<nat>)
    ensures |Ids(news)| <= |news|
  {
    if news != [] {
      IdsAtMost(news[1..]);
      assert Ids(news) == Ids(news[1..]) + {news[0]};
    }
  }

  lemma MoveOneAt(m: Slots, m1: Slots, m2: Slots, news: seq<nat>, free: seq<nat>, i: nat, a: nat)
    requires i < |news| <= |free| && a in m && a in m1 && a in m2 && CoreIs(m, m1, news, free, i, a)
    requires forall j, k | 0 <= j < k < |news| :: news[j] != news[k]
    requires Increasing(free)
    requires news[..i + 1] == news[..i] + [news[i]] && free[..i + 1] == free[..i] + [free[i]]
    requires a in news ==> m[a].core.None?
    requires a == news[i] ==> m2[a].core == Some(free[i])
    requires a != news[i] ==> m2[a].core == if m1[a].core == Some(free[i]) then None else m1[a].core
    ensures CoreIs(m, m2, news, free, i + 1, a)
  {
    if a != news[i] && a in news[..i] {
      var j :| 0 <= j < i && news[j] == a;
      assert free[j] < free[i];
    }
  }

  /** One new thread moves to one free core; who was on that core leaves it. */
  lemma MoveOne(m: Slots, m1: Slots, m2: Slots, news: seq<nat>, free: seq<nat>, i: nat)
    requires i < |news| && Moved(m, m1, news, free, i) && |Ids(news)| == |news| && Increasing(free)
    requires forall a | a in news :: a in m && m[a].core.None?
    requires m2.Keys == m.Keys
    requires m2[news[i]] == m1[news[i]].(core := Some(free[i]))
    requires forall a | a in m && a != news[i] && m1[a].core == Some(free[i]) :: m2[a] == m1[a].(core := None)
    requires forall a | a in m && a != news[i] && m1[a].core != Some(free[i]) :: m2[a] == m1[a]
    ensures Moved(m, m2, news, free, i + 1)
  {
    hide CoreIs;
    DistinctNews(news);
    assert news[..i + 1] == news[..i] + [news[i]];
    assert free[..i + 1] == free[..i] + [free[i]];
    forall a | a in m ensures m2[a] == m[a].(core := m2[a].core) && CoreIs(m, m2, news, free, i + 1, a) {
      assert CoreIs(m, m1, news, free, i, a);
      hide Increasing;
      MoveOneAt(m, m1, m2, news, free, i, a);
    }
  }

  /** Once every new thread has moved, exactly the selected threads run. */
  lemma AllMoved(cores: seq<nat>, m: Slots, m': Slots, selected: set<nat>, news: seq<nat>, free: seq<nat>)
    requires Plan(cores, m, selected, news, free) && Apart(cores, m) && Moved(m, m', news, free, |news|)
    ensures Apart(cores, m') && Running(m') == selected
  {
    hide FinalCore, Plan, Apart, CoreIs, Running;
    AllFinal(cores, m, m', selected, news, free);
    SelectedKnown(cores, m, selected, news, free);
    FinalRunning(m, m', selected, news, free);
    FinalApart(cores, m, m', selected, news, free);
  }

  lemma AllFinal(cores: seq<nat>, m: Slots, m': Slots, selected: set<nat>, news: seq<nat>, free: seq<nat>)
    requires Plan(cores, m, selected, news, free) && Apart(cores, m) && Moved(m, m', news, free, |news|)
    ensures forall a | a in m :: FinalCore(m, m', selected, news, free, a)
  {
    hide Plan, Apart, CoreIs, FinalCore;
    forall a | a in m ensures FinalCore(m, m', selected, news, free, a) {
      CoreInTheEnd(cores, m, m', selected, news, free, a);
    }
  }

  lemma SelectedKnown(cores: seq<nat>, m: Slots, selected: set<nat>, news: seq<nat>, free: seq<nat>)
    requires Plan(cores, m, selected, news, free)
    ensures selected <= m.Keys
  {
  }

  /** Who was running and is selected stays on its core. */
  lemma FinalKept(cores: seq<nat>, m: Slots, m': Slots, selected: set<nat>, news: seq<nat>, free: seq<nat>)
    requires Plan(cores, m, selected, news, free) && Apart(cores, m) && Moved(m, m', news, free, |news|)
    ensures forall a | a in Kept(m, selected) :: m'[a].core == m[a].core
  {
    AllFinal(cores, m, m', selected, news, free);
    forall a | a in Kept(m, selected) ensures m'[a].core == m[a].core {
      assert FinalCore(m, m', selected, news, free, a);
      assert a !in Ids(news);
    }
  }

  lemma FinalRunning(m: Slots, m': Slots, selected: set<nat>, news: seq<nat>, free: seq<nat>)
    requires m'.Keys == m.Keys && selected <= m.Keys && |news| <= |free|
    requires forall a | a in m :: FinalCore(m, m', selected, news, free, a)
    ensures Running(m') == selected
  {
    forall a | a in m ensures a in Running(m') <==> a in selected {
      assert FinalCore(m, m', selected, news, free, a);
    }
  }

  lemma FinalApart(cores: seq<nat>, m: Slots, m': Slots, selected: set<nat>, news: seq<nat>, free: seq<nat>)
    requires Plan(cores, m, selected, news, free) && Apart(cores, m) && |news| <= |free| && m'.Keys == m.Keys
    requires forall a | a in m :: FinalCore(m, m', selected, news, free, a)
    requires forall a | a in m :: m'[a].runnable == m[a].runnable
    ensures Apart(cores, m')
  {
    forall a | a in m && m'[a].core.Some? ensures m'[a].core.value in cores && m'[a].runnable {
      assert FinalCore(m, m', selected, news, free, a);
      FinalCoreIsCore(cores, m, m', selected, news, free, a);
    }
    forall a, b | a in m && b in m && a != b && m'[a].core.Some? ensures m'[a].core != m'[b].core {
      assert FinalCore(m, m', selected, news, free, a);
      assert FinalCore(m, m', selected, news, free, b);
      FinalCoresDiffer(cores, m, m', selected, news, free, a, b);
    }
    hide FinalCore;
  }

  lemma FinalCoreIsCore(cores: seq<nat>, m: Slots, m': Slots, selected: set<nat>, news: seq<nat>, free: seq<nat>,
                        a: nat)
    requires Plan(cores, m, selected, news, free) && Apart(cores, m) && |news| <= |free| && a in m && a in m'
    requires FinalCore(m, m', selected, news, free, a) && m'[a].core.Some?
    ensures m'[a].core.value in cores && m[a].runnable
  {
    if a in Ids(news) {
      var j :| 0 <= j < |news| && news[j] == a && m'[a].core == Some(free[j]);
      assert free[j] in SetOf(free);
    }
  }

  /** The cores that were given out before suffice. */
  lemma MovedKeepsInv(cores: seq<nat>, lastCore: nat, m: Slots, m': Slots, selected: set<nat>, news: seq<nat>,
                      free: seq<nat>)
    requires Plan(cores, m, selected, news, free) && Inv(cores, lastCore, m) && Moved(m, m', news, free, |news|)
    ensures Inv(cores, lastCore, m')
  {
    InvFacts(cores, lastCore, m);
    AllMoved(cores, m, m', selected, news, free);
    AllFinal(cores, m, m', selected, news, free);
    forall a | a in m && m'[a].core.Some? ensures m'[a].core.value in cores[..lastCore] {
      assert FinalCore(m, m', selected, news, free, a);
      if a in Ids(news) {
        var j :| 0 <= j < |news| && news[j] == a && m'[a].core == Some(free[j]);
        FreeWereGiven(cores, lastCore, m, selected, news, free, j);
      }
    }
    assert |m'| == |m'.Keys| == |m.Keys|;
  }

  /** Where a thread is in the end: on a free core, where it was, or nowhere. */
  ghost predicate FinalCore(m: Slots, m': Slots, selected: set<nat>, news: seq<nat>, free: seq<nat>, a: nat)
    requires a in m && a in m' && |news| <= |free|
  {
    if a in Ids(news) then a in selected && exists j :: 0 <= j < |news| && news[j] == a && m'[a].core == Some(free[j])
    else if a in Kept(m, selected) then a in selected && m'[a].core == m[a].core && m[a].core.Some?
    else m'[a].core.None? && a !in selected
  }

  lemma CoreInTheEnd(cores: seq<nat>, m: Slots, m': Slots, selected: set<nat>, news: seq<nat>, free: seq<nat>, a: nat)
    requires Plan(cores, m, selected, news, free) && Apart(cores, m) && Moved(m, m', news, free, |news|) && a in m
    ensures FinalCore(m, m', selected, news, free, a)
  {
    assert CoreIs(m, m', news, free, |news|, a);
    assert news[..|news|] == news;
    if a in Ids(news) {
      var j :| 0 <= j < |news| && news[j] == a;
      assert m'[a].core == Some(free[j]);
    } else if a in Kept(m, selected) {
      KeptCoreIsNotFree(cores, m, selected, news, free, a);
    } else if a in Running(m) {
      OthersCoreIsTaken(cores, m, selected, news, free, a);
    }
  }

  lemma KeptCoreIsNotFree(cores: seq<nat>, m: Slots, selected: set<nat>, news: seq<nat>, free: seq<nat>, a: nat)
    requires Plan(cores, m, selected, news, free) && a in Kept(m, selected)
    ensures m[a].core.value !in free
  {
    assert m[a].core.value in CoresOf(m, Kept(m, selected));
    assert m[a].core.value !in SetOf(free);
  }

  /** A running thread that is not selected loses its core: then every free core is taken. */
  lemma OthersCoreIsTaken(cores: seq<nat>, m: Slots, selected: set<nat>, news: seq<nat>, free: seq<nat>, a: nat)
    requires Plan(cores, m, selected, news, free) && Apart(cores, m) && a in Running(m) && a !in selected
    ensures |news| <= |free| && m[a].core.value in free[..|news|]
  {
    OwnCoreOnly(m, Kept(m, selected), a);
    assert a in Runnable(m);
    assert m[a].core.value in SetOf(free);
    NoFreeLeft(cores, m, selected, news, free);
    assert free[..|news|] == free;
  }

  lemma NoFreeLeft(cores: seq<nat>, m: Slots, selected: set<nat>, news: seq<nat>, free: seq<nat>)
    requires Plan(cores, m, selected, news, free) && Apart(cores, m) && Runnable(m) != selected
    ensures |news| == |free|
  {
    hide Apart, Increasing, CoresOf, Kept, Ids, Runnable, SetOf;
    PlanCounts(cores, m, selected, news, free);
    SplitSize(Runnable(m), selected, Runnable(m) - selected);
    assert Runnable(m) - selected != {};
  }

  lemma OwnCoreOnly(m: Slots, threads: set<nat>, a: nat)
    requires OwnCores(m) && threads <= Running(m) && a in Running(m) && a !in threads
    ensures m[a].core.value !in CoresOf(m, threads)
  {
    forall b | b in threads ensures m[b].core.value != m[a].core.value {
      assert m[a].core != m[b].core;
    }
  }

  lemma FinalCoresDiffer(cores: seq<nat>, m: Slots, m': Slots, selected: set<nat>, news: seq<nat>, free: seq<nat>,
                         a: nat, b: nat)
    requires Plan(cores, m, selected, news, free) && Apart(cores, m) && |news| <= |free|
    requires a in m && b in m && a in m' && b in m' && a != b
    requires FinalCore(m, m', selected, news, free, a) && FinalCore(m, m', selected, news, free, b) && m'[a].core.Some?
    ensures m'[a].core != m'[b].core
  {
    if a in Kept(m, selected) {
      KeptCoreIsNotFree(cores, m, selected, news, free, a);
    }
    if b in Kept(m, selected) {
      KeptCoreIsNotFree(cores, m, selected, news, free, b);
    }
  }

  // ---------- the scheduler ----------

  /** The slot after updateScore: what the metric gained is added to the score. */
  function Updated(s: Slot, now: int): Slot {
    s.(score := s.score + now - s.metricLast, metricLast := now)
  }

  /** The slot after setCore: a thread that leaves its core has its score updated. */
  function WithCore(s: Slot, core: Option<nat>, now: int): Slot {
    if core.None? then Updated(s.(core := core), now) else s.(core := core)
  }

  /** The started thread is on the next core, if one is left. */
  ghost predicate Started(cores: seq<nat>, lastCore: nat, m: Slots, lastCore': nat, m': Slots, t: nat, now: int) {
    if lastCore < |cores| then
      lastCore' == lastCore + 1 && m' == m[t := WithCore(NEW_SLOT, Some(cores[lastCore]), now)]
    else
      lastCore' == lastCore && m' == m[t := WithCore(NEW_SLOT, None, now)]
  }

  const NEW_SLOT := Slot(None, true, false, 0, 0)

  function Stalled(m: Slots, t: nat, now: int): Slots
    requires t in m
  {
    m[t := WithCore(m[t], None, now).(runnable := false)]
  }

  /** The threads that could run but are on no core. */
  ghost function Ready(m: Slots): set<nat> {
    set a | a in m && m[a].runnable && m[a].core.None?
  }

  /** The ready thread with the least score, if there is one, has been put on the core. */
  ghost predicate Placed(m: Slots, m': Slots, core: Option<nat>, next: nat, metric: nat -> int) {
    if Ready(m) == {} then m' == m
    else
      && next in Ready(m) && (forall b | b in Ready(m) :: m[next].score <= m[b].score)
      && m' == m[next := WithCore(m[next], core, metric(next))]
  }

  ghost predicate StalledFor(m: Slots, m': Slots, t: nat, next: nat, metric: nat -> int) {
    t in m && Placed(Stalled(m, t, metric(t)), m', m[t].core, next, metric)
  }

  ghost predicate LeastScore(m: Slots, low: int) {
    (exists a :: a in m && m[a].score == low) && (forall a | a in m :: low <= m[a].score)
  }

  function Resumed(s: Slot, score: int, core: Option<nat>, now: int): Slot {
    s.(score := score, metricLast := now, runnable := true, core := core)
  }

  /** The resumed thread is on some free core, if there is one; nothing else has changed. */
  ghost predicate ResumedFor(cores: seq<nat>, m: Slots, m': Slots, t: nat, low: int, now: int) {
    && t in m && m'.Keys == m.Keys && LeastScore(m, low)
    && m' == m[t := Resumed(m[t], low, m'[t].core, now)]
    && if exists c :: FreeCore(cores, m, c) then m'[t].core.Some? && FreeCore(cores, m, m'[t].core.value)
       else m'[t].core == m[t].core
  }

  lemma ResumedCore(s: Slot, score: int, core: Option<nat>, now: int)
    ensures Resumed(s, score, core, now).core == core
  {
  }

  function ScoredSlot(s: Slot, now: int): Slot {
    if s.core.Some? then Updated(s, now) else s
  }

  /** What the threads hold once the scores of running threads are up to date. */
  function Scored(m: Slots, metric: nat -> int): Slots {
    map a | a in m :: ScoredSlot(m[a], metric(a))
  }

  /** Moving to the core disturbs at most one thread, and that thread's score is up to date. */
  ghost predicate MayTake(m: Slots, c: nat, metric: nat -> int) {
    && (forall a, b | a in m && b in m && m[a].core == Some(c) && m[b].core == Some(c) :: a == b)
    && (forall a | a in m && m[a].core == Some(c) :: m[a].metricLast == metric(a))
  }

  ghost predicate Taken(m: Slots, m': Slots, t: nat, c: nat) {
    && t in m && m'.Keys == m.Keys && m'[t] == m[t].(core := Some(c))
    && (forall a | a in m && a != t && m[a].core == Some(c) :: m'[a] == m[a].(core := None))
    && (forall a | a in m && a != t && m[a].core != Some(c) :: m'[a] == m[a])
  }

  /** id is a thread on core c, if there is one. */
  ghost predicate OnCore(m: Slots, id: Option<nat>, c: nat) {
    if id.Some? then id.value in m && m[id.value].core == Some(c) else forall a | a in m :: m[a].core != Some(c)
  }

  /** A thread leaves core c, then another one takes it. */
  lemma TakenInTurn(m: Slots, id: Option<nat>, t: nat, c: nat, metric: nat -> int)
    requires t in m && OnCore(m, id, c)
    ensures var m1 := if id.Some? then m[id.value := WithCore(m[id.value], None, metric(id.value))] else m;
      m[t].core.None? && MayTake(m, c, metric) ==> Taken(m, m1[t := WithCore(m1[t], Some(c), metric(t))], t, c)
  {
  }

  /** After an interval exactly the selected threads run; a thread that ran and still runs has kept its core; and
      nothing but the cores has changed. */
  ghost predicate Rescheduled(cores: seq<nat>, m: Slots, m': Slots) {
    && m'.Keys == m.Keys && (forall a | a in m :: m'[a] == m[a].(core := m'[a].core))
    && Selected(cores, m, Running(m'))
    && (forall a | a in Running(m) * Running(m') :: m'[a].core == m[a].core)
  }

  lemma ScoresKeepCores(m: Slots, metric: nat -> int)
    requires OwnCores(m)
    ensures OwnCores(Scored(m, metric))
  {
  }

  lemma NothingMoved(m: Slots, news: seq<nat>, free: seq<nat>)
    requires |news| <= |free|
    ensures Moved(m, m, news, free, 0)
  {
  }

  lemma MayTakeNext(cores: seq<nat>, before: Slots, m: Slots, m1: Slots, metric: nat -> int,
                    selected: set<nat>, news: seq<nat>, free: seq<nat>, i: nat)
    requires m == Scored(before, metric) && Plan(cores, m, selected, news, free) && OwnCores(m)
    requires Moved(m, m1, news, free, i) && i < |news|
    ensures MayTake(m1, free[i], metric) && news[i] in m1 && m1[news[i]].core.None?
  {
    PlanNews(cores, m, selected, news, free);
    hide Plan, CoreIs, OwnCores, Increasing, Scored, MayTake;
    OnCoreUnmoved(m, m1, news, free, i);
    MayTakeUnmoved(before, m, m1, metric, free[i]);
    assert CoreIs(m, m1, news, free, i, news[i]);
    NotMovedYet(m, m1, news, free, i);
  }

  lemma OnCoreUnmoved(m: Slots, m1: Slots, news: seq<nat>, free: seq<nat>, i: nat)
    requires Moved(m, m1, news, free, i) && i < |news| && Increasing(free)
    ensures forall a | a in m && m1[a].core == Some(free[i]) :: m1[a] == m[a]
  {
    hide CoreIs, Increasing;
    forall a | a in m && m1[a].core == Some(free[i]) ensures m1[a] == m[a] {
      assert CoreIs(m, m1, news, free, i, a);
      StillThere(m, m1, news, free, i, a);
    }
  }

  lemma MayTakeUnmoved(before: Slots, m: Slots, m1: Slots, metric: nat -> int, c: nat)
    requires m == Scored(before, metric) && m1.Keys == m.Keys && OwnCores(m)
    requires forall a | a in m && m1[a].core == Some(c) :: m1[a] == m[a]
    ensures MayTake(m1, c, metric)
  {
  }

  lemma PlanNews(cores: seq<nat>, m: Slots, selected: set<nat>, news: seq<nat>, free: seq<nat>)
    requires Plan(cores, m, selected, news, free)
    ensures forall j, k | 0 <= j < k < |news| :: news[j] != news[k]
    ensures forall j | 0 <= j < |news| :: news[j] in m && m[news[j]].core.None?
    ensures Increasing(free)
  {
    DistinctNews(news);
    forall j | 0 <= j < |news| ensures news[j] in m && m[news[j]].core.None? {
      assert news[j] in Ids(news);
    }
  }

  lemma StillThere(m: Slots, m1: Slots, news: seq<nat>, free: seq<nat>, i: nat, a: nat)
    requires i < |news| <= |free| && a in m && a in m1 && CoreIs(m, m1, news, free, i, a)
    requires m1[a].core == Some(free[i]) && Increasing(free)
    ensures m1[a].core == m[a].core
  {
  }

  lemma NotMovedYet(m: Slots, m1: Slots, news: seq<nat>, free: seq<nat>, i: nat)
    requires i < |news| <= |free| && news[i] in m && news[i] in m1 && CoreIs(m, m1, news, free, i, news[i])
    requires m[news[i]].core.None? && forall j, k | 0 <= j < k < |news| :: news[j] != news[k]
    ensures m1[news[i]].core.None?
  {
  }

  lemma NextMoved(cores: seq<nat>, m: Slots, m1: Slots, m2: Slots, selected: set<nat>, news: seq<nat>,
                  free: seq<nat>, i: nat)
    requires Plan(cores, m, selected, news, free) && Moved(m, m1, news, free, i) && i < |news|
    requires Taken(m1, m2, news[i], free[i])
    ensures Moved(m, m2, news, free, i + 1)
  {
    assert forall a | a in news :: a in Ids(news);
    MoveOne(m, m1, m2, news, free, i);
  }

  /** The threads that ran least, as many as there are cores, and where they went: kept threads stay, the others take
      the free cores from the lowest on. */
  ghost predicate IntervalStep(cores: seq<nat>, m: Slots, m': Slots) {
    exists selected, news, free :: IntervalBy(cores, m, m', selected, news, free)
  }

  ghost predicate IntervalBy(cores: seq<nat>, m: Slots, m': Slots, selected: set<nat>, news: seq<nat>, free: seq<nat>) {
    Plan(cores, m, selected, news, free) && Selected(cores, m, selected) && Moved(m, m', news, free, |news|)
  }

  lemma IntervalByReschedules(cores: seq<nat>, m: Slots, m': Slots, selected: set<nat>, news: seq<nat>, free: seq<nat>)
    requires IntervalBy(cores, m, m', selected, news, free) && Apart(cores, m)
    ensures Apart(cores, m') && Rescheduled(cores, m, m')
  {
    MovedShape(m, m', news, free);
    hide Selected, Apart, Plan, Moved, Running;
    AllMoved(cores, m, m', selected, news, free);
    FinalKept(cores, m, m', selected, news, free);
    assert Kept(m, selected) == Running(m) * Running(m');
  }

  lemma IntervalReschedules(cores: seq<nat>, m: Slots, m': Slots)
    requires IntervalStep(cores, m, m') && Apart(cores, m)
    ensures Apart(cores, m') && Rescheduled(cores, m, m')
  {
    hide IntervalBy, Rescheduled, Apart;
    var selected, news, free :| IntervalBy(cores, m, m', selected, news, free);
    IntervalByReschedules(cores, m, m', selected, news, free);
  }

  lemma MovedShape(m: Slots, m': Slots, news: seq<nat>, free: seq<nat>)
    requires Moved(m, m', news, free, |news|)
    ensures m'.Keys == m.Keys && forall a | a in m :: m'[a] == m[a].(core := m'[a].core)
  {
  }

  lemma PlanIs(cores: seq<nat>, m: Slots, selected: set<nat>, news: seq<nat>, free: seq<nat>)
    requires Increasing(cores) && Selected(cores, m, selected)
    requires Ids(news) == selected - Running(m) && |Ids(news)| == |news|
    requires Increasing(free) && SetOf(free) == SetOf(cores) - CoresOf(m, Kept(m, selected))
    ensures Plan(cores, m, selected, news, free)
  {
    hide Ids, Increasing, SetOf, CoresOf, Kept;
  }

  lemma ScoredIs(m: Slots, m': Slots, metric: nat -> int)
    requires m'.Keys == m.Keys && forall a | a in m :: m'[a] == ScoredSlot(m[a], metric(a))
    ensures m' == Scored(m, metric)
  {
  }

  lemma SetAppend(s: seq<nat>, c: nat)
    ensures SetOf(s + [c]) == SetOf(s) + {c}
  {
  }

  // ---------- runs of hooks ----------

  datatype State = State(lastCore: nat, m: Slots)

  /** The hooks, with what they choose; Flag is a stall or resume that only notes that a thread was (un)scheduled. */
  datatype Hook =
    | Start(t: nat)
    | Stall(t: nat, next: nat)
    | Resume(t: nat, low: int)
    | Flag(t: nat, unscheduled: bool)
    | Interval

  /** What the methods of the scheduler ensure, as a relation between states. */
  ghost predicate HookStep(cores: seq<nat>, s: State, h: Hook, metric: nat -> int, s': State) {
    match h
    case Start(t) => Started(cores, s.lastCore, s.m, s'.lastCore, s'.m, t, metric(t))
    case Stall(t, next) => s'.lastCore == s.lastCore && StalledFor(s.m, s'.m, t, next, metric)
    case Resume(t, low) => s'.lastCore == s.lastCore && ResumedFor(cores, s.m, s'.m, t, low, metric(t))
    case Flag(t, unscheduled) =>
      s'.lastCore == s.lastCore && t in s.m && s'.m == s.m[t := s.m[t].(unscheduled := unscheduled)]
    case Interval => s'.lastCore == s.lastCore && IntervalStep(cores, Scored(s.m, metric), s'.m)
  }

  /** Before a start: no other thread is on the core that comes next. */
  ghost predicate NextCoreFree(cores: seq<nat>, s: State, t: nat) {
    s.lastCore < |cores| ==> forall a | a in s.m && a != t :: s.m[a].core != Some(cores[s.lastCore])
  }

  lemma StartKeepsApart(cores: seq<nat>, s: State, t: nat, metric: nat -> int, s': State)
    requires Apart(cores, s.m) && HookStep(cores, s, Start(t), metric, s')
    ensures Apart(cores, s'.m) <==> NextCoreFree(cores, s, t)
  {
    if s.lastCore < |cores| && Apart(cores, s'.m) {
      forall a | a in s.m && a != t ensures s.m[a].core != Some(cores[s.lastCore]) {
        assert s'.m[a] == s.m[a] && s'.m[t].core == Some(cores[s.lastCore]);
        assert s'.m[a].core.Some? ==> s'.m[a].core != s'.m[t].core;
      }
    }
  }

  lemma StallKeepsApart(cores: seq<nat>, s: State, t: nat, next: nat, metric: nat -> int, s': State)
    requires Apart(cores, s.m) && HookStep(cores, s, Stall(t, next), metric, s')
    ensures Apart(cores, s'.m)
  {
    var m1 := Stalled(s.m, t, metric(t));
    StalledApart(cores, s.m, t, metric(t));
    hide Apart, WithCore;
    if Ready(m1) != {} {
      PlacedApart(cores, m1, s.m[t].core, next, WithCore(m1[next], s.m[t].core, metric(next)));
    }
  }

  lemma StalledApart(cores: seq<nat>, m: Slots, t: nat, now: int)
    requires Apart(cores, m) && t in m
    ensures Apart(cores, Stalled(m, t, now)) && Stalled(m, t, now).Keys == m.Keys
    ensures m[t].core.Some? ==> FreeCore(cores, Stalled(m, t, now), m[t].core.value)
  {
    var m1 := Stalled(m, t, now);
    assert forall a | a in m1 && a != t :: m1[a] == m[a];
  }

  lemma PlacedApart(cores: seq<nat>, m: Slots, core: Option<nat>, t: nat, slot: Slot)
    requires Apart(cores, m) && t in m && m[t].runnable && slot.runnable && slot.core == core
    requires core.Some? ==> FreeCore(cores, m, core.value)
    ensures Apart(cores, m[t := slot])
  {
    assert core.Some? ==> forall a | a in m :: m[a].core != core;
  }

  lemma ResumeKeepsApart(cores: seq<nat>, s: State, t: nat, low: int, metric: nat -> int, s': State)
    requires Apart(cores, s.m) && HookStep(cores, s, Resume(t, low), metric, s')
    ensures Apart(cores, s'.m) && s'.m.Keys == s.m.Keys
    ensures forall a | a in s.m && a != t :: s'.m[a] == s.m[a]
  {
    hide LeastScore;
    assert s'.m[t].core == s.m[t].core || s'.m[t].core.Some?;
    if s'.m[t].core.Some? && s'.m[t].core != s.m[t].core {
      assert FreeCore(cores, s.m, s'.m[t].core.value);
      assert forall a | a in s.m :: s.m[a].core != s'.m[t].core;
    }
  }

  lemma IntervalKeepsApart(cores: seq<nat>, s: State, metric: nat -> int, s': State)
    requires Apart(cores, s.m) && HookStep(cores, s, Interval, metric, s')
    ensures Apart(cores, s'.m) && Rescheduled(cores, Scored(s.m, metric), s'.m)
  {
    hide IntervalStep, Rescheduled;
    assert Apart(cores, Scored(s.m, metric));
    IntervalReschedules(cores, Scored(s.m, metric), s'.m);
  }

  /** Every hook keeps threads apart, and a start does so exactly when the core it hands out is not in use. */
  lemma HookKeepsApart(cores: seq<nat>, s: State, h: Hook, metric: nat -> int, s': State)
    requires Apart(cores, s.m) && HookStep(cores, s, h, metric, s')
    ensures Apart(cores, s'.m) <==> (h.Start? ==> NextCoreFree(cores, s, h.t))
  {
    match h
    case Start(t) => StartKeepsApart(cores, s, t, metric, s');
    case Stall(t, next) => StallKeepsApart(cores, s, t, next, metric, s');
    case Resume(t, low) => ResumeKeepsApart(cores, s, t, low, metric, s');
    case Flag(_, _) =>
    case Interval => IntervalKeepsApart(cores, s, metric, s');
  }

  // ---------- cores that were given out before ----------

  lemma StartKeepsInv(cores: seq<nat>, s: State, t: nat, metric: nat -> int, s': State)
    requires Inv(cores, s.lastCore, s.m) && HookStep(cores, s, Start(t), metric, s')
    ensures NextCoreFree(cores, s, t) && Inv(cores, s'.lastCore, s'.m)
  {
    if s.lastCore < |cores| {
      NextIsNew(cores, s.lastCore);
      assert NextCoreFree(cores, s, t);
      assert s'.m.Keys == s.m.Keys + {t};
    }
    StartKeepsApart(cores, s, t, metric, s');
  }

  lemma NextIsNew(cores: seq<nat>, lastCore: nat)
    requires Increasing(cores) && lastCore < |cores|
    ensures cores[lastCore] !in cores[..lastCore] && cores[..lastCore + 1] == cores[..lastCore] + [cores[lastCore]]
  {
  }

  lemma StallKeepsInv(cores: seq<nat>, s: State, t: nat, next: nat, metric: nat -> int, s': State)
    requires Inv(cores, s.lastCore, s.m) && HookStep(cores, s, Stall(t, next), metric, s')
    ensures Inv(cores, s'.lastCore, s'.m)
  {
    StallKeepsApart(cores, s, t, next, metric, s');
    var m1 := Stalled(s.m, t, metric(t));
    hide Apart;
    assert m1.Keys == s.m.Keys;
    assert s'.m.Keys == m1.Keys;
    assert |s'.m| == |s'.m.Keys| == |s.m.Keys|;
    assert forall a | a in m1 && a != t :: m1[a] == s.m[a];
  }

  /** A resumed thread may have any free core; it fits if and only if that core was given out before. */
  lemma ResumeKeepsInvIff(cores: seq<nat>, s: State, t: nat, low: int, metric: nat -> int, s': State)
    requires Inv(cores, s.lastCore, s.m) && HookStep(cores, s, Resume(t, low), metric, s')
    ensures t in s'.m
    ensures Inv(cores, s'.lastCore, s'.m)
       <==> (s'.m[t].core.Some? ==> s'.m[t].core.value in cores[..s.lastCore])
  {
    ResumeKeepsApart(cores, s, t, low, metric, s');
    hide Apart, LeastScore;
    assert |s'.m| == |s'.m.Keys| == |s.m.Keys|;
  }

  lemma IntervalKeepsInv(cores: seq<nat>, s: State, metric: nat -> int, s': State)
    requires Inv(cores, s.lastCore, s.m) && HookStep(cores, s, Interval, metric, s')
    ensures Inv(cores, s'.lastCore, s'.m)
  {
    var m := Scored(s.m, metric);
    hide Inv, IntervalBy, Scored;
    ScoresKeepInv(cores, s.lastCore, s.m, metric);
    var selected, news, free :| IntervalBy(cores, m, s'.m, selected, news, free);
    IntervalByKeepsInv(cores, s.lastCore, m, s'.m, selected, news, free);
  }

  lemma ScoresKeepInv(cores: seq<nat>, lastCore: nat, m: Slots, metric: nat -> int)
    requires Inv(cores, lastCore, m)
    ensures Inv(cores, lastCore, Scored(m, metric))
  {
    var m' := Scored(m, metric);
    assert m'.Keys == m.Keys;
    assert |m'| == |m'.Keys| == |m.Keys|;
    assert forall a | a in m :: m'[a].core == m[a].core && m'[a].runnable == m[a].runnable;
    hide Scored, ScoredSlot;
  }

  lemma IntervalByKeepsInv(cores: seq<nat>, lastCore: nat, m: Slots, m': Slots,
                           selected: set<nat>, news: seq<nat>, free: seq<nat>)
    requires Inv(cores, lastCore, m) && IntervalBy(cores, m, m', selected, news, free)
    ensures Inv(cores, lastCore, m')
  {
    hide Inv, Plan, Selected, Moved;
    MovedKeepsInv(cores, lastCore, m, m', selected, news, free);
  }

  /** Exactly which hooks keep the stronger invariant: all but a resume on a core that was never given out. */
  lemma HookKeepsInv(cores: seq<nat>, s: State, h: Hook, metric: nat -> int, s': State)
    requires Inv(cores, s.lastCore, s.m) && HookStep(cores, s, h, metric, s')
    ensures h.Resume? ==> h.t in s'.m
    ensures Inv(cores, s'.lastCore, s'.m)
       <==> (h.Resume? && s'.m[h.t].core.Some? ==> s'.m[h.t].core.value in cores[..s.lastCore])
  {
    match h
    case Start(t) => StartKeepsInv(cores, s, t, metric, s');
    case Stall(t, next) => StallKeepsInv(cores, s, t, next, metric, s');
    case Resume(t, low) => ResumeKeepsInvIff(cores, s, t, low, metric, s');
    case Flag(t, _) =>
      assert |s'.m| == |s'.m.Keys| == |s.m.Keys|;
    case Interval => IntervalKeepsInv(cores, s, metric, s');
  }

  /** If resumed threads always took the lowest free core, that would be so: a thread that stalled finds a core that
      was given out before. */
  lemma LowestCoreKeepsInv(cores: seq<nat>, s: State, t: nat, low: int, metric: nat -> int, s': State)
    requires Inv(cores, s.lastCore, s.m) && HookStep(cores, s, Resume(t, low), metric, s')
    requires t in s.m && s.m[t].core.None?
    requires t in s'.m && (s'.m[t].core.Some? ==> LowestFree(cores, s.m, s'.m[t].core.value))
    ensures Inv(cores, s'.lastCore, s'.m)
  {
    hide Inv, LowestFree;
    if s'.m[t].core.Some? {
      LowestFreeWasGiven(cores, s.lastCore, s.m, t, s'.m[t].core.value);
    }
    ResumeKeepsInvIff(cores, s, t, low, metric, s');
  }

  datatype Run = Run(states: seq<State>, hooks: seq<Hook>, metrics: seq<nat -> int>)

  ghost predicate HookAt(cores: seq<nat>, run: Run, i: nat) {
    i < |run.hooks| && i < |run.metrics| && i + 1 < |run.states|
    && HookStep(cores, run.states[i], run.hooks[i], run.metrics[i], run.states[i + 1])
  }

  ghost predicate IsRun(cores: seq<nat>, run: Run) {
    && |run.states| == |run.hooks| + 1 == |run.metrics| + 1 && run.states[0] == State(0, map[])
    && forall i: nat {:trigger HookAt(cores, run, i)} | i < |run.hooks| :: HookAt(cores, run, i)
  }

  /** The resumed thread, if any, went to a core that was given out before. */
  ghost predicate TakesGivenCore(cores: seq<nat>, run: Run, i: nat)
    requires i < |run.hooks| && i + 1 < |run.states|
  {
    var h, s, s' := run.hooks[i], run.states[i], run.states[i + 1];
    h.Resume? && h.t in s'.m && s'.m[h.t].core.Some? && s.lastCore <= |cores|
    ==> s'.m[h.t].core.value in cores[..s.lastCore]
  }

  /** Over every run whose resumed threads find cores that were given out before, at most one thread is on a core. */
  lemma {:induction false} RunStaysApart(cores: seq<nat>, run: Run, i: nat)
    requires Increasing(cores) && IsRun(cores, run) && i <= |run.hooks|
    requires forall j: nat | j < i :: TakesGivenCore(cores, run, j)
    ensures Inv(cores, run.states[i].lastCore, run.states[i].m) && Apart(cores, run.states[i].m)
  {
    hide HookStep;
    if i > 0 {
      RunStaysApart(cores, run, i - 1);
      assert HookAt(cores, run, i - 1) && TakesGivenCore(cores, run, i - 1);
      InvFacts(cores, run.states[i - 1].lastCore, run.states[i - 1].m);
      hide Inv;
      HookKeepsInv(cores, run.states[i - 1], run.hooks[i - 1], run.metrics[i - 1], run.states[i]);
      InvFacts(cores, run.states[i].lastCore, run.states[i].m);
    }
  }

  // ---------- when it goes wrong ----------

  /** A thread sits on a core that is still to be given out, n places ahead: the n-th start after this one doubles
      it. */
  lemma {:induction false} StartsDouble(cores: seq<nat>, run: seq<State>, ids: seq<nat>, metric: nat -> int, t: nat)
    requires |run| == |ids| + 1 && ids != []
    requires forall i | 0 <= i < |ids| :: HookStep(cores, run[i], Start(ids[i]), metric, run[i + 1]) && ids[i] != t
    requires run[0].lastCore + |ids| <= |cores| && t in run[0].m
    requires run[0].m[t].core == Some(cores[run[0].lastCore + |ids| - 1])
    ensures var m := run[|ids|].m;
      t in m && ids[|ids| - 1] in m && m[ids[|ids| - 1]].core == m[t].core && !OwnCores(m)
    decreases |ids|
  {
    assert HookStep(cores, run[0], Start(ids[0]), metric, run[1]);
    if |ids| > 1 {
      assert forall i | 0 <= i < |ids| - 1 :: run[1..][i] == run[i + 1] && ids[1..][i] == ids[i + 1];
      StartsDouble(cores, run[1..], ids[1..], metric, t);
    }
  }

  lemma NobodyReady(m: Slots)
    requires forall a | a in m :: !m[a].runnable
    ensures Ready(m) == {}
  {
  }

  lemma StallAlone(cores: seq<nat>, s: State, t: nat, metric: nat -> int)
    requires s.m.Keys == {t}
    ensures HookStep(cores, s, Stall(t, t), metric, State(s.lastCore, Stalled(s.m, t, metric(t))))
  {
    NobodyReady(Stalled(s.m, t, metric(t)));
    hide Ready, Stalled;
  }

  lemma ResumeOn(cores: seq<nat>, s: State, t: nat, c: nat, metric: nat -> int)
    requires s.m.Keys == {t} && s.m[t].core.None? && c in cores
    ensures var slot := Resumed(s.m[t], s.m[t].score, Some(c), metric(t));
      HookStep(cores, s, Resume(t, s.m[t].score), metric, State(s.lastCore, s.m[t := slot]))
  {
    assert FreeCore(cores, s.m, c);
    assert t in s.m;
  }

  lemma StartOn(cores: seq<nat>, s: State, t: nat, metric: nat -> int)
    requires s.lastCore < |cores|
    ensures var slot := WithCore(NEW_SLOT, Some(cores[s.lastCore]), metric(t));
      HookStep(cores, s, Start(t), metric, State(s.lastCore + 1, s.m[t := slot]))
  {
  }

  const AT_ZERO: nat -> int := t => 0

  lemma StartStallResume() returns (s1: State, s2: State, s3: State)
    ensures HookStep([1, 8], State(0, map[]), Start(0), AT_ZERO, s1) && HookStep([1, 8], s1, Stall(0, 0), AT_ZERO, s2)
    ensures HookStep([1, 8], s2, Resume(0, 0), AT_ZERO, s3)
    ensures s3.lastCore == 1 && 0 in s3.m && s3.m[0].core == Some(8)
  {
    var s0 := State(0, map[]);
    var slot1 := WithCore(NEW_SLOT, Some(1), 0);
    s1 := State(1, s0.m[0 := slot1]);
    StartOn([1, 8], s0, 0, AT_ZERO);
    StallAlone([1, 8], s1, 0, AT_ZERO);
    s2 := State(1, Stalled(s1.m, 0, 0));
    assert s2.m.Keys == {0} && s2.m[0].core.None? && s2.m[0].score == 0;
    ResumeOn([1, 8], s2, 0, 8, AT_ZERO);
    s3 := State(1, s2.m[0 := Resumed(s2.m[0], 0, Some(8), 0)]);
    hide HookStep;
  }

  /** Cores 1 and 8: thread 0 starts on 1, stalls, and resumes on 8; then thread 1 starts, on 8 as well. */
  lemma TwoThreadsOnOneCore() returns (run: Run)
    ensures IsRun([1, 8], run) && run.hooks == [Start(0), Stall(0, 0), Resume(0, 0), Start(1)]
    ensures 0 in run.states[4].m && run.states[4].m[0].core == Some(8) && !OwnCores(run.states[4].m)
  {
    hide HookStep, WithCore;
    var s1, s2, s3 := StartStallResume();
    var slot := WithCore(NEW_SLOT, Some(8), 0);
    var s4 := State(2, s3.m[1 := slot]);
    StartOn([1, 8], s3, 1, AT_ZERO);
    StartsOn8(s3.m, slot);
    run := Run([State(0, map[]), s1, s2, s3, s4], [Start(0), Stall(0, 0), Resume(0, 0), Start(1)],
               [AT_ZERO, AT_ZERO, AT_ZERO, AT_ZERO]);
  }

  lemma StartsOn8(m: Slots, slot: Slot)
    requires 0 in m && m[0].core == Some(8) && slot == WithCore(NEW_SLOT, Some(8), 0)
    ensures !OwnCores(m[1 := slot]) && m[1 := slot][0].core == Some(8)
  {
    var m' := m[1 := slot];
    assert m'[0].core == m'[1].core;
  }

  class Thread {
    const id: nat
    var core: Option<nat>
    var runnable: bool
    var unscheduled: bool
    var score: int
    var metricLast: int

    constructor (id: nat)
      ensures this.id == id && Held() == Slot(None, false, false, 0, 0)
    {
      this.id := id;
      core, runnable, unscheduled, score, metricLast := None, false, false, 0, 0;
    }

    function Held(): Slot
      reads this
    {
      Slot(core, runnable, unscheduled, score, metricLast)
    }

    method UpdateScore(now: int)
      modifies this
      ensures Held() == Updated(old(Held()), now)
    {
      score := score + now - metricLast;
      metricLast := now;
    }

    method SetScore(s: int, now: int)
      modifies this
      ensures Held() == old(Held()).(score := s, metricLast := now)
    {
      score := s;
      metricLast := now;
    }

    method Resume(s: int, c: Option<nat>, now: int)
      modifies this
      ensures Held() == Resumed(old(Held()), s, if c.Some? then c else old(core), now)
    {
      SetScore(s, now);
      runnable := true;
      if c.Some? {
        SetCore(c, now);
      }
    }

    method SetCore(c: Option<nat>, now: int)
      modifies this
      ensures Held() == WithCore(old(Held()), c, now)
    {
      core := c;
      if c.None? {
        UpdateScore(now);
      }
    }
  }

  class Scheduler {
    const cores: seq<nat>
    var threads: map<nat, Thread>
    var lastCore: nat

    ghost predicate Named()
      reads `threads
    {
      forall a | a in threads :: threads[a].id == a
    }

    ghost function All(): Slots
      reads `threads, threads.Values
    {
      map a | a in threads :: threads[a].Held()
    }

    ghost predicate Valid()
      reads this
    {
      Named() && Increasing(cores) && lastCore <= |cores|
    }

    constructor (cores: seq<nat>)
      requires Increasing(cores)
      ensures Valid() && this.cores == cores && threads == map[] && lastCore == 0
    {
      this.cores, threads, lastCore := cores, map[], 0;
    }

    /** The threads in some order. */
    method Listed() returns (ts: seq<Thread>)
      requires Named()
      ensures |ts| == |threads| && forall t | t in ts :: t.id in threads && threads[t.id] == t
      ensures (forall a | a in threads :: threads[a] in ts) && Unlike(ts)
    {
      ts := [];
      var rest := threads.Keys;
      while rest != {}
        invariant rest <= threads.Keys && |ts| + |rest| == |threads|
        invariant forall t | t in ts :: t.id in threads && threads[t.id] == t && t.id !in rest
        invariant Unlike(ts)
        invariant forall a | a in threads && a !in rest :: threads[a] in ts
        decreases |rest|
      {
        var a :| a in rest;
        rest := rest - {a};
        ts := ts + [threads[a]];
      }
    }

    /** A new thread gets the next core that was never given out, if there is one. */
    method HookThreadStart(id: nat, metric: nat -> int)
      requires Valid()
      modifies `threads, `lastCore
      ensures Valid() && fresh(threads.Values - old(threads.Values))
      ensures Started(cores, old(lastCore), old(All()), lastCore, All(), id, metric(id))
    {
      hide WithCore, Thread.Held;
      ghost var m := All();
      var core := if lastCore < |cores| then Some(cores[lastCore]) else None;
      var t := NewThread(id, core, metric(id));
      if lastCore < |cores| {
        lastCore := lastCore + 1;
      }
      threads := threads[id := t];
      assert All() == m[id := t.Held()];
    }

    /** A runnable thread on its first core. */
    method NewThread(id: nat, core: Option<nat>, now: int) returns (t: Thread)
      ensures fresh(t) && t.id == id
      ensures t.Held() == WithCore(NEW_SLOT, core, now)
    {
      t := new Thread(id);
      t.runnable := true;
      t.SetCore(core, now);
    }

    ghost predicate Known(t: Thread)
      reads `threads
    {
      t.id in threads && threads[t.id] == t
    }

    method MoveThread(t: Thread, core: Option<nat>, now: int)
      requires Named() && Known(t)
      modifies t
      ensures All() == old(All())[t.id := WithCore(old(All())[t.id], core, now)]
    {
      hide WithCore;
      t.SetCore(core, now);
      assert forall a | a in threads && a != t.id :: threads[a] != t;
    }

    /** A thread stops; the runnable thread with the least score that is on no core gets its place. */
    method HookThreadStall(id: nat, unscheduled: bool, metric: nat -> int) returns (ghost next: nat)
      requires Valid() && id in threads
      modifies threads.Values
      ensures Valid()
      ensures unscheduled ==> All() == old(All())[id := old(All())[id].(unscheduled := true)]
      ensures !unscheduled ==> StalledFor(old(All()), All(), id, next, metric)
    {
      hide WithCore;
      next := id;
      ghost var m := All();
      var t := threads[id];
      if unscheduled {
        t.unscheduled := true;
        assert forall a | a in threads && a != id :: threads[a] != t;
        assert All() == m[id := m[id].(unscheduled := true)];
        return;
      }
      var core := t.core;
      MoveThread(t, None, metric(id));
      t.runnable := false;
      assert forall a | a in threads && a != id :: threads[a] != t;
      assert All() == Stalled(m, id, metric(id));
      next := PlaceNext(core, metric);
    }

    /** Puts the runnable thread with the least score on the core. */
    method PlaceNext(core: Option<nat>, metric: nat -> int) returns (ghost next: nat)
      requires Named()
      modifies threads.Values
      ensures Placed(old(All()), All(), core, next, metric)
    {
      hide WithCore;
      next := 0;
      var first := LeastReady();
      if first.Some? {
        next := first.value.id;
        MoveThread(first.value, core, metric(first.value.id));
      }
    }

    /** A runnable thread that is on no core, of the least score. */
    method LeastReady() returns (first: Option<Thread>)
      requires Named()
      ensures first.None? ==> Ready(All()) == {}
      ensures first.Some? ==> Known(first.value) && first.value.id in Ready(All())
      ensures first.Some? ==> forall b | b in Ready(All()) :: first.value.score <= All()[b].score
    {
      hide Unlike;
      var ts := Listed();
      var ready := RunnableOf(ts, true);
      forall b | b in Ready(All()) ensures threads[b] in Members(ready) {
        assert threads[b] in Members(ts);
      }
      if ready == [] {
        return None;
      }
      var sorted := SortByScore(ready);
      assert sorted[0] in Members(sorted);
      forall b | b in Ready(All()) ensures sorted[0].score <= All()[b].score {
        assert threads[b] in Members(sorted);
        var k :| 0 <= k < |sorted| && sorted[k] == threads[b];
      }
      first := Some(sorted[0]);
    }

    /** A thread goes on, with no more score than anyone has, on a free core. */
    method HookThreadResume(id: nat, metric: nat -> int) returns (ghost low: int)
      requires Valid() && id in threads
      modifies threads.Values
      ensures Valid()
      ensures old(threads[id].unscheduled) ==> All() == old(All())[id := old(All())[id].(unscheduled := false)]
      ensures !old(threads[id].unscheduled) ==> ResumedFor(cores, old(All()), All(), id, low, metric(id))
    {
      hide Resumed, LeastScore, FreeCore;
      low := 0;
      ghost var m := All();
      var t := threads[id];
      assert forall a | a in threads && a != id :: threads[a] != t;
      if t.unscheduled {
        t.unscheduled := false;
        assert All() == m[id := m[id].(unscheduled := false)];
        return;
      }
      var score := LowScore();
      low := score;
      var core := AnyFreeCore();
      ResumeThread(t, score, core, metric(id));
      assert All()[id].core == (if core.Some? then core else m[id].core) by {
        ResumedCore(m[id], score, if core.Some? then core else m[id].core, metric(id));
      }
    }

    method ResumeThread(t: Thread, score: int, core: Option<nat>, now: int)
      requires Named() && Known(t)
      modifies t
      ensures All() == old(All())[t.id :=
        Resumed(old(All())[t.id], score, if core.Some? then core else old(All())[t.id].core, now)]
    {
      hide Resumed;
      t.Resume(score, core, now);
      assert forall a | a in threads && a != t.id :: threads[a] != t;
    }

    method LowScore() returns (low: int)
      requires Named() && threads != map[]
      ensures LeastScore(All(), low)
    {
      var ts := Listed();
      assert threads.Keys != {};
      var a :| a in threads;
      assert threads[a] in ts;
      low := ts[0].score;
      for i := 1 to |ts|
        invariant exists j :: 0 <= j < i && ts[j].score == low
        invariant forall j | 0 <= j < i :: low <= ts[j].score
      {
        if ts[i].score < low {
          low := ts[i].score;
        }
      }
      var j :| 0 <= j < |ts| && ts[j].score == low;
      assert ts[j] in ts && All()[ts[j].id].score == low;
      forall b | b in threads ensures low <= All()[b].score {
        var k :| 0 <= k < |ts| && ts[k] == threads[b];
      }
    }

    /** The cores the listed threads are on. */
    method UsedCores(ts: seq<Thread>) returns (used: set<nat>)
      ensures forall c :: c in used <==> exists t :: t in ts && t.core == Some(c)
    {
      used := {};
      for i := 0 to |ts|
        invariant forall c :: c in used <==> exists j :: 0 <= j < i && ts[j].core == Some(c)
      {
        if ts[i].core.Some? {
          used := used + {ts[i].core.value};
        }
      }
      forall c ensures c in used <==> exists t :: t in ts && t.core == Some(c) {
        if c in used {
          var j :| 0 <= j < |ts| && ts[j].core == Some(c);
          assert ts[j] in ts;
        }
      }
    }

    /** The cores any thread is on. */
    method CoresInUse() returns (used: set<nat>)
      requires Named()
      ensures forall c :: c in used <==> InUse(All(), c)
    {
      var ts := Listed();
      used := UsedCores(ts);
      forall c ensures c in used <==> InUse(All(), c) {
        if c in used {
          var t :| t in ts && t.core == Some(c);
          assert t.id in All() && All()[t.id].core == Some(c);
        }
        if InUse(All(), c) {
          var a :| a in All() && All()[a].core == Some(c);
          assert threads[a] in ts;
        }
      }
    }

    /** Some core that no thread is on: the first element of a set, which may be any of its elements. */
    method AnyFreeCore() returns (core: Option<nat>)
      requires Named()
      ensures core.Some? ==> FreeCore(cores, All(), core.value)
      ensures core.None? ==> !exists c :: FreeCore(cores, All(), c)
    {
      hide InUse;
      var used := CoresInUse();
      var free := set c | c in cores && c !in used;
      if free == {} {
        assert forall c | c in cores :: c !in free;
        return None;
      }
      var c :| c in free;
      core := Some(c);
    }

    /** Running threads have their scores brought up to date. */
    method UpdateScores(metric: nat -> int)
      requires Named()
      modifies threads.Values
      ensures All() == Scored(old(All()), metric)
    {
      hide Updated, ScoredSlot, Scored;
      ghost var m := All();
      var ts := Listed();
      for i := 0 to |ts|
        invariant forall j | 0 <= j < |ts| ::
          ts[j].Held() == if j < i then ScoredSlot(m[ts[j].id], metric(ts[j].id)) else m[ts[j].id]
      {
        UpdateIfRunning(ts[i], metric(ts[i].id));
      }
      forall a | a in threads ensures All()[a] == ScoredSlot(m[a], metric(a)) {
        var j :| 0 <= j < |ts| && ts[j] == threads[a];
      }
      ScoredIs(m, All(), metric);
    }

    method UpdateIfRunning(t: Thread, now: int)
      modifies t
      ensures t.Held() == ScoredSlot(old(t.Held()), now)
    {
      if t.core.Some? {
        t.UpdateScore(now);
      }
    }

    /** The cores that are not in the set, lowest first. */
    method FreeCores(used: set<nat>) returns (free: seq<nat>)
      requires Increasing(cores)
      ensures Increasing(free) && SetOf(free) == SetOf(cores) - used
    {
      free := [];
      for i := 0 to |cores|
        invariant Increasing(free) && SetOf(free) == SetOf(cores[..i]) - used
        invariant forall k, j | 0 <= k < |free| && i <= j < |cores| :: free[k] < cores[j]
      {
        SetAppend(cores[..i], cores[i]);
        SetAppend(free, cores[i]);
        assert cores[..i + 1] == cores[..i] + [cores[i]];
        if cores[i] !in used {
          free := free + [cores[i]];
        }
      }
      assert cores[..|cores|] == cores;
    }

    /** A thread on the core, if there is one. */
    method ThreadOn(c: nat) returns (t: Option<Thread>)
      requires Named()
      ensures t.None? ==> !InUse(All(), c)
      ensures t.Some? ==> Known(t.value) && t.value.core == Some(c)
    {
      var ts := Listed();
      for i := 0 to |ts|
        invariant forall j | 0 <= j < i :: ts[j].core != Some(c)
      {
        if ts[i].core == Some(c) {
          assert ts[i] in ts;
          return Some(ts[i]);
        }
      }
      assert forall a | a in threads :: threads[a] in ts;
      t := None;
    }

    /** The runnable threads in order of their scores. */
    method RunnableByScore() returns (sorted: seq<Thread>)
      requires Named()
      ensures forall t | t in sorted :: Known(t)
      ensures Unlike(sorted) && Ids(IdList(sorted)) == Runnable(All())
      ensures forall i, j | 0 <= i < j < |sorted| :: sorted[i].score <= sorted[j].score
    {
      hide Unlike;
      var ts := Listed();
      var ready := RunnableOf(ts, false);
      sorted := SortByScore(ready);
      assert forall t | t in sorted :: t in Members(sorted);
      forall a ensures a in Ids(IdList(sorted)) <==> a in Runnable(All()) {
        if a in Runnable(All()) {
          assert threads[a] in Members(sorted);
          var k :| 0 <= k < |sorted| && sorted[k] == threads[a];
          assert IdList(sorted)[k] == a;
        }
        if a in Ids(IdList(sorted)) {
          var k :| 0 <= k < |sorted| && IdList(sorted)[k] == a;
          assert sorted[k] in Members(sorted);
        }
      }
    }

    lemma ListFacts(ts: seq<Thread>)
      requires (forall t | t in ts :: Known(t)) && Unlike(ts)
      ensures forall i | 0 <= i < |ts| :: IdList(ts)[i] in All() && All()[IdList(ts)[i]] == ts[i].Held()
      ensures forall i, j | 0 <= i < j < |ts| :: IdList(ts)[i] != IdList(ts)[j]
    {
      assert forall i | 0 <= i < |ts| :: Known(ts[i]);
    }

    /** As many runnable threads of the least scores as there are cores. */
    method Select() returns (chosen: seq<Thread>)
      requires Named()
      ensures (forall t | t in chosen :: Known(t)) && Unlike(chosen)
      ensures Selected(cores, All(), Ids(IdList(chosen))) && |Ids(IdList(chosen))| == |chosen|
    {
      var sorted := RunnableByScore();
      chosen := sorted[..Min(|sorted|, |cores|)];
      ghost var ids := IdList(sorted);
      ListFacts(sorted);
      assert IdList(chosen) == ids[..|chosen|];
      FirstAreLeast(cores, All(), ids);
      IdsCount(ids[..|chosen|]);
    }

    /** Puts a thread on a core; who was on it leaves it. */
    method TakeCore(t: Thread, c: nat, metric: nat -> int)
      requires Named() && Known(t)
      modifies threads.Values
      ensures old(All()[t.id].core.None? && MayTake(All(), c, metric)) ==> Taken(old(All()), All(), t.id, c)
    {
      hide WithCore, Taken, MayTake;
      ghost var m := All();
      var current := ThreadOn(c);
      ghost var id := if current.Some? then Some(current.value.id) else None;
      assert OnCore(m, id, c);
      if current.Some? {
        MoveThread(current.value, None, metric(current.value.id));
      }
      MoveThread(t, Some(c), metric(t.id));
      TakenInTurn(m, id, t.id, c, metric);
    }

    /** Every interval: the runnable threads that ran least run next, and those that already run stay where they are.
        When two threads are on one core the code still runs, and nothing is promised. */
    method Periodic(metric: nat -> int)
      requires Valid()
      modifies threads.Values
      ensures Valid()
      ensures OwnCores(old(All())) ==> IntervalStep(cores, Scored(old(All()), metric), All())
    {
      hide Selected, Plan, Moved, Scored, Unlike, Ids, Kept, Running, Runnable, All, Increasing, OwnCores;
      ghost var before := All();
      UpdateScores(metric);
      ghost var m := All();
      var chosen := Select();
      var news, free := Divide(chosen);
      ghost var selected := Ids(IdList(chosen));
      Reassign(news, free, metric, before, selected);
      assert OwnCores(before) ==> IntervalBy(cores, m, All(), selected, IdList(news), free);
    }

    /** New threads move to free cores, one by one. */
    method Reassign(news: seq<Thread>, free: seq<nat>, metric: nat -> int, ghost before: Slots,
                    ghost selected: set<nat>)
      requires Named() && All() == Scored(before, metric) && (forall t | t in news :: Known(t))
      requires Plan(cores, All(), selected, IdList(news), free)
      modifies threads.Values
      ensures |news| <= |free|
      ensures OwnCores(before) ==> Moved(old(All()), All(), IdList(news), free, |news|)
    {
      hide Plan, Moved, Scored, MayTake, Taken, Increasing, All, OwnCores;
      ghost var m, ids := All(), IdList(news);
      EnoughFree(cores, m, selected, ids, free);
      if OwnCores(before) {
        ScoresKeepCores(before, metric);
      }
      NothingMoved(m, ids, free);
      for i := 0 to |news|
        invariant OwnCores(before) ==> Moved(m, All(), ids, free, i)
      {
        ghost var m1 := All();
        assert Known(news[i]) && ids[i] == news[i].id;
        if OwnCores(before) {
          MayTakeNext(cores, before, m, m1, metric, selected, ids, free, i);
        }
        TakeCore(news[i], free[i], metric);
        if OwnCores(before) {
          NextMoved(cores, m, m1, All(), selected, ids, free, i);
        }
      }
    }

    /** The chosen threads that are on no core yet, and the cores that no chosen thread is on. */
    method Divide(chosen: seq<Thread>) returns (news: seq<Thread>, free: seq<nat>)
      requires Valid() && (forall t | t in chosen :: Known(t)) && Unlike(chosen)
      requires Selected(cores, All(), Ids(IdList(chosen)))
      ensures (forall t | t in news :: Known(t))
      ensures Plan(cores, All(), Ids(IdList(chosen)), IdList(news), free)
    {
      hide Kept, CoresOf, Ids, Unlike, SetOf, Increasing, Members, Plan, Selected, Runnable, Running;
      news := RunnableOf(chosen, true);
      AllKnown(chosen, news);
      SelectedRun(cores, All(), Ids(IdList(chosen)));
      NewsAre(chosen, news);
      var used := UsedCores(chosen);
      free := FreeCores(used);
      ListFacts(news);
      IdsCount(IdList(news));
      UsedAre(chosen, used);
      PlanIs(cores, All(), Ids(IdList(chosen)), IdList(news), free);
    }

    lemma AllKnown(chosen: seq<Thread>, news: seq<Thread>)
      requires forall t | t in chosen :: Known(t)
      requires Members(news) == (set t | t in Members(chosen) && t.runnable && t.core.None?)
      ensures forall t | t in news :: Known(t)
    {
      assert forall t | t in news :: t in Members(news);
    }

    lemma NewsAre(chosen: seq<Thread>, news: seq<Thread>)
      requires (forall t | t in chosen :: Known(t)) && Ids(IdList(chosen)) <= Runnable(All())
      requires Members(news) == (set t | t in Members(chosen) && t.runnable && t.core.None?)
      ensures Ids(IdList(news)) == Ids(IdList(chosen)) - Running(All())
    {
      forall a ensures a in Ids(IdList(news)) <==> a in Ids(IdList(chosen)) - Running(All()) {
        if a in Ids(IdList(news)) {
          var k :| 0 <= k < |news| && IdList(news)[k] == a;
          assert news[k] in Members(news) && news[k] in chosen;
          var j :| 0 <= j < |chosen| && chosen[j] == news[k];
          assert IdList(chosen)[j] == a;
        }
        if a in Ids(IdList(chosen)) - Running(All()) {
          var j :| 0 <= j < |chosen| && IdList(chosen)[j] == a;
          assert chosen[j] in chosen && chosen[j] in Members(chosen) && a in Runnable(All());
          assert chosen[j] in Members(news);
          var k :| 0 <= k < |news| && news[k] == chosen[j];
          assert IdList(news)[k] == a;
        }
      }
    }

    lemma UsedAre(chosen: seq<Thread>, used: set<nat>)
      requires forall t | t in chosen :: Known(t)
      requires forall c :: c in used <==> exists t :: t in chosen && t.core == Some(c)
      ensures used == CoresOf(All(), Kept(All(), Ids(IdList(chosen))))
    {
      var cs := CoresOf(All(), Kept(All(), Ids(IdList(chosen))));
      forall c ensures c in used <==> c in cs {
        if c in used {
          var t :| t in chosen && t.core == Some(c);
          var j :| 0 <= j < |chosen| && chosen[j] == t;
          assert IdList(chosen)[j] == t.id;
          assert t.id in Kept(All(), Ids(IdList(chosen)));
        }
        if c in cs {
          var a :| a in Kept(All(), Ids(IdList(chosen))) && All()[a].core.value == c;
          var j :| 0 <= j < |chosen| && IdList(chosen)[j] == a;
          assert chosen[j] in chosen;
        }
      }
    }

    /** The listed threads that are runnable; with `idle`, only those that are on no core. */
    method RunnableOf(ts: seq<Thread>, idle: bool) returns (r: seq<Thread>)
      ensures Members(r) == (set t | t in Members(ts) && t.runnable && (idle ==> t.core.None?))
      ensures Unlike(ts) ==> Unlike(r)
    {
      r := [];
      for i := 0 to |ts|
        invariant Members(r) == (set t | t in Members(ts[..i]) && t.runnable && (idle ==> t.core.None?))
        invariant Unlike(ts[..i]) ==> Unlike(r)
      {
        hide Members, Unlike;
        Appended(ts, i);
        Inserted(r, |r|, ts[i]);
        if ts[i].runnable && (!idle || ts[i].core.None?) {
          assert r[..|r|] + [ts[i]] + r[|r|..] == r + [ts[i]];
          r := r + [ts[i]];
        }
      }
      assert ts[..|ts|] == ts;
    }

    /** The threads in order of their scores. */
    method SortByScore(ts: seq<Thread>) returns (r: seq<Thread>)
      ensures |r| == |ts| && Members(r) == Members(ts) && (Unlike(ts) ==> Unlike(r))
      ensures forall i, j | 0 <= i < j < |r| :: r[i].score <= r[j].score
    {
      hide Members, Unlike;
      r := [];
      for i := 0 to |ts|
        invariant |r| == i && Members(r) == Members(ts[..i]) && (Unlike(ts[..i]) ==> Unlike(r))
        invariant forall k, j | 0 <= k < j < |r| :: r[k].score <= r[j].score
      {
        var k := |r|;
        while k > 0 && r[k - 1].score > ts[i].score
          invariant 0 <= k <= |r|
          invariant forall j | k <= j < |r| :: r[j].score > ts[i].score
        {
          k := k - 1;
        }
        Inserted(r, k, ts[i]);
        Appended(ts, i);
        r := r[..k] + [ts[i]] + r[k..];
      }
      assert ts[..|ts|] == ts;
    }
  }

  ghost function IdList(ts: seq<Thread>): seq<nat> {
    seq(|ts|, i requires 0 <= i < |ts| => ts[i].id)
  }

  lemma {:induction false} IdsCount(ids: seq<nat>)
    requires forall i, j | 0 <= i < j < |ids| :: ids[i] != ids[j]
    ensures |Ids(ids)| == |ids|
  {
    if ids != [] {
      var n := |ids| - 1;
      IdsCount(ids[..n]);
      assert Ids(ids) == Ids(ids[..n]) + {ids[n]};
      assert ids[n] !in ids[..n];
    }
  }

  /** The threads that are to run: as many as there are cores, or all that can, and none with a greater score than
      any that is left out. */
  ghost predicate Selected(cores: seq<nat>, m: Slots, selected: set<nat>) {
    && selected <= Runnable(m) && |selected| == Min(|Runnable(m)|, |cores|)
    && forall a, b | a in selected && b in Runnable(m) - selected :: m[a].score <= m[b].score
  }

  lemma SelectedRun(cores: seq<nat>, m: Slots, selected: set<nat>)
    requires Selected(cores, m, selected)
    ensures selected <= Runnable(m)
  {
  }

  lemma FirstAreLeast(cores: seq<nat>, m: Slots, ids: seq<nat>)
    requires Ids(ids) == Runnable(m)
    requires forall i | 0 <= i < |ids| :: ids[i] in m
    requires forall i, j | 0 <= i < j < |ids| :: ids[i] != ids[j] && m[ids[i]].score <= m[ids[j]].score
    ensures Selected(cores, m, Ids(ids[..Min(|ids|, |cores|)]))
  {
    var n := Min(|ids|, |cores|);
    IdsCount(ids);
    IdsCount(ids[..n]);
    var selected := Ids(ids[..n]);
    forall a, b | a in selected && b in Runnable(m) - selected ensures m[a].score <= m[b].score {
      var i :| 0 <= i < n && ids[i] == a;
      assert b in Ids(ids);
      var j :| 0 <= j < |ids| && ids[j] == b;
    }
    forall a | a in selected ensures a in Runnable(m) {
      assert a in Ids(ids);
    }
  }

  ghost function Members(ts: seq<Thread>): set<Thread> {
    set t | t in ts
  }

  lemma Inserted(r: seq<Thread>, k: nat, t: Thread)
    requires k <= |r|
    ensures Members(r[..k] + [t] + r[k..]) == Members(r) + {t}
    ensures Unlike(r) && t !in Members(r) ==> Unlike(r[..k] + [t] + r[k..])
  {
    var r' := r[..k] + [t] + r[k..];
    assert forall j | 0 <= j < |r'| :: r'[j] == if j < k then r[j] else if j == k then t else r[j - 1];
    forall u | u in r ensures u in r' {
      var j :| 0 <= j < |r| && r[j] == u;
      assert r'[if j < k then j else j + 1] == u;
    }
    assert r'[k] == t;
  }

  lemma Appended(ts: seq<Thread>, i: nat)
    requires i < |ts|
    ensures Members(ts[..i + 1]) == Members(ts[..i]) + {ts[i]}
    ensures Unlike(ts[..i + 1]) ==> Unlike(ts[..i]) && ts[i] !in Members(ts[..i])
  {
    assert ts[..i + 1] == ts[..i] + [ts[i]];
  }

  /** No thread is listed twice. */
  ghost predicate Unlike(ts: seq<Thread>) {
    forall i, j | 0 <= i < j < |ts| :: ts[i] != ts[j]
  }

}
