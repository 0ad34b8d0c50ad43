/** What the scores are for: a score is the work a thread has done, the threads that have done least run next, and no
    thread waits forever while others work. */
module SchedulerFairness {
  import opened Helpers
  import opened SchedulerLocality

  // ---------- a score is work done ----------

  /** The hooks that bring a thread's score up to date: an interval if it is on a core, and its own stall. */
  ghost predicate Charges(s: State, h: Hook, a: nat)
    requires a in s.m
  {
    (h.Interval? && s.m[a].core.Some?) || (h.Stall? && h.t == a)
  }

  /** An interval moves threads and charges those that were on a core. */
  lemma IntervalScores(cores: seq<nat>, m: Slots, m': Slots, metric: nat -> int)
    requires IntervalStep(cores, Scored(m, metric), m')
    ensures m'.Keys == m.Keys
    ensures forall a | a in m ::
      && m'[a].runnable == m[a].runnable
      && m'[a].score - m[a].score == m'[a].metricLast - m[a].metricLast
      && m'[a].metricLast == if m[a].core.Some? then metric(a) else m[a].metricLast
  {
    var scored := Scored(m, metric);
    var selected, news, free :| IntervalBy(cores, scored, m', selected, news, free);
    hide Plan, Selected, CoreIs;
    MovedShape(scored, m', news, free);
  }

  /** Whatever a hook does to a thread that is not being started or resumed, its score rises by as much as what was
      last seen of its metric, and that is the metric now if the hook charges the thread; only a stall without a core
      to give away may also charge the thread that is next. */
  lemma HookScores(cores: seq<nat>, s: State, h: Hook, metric: nat -> int, s': State, a: nat)
    requires HookStep(cores, s, h, metric, s') && a in s.m
    requires !(h.Start? && h.t == a) && !(h.Resume? && h.t == a)
    ensures a in s'.m
    ensures s'.m[a].score - s.m[a].score == s'.m[a].metricLast - s.m[a].metricLast
    ensures Charges(s, h, a) ==> s'.m[a].metricLast == metric(a)
    ensures !Charges(s, h, a) && !(h.Stall? && h.next == a && h.t in s.m && s.m[h.t].core.None?)
      ==> s'.m[a].score == s.m[a].score && s'.m[a].metricLast == s.m[a].metricLast
    ensures s.m[a].metricLast <= metric(a) ==> s.m[a].score <= s'.m[a].score
  {
    if h.Interval? {
      hide IntervalStep, Scored;
      IntervalScores(cores, s.m, s'.m, metric);
    }
  }

  /** A resumed thread starts over with the least score anyone has, and what it did before no longer matters. */
  lemma ResumeScores(cores: seq<nat>, s: State, t: nat, low: int, metric: nat -> int, s': State)
    requires HookStep(cores, s, Resume(t, low), metric, s')
    ensures t in s.m && t in s'.m && s'.m[t].runnable && s'.m[t].metricLast == metric(t)
    ensures (forall a | a in s.m :: s'.m[t].score <= s.m[a].score)
    ensures exists a :: a in s.m && s'.m[t].score == s.m[a].score
  {
  }

  /** A new thread can run, and its score is what its metric was when it was charged first, or nothing. */
  lemma StartScores(cores: seq<nat>, s: State, t: nat, metric: nat -> int, s': State)
    requires HookStep(cores, s, Start(t), metric, s')
    ensures t in s'.m && s'.m[t].runnable && s'.m[t].score == s'.m[t].metricLast
    ensures if s.lastCore < |cores| then s'.m[t].core == Some(cores[s.lastCore]) && s'.m[t].score == 0
      else s'.m[t].core.None? && s'.m[t].score == metric(t)
    ensures forall a | a in s.m && a != t :: a in s'.m && s'.m[a] == s.m[a]
  {
  }

  /** A thread that stops leaves its core to the thread that could run, was on no core, and has done least. */
  lemma StallHandsOver(cores: seq<nat>, s: State, t: nat, next: nat, metric: nat -> int, s': State)
    requires HookStep(cores, s, Stall(t, next), metric, s')
    ensures t in s.m && s'.m.Keys == s.m.Keys && !s'.m[t].runnable && s'.m[t].core.None?
    ensures var ready := set a | a in s.m && a != t && s.m[a].runnable && s.m[a].core.None?;
      if ready == {} then forall a | a in s.m && a != t :: s'.m[a] == s.m[a]
      else
        && next in ready && s'.m[next].core == s.m[t].core && (forall a | a in ready :: s.m[next].score <= s.m[a].score)
        && forall a | a in s.m && a != t && a != next :: s'.m[a] == s.m[a]
  {
    var m1 := Stalled(s.m, t, metric(t));
    assert forall a | a in s.m && a != t :: m1[a] == s.m[a];
    assert Ready(m1) == set a | a in s.m && a != t && s.m[a].runnable && s.m[a].core.None?;
  }

  /** Thread a is neither started nor resumed by the hooks from i up to j. */
  ghost predicate GoesOn(run: Run, a: nat, i: nat, j: nat)
    requires i <= j <= |run.hooks|
  {
    forall k | i <= k < j :: (run.hooks[k].Start? || run.hooks[k].Resume?) ==> run.hooks[k].t != a
  }

  lemma {:induction false} ScoreFollowsMetric(cores: seq<nat>, run: Run, a: nat, i: nat, j: nat)
    requires IsRun(cores, run) && i <= j <= |run.hooks| && a in run.states[i].m && GoesOn(run, a, i, j)
    ensures a in run.states[j].m
    ensures var x, y := run.states[i].m[a], run.states[j].m[a];
      y.score - x.score == y.metricLast - x.metricLast
    decreases j - i
  {
    if i < j {
      ScoreFollowsMetric(cores, run, a, i, j - 1);
      assert HookAt(cores, run, j - 1);
      hide HookStep;
      HookScores(cores, run.states[j - 1], run.hooks[j - 1], run.metrics[j - 1], run.states[j], a);
    }
  }

  /** From the end of one interval to the end of a later one, with a thread on a core before each of them and not
      resumed in between, its score rises by exactly what its metric gained, whatever else happens in between. */
  lemma ScoreIsWork(cores: seq<nat>, run: Run, a: nat, i: nat, j: nat)
    requires IsRun(cores, run) && i < j < |run.hooks| && GoesOn(run, a, i, j)
    requires run.hooks[i].Interval? && a in run.states[i].m && run.states[i].m[a].core.Some?
    requires run.hooks[j].Interval? && a in run.states[j].m && run.states[j].m[a].core.Some?
    ensures a in run.states[i + 1].m && a in run.states[j + 1].m
    ensures run.states[j + 1].m[a].score - run.states[i + 1].m[a].score == run.metrics[j](a) - run.metrics[i](a)
  {
    hide HookStep;
    assert HookAt(cores, run, i) && HookAt(cores, run, j);
    HookScores(cores, run.states[i], run.hooks[i], run.metrics[i], run.states[i + 1], a);
    ScoreFollowsMetric(cores, run, a, i + 1, j);
    HookScores(cores, run.states[j], run.hooks[j], run.metrics[j], run.states[j + 1], a);
  }

  // ---------- who has done least runs ----------

  /** The score of a thread with what it has done since it was charged. */
  function WorkDone(s: Slot, now: int): int {
    s.score + if s.core.Some? then now - s.metricLast else 0
  }

  /** After an interval every core is in use or every runnable thread runs, and a thread that waits has done no less
      than any that runs. */
  lemma LeastRunNext(cores: seq<nat>, s: State, metric: nat -> int, s': State)
    requires Apart(cores, s.m) && HookStep(cores, s, Interval, metric, s')
    ensures s'.m.Keys == s.m.Keys && Running(s'.m) <= Runnable(s.m) == Runnable(s'.m)
    ensures |Running(s'.m)| == Min(|Runnable(s.m)|, |cores|)
    ensures forall a, b | a in Running(s'.m) && b in Runnable(s.m) - Running(s'.m) ::
      WorkDone(s.m[a], metric(a)) <= WorkDone(s.m[b], metric(b))
  {
    hide IntervalStep, Apart;
    IntervalKeepsApart(cores, s, metric, s');
    var m := Scored(s.m, metric);
    assert forall a | a in m :: m[a].score == WorkDone(s.m[a], metric(a)) && m[a].runnable == s.m[a].runnable;
    assert Runnable(m) == Runnable(s.m);
    assert Runnable(s'.m) == Runnable(s.m);
  }

  /** Two runnable threads and one core: once what the running one has done exceeds the score of the other, they change
      places. */
  lemma TwoThreadsTakeTurns(c: nat, s: State, metric: nat -> int, s': State, a: nat, b: nat)
    requires Apart([c], s.m) && HookStep([c], s, Interval, metric, s')
    requires a != b && Runnable(s.m) == {a, b} && s.m[a].core == Some(c) && s.m[b].core.None?
    ensures s.m[a].score + metric(a) - s.m[a].metricLast > s.m[b].score ==> Running(s'.m) == {b}
    ensures s.m[a].score + metric(a) - s.m[a].metricLast < s.m[b].score ==> Running(s'.m) == {a}
  {
    hide HookStep, Apart;
    LeastRunNext([c], s, metric, s');
    var running := Running(s'.m);
    assert |{a, b}| == 2;
    SingletonSize(running, a, b);
    hide Running;
    if running == {a} {
      assert b in Runnable(s.m) - running;
    } else {
      assert a in Runnable(s.m) - running;
    }
  }

  lemma SingletonSize(s: set<nat>, a: nat, b: nat)
    requires s <= {a, b} && |s| == 1
    ensures s == {a} || s == {b}
  {
    var x :| x in s;
    assert |s - {x}| == 0;
    assert s == {x};
  }

  // ---------- nobody waits forever ----------

  /** How far these threads are from having done more than `level`, in all. */
  ghost function Lag(threads: set<nat>, m: Slots, level: int): nat
    requires threads <= m.Keys
  {
    if threads == {} then 0 else
    var a :| a in threads;
    Short(m[a], level) + Lag(threads - {a}, m, level)
  }

  function Short(s: Slot, level: int): nat {
    if s.score <= level then level + 1 - s.score else 0
  }

  lemma {:induction false} LagPick(threads: set<nat>, m: Slots, level: int, a: nat)
    requires threads <= m.Keys && a in threads
    ensures Lag(threads, m, level) == Short(m[a], level) + Lag(threads - {a}, m, level)
    decreases threads
  {
    hide Short;
    var b :| b in threads && Lag(threads, m, level) == Short(m[b], level) + Lag(threads - {b}, m, level);
    if a != b {
      LagPick(threads - {b}, m, level, a);
      LagPick(threads - {a}, m, level, b);
      assert threads - {a} - {b} == threads - {b} - {a};
    }
  }

  /** Work takes away from the lag: at least one from every thread that has still to reach the level. */
  lemma {:induction false} LagDrops(threads: set<nat>, working: set<nat>, m: Slots, m': Slots, level: int)
    requires working <= threads <= m.Keys && threads <= m'.Keys
    requires forall a | a in threads :: m[a].score <= m'[a].score
    requires forall a | a in working :: m[a].score <= level && m[a].score < m'[a].score
    ensures Lag(threads, m', level) + |working| <= Lag(threads, m, level)
    decreases threads
  {
    if threads == {} {
      assert working == {};
    } else {
      var a :| a in threads;
      LagPick(threads, m, level, a);
      LagPick(threads, m', level, a);
      LagDrops(threads - {a}, working - {a}, m, m', level);
    }
  }

  /** From state i to state j nothing but intervals happens, and each of them finds that every thread on a core has
      done something. */
  ghost predicate Works(run: Run, i: nat, j: nat)
    requires i <= j <= |run.hooks| && |run.states| == |run.hooks| + 1 == |run.metrics| + 1
  {
    forall k | i <= k < j ::
      && run.hooks[k].Interval?
      && forall a | a in run.states[k].m && run.states[k].m[a].core.Some? ::
           run.states[k].m[a].metricLast < run.metrics[k](a)
  }

  /** All the time from state i to state j the thread could run but does not. */
  ghost predicate Waits(run: Run, b: nat, i: nat, j: nat)
    requires i <= j < |run.states|
  {
    forall k | i <= k <= j :: b in run.states[k].m && run.states[k].m[b].runnable && run.states[k].m[b].core.None?
  }

  /** One more interval that passes over the thread. */
  lemma PassedOver(cores: seq<nat>, s: State, metric: nat -> int, s': State, b: nat)
    requires Apart(cores, s.m) && HookStep(cores, s, Interval, metric, s')
    requires b in s.m && s.m[b].runnable && s.m[b].core.None? && b in s'.m && s'.m[b].core.None?
    ensures Apart(cores, s'.m) && s'.m.Keys == s.m.Keys && Runnable(s'.m) == Runnable(s.m)
    ensures Running(s'.m) <= Runnable(s.m) && |Running(s'.m)| == |cores| && s'.m[b].score == s.m[b].score
    ensures forall a | a in Running(s'.m) :: s'.m[a].score <= s.m[b].score
  {
    hide IntervalStep, Apart, Running, Runnable;
    LeastRunNext(cores, s, metric, s');
    IntervalKeepsApart(cores, s, metric, s');
    IntervalScores(cores, s.m, s'.m, metric);
    WaitsOn(s.m, s'.m, b);
    SubsetSize(Running(s'.m), Runnable(s.m) - {b});
    forall a | a in Running(s'.m) ensures s'.m[a].score <= s.m[b].score {
      assert a in s.m && s'.m[a].score == WorkDone(s.m[a], metric(a));
    }
  }

  lemma WaitsOn(m: Slots, m': Slots, b: nat)
    requires b in m && m'.Keys == m.Keys && m[b].runnable && m'[b].core.None?
    ensures b in Runnable(m) && b !in Running(m') && Running(m') <= m.Keys
  {
  }

  /** What the threads on cores do in an interval takes away from the lag. */
  lemma IntervalDrops(cores: seq<nat>, s: State, metric: nat -> int, s': State, working: set<nat>, level: int)
    requires HookStep(cores, s, Interval, metric, s') && working <= Running(s.m) <= Runnable(s.m)
    requires forall a | a in Running(s.m) :: s.m[a].metricLast < metric(a)
    requires forall a | a in working :: s.m[a].score <= level
    ensures s'.m.Keys == s.m.Keys
    ensures Lag(Runnable(s.m), s'.m, level) + |working| <= Lag(Runnable(s.m), s.m, level)
  {
    hide IntervalStep, Lag, Runnable;
    IntervalScores(cores, s.m, s'.m, metric);
    ThreadsOf(s.m);
    LagDrops(Runnable(s.m), working, s.m, s'.m, level);
  }

  /** After n intervals that passed over b, since the threads were m. */
  ghost predicate Behind(cores: seq<nat>, m: Slots, b: nat, m': Slots, n: nat)
    requires b in m
  {
    && Apart(cores, m') && m'.Keys == m.Keys && Runnable(m') == Runnable(m) && m'[b].score == m[b].score
    && Running(m') <= Runnable(m) && (n > 0 ==> NoneAhead(m', m[b].score) && |Running(m')| == |cores|)
    && Lag(Runnable(m), m', m[b].score) + |cores| * (if n > 0 then n - 1 else 0) <= Lag(Runnable(m), m, m[b].score)
  }

  /** No thread on a core has done more than this. */
  ghost predicate NoneAhead(m: Slots, level: int) {
    forall a | a in Running(m) :: m[a].score <= level
  }

  lemma OneMoreInterval(cores: seq<nat>, m: Slots, b: nat, s: State, metric: nat -> int, s': State, n: nat)
    requires b in m && Behind(cores, m, b, s.m, n) && HookStep(cores, s, Interval, metric, s')
    requires s.m[b].runnable && s.m[b].core.None? && b in s'.m && s'.m[b].core.None?
    requires forall a | a in Running(s.m) :: s.m[a].metricLast < metric(a)
    ensures Behind(cores, m, b, s'.m, n + 1)
  {
    PassedOver(cores, s, metric, s', b);
    var working := if n > 0 then Running(s.m) else {};
    var before, after := Lag(Runnable(m), s.m, m[b].score), Lag(Runnable(m), s'.m, m[b].score);
    assert after + |working| <= before by {
      hide HookStep, Lag, Apart, Running, Runnable;
      IntervalDrops(cores, s, metric, s', working, m[b].score);
    }
    hide HookStep, Lag, Apart, Running, Runnable;
    MoreRounds(|cores|, n);
  }

  lemma MoreRounds(d: nat, n: nat)
    ensures n > 0 ==> d * n == d * (n - 1) + d
  {
  }

  lemma {:induction false} LagRunsOut(cores: seq<nat>, run: Run, b: nat, i: nat, j: nat)
    requires IsRun(cores, run) && i <= j <= |run.hooks| && Works(run, i, j) && Waits(run, b, i, j)
    requires Apart(cores, run.states[i].m)
    ensures b in run.states[i].m && Behind(cores, run.states[i].m, b, run.states[j].m, j - i)
    decreases j - i
  {
    hide HookStep, Behind, Apart, Running;
    assert b in run.states[i].m;
    if i == j {
      NotYetBehind(cores, run.states[i].m, b);
    } else {
      var s := run.states[j - 1];
      assert HookAt(cores, run, j - 1) && run.hooks[j - 1] == Interval;
      LagRunsOut(cores, run, b, i, j - 1);
      OnCoresWork(run, i, j, j - 1);
      assert s.m[b].runnable && s.m[b].core.None? && run.states[j].m[b].core.None?;
      hide IsRun, Works, Waits, HookAt;
      OneMoreInterval(cores, run.states[i].m, b, s, run.metrics[j - 1], run.states[j], j - 1 - i);
    }
  }

  lemma OnCoresWork(run: Run, i: nat, j: nat, k: nat)
    requires i <= k < j <= |run.hooks| && |run.states| == |run.hooks| + 1 == |run.metrics| + 1 && Works(run, i, j)
    ensures forall a | a in Running(run.states[k].m) :: run.states[k].m[a].metricLast < run.metrics[k](a)
  {
  }

  lemma NotYetBehind(cores: seq<nat>, m: Slots, b: nat)
    requires Apart(cores, m) && b in m
    ensures Behind(cores, m, b, m, 0)
  {
    RunningAreRunnable(cores, m);
  }

  lemma ThreadsOf(m: Slots)
    ensures Runnable(m) <= m.Keys && Running(m) <= m.Keys
  {
  }

  lemma RunningAreRunnable(cores: seq<nat>, m: Slots)
    requires Apart(cores, m)
    ensures Running(m) <= Runnable(m)
  {
  }

  /** As long as the threads on cores do something in every interval, a thread that could run does not wait forever:
      the number of intervals that pass it over is bounded by how far the runnable threads are behind it. */
  lemma NobodyStarves(cores: seq<nat>, run: Run, b: nat, i: nat, j: nat)
    requires IsRun(cores, run) && i < j <= |run.hooks| && Works(run, i, j) && Waits(run, b, i, j)
    requires Apart(cores, run.states[i].m)
    ensures |cores| * (j - i - 1) <= Lag(Runnable(run.states[i].m), run.states[i].m, run.states[i].m[b].score)
  {
    hide Apart, IsRun;
    LagRunsOut(cores, run, b, i, j);
  }
}
