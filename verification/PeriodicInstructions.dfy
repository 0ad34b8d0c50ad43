/** The instruction counter shared by all cores: each core adds what it executed every so often, and whoever sees the
    counter pass the next mark calls the periodic hook under the thread lock. */
module PeriodicInstructions {

  /** Where a core stands in countInstructions: what it does next. */
  datatype PC = Idle | Check | Report | NextCallback | NextLast | QuickRead | QuickCompare | TakeLock | LockedRead
      | LockedCompare | CallHook | NextMark | Unlock

  /** read is the shared counter as the core read it for a comparison. */
  datatype Core = Core(pc: PC, instructions: nat, callback: nat, last: nat, read: int)

  /** perCore and global are the configured intervals. */
  datatype Config = Config(perCore: nat, global: nat)

  /** counter is the global count, and the hook is due when it passes mark; holder is the core that has the lock, or
      NOBODY; seen holds the counts the hook was given. */
  datatype State = State(cores: seq<Core>, counter: int, mark: nat, holder: int, seen: seq<int>)

  const NOBODY: int := -1

  predicate Enabled(s: State, t: nat) {
    t < |s.cores| && (s.cores[t].pc.TakeLock? ==> s.holder == NOBODY)
  }

  /** One step of core t; count matters only when a core at rest executes instructions. */
  function Step(cf: Config, s: State, t: nat, count: nat): State
    requires Enabled(s, t)
  {
    var c := s.cores[t];
    match c.pc
    case Idle => s.(cores := s.cores[t := c.(instructions := c.instructions + count, pc := Check)])
    case Check => s.(cores := s.cores[t := c.(pc := if c.instructions > c.callback then Report else Idle)])
    case Report =>
      s.(counter := s.counter + c.instructions - c.last, cores := s.cores[t := c.(pc := NextCallback)])
    case NextCallback => s.(cores := s.cores[t := c.(callback := c.callback + cf.perCore, pc := NextLast)])
    case NextLast => s.(cores := s.cores[t := c.(last := c.instructions, pc := QuickRead)])
    case QuickRead => s.(cores := s.cores[t := c.(read := s.counter, pc := QuickCompare)])
    case QuickCompare => s.(cores := s.cores[t := c.(pc := if c.read > s.mark then TakeLock else Idle)])
    case TakeLock => s.(holder := t, cores := s.cores[t := c.(pc := LockedRead)])
    case LockedRead => s.(cores := s.cores[t := c.(read := s.counter, pc := LockedCompare)])
    case LockedCompare => s.(cores := s.cores[t := c.(pc := if c.read > s.mark then CallHook else Unlock)])
    case CallHook => s.(seen := s.seen + [s.counter], cores := s.cores[t := c.(pc := NextMark)])
    case NextMark => s.(mark := s.mark + cf.global, cores := s.cores[t := c.(pc := Unlock)])
    case Unlock => s.(holder := NOBODY, cores := s.cores[t := c.(pc := Idle)])
  }

  predicate Start(s: State) {
    && (forall t | 0 <= t < |s.cores| :: s.cores[t] == Core(Idle, 0, 0, 0, 0))
    && s.counter == 0 && s.mark == 0 && s.holder == NOBODY && s.seen == []
  }

  // ---------- sums over cores ----------

  /** What a core has added to the counter. */
  function Reported(c: Core): nat {
    if c.pc.NextCallback? || c.pc.NextLast? then c.instructions else c.last
  }

  function SumReported(cores: seq<Core>): nat {
    if cores == [] then 0 else SumReported(cores[..|cores| - 1]) + Reported(cores[|cores| - 1])
  }

  function SumExecuted(cores: seq<Core>): nat {
    if cores == [] then 0 else SumExecuted(cores[..|cores| - 1]) + cores[|cores| - 1].instructions
  }

  function SumLast(cores: seq<Core>): nat {
    if cores == [] then 0 else SumLast(cores[..|cores| - 1]) + cores[|cores| - 1].last
  }

  lemma {:induction false} SumReportedUpdate(cores: seq<Core>, t: nat, c: Core)
    requires t < |cores|
    ensures SumReported(cores[t := c]) + Reported(cores[t]) == SumReported(cores) + Reported(c)
    decreases |cores|
  {
    var n := |cores| - 1;
    if t == n {
      assert cores[t := c][..n] == cores[..n];
    } else {
      assert cores[t := c][..n] == cores[..n][t := c];
      SumReportedUpdate(cores[..n], t, c);
    }
  }

  lemma {:induction false} NothingReported(cores: seq<Core>)
    requires forall t | 0 <= t < |cores| :: cores[t] == Core(Idle, 0, 0, 0, 0)
    ensures SumReported(cores) == 0
  {
    if cores != [] {
      NothingReported(cores[..|cores| - 1]);
    }
  }

  // ---------- what every run keeps ----------

  predicate InLock(pc: PC) {
    pc.LockedRead? || pc.LockedCompare? || pc.CallHook? || pc.NextMark? || pc.Unlock?
  }

  /** A core's own counts: how far behind its last report can be. */
  predicate CoreOk(cf: Config, c: Core) {
    && c.last <= c.instructions
    && match c.pc
       case Report => c.callback < c.last + cf.perCore && c.callback < c.instructions
       case NextCallback => c.callback < c.instructions
       case NextLast => c.callback < c.instructions + cf.perCore
       case Check => c.callback < c.last + cf.perCore
       case Idle => c.callback < c.last + cf.perCore && (c.instructions <= c.callback || c.instructions == c.last)
       case _ => c.callback < c.last + cf.perCore && c.instructions == c.last
  }

  function Times(n: nat, d: nat): nat {
    if n == 0 then 0 else Times(n - 1, d) + d
  }

  lemma {:induction false} TimesIsProduct(n: nat, d: nat)
    ensures Times(n, d) == n * d
  {
    if n > 0 {
      TimesIsProduct(n - 1, d);
    }
  }

  /** How many hook calls the mark accounts for: a core may have called the hook and not moved the mark yet. */
  function Marked(s: State): int {
    |s.seen| - if 0 <= s.holder < |s.cores| && s.cores[s.holder].pc.NextMark? then 1 else 0
  }

  ghost predicate CoresOk(cf: Config, s: State) {
    forall t | 0 <= t < |s.cores| :: CoreOk(cf, s.cores[t])
  }

  ghost predicate LockOk(s: State) {
    && NOBODY <= s.holder < |s.cores|
    && forall t | 0 <= t < |s.cores| :: InLock(s.cores[t].pc) <==> s.holder == t
  }

  /** What the core under the lock has read is still a lower bound, so a hook that is due stays due. */
  ghost predicate ReadsOk(s: State) {
    forall t | 0 <= t < |s.cores| ::
      && (s.cores[t].pc.LockedCompare? ==> s.cores[t].read <= s.counter)
      && (s.cores[t].pc.CallHook? ==> s.mark < s.counter)
  }

  ghost predicate HooksOk(cf: Config, s: State) {
    && 0 <= Marked(s) && s.mark == Times(Marked(s), cf.global)
    && (forall i | 0 <= i < |s.seen| :: Times(i, cf.global) < s.seen[i] <= s.counter)
    && (forall i, j | 0 <= i < j < |s.seen| :: s.seen[i] <= s.seen[j])
  }

  ghost predicate Inv(cf: Config, s: State) {
    s.counter == SumReported(s.cores) && CoresOk(cf, s) && LockOk(s) && ReadsOk(s) && HooksOk(cf, s)
  }

  lemma StartInv(cf: Config, s: State)
    requires Start(s) && cf.perCore > 0
    ensures Inv(cf, s)
  {
    NothingReported(s.cores);
  }

  lemma CounterKept(cf: Config, s: State, t: nat, count: nat)
    requires CoresOk(cf, s) && s.counter == SumReported(s.cores) && Enabled(s, t)
    ensures Step(cf, s, t, count).counter == SumReported(Step(cf, s, t, count).cores) >= s.counter
  {
    hide SumReported;
    assert CoreOk(cf, s.cores[t]);
    hide CoresOk;
    SumReportedUpdate(s.cores, t, Step(cf, s, t, count).cores[t]);
  }

  lemma CoresKept(cf: Config, s: State, t: nat, count: nat)
    requires CoresOk(cf, s) && Enabled(s, t) && cf.perCore > 0
    ensures CoresOk(cf, Step(cf, s, t, count))
  {
    var s' := Step(cf, s, t, count);
    assert forall u | 0 <= u < |s.cores| && u != t :: s'.cores[u] == s.cores[u];
    assert CoreOk(cf, s.cores[t]);
    assert CoreOk(cf, s'.cores[t]);
  }

  lemma LockKept(cf: Config, s: State, t: nat, count: nat)
    requires LockOk(s) && Enabled(s, t)
    ensures LockOk(Step(cf, s, t, count))
  {
  }

  lemma ReadsKept(cf: Config, s: State, t: nat, count: nat)
    requires ReadsOk(s) && LockOk(s) && Enabled(s, t) && s.counter <= Step(cf, s, t, count).counter
    ensures ReadsOk(Step(cf, s, t, count))
  {
    var s' := Step(cf, s, t, count);
    forall u | 0 <= u < |s.cores|
      ensures s'.cores[u].pc.LockedCompare? ==> s'.cores[u].read <= s'.counter
      ensures s'.cores[u].pc.CallHook? ==> s'.mark < s'.counter
    {
      assert u != t ==> s'.cores[u] == s.cores[u];
      assert InLock(s.cores[t].pc) && InLock(s.cores[u].pc) ==> u == t;
    }
  }

  lemma HooksKept(cf: Config, s: State, t: nat, count: nat)
    requires HooksOk(cf, s) && ReadsOk(s) && LockOk(s) && Enabled(s, t)
    requires s.counter <= Step(cf, s, t, count).counter
    ensures HooksOk(cf, Step(cf, s, t, count))
  {
    hide LockOk, Times;
    LockFacts(s, t);
    var s' := Step(cf, s, t, count);
    if s.cores[t].pc.NextMark? {
      TimesNext(|s.seen| - 1, cf.global);
    }
    assert s'.mark == Times(Marked(s'), cf.global);
  }

  lemma TimesNext(n: nat, d: nat)
    ensures Times(n + 1, d) == Times(n, d) + d
  {
  }

  lemma LockFacts(s: State, t: nat)
    requires LockOk(s) && t < |s.cores|
    ensures InLock(s.cores[t].pc) <==> s.holder == t
    ensures NOBODY <= s.holder < |s.cores|
  {
  }

  lemma StepKeepsInv(cf: Config, s: State, t: nat, count: nat)
    requires Inv(cf, s) && Enabled(s, t) && cf.perCore > 0
    ensures Inv(cf, Step(cf, s, t, count))
  {
    hide CoresOk, LockOk, ReadsOk, HooksOk, SumReported, Step;
    CounterKept(cf, s, t, count);
    CoresKept(cf, s, t, count);
    LockKept(cf, s, t, count);
    ReadsKept(cf, s, t, count);
    HooksKept(cf, s, t, count);
  }

  // ---------- runs ----------

  datatype Move = Move(core: nat, count: nat)

  ghost predicate StepAt(cf: Config, states: seq<State>, moves: seq<Move>, i: nat) {
    i < |moves| && i + 1 < |states| && Enabled(states[i], moves[i].core)
    && states[i + 1] == Step(cf, states[i], moves[i].core, moves[i].count)
  }

  ghost predicate IsRun(cf: Config, states: seq<State>, moves: seq<Move>) {
    && |states| == |moves| + 1 && Start(states[0])
    && forall i: nat {:trigger StepAt(cf, states, moves, i)} | i < |moves| :: StepAt(cf, states, moves, i)
  }

  lemma {:induction false} RunKeepsInv(cf: Config, states: seq<State>, moves: seq<Move>, i: nat)
    requires IsRun(cf, states, moves) && i <= |moves| && cf.perCore > 0
    ensures Inv(cf, states[i])
  {
    hide Inv, Step, Enabled, Start;
    if i == 0 {
      StartInv(cf, states[0]);
    } else {
      RunKeepsInv(cf, states, moves, i - 1);
      assert StepAt(cf, states, moves, i - 1);
      StepKeepsInv(cf, states[i - 1], moves[i - 1].core, moves[i - 1].count);
    }
  }

  lemma {:induction false} SumsAtRest(cf: Config, cores: seq<Core>)
    requires forall t | 0 <= t < |cores| :: cores[t].pc.Idle? && CoreOk(cf, cores[t])
    requires cf.perCore > 0
    ensures SumReported(cores) == SumLast(cores) <= SumExecuted(cores)
    ensures SumExecuted(cores) <= SumReported(cores) + Times(|cores|, cf.perCore - 1)
  {
    if cores != [] {
      var c := cores[|cores| - 1];
      assert c.pc.Idle? && CoreOk(cf, c);
      assert c.instructions - c.last <= cf.perCore - 1;
      SumsAtRest(cf, cores[..|cores| - 1]);
    }
  }

  /** Whenever no core is counting, the shared counter is the sum of what the cores reported last, and it is behind
      the true count by less than one interval per core. */
  lemma CounterLagsBoundedly(cf: Config, states: seq<State>, moves: seq<Move>, i: nat)
    requires IsRun(cf, states, moves) && i <= |moves| && cf.perCore > 0
    requires forall t | 0 <= t < |states[i].cores| :: states[i].cores[t].pc.Idle?
    ensures var s := states[i];
      && s.counter == SumLast(s.cores) <= SumExecuted(s.cores)
      && SumExecuted(s.cores) <= s.counter + |s.cores| * (cf.perCore - 1)
      && forall t | 0 <= t < |s.cores| :: s.cores[t].last <= s.cores[t].instructions < s.cores[t].last + cf.perCore
  {
    RunKeepsInv(cf, states, moves, i);
    assert CoresOk(cf, states[i]);
    SumsAtRest(cf, states[i].cores);
    TimesIsProduct(|states[i].cores|, cf.perCore - 1);
  }

  /** The hook is called with counts that never fall, the k-th call only after more than k - 1 global intervals, and
      no two cores are ever in the hook at once. */
  lemma HookFollowsCounter(cf: Config, states: seq<State>, moves: seq<Move>, i: nat)
    requires IsRun(cf, states, moves) && i <= |moves| && cf.perCore > 0
    ensures var s := states[i];
      && (s.seen != [] ==> (|s.seen| - 1) * cf.global < s.counter)
      && (forall k | 0 <= k < |s.seen| :: k * cf.global < s.seen[k] <= s.counter)
      && (forall j, k | 0 <= j < k < |s.seen| :: s.seen[j] <= s.seen[k])
      && (forall t, u | 0 <= t < |s.cores| && 0 <= u < |s.cores| && InLock(s.cores[t].pc) && InLock(s.cores[u].pc) ::
           t == u)
  {
    RunKeepsInv(cf, states, moves, i);
    var s := states[i];
    forall k | 0 <= k < |s.seen| ensures k * cf.global < s.seen[k] <= s.counter {
      TimesIsProduct(k, cf.global);
    }
    assert s.seen != [] ==> (|s.seen| - 1) * cf.global < s.seen[|s.seen| - 1] <= s.counter;
  }

  // ---------- no hook is missed ----------

  /** Where core t stands after it made the counter `count`, when the hook had been called `calls` times: the hook has
      been called with that count or more, or the mark is not behind it, or the core has yet to find out. */
  predicate Pursues(s: State, t: nat, count: int, calls: nat)
    requires t < |s.cores|
  {
    && count <= s.counter && calls <= |s.seen|
    && if calls < |s.seen| then count <= s.seen[calls] else
       match s.cores[t].pc
       case Idle => count <= s.mark
       case Unlock => count <= s.mark
       case QuickCompare => count <= s.cores[t].read
       case LockedCompare => count <= s.cores[t].read
       case NextMark => false
       case Check => false
       case Report => false
       case _ => true
  }

  lemma PursuitGoesOn(cf: Config, s: State, u: nat, n: nat, t: nat, count: int, calls: nat)
    requires Inv(cf, s) && Enabled(s, u) && t < |s.cores| && !s.cores[t].pc.Idle?
    requires Pursues(s, t, count, calls)
    ensures |Step(cf, s, u, n).cores| == |s.cores| && Pursues(Step(cf, s, u, n), t, count, calls)
  {
    CounterKept(cf, s, u, n);
    hide Inv;
    var s' := Step(cf, s, u, n);
    assert u != t ==> s'.cores[t] == s.cores[t];
  }

  lemma ReportPursues(cf: Config, s: State, t: nat, n: nat)
    requires Enabled(s, t) && s.cores[t].pc.Report?
    ensures var s' := Step(cf, s, t, n);
      |s'.cores| == |s.cores| && Pursues(s', t, s'.counter, |s.seen|) && s'.seen == s.seen
  {
  }

  lemma {:induction false} ReportIsPursued(cf: Config, states: seq<State>, moves: seq<Move>, i: nat, j: nat)
    requires IsRun(cf, states, moves) && i < j <= |moves| && cf.perCore > 0
    requires moves[i].core < |states[i].cores| && states[i].cores[moves[i].core].pc.Report?
    requires forall k | i < k < j && moves[i].core < |states[k].cores| :: !states[k].cores[moves[i].core].pc.Idle?
    ensures moves[i].core < |states[j].cores|
    ensures Pursues(states[j], moves[i].core, states[i + 1].counter, |states[i].seen|)
  {
    hide Inv, Step, Enabled, Start, Pursues;
    assert StepAt(cf, states, moves, j - 1);
    if i + 1 == j {
      ReportPursues(cf, states[i], moves[i].core, moves[i].count);
    } else {
      ReportIsPursued(cf, states, moves, i, j - 1);
      RunKeepsInv(cf, states, moves, j - 1);
      PursuitGoesOn(cf, states[j - 1], moves[j - 1].core, moves[j - 1].count, moves[i].core, states[i + 1].counter,
                    |states[i].seen|);
    }
  }

  /** No hook is missed: once a core that brought the counter up is back at rest, either the hook has been called in
      the meantime, with that count or a later one, or the mark is not behind that count. */
  lemma NoHookMissed(cf: Config, states: seq<State>, moves: seq<Move>, i: nat, j: nat)
    requires IsRun(cf, states, moves) && i < j <= |moves| && cf.perCore > 0
    requires moves[i].core < |states[i].cores| && states[i].cores[moves[i].core].pc.Report?
    requires forall k | i < k < j && moves[i].core < |states[k].cores| :: !states[k].cores[moves[i].core].pc.Idle?
    requires moves[i].core < |states[j].cores| && states[j].cores[moves[i].core].pc.Idle?
    ensures |states[i].seen| <= |states[j].seen|
    ensures if |states[i].seen| < |states[j].seen| then states[i + 1].counter <= states[j].seen[|states[i].seen|]
      else states[i + 1].counter <= states[j].mark
  {
    hide IsRun;
    ReportIsPursued(cf, states, moves, i, j);
  }
}
