/** `MTCircularQueue::push_wait` and `pop_wait` as interleaved steps of any number of threads, each of
    which keeps pushing or keeps popping. Producers wait on m_full, consumers on m_empty. */
module MTQueue {

  type Value(==, !new)

  datatype Role = Producer | Consumer

  /** Where a thread is inside push_wait or pop_wait; the comment names what it does next. */
  datatype PC =
    | Idle                  // acquire m_lock
    | Check(again: bool)    // while full (or empty); again after having waited
    | WaitLock              // m_full.wait (m_empty.wait): acquire the condition's own lock
    | WaitClear             //   m_futx = 0
    | WaitUnlock            //   release the condition's own lock
    | WaitRelease           //   release m_lock
    | FutexWait             //   sleep if m_futx is still 0
    | Asleep                //   (sleeping)
    | Reacquire             //   acquire m_lock again
    | Act                   // push or pop, and see whether the queue was empty (or full)
    | SignalLock            // m_empty.signal (m_full.signal): acquire the condition's own lock
    | SignalSet             //   m_futx = 1
    | SignalWake            //   wake one sleeper
    | SignalUnlock          //   release the condition's own lock
    | Release               // release m_lock, return

  datatype Cond = Cond(futx: int, locked: bool)

  datatype State = State(
    pc: seq<PC>, contents: seq<Value>, locked: bool, full: Cond, empty: Cond,
    pushed: seq<Value>, popped: seq<Value>, done: seq<nat>)

  datatype Config = Config(roles: seq<Role>, capacity: nat)

  predicate WellFormed(cf: Config, s: State) {
    |s.pc| == |s.done| == |cf.roles|
  }

  function Init(cf: Config): State {
    State(seq(|cf.roles|, _ => Idle), [], false, Cond(0, false), Cond(0, false), [], [], seq(|cf.roles|, _ => 0))
  }

  /** The condition a thread of this role waits on, and the one it signals. */
  function Own(s: State, role: Role): Cond {
    if role.Producer? then s.full else s.empty
  }

  function Other(s: State, role: Role): Cond {
    if role.Producer? then s.empty else s.full
  }

  function SetOwn(s: State, role: Role, c: Cond): State {
    if role.Producer? then s.(full := c) else s.(empty := c)
  }

  function SetOther(s: State, role: Role, c: Cond): State {
    if role.Producer? then s.(empty := c) else s.(full := c)
  }

  predicate MustWait(cf: Config, s: State, role: Role) {
    if role.Producer? then |s.contents| == cf.capacity else s.contents == []
  }

  /** The queue operations signal only when they end a state in which the other side waits. */
  predicate MustSignal(cf: Config, s: State, role: Role) {
    if role.Producer? then s.contents == [] else |s.contents| == cf.capacity
  }

  /** A step of thread t; a push pushes v, and a signal wakes thread w if anybody sleeps on the condition. */
  predicate Enabled(cf: Config, s: State, t: nat, w: nat) {
    && WellFormed(cf, s) && t < |cf.roles|
    && match s.pc[t]
       case Idle | Reacquire => !s.locked
       case WaitLock => !Own(s, cf.roles[t]).locked
       case SignalLock => !Other(s, cf.roles[t]).locked
       case SignalWake => NobodyToWake(cf, s, t) || Wakeable(cf, s, t, w)
       case Act => !MustWait(cf, s, cf.roles[t])  // the assertions in push and pop
       case Asleep => false
       case _ => true
  }

  predicate Wakeable(cf: Config, s: State, t: nat, w: nat)
    requires WellFormed(cf, s) && t < |cf.roles|
  {
    w < |cf.roles| && s.pc[w].Asleep? && cf.roles[w] != cf.roles[t]
  }

  predicate NobodyToWake(cf: Config, s: State, t: nat)
    requires WellFormed(cf, s) && t < |cf.roles|
  {
    forall w | 0 <= w < |cf.roles| :: !Wakeable(cf, s, t, w)
  }

  function Goto(s: State, t: nat, pc: PC): State
    requires t < |s.pc|
  {
    s.(pc := s.pc[t := pc])
  }

  function Step(cf: Config, s: State, t: nat, v: Value, w: nat): State
    requires Enabled(cf, s, t, w)
  {
    var role := cf.roles[t];
    match s.pc[t]
    case Idle => Goto(s, t, Check(false)).(locked := true)
    case Check(_) => Goto(s, t, if MustWait(cf, s, role) then WaitLock else Act)
    case WaitLock => SetOwn(Goto(s, t, WaitClear), role, Own(s, role).(locked := true))
    case WaitClear => SetOwn(Goto(s, t, WaitUnlock), role, Own(s, role).(futx := 0))
    case WaitUnlock => SetOwn(Goto(s, t, WaitRelease), role, Own(s, role).(locked := false))
    case WaitRelease => Goto(s, t, FutexWait).(locked := false)
    case FutexWait => Goto(s, t, if Own(s, role).futx == 0 then Asleep else Reacquire)
    case Reacquire => Goto(s, t, Check(true)).(locked := true)
    case Act =>
      var s' := Goto(s, t, if MustSignal(cf, s, role) then SignalLock else Release);
      if role.Producer? then
        s'.(contents := s.contents + [v], pushed := s.pushed + [v])
      else
        s'.(contents := s.contents[1..], popped := s.popped + [s.contents[0]])
    case SignalLock => SetOther(Goto(s, t, SignalSet), role, Other(s, role).(locked := true))
    case SignalSet => SetOther(Goto(s, t, SignalWake), role, Other(s, role).(futx := 1))
    case SignalWake =>
      var s' := Goto(s, t, SignalUnlock);
      if Wakeable(cf, s, t, w) then Goto(s', w, Reacquire) else s'
    case SignalUnlock => SetOther(Goto(s, t, Release), role, Other(s, role).(locked := false))
    case Release => Goto(s, t, Idle).(locked := false, done := s.done[t := s.done[t] + 1])
  }

  // ---------- any number of threads: first in, first out ----------

  predicate HoldsLock(p: PC) {
    !p.Idle? && !p.FutexWait? && !p.Asleep? && !p.Reacquire?
  }

  /** m_lock is taken exactly while one thread is between taking and releasing it. */
  ghost predicate LockOwned(pc: seq<PC>, taken: bool) {
    && (forall t | 0 <= t < |pc| && HoldsLock(pc[t]) :: taken)
    && (forall t, u | 0 <= t < |pc| && 0 <= u < |pc| && HoldsLock(pc[t]) && HoldsLock(pc[u]) :: t == u)
  }

  /** What has been popped, followed by what is queued, is what has been pushed. */
  ghost predicate Fifo(cf: Config, s: State) {
    && WellFormed(cf, s) && LockOwned(s.pc, s.locked)
    && s.pushed == s.popped + s.contents && |s.contents| <= cf.capacity
    && forall t | 0 <= t < |cf.roles| && s.pc[t].Act? :: !MustWait(cf, s, cf.roles[t])
  }

  lemma LockMove(pc: seq<PC>, pc': seq<PC>, t: nat, taken: bool, taken': bool)
    requires |pc| == |pc'| && t < |pc| && LockOwned(pc, taken)
    requires forall u | 0 <= u < |pc| && u != t :: HoldsLock(pc'[u]) == HoldsLock(pc[u])
    requires HoldsLock(pc[t]) == HoldsLock(pc'[t]) ==> taken' == taken
    requires !HoldsLock(pc[t]) && HoldsLock(pc'[t]) ==> !taken && taken'
    requires HoldsLock(pc[t]) && !HoldsLock(pc'[t]) ==> !taken'
    ensures LockOwned(pc', taken')
  {
    if HoldsLock(pc[t]) && !HoldsLock(pc'[t]) {
      assert forall u | 0 <= u < |pc| && u != t :: !HoldsLock(pc'[u]);
    }
  }

  lemma StepKeepsFifo(cf: Config, s: State, t: nat, v: Value, w: nat)
    requires Fifo(cf, s) && Enabled(cf, s, t, w)
    ensures Fifo(cf, Step(cf, s, t, v, w))
    ensures s.popped <= Step(cf, s, t, v, w).popped && s.pushed <= Step(cf, s, t, v, w).pushed
  {
    assert HoldsLock(s.pc[t]) ==> s.locked;
    LockKept(cf, s, t, v, w);
    hide LockOwned;
    var s' := Step(cf, s, t, v, w);
    assert s'.pushed == s'.popped + s'.contents;
  }

  lemma LockKept(cf: Config, s: State, t: nat, v: Value, w: nat)
    requires WellFormed(cf, s) && LockOwned(s.pc, s.locked) && Enabled(cf, s, t, w)
    ensures LockOwned(Step(cf, s, t, v, w).pc, Step(cf, s, t, v, w).locked)
  {
    assert HoldsLock(s.pc[t]) ==> s.locked;
    hide LockOwned;
    LockMove(s.pc, Step(cf, s, t, v, w).pc, t, s.locked, Step(cf, s, t, v, w).locked);
  }

  // ---------- runs ----------

  datatype Move = Move(t: nat, v: Value, w: nat)

  ghost predicate MoveAt(cf: Config, states: seq<State>, moves: seq<Move>, i: nat)
    requires i < |moves| && |states| == |moves| + 1
  {
    && Enabled(cf, states[i], moves[i].t, moves[i].w)
    && states[i + 1] == Step(cf, states[i], moves[i].t, moves[i].v, moves[i].w)
  }

  ghost predicate IsRun(cf: Config, states: seq<State>, moves: seq<Move>) {
    && |states| == |moves| + 1 && states[0] == Init(cf)
    && forall i | 0 <= i < |moves| :: MoveAt(cf, states, moves, i)
  }

  ghost predicate Reachable(cf: Config, s: State) {
    exists states, moves :: IsRun(cf, states, moves) && states[|moves|] == s
  }

  lemma {:induction false} RunIsFifo(cf: Config, states: seq<State>, moves: seq<Move>, i: nat)
    requires IsRun(cf, states, moves) && i <= |moves|
    ensures Fifo(cf, states[i])
  {
    if i > 0 {
      RunIsFifo(cf, states, moves, i - 1);
      var m := moves[i - 1];
      assert MoveAt(cf, states, moves, i - 1);
      StepKeepsFifo(cf, states[i - 1], m.t, m.v, m.w);
    }
  }

  /** With any number of producers and consumers, the values popped are always a prefix of the values pushed,
      and no assertion of the underlying ring can fail. */
  lemma PoppedIsPrefixOfPushed(cf: Config, s: State)
    requires Reachable(cf, s)
    ensures s.popped <= s.pushed && |s.pushed| - |s.popped| == |s.contents| <= cf.capacity
    ensures WellFormed(cf, s) && forall t | 0 <= t < |cf.roles| && s.pc[t].Act? :: !MustWait(cf, s, cf.roles[t])
  {
    var states, moves :| IsRun(cf, states, moves) && states[|moves|] == s;
    RunIsFifo(cf, states, moves, |moves|);
  }

  // ---------- any number of threads: no deadlock ----------

  predicate Has(cf: Config, t: nat, role: Role) {
    t < |cf.roles| && cf.roles[t] == role
  }

  /** Past clearing the futex word, and not woken. */
  predicate Waits(cf: Config, s: State, t: nat, role: Role)
    requires WellFormed(cf, s)
  {
    Has(cf, t, role) && (s.pc[t].WaitUnlock? || s.pc[t].WaitRelease? || s.pc[t].FutexWait? || s.pc[t].Asleep?)
  }

  /** About to set the futex word of the role. */
  predicate Owes(cf: Config, s: State, t: nat, role: Role)
    requires WellFormed(cf, s)
  {
    t < |cf.roles| && cf.roles[t] != role && (s.pc[t].SignalLock? || s.pc[t].SignalSet?)
  }

  predicate Wakes(cf: Config, s: State, t: nat, role: Role)
    requires WellFormed(cf, s)
  {
    t < |cf.roles| && cf.roles[t] != role && s.pc[t].SignalWake?
  }

  predicate Awake(cf: Config, s: State, t: nat, role: Role)
    requires WellFormed(cf, s)
  {
    Has(cf, t, role) && !s.pc[t].Asleep?
  }

  /** Between taking and releasing the lock of the condition that threads of the role wait on. */
  predicate HoldsCond(cf: Config, s: State, t: nat, role: Role)
    requires WellFormed(cf, s)
  {
    || (Has(cf, t, role) && (s.pc[t].WaitClear? || s.pc[t].WaitUnlock?))
    || (t < |cf.roles| && cf.roles[t] != role && (s.pc[t].SignalSet? || s.pc[t].SignalWake? || s.pc[t].SignalUnlock?))
  }

  /** In cond.wait, with m_lock still held. */
  predicate BeginsWait(p: PC) {
    p.WaitLock? || p.WaitClear? || p.WaitUnlock? || p.WaitRelease?
  }

  ghost predicate WaitsRightly(cf: Config, s: State, role: Role)
    requires WellFormed(cf, s)
  {
    forall t: nat | Has(cf, t, role) && BeginsWait(s.pc[t]) :: MustWait(cf, s, role)
  }

  /** With the futex word cleared, the threads that wait still have to, or are about to be signalled. */
  ghost predicate ClearedRightly(cf: Config, s: State, role: Role)
    requires WellFormed(cf, s)
  {
    Own(s, role).futx == 0 ==>
      (forall t :: !Waits(cf, s, t, role)) || MustWait(cf, s, role) || exists u :: Owes(cf, s, u, role)
  }

  /** With the futex word set, some thread of the role is awake, or about to be woken. */
  ghost predicate SetRightly(cf: Config, s: State, role: Role)
    requires WellFormed(cf, s)
  {
    Own(s, role).futx != 0 ==> (exists u :: Awake(cf, s, u, role)) || exists u :: Wakes(cf, s, u, role)
  }

  ghost predicate RoleInv(cf: Config, s: State, role: Role)
    requires WellFormed(cf, s)
  {
    && WaitsRightly(cf, s, role) && ClearedRightly(cf, s, role) && SetRightly(cf, s, role)
    && (Own(s, role).locked ==> exists u :: HoldsCond(cf, s, u, role))
  }

  predicate Held(s: State, t: nat) {
    t < |s.pc| && HoldsLock(s.pc[t])
  }

  ghost predicate TeamInv(cf: Config, s: State) {
    && Fifo(cf, s) && (s.locked ==> exists u :: Held(s, u))
    && RoleInv(cf, s, Producer) && RoleInv(cf, s, Consumer)
  }

  lemma OnlyHolder(s: State, t: nat, u: nat)
    requires LockOwned(s.pc, s.locked) && Held(s, t) && Held(s, u)
    ensures t == u
  {
  }

  /** Only the thread that steps moves, and one it wakes. */
  lemma OthersMove(cf: Config, s: State, t: nat, v: Value, w: nat, u: nat)
    requires Enabled(cf, s, t, w) && u < |cf.roles| && u != t
    ensures WellFormed(cf, Step(cf, s, t, v, w))
    ensures var p, p' := s.pc[u], Step(cf, s, t, v, w).pc[u]; p' == p || (p.Asleep? && p'.Reacquire?)
    ensures Step(cf, s, t, v, w).contents == s.contents || s.pc[t].Act?
  {
  }

  lemma WaitsRightlyKept(cf: Config, s: State, t: nat, v: Value, w: nat, role: Role)
    requires Fifo(cf, s) && Enabled(cf, s, t, w) && WaitsRightly(cf, s, role)
    ensures WellFormed(cf, Step(cf, s, t, v, w)) && WaitsRightly(cf, Step(cf, s, t, v, w), role)
  {
    var s' := Step(cf, s, t, v, w);
    forall u: nat | Has(cf, u, role) && BeginsWait(s'.pc[u]) ensures MustWait(cf, s', role) {
      if u != t {
        OthersMove(cf, s, t, v, w, u);
        if s.pc[t].Act? {
          OnlyHolder(s, t, u);
        }
      }
    }
  }

  lemma ClearedRightlyKept(cf: Config, s: State, t: nat, v: Value, w: nat, role: Role)
    requires Fifo(cf, s) && Enabled(cf, s, t, w) && WaitsRightly(cf, s, role) && ClearedRightly(cf, s, role)
    ensures WellFormed(cf, Step(cf, s, t, v, w)) && ClearedRightly(cf, Step(cf, s, t, v, w), role)
  {
    var s' := Step(cf, s, t, v, w);
    if Own(s', role).futx == 0 && !(s.pc[t].WaitClear? && cf.roles[t] == role) {
      assert Own(s, role).futx == 0;
      if u :| Owes(cf, s, u, role) {
        if u != t {
          OthersMove(cf, s, t, v, w, u);
        }
        assert Owes(cf, s', u, role);
      } else if MustWait(cf, s, role) {
        if s.pc[t].Act? {
          assert Owes(cf, s', t, role);
        }
      } else {
        forall u: nat ensures !Waits(cf, s', u, role) {
          assert !Waits(cf, s, u, role);
          if u < |cf.roles| && u != t {
            OthersMove(cf, s, t, v, w, u);
          }
        }
      }
    }
  }

  lemma SetRightlyKept(cf: Config, s: State, t: nat, v: Value, w: nat, role: Role, r: nat)
    requires Fifo(cf, s) && Enabled(cf, s, t, w) && SetRightly(cf, s, role) && Has(cf, r, role)
    ensures WellFormed(cf, Step(cf, s, t, v, w)) && SetRightly(cf, Step(cf, s, t, v, w), role)
  {
    var s' := Step(cf, s, t, v, w);
    if Own(s', role).futx != 0 {
      if Own(s, role).futx == 0 {
        assert Wakes(cf, s', t, role);
      } else if u :| Awake(cf, s, u, role) {
        if u != t {
          OthersMove(cf, s, t, v, w, u);
        }
        assert Awake(cf, s', u, role);
      } else {
        var u :| Wakes(cf, s, u, role);
        if u != t {
          OthersMove(cf, s, t, v, w, u);
          assert Wakes(cf, s', u, role);
        } else {
          assert !Awake(cf, s, r, role);
          assert Wakeable(cf, s, t, r);
          assert Awake(cf, s', w, role);
        }
      }
    }
  }

  lemma CondHeldKept(cf: Config, s: State, t: nat, v: Value, w: nat, role: Role)
    requires Enabled(cf, s, t, w) && (Own(s, role).locked ==> exists u :: HoldsCond(cf, s, u, role))
    ensures WellFormed(cf, Step(cf, s, t, v, w))
    ensures var s' := Step(cf, s, t, v, w); Own(s', role).locked ==> exists u :: HoldsCond(cf, s', u, role)
  {
    var s' := Step(cf, s, t, v, w);
    if Own(s', role).locked {
      if !Own(s, role).locked {
        assert HoldsCond(cf, s', t, role);
      } else {
        var u :| HoldsCond(cf, s, u, role);
        if u != t {
          OthersMove(cf, s, t, v, w, u);
        }
        assert HoldsCond(cf, s', u, role);
      }
    }
  }

  lemma LockHeldKept(cf: Config, s: State, t: nat, v: Value, w: nat)
    requires Fifo(cf, s) && Enabled(cf, s, t, w) && (s.locked ==> exists u :: Held(s, u))
    ensures var s' := Step(cf, s, t, v, w); s'.locked ==> exists u :: Held(s', u)
  {
    var s' := Step(cf, s, t, v, w);
    if s'.locked {
      if !s.locked {
        assert Held(s', t);
      } else {
        var u :| Held(s, u);
        if u != t {
          OthersMove(cf, s, t, v, w, u);
        }
        assert Held(s', u);
      }
    }
  }

  lemma StepKeepsTeam(cf: Config, s: State, t: nat, v: Value, w: nat, p: nat, c: nat)
    requires TeamInv(cf, s) && Enabled(cf, s, t, w) && Has(cf, p, Producer) && Has(cf, c, Consumer)
    ensures TeamInv(cf, Step(cf, s, t, v, w))
  {
    hide Step, Enabled, LockOwned, WaitsRightly, ClearedRightly, SetRightly;
    StepKeepsFifo(cf, s, t, v, w);
    LockHeldKept(cf, s, t, v, w);
    forall role: Role ensures RoleInv(cf, Step(cf, s, t, v, w), role) {
      assert RoleInv(cf, s, if role.Producer? then Producer else Consumer);
      WaitsRightlyKept(cf, s, t, v, w, role);
      ClearedRightlyKept(cf, s, t, v, w, role);
      SetRightlyKept(cf, s, t, v, w, role, if role.Producer? then p else c);
      CondHeldKept(cf, s, t, v, w, role);
    }
  }

  lemma InitTeam(cf: Config)
    ensures TeamInv(cf, Init(cf))
  {
    var s := Init(cf);
    forall role: Role ensures RoleInv(cf, s, role) {
      assert Own(s, role) == Cond(0, false);
    }
  }

  lemma {:induction false} RunKeepsTeam(cf: Config, states: seq<State>, moves: seq<Move>, i: nat, p: nat, c: nat)
    requires IsRun(cf, states, moves) && i <= |moves| && Has(cf, p, Producer) && Has(cf, c, Consumer)
    ensures TeamInv(cf, states[i])
  {
    if i == 0 {
      InitTeam(cf);
    } else {
      hide TeamInv, Step, Enabled;
      RunKeepsTeam(cf, states, moves, i - 1, p, c);
      var m := moves[i - 1];
      assert MoveAt(cf, states, moves, i - 1);
      StepKeepsTeam(cf, states[i - 1], m.t, m.v, m.w, p, c);
    }
  }

  /** Whatever the numbers of producers and consumers, they never all sleep. */
  lemma SomebodyIsAwake(cf: Config, s: State, p: nat, c: nat) returns (t: nat)
    requires Reachable(cf, s) && cf.capacity > 0 && Has(cf, p, Producer) && Has(cf, c, Consumer)
    ensures WellFormed(cf, s) && t < |cf.roles| && !s.pc[t].Asleep?
  {
    var states, moves :| IsRun(cf, states, moves) && states[|moves|] == s;
    RunKeepsTeam(cf, states, moves, |moves|, p, c);
    NotAllAsleep(cf, s, p, c);
    t :| t < |cf.roles| && !s.pc[t].Asleep?;
  }

  lemma NotAllAsleep(cf: Config, s: State, p: nat, c: nat)
    requires TeamInv(cf, s) && cf.capacity > 0 && Has(cf, p, Producer) && Has(cf, c, Consumer)
    ensures exists t: nat :: t < |cf.roles| && !s.pc[t].Asleep?
  {
    assert s.pc[p].Asleep? ==> Waits(cf, s, p, Producer);
    assert s.pc[c].Asleep? ==> Waits(cf, s, c, Consumer);
  }

  /** And some thread can always step. */
  lemma TeamNeverStuck(cf: Config, s: State, p: nat, c: nat) returns (t: nat, w: nat)
    requires Reachable(cf, s) && cf.capacity > 0 && Has(cf, p, Producer) && Has(cf, c, Consumer)
    ensures Enabled(cf, s, t, w)
  {
    t := SomebodyIsAwake(cf, s, p, c);
    var states, moves :| IsRun(cf, states, moves) && states[|moves|] == s;
    RunKeepsTeam(cf, states, moves, |moves|, p, c);
    w := t;
    if s.locked {
      t :| Held(s, t);
      w := HolderCanStep(cf, s, t);
    }
  }

  /** Whoever holds m_lock can go on: it finds every other lock free. */
  lemma HolderCanStep(cf: Config, s: State, t: nat) returns (w: nat)
    requires TeamInv(cf, s) && Held(s, t)
    ensures Enabled(cf, s, t, w)
  {
    w := t;
    forall role: Role, u | HoldsCond(cf, s, u, role) ensures u == t {
      OnlyHolder(s, t, u);
    }
    assert RoleInv(cf, s, cf.roles[t]);
    if s.pc[t].SignalWake? && !NobodyToWake(cf, s, t) {
      w :| 0 <= w < |cf.roles| && Wakeable(cf, s, t, w);
    }
  }

  // ---------- several consumers: a forgotten sleeper ----------

  lemma ReachNext(cf: Config, s: State, t: nat, v: Value, w: nat) returns (s': State)
    requires Reachable(cf, s) && Enabled(cf, s, t, w)
    ensures s' == Step(cf, s, t, v, w) && Reachable(cf, s')
  {
    hide Step, Enabled;
    s' := Step(cf, s, t, v, w);
    var states, moves :| IsRun(cf, states, moves) && states[|moves|] == s;
    var states', moves' := states + [s'], moves + [Move(t, v, w)];
    forall i | 0 <= i < |moves'| ensures MoveAt(cf, states', moves', i) {
      assert i < |moves| ==> MoveAt(cf, states, moves, i);
    }
    assert IsRun(cf, states', moves') && states'[|moves'|] == s';
  }

  /** Nobody is inside a call, or everybody who is sleeps. */
  ghost predicate Resting(cf: Config, s: State, t: nat) {
    && Reachable(cf, s) && WellFormed(cf, s) && t < |cf.roles| && s.pc[t].Idle?
    && !s.locked && !s.full.locked && !s.empty.locked
  }

  /** A thread that has to wait goes to sleep. */
  lemma FallsAsleep(cf: Config, s: State, t: nat, v: Value) returns (s': State)
    requires Resting(cf, s, t) && MustWait(cf, s, cf.roles[t])
    ensures Reachable(cf, s') && s' == SetOwn(Goto(s, t, Asleep), cf.roles[t], Cond(0, false))
  {
    hide Reachable;
    var s1 := ReachNext(cf, s, t, v, 0);
    var s2 := ReachNext(cf, s1, t, v, 0);
    var s3 := ReachNext(cf, s2, t, v, 0);
    var s4 := ReachNext(cf, s3, t, v, 0);
    var s5 := ReachNext(cf, s4, t, v, 0);
    var s6 := ReachNext(cf, s5, t, v, 0);
    s' := ReachNext(cf, s6, t, v, 0);
    assert s'.pc == s.pc[t := Asleep];
  }

  /** A push to an empty queue wakes a consumer. */
  lemma PushWakes(cf: Config, s: State, t: nat, v: Value, w: nat) returns (s': State)
    requires Resting(cf, s, t) && cf.roles[t] == Producer && s.contents == [] && cf.capacity > 0
    requires Wakeable(cf, s, t, w)
    ensures Reachable(cf, s')
    ensures s' == s.(pc := s.pc[w := Reacquire], contents := [v], pushed := s.pushed + [v], empty := Cond(1, false),
                     done := s.done[t := s.done[t] + 1])
  {
    hide Reachable;
    var s1 := ReachNext(cf, s, t, v, 0);
    var s2 := ReachNext(cf, s1, t, v, 0);
    var s3 := ReachNext(cf, s2, t, v, 0);
    var s4 := ReachNext(cf, s3, t, v, 0);
    var s5 := ReachNext(cf, s4, t, v, 0);
    assert Wakeable(cf, s5, t, w);
    var s6 := ReachNext(cf, s5, t, v, w);
    var s7 := ReachNext(cf, s6, t, v, 0);
    s' := ReachNext(cf, s7, t, v, 0);
    assert s'.pc == s.pc[w := Reacquire];
  }

  /** A push to any other queue wakes nobody. */
  lemma PushIsSilent(cf: Config, s: State, t: nat, v: Value) returns (s': State)
    requires Resting(cf, s, t) && cf.roles[t] == Producer && s.contents != [] && |s.contents| < cf.capacity
    ensures Reachable(cf, s')
    ensures s' == s.(contents := s.contents + [v], pushed := s.pushed + [v], done := s.done[t := s.done[t] + 1])
  {
    hide Reachable;
    var s1 := ReachNext(cf, s, t, v, 0);
    var s2 := ReachNext(cf, s1, t, v, 0);
    var s3 := ReachNext(cf, s2, t, v, 0);
    s' := ReachNext(cf, s3, t, v, 0);
    assert s'.pc == s.pc;
  }

  /** A consumer that was woken pops a value and returns. */
  lemma WokenPops(cf: Config, s: State, t: nat, v: Value) returns (s': State)
    requires Reachable(cf, s) && WellFormed(cf, s) && Has(cf, t, Consumer) && s.pc[t].Reacquire? && !s.locked
    requires 0 < |s.contents| < cf.capacity
    ensures Reachable(cf, s')
    ensures s' == s.(pc := s.pc[t := Idle], contents := s.contents[1..], popped := s.popped + [s.contents[0]],
                     done := s.done[t := s.done[t] + 1])
  {
    hide Reachable;
    var s1 := ReachNext(cf, s, t, v, 0);
    var s2 := ReachNext(cf, s1, t, v, 0);
    var s3 := ReachNext(cf, s2, t, v, 0);
    s' := ReachNext(cf, s3, t, v, 0);
    assert s'.pc == s.pc[t := Idle];
  }

  lemma StartResting(cf: Config, t: nat)
    requires t < |cf.roles|
    ensures Resting(cf, Init(cf), t)
  {
    assert IsRun(cf, [Init(cf)], []);
  }

  /** One producer and two consumers: both consumers go to sleep, two values are pushed, the one that was woken pops one
      and returns. The other sleeps on although there is a value for it, and nobody is inside a call. */
  lemma SleeperIsForgotten(capacity: nat, v: Value) returns (s: State)
    requires capacity >= 3
    ensures var cf := Config([Producer, Consumer, Consumer], capacity);
      && Reachable(cf, s) && WellFormed(cf, s)
      && s.pc == [Idle, Idle, Asleep] && s.contents == [v] && s.done == [2, 1, 0]
  {
    hide Step, Reachable;
    var cf := Config([Producer, Consumer, Consumer], capacity);
    var s0 := Init(cf);
    StartResting(cf, 1);
    var s1 := FallsAsleep(cf, s0, 1, v);
    var s2 := FallsAsleep(cf, s1, 2, v);
    var s3 := PushWakes(cf, s2, 0, v, 1);
    var s4 := PushIsSilent(cf, s3, 0, v);
    s := WokenPops(cf, s4, 1, v);
  }

  // ---------- one producer and one consumer ----------

  predicate OneEach(cf: Config) {
    cf.roles == [Producer, Consumer] && cf.capacity > 0
  }

  function Partner(t: nat): nat {
    if t == 0 then 1 else 0
  }

  /** Between giving up m_lock and getting it back. */
  predicate AtFutex(p: PC) {
    p.FutexWait? || p.Asleep?
  }

  /** Thread t, and what its partner owes it: as long as t sleeps or is about to, either it still has to wait,
      or its partner is about to signal, or the signal has been sent. */
  ghost predicate Served(cf: Config, s: State, t: nat)
    requires OneEach(cf) && WellFormed(cf, s) && t < 2
  {
    var role, p, q := cf.roles[t], s.pc[t], s.pc[Partner(t)];
    && (p.WaitLock? || p.WaitClear? || p.WaitUnlock? || p.WaitRelease? ==> MustWait(cf, s, role))
    && (p.WaitUnlock? || p.WaitRelease? ==> Own(s, role).futx == 0)
    && (AtFutex(p) && Own(s, role).futx == 0 ==> MustWait(cf, s, role) || q.SignalLock? || q.SignalSet?)
    && (AtFutex(p) && Own(s, role).futx != 0 ==> !MustWait(cf, s, role))
    && (p.Asleep? && Own(s, role).futx != 0 ==> q.SignalWake?)
    && (p.Reacquire? || p.Act? || (p.Check? && p.again) ==> !MustWait(cf, s, role))
    && (q.SignalLock? || q.SignalSet? ==> !MustWait(cf, s, role))
    && (q.SignalWake? ==> Own(s, role).futx != 0)
    && (Own(s, role).locked <==> p.WaitClear? || p.WaitUnlock? || q.SignalSet? || q.SignalWake? || q.SignalUnlock?)
  }

  ghost predicate PairInv(cf: Config, s: State) {
    && OneEach(cf) && WellFormed(cf, s)
    && (s.locked <==> HoldsLock(s.pc[0]) || HoldsLock(s.pc[1]))
    && !(HoldsLock(s.pc[0]) && HoldsLock(s.pc[1]))
    && |s.contents| <= cf.capacity
    && Served(cf, s, 0) && Served(cf, s, 1)
  }

  lemma InitPair(cf: Config)
    requires OneEach(cf)
    ensures PairInv(cf, Init(cf))
  {
  }

  lemma EnterKeepsPair(cf: Config, s: State, t: nat, v: Value, w: nat)
    requires PairInv(cf, s) && Enabled(cf, s, t, w)
    requires s.pc[t].Idle? || s.pc[t].Release?
    ensures PairInv(cf, Step(cf, s, t, v, w))
  {
  }

  lemma CheckKeepsPair(cf: Config, s: State, t: nat, v: Value, w: nat)
    requires PairInv(cf, s) && Enabled(cf, s, t, w)
    requires s.pc[t].Check?
    ensures PairInv(cf, Step(cf, s, t, v, w))
  {
  }

  lemma WaitKeepsPair(cf: Config, s: State, t: nat, v: Value, w: nat)
    requires PairInv(cf, s) && Enabled(cf, s, t, w)
    requires s.pc[t].WaitLock? || s.pc[t].WaitClear? || s.pc[t].WaitUnlock? || s.pc[t].WaitRelease?
    ensures PairInv(cf, Step(cf, s, t, v, w))
  {
  }

  lemma WakeUpKeepsPair(cf: Config, s: State, t: nat, v: Value, w: nat)
    requires PairInv(cf, s) && Enabled(cf, s, t, w)
    requires s.pc[t].FutexWait? || s.pc[t].Reacquire?
    ensures PairInv(cf, Step(cf, s, t, v, w))
  {
  }

  lemma ActKeepsPair(cf: Config, s: State, t: nat, v: Value, w: nat)
    requires PairInv(cf, s) && Enabled(cf, s, t, w)
    requires s.pc[t].Act?
    ensures PairInv(cf, Step(cf, s, t, v, w))
  {
  }

  lemma SignalKeepsPair(cf: Config, s: State, t: nat, v: Value, w: nat)
    requires PairInv(cf, s) && Enabled(cf, s, t, w)
    requires s.pc[t].SignalLock? || s.pc[t].SignalSet? || s.pc[t].SignalUnlock?
    ensures PairInv(cf, Step(cf, s, t, v, w))
  {
  }

  lemma SignalWakeKeepsPair(cf: Config, s: State, t: nat, v: Value, w: nat)
    requires PairInv(cf, s) && Enabled(cf, s, t, w)
    requires s.pc[t].SignalWake?
    ensures PairInv(cf, Step(cf, s, t, v, w))
  {
    assert Wakeable(cf, s, t, Partner(t)) <==> s.pc[Partner(t)].Asleep?;
  }

  lemma StepKeepsPair(cf: Config, s: State, t: nat, v: Value, w: nat)
    requires PairInv(cf, s) && Enabled(cf, s, t, w)
    ensures PairInv(cf, Step(cf, s, t, v, w))
  {
    hide PairInv;
    match s.pc[t]
    case Idle | Release => EnterKeepsPair(cf, s, t, v, w);
    case Check(_) => CheckKeepsPair(cf, s, t, v, w);
    case WaitLock | WaitClear | WaitUnlock | WaitRelease => WaitKeepsPair(cf, s, t, v, w);
    case FutexWait | Reacquire => WakeUpKeepsPair(cf, s, t, v, w);
    case Act => ActKeepsPair(cf, s, t, v, w);
    case SignalLock | SignalSet | SignalUnlock => SignalKeepsPair(cf, s, t, v, w);
    case SignalWake => SignalWakeKeepsPair(cf, s, t, v, w);
  }

  lemma {:induction false} RunKeepsPair(cf: Config, states: seq<State>, moves: seq<Move>, i: nat)
    requires OneEach(cf) && IsRun(cf, states, moves) && i <= |moves|
    ensures PairInv(cf, states[i])
  {
    hide PairInv;
    if i == 0 {
      InitPair(cf);
    } else {
      RunKeepsPair(cf, states, moves, i - 1);
      var m := moves[i - 1];
      assert MoveAt(cf, states, moves, i - 1);
      StepKeepsPair(cf, states[i - 1], m.t, m.v, m.w);
    }
  }

  /** With one producer and one consumer a sleeper is never forgotten: while it sleeps it has nothing to do,
      or its partner is on the way to wake it. */
  lemma SleeperIsServed(cf: Config, s: State, t: nat)
    requires OneEach(cf) && Reachable(cf, s) && t < 2
    ensures WellFormed(cf, s)
    ensures s.pc[t].Asleep? ==>
      || MustWait(cf, s, cf.roles[t])
      || s.pc[Partner(t)].SignalLock? || s.pc[Partner(t)].SignalSet? || s.pc[Partner(t)].SignalWake?
    ensures s.pc[0].Asleep? ==> !s.pc[1].Asleep?
  {
    var states, moves :| IsRun(cf, states, moves) && states[|moves|] == s;
    RunKeepsPair(cf, states, moves, |moves|);
  }

  // ---------- progress adds up to values ----------

  /** How far along in one call; each step moves a thread forward, and it waits at most once a call. */
  function Rank(p: PC): nat
    ensures Rank(p) < 16
  {
    match p
    case Idle => 0
    case Check(again) => if again then 9 else 1
    case WaitLock => 2
    case WaitClear => 3
    case WaitUnlock => 4
    case WaitRelease => 5
    case FutexWait => 6
    case Asleep => 7
    case Reacquire => 8
    case Act => 10
    case SignalLock => 11
    case SignalSet => 12
    case SignalWake => 13
    case SignalUnlock => 14
    case Release => 15
  }

  function Effort(s: State, t: nat): nat
    requires t < |s.pc| == |s.done|
  {
    16 * s.done[t] + Rank(s.pc[t])
  }

  lemma OwnEffort(cf: Config, s: State, t: nat, v: Value, w: nat)
    requires OneEach(cf) && Enabled(cf, s, t, w)
    requires s.pc[t] == Check(true) ==> !MustWait(cf, s, cf.roles[t])
    ensures WellFormed(cf, Step(cf, s, t, v, w)) && Effort(Step(cf, s, t, v, w), t) > Effort(s, t)
  {
  }

  lemma PartnerEffort(cf: Config, s: State, t: nat, v: Value, w: nat)
    requires OneEach(cf) && Enabled(cf, s, t, w)
    ensures WellFormed(cf, Step(cf, s, t, v, w))
    ensures Step(cf, s, t, v, w).done[Partner(t)] == s.done[Partner(t)]
    ensures s.pc[Partner(t)].Asleep? || Step(cf, s, t, v, w).pc[Partner(t)] == s.pc[Partner(t)]
    ensures HasActed(Step(cf, s, t, v, w).pc[Partner(t)]) == HasActed(s.pc[Partner(t)])
    ensures Effort(Step(cf, s, t, v, w), Partner(t)) >= Effort(s, Partner(t))
  {
    if s.pc[t].SignalWake? && Wakeable(cf, s, t, w) {
      assert w == Partner(t);
    }
  }

  lemma StepTotalEffort(cf: Config, s: State, t: nat, v: Value, w: nat)
    requires OneEach(cf) && Enabled(cf, s, t, w)
    requires s.pc[t] == Check(true) ==> !MustWait(cf, s, cf.roles[t])
    ensures WellFormed(cf, Step(cf, s, t, v, w))
    ensures Effort(Step(cf, s, t, v, w), 0) + Effort(Step(cf, s, t, v, w), 1) > Effort(s, 0) + Effort(s, 1)
  {
    OwnEffort(cf, s, t, v, w);
    PartnerEffort(cf, s, t, v, w);
    hide Effort, Step;
  }

  /** Past the push or pop of the call it is in. */
  predicate HasActed(p: PC) {
    p.SignalLock? || p.SignalSet? || p.SignalWake? || p.SignalUnlock? || p.Release?
  }

  /** Completed calls against values: a call in progress may already have pushed or popped. */
  ghost predicate Counted(cf: Config, s: State)
    requires OneEach(cf) && WellFormed(cf, s)
  {
    && |s.pushed| == s.done[0] + (if HasActed(s.pc[0]) then 1 else 0)
    && |s.popped| == s.done[1] + (if HasActed(s.pc[1]) then 1 else 0)
  }

  lemma StepKeepsCounted(cf: Config, s: State, t: nat, v: Value, w: nat)
    requires OneEach(cf) && Enabled(cf, s, t, w) && Counted(cf, s)
    ensures WellFormed(cf, Step(cf, s, t, v, w)) && Counted(cf, Step(cf, s, t, v, w))
  {
    if s.pc[t].Act? || s.pc[t].Release? {
      CountedValue(cf, s, t, v, w);
    } else {
      NothingCounted(cf, s, t, v, w);
    }
  }

  lemma CountedValue(cf: Config, s: State, t: nat, v: Value, w: nat)
    requires OneEach(cf) && Enabled(cf, s, t, w) && Counted(cf, s) && (s.pc[t].Act? || s.pc[t].Release?)
    ensures WellFormed(cf, Step(cf, s, t, v, w)) && Counted(cf, Step(cf, s, t, v, w))
  {
    PartnerEffort(cf, s, t, v, w);
  }

  lemma NothingCounted(cf: Config, s: State, t: nat, v: Value, w: nat)
    requires OneEach(cf) && Enabled(cf, s, t, w) && Counted(cf, s) && !s.pc[t].Act? && !s.pc[t].Release?
    ensures WellFormed(cf, Step(cf, s, t, v, w)) && Counted(cf, Step(cf, s, t, v, w))
  {
    PartnerEffort(cf, s, t, v, w);
    var s' := Step(cf, s, t, v, w);
    assert s'.pushed == s.pushed && s'.popped == s.popped && s'.done == s.done;
    assert HasActed(s'.pc[t]) == HasActed(s.pc[t]);
  }

  lemma SecondCheckPasses(cf: Config, s: State, t: nat)
    requires PairInv(cf, s) && t < 2 && s.pc[t] == Check(true)
    ensures !MustWait(cf, s, cf.roles[t])
  {
  }

  lemma {:induction false} RunEffort(cf: Config, states: seq<State>, moves: seq<Move>, i: nat)
    requires OneEach(cf) && IsRun(cf, states, moves) && i <= |moves|
    ensures WellFormed(cf, states[i]) && Counted(cf, states[i])
    ensures i <= Effort(states[i], 0) + Effort(states[i], 1)
  {
    if i > 0 {
      hide PairInv, Counted, Effort, Rank, MustWait, Step, Enabled;
      RunEffort(cf, states, moves, i - 1);
      RunKeepsPair(cf, states, moves, i - 1);
      var m := moves[i - 1];
      assert MoveAt(cf, states, moves, i - 1);
      if states[i - 1].pc[m.t] == Check(true) {
        SecondCheckPasses(cf, states[i - 1], m.t);
      }
      StepTotalEffort(cf, states[i - 1], m.t, m.v, m.w);
      StepKeepsCounted(cf, states[i - 1], m.t, m.v, m.w);
    }
  }

  /** No livelock and no starvation: a long enough run of one producer and one consumer moves any number of values. */
  lemma ValuesGetThrough(cf: Config, states: seq<State>, moves: seq<Move>, count: nat)
    requires OneEach(cf) && IsRun(cf, states, moves)
    requires |moves| >= 16 * (2 * count + cf.capacity + 1)
    ensures |states[|moves|].popped| >= count && |states[|moves|].pushed| >= count
  {
    var s := states[|moves|];
    RunEffort(cf, states, moves, |moves|);
    RunIsFifo(cf, states, moves, |moves|);
    assert Effort(s, 0) < 16 * (|s.pushed| + 1) && Effort(s, 1) < 16 * (|s.popped| + 1);
  }
}
