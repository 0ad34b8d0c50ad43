/** `Barrier::wait` on top of the futex-based `ConditionVariable`, as interleaved steps of n threads.
    Every thread calls wait again as soon as it has returned. Steps are sequentially consistent, and a
    futex wait returns only when woken or when the futex word is not zero. */
module Barrier {
  import opened Helpers

  /** Where a thread is inside wait; the comment names what it does next. */
  datatype PC =
    | Spin          // while m_leaving > 0
    | Acquire       // m_lock.acquire
    | Arrive        // ++m_arrived, compare with m_count
    | WaitLock      // m_cond.wait: acquire the condition's own lock
    | WaitClear     //   m_futx = 0
    | WaitUnlock    //   release the condition's own lock
    | WaitRelease   //   release m_lock
    | FutexWait     //   sleep if m_futx is still 0
    | Asleep        //   (sleeping)
    | Reacquire     //   acquire m_lock again
    | Leave         // --m_leaving
    | LeaveRelease  // m_lock.release, return
    | LastReset     // m_arrived = 0
    | LastLeaving   // m_leaving = m_count - 1
    | LastRelease   // m_lock.release
    | CastLock      // m_cond.broadcast: acquire the condition's own lock
    | CastSet       //   m_futx = 1
    | CastWake      //   wake all sleepers
    | CastUnlock    //   release the condition's own lock, return

  /** The shared variables, the position of every thread, and how often each has arrived and returned. */
  datatype State = State(
    pc: seq<PC>,
    arrived: int, leaving: int, futx: int,
    locked: bool, condLocked: bool,
    arrivals: seq<nat>, departures: seq<nat>)

  predicate WellFormed(n: nat, s: State) {
    |s.pc| == |s.arrivals| == |s.departures| == n
  }

  function Init(n: nat): State {
    State(seq(n, _ => Spin), 0, 0, 0, false, false, seq(n, _ => 0), seq(n, _ => 0))
  }

  /** Whether thread t can take a step; only taking a lock can block it, and sleeping. */
  predicate Enabled(n: nat, s: State, t: nat) {
    && WellFormed(n, s) && t < n
    && match s.pc[t]
       case Acquire | Reacquire => !s.locked
       case WaitLock | CastLock => !s.condLocked
       case Asleep => false
       case _ => true
  }

  function Goto(s: State, t: nat, pc: PC): State
    requires t < |s.pc|
  {
    s.(pc := s.pc[t := pc])
  }

  function Return(s: State, t: nat): State
    requires t < |s.pc| == |s.departures|
  {
    s.(pc := s.pc[t := Spin], departures := s.departures[t := s.departures[t] + 1])
  }

  function WakeAll(pc: seq<PC>): seq<PC> {
    seq(|pc|, i requires 0 <= i < |pc| => if pc[i] == Asleep then Reacquire else pc[i])
  }

  function Step(n: nat, s: State, t: nat): State
    requires Enabled(n, s, t)
  {
    match s.pc[t]
    case Spin => if s.leaving > 0 then s else Goto(s, t, Acquire)
    case Acquire => Goto(s, t, Arrive).(locked := true)
    case Arrive =>
      Goto(s, t, if s.arrived + 1 == n then LastReset else WaitLock)
        .(arrived := s.arrived + 1, arrivals := s.arrivals[t := s.arrivals[t] + 1])
    case WaitLock => Goto(s, t, WaitClear).(condLocked := true)
    case WaitClear => Goto(s, t, WaitUnlock).(futx := 0)
    case WaitUnlock => Goto(s, t, WaitRelease).(condLocked := false)
    case WaitRelease => Goto(s, t, FutexWait).(locked := false)
    case FutexWait => Goto(s, t, if s.futx == 0 then Asleep else Reacquire)
    case Reacquire => Goto(s, t, Leave).(locked := true)
    case Leave => Goto(s, t, LeaveRelease).(leaving := s.leaving - 1)
    case LeaveRelease => Return(s, t).(locked := false)
    case LastReset => Goto(s, t, LastLeaving).(arrived := 0)
    case LastLeaving => Goto(s, t, LastRelease).(leaving := n - 1)
    case LastRelease => Goto(s, t, CastLock).(locked := false)
    case CastLock => Goto(s, t, CastSet).(condLocked := true)
    case CastSet => Goto(s, t, CastWake).(futx := 1)
    case CastWake => s.(pc := WakeAll(s.pc[t := CastUnlock]))
    case CastUnlock => Return(s, t).(condLocked := false)
  }

  /** A thread that keeps finding m_leaving above zero makes no progress. */
  predicate Progress(n: nat, s: State, t: nat) {
    Enabled(n, s, t) && !(s.pc[t] == Spin && s.leaving > 0)
  }

  // ---------- the invariant ----------

  predicate IsOutside(p: PC) {
    p.Spin? || p.Acquire? || p.Arrive?
  }

  predicate IsWaiting(p: PC) {
    p.WaitLock? || p.WaitClear? || p.WaitUnlock? || p.WaitRelease? || p.FutexWait? || p.Asleep?
  }

  predicate AtFutex(p: PC) {
    p.FutexWait? || p.Asleep?
  }

  /** Let through by the barrier, but not yet returned. */
  predicate IsReleased(p: PC) {
    p.LeaveRelease? || p.CastWake? || p.CastUnlock?
  }

  /** Counted by m_leaving while the barrier is open. */
  predicate IsStaying(p: PC) {
    p.FutexWait? || p.Asleep? || p.Reacquire? || p.Leave?
  }

  predicate IsClosing(p: PC) {
    p.LastReset? || p.LastLeaving? || p.LastRelease? || p.CastLock? || p.CastSet?
  }

  predicate HoldsLock(p: PC) {
    || p.Arrive? || p.WaitLock? || p.WaitClear? || p.WaitUnlock? || p.WaitRelease?
    || p.Leave? || p.LeaveRelease? || p.LastReset? || p.LastLeaving? || p.LastRelease?
  }

  predicate HoldsCond(p: PC) {
    p.WaitClear? || p.WaitUnlock? || p.CastSet? || p.CastWake? || p.CastUnlock?
  }

  function One(b: bool): nat {
    if b then 1 else 0
  }

  ghost function WaitingThreads(pc: seq<PC>): set<nat> {
    set t | 0 <= t < |pc| && IsWaiting(pc[t])
  }

  ghost function StayingThreads(pc: seq<PC>): set<nat> {
    set t | 0 <= t < |pc| && IsStaying(pc[t])
  }

  /** m_lock is taken exactly while one thread is between taking and releasing it. */
  ghost predicate LockOwned(pc: seq<PC>, taken: bool) {
    && (taken ==> exists t :: 0 <= t < |pc| && HoldsLock(pc[t]))
    && (forall t | 0 <= t < |pc| && HoldsLock(pc[t]) :: taken)
    && (forall t, u | 0 <= t < |pc| && 0 <= u < |pc| && HoldsLock(pc[t]) && HoldsLock(pc[u]) :: t == u)
  }

  ghost predicate CondOwned(pc: seq<PC>, taken: bool) {
    && (taken ==> exists t :: 0 <= t < |pc| && HoldsCond(pc[t]))
    && (forall t | 0 <= t < |pc| && HoldsCond(pc[t]) :: taken)
    && (forall t, u | 0 <= t < |pc| && 0 <= u < |pc| && HoldsCond(pc[t]) && HoldsCond(pc[u]) :: t == u)
  }

  /** Threads arrive for round r; those released from the round before may still be on their way out. */
  ghost predicate Filling(n: nat, s: State, r: nat)
    requires WellFormed(n, s)
  {
    && s.leaving == 0 && s.arrived == |WaitingThreads(s.pc)| < n
    && forall t | 0 <= t < n ::
         && (IsOutside(s.pc[t]) || IsWaiting(s.pc[t]) || IsReleased(s.pc[t]))
         && s.arrivals[t] == (if IsWaiting(s.pc[t]) then r + 1 else r)
         && s.departures[t] == (if IsReleased(s.pc[t]) then r - 1 else r)
         && (IsWaiting(s.pc[t]) && !s.pc[t].WaitLock? && !s.pc[t].WaitClear? ==> s.futx == 0)
         && (IsWaiting(s.pc[t]) && !s.pc[t].WaitLock? ==> NoCast(s.pc))
  }

  /** No broadcast of the round before is still going on. */
  ghost predicate NoCast(pc: seq<PC>) {
    forall t | 0 <= t < |pc| :: !pc[t].CastWake? && !pc[t].CastUnlock?
  }

  /** Thread l, the last to arrive, is about to open the barrier; all others are at the futex. */
  ghost predicate Closing(n: nat, s: State, r: nat, l: nat)
    requires WellFormed(n, s)
  {
    && l < n && IsClosing(s.pc[l])
    && s.arrived == (if s.pc[l].LastReset? then n else 0)
    && s.leaving == (if s.pc[l].LastReset? || s.pc[l].LastLeaving? then 0 else n - 1)
    && (n > 1 ==> s.futx == 0)
    && (forall t | 0 <= t < n && t != l :: AtFutex(s.pc[t]))
    && (forall t | 0 <= t < n :: s.arrivals[t] == r + 1 && s.departures[t] == r)
  }

  /** The barrier is open; nobody gets past the spin loop until all waiters have left. */
  ghost predicate Draining(n: nat, s: State, r: nat)
    requires WellFormed(n, s)
  {
    && s.arrived == 0 && s.futx == 1 && s.leaving == |StayingThreads(s.pc)| > 0
    && (forall t | 0 <= t < n ::
          && (IsStaying(s.pc[t]) || IsReleased(s.pc[t]) || s.pc[t].Spin?)
          && s.arrivals[t] == r
          && s.departures[t] == (if s.pc[t].Spin? then r else r - 1))
    && ((exists t :: 0 <= t < n && s.pc[t].Asleep?) ==> exists c :: 0 <= c < n && s.pc[c].CastWake?)
  }

  ghost predicate InRound(n: nat, s: State, r: nat) {
    && WellFormed(n, s)
    && (Filling(n, s, r) || (exists l :: Closing(n, s, r, l)) || Draining(n, s, r))
  }

  ghost predicate Inv(n: nat, s: State, r: nat) {
    && WellFormed(n, s)
    && LockOwned(s.pc, s.locked) && CondOwned(s.pc, s.condLocked)
    && InRound(n, s, r)
  }

  // ---------- the invariant is kept ----------

  lemma InitInv(n: nat)
    requires n > 0
    ensures Inv(n, Init(n), 0)
  {
    assert WaitingThreads(Init(n).pc) == {};
  }

  /** The frame of a step of thread t: other threads move only when woken. */
  ghost predicate OthersStay(n: nat, s: State, s': State, t: nat)
    requires WellFormed(n, s) && t < n
  {
    && WellFormed(n, s')
    && (forall u | 0 <= u < n && u != t :: s'.pc[u] == s.pc[u] && s'.arrivals[u] == s.arrivals[u]
         && s'.departures[u] == s.departures[u])
  }

  lemma StepStays(n: nat, s: State, t: nat)
    requires Enabled(n, s, t)
    ensures WellFormed(n, Step(n, s, t))
    ensures !s.pc[t].CastWake? ==> OthersStay(n, s, Step(n, s, t), t)
  {
  }

  lemma LockMove(pc: seq<PC>, pc': seq<PC>, t: nat, taken: bool, taken': bool)
    requires |pc| == |pc'| && t < |pc| && LockOwned(pc, taken)
    requires forall u | 0 <= u < |pc| && u != t :: HoldsLock(pc'[u]) == HoldsLock(pc[u])
    requires HoldsLock(pc[t]) == HoldsLock(pc'[t]) ==> taken' == taken
    requires !HoldsLock(pc[t]) && HoldsLock(pc'[t]) ==> !taken && taken'
    requires HoldsLock(pc[t]) && !HoldsLock(pc'[t]) ==> !taken'
    ensures LockOwned(pc', taken')
  {
    if taken' && !HoldsLock(pc'[t]) {
      var u :| 0 <= u < |pc| && HoldsLock(pc[u]);
      assert HoldsLock(pc'[u]);
    }
  }

  lemma CondMove(pc: seq<PC>, pc': seq<PC>, t: nat, taken: bool, taken': bool)
    requires |pc| == |pc'| && t < |pc| && CondOwned(pc, taken)
    requires forall u | 0 <= u < |pc| && u != t :: HoldsCond(pc'[u]) == HoldsCond(pc[u])
    requires HoldsCond(pc[t]) == HoldsCond(pc'[t]) ==> taken' == taken
    requires !HoldsCond(pc[t]) && HoldsCond(pc'[t]) ==> !taken && taken'
    requires HoldsCond(pc[t]) && !HoldsCond(pc'[t]) ==> !taken'
    ensures CondOwned(pc', taken')
  {
    if taken' && !HoldsCond(pc'[t]) {
      var u :| 0 <= u < |pc| && HoldsCond(pc[u]);
      assert HoldsCond(pc'[u]);
    }
  }

  lemma LockKept(n: nat, s: State, t: nat)
    requires WellFormed(n, s) && LockOwned(s.pc, s.locked) && Enabled(n, s, t)
    ensures LockOwned(Step(n, s, t).pc, Step(n, s, t).locked)
  {
    assert HoldsLock(s.pc[t]) ==> s.locked;
    StepStays(n, s, t);
    hide LockOwned;
    LockMove(s.pc, Step(n, s, t).pc, t, s.locked, Step(n, s, t).locked);
  }

  lemma CondKept(n: nat, s: State, t: nat)
    requires WellFormed(n, s) && CondOwned(s.pc, s.condLocked) && Enabled(n, s, t)
    ensures CondOwned(Step(n, s, t).pc, Step(n, s, t).condLocked)
  {
    assert HoldsCond(s.pc[t]) ==> s.condLocked;
    hide CondOwned;
    CondMove(s.pc, Step(n, s, t).pc, t, s.condLocked, Step(n, s, t).condLocked);
  }

  // ---------- counting threads ----------

  ghost function Upto(n: nat): (all: set<nat>)
    ensures |all| == n && forall t: nat :: t in all <==> t < n
  {
    if n == 0 then {} else Upto(n - 1) + {n - 1}
  }

  lemma SizeWithout(a: set<nat>, t: nat)
    ensures |a| == |a - {t}| + if t in a then 1 else 0
  {
    if t in a {
      assert a == a - {t} + {t};
    } else {
      assert a == a - {t};
    }
  }

  lemma WaitingMove(pc: seq<PC>, pc': seq<PC>, t: nat)
    requires |pc| == |pc'| && t < |pc|
    requires forall u | 0 <= u < |pc| && u != t :: IsWaiting(pc'[u]) == IsWaiting(pc[u])
    ensures |WaitingThreads(pc')| ==
      |WaitingThreads(pc)| + One(IsWaiting(pc'[t])) - One(IsWaiting(pc[t]))
  {
    assert WaitingThreads(pc') - {t} == WaitingThreads(pc) - {t};
    SizeWithout(WaitingThreads(pc), t);
    SizeWithout(WaitingThreads(pc'), t);
  }

  lemma StayingMove(pc: seq<PC>, pc': seq<PC>, t: nat)
    requires |pc| == |pc'| && t < |pc|
    requires forall u | 0 <= u < |pc| && u != t :: IsStaying(pc'[u]) == IsStaying(pc[u])
    ensures |StayingThreads(pc')| ==
      |StayingThreads(pc)| + One(IsStaying(pc'[t])) - One(IsStaying(pc[t]))
  {
    assert StayingThreads(pc') - {t} == StayingThreads(pc) - {t};
    SizeWithout(StayingThreads(pc), t);
    SizeWithout(StayingThreads(pc'), t);
  }

  /** When all but one of the threads are waiting, so is every other thread. */
  lemma AllOthersWait(pc: seq<PC>, t: nat)
    requires t < |pc| && !IsWaiting(pc[t]) && |WaitingThreads(pc)| == |pc| - 1
    ensures forall u | 0 <= u < |pc| && u != t :: IsWaiting(pc[u])
  {
    SubsetSize(WaitingThreads(pc), Upto(|pc|) - {t});
    forall u | 0 <= u < |pc| && u != t ensures IsWaiting(pc[u]) {
      assert u in Upto(|pc|) - {t};
    }
  }

  lemma OthersStayCount(pc: seq<PC>, t: nat)
    requires t < |pc| && !IsStaying(pc[t])
    requires forall u | 0 <= u < |pc| && u != t :: IsStaying(pc[u])
    ensures |StayingThreads(pc)| == |pc| - 1
  {
    assert StayingThreads(pc) == Upto(|pc|) - {t};
  }

  // ---------- the rounds ----------

  /** Thread t moves within or into the arrivals of round r. */
  lemma FillingMove(n: nat, s: State, s': State, t: nat, r: nat)
    requires WellFormed(n, s) && t < n && OthersStay(n, s, s', t) && Filling(n, s, r)
    requires s'.leaving == 0
    requires s'.arrived == s.arrived + One(IsWaiting(s'.pc[t])) - One(IsWaiting(s.pc[t])) < n
    requires IsOutside(s'.pc[t]) || IsWaiting(s'.pc[t]) || IsReleased(s'.pc[t])
    requires s'.arrivals[t] == (if IsWaiting(s'.pc[t]) then r + 1 else r)
    requires s'.departures[t] == (if IsReleased(s'.pc[t]) then r - 1 else r)
    requires s'.futx == s.futx || s'.futx == 0
    requires IsWaiting(s'.pc[t]) && !s'.pc[t].WaitLock? && !s'.pc[t].WaitClear? ==> s'.futx == 0
    requires IsWaiting(s'.pc[t]) && !s'.pc[t].WaitLock? ==> NoCast(s.pc)
    requires s'.pc[t].CastWake? || s'.pc[t].CastUnlock? ==> s.pc[t].CastWake?
    ensures Filling(n, s', r)
  {
    WaitingMove(s.pc, s'.pc, t);
    assert NoCast(s.pc) ==> NoCast(s'.pc);
  }

  lemma CastHoldsCond(n: nat, s: State)
    requires WellFormed(n, s) && CondOwned(s.pc, s.condLocked) && !s.condLocked
    ensures NoCast(s.pc)
  {
    forall t | 0 <= t < n ensures !HoldsCond(s.pc[t]) {
    }
  }

  lemma StepFromFilling(n: nat, s: State, t: nat, r: nat)
    requires WellFormed(n, s) && LockOwned(s.pc, s.locked) && CondOwned(s.pc, s.condLocked)
    requires Filling(n, s, r) && Enabled(n, s, t)
    ensures InRound(n, Step(n, s, t), r)
  {
    var s' := Step(n, s, t);
    StepStays(n, s, t);
    if s.pc[t] == Arrive && s.arrived + 1 == n {
      LastArrives(n, s, t, r);
    } else if s.pc[t] == CastWake {
      WakeInFilling(n, s, t, r);
    } else if IsWaiting(s.pc[t]) {
      if s.pc[t] == WaitLock {
        CastHoldsCond(n, s);
      }
      WaiterInFilling(n, s, t, r);
    } else {
      NonWaiterInFilling(n, s, t, r);
    }
  }

  lemma WaiterInFilling(n: nat, s: State, t: nat, r: nat)
    requires WellFormed(n, s) && Filling(n, s, r) && Enabled(n, s, t) && IsWaiting(s.pc[t])
    requires s.pc[t] == WaitLock ==> NoCast(s.pc)
    ensures Filling(n, Step(n, s, t), r)
  {
    StepStays(n, s, t);
    hide OthersStay, NoCast;
    FillingMove(n, s, Step(n, s, t), t, r);
  }

  lemma NonWaiterInFilling(n: nat, s: State, t: nat, r: nat)
    requires WellFormed(n, s) && Filling(n, s, r) && Enabled(n, s, t) && !IsWaiting(s.pc[t])
    requires s.pc[t] != CastWake && !(s.pc[t] == Arrive && s.arrived + 1 == n)
    ensures Filling(n, Step(n, s, t), r)
  {
    StepStays(n, s, t);
    hide OthersStay, NoCast;
    FillingMove(n, s, Step(n, s, t), t, r);
  }

  lemma WakeInFilling(n: nat, s: State, t: nat, r: nat)
    requires WellFormed(n, s) && Filling(n, s, r) && Enabled(n, s, t) && s.pc[t] == CastWake
    ensures Filling(n, Step(n, s, t), r)
  {
    assert !NoCast(s.pc);
    var s' := Step(n, s, t);
    assert forall u | 0 <= u < n && u != t :: s'.pc[u] == s.pc[u];
    FillingMove(n, s, s', t, r);
  }

  lemma LastArrives(n: nat, s: State, t: nat, r: nat)
    requires WellFormed(n, s) && LockOwned(s.pc, s.locked) && Filling(n, s, r)
    requires Enabled(n, s, t) && s.pc[t] == Arrive && s.arrived + 1 == n
    ensures Closing(n, Step(n, s, t), r, t)
  {
    AllOthersWait(s.pc, t);
    var s' := Step(n, s, t);
    forall u | 0 <= u < n && u != t ensures AtFutex(s.pc[u]) {
      assert HoldsLock(s.pc[t]) && !HoldsLock(s.pc[u]);
    }
    if n > 1 {
      var u := if t == 0 then 1 else 0;
      assert AtFutex(s.pc[u]);
    }
  }

  /** Closing ends when the broadcast sets the futex word: a new round begins. */
  function NextRound(s: State, t: nat, r: nat): nat
    requires t < |s.pc|
  {
    if s.pc[t] == CastSet then r + 1 else r
  }

  lemma StepFromClosing(n: nat, s: State, t: nat, r: nat, l: nat)
    requires WellFormed(n, s) && LockOwned(s.pc, s.locked) && CondOwned(s.pc, s.condLocked)
    requires Closing(n, s, r, l) && Enabled(n, s, t)
    ensures InRound(n, Step(n, s, t), NextRound(s, t, r))
  {
    var s' := Step(n, s, t);
    StepStays(n, s, t);
    if s.pc[t] == CastSet {
      BarrierOpens(n, s, t, r);
    } else {
      StillClosing(n, s, t, r, l);
      assert Closing(n, s', r, l);
    }
  }

  lemma StillClosing(n: nat, s: State, t: nat, r: nat, l: nat)
    requires WellFormed(n, s) && Closing(n, s, r, l) && Enabled(n, s, t) && s.pc[t] != CastSet
    ensures Closing(n, Step(n, s, t), r, l)
  {
    StepStays(n, s, t);
    assert t != l ==> n > 1;
  }

  lemma BarrierOpens(n: nat, s: State, t: nat, r: nat)
    requires WellFormed(n, s) && Closing(n, s, r, t) && Enabled(n, s, t) && s.pc[t] == CastSet
    ensures Draining(n, Step(n, s, t), r + 1) || Filling(n, Step(n, s, t), r + 1)
  {
    var s' := Step(n, s, t);
    StepStays(n, s, t);
    OthersStayCount(s'.pc, t);
    if n > 1 {
      assert s'.pc[t].CastWake?;
    } else {
      assert WaitingThreads(s'.pc) == {};
    }
  }

  /** Thread t moves while the barrier is open, without leaving m_leaving at zero. */
  lemma DrainingMove(n: nat, s: State, s': State, t: nat, r: nat)
    requires WellFormed(n, s) && t < n && OthersStay(n, s, s', t) && Draining(n, s, r)
    requires s'.arrived == 0 && s'.futx == 1
    requires s'.leaving == s.leaving + One(IsStaying(s'.pc[t])) - One(IsStaying(s.pc[t])) > 0
    requires IsStaying(s'.pc[t]) || IsReleased(s'.pc[t]) || s'.pc[t].Spin?
    requires s'.arrivals[t] == r && s'.departures[t] == (if s'.pc[t].Spin? then r else r - 1)
    requires !s'.pc[t].Asleep? && !s.pc[t].CastWake?
    ensures Draining(n, s', r)
  {
    StayingMove(s.pc, s'.pc, t);
    if exists u :: 0 <= u < n && s'.pc[u].Asleep? {
      assert exists u :: 0 <= u < n && s.pc[u].Asleep?;
      var c :| 0 <= c < n && s.pc[c].CastWake?;
      assert s'.pc[c].CastWake?;
    }
  }

  lemma StepFromDraining(n: nat, s: State, t: nat, r: nat)
    requires WellFormed(n, s) && Draining(n, s, r) && Enabled(n, s, t)
    ensures InRound(n, Step(n, s, t), r)
  {
    var s' := Step(n, s, t);
    StepStays(n, s, t);
    if s.pc[t] == CastWake {
      WakeInDraining(n, s, t, r);
    } else if s.pc[t] == Leave && s.leaving == 1 {
      LastLeaves(n, s, t, r);
    } else if s.pc[t] != Spin {
      hide OthersStay;
      DrainingMove(n, s, s', t, r);
    }
  }

  lemma WakeInDraining(n: nat, s: State, t: nat, r: nat)
    requires WellFormed(n, s) && Draining(n, s, r) && Enabled(n, s, t) && s.pc[t] == CastWake
    ensures Draining(n, Step(n, s, t), r)
  {
    assert StayingThreads(Step(n, s, t).pc) == StayingThreads(s.pc);
  }

  lemma LastLeaves(n: nat, s: State, t: nat, r: nat)
    requires WellFormed(n, s) && Draining(n, s, r) && Enabled(n, s, t) && s.pc[t] == Leave && s.leaving == 1
    ensures Filling(n, Step(n, s, t), r)
  {
    var s' := Step(n, s, t);
    SizeWithout(StayingThreads(s.pc), t);
    assert StayingThreads(s.pc) - {t} == {};
    forall u | 0 <= u < n && u != t ensures !IsStaying(s.pc[u]) {
      assert u !in StayingThreads(s.pc) - {t};
    }
    assert WaitingThreads(s'.pc) == {};
  }

  /** Every step of every thread keeps the invariant. */
  lemma StepKeepsInv(n: nat, s: State, t: nat, r: nat)
    requires Inv(n, s, r) && Enabled(n, s, t)
    ensures Inv(n, Step(n, s, t), NextRound(s, t, r))
  {
    LockKept(n, s, t);
    CondKept(n, s, t);
    StepStays(n, s, t);
    hide LockOwned, CondOwned;
    if Filling(n, s, r) {
      assert s.pc[t] != CastSet;
      StepFromFilling(n, s, t, r);
    } else if l: nat :| Closing(n, s, r, l) {
      StepFromClosing(n, s, t, r, l);
    } else {
      assert s.pc[t] != CastSet;
      StepFromDraining(n, s, t, r);
    }
  }

  // ---------- runs ----------

  ghost predicate StepAt(n: nat, states: seq<State>, schedule: seq<nat>, i: nat)
    requires i < |schedule| && |states| == |schedule| + 1
  {
    Enabled(n, states[i], schedule[i]) && states[i + 1] == Step(n, states[i], schedule[i])
  }

  /** A run: which thread steps each time, and the states in between. */
  ghost predicate IsRun(n: nat, states: seq<State>, schedule: seq<nat>) {
    && |states| == |schedule| + 1 && states[0] == Init(n)
    && forall i | 0 <= i < |schedule| :: StepAt(n, states, schedule, i)
  }

  ghost predicate Reachable(n: nat, s: State) {
    exists states, schedule :: IsRun(n, states, schedule) && states[|schedule|] == s
  }

  lemma {:induction false} RunKeepsInv(n: nat, states: seq<State>, schedule: seq<nat>, i: nat) returns (r: nat)
    requires n > 0 && IsRun(n, states, schedule) && i <= |schedule|
    ensures Inv(n, states[i], r)
    decreases i
  {
    if i == 0 {
      InitInv(n);
      r := 0;
    } else {
      hide Inv;
      var r0 := RunKeepsInv(n, states, schedule, i - 1);
      assert StepAt(n, states, schedule, i - 1);
      StepKeepsInv(n, states[i - 1], schedule[i - 1], r0);
      r := NextRound(states[i - 1], schedule[i - 1], r0);
    }
  }

  lemma ReachableInv(n: nat, s: State) returns (r: nat)
    requires n > 0 && Reachable(n, s)
    ensures Inv(n, s, r)
  {
    var states, schedule :| IsRun(n, states, schedule) && states[|schedule|] == s;
    r := RunKeepsInv(n, states, schedule, |schedule|);
  }

  /** Barrier safety: a thread has returned from its k-th wait only if every thread has arrived for the k-th time. */
  lemma NoneReturnsBeforeAllArrive(n: nat, s: State, t: nat, u: nat)
    requires n > 0 && Reachable(n, s) && t < n && u < n
    ensures WellFormed(n, s)
    ensures s.departures[t] <= s.arrivals[u]
    ensures s.departures[u] <= s.arrivals[u] <= s.departures[u] + 1
  {
    var r := ReachableInv(n, s);
  }

  /** The futex word is cleared only by a thread of the round that all sleeping and leaving threads are in:
      no waiter of an earlier round can lose its wake-up to an arrival of the next. */
  lemma ClearMeetsNoEarlierWaiter(n: nat, s: State, t: nat, u: nat)
    requires n > 0 && Reachable(n, s) && t < n && u < n
    requires WellFormed(n, s) && s.pc[t] == WaitClear
    ensures IsWaiting(s.pc[u]) ==> s.arrivals[u] == s.arrivals[t]
    ensures s.pc[u] != Reacquire && s.pc[u] != Leave
    ensures s.leaving == 0
  {
    var r := ReachableInv(n, s);
  }

  /** No reachable state is stuck: some thread can make progress. */
  lemma NoDeadlock(n: nat, s: State) returns (t: nat)
    requires n > 0 && Reachable(n, s)
    ensures Progress(n, s, t)
  {
    var r := ReachableInv(n, s);
    t := SomeProgress(n, s, r);
  }

  lemma SomeProgress(n: nat, s: State, r: nat) returns (t: nat)
    requires n > 0 && Inv(n, s, r)
    ensures Progress(n, s, t)
  {
    if s.condLocked {
      t :| 0 <= t < n && HoldsCond(s.pc[t]);
    } else if s.locked {
      t :| 0 <= t < n && HoldsLock(s.pc[t]);
    } else if l: nat :| Closing(n, s, r, l) {
      t := l;
    } else if Draining(n, s, r) {
      t := StayerProgress(n, s, r);
    } else {
      t := FillerProgress(n, s, r);
    }
  }

  lemma StayerProgress(n: nat, s: State, r: nat) returns (t: nat)
    requires WellFormed(n, s) && Draining(n, s, r) && CondOwned(s.pc, s.condLocked) && !s.condLocked && !s.locked
    ensures Progress(n, s, t)
  {
    t :| t in StayingThreads(s.pc);
    assert forall c | 0 <= c < n :: !HoldsCond(s.pc[c]);
  }

  lemma FillerProgress(n: nat, s: State, r: nat) returns (t: nat)
    requires WellFormed(n, s) && Filling(n, s, r) && !s.condLocked && !s.locked
    ensures Progress(n, s, t)
  {
    assert (forall u | 0 <= u < n :: IsWaiting(s.pc[u])) ==> WaitingThreads(s.pc) == Upto(n);
    t :| 0 <= t < n && !IsWaiting(s.pc[t]);
  }

  // ---------- progress adds up to rounds ----------

  /** How far along in one call of wait; a call takes fewer than twelve steps that are not spinning. */
  function Rank(p: PC): nat
    ensures Rank(p) < 12
  {
    match p
    case Spin => 0
    case Acquire => 1
    case Arrive => 2
    case WaitLock => 3
    case WaitClear => 4
    case WaitUnlock => 5
    case WaitRelease => 6
    case FutexWait => 7
    case Asleep => 8
    case Reacquire => 9
    case Leave => 10
    case LeaveRelease => 11
    case LastReset => 3
    case LastLeaving => 4
    case LastRelease => 5
    case CastLock => 6
    case CastSet => 7
    case CastWake => 8
    case CastUnlock => 9
  }

  function Effort(s: State, t: nat): nat
    requires t < |s.pc| == |s.departures|
  {
    12 * s.departures[t] + Rank(s.pc[t])
  }

  function TotalEffort(s: State, k: nat): nat
    requires k <= |s.pc| == |s.departures|
  {
    if k == 0 then 0 else TotalEffort(s, k - 1) + Effort(s, k - 1)
  }

  lemma OwnEffort(n: nat, s: State, t: nat)
    requires Enabled(n, s, t)
    ensures WellFormed(n, Step(n, s, t))
    ensures Effort(Step(n, s, t), t) >= Effort(s, t) + if Progress(n, s, t) then 1 else 0
  {
  }

  lemma OtherEffort(n: nat, s: State, t: nat, u: nat)
    requires Enabled(n, s, t) && u < n && u != t
    ensures WellFormed(n, Step(n, s, t))
    ensures Effort(Step(n, s, t), u) >= Effort(s, u)
  {
    StepStays(n, s, t);
    if s.pc[t] != CastWake {
      hide Step;
    }
  }

  lemma {:induction false} TotalEffortGrows(n: nat, s: State, t: nat, k: nat)
    requires Enabled(n, s, t) && k <= n
    ensures WellFormed(n, Step(n, s, t))
    ensures TotalEffort(Step(n, s, t), k) >= TotalEffort(s, k) + if Progress(n, s, t) && t < k then 1 else 0
  {
    if k > 0 {
      TotalEffortGrows(n, s, t, k - 1);
      StepStays(n, s, t);
      hide Effort, Step, Enabled, Progress;
      if k - 1 == t {
        OwnEffort(n, s, t);
      } else {
        OtherEffort(n, s, t, k - 1);
      }
    } else {
      StepStays(n, s, t);
    }
  }

  /** The number of steps among the first i that were not a thread finding m_leaving above zero. */
  ghost function ProgressSteps(n: nat, states: seq<State>, schedule: seq<nat>, i: nat): nat
    requires i <= |schedule| < |states|
  {
    if i == 0 then 0 else
      ProgressSteps(n, states, schedule, i - 1) + if Progress(n, states[i - 1], schedule[i - 1]) then 1 else 0
  }

  lemma {:induction false} ProgressIsEffort(n: nat, states: seq<State>, schedule: seq<nat>, i: nat)
    requires n > 0 && IsRun(n, states, schedule) && i <= |schedule|
    ensures WellFormed(n, states[i]) && ProgressSteps(n, states, schedule, i) <= TotalEffort(states[i], n)
  {
    if i > 0 {
      ProgressIsEffort(n, states, schedule, i - 1);
      assert StepAt(n, states, schedule, i - 1);
      TotalEffortGrows(n, states[i - 1], schedule[i - 1], n);
    }
  }

  lemma {:induction false} EffortBounded(s: State, k: nat, bound: nat)
    requires k <= |s.pc| == |s.departures|
    requires forall t | 0 <= t < k :: s.departures[t] <= bound
    ensures TotalEffort(s, k) <= k * (12 * bound + 11)
  {
    if k > 0 {
      EffortBounded(s, k - 1, bound);
      assert Effort(s, k - 1) <= 12 * bound + 11;
      assert k * (12 * bound + 11) == (k - 1) * (12 * bound + 11) + (12 * bound + 11);
    }
  }

  /** No livelock and no starvation: every 12 * n steps of progress complete another round, for all threads. */
  lemma EveryThreadReturns(n: nat, states: seq<State>, schedule: seq<nat>, rounds: nat, u: nat)
    requires n > 0 && IsRun(n, states, schedule) && u < n
    requires ProgressSteps(n, states, schedule, |schedule|) >= 12 * n * (rounds + 1)
    ensures WellFormed(n, states[|schedule|]) && states[|schedule|].departures[u] >= rounds
  {
    var s := states[|schedule|];
    var r := RunKeepsInv(n, states, schedule, |schedule|);
    ProgressIsEffort(n, states, schedule, |schedule|);
    if s.departures[u] < rounds {
      forall t | 0 <= t < n ensures s.departures[t] <= rounds {
        assert s.departures[t] <= s.departures[u] + 1;
      }
      EffortBounded(s, n, rounds);
      RoundArithmetic(n, rounds);
    }
  }

  lemma RoundArithmetic(n: nat, rounds: nat)
    requires n > 0
    ensures n * (12 * rounds + 11) < 12 * n * (rounds + 1)
  {
    assert n * (12 * rounds + 11) == 12 * n * (rounds + 1) - n;
  }
}
