/**
 When the process can deadlock. A thread in a manager waits only for locks above those it
 holds; the log mutex is above them all, except for a thread that calls `add` while it
 holds the log mutex for an open entry. That exception is what every deadlock comes from.
 */
module Deadlocks {
  import opened Options
  import opened InstanceSlots
  import opened ManagerThreads
  import opened TwoManagers
  import L = Linearizability

  /** t is in the middle of something and has no next step. */
  ghost predicate Stuck(s: Sys, t: Tid) {
    && !IdleThread(s, t)
    && !CoreEnabled(s, Step(t)) && !CoreEnabled(s, Return(t))
    && !AvEnabled(s, Step(t)) && !AvEnabled(s, Return(t))
    && !SysEnabled(true, s, TakeLog(t)) && !SysEnabled(true, s, DropLog(t))
  }

  ghost predicate CanMove(s: Sys, t: Tid) { !IdleThread(s, t) && !Stuck(s, t) }

  ghost predicate Deadlocked(s: Sys) {
    && (exists t: Tid :: !IdleThread(s, t))
    && (forall t: Tid :: !CanMove(s, t))
  }

  // The managers' locks in the order they are taken: core manager, core slot, av manager, av slot.

  ghost predicate HoldsRank(s: Sys, t: Tid, r: nat) {
    match r
    case 0 => HoldsMutex(CoreFrame(s, t))
    case 1 => HeldSlot(CoreFrame(s, t)).Some?
    case 2 => HoldsMutex(AvFrame(s, t))
    case 3 => HeldSlot(AvFrame(s, t)).Some?
    case _ => false
  }

  function WaitsFor(s: Sys, t: Tid): Option<nat> {
    if AvFrame(s, t).Entering? then Some(2)
    else if AvFrame(s, t).Slotting? then Some(3)
    else if !AvFrame(s, t).Idle? then None
    else if CoreFrame(s, t).Entering? then Some(0)
    else if CoreFrame(s, t).Slotting? then Some(1)
    else None
  }

  /** With logging off or on, a thread only waits for a manager lock that ranks above all those it holds. */
  lemma LocksAreTakenInOrder(logging: bool, s: Sys, t: Tid, r: nat)
    requires SysInv(logging, s) && HoldsRank(s, t, r) && WaitsFor(s, t).Some?
    ensures r < WaitsFor(s, t).value
  {
    assert Nested(CoreFrame(s, t), AvFrame(s, t));
    assert FrameOk(s.av.slots, AvFrame(s, t));
  }

  /** Waiting for the mutex of one manager. */
  lemma MutexHasHolder(m: State, t: Tid) returns (u: Tid)
    requires Inv(m) && FrameOf(m, t).Entering? && !Enabled(m, Step(t))
    ensures HoldsMutex(FrameOf(m, u))
  {
    u := m.mutex.value;
    assert m.mutex == Some(u) <==> HoldsMutex(FrameOf(m, u));
  }

  lemma SlotHasHolder(m: State, t: Tid) returns (u: Tid)
    requires Inv(m) && FrameOf(m, t).Slotting? && !Enabled(m, Step(t))
    ensures HeldSlot(FrameOf(m, u)).Some?
  {
    assert FrameOk(m.slots, FrameOf(m, t));
    var n := FrameOf(m, t).op.n;
    u := m.locks[n - 1].value;
    assert LockedBy(m, n, u) <==> HeldSlot(FrameOf(m, u)) == Some(n);
  }

  /** In a manager, a thread can step or return unless it waits for a lock. */
  lemma WaitsInManager(m: State, t: Tid)
    requires Inv(m) && !FrameOf(m, t).Idle? && !Enabled(m, Step(t)) && !Enabled(m, Return(t))
    ensures FrameOf(m, t).Entering? || FrameOf(m, t).Slotting?
    ensures InAdd(FrameOf(m, t)) ==> FrameOf(m, t).Entering?
  {
    assert FrameOk(m.slots, FrameOf(m, t));
  }

  /** A thread that runs user code can move unless it waits for the log mutex. */
  lemma UserCodeMoves(logging: bool, s: Sys, t: Tid)
    requires SysInv(logging, s) && InUserCode(s, t) && !IdleThread(s, t)
    requires LogOf(s, t).wanting.None? || LogOf(s, t).held != []
    ensures CanMove(s, t)
  {
    assert UseOk(CoreFrame(s, t), AvFrame(s, t), LogOf(s, t));
    assert s.logOwner == Some(t) <==> LogOf(s, t).held != [];
    if LogOf(s, t).held != [] {
      if LogOf(s, t).wanting.Some? {
        assert SysEnabled(true, s, TakeLog(t));
      } else {
        assert SysEnabled(true, s, DropLog(t));
      }
    } else if AvFrame(s, t).Running? {
      assert AvEnabled(s, Step(t));
    } else {
      assert CoreEnabled(s, Step(t));
    }
  }

  /** A stuck thread in a manager waits for a lock that another thread holds. */
  lemma StuckWaits(logging: bool, s: Sys, t: Tid) returns (u: Tid)
    requires SysInv(logging, s) && Stuck(s, t) && !InUserCode(s, t)
    ensures WaitsFor(s, t).Some? && HoldsRank(s, u, WaitsFor(s, t).value)
  {
    NotWanting(logging, s, t);
    var av, core := AvFrame(s, t), CoreFrame(s, t);
    if !av.Idle? {
      WaitsInManager(s.av, t);
      if av.Entering? {
        u := MutexHasHolder(s.av, t);
      } else {
        u := SlotHasHolder(s.av, t);
      }
    } else {
      WaitsInManager(s.core, t);
      if core.Entering? {
        u := MutexHasHolder(s.core, t);
      } else {
        u := SlotHasHolder(s.core, t);
      }
    }
  }

  /** In a manager, only the manager's own state decides whether a thread can step. */
  lemma NotWanting(logging: bool, s: Sys, t: Tid)
    requires SysInv(logging, s) && !InUserCode(s, t)
    ensures LogOf(s, t).wanting.None?
    ensures !AvFrame(s, t).Idle? ==> !AvFrame(s, t).Running?
    ensures AvFrame(s, t).Idle? ==> !CoreFrame(s, t).Idle? && !CoreFrame(s, t).Running?
  {
    assert UseOk(CoreFrame(s, t), AvFrame(s, t), LogOf(s, t));
    assert Nested(CoreFrame(s, t), AvFrame(s, t));
  }

  /** Whoever holds the log mutex runs user code: it is not in a manager to add an instance. */
  ghost predicate OwnerInUserCode(s: Sys) {
    s.logOwner.Some? ==> InUserCode(s, s.logOwner.value)
  }

  /** A thread that is stuck in user code waits for the log mutex, and the owner of that can move. */
  lemma LogOwnerMoves(logging: bool, s: Sys, t: Tid) returns (u: Tid)
    requires SysInv(logging, s) && OwnerInUserCode(s) && Stuck(s, t) && InUserCode(s, t)
    ensures CanMove(s, u)
  {
    if LogOf(s, t).wanting.None? {
      UserCodeMoves(logging, s, t);
      u := t;
    } else {
      u := s.logOwner.value;
      assert s.logOwner == Some(u) <==> LogOf(s, u).held != [];
      UserCodeMoves(logging, s, u);
    }
  }

  /** Following the locks upwards always ends at a thread that can move. */
  lemma {:induction false} SomeThreadMoves(logging: bool, s: Sys, t: Tid) returns (u: Tid)
    requires SysInv(logging, s) && OwnerInUserCode(s) && !IdleThread(s, t)
    ensures CanMove(s, u)
    decreases if WaitsFor(s, t).Some? then 4 - WaitsFor(s, t).value else 5
  {
    if !Stuck(s, t) {
      u := t;
    } else if InUserCode(s, t) {
      u := LogOwnerMoves(logging, s, t);
    } else {
      var v := StuckWaits(logging, s, t);
      if !Stuck(s, v) {
        u := v;
      } else if InUserCode(s, v) {
        u := LogOwnerMoves(logging, s, v);
      } else {
        var _ := StuckWaits(logging, s, v);
        LocksAreTakenInOrder(logging, s, v, WaitsFor(s, t).value);
        u := SomeThreadMoves(logging, s, v);
      }
    }
  }

  lemma {:induction false} NoDeadlockIfOwnerInUserCode(logging: bool, s: Sys)
    requires SysInv(logging, s) && OwnerInUserCode(s)
    ensures !Deadlocked(s)
  {
    if t: Tid :| !IdleThread(s, t) {
      var u := SomeThreadMoves(logging, s, t);
    }
  }

  // -------------------------------------------------------- where there is no deadlock

  /** With logging disabled no run of the process deadlocks. */
  lemma {:induction false} NoDeadlockWithoutLogging(tr: SysTrace)
    requires SysRun(false, tr)
    ensures !Deadlocked(SysAfter(false, tr))
  {
    SysRunKeepsInv(false, tr);
    QuietOwner(SysAfter(false, tr));
    NoDeadlockIfOwnerInUserCode(false, SysAfter(false, tr));
  }

  lemma {:induction false} QuietOwner(s: Sys)
    requires SysInv(false, s)
    ensures OwnerInUserCode(s)
  {
    if s.logOwner.Some? {
      var t := s.logOwner.value;
      assert LogOf(s, t).held != [] by {
        assert s.logOwner == Some(t) <==> LogOf(s, t).held != [];
      }
      assert QuietUse(LogOf(s, t));
      assert LogOf(s, t).held[0] == Service;
      assert UseOk(CoreFrame(s, t), AvFrame(s, t), LogOf(s, t));
    }
  }

  /** Does the step call `add` while the thread holds the log mutex for an open entry? */
  predicate AddsInsideEntry(s: Sys, x: SysAction) {
    (x.Core? || x.Av?) && x.a.Call? && x.a.op.Add? && LogOf(s, x.a.t).held != []
  }

  ghost predicate NeverAddsInsideEntry(logging: bool, tr: SysTrace)
    requires SysRun(logging, tr)
  {
    match tr
    case SysBegin => true
    case SysExtend(prev, x) => NeverAddsInsideEntry(logging, prev) && !AddsInsideEntry(SysAfter(logging, prev), x)
  }

  /** Every thread that holds the log mutex runs user code. */
  ghost predicate HoldersInUserCode(s: Sys) {
    forall t: Tid :: LogOf(s, t).held != [] ==> InUserCode(s, t)
  }

  lemma StepKeepsHolder(logging: bool, s: Sys, x: SysAction, t: Tid)
    requires SysInv(logging, s) && SysEnabled(logging, s, x) && !AddsInsideEntry(s, x)
    requires LogOf(s, t).held != [] ==> InUserCode(s, t)
    ensures LogOf(SysApply(s, x), t).held != [] ==> InUserCode(SysApply(s, x), t)
  {
    assert UseOk(CoreFrame(s, t), AvFrame(s, t), LogOf(s, t));
    match x
    case Core(a) =>
      if a.t != t {
        L.OthersStay(s.core, a, t);
      }
    case Av(a) =>
      if a.t != t {
        L.OthersStay(s.av, a, t);
      }
    case _ =>
  }

  lemma {:induction false} HoldersStayInUserCode(logging: bool, tr: SysTrace)
    requires SysRun(logging, tr) && NeverAddsInsideEntry(logging, tr)
    ensures HoldersInUserCode(SysAfter(logging, tr))
  {
    match tr
    case SysBegin =>
    case SysExtend(prev, x) =>
      HoldersStayInUserCode(logging, prev);
      SysRunKeepsInv(logging, prev);
      var s := SysAfter(logging, prev);
      forall t: Tid ensures LogOf(SysApply(s, x), t).held != [] ==> InUserCode(SysApply(s, x), t) {
        StepKeepsHolder(logging, s, x, t);
      }
  }

  /** Even with logging enabled, a run in which nobody calls `add` inside an open log entry does not deadlock. */
  lemma {:induction false} NoDeadlockWithoutAddInsideEntry(logging: bool, tr: SysTrace)
    requires SysRun(logging, tr) && NeverAddsInsideEntry(logging, tr)
    ensures !Deadlocked(SysAfter(logging, tr))
  {
    var s := SysAfter(logging, tr);
    SysRunKeepsInv(logging, tr);
    assert OwnerInUserCode(s) by {
      HoldersStayInUserCode(logging, tr);
      HolderIsOwner(s);
    }
    NoDeadlockIfOwnerInUserCode(logging, s);
  }

  lemma {:induction false} HolderIsOwner(s: Sys)
    requires LogOwnerOk(s) && HoldersInUserCode(s)
    ensures OwnerInUserCode(s)
  {
    if s.logOwner.Some? {
      assert s.logOwner == Some(s.logOwner.value) <==> LogOf(s, s.logOwner.value).held != [];
    }
  }

  /** t holds the log mutex for an entry and waits in `add` for the mutex of a manager. */
  ghost predicate BlockedInAdd(s: Sys, t: Tid) {
    && s.logOwner == Some(t) && LogOf(s, t).held != []
    && ((CoreFrame(s, t).Entering? && CoreFrame(s, t).op.Add? && AvFrame(s, t).Idle?)
        || (AvFrame(s, t).Entering? && AvFrame(s, t).op.Add?))
  }

  /** In every deadlock a run can reach, the owner of the log mutex is blocked in `add`. */
  lemma {:induction false} DeadlocksAreBlockedInAdd(logging: bool, tr: SysTrace) returns (t: Tid)
    requires SysRun(logging, tr) && Deadlocked(SysAfter(logging, tr))
    ensures BlockedInAdd(SysAfter(logging, tr), t)
  {
    var s := SysAfter(logging, tr);
    SysRunKeepsInv(logging, tr);
    assert !OwnerInUserCode(s) by {
      if OwnerInUserCode(s) {
        NoDeadlockIfOwnerInUserCode(logging, s);
      }
    }
    t := s.logOwner.value;
    OwnerOutsideUserCode(logging, s, t);
  }

  lemma {:induction false} OwnerOutsideUserCode(logging: bool, s: Sys, t: Tid)
    requires SysInv(logging, s) && s.logOwner == Some(t) && !InUserCode(s, t) && !CanMove(s, t)
    ensures BlockedInAdd(s, t)
  {
    assert s.logOwner == Some(t) <==> LogOf(s, t).held != [];
    assert UseOk(CoreFrame(s, t), AvFrame(s, t), LogOf(s, t));
    NotWanting(logging, s, t);
    if InAdd(AvFrame(s, t)) {
      WaitsInManager(s.av, t);
    } else {
      WaitsInManager(s.core, t);
    }
  }

  // ------------------------------------------------- a deadlock with logging enabled

  /** P holds of the initial state and survives every step of a process that logs. */
  ghost predicate Closed(P: Sys -> bool) {
    P(Boot) && forall s, x :: P(s) && Takes(s, x) ==> P(SysApply(s, x))
  }

  ghost predicate Takes(s: Sys, x: SysAction) {
    InstanceSlots.Valid(s.core.slots) && InstanceSlots.Valid(s.av.slots) && SysEnabled(true, s, x)
  }

  lemma Grow(P: Sys -> bool, s: Sys, x: SysAction, s': Sys)
    requires Closed(P) && P(s) && Takes(s, x) && SysApply(s, x) == s'
    ensures P(s')
  {
  }

  /** One step of the core manager while nobody logs or uses the av manager. */
  lemma CoreGrow(P: Sys -> bool, m: State, a: Action, m': State)
    requires Closed(P) && P(Boot.(core := m)) && Enabled(m, a)
    requires InstanceSlots.Valid(m.slots) && Apply(m, a) == m'
    ensures P(Boot.(core := m'))
  {
    Grow(P, Boot.(core := m), Core(a), Boot.(core := m'));
  }

  /** A core manager with one live instance. */
  function OneCore(mutex: Option<Tid>, lock: Option<Tid>, frames: map<Tid, Frame>): State {
    State(Slots([Some(0)], []), mutex, [lock], frames, map[0 := Slot(1)], [])
  }

  function NoCore(mutex: Option<Tid>, frames: map<Tid, Frame>): State {
    State(Empty, mutex, [], frames, map[0 := Caller(1)], [])
  }

  /** Thread 1 creates core instance 1. */
  lemma InstanceAdded(P: Sys -> bool)
    requires Closed(P)
    ensures P(Boot.(core := OneCore(Some(1), None, map[1 := Leaving(Add(0), Number(1))])))
  {
    var f0 := map[1 := Entering(Add(0))];
    var f1 := f0[1 := Locked(Add(0))];
    var f2 := f1[1 := Leaving(Add(0), Number(1))];
    CoreGrow(P, Init, Call(1, Add(0)), NoCore(None, f0));
    CoreGrow(P, NoCore(None, f0), Step(1), NoCore(Some(1), f1));
    assert map[0 := Caller(1)][0 := Slot(1)] == map[0 := Slot(1)];
    CoreGrow(P, NoCore(Some(1), f1), Step(1), OneCore(Some(1), None, f2));
    assert f2 == map[1 := Leaving(Add(0), Number(1))];
  }

  lemma OneInstance(P: Sys -> bool)
    requires Closed(P)
    ensures P(Boot.(core := OneCore(None, None, map[1 := Idle])))
  {
    InstanceAdded(P);
    var f0 := map[1 := Leaving(Add(0), Number(1))];
    var f1 := f0[1 := Returning(Add(0), Number(1))];
    var f2 := f1[1 := Idle];
    CoreGrow(P, OneCore(Some(1), None, f0), Step(1), OneCore(None, None, f1));
    CoreGrow(P, OneCore(None, None, f1), Return(1), OneCore(None, None, f2));
    assert f2 == map[1 := Idle];
  }

  /** Thread 2 calls a function on the instance. */
  lemma FunctionCalled(P: Sys -> bool)
    requires Closed(P)
    ensures P(Boot.(core := OneCore(Some(2), None, map[1 := Idle, 2 := Locked(With(1))])))
  {
    OneInstance(P);
    var f0 := map[1 := Idle];
    var f1 := f0[2 := Entering(With(1))];
    var f2 := f1[2 := Locked(With(1))];
    CoreGrow(P, OneCore(None, None, f0), Call(2, With(1)), OneCore(None, None, f1));
    CoreGrow(P, OneCore(None, None, f1), Step(2), OneCore(Some(2), None, f2));
    assert f2 == map[1 := Idle, 2 := Locked(With(1))];
  }

  lemma FunctionEntering(P: Sys -> bool)
    requires Closed(P)
    ensures P(Boot.(core := OneCore(Some(2), Some(2), map[1 := Idle, 2 := Slotted(With(1))])))
  {
    FunctionCalled(P);
    var f0 := map[1 := Idle, 2 := Locked(With(1))];
    var f1 := f0[2 := Slotting(With(1))];
    var f2 := f1[2 := Slotted(With(1))];
    CoreGrow(P, OneCore(Some(2), None, f0), Step(2), OneCore(Some(2), None, f1));
    CoreGrow(P, OneCore(Some(2), None, f1), Step(2), OneCore(Some(2), Some(2), f2));
    assert f2 == map[1 := Idle, 2 := Slotted(With(1))];
  }

  /** Thread 2 runs the function. */
  lemma FunctionRunning(P: Sys -> bool)
    requires Closed(P)
    ensures P(Boot.(core := OneCore(None, Some(2), map[1 := Idle, 2 := Running(1, 0)])))
  {
    FunctionEntering(P);
    var f0 := map[1 := Idle, 2 := Slotted(With(1))];
    var f1 := f0[2 := Fetched(1, Some(0))];
    var f2 := f1[2 := Running(1, 0)];
    CoreGrow(P, OneCore(Some(2), Some(2), f0), Step(2), OneCore(Some(2), Some(2), f1));
    CoreGrow(P, OneCore(Some(2), Some(2), f1), Step(2), OneCore(None, Some(2), f2));
    assert f2 == map[1 := Idle, 2 := Running(1, 0)];
  }

  /** Thread 3 asks to kill the instance and waits for its lock with the manager locked. */
  lemma KillWaiting(P: Sys -> bool)
    requires Closed(P)
    ensures P(Boot.(core := OneCore(Some(3), Some(2), map[1 := Idle, 2 := Running(1, 0), 3 := Slotting(Kill(1))])))
  {
    FunctionRunning(P);
    var f0 := map[1 := Idle, 2 := Running(1, 0)];
    var f1 := f0[3 := Entering(Kill(1))];
    var f2 := f1[3 := Locked(Kill(1))];
    var f3 := f2[3 := Slotting(Kill(1))];
    CoreGrow(P, OneCore(None, Some(2), f0), Call(3, Kill(1)), OneCore(None, Some(2), f1));
    CoreGrow(P, OneCore(None, Some(2), f1), Step(3), OneCore(Some(3), Some(2), f2));
    CoreGrow(P, OneCore(Some(3), Some(2), f2), Step(3), OneCore(Some(3), Some(2), f3));
    assert f3 == map[1 := Idle, 2 := Running(1, 0), 3 := Slotting(Kill(1))];
  }

  const Jam := Sys(
    State(Slots([Some(0)], []), Some(3), [Some(2)],
      map[1 := Entering(Add(1)), 2 := Running(1, 0), 3 := Slotting(Kill(1))], map[0 := Slot(1), 1 := Caller(1)], []),
    Init, Some(1), map[1 := LogUse(None, [Outside]), 2 := LogUse(Some(InFunc), [])])

  /** Thread 1 asks for a log entry to create another instance. */
  lemma LogWanted(P: Sys -> bool)
    requires Closed(P)
    ensures P(Boot.(
      core := OneCore(Some(3), Some(2), map[1 := Idle, 2 := Running(1, 0), 3 := Slotting(Kill(1))]),
      logs := map[1 := LogUse(Some(Outside), [])]))
  {
    KillWaiting(P);
    var s0 := Boot.(core := OneCore(Some(3), Some(2), map[1 := Idle, 2 := Running(1, 0), 3 := Slotting(Kill(1))]));
    Grow(P, s0, WantLog(1, Outside), s0.(logs := map[1 := LogUse(Some(Outside), [])]));
  }

  /** It gets the entry. */
  lemma LogTaken(P: Sys -> bool)
    requires Closed(P)
    ensures P(Boot.(
      core := OneCore(Some(3), Some(2), map[1 := Idle, 2 := Running(1, 0), 3 := Slotting(Kill(1))]),
      logOwner := Some(1), logs := map[1 := LogUse(None, [Outside])]))
  {
    LogWanted(P);
    var s0 := Boot.(
      core := OneCore(Some(3), Some(2), map[1 := Idle, 2 := Running(1, 0), 3 := Slotting(Kill(1))]),
      logs := map[1 := LogUse(Some(Outside), [])]);
    assert LevelOf(s0, 1) == Outside && [] + [Outside] == [Outside];
    assert s0.logs[1 := LogUse(None, [Outside])] == map[1 := LogUse(None, [Outside])];
    Grow(P, s0, TakeLog(1), s0.(logOwner := Some(1), logs := map[1 := LogUse(None, [Outside])]));
  }

  /** It then waits for the manager. */
  lemma ManagerWanted(P: Sys -> bool)
    requires Closed(P)
    ensures P(Sys(Jam.core, Init, Some(1), map[1 := LogUse(None, [Outside])]))
  {
    LogTaken(P);
    var f0 := map[1 := Idle, 2 := Running(1, 0), 3 := Slotting(Kill(1))];
    var s0 := Boot.(core := OneCore(Some(3), Some(2), f0), logOwner := Some(1), logs := map[1 := LogUse(None, [Outside])]);
    assert f0[1 := Entering(Add(1))] == Jam.core.frames;
    assert map[0 := Slot(1)][1 := Caller(1)] == Jam.core.owner;
    assert Apply(s0.core, Call(1, Add(1))) == Jam.core;
    Grow(P, s0, Core(Call(1, Add(1))), s0.(core := Jam.core));
  }

  /** Thread 2's function asks for a log entry. */
  lemma AllWaiting(P: Sys -> bool)
    requires Closed(P)
    ensures P(Jam)
  {
    ManagerWanted(P);
    var u0 := map[1 := LogUse(None, [Outside])];
    assert u0[2 := LogUse(Some(InFunc), [])] == Jam.logs;
    Grow(P, Sys(Jam.core, Init, Some(1), u0), WantLog(2, InFunc), Jam);
  }

  lemma JamIsDeadlocked()
    ensures Deadlocked(Jam)
  {
    assert !IdleThread(Jam, 1);
    assert Stuck(Jam, 1);
    assert Stuck(Jam, 2);
    assert Stuck(Jam, 3);
    forall t: Tid | t != 1 && t != 2 && t != 3 ensures IdleThread(Jam, t) {
    }
  }

  ghost predicate Reachable(s: Sys) {
    exists tr :: EndsIn(tr, s)
  }

  ghost predicate EndsIn(tr: SysTrace, s: Sys) {
    SysRun(true, tr) && SysAfter(true, tr) == s
  }

  lemma ReachableIsClosed()
    ensures Closed(s => Reachable(s))
  {
    assert EndsIn(SysBegin, Boot);
    forall s, x | Reachable(s) && Takes(s, x) ensures Reachable(SysApply(s, x)) {
      var tr :| EndsIn(tr, s);
      assert EndsIn(SysExtend(tr, x), SysApply(s, x));
    }
  }

  /** Threads 1, 2 and 3 wait for each other around the cycle log, manager, slot. */
  lemma LoggingDeadlocks() returns (tr: SysTrace)
    ensures SysRun(true, tr) && Deadlocked(SysAfter(true, tr))
  {
    ReachableIsClosed();
    AllWaiting(s => Reachable(s));
    JamIsDeadlocked();
    tr :| EndsIn(tr, Jam);
  }

  /** If tr is a run, it does not end in a deadlock. */
  ghost predicate DeadlockFree(logging: bool, tr: SysTrace) {
    SysRun(logging, tr) ==> !Deadlocked(SysAfter(logging, tr))
  }

  /** The process is free of deadlock exactly when logging is disabled. */
  lemma {:induction false} DeadlockFreeExactlyWithoutLogging(logging: bool)
    ensures !logging <==> forall tr :: DeadlockFree(logging, tr)
  {
    if logging {
      var tr := LoggingDeadlocks();
      assert !DeadlockFree(true, tr);
    } else {
      forall tr ensures DeadlockFree(false, tr) {
        if SysRun(false, tr) {
          NoDeadlockWithoutLogging(tr);
        }
      }
    }
  }
}
