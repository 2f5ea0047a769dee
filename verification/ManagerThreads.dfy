/**
 The instance manager under any number of threads. Every lock acquisition, every
 release and every access to the lists is one step; any thread may take the next one.
 */
module ManagerThreads {
  import opened Options
  import opened InstanceSlots

  type Tid = nat

  /** Where a thread stands in its current call. */
  datatype Frame =
    | Idle
    | Entering(op: Op)                    // blocked on, or about to take, the manager mutex
    | Locked(op: Op)                      // holds the manager mutex, the body is next
    | Slotting(op: Op)                    // number checked, blocked on the slot's mutex
    | Slotted(op: Op)                     // holds both mutexes
    | Dying(n: int, pair: Option<Obj>)    // kill: the pointers have been moved out
    | Dead(n: int)                        // kill: the destructor has run
    | Fetched(n: int, pair: Option<Obj>)  // with_instance: the pointers have been copied
    | Running(n: int, obj: Obj)           // with_instance: func runs; only the slot's mutex is held
    | Unlocking(n: int, out: Outcome)     // with_instance: done, the slot's mutex is still held
    | Leaving(op: Op, out: Outcome)       // done, the manager mutex is still held
    | Returning(op: Op, out: Outcome)     // holds nothing, the result is ready

  /** Where an object handed to `add` is. */
  datatype Owner = Caller(t: Tid) | Slot(n: int) | Condemned(t: Tid) | Destroyed

  datatype State = State(
    slots: Slots,
    mutex: Option<Tid>,
    locks: seq<Option<Tid>>,
    frames: map<Tid, Frame>,
    owner: map<Obj, Owner>,
    destroyed: seq<Obj>)

  const Init := State(Empty, None, [], map[], map[], [])

  function FrameOf(m: State, t: Tid): Frame {
    if t in m.frames then m.frames[t] else Idle
  }

  predicate HoldsMutex(f: Frame) {
    f.Locked? || f.Slotting? || f.Slotted? || f.Dying? || f.Dead? || f.Fetched? || f.Leaving?
  }

  function HeldSlot(f: Frame): Option<int> {
    match f
    case Slotted(Kill(n)) => Some(n)
    case Slotted(With(n)) => Some(n)
    case Dying(n, _) => Some(n)
    case Dead(n) => Some(n)
    case Fetched(n, _) => Some(n)
    case Running(n, _) => Some(n)
    case Unlocking(n, _) => Some(n)
    case _ => None
  }

  // ----------------------------------------------------------------------- steps

  datatype Action = Call(t: Tid, op: Op) | Step(t: Tid) | Return(t: Tid)

  predicate LockFree(m: State, n: int) {
    1 <= n <= |m.locks| && m.locks[n - 1].None?
  }

  predicate Enabled(m: State, a: Action) {
    var f := FrameOf(m, a.t);
    match a
    case Call(_, op) => f.Idle? && (op.Add? ==> op.obj !in m.owner)
    case Return(_) => f.Returning?
    case Step(_) =>
      match f
      case Idle => false
      case Returning(_, _) => false
      case Entering(_) => m.mutex.None?
      case Slotting(Kill(n)) => LockFree(m, n)
      case Slotting(With(n)) => LockFree(m, n)
      case Slotting(_) => false
      case _ => true
  }

  function SetLock(locks: seq<Option<Tid>>, n: int, owner: Option<Tid>): seq<Option<Tid>> {
    if 1 <= n <= |locks| then locks[n - 1 := owner] else locks
  }

  function Go(m: State, t: Tid, f: Frame): State {
    m.(frames := m.frames[t := f])
  }

  function PairAt(s: Slots, n: int): Option<Obj> {
    if 1 <= n <= |s.instances| then s.instances[n - 1] else None
  }

  /** The critical section of `add`. */
  function DoAdd(m: State, t: Tid, obj: Obj): State
    requires InstanceSlots.Valid(m.slots)
  {
    var (s', out) := AfterAdd(m.slots, obj);
    Go(m, t, Leaving(Add(obj), out)).(
      slots := s',
      locks := if |s'.instances| > |m.slots.instances| then m.locks + [None] else m.locks,
      owner := m.owner[obj := Slot(out.n)])
  }

  /** `kill` moves the pair out of its slot while holding both mutexes. */
  function DoKill(m: State, t: Tid, n: int): State {
    var pair := PairAt(m.slots, n);
    Go(m, t, Dying(n, pair)).(
      slots := if pair.Some? then m.slots.(instances := m.slots.instances[n - 1 := None]) else m.slots,
      owner := if pair.Some? then m.owner[pair.value := Condemned(t)] else m.owner)
  }

  /** The destructor of the pair that `kill` moved out. */
  function DoDestroy(m: State, t: Tid, n: int, pair: Option<Obj>): State {
    if pair.None? then Go(m, t, Dead(n))
    else Go(m, t, Dead(n)).(
      owner := m.owner[pair.value := Destroyed],
      destroyed := m.destroyed + [pair.value])
  }

  function Rejection(v: Verdict): Outcome
    requires !v.Proceed?
  {
    if v.Ignore? then Ignored else Illegal(v.error)
  }

  /** The body behind the manager mutex: `add` and `finalize` run in full, the others check their number. */
  function DoBody(m: State, t: Tid, op: Op): State
    requires InstanceSlots.Valid(m.slots)
  {
    match op
    case Add(obj) => DoAdd(m, t, obj)
    case Finalize(n) =>
      var (s', out) := AfterFinalize(m.slots, n);
      Go(m, t, Leaving(op, out)).(slots := s')
    case _ =>
      var v := Check(m.slots, op.n, op.Kill?);
      if v.Proceed? then Go(m, t, Slotting(op)) else Go(m, t, Leaving(op, Rejection(v)))
  }

  function DoStep(m: State, t: Tid): State
    requires InstanceSlots.Valid(m.slots)
  {
    match FrameOf(m, t)
    case Entering(op) => Go(m, t, Locked(op)).(mutex := Some(t))
    case Locked(op) => DoBody(m, t, op)
    case Slotting(Kill(n)) => Go(m, t, Slotted(Kill(n))).(locks := SetLock(m.locks, n, Some(t)))
    case Slotting(With(n)) => Go(m, t, Slotted(With(n))).(locks := SetLock(m.locks, n, Some(t)))
    case Slotted(Kill(n)) => DoKill(m, t, n)
    case Slotted(With(n)) => Go(m, t, Fetched(n, PairAt(m.slots, n)))
    case Dying(n, pair) => DoDestroy(m, t, n, pair)
    case Dead(n) => Go(m, t, Leaving(Kill(n), Ok)).(locks := SetLock(m.locks, n, None))
    case Fetched(n, Some(obj)) => Go(m, t, Running(n, obj)).(mutex := None)
    case Fetched(n, None) => Go(m, t, Unlocking(n, KilledInstance)).(mutex := None)
    case Running(n, obj) => Go(m, t, Unlocking(n, Ran(obj)))
    case Unlocking(n, out) => Go(m, t, Returning(With(n), out)).(locks := SetLock(m.locks, n, None))
    case Leaving(op, out) => Go(m, t, Returning(op, out)).(mutex := None)
    case _ => m
  }

  function Apply(m: State, a: Action): State
    requires InstanceSlots.Valid(m.slots)
  {
    match a
    case Call(t, op) =>
      var m' := Go(m, t, Entering(op));
      if op.Add? then m'.(owner := m.owner[op.obj := Caller(t)]) else m'
    case Step(t) => DoStep(m, t)
    case Return(t) => Go(m, t, Idle)
  }

  // ------------------------------------------------------------------- invariant

  ghost predicate MutexOk(m: State) {
    forall t: Tid :: m.mutex == Some(t) <==> HoldsMutex(FrameOf(m, t))
  }

  ghost predicate LockedBy(m: State, n: int, t: Tid) {
    1 <= n <= |m.locks| && m.locks[n - 1] == Some(t)
  }

  ghost predicate LocksOk(m: State) {
    forall t: Tid, n: int :: LockedBy(m, n, t) <==> HeldSlot(FrameOf(m, t)) == Some(n)
  }

  ghost predicate Usable(s: Slots, n: int) {
    1 <= n <= |s.instances| && n !in s.freelist
  }

  /** What a thread in the middle of a call may rely on. */
  ghost predicate FrameOk(s: Slots, f: Frame) {
    match f
    case Slotting(op) => (op.Kill? || op.With?) && Usable(s, op.n)
    case Slotted(op) => (op.Kill? || op.With?) && Usable(s, op.n)
    case Dying(n, _) => Usable(s, n) && s.instances[n - 1].None?
    case Dead(n) => Usable(s, n) && s.instances[n - 1].None?
    case Fetched(n, pair) => Usable(s, n) && s.instances[n - 1] == pair
    case Running(n, obj) => Usable(s, n) && s.instances[n - 1] == Some(obj)
    case _ => true
  }

  ghost predicate FramesOk(m: State) {
    forall t: Tid :: FrameOk(m.slots, FrameOf(m, t))
  }

  function Carried(f: Frame): Option<Obj> {
    match f
    case Entering(Add(obj)) => Some(obj)
    case Locked(Add(obj)) => Some(obj)
    case _ => None
  }

  function Doomed(f: Frame): Option<Obj> {
    if f.Dying? then f.pair else None
  }

  ghost predicate FoundAt(m: State, obj: Obj, w: Owner) {
    match w
    case Caller(t) => Carried(FrameOf(m, t)) == Some(obj)
    case Slot(n) => PairAt(m.slots, n) == Some(obj)
    case Condemned(t) => Doomed(FrameOf(m, t)) == Some(obj)
    case Destroyed => obj in m.destroyed
  }

  /** Every object ever handed to `add` is in the one place recorded for it, and nothing is anywhere else. */
  ghost predicate OwnerOk(m: State) {
    && (forall obj: Obj, w: Owner :: FoundAt(m, obj, w) <==> obj in m.owner && m.owner[obj] == w)
    && (forall i, j :: 0 <= i < j < |m.destroyed| ==> m.destroyed[i] != m.destroyed[j])
  }

  ghost predicate Inv(m: State) {
    && InstanceSlots.Valid(m.slots)
    && |m.locks| == |m.slots.instances|
    && MutexOk(m) && LocksOk(m) && FramesOk(m) && OwnerOk(m)
  }

  // ---------------------------------------------- how a step of t keeps each part

  /** m' is m except that t moved to frame f, and possibly for lists and bookkeeping. */
  ghost predicate Moves(m: State, m': State, t: Tid, f: Frame) {
    m'.frames == m.frames[t := f]
  }

  ghost predicate MutexMoves(m: State, m': State, t: Tid, f: Frame) {
    || (m'.mutex == m.mutex && HoldsMutex(f) == HoldsMutex(FrameOf(m, t)))
    || (m.mutex.None? && m'.mutex == Some(t) && HoldsMutex(f))
    || (m.mutex == Some(t) && m'.mutex.None? && !HoldsMutex(f))
  }

  lemma MutexStep(m: State, m': State, t: Tid, f: Frame)
    requires MutexOk(m) && Moves(m, m', t, f) && MutexMoves(m, m', t, f)
    ensures MutexOk(m')
  {
    forall u: Tid ensures m'.mutex == Some(u) <==> HoldsMutex(FrameOf(m', u)) {
      assert m.mutex == Some(u) <==> HoldsMutex(FrameOf(m, u));
      assert m.mutex == Some(t) <==> HoldsMutex(FrameOf(m, t));
    }
  }

  ghost predicate LocksMove(m: State, m': State, t: Tid, f: Frame) {
    || (HeldSlot(f) == HeldSlot(FrameOf(m, t)) && (m'.locks == m.locks || m'.locks == m.locks + [None]))
    || (HeldSlot(FrameOf(m, t)).None? && HeldSlot(f).Some? && LockFree(m, HeldSlot(f).value)
        && m'.locks == SetLock(m.locks, HeldSlot(f).value, Some(t)))
    || (HeldSlot(FrameOf(m, t)).Some? && HeldSlot(f).None?
        && m'.locks == SetLock(m.locks, HeldSlot(FrameOf(m, t)).value, None))
  }

  lemma LocksStep(m: State, m': State, t: Tid, f: Frame)
    requires LocksOk(m) && Moves(m, m', t, f) && LocksMove(m, m', t, f)
    ensures LocksOk(m')
  {
    forall u: Tid, n: int ensures LockedBy(m', n, u) <==> HeldSlot(FrameOf(m', u)) == Some(n) {
      assert LockedBy(m, n, u) <==> HeldSlot(FrameOf(m, u)) == Some(n);
      assert LockedBy(m, n, t) <==> HeldSlot(FrameOf(m, t)) == Some(n);
    }
  }

  lemma FramesSame(m: State, m': State, t: Tid, f: Frame)
    requires FramesOk(m) && Moves(m, m', t, f) && m'.slots == m.slots && FrameOk(m.slots, f)
    ensures FramesOk(m')
  {
    forall u: Tid ensures FrameOk(m'.slots, FrameOf(m', u)) {
      assert FrameOk(m.slots, FrameOf(m, u));
    }
  }

  lemma OwnerSame(m: State, m': State, t: Tid, f: Frame)
    requires OwnerOk(m) && Moves(m, m', t, f) && m'.slots.instances == m.slots.instances
    requires m'.owner == m.owner && m'.destroyed == m.destroyed
    requires Carried(f) == Carried(FrameOf(m, t)) && Doomed(f) == Doomed(FrameOf(m, t))
    ensures OwnerOk(m')
  {
    forall obj: Obj, w: Owner ensures FoundAt(m', obj, w) <==> obj in m'.owner && m'.owner[obj] == w {
      assert FoundAt(m, obj, w) <==> obj in m.owner && m.owner[obj] == w;
    }
  }

  /** Steps that leave the lists alone keep the invariant if they take and release locks in an orderly way. */
  lemma QuietStep(m: State, m': State, t: Tid, f: Frame)
    requires Inv(m) && Moves(m, m', t, f) && FrameOk(m.slots, f)
    requires m'.slots == m.slots && m'.owner == m.owner && m'.destroyed == m.destroyed
    requires |m'.locks| == |m.locks|
    requires MutexMoves(m, m', t, f) && LocksMove(m, m', t, f)
    requires Carried(f) == Carried(FrameOf(m, t)) && Doomed(f) == Doomed(FrameOf(m, t))
    ensures Inv(m')
  {
    MutexStep(m, m', t, f);
    LocksStep(m, m', t, f);
    FramesSame(m, m', t, f);
    OwnerSame(m, m', t, f);
  }

  // --------------------------------------------------- the steps that change lists

  lemma CallKeepsInv(m: State, t: Tid, op: Op)
    requires Inv(m) && Enabled(m, Call(t, op))
    ensures Inv(Apply(m, Call(t, op)))
  {
    var m' := Apply(m, Call(t, op));
    MutexStep(m, m', t, Entering(op));
    LocksStep(m, m', t, Entering(op));
    FramesSame(m, m', t, Entering(op));
    if op.Add? {
      forall obj: Obj, w: Owner ensures FoundAt(m', obj, w) <==> obj in m'.owner && m'.owner[obj] == w {
        assert FoundAt(m, obj, w) <==> obj in m.owner && m.owner[obj] == w;
        assert !FoundAt(m, op.obj, w);
      }
    } else {
      OwnerSame(m, m', t, Entering(op));
    }
  }

  /** Frames that do not hold the mutex only depend on slots that are in use. */
  lemma BystanderKeeps(s: Slots, s': Slots, f: Frame)
    requires FrameOk(s, f) && !HoldsMutex(f)
    requires forall n :: Usable(s, n) && s.instances[n - 1].Some? ==>
      Usable(s', n) && s'.instances[n - 1] == s.instances[n - 1]
    ensures FrameOk(s', f)
  {
  }

  lemma AddKeepsFrames(m: State, t: Tid, obj: Obj)
    requires Inv(m) && FrameOf(m, t) == Locked(Add(obj))
    ensures FramesOk(DoAdd(m, t, obj))
  {
    var m' := DoAdd(m, t, obj);
    AddUnfinalised(m.slots, obj);
    forall n | Usable(m.slots, n) && m.slots.instances[n - 1].Some?
      ensures Usable(m'.slots, n) && m'.slots.instances[n - 1] == m.slots.instances[n - 1]
    {
      assert n in Unfinalised(m.slots);
      assert n in Unfinalised(m'.slots);
    }
    forall u: Tid ensures FrameOk(m'.slots, FrameOf(m', u)) {
      assert FrameOk(m.slots, FrameOf(m, u));
      if u != t {
        assert m.mutex == Some(t) <==> HoldsMutex(FrameOf(m, t));
        assert m.mutex == Some(u) <==> HoldsMutex(FrameOf(m, u));
        BystanderKeeps(m.slots, m'.slots, FrameOf(m, u));
      }
    }
  }

  /** `add` only fills a slot that was empty. */
  lemma AddFillsEmptySlot(s: Slots, obj: Obj)
    requires InstanceSlots.Valid(s)
    ensures AfterAdd(s, obj).1.Number? && PairAt(s, AfterAdd(s, obj).1.n).None?
    ensures forall n :: PairAt(AfterAdd(s, obj).0, n) == if n == AfterAdd(s, obj).1.n then Some(obj) else PairAt(s, n)
  {
  }

  lemma AddKeepsOwner(m: State, t: Tid, obj: Obj)
    requires Inv(m) && FrameOf(m, t) == Locked(Add(obj))
    ensures OwnerOk(DoAdd(m, t, obj))
  {
    var m' := DoAdd(m, t, obj);
    AddFillsEmptySlot(m.slots, obj);
    assert FoundAt(m, obj, Caller(t));
    forall o: Obj, w: Owner ensures FoundAt(m', o, w) <==> o in m'.owner && m'.owner[o] == w {
      assert FoundAt(m, o, w) <==> o in m.owner && m.owner[o] == w;
    }
  }

  lemma AddKeepsInv(m: State, t: Tid, obj: Obj)
    requires Inv(m) && FrameOf(m, t) == Locked(Add(obj))
    ensures Inv(DoAdd(m, t, obj))
  {
    var m' := DoAdd(m, t, obj);
    var f := Leaving(Add(obj), AfterAdd(m.slots, obj).1);
    AddRefinesMap(m.slots, obj);
    AddUnfinalised(m.slots, obj);
    assert Sizes(m'.slots).0 == |m'.locks|;
    MutexStep(m, m', t, f);
    LocksStep(m, m', t, f);
    AddKeepsFrames(m, t, obj);
    AddKeepsOwner(m, t, obj);
  }

  lemma FinalizeKeepsInv(m: State, t: Tid, n: int)
    requires Inv(m) && FrameOf(m, t) == Locked(Finalize(n))
    ensures Inv(DoBody(m, t, Finalize(n)))
  {
    var m' := DoBody(m, t, Finalize(n));
    var f := Leaving(Finalize(n), AfterFinalize(m.slots, n).1);
    assert InstanceSlots.Valid(m'.slots) by { FinalizeRefinesMap(m.slots, n); }
    MutexStep(m, m', t, f);
    LocksStep(m, m', t, f);
    OwnerSame(m, m', t, f);
    FinalizeKeepsFrames(m, t, n);
  }

  /** `finalize` only takes away slots that are empty. */
  lemma FinalizeKeepsLive(s: Slots, n: int)
    ensures AfterFinalize(s, n).0.instances == s.instances
    ensures forall k :: Usable(s, k) && s.instances[k - 1].Some? ==> Usable(AfterFinalize(s, n).0, k)
  {
  }

  lemma FinalizeKeepsFrames(m: State, t: Tid, n: int)
    requires Inv(m) && FrameOf(m, t) == Locked(Finalize(n))
    ensures FramesOk(DoBody(m, t, Finalize(n)))
  {
    var m' := DoBody(m, t, Finalize(n));
    FinalizeKeepsLive(m.slots, n);
    forall u: Tid ensures FrameOk(m'.slots, FrameOf(m', u)) {
      if u != t {
        assert FrameOk(m.slots, FrameOf(m, u));
        OneHolder(m, t, u);
        BystanderKeeps(m.slots, m'.slots, FrameOf(m, u));
      }
    }
  }

  lemma OneHolder(m: State, t: Tid, u: Tid)
    requires Inv(m) && HoldsMutex(FrameOf(m, t)) && u != t
    ensures !HoldsMutex(FrameOf(m, u))
  {
    assert m.mutex == Some(t) <==> HoldsMutex(FrameOf(m, t));
    assert m.mutex == Some(u) <==> HoldsMutex(FrameOf(m, u));
  }

  lemma KillKeepsFrames(m: State, t: Tid, n: int)
    requires Inv(m) && FrameOf(m, t) == Slotted(Kill(n))
    ensures FramesOk(DoKill(m, t, n))
  {
    var m' := DoKill(m, t, n);
    assert LockedBy(m, n, t) <==> HeldSlot(FrameOf(m, t)) == Some(n);
    assert FrameOk(m.slots, FrameOf(m, t));
    forall u: Tid ensures FrameOk(m'.slots, FrameOf(m', u)) {
      assert FrameOk(m.slots, FrameOf(m, u));
      assert m.mutex == Some(t) <==> HoldsMutex(FrameOf(m, t));
      assert m.mutex == Some(u) <==> HoldsMutex(FrameOf(m, u));
      assert LockedBy(m, n, u) <==> HeldSlot(FrameOf(m, u)) == Some(n);
    }
  }

  lemma KillKeepsOwner(m: State, t: Tid, n: int)
    requires Inv(m) && FrameOf(m, t) == Slotted(Kill(n))
    ensures OwnerOk(DoKill(m, t, n))
  {
    var m' := DoKill(m, t, n);
    var pair := PairAt(m.slots, n);
    if pair.Some? {
      assert FoundAt(m, pair.value, Slot(n));
    }
    forall o: Obj, w: Owner ensures FoundAt(m', o, w) <==> o in m'.owner && m'.owner[o] == w {
      assert FoundAt(m, o, w) <==> o in m.owner && m.owner[o] == w;
    }
  }

  lemma KillKeepsInv(m: State, t: Tid, n: int)
    requires Inv(m) && FrameOf(m, t) == Slotted(Kill(n))
    ensures Inv(DoKill(m, t, n))
  {
    var m' := DoKill(m, t, n);
    var f := Dying(n, PairAt(m.slots, n));
    MutexStep(m, m', t, f);
    LocksStep(m, m', t, f);
    KillKeepsFrames(m, t, n);
    KillKeepsOwner(m, t, n);
  }

  lemma DestroyKeepsInv(m: State, t: Tid, n: int, pair: Option<Obj>)
    requires Inv(m) && FrameOf(m, t) == Dying(n, pair)
    ensures Inv(DoDestroy(m, t, n, pair))
  {
    var m' := DoDestroy(m, t, n, pair);
    assert FrameOk(m.slots, FrameOf(m, t));
    MutexStep(m, m', t, Dead(n));
    LocksStep(m, m', t, Dead(n));
    FramesSame(m, m', t, Dead(n));
    if pair.Some? {
      assert FoundAt(m, pair.value, Condemned(t));
      assert !FoundAt(m, pair.value, Destroyed);
      forall o: Obj, w: Owner ensures FoundAt(m', o, w) <==> o in m'.owner && m'.owner[o] == w {
        assert FoundAt(m, o, w) <==> o in m.owner && m.owner[o] == w;
      }
    } else {
      OwnerSame(m, m', t, Dead(n));
    }
  }

  /** Steps that take or release a mutex, check a number or copy pointers. */
  lemma LockStepKeepsInv(m: State, t: Tid)
    requires Inv(m) && Enabled(m, Step(t))
    requires FrameOf(m, t).Entering? || FrameOf(m, t).Slotting? || FrameOf(m, t).Dead? || FrameOf(m, t).Leaving?
    ensures Inv(DoStep(m, t))
  {
    var m' := DoStep(m, t);
    assert FrameOk(m.slots, FrameOf(m, t));
    assert m.mutex == Some(t) <==> HoldsMutex(FrameOf(m, t));
    QuietStep(m, m', t, FrameOf(m', t));
  }

  lemma WithStepKeepsInv(m: State, t: Tid)
    requires Inv(m) && Enabled(m, Step(t))
    requires FrameOf(m, t).Fetched? || FrameOf(m, t).Running? || FrameOf(m, t).Unlocking?
    ensures Inv(DoStep(m, t))
  {
    var m' := DoStep(m, t);
    assert FrameOk(m.slots, FrameOf(m, t));
    assert m.mutex == Some(t) <==> HoldsMutex(FrameOf(m, t));
    QuietStep(m, m', t, FrameOf(m', t));
  }

  lemma BodyKeepsInv(m: State, t: Tid, op: Op)
    requires Inv(m) && FrameOf(m, t) == Locked(op)
    ensures Inv(DoBody(m, t, op))
  {
    match op
    case Add(obj) => AddKeepsInv(m, t, obj);
    case Finalize(n) => FinalizeKeepsInv(m, t, n);
    case _ => QuietStep(m, DoBody(m, t, op), t, FrameOf(DoBody(m, t, op), t));
  }

  lemma SlottedKeepsInv(m: State, t: Tid, op: Op)
    requires Inv(m) && FrameOf(m, t) == Slotted(op)
    ensures Inv(DoStep(m, t))
  {
    assert FrameOk(m.slots, FrameOf(m, t));
    match op
    case Kill(n) => KillKeepsInv(m, t, n);
    case With(n) => QuietStep(m, DoStep(m, t), t, Fetched(n, PairAt(m.slots, n)));
  }

  lemma StepKeepsInv(m: State, t: Tid)
    requires Inv(m) && Enabled(m, Step(t))
    ensures Inv(DoStep(m, t))
  {
    match FrameOf(m, t)
    case Locked(op) => BodyKeepsInv(m, t, op);
    case Slotted(op) => SlottedKeepsInv(m, t, op);
    case Dying(n, pair) => DestroyKeepsInv(m, t, n, pair);
    case Fetched(_, _) => WithStepKeepsInv(m, t);
    case Running(_, _) => WithStepKeepsInv(m, t);
    case Unlocking(_, _) => WithStepKeepsInv(m, t);
    case _ => LockStepKeepsInv(m, t);
  }

  /** Every step of every thread keeps the invariant. */
  lemma ApplyKeepsInv(m: State, a: Action)
    requires Inv(m) && Enabled(m, a)
    ensures Inv(Apply(m, a))
  {
    match a
    case Call(t, op) => CallKeepsInv(m, t, op);
    case Step(t) => StepKeepsInv(m, t);
    case Return(t) => QuietStep(m, Apply(m, a), t, Idle);
  }
}
