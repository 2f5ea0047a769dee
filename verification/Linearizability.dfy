/**
 Whole runs of the instance manager: every interleaving of any number of threads is
 explained by a sequential history of the same calls, an object is never used after
 it is destroyed, and no object is lost or destroyed twice.
 */
module Linearizability {
  import opened Options
  import opened InstanceSlots
  import opened ManagerThreads

  /** A run, as the actions taken so far, most recent last. */
  datatype Trace = Begin | Extend(prev: Trace, a: Action)

  ghost predicate Run(tr: Trace)
    decreases tr, 0
  {
    match tr
    case Begin => true
    case Extend(prev, a) => Run(prev) && Enabled(StateAfter(prev), a)
  }

  ghost function StateAfter(tr: Trace): (m: State)
    requires Run(tr)
    ensures InstanceSlots.Valid(m.slots)
    decreases tr, 1
  {
    match tr
    case Begin => Init
    case Extend(prev, a) =>
      RunKeepsInv(prev);
      ApplyKeepsInv(StateAfter(prev), a);
      Apply(StateAfter(prev), a)
  }

  /** The invariant holds in every state of every run. */
  lemma {:induction false} RunKeepsInv(tr: Trace)
    requires Run(tr)
    ensures Inv(StateAfter(tr))
    decreases tr, 2
  {
    match tr
    case Begin =>
    case Extend(prev, a) =>
      RunKeepsInv(prev);
      ApplyKeepsInv(StateAfter(prev), a);
  }

  // --------------------------------------------------------- linearisation points

  /** One entry of the sequential history: thread t's operation takes effect here. */
  datatype Lin = Lin(t: Tid, op: Op, out: Outcome)

  /**
   The step at which a call takes effect: the body of `add`, `finalize` and of any
   rejected call, otherwise the first access made with the slot's mutex held.
   */
  function PointOf(m: State, a: Action): Option<Op> {
    if !a.Step? then None
    else match FrameOf(m, a.t)
      case Locked(op) =>
        if op.Add? || op.Finalize? || !Check(m.slots, op.n, op.Kill?).Proceed? then Some(op) else None
      case Slotted(op) => Some(op)
      case _ => None
  }

  ghost function Lins(tr: Trace): seq<Lin>
    requires Run(tr)
  {
    match tr
    case Begin => []
    case Extend(prev, a) =>
      var m := StateAfter(prev);
      match PointOf(m, a)
      case None => Lins(prev)
      case Some(op) => Lins(prev) + [Lin(a.t, op, Exec(m.slots, op).1)]
  }

  function HistoryOf(lins: seq<Lin>): History {
    if lins == [] then Start else Then(HistoryOf(lins[..|lins| - 1]), lins[|lins| - 1].op)
  }

  /** Outside its linearisation point a step does not touch the lists; at the point it does all of the operation. */
  lemma {:induction false} PointDoesTheOperation(m: State, a: Action)
    requires Inv(m) && Enabled(m, a)
    ensures PointOf(m, a).None? ==> Apply(m, a).slots == m.slots
    ensures PointOf(m, a).Some? ==> Apply(m, a).slots == Exec(m.slots, PointOf(m, a).value).0
  {
    if a.Step? {
      assert FrameOk(m.slots, FrameOf(m, a.t));
      if FrameOf(m, a.t).Slotted? && FrameOf(m, a.t).op.Kill? {
        var n := FrameOf(m, a.t).op.n;
        assert m.slots.instances[n - 1].None? ==> m.slots.instances[n - 1 := None] == m.slots.instances;
      }
    }
  }

  /** The outcome recorded at position i is the one the sequential manager gives there, and the map allows it. */
  ghost predicate Explained(lins: seq<Lin>, i: nat)
    requires i < |lins|
  {
    var s := After(HistoryOf(lins[..i]));
    var s' := After(HistoryOf(lins[..i + 1]));
    && (s', lins[i].out) == Exec(s, lins[i].op)
    && Allowed(Abs(s), lins[i].op, lins[i].out, Abs(s'))
  }

  lemma {:induction false} ExplainedPrefix(lins: seq<Lin>, l: Lin, i: nat)
    requires i < |lins| && Explained(lins, i)
    ensures Explained(lins + [l], i)
  {
    assert (lins + [l])[..i] == lins[..i];
    assert (lins + [l])[..i + 1] == lins[..i + 1];
  }

  lemma {:induction false} ExplainedLast(lins: seq<Lin>, l: Lin)
    requires l.out == Exec(After(HistoryOf(lins)), l.op).1
    ensures HistoryOf(lins + [l]) == Then(HistoryOf(lins), l.op)
    ensures Explained(lins + [l], |lins|)
  {
    assert (lins + [l])[..|lins|] == lins;
    assert (lins + [l])[..|lins| + 1] == lins + [l];
    ExecRefinesMap(After(HistoryOf(lins)), l.op);
  }

  /**
   The linearisation points, in the order they were taken, form a legal sequential
   history that ends in the manager's actual lists.
   */
  lemma {:induction false} RunIsSequential(tr: Trace)
    requires Run(tr)
    ensures StateAfter(tr).slots == After(HistoryOf(Lins(tr)))
    ensures forall i :: 0 <= i < |Lins(tr)| ==> Explained(Lins(tr), i)
  {
    match tr
    case Begin =>
    case Extend(prev, a) =>
      RunIsSequential(prev);
      RunKeepsInv(prev);
      var m, lins := StateAfter(prev), Lins(prev);
      PointDoesTheOperation(m, a);
      if PointOf(m, a).Some? {
        var l := Lin(a.t, PointOf(m, a).value, Exec(m.slots, PointOf(m, a).value).1);
        ExplainedLast(lins, l);
        forall i | 0 <= i < |lins + [l]| ensures Explained(lins + [l], i) {
          if i < |lins| {
            ExplainedPrefix(lins, l, i);
          }
        }
      }
  }

  // ----------------------------------------------- one point inside every call

  /** How many linearisation points had been taken when t made its latest call. */
  ghost function CallMark(tr: Trace, t: Tid): nat
    requires Run(tr)
    ensures CallMark(tr, t) <= |Lins(tr)|
  {
    match tr
    case Begin => 0
    case Extend(prev, a) => if a.Call? && a.t == t then |Lins(prev)| else CallMark(prev, t)
  }

  /** The operation of t's latest call. */
  function Called(tr: Trace, t: Tid): Option<Op> {
    match tr
    case Begin => None
    case Extend(prev, a) => if a.Call? && a.t == t then Some(a.op) else Called(prev, t)
  }

  function Mine(lins: seq<Lin>, t: Tid): seq<Lin> {
    if lins == [] then []
    else
      var l := lins[|lins| - 1];
      Mine(lins[..|lins| - 1], t) + (if l.t == t then [l] else [])
  }

  lemma {:induction false} MineSnoc(lins: seq<Lin>, l: Lin, t: Tid)
    ensures Mine(lins + [l], t) == Mine(lins, t) + (if l.t == t then [l] else [])
  {
    assert (lins + [l])[..|lins|] == lins;
  }

  /** The linearisation points t has taken since its latest call. */
  ghost function Since(tr: Trace, t: Tid): seq<Lin>
    requires Run(tr)
  {
    Mine(Lins(tr)[CallMark(tr, t)..], t)
  }

  lemma {:induction false} SinceStep(tr: Trace, a: Action, t: Tid)
    requires Run(Extend(tr, a))
    ensures a.Call? && a.t == t ==> Since(Extend(tr, a), t) == []
    ensures (a.Call? ==> a.t != t) && (PointOf(StateAfter(tr), a).None? || a.t != t) ==> Since(Extend(tr, a), t) == Since(tr, t)
    ensures a.t == t && PointOf(StateAfter(tr), a).Some? ==>
      var op := PointOf(StateAfter(tr), a).value;
      Since(Extend(tr, a), t) == Since(tr, t) + [Lin(t, op, Exec(StateAfter(tr).slots, op).1)]
  {
    var m, lins, k := StateAfter(tr), Lins(tr), CallMark(tr, t);
    if PointOf(m, a).Some? {
      var l := Lin(a.t, PointOf(m, a).value, Exec(m.slots, PointOf(m, a).value).1);
      assert (lins + [l])[k..] == lins[k..] + [l];
      MineSnoc(lins[k..], l, t);
    }
  }

  /** The operation of the call a frame belongs to. */
  function OpOf(f: Frame): Option<Op> {
    match f
    case Idle => None
    case Entering(op) => Some(op)
    case Locked(op) => Some(op)
    case Slotting(op) => Some(op)
    case Slotted(op) => Some(op)
    case Dying(n, _) => Some(Kill(n))
    case Dead(n) => Some(Kill(n))
    case Fetched(n, _) => Some(With(n))
    case Running(n, _) => Some(With(n))
    case Unlocking(n, _) => Some(With(n))
    case Leaving(op, _) => Some(op)
    case Returning(op, _) => Some(op)
  }

  /** The outcome a frame is committed to, once its operation has taken effect. */
  function OutcomeOf(f: Frame): Option<Outcome> {
    match f
    case Dying(_, _) => Some(Ok)
    case Dead(_) => Some(Ok)
    case Fetched(_, pair) => Some(if pair.Some? then Ran(pair.value) else KilledInstance)
    case Running(_, obj) => Some(Ran(obj))
    case Unlocking(_, out) => Some(out)
    case Leaving(_, out) => Some(out)
    case Returning(_, out) => Some(out)
    case _ => None
  }

  ghost function Committed(t: Tid, f: Frame): seq<Lin> {
    if OpOf(f).None? || OutcomeOf(f).None? then [] else [Lin(t, OpOf(f).value, OutcomeOf(f).value)]
  }

  /** How a thread's own step moves it towards, through and past its linearisation point. */
  lemma {:induction false} StepCommits(m: State, t: Tid)
    requires Inv(m) && Enabled(m, Step(t))
    ensures OpOf(FrameOf(m, t)).Some? && OpOf(FrameOf(DoStep(m, t), t)) == OpOf(FrameOf(m, t))
    ensures PointOf(m, Step(t)).None? ==> OutcomeOf(FrameOf(DoStep(m, t), t)) == OutcomeOf(FrameOf(m, t))
    ensures PointOf(m, Step(t)).Some? ==>
      && PointOf(m, Step(t)) == OpOf(FrameOf(m, t))
      && OutcomeOf(FrameOf(m, t)).None?
      && OutcomeOf(FrameOf(DoStep(m, t), t)) == Some(Exec(m.slots, OpOf(FrameOf(m, t)).value).1)
  {
    assert FrameOk(m.slots, FrameOf(m, t));
  }

  lemma {:induction false} OthersStay(m: State, a: Action, t: Tid)
    requires Inv(m) && Enabled(m, a) && a.t != t
    ensures FrameOf(Apply(m, a), t) == FrameOf(m, t)
  {
  }

  /** Since its call, a thread has taken exactly the point its frame says it has. */
  lemma {:induction false} OnePointPerCall(tr: Trace, t: Tid)
    requires Run(tr)
    ensures !FrameOf(StateAfter(tr), t).Idle? ==>
      && Called(tr, t) == OpOf(FrameOf(StateAfter(tr), t))
      && Since(tr, t) == Committed(t, FrameOf(StateAfter(tr), t))
  {
    match tr
    case Begin =>
    case Extend(prev, a) =>
      OnePointPerCall(prev, t);
      SinceStep(prev, a, t);
      RunKeepsInv(prev);
      if a.t != t {
        OthersStay(StateAfter(prev), a, t);
      } else if a.Step? {
        StepCommits(StateAfter(prev), t);
      }
  }

  lemma {:induction false} MineOnly(lins: seq<Lin>, t: Tid) returns (i: nat)
    requires |Mine(lins, t)| <= 1
    ensures Mine(lins, t) == [] ==> forall j :: 0 <= j < |lins| ==> lins[j].t != t
    ensures Mine(lins, t) != [] ==>
      && i < |lins| && lins[i] == Mine(lins, t)[0]
      && forall j :: 0 <= j < |lins| && j != i ==> lins[j].t != t
  {
    i := 0;
    if lins != [] {
      i := MineOnly(lins[..|lins| - 1], t);
      if lins[|lins| - 1].t == t {
        i := |lins| - 1;
      }
    }
  }

  /** The one entry of t among positions k and up. */
  ghost predicate OnlyEntry(lins: seq<Lin>, k: nat, t: Tid, i: nat) {
    && k <= i < |lins| && lins[i].t == t
    && forall j :: k <= j < |lins| && j != i ==> lins[j].t != t
  }

  lemma {:induction false} OnlyEntryFromMine(lins: seq<Lin>, k: nat, t: Tid, l: Lin) returns (i: nat)
    requires k <= |lins| && Mine(lins[k..], t) == [l] && l.t == t
    ensures OnlyEntry(lins, k, t, i) && lins[i] == l
  {
    var suffix := lins[k..];
    var d := MineOnly(suffix, t);
    i := k + d;
    forall j | k <= j < |lins| && j != i ensures lins[j].t != t {
      assert suffix[j - k] == lins[j];
    }
  }

  /**
   Linearizability: when a call returns, exactly one of the points taken between its
   call and its return is its own, and the point carries the operation that was called
   and the outcome that is returned.
   */
  lemma {:induction false} CallTakesEffectOnce(tr: Trace, t: Tid) returns (i: nat)
    requires Run(tr) && Enabled(StateAfter(tr), Return(t))
    ensures OnlyEntry(Lins(tr), CallMark(tr, t), t, i)
    ensures Called(tr, t).Some?
    ensures Lins(tr)[i] == Lin(t, Called(tr, t).value, FrameOf(StateAfter(tr), t).out)
    ensures Explained(Lins(tr), i)
  {
    var f := FrameOf(StateAfter(tr), t);
    assert Called(tr, t) == Some(f.op) && Since(tr, t) == [Lin(t, f.op, f.out)] by { OnePointPerCall(tr, t); }
    i := OnlyEntryFromMine(Lins(tr), CallMark(tr, t), t, Lin(t, f.op, f.out));
    assert Explained(Lins(tr), i) by { RunIsSequential(tr); }
  }

  /** tr' continues tr. */
  ghost predicate Continues(tr: Trace, tr': Trace) {
    tr == tr' || (tr'.Extend? && Continues(tr, tr'.prev))
  }

  lemma {:induction false} LinsGrow(tr: Trace, tr': Trace, u: Tid)
    requires Run(tr') && Continues(tr, tr')
    ensures Run(tr) && Lins(tr) <= Lins(tr') && CallMark(tr, u) <= CallMark(tr', u)
  {
    if tr != tr' {
      LinsGrow(tr, tr'.prev, u);
    }
  }

  /** Real-time order: a call that returned before another was made comes before it in the history. */
  lemma {:induction false} HistoryKeepsRealTimeOrder(first: Trace, t: Tid, between: Trace, op: Op, last: Trace, u: Tid)
    returns (i: nat, j: nat)
    requires Run(last) && Continues(Extend(first, Return(t)), between)
    requires Continues(Extend(between, Call(u, op)), last)
    requires Enabled(StateAfter(last), Return(u))
    ensures Run(first) && i < |Lins(first)| && OnlyEntry(Lins(first), CallMark(first, t), t, i)
    ensures OnlyEntry(Lins(last), CallMark(last, u), u, j)
    ensures i < j && Lins(last)[i] == Lins(first)[i]
  {
    LinsGrow(Extend(between, Call(u, op)), last, u);
    LinsGrow(Extend(first, Return(t)), between, u);
    i := CallTakesEffectOnce(first, t);
    j := CallTakesEffectOnce(last, u);
  }

  // ------------------------------------------------------------ safety of every run

  /**
   While func runs, its slot is locked by the running thread alone, still holds exactly
   the pair func was given, and that pair has not been destroyed; the manager is not kept
   locked for it.
   */
  ghost predicate SafelyRunning(m: State, t: Tid, n: int, obj: Obj) {
    && LockedBy(m, n, t) && m.mutex != Some(t)
    && StatusAt(Abs(m.slots), n) == Live(obj)
    && obj !in m.destroyed
    && (forall u: Tid, obj' :: FrameOf(m, u) == Running(n, obj') ==> u == t)
  }

  lemma {:induction false} RunningInv(m: State, t: Tid, n: int, obj: Obj)
    requires Inv(m) && FrameOf(m, t) == Running(n, obj)
    ensures SafelyRunning(m, t, n, obj)
  {
    assert FrameOk(m.slots, FrameOf(m, t));
    assert LockedBy(m, n, t);
    assert FoundAt(m, obj, Slot(n));
    assert !FoundAt(m, obj, Destroyed);
    assert m.mutex == Some(t) <==> HoldsMutex(FrameOf(m, t));
    forall u: Tid, obj' | FrameOf(m, u) == Running(n, obj') ensures u == t {
      assert LockedBy(m, n, u);
    }
  }

  lemma {:induction false} RunningIsSafe(tr: Trace)
    requires Run(tr)
    ensures forall t, n, obj :: FrameOf(StateAfter(tr), t) == Running(n, obj) ==> SafelyRunning(StateAfter(tr), t, n, obj)
  {
    RunKeepsInv(tr);
    forall t, n, obj | FrameOf(StateAfter(tr), t) == Running(n, obj)
      ensures SafelyRunning(StateAfter(tr), t, n, obj)
    {
      RunningInv(StateAfter(tr), t, n, obj);
    }
  }

  /**
   A destructor is run by `kill` alone, with the manager and the slot locked, on a pair that is
   in no slot and that nobody runs a function on.
   */
  lemma {:induction false} DestructorRunsLocked(tr: Trace, a: Action, obj: Obj)
    requires Run(Extend(tr, a)) && obj in StateAfter(Extend(tr, a)).destroyed && obj !in StateAfter(tr).destroyed
    ensures
      var m := StateAfter(tr);
      && m.mutex == Some(a.t)
      && FrameOf(m, a.t).Dying? && FrameOf(m, a.t).pair == Some(obj) && LockedBy(m, FrameOf(m, a.t).n, a.t)
      && (forall n :: PairAt(m.slots, n) != Some(obj))
      && (forall u: Tid, n :: FrameOf(m, u) != Running(n, obj))
  {
    RunKeepsInv(tr);
    OnlyDyingDestroys(StateAfter(tr), a, obj);
    DyingIsAlone(StateAfter(tr), a.t, obj);
  }

  lemma {:induction false} OnlyDyingDestroys(m: State, a: Action, obj: Obj)
    requires Inv(m) && Enabled(m, a) && obj in Apply(m, a).destroyed && obj !in m.destroyed
    ensures a.Step? && FrameOf(m, a.t).Dying? && FrameOf(m, a.t).pair == Some(obj)
  {
  }

  lemma {:induction false} DyingIsAlone(m: State, t: Tid, obj: Obj)
    requires Inv(m) && FrameOf(m, t).Dying? && FrameOf(m, t).pair == Some(obj)
    ensures m.mutex == Some(t) && LockedBy(m, FrameOf(m, t).n, t)
    ensures forall n :: PairAt(m.slots, n) != Some(obj)
    ensures forall u: Tid, n :: FrameOf(m, u) != Running(n, obj)
  {
    assert m.mutex == Some(t) <==> HoldsMutex(FrameOf(m, t));
    assert LockedBy(m, FrameOf(m, t).n, t);
    assert FoundAt(m, obj, Condemned(t));
    forall n ensures PairAt(m.slots, n) != Some(obj) {
      assert !FoundAt(m, obj, Slot(n));
    }
    forall u: Tid, n ensures FrameOf(m, u) != Running(n, obj) {
      assert FrameOk(m.slots, FrameOf(m, u)) && PairAt(m.slots, n) != Some(obj);
    }
  }

  /** The objects handed to `add` so far. */
  function Given(tr: Trace): set<Obj> {
    match tr
    case Begin => {}
    case Extend(prev, a) => if a.Call? && a.op.Add? then Given(prev) + {a.op.obj} else Given(prev)
  }

  lemma {:induction false} GivenAreOwned(tr: Trace)
    requires Run(tr)
    ensures StateAfter(tr).owner.Keys == Given(tr)
  {
    match tr
    case Begin =>
    case Extend(prev, a) =>
      GivenAreOwned(prev);
      RunKeepsInv(prev);
      OwnerKeys(StateAfter(prev), a);
  }

  lemma {:induction false} OwnerKeys(m: State, a: Action)
    requires Inv(m) && Enabled(m, a)
    ensures Apply(m, a).owner.Keys == m.owner.Keys + (if a.Call? && a.op.Add? then {a.op.obj} else {})
  {
    if a.Step? {
      var f := FrameOf(m, a.t);
      match f
      case Locked(Add(obj)) => assert FoundAt(m, obj, Caller(a.t));
      case Slotted(Kill(n)) =>
        if PairAt(m.slots, n).Some? {
          assert FoundAt(m, PairAt(m.slots, n).value, Slot(n));
        }
      case Dying(n, pair) =>
        if pair.Some? {
          assert FoundAt(m, pair.value, Condemned(a.t));
        }
      case _ =>
    }
  }

  /**
   Ownership is conserved: an object is somewhere exactly if it was handed to `add`, it
   is in exactly one place, no destructor runs twice, and once all calls have returned
   it is in a slot or destroyed.
   */
  lemma {:induction false} OwnershipConserved(tr: Trace, obj: Obj)
    requires Run(tr)
    ensures
      var m := StateAfter(tr);
      && (obj in Given(tr) <==> exists w :: FoundAt(m, obj, w))
      && (forall w, w' :: FoundAt(m, obj, w) && FoundAt(m, obj, w') ==> w == w')
      && (forall i, j :: 0 <= i < j < |m.destroyed| ==> m.destroyed[i] != m.destroyed[j])
      && (obj in Given(tr) && (forall t: Tid :: FrameOf(m, t).Idle?) ==>
            obj in m.destroyed || exists n :: PairAt(m.slots, n) == Some(obj))
  {
    GivenAreOwned(tr);
    RunKeepsInv(tr);
    var m := StateAfter(tr);
    if obj in Given(tr) {
      assert FoundAt(m, obj, m.owner[obj]);
    }
  }

  /** The laws of the sequential manager hold of the lists in every reachable state. */
  lemma {:induction false} ListsAreTight(tr: Trace)
    requires Run(tr)
    ensures
      var m, h := StateAfter(tr), HistoryOf(Lins(tr));
      && |m.locks| == |m.slots.instances| == HighWater(h)
      && Unfinalised(m.slots) == Handles(h)
  {
    RunIsSequential(tr);
    RunKeepsInv(tr);
    SlotCountIsHighWater(HistoryOf(Lins(tr)));
    HandlesAreUnfinalised(HistoryOf(Lins(tr)));
  }

  /** No step of any run moves a slot against the Live, Killed, Free cycle. */
  lemma {:induction false} StepsCycle(tr: Trace, a: Action, n: int)
    requires Run(Extend(tr, a))
    ensures Cycles(StatusAt(Abs(StateAfter(tr).slots), n), StatusAt(Abs(StateAfter(Extend(tr, a)).slots), n))
  {
    var m := StateAfter(tr);
    RunKeepsInv(tr);
    PointDoesTheOperation(m, a);
    if PointOf(m, a).Some? {
      SlotsCycle(m.slots, PointOf(m, a).value, n);
    }
  }
}
