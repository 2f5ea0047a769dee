/**
 The process as a whole: the core manager, the av manager and the mutex of the call
 log. `toxavNew` adds to the av manager while it holds a core slot, and with logging
 enabled the log mutex is held across whole native calls. The native methods that read
 or set up the log itself take its mutex whether logging is enabled or not.
 */
module TwoManagers {
  import opened Options
  import opened InstanceSlots
  import opened ManagerThreads
  import L = Linearizability

  /**
   What the log mutex is held for: a log entry opened outside any instance, an entry opened
   inside a function run on one, or a method that works on the log itself.
   */
  datatype Level = Outside | InFunc | Service

  /** A thread's use of the recursive log mutex: what it asks for, and what it holds it for. */
  datatype LogUse = LogUse(wanting: Option<Level>, held: seq<Level>)

  const NoLog := LogUse(None, [])

  datatype Sys = Sys(core: State, av: State, logOwner: Option<Tid>, logs: map<Tid, LogUse>)

  const Boot := Sys(Init, Init, None, map[])

  function LogOf(s: Sys, t: Tid): LogUse {
    if t in s.logs then s.logs[t] else NoLog
  }

  function CoreFrame(s: Sys, t: Tid): Frame { FrameOf(s.core, t) }

  function AvFrame(s: Sys, t: Tid): Frame { FrameOf(s.av, t) }

  predicate IdleThread(s: Sys, t: Tid) {
    CoreFrame(s, t).Idle? && AvFrame(s, t).Idle? && LogOf(s, t) == NoLog
  }

  // ----------------------------------------------------------------------- steps

  datatype SysAction =
    | Core(a: Action)
    | Av(a: Action)
    | WantLog(t: Tid, level: Level)
    | TakeLog(t: Tid)
    | DropLog(t: Tid)

  /** The body of a native method, or of a function passed to `with_instance`, is being executed. */
  predicate UserCode(core: Frame, av: Frame) {
    || (av.Idle? && (core.Idle? || core.Running?))
    || (av.Running? && core.Idle?)
  }

  predicate InUserCode(s: Sys, t: Tid) { UserCode(CoreFrame(s, t), AvFrame(s, t)) }

  function LevelFor(core: Frame, av: Frame): Level {
    if core.Running? || av.Running? then InFunc else Outside
  }

  function LevelOf(s: Sys, t: Tid): Level { LevelFor(CoreFrame(s, t), AvFrame(s, t)) }

  /** Nothing is held for this level at the moment. */
  predicate NotNow(u: LogUse, level: Level) {
    u.held == [] || u.held[|u.held| - 1] != level
  }

  /** A new core instance may be added inside the log entry of its creation; other calls start outside any entry. */
  predicate CoreEnabled(s: Sys, a: Action) {
    && Enabled(s.core, a) && AvFrame(s, a.t).Idle? && LogOf(s, a.t).wanting.None?
    && (a.Call? ==> LogOf(s, a.t).held == [] || (a.op.Add? && NotNow(LogOf(s, a.t), Service)))
    && (CoreFrame(s, a.t).Running? ==> NotNow(LogOf(s, a.t), InFunc))
  }

  /** A new av instance is added while a core instance is in use; other av calls start on their own. */
  predicate AvEnabled(s: Sys, a: Action) {
    && Enabled(s.av, a) && LogOf(s, a.t).wanting.None?
    && (a.Call? ==>
          if a.op.Add? then CoreFrame(s, a.t).Running?
          else CoreFrame(s, a.t).Idle? && LogOf(s, a.t).held == [])
    && (AvFrame(s, a.t).Running? ==> NotNow(LogOf(s, a.t), InFunc))
  }

  predicate SysEnabled(logging: bool, s: Sys, x: SysAction) {
    match x
    case Core(a) => CoreEnabled(s, a)
    case Av(a) => AvEnabled(s, a)
    case WantLog(t, level) =>
      if level.Service? then IdleThread(s, t)
      else logging && InUserCode(s, t) && level == LevelOf(s, t) && LogOf(s, t).wanting.None? && NotNow(LogOf(s, t), Service)
    case TakeLog(t) => LogOf(s, t).wanting.Some? && (s.logOwner.None? || s.logOwner == Some(t))
    case DropLog(t) =>
      && InUserCode(s, t) && LogOf(s, t).wanting.None?
      && (!NotNow(LogOf(s, t), LevelOf(s, t)) || !NotNow(LogOf(s, t), Service))
  }

  function Taken(u: LogUse): LogUse {
    if u.wanting.Some? then LogUse(None, u.held + [u.wanting.value]) else u
  }

  function Dropped(u: LogUse): LogUse {
    if u.held != [] then LogUse(None, u.held[..|u.held| - 1]) else u
  }

  function SysApply(s: Sys, x: SysAction): Sys
    requires InstanceSlots.Valid(s.core.slots) && InstanceSlots.Valid(s.av.slots)
  {
    match x
    case Core(a) => s.(core := Apply(s.core, a))
    case Av(a) => s.(av := Apply(s.av, a))
    case WantLog(t, level) => s.(logs := s.logs[t := LogUse(Some(level), LogOf(s, t).held)])
    case TakeLog(t) => s.(logOwner := Some(t), logs := s.logs[t := Taken(LogOf(s, t))])
    case DropLog(t) =>
      s.(logOwner := if |LogOf(s, t).held| <= 1 then None else Some(t), logs := s.logs[t := Dropped(LogOf(s, t))])
  }

  // ------------------------------------------------------------------- invariant

  /** A thread is inside at most one manager, except that it may add an av instance from inside a core one. */
  ghost predicate Nested(core: Frame, av: Frame) {
    core.Idle? || av.Idle? || (core.Running? && InAdd(av))
  }

  ghost predicate NestingOk(s: Sys) {
    forall t: Tid :: Nested(CoreFrame(s, t), AvFrame(s, t))
  }

  predicate InAdd(f: Frame) { L.OpOf(f).Some? && L.OpOf(f).value.Add? }

  ghost predicate AllAt(held: seq<Level>, level: Level) {
    forall i :: 0 <= i < |held| ==> held[i] == level
  }

  /** Entries are open at one level at a time, and a thread in a manager has none, unless it is there to add an instance. */
  ghost predicate HeldOk(core: Frame, av: Frame, held: seq<Level>) {
    || held == []
    || (held == [Service] && core.Idle? && av.Idle?)
    || (AllAt(held, LevelFor(core, av)) && (UserCode(core, av) || (InAdd(core) && av.Idle?) || InAdd(av)))
  }

  ghost predicate WantOk(core: Frame, av: Frame, u: LogUse) {
    u.wanting.Some? ==>
      && UserCode(core, av)
      && if u.wanting.value.Service? then core.Idle? && av.Idle? && u.held == []
         else u.wanting.value == LevelFor(core, av) && NotNow(u, Service)
  }

  ghost predicate UseOk(core: Frame, av: Frame, u: LogUse) {
    HeldOk(core, av, u.held) && WantOk(core, av, u)
  }

  ghost predicate UsesOk(s: Sys) {
    forall t: Tid :: UseOk(CoreFrame(s, t), AvFrame(s, t), LogOf(s, t))
  }

  ghost predicate LogOwnerOk(s: Sys) {
    forall t: Tid :: s.logOwner == Some(t) <==> LogOf(s, t).held != []
  }

  /** Without logging the log mutex is used to work on the log itself only. */
  ghost predicate QuietUse(u: LogUse) {
    (u.held == [] || u.held == [Service]) && (u.wanting.None? || u.wanting.value.Service?)
  }

  ghost predicate Quiet(s: Sys) {
    forall t: Tid :: QuietUse(LogOf(s, t))
  }

  ghost predicate SysInv(logging: bool, s: Sys) {
    && Inv(s.core) && Inv(s.av) && NestingOk(s) && UsesOk(s) && LogOwnerOk(s)
    && (!logging ==> Quiet(s))
  }

  // ---------------------------------------------- how a step keeps each thread in order

  /** A step of a manager other than a call: the operation stays what it was until the thread is done with it. */
  ghost predicate Advances(f: Frame, f': Frame) {
    !f.Idle? && (L.OpOf(f') == L.OpOf(f) || (f.Returning? && f'.Idle?))
  }

  lemma ActionAdvances(m: State, a: Action)
    requires Inv(m) && Enabled(m, a) && !a.Call?
    ensures Advances(FrameOf(m, a.t), FrameOf(Apply(m, a), a.t))
  {
    if a.Step? {
      L.StepCommits(m, a.t);
    }
  }

  lemma CoreAdvanceKeepsUse(f: Frame, f': Frame, g: Frame, u: LogUse)
    requires Advances(f, f') && g.Idle? && u.wanting.None? && UseOk(f, g, u)
    requires f.Running? ==> NotNow(u, InFunc)
    ensures UseOk(f', g, u)
  {
  }

  lemma AvAdvanceKeepsUse(f: Frame, g: Frame, g': Frame, u: LogUse)
    requires Advances(g, g') && Nested(f, g) && u.wanting.None? && UseOk(f, g, u)
    requires g.Running? ==> NotNow(u, InFunc)
    ensures UseOk(f, g', u)
  {
  }

  lemma CoreStepKeepsUse(s: Sys, a: Action, t: Tid)
    requires Inv(s.core) && CoreEnabled(s, a)
    requires UseOk(CoreFrame(s, t), AvFrame(s, t), LogOf(s, t)) && Nested(CoreFrame(s, t), AvFrame(s, t))
    ensures
      var f' := FrameOf(Apply(s.core, a), t);
      UseOk(f', AvFrame(s, t), LogOf(s, t)) && Nested(f', AvFrame(s, t))
  {
    if a.t != t {
      L.OthersStay(s.core, a, t);
    } else if !a.Call? {
      ActionAdvances(s.core, a);
      CoreAdvanceKeepsUse(CoreFrame(s, t), FrameOf(Apply(s.core, a), t), AvFrame(s, t), LogOf(s, t));
    }
  }

  lemma AvStepKeepsUse(s: Sys, a: Action, t: Tid)
    requires Inv(s.av) && AvEnabled(s, a)
    requires UseOk(CoreFrame(s, t), AvFrame(s, t), LogOf(s, t)) && Nested(CoreFrame(s, t), AvFrame(s, t))
    ensures
      var g' := FrameOf(Apply(s.av, a), t);
      UseOk(CoreFrame(s, t), g', LogOf(s, t)) && Nested(CoreFrame(s, t), g')
  {
    if a.t != t {
      L.OthersStay(s.av, a, t);
    } else if !a.Call? {
      ActionAdvances(s.av, a);
      AvAdvanceKeepsUse(CoreFrame(s, t), AvFrame(s, t), FrameOf(Apply(s.av, a), t), LogOf(s, t));
    }
  }

  lemma TakenKeepsUse(f: Frame, g: Frame, u: LogUse)
    requires UseOk(f, g, u) && u.wanting.Some?
    ensures UseOk(f, g, Taken(u))
  {
  }

  lemma DroppedKeepsUse(f: Frame, g: Frame, u: LogUse)
    requires UseOk(f, g, u) && UserCode(f, g) && u.held != []
    ensures UseOk(f, g, Dropped(u))
  {
  }

  lemma LogStepKeepsUse(logging: bool, s: Sys, x: SysAction, t: Tid)
    requires SysInv(logging, s) && SysEnabled(logging, s, x) && !x.Core? && !x.Av?
    ensures UseOk(CoreFrame(s, t), AvFrame(s, t), LogOf(SysApply(s, x), t))
  {
    assert UseOk(CoreFrame(s, t), AvFrame(s, t), LogOf(s, t));
    if x.t == t {
      match x
      case WantLog(_, _) =>
      case TakeLog(_) => TakenKeepsUse(CoreFrame(s, t), AvFrame(s, t), LogOf(s, t));
      case DropLog(_) => DroppedKeepsUse(CoreFrame(s, t), AvFrame(s, t), LogOf(s, t));
    }
  }

  lemma ThreadsStayInOrder(logging: bool, s: Sys, x: SysAction)
    requires SysInv(logging, s) && SysEnabled(logging, s, x)
    ensures NestingOk(SysApply(s, x)) && UsesOk(SysApply(s, x))
  {
    var s' := SysApply(s, x);
    forall t: Tid
      ensures Nested(CoreFrame(s', t), AvFrame(s', t)) && UseOk(CoreFrame(s', t), AvFrame(s', t), LogOf(s', t))
    {
      assert Nested(CoreFrame(s, t), AvFrame(s, t)) && UseOk(CoreFrame(s, t), AvFrame(s, t), LogOf(s, t));
      match x
      case Core(a) => CoreStepKeepsUse(s, a, t);
      case Av(a) => AvStepKeepsUse(s, a, t);
      case _ => LogStepKeepsUse(logging, s, x, t);
    }
  }

  lemma LogOwnerKept(logging: bool, s: Sys, x: SysAction)
    requires SysInv(logging, s) && SysEnabled(logging, s, x)
    ensures LogOwnerOk(SysApply(s, x))
  {
    var s' := SysApply(s, x);
    forall t: Tid ensures s'.logOwner == Some(t) <==> LogOf(s', t).held != [] {
      assert s.logOwner == Some(t) <==> LogOf(s, t).held != [];
      if !x.Core? && !x.Av? {
        assert s.logOwner == Some(x.t) <==> LogOf(s, x.t).held != [];
      }
    }
  }

  lemma QuietKept(s: Sys, x: SysAction)
    requires SysInv(false, s) && SysEnabled(false, s, x)
    ensures Quiet(SysApply(s, x))
  {
    forall t: Tid ensures QuietUse(LogOf(SysApply(s, x), t)) {
      assert QuietUse(LogOf(s, t)) && UseOk(CoreFrame(s, t), AvFrame(s, t), LogOf(s, t));
    }
  }

  lemma SysApplyKeepsInv(logging: bool, s: Sys, x: SysAction)
    requires SysInv(logging, s) && SysEnabled(logging, s, x)
    ensures SysInv(logging, SysApply(s, x))
  {
    ThreadsStayInOrder(logging, s, x);
    LogOwnerKept(logging, s, x);
    if !logging {
      QuietKept(s, x);
    }
    match x
    case Core(a) => ApplyKeepsInv(s.core, a);
    case Av(a) => ApplyKeepsInv(s.av, a);
    case _ =>
  }

  // ------------------------------------------------------------------------ runs

  datatype SysTrace = SysBegin | SysExtend(prev: SysTrace, x: SysAction)

  ghost predicate SysRun(logging: bool, tr: SysTrace)
    decreases tr, 0
  {
    match tr
    case SysBegin => true
    case SysExtend(prev, x) => SysRun(logging, prev) && SysEnabled(logging, SysAfter(logging, prev), x)
  }

  ghost function SysAfter(logging: bool, tr: SysTrace): (s: Sys)
    requires SysRun(logging, tr)
    ensures InstanceSlots.Valid(s.core.slots) && InstanceSlots.Valid(s.av.slots)
    decreases tr, 1
  {
    match tr
    case SysBegin => Boot
    case SysExtend(prev, x) =>
      SysRunKeepsInv(logging, prev);
      SysApplyKeepsInv(logging, SysAfter(logging, prev), x);
      SysApply(SysAfter(logging, prev), x)
  }

  lemma {:induction false} SysRunKeepsInv(logging: bool, tr: SysTrace)
    requires SysRun(logging, tr)
    ensures SysInv(logging, SysAfter(logging, tr))
    decreases tr, 2
  {
    match tr
    case SysBegin =>
    case SysExtend(prev, x) =>
      SysRunKeepsInv(logging, prev);
      SysApplyKeepsInv(logging, SysAfter(logging, prev), x);
  }

  /** What the core manager sees of a run of the process. */
  function CoreTrace(tr: SysTrace): L.Trace {
    match tr
    case SysBegin => L.Begin
    case SysExtend(prev, x) => if x.Core? then L.Extend(CoreTrace(prev), x.a) else CoreTrace(prev)
  }

  function AvTrace(tr: SysTrace): L.Trace {
    match tr
    case SysBegin => L.Begin
    case SysExtend(prev, x) => if x.Av? then L.Extend(AvTrace(prev), x.a) else AvTrace(prev)
  }

  /** A step of the process is a step of one manager, or of none. */
  lemma {:induction false} OneManagerSteps(logging: bool, s: Sys, x: SysAction)
    requires SysInv(logging, s) && SysEnabled(logging, s, x)
    ensures if x.Core? then Enabled(s.core, x.a) && SysApply(s, x).core == Apply(s.core, x.a) else SysApply(s, x).core == s.core
    ensures if x.Av? then Enabled(s.av, x.a) && SysApply(s, x).av == Apply(s.av, x.a) else SysApply(s, x).av == s.av
  {
  }

  lemma {:induction false} SysAfterStep(logging: bool, tr: SysTrace)
    requires SysRun(logging, tr) && tr.SysExtend?
    ensures SysRun(logging, tr.prev) && SysInv(logging, SysAfter(logging, tr.prev))
    ensures SysEnabled(logging, SysAfter(logging, tr.prev), tr.x)
    ensures SysAfter(logging, tr) == SysApply(SysAfter(logging, tr.prev), tr.x)
  {
    SysRunKeepsInv(logging, tr.prev);
  }

  lemma {:induction false} RunGoesOn(tr: L.Trace, a: Action)
    requires L.Run(tr) && Enabled(L.StateAfter(tr), a)
    ensures L.Run(L.Extend(tr, a)) && L.StateAfter(L.Extend(tr, a)) == Apply(L.StateAfter(tr), a)
  {
  }

  lemma {:induction false} CoreRunsAlone(logging: bool, tr: SysTrace)
    requires SysRun(logging, tr)
    ensures L.Run(CoreTrace(tr)) && L.StateAfter(CoreTrace(tr)) == SysAfter(logging, tr).core
  {
    match tr
    case SysBegin =>
    case SysExtend(prev, x) =>
      CoreRunsAlone(logging, prev);
      SysAfterStep(logging, tr);
      OneManagerSteps(logging, SysAfter(logging, prev), x);
      if x.Core? {
        RunGoesOn(CoreTrace(prev), x.a);
      }
  }

  lemma {:induction false} AvRunsAlone(logging: bool, tr: SysTrace)
    requires SysRun(logging, tr)
    ensures L.Run(AvTrace(tr)) && L.StateAfter(AvTrace(tr)) == SysAfter(logging, tr).av
  {
    match tr
    case SysBegin =>
    case SysExtend(prev, x) =>
      AvRunsAlone(logging, prev);
      SysAfterStep(logging, tr);
      OneManagerSteps(logging, SysAfter(logging, prev), x);
      if x.Av? {
        RunGoesOn(AvTrace(prev), x.a);
      }
  }

  /** Each manager, inside the process, only ever does what it can do on its own: its safety carries over. */
  lemma {:induction false} RunningIsSafeInProcess(logging: bool, tr: SysTrace, t: Tid, n: int, obj: Obj)
    requires SysRun(logging, tr)
    ensures CoreFrame(SysAfter(logging, tr), t) == Running(n, obj) ==> L.SafelyRunning(SysAfter(logging, tr).core, t, n, obj)
    ensures AvFrame(SysAfter(logging, tr), t) == Running(n, obj) ==> L.SafelyRunning(SysAfter(logging, tr).av, t, n, obj)
  {
    CoreRunsAlone(logging, tr);
    AvRunsAlone(logging, tr);
    L.RunningIsSafe(CoreTrace(tr));
    L.RunningIsSafe(AvTrace(tr));
  }
}
