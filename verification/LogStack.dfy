/**
 The log as a stack machine. A forest of nested calls extends a run by the flat sequence
 of its starts and finishes, which knows nothing of the nesting but the stack of open calls;
 the log ends up holding what the recursive specification over the forest keeps.
 */
module LogStack {
  import opened Options
  import opened FuncNames
  import opened LogEntries
  import opened JniLog
  import opened LogThreads

  /** The run goes on with the starts and finishes of a forest of calls made by thread t. */
  function ThenCalls(tr: Trace, t: Tid, cs: seq<Call>): Trace
    decreases cs, 0
  {
    if cs == [] then tr else ThenCalls(ThenCall(tr, t, cs[0]), t, cs[1..])
  }

  function ThenCall(tr: Trace, t: Tid, c: Call): Trace
    decreases c, 1
  {
    Extend(ThenCalls(Extend(tr, Start(t, c.func)), t, c.inner), Finish(t))
  }

  // -------------------------------------------------------------- what a forest leaves

  function ConfigOf(s: State): Config {
    Config(s.maxSize, s.filters, s.names)
  }

  /** Settings, mutex and stacks of s' are those of s. */
  ghost predicate Restored(s: State, s': State) {
    && ConfigOf(s') == ConfigOf(s)
    && s'.owner == s.owner && s'.depth == s.depth
    && (forall u: Tid :: Stack(s', u) == Stack(s, u))
  }

  /** Nothing has changed from s to s' but that the log grew by the functions fs. */
  ghost predicate Logged(s: State, s': State, fs: seq<Address>) {
    Restored(s, s') && GrewBy(s.names, s.rows, s'.rows, fs)
  }

  lemma {:induction false} LoggedNothing(s: State)
    ensures Logged(s, s, [])
  {
  }

  lemma {:induction false} RestoredTwice(s: State, s': State, s'': State)
    requires Restored(s, s') && Restored(s', s'')
    ensures Restored(s, s'')
  {
    forall u: Tid ensures Stack(s'', u) == Stack(s, u) {
      assert Stack(s', u) == Stack(s, u);
    }
  }

  lemma {:induction false} LoggedTwice(s: State, s': State, s'': State, fs: seq<Address>, gs: seq<Address>)
    requires Logged(s, s', fs) && Logged(s', s'', gs)
    ensures Logged(s, s'', fs + gs) && |s'.rows| == |s.rows| + |fs|
  {
    GrewTwice(s.names, s.rows, s'.rows, s''.rows, fs, gs);
    RestoredTwice(s, s', s'');
  }

  lemma {:induction false} RefusedRestored(s: State, t: Tid, f: Address, s2: State)
    requires |s.rows| >= s.maxSize && Restored(DoStart(s, t, f), s2)
    ensures Stack(s2, t) != [] && Restored(s, DoFinish(s2, t)) && DoFinish(s2, t).rows == s2.rows
  {
    assert Stack(s2, t) == Stack(s, t) + [None];
    forall u: Tid ensures Stack(DoFinish(s2, t), u) == Stack(s, u) {
      assert Stack(s2, u) == Stack(DoStart(s, t, f), u);
    }
  }

  /** A refused call leaves what its inner calls leave. */
  lemma {:induction false} RefusedLogged(s: State, t: Tid, c: Call, s2: State)
    requires |s.rows| >= s.maxSize && Logged(DoStart(s, t, c.func), s2, Kept(ConfigOf(s), c.inner, |s.rows|))
    ensures Stack(s2, t) != [] && Logged(s, DoFinish(s2, t), KeptCall(ConfigOf(s), c, |s.rows|))
  {
    RefusedRestored(s, t, c.func, s2);
    assert KeptCall(ConfigOf(s), c, |s.rows|) == Kept(ConfigOf(s), c.inner, |s.rows|);
  }

  lemma {:induction false} AcceptedRestored(s: State, t: Tid, f: Address, s2: State)
    requires MutexOk(s) && CanLock(s, t) && |s.rows| < s.maxSize && Restored(DoStart(s, t, f), s2)
    ensures Stack(s2, t) != [] && Restored(s, DoFinish(s2, t))
    ensures DoFinish(s2, t).rows == Without(s2.rows, |s.origins|, s.filters)
  {
    assert Stack(s2, t) == Stack(s, t) + [Some(|s.origins|)];
    forall u: Tid ensures Stack(DoFinish(s2, t), u) == Stack(s, u) {
      assert Stack(s2, u) == Stack(DoStart(s, t, f), u);
    }
  }

  /** An accepted call leaves its own entry, unless it is filtered, and what its inner calls leave. */
  lemma {:induction false} AcceptedLogged(s: State, t: Tid, c: Call, s2: State)
    requires MutexOk(s) && CanLock(s, t) && |s.rows| < s.maxSize && RowsOk(s2)
    requires Logged(DoStart(s, t, c.func), s2, Kept(ConfigOf(s), c.inner, |s.rows| + 1))
    ensures Stack(s2, t) != [] && Logged(s, DoFinish(s2, t), KeptCall(ConfigOf(s), c, |s.rows|))
  {
    AcceptedRestored(s, t, c.func, s2);
    GrewAround(ConfigOf(s), s.rows, Entry(|s.origins|, FuncName(s.names, c.func)), s2.rows, c);
  }

  // ------------------------------------------------------------------- the main result

  /** tr' is a run, and what it adds to tr is what the specification says of fs. */
  ghost predicate RunLogs(tr: Trace, tr': Trace, fs: seq<Address>)
    requires Run(tr)
  {
    Run(tr') && Logged(StateAfter(tr), StateAfter(tr'), fs)
  }

  lemma {:induction false} RunLogsBoth(tr: Trace, tr': Trace, tr'': Trace, fs: seq<Address>, gs: seq<Address>)
    requires Run(tr) && RunLogs(tr, tr', fs) && RunLogs(tr', tr'', gs)
    ensures RunLogs(tr, tr'', fs + gs)
  {
    LoggedTwice(StateAfter(tr), StateAfter(tr'), StateAfter(tr''), fs, gs);
  }

  /** tr is a run after which t can take the log mutex, with these settings and n entries in the log. */
  ghost predicate Ready(tr: Trace, t: Tid, cfg: Config, n: nat) {
    Run(tr) && CanLock(StateAfter(tr), t) && ConfigOf(StateAfter(tr)) == cfg && |StateAfter(tr).rows| == n
  }

  lemma {:induction false} ReadyAgain(tr: Trace, tr': Trace, t: Tid, cfg: Config, n: nat, fs: seq<Address>)
    requires Ready(tr, t, cfg, n) && RunLogs(tr, tr', fs)
    ensures Ready(tr', t, cfg, n + |fs|)
  {
  }

  lemma {:induction false} StartedCanLock(s: State, t: Tid, f: Address)
    requires CanLock(s, t)
    ensures
      var s' := DoStart(s, t, f);
      && CanLock(s', t) && Stack(s', t) != [] && ConfigOf(s') == ConfigOf(s)
      && |s'.rows| == if |s.rows| >= s.maxSize then |s.rows| else |s.rows| + 1
  {
  }

  /** What is left of a call when it ends, given what its inner calls left. */
  lemma {:induction false} CallFromInner(s: State, t: Tid, c: Call, s2: State)
    requires MutexOk(s) && CanLock(s, t) && RowsOk(s2)
    requires
      var s1 := DoStart(s, t, c.func);
      Logged(s1, s2, Kept(ConfigOf(s1), c.inner, |s1.rows|))
    ensures Stack(s2, t) != [] && Logged(s, DoFinish(s2, t), KeptCall(ConfigOf(s), c, |s.rows|))
  {
    if |s.rows| >= s.maxSize {
      RefusedLogged(s, t, c, s2);
    } else {
      AcceptedLogged(s, t, c, s2);
    }
  }

  lemma {:induction false} KeptSplits(cfg: Config, cs: seq<Call>, n: nat)
    requires cs != []
    ensures Kept(cfg, cs, n) == KeptCall(cfg, cs[0], n) + Kept(cfg, cs[1..], n + |KeptCall(cfg, cs[0], n)|)
  {
  }

  lemma {:induction false} CallFrom(tr: Trace, t: Tid, c: Call, cfg: Config, n: nat)
    requires Ready(tr, t, cfg, n)
    ensures RunLogs(tr, ThenCall(tr, t, c), KeptCall(cfg, c, n))
    decreases c, 2
  {
    var s := StateAfter(tr);
    var started := Extend(tr, Start(t, c.func));
    StartedCanLock(s, t, c.func);
    ForestFrom(started, t, c.inner, cfg, |StateAfter(started).rows|);
    var inner := ThenCalls(started, t, c.inner);
    assert MutexOk(s) by { RunKeepsInv(tr); }
    assert RowsOk(StateAfter(inner)) by { RunKeepsInv(inner); }
    CallFromInner(s, t, c, StateAfter(inner));
  }

  lemma {:induction false} ForestFrom(tr: Trace, t: Tid, cs: seq<Call>, cfg: Config, n: nat)
    requires Ready(tr, t, cfg, n)
    ensures RunLogs(tr, ThenCalls(tr, t, cs), Kept(cfg, cs, n))
    decreases cs, 1
  {
    if cs == [] {
      LoggedNothing(StateAfter(tr));
    } else {
      CallFrom(tr, t, cs[0], cfg, n);
      RestFrom(tr, ThenCall(tr, t, cs[0]), t, cs, cfg, n);
    }
  }

  /** The rest of a forest after its first call. */
  lemma {:induction false} RestFrom(tr: Trace, called: Trace, t: Tid, cs: seq<Call>, cfg: Config, n: nat)
    requires Ready(tr, t, cfg, n) && cs != [] && RunLogs(tr, called, KeptCall(cfg, cs[0], n))
    ensures RunLogs(tr, ThenCalls(called, t, cs[1..]), Kept(cfg, cs, n))
    decreases cs, 0
  {
    var first := KeptCall(cfg, cs[0], n);
    assert Ready(called, t, cfg, n + |first|) by { ReadyAgain(tr, called, t, cfg, n, first); }
    ForestFrom(called, t, cs[1..], cfg, n + |first|);
    ForestFromParts(tr, called, ThenCalls(called, t, cs[1..]), cs, cfg, n);
  }

  lemma {:induction false} ForestFromParts(tr: Trace, called: Trace, done: Trace, cs: seq<Call>, cfg: Config, n: nat)
    requires Run(tr) && cs != [] && RunLogs(tr, called, KeptCall(cfg, cs[0], n))
    requires RunLogs(called, done, Kept(cfg, cs[1..], n + |KeptCall(cfg, cs[0], n)|))
    ensures RunLogs(tr, done, Kept(cfg, cs, n))
  {
    RunLogsBoth(tr, called, done, KeptCall(cfg, cs[0], n), Kept(cfg, cs[1..], n + |KeptCall(cfg, cs[0], n)|));
    KeptSplits(cfg, cs, n);
  }

  /** One call with everything nested in it. */
  lemma {:induction false} CallIsLogged(tr: Trace, t: Tid, c: Call)
    requires Run(tr) && CanLock(StateAfter(tr), t)
    ensures RunLogs(tr, ThenCall(tr, t, c), KeptCall(ConfigOf(StateAfter(tr)), c, |StateAfter(tr).rows|))
  {
    CallFrom(tr, t, c, ConfigOf(StateAfter(tr)), |StateAfter(tr).rows|);
  }

  /**
   Whatever has been logged and whatever calls the thread has open, if it can take the log
   mutex, its making a forest of calls is a run that puts the stack, the mutex and the
   settings back as they were and grows the log by exactly what the specification keeps.
   */
  lemma {:induction false} ForestIsLogged(tr: Trace, t: Tid, cs: seq<Call>)
    requires Run(tr) && CanLock(StateAfter(tr), t)
    ensures RunLogs(tr, ThenCalls(tr, t, cs), Kept(ConfigOf(StateAfter(tr)), cs, |StateAfter(tr).rows|))
  {
    ForestFrom(tr, t, cs, ConfigOf(StateAfter(tr)), |StateAfter(tr).rows|);
  }

  /** New settings govern the calls made after them: capacity and filters are those set last. */
  lemma {:induction false} SettingsGovernLaterCalls(tr: Trace, t: Tid, size: int, filters: seq<string>, cs: seq<Call>)
    requires Run(tr) && CanLock(StateAfter(tr), t)
    ensures
      var changed := Extend(Extend(tr, SetMaxSize(size)), SetFilters(t, filters));
      && Run(changed) && StateAfter(changed).rows == StateAfter(tr).rows
      && RunLogs(changed, ThenCalls(changed, t, cs), Kept(Config(size, filters, StateAfter(tr).names), cs, |StateAfter(tr).rows|))
  {
    var sized := Extend(tr, SetMaxSize(size));
    assert Run(sized) && StateAfter(sized) == StateAfter(tr).(maxSize := size);
    var changed := Extend(sized, SetFilters(t, filters));
    assert Run(changed) && StateAfter(changed) == StateAfter(sized).(filters := filters);
    ForestIsLogged(changed, t, cs);
  }

  /** With a capacity of zero a call neither waits for the log nor leaves anything in it, whoever holds the mutex. */
  lemma {:induction false} DisabledLogIsOutOfTheWay(tr: Trace, t: Tid, f: Address)
    requires Run(tr) && StateAfter(tr).maxSize == 0
    ensures
      var started := Extend(tr, Start(t, f));
      var ended := Extend(started, Finish(t));
      Run(started) && Run(ended) && Logged(StateAfter(tr), StateAfter(ended), [])
  {
    var s, started := StateAfter(tr), Extend(tr, Start(t, f));
    assert Run(started) && StateAfter(started) == DoStart(s, t, f);
    var ended := Extend(started, Finish(t));
    RestoredSelf(DoStart(s, t, f));
    RefusedRestored(s, t, f, DoStart(s, t, f));
    assert Run(ended) && StateAfter(ended) == DoFinish(DoStart(s, t, f), t);
  }

  lemma {:induction false} RestoredSelf(s: State)
    ensures Restored(s, s)
  {
  }
}
