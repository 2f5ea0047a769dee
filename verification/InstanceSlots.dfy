/**
 The sequential meaning of the instance manager: what each of `add`, `kill`,
 `finalize` and `with_instance` does to the `instances` list and the `freelist`
 when it runs on its own, the reference map from instance numbers to
 Unknown/Live/Killed/Free, and the laws of whole sequences of operations.
 */
module InstanceSlots {
  import opened Options

  /** Identity of an object/events pair: the two pointers come and go hand in hand. */
  type Obj = nat

  /** The messages of the IllegalStateException a call may throw. */
  datatype Error = OutOfRange | NullInstance | InvalidInstance | Collected | Leaked

  datatype Op = Add(obj: Obj) | Kill(n: int) | Finalize(n: int) | With(n: int)

  datatype Outcome =
    | Number(n: int)      // add: the instance number
    | Ok                  // kill or finalize went through
    | Ignored             // kill or finalize of the null instance
    | Illegal(error: Error)
    | KilledInstance      // with_instance: ToxKilledException
    | Ran(obj: Obj)       // with_instance: func was called on this pair

  datatype Slots = Slots(instances: seq<Option<Obj>>, freelist: seq<int>)

  const Empty := Slots([], [])

  ghost predicate Valid(s: Slots) {
    && (forall i :: 0 <= i < |s.freelist| ==> 1 <= s.freelist[i] <= |s.instances| && s.instances[s.freelist[i] - 1].None?)
    && (forall i, j :: 0 <= i < j < |s.freelist| ==> s.freelist[i] != s.freelist[j])
  }

  // ---------------------------------------------------------------- operations

  datatype Verdict = Proceed | Ignore | Throw(error: Error)

  function Check(s: Slots, n: int, allowZero: bool): Verdict {
    if n < 0 then Throw(OutOfRange)
    else if n == 0 then (if allowZero then Ignore else Throw(NullInstance))
    else if n > |s.instances| then Throw(InvalidInstance)
    else if n in s.freelist then Throw(Collected)
    else Proceed
  }

  function AfterAdd(s: Slots, obj: Obj): (Slots, Outcome)
    requires Valid(s)
  {
    if s.freelist != [] then
      var n := s.freelist[|s.freelist| - 1];
      (Slots(s.instances[n - 1 := Some(obj)], s.freelist[..|s.freelist| - 1]), Number(n))
    else
      (Slots(s.instances + [Some(obj)], []), Number(|s.instances| + 1))
  }

  function AfterKill(s: Slots, n: int): (Slots, Outcome) {
    match Check(s, n, true)
    case Throw(e) => (s, Illegal(e))
    case Ignore => (s, Ignored)
    case Proceed => (s.(instances := s.instances[n - 1 := None]), Ok)
  }

  function AfterFinalize(s: Slots, n: int): (Slots, Outcome) {
    match Check(s, n, true)
    case Throw(e) => (s, Illegal(e))
    case Ignore => (s, Ignored)
    case Proceed =>
      if s.instances[n - 1].Some? then (s, Illegal(Leaked))
      else (s.(freelist := s.freelist + [n]), Ok)
  }

  function AfterWith(s: Slots, n: int): (Slots, Outcome) {
    match Check(s, n, false)
    case Throw(e) => (s, Illegal(e))
    case Ignore => (s, Ignored)
    case Proceed => (s, if s.instances[n - 1].Some? then Ran(s.instances[n - 1].value) else KilledInstance)
  }

  function Exec(s: Slots, op: Op): (Slots, Outcome)
    requires Valid(s)
  {
    match op
    case Add(obj) => AfterAdd(s, obj)
    case Kill(n) => AfterKill(s, n)
    case Finalize(n) => AfterFinalize(s, n)
    case With(n) => AfterWith(s, n)
  }

  // ------------------------------------------------------------- reference map

  datatype Status = Unknown | Live(obj: Obj) | Killed | Free

  /** The reference state: the status of instance number n is r[n - 1], and Unknown outside the list. */
  type Registry = seq<Status>

  function StatusAt(r: Registry, n: int): Status {
    if 1 <= n <= |r| then r[n - 1] else Unknown
  }

  /**
   What the documentation promises of one operation, on the map alone. There is no
   freelist here: `add` may reuse any free number, and may grow the map only when
   no number is free.
   */
  ghost predicate Allowed(r: Registry, op: Op, out: Outcome, r': Registry) {
    match op
    case Add(obj) =>
      && out.Number?
      && (if Free in r
          then 1 <= out.n <= |r| && r[out.n - 1] == Free && r' == r[out.n - 1 := Live(obj)]
          else out.n == |r| + 1 && r' == r + [Live(obj)])
    case Kill(n) =>
      (match StatusAt(r, n)
       case Live(_) => out == Ok && r' == r[n - 1 := Killed]
       case Killed => out == Ok && r' == r
       case _ => r' == r && out == (if n == 0 then Ignored else Illegal(Reason(r, n))))
    case Finalize(n) =>
      (match StatusAt(r, n)
       case Live(_) => out == Illegal(Leaked) && r' == r
       case Killed => out == Ok && r' == r[n - 1 := Free]
       case _ => r' == r && out == (if n == 0 then Ignored else Illegal(Reason(r, n))))
    case With(n) =>
      && r' == r
      && (match StatusAt(r, n)
          case Live(obj) => out == Ran(obj)
          case Killed => out == KilledInstance
          case _ => out == Illegal(if n == 0 then NullInstance else Reason(r, n)))
  }

  function Reason(r: Registry, n: int): Error {
    if n < 0 then OutOfRange else if StatusAt(r, n) == Free then Collected else InvalidInstance
  }

  ghost function Abs(s: Slots): (r: Registry)
    ensures |r| == |s.instances|
  {
    seq(|s.instances|, i requires 0 <= i < |s.instances| =>
      if i + 1 in s.freelist then Free
      else if s.instances[i].Some? then Live(s.instances[i].value) else Killed)
  }

  lemma PopKeepsValid(s: Slots, obj: Obj)
    requires Valid(s) && s.freelist != []
    ensures Valid(AfterAdd(s, obj).0)
    ensures AfterAdd(s, obj).1.n !in AfterAdd(s, obj).0.freelist
  {
  }

  lemma AddReuses(s: Slots, obj: Obj)
    requires Valid(s) && s.freelist != []
    ensures Valid(AfterAdd(s, obj).0)
    ensures Abs(s)[AfterAdd(s, obj).1.n - 1] == Free
    ensures Abs(AfterAdd(s, obj).0) == Abs(s)[AfterAdd(s, obj).1.n - 1 := Live(obj)]
  {
    var (s', out) := AfterAdd(s, obj);
    PopKeepsValid(s, obj);
    assert s.freelist == s'.freelist + [out.n];
    assert forall k :: k in s.freelist <==> k in s'.freelist || k == out.n;
  }

  lemma AddGrows(s: Slots, obj: Obj)
    requires Valid(s) && s.freelist == []
    ensures Valid(AfterAdd(s, obj).0)
    ensures Free !in Abs(s)
    ensures Abs(AfterAdd(s, obj).0) == Abs(s) + [Live(obj)]
  {
  }

  lemma AddRefinesMap(s: Slots, obj: Obj)
    requires Valid(s)
    ensures Valid(AfterAdd(s, obj).0)
    ensures Allowed(Abs(s), Add(obj), AfterAdd(s, obj).1, Abs(AfterAdd(s, obj).0))
  {
    if s.freelist != [] {
      AddReuses(s, obj);
      assert Free in Abs(s);
    } else {
      AddGrows(s, obj);
    }
  }

  lemma KillRefinesMap(s: Slots, n: int)
    requires Valid(s)
    ensures Valid(AfterKill(s, n).0)
    ensures Allowed(Abs(s), Kill(n), AfterKill(s, n).1, Abs(AfterKill(s, n).0))
  {
    if Check(s, n, true).Proceed? {
      assert Abs(AfterKill(s, n).0) == Abs(s)[n - 1 := Killed];
      assert Abs(s)[n - 1] == Killed ==> Abs(s)[n - 1 := Killed] == Abs(s);
    }
  }

  lemma FinalizeRefinesMap(s: Slots, n: int)
    requires Valid(s)
    ensures Valid(AfterFinalize(s, n).0)
    ensures Allowed(Abs(s), Finalize(n), AfterFinalize(s, n).1, Abs(AfterFinalize(s, n).0))
  {
    var s' := AfterFinalize(s, n).0;
    if Check(s, n, true).Proceed? && s.instances[n - 1].None? {
      assert forall k :: k in s'.freelist <==> k in s.freelist || k == n;
      assert Abs(s') == Abs(s)[n - 1 := Free];
    }
  }

  lemma WithRefinesMap(s: Slots, n: int)
    requires Valid(s)
    ensures AfterWith(s, n).0 == s
    ensures Allowed(Abs(s), With(n), AfterWith(s, n).1, Abs(s))
  {
  }

  /** Every operation keeps the class invariant and has the effect and outcome the map allows. */
  lemma ExecRefinesMap(s: Slots, op: Op)
    requires Valid(s)
    ensures Valid(Exec(s, op).0)
    ensures Allowed(Abs(s), op, Exec(s, op).1, Abs(Exec(s, op).0))
  {
    match op
    case Add(obj) => AddRefinesMap(s, obj);
    case Kill(n) => KillRefinesMap(s, n);
    case Finalize(n) => FinalizeRefinesMap(s, n);
    case With(n) => WithRefinesMap(s, n);
  }

  /** A slot only ever moves along Unknown, Live, Killed, Free, Live, or stays where it is. */
  ghost predicate Cycles(a: Status, b: Status) {
    || a == b
    || (a.Unknown? && b.Live?)
    || (a.Live? && b.Killed?)
    || (a.Killed? && b.Free?)
    || (a.Free? && b.Live?)
  }

  lemma SlotsCycle(s: Slots, op: Op, n: int)
    requires Valid(s)
    ensures Cycles(StatusAt(Abs(s), n), StatusAt(Abs(Exec(s, op).0), n))
  {
    ExecRefinesMap(s, op);
  }

  // ------------------------------------------------------ sequences of operations

  /** A history of operations, most recent last. */
  datatype History = Start | Then(before: History, op: Op)

  function After(h: History): Slots
    ensures Valid(After(h))
  {
    match h
    case Start => Empty
    case Then(before, op) => ExecRefinesMap(After(before), op); Exec(After(before), op).0
  }

  function LastOutcome(h: History): Outcome
    requires h.Then?
  {
    Exec(After(h.before), h.op).1
  }

  /** The numbers a caller holds: returned by `add` and not yet successfully finalised. */
  function Handles(h: History): set<int> {
    match h
    case Start => {}
    case Then(before, op) => NextHandles(Handles(before), op, LastOutcome(h))
  }

  function NextHandles(held: set<int>, op: Op, out: Outcome): set<int> {
    if op.Add? && out.Number? then held + {out.n}
    else if op.Finalize? && out == Ok then held - {op.n}
    else held
  }

  ghost function Unfinalised(s: Slots): set<int> {
    set n | 1 <= n <= |s.instances| && n !in s.freelist
  }

  /** How many slots there are, and how many of them are free. */
  ghost function Sizes(s: Slots): (int, int) {
    (|s.instances|, |s.freelist|)
  }

  lemma AddUnfinalised(s: Slots, obj: Obj)
    requires Valid(s)
    ensures AfterAdd(s, obj).1.n !in Unfinalised(s)
    ensures Unfinalised(AfterAdd(s, obj).0) == Unfinalised(s) + {AfterAdd(s, obj).1.n}
    ensures Sizes(AfterAdd(s, obj).0) == if s.freelist == [] then (|s.instances| + 1, 0) else (|s.instances|, |s.freelist| - 1)
  {
    var (s', out) := AfterAdd(s, obj);
    if s.freelist != [] {
      assert s.freelist == s'.freelist + [out.n];
      assert out.n !in s'.freelist;
    }
  }

  lemma FinalizeUnfinalised(s: Slots, n: int)
    requires Valid(s)
    ensures AfterFinalize(s, n).1 == Ok ==>
      && n in Unfinalised(s)
      && Unfinalised(AfterFinalize(s, n).0) == Unfinalised(s) - {n}
      && Sizes(AfterFinalize(s, n).0) == (|s.instances|, |s.freelist| + 1)
    ensures AfterFinalize(s, n).1 != Ok ==> AfterFinalize(s, n).0 == s
  {
    if AfterFinalize(s, n).1 == Ok {
      assert forall k :: k in AfterFinalize(s, n).0.freelist <==> k in s.freelist || k == n;
    }
  }

  lemma StepUnfinalised(s: Slots, op: Op)
    requires Valid(s)
    requires |Unfinalised(s)| + |s.freelist| == |s.instances|
    ensures
      var (s', out) := Exec(s, op);
      && Unfinalised(s') == NextHandles(Unfinalised(s), op, out)
      && |Unfinalised(s')| + Sizes(s').1 == Sizes(s').0
  {
    match op
    case Add(obj) => AddUnfinalised(s, obj);
    case Finalize(n) => FinalizeUnfinalised(s, n);
    case Kill(n) => KillUnfinalised(s, n);
    case With(n) =>
  }

  lemma KillUnfinalised(s: Slots, n: int)
    ensures Unfinalised(AfterKill(s, n).0) == Unfinalised(s) && Sizes(AfterKill(s, n).0) == Sizes(s)
  {
  }

  lemma {:induction false} HandlesAreUnfinalised(h: History)
    ensures Handles(h) == Unfinalised(After(h))
    ensures |Handles(h)| + |After(h).freelist| == |After(h).instances|
  {
    match h
    case Start =>
    case Then(before, op) =>
      HandlesAreUnfinalised(before);
      StepUnfinalised(After(before), op);
      assert Sizes(After(h)) == (|After(h).instances|, |After(h).freelist|);
  }

  /** `add` never returns a number that some caller still holds. */
  lemma AddReturnsFreshHandle(h: History)
    requires h.Then? && h.op.Add?
    ensures LastOutcome(h).Number?
    ensures LastOutcome(h).n !in Handles(h.before)
    ensures Handles(h) == Handles(h.before) + {LastOutcome(h).n}
  {
    HandlesAreUnfinalised(h.before);
    AddUnfinalised(After(h.before), h.op.obj);
  }

  /** The highest number of handles held at any moment of the history. */
  function HighWater(h: History): nat {
    match h
    case Start => 0
    case Then(before, _) => if |Handles(h)| > HighWater(before) then |Handles(h)| else HighWater(before)
  }

  /** The manager never allocates a slot it does not need: the lists are as long as the high-water mark. */
  lemma {:induction false} SlotCountIsHighWater(h: History)
    ensures |After(h).instances| == HighWater(h)
  {
    match h
    case Start =>
    case Then(before, op) =>
      SlotCountIsHighWater(before);
      HandlesAreUnfinalised(before);
      HandlesAreUnfinalised(h);
      SizesGrow(After(before), op);
  }

  /** Only an `add` that finds no free slot grows the list, and it leaves no slot free. */
  lemma SizesGrow(s: Slots, op: Op)
    requires Valid(s)
    ensures
      var (before, after) := (Sizes(s), Sizes(Exec(s, op).0));
      after.0 == before.0 || (after == (before.0 + 1, 0) && before.1 == 0)
  {
    if op.Add? {
      AddUnfinalised(s, op.obj);
    }
  }

  // ------------------------------------------------------------------- recycling

  function FinalizeAll(s: Slots, ns: seq<int>): Slots
    requires Valid(s)
    decreases |ns|
  {
    if ns == [] then s
    else ExecRefinesMap(s, Finalize(ns[0])); FinalizeAll(Exec(s, Finalize(ns[0])).0, ns[1..])
  }

  function AddAll(s: Slots, objs: seq<Obj>): seq<int>
    requires Valid(s)
    decreases |objs|
  {
    if objs == [] then []
    else
      ExecRefinesMap(s, Add(objs[0]));
      [Exec(s, Add(objs[0])).1.n] + AddAll(Exec(s, Add(objs[0])).0, objs[1..])
  }

  function Reverse(ns: seq<int>): seq<int> {
    if ns == [] then [] else Reverse(ns[1..]) + [ns[0]]
  }

  lemma {:induction false} FinalizeAppends(s: Slots, n: int)
    requires Valid(s) && StatusAt(Abs(s), n) == Killed
    ensures
      var s' := Exec(s, Finalize(n)).0;
      && Valid(s') && s' == s.(freelist := s.freelist + [n])
      && forall m :: m != n && StatusAt(Abs(s), m) == Killed ==> StatusAt(Abs(s'), m) == Killed
  {
    ExecRefinesMap(s, Finalize(n));
  }

  ghost predicate AllKilled(s: Slots, ns: seq<int>) {
    forall i :: 0 <= i < |ns| ==> StatusAt(Abs(s), ns[i]) == Killed
  }

  ghost predicate NoRepeat(ns: seq<int>) {
    forall i, j :: 0 <= i < j < |ns| ==> ns[i] != ns[j]
  }

  lemma {:induction false} RestStaysKilled(s: Slots, ns: seq<int>)
    requires Valid(s) && ns != [] && AllKilled(s, ns) && NoRepeat(ns)
    ensures
      var s' := Exec(s, Finalize(ns[0])).0;
      && Valid(s') && s' == s.(freelist := s.freelist + [ns[0]])
      && AllKilled(s', ns[1..]) && NoRepeat(ns[1..])
  {
    FinalizeAppends(s, ns[0]);
    forall i | 0 <= i < |ns[1..]| ensures StatusAt(Abs(Exec(s, Finalize(ns[0])).0), ns[1..][i]) == Killed {
      assert ns[1..][i] == ns[i + 1] && ns[i + 1] != ns[0];
    }
  }

  lemma {:induction false} ConsAssociates(a: seq<int>, n: int, b: seq<int>)
    ensures (a + [n]) + b == a + ([n] + b)
  {
  }

  lemma {:induction false} FinalizeAllAppends(s: Slots, ns: seq<int>)
    requires Valid(s) && AllKilled(s, ns) && NoRepeat(ns)
    ensures FinalizeAll(s, ns) == s.(freelist := s.freelist + ns)
    ensures Valid(FinalizeAll(s, ns))
    decreases |ns|
  {
    if ns == [] {
      assert s.freelist + ns == s.freelist;
    } else {
      var s' := Exec(s, Finalize(ns[0])).0;
      RestStaysKilled(s, ns);
      FinalizeAllAppends(s', ns[1..]);
      ConsAssociates(s.freelist, ns[0], ns[1..]);
      assert [ns[0]] + ns[1..] == ns;
    }
  }

  lemma {:induction false} AddAllPops(s: Slots, ns: seq<int>, rest: seq<int>, objs: seq<Obj>)
    requires Valid(s) && s.freelist == rest + ns && |objs| == |ns|
    ensures AddAll(s, objs) == Reverse(ns)
    decreases |ns|
  {
    if ns != [] {
      var init, last := ns[..|ns| - 1], ns[|ns| - 1];
      assert ns == init + [last];
      var s' := Exec(s, Add(objs[0])).0;
      ExecRefinesMap(s, Add(objs[0]));
      assert s'.freelist == rest + init;
      AddAllPops(s', init, rest, objs[1..]);
      ReverseSnoc(init, last);
    }
  }

  lemma {:induction false} ReverseSnoc(ns: seq<int>, n: int)
    ensures Reverse(ns + [n]) == [n] + Reverse(ns)
  {
    if ns == [] {
      assert ns + [n] == [n];
      assert Reverse([n]) == Reverse([n][1..]) + [n];
    } else {
      ReverseSnoc(ns[1..], n);
      assert (ns + [n])[1..] == ns[1..] + [n];
    }
  }

  lemma {:induction false} ReverseAt(ns: seq<int>)
    ensures |Reverse(ns)| == |ns| && forall k :: 0 <= k < |ns| ==> Reverse(ns)[k] == ns[|ns| - 1 - k]
  {
    if ns != [] {
      ReverseAt(ns[1..]);
    }
  }

  /** The most recently finalised number is reused first: k adds undo k finalizes in reverse order. */
  lemma AddsReuseLatestFinalised(s: Slots, ns: seq<int>, objs: seq<Obj>)
    requires Valid(s) && |objs| == |ns| && AllKilled(s, ns) && NoRepeat(ns)
    ensures Valid(FinalizeAll(s, ns)) && |AddAll(FinalizeAll(s, ns), objs)| == |ns|
    ensures forall k :: 0 <= k < |ns| ==> AddAll(FinalizeAll(s, ns), objs)[k] == ns[|ns| - 1 - k]
  {
    FinalizeAllAppends(s, ns);
    AddAllPops(FinalizeAll(s, ns), ns, s.freelist, objs);
    ReverseAt(ns);
  }
}
