/**
 The call log shared by any number of threads. An accepted entry holds the recursive
 log mutex until its call ends; refused calls hold nothing; the capacity may be changed
 and functions may be registered by anyone at any time.
 */
module LogThreads {
  import opened Options
  import opened FuncNames
  import opened LogEntries

  type Tid = nat

  /** Who opened an entry, and for which function. */
  datatype Origin = Origin(maker: Tid, func: Address)

  /**
   Each thread has a stack of calls; a call has an entry unless it was refused. The origins
   of all entries ever opened are kept on the side, by the entries' ids.
   */
  datatype State = State(
    rows: seq<Entry>,
    origins: seq<Origin>,
    names: Registry,
    maxSize: int,
    filters: seq<string>,
    owner: Option<Tid>,
    depth: nat,
    stacks: map<Tid, seq<Option<nat>>>)

  const Init := State([], [], map[], 100, [], None, 0, map[])

  function Stack(s: State, t: Tid): seq<Option<nat>> {
    if t in s.stacks then s.stacks[t] else []
  }

  /** The entries among a stack of calls. */
  function Accepted(st: seq<Option<nat>>): seq<nat> {
    if st == [] then []
    else Accepted(st[..|st| - 1]) + (if st[|st| - 1].Some? then [st[|st| - 1].value] else [])
  }

  function Open(s: State, t: Tid): seq<nat> { Accepted(Stack(s, t)) }

  datatype Action =
    | Start(t: Tid, func: Address)
    | Finish(t: Tid)
    | SetMaxSize(size: int)
    | SetFilters(t: Tid, filters: seq<string>)
    | Clear(t: Tid)
    | AddName(func: Address, name: string)

  /** The recursive mutex lets its holder in again. */
  predicate CanLock(s: State, t: Tid) { s.owner.None? || s.owner == Some(t) }

  /** Names are those of C++ functions: not empty, and not starting with a digit. */
  predicate Enabled(s: State, a: Action) {
    match a
    case Start(t, _) => s.maxSize == 0 || CanLock(s, t)
    case Finish(t) => Stack(s, t) != []
    case SetMaxSize(_) => true
    case SetFilters(t, _) => CanLock(s, t)
    case Clear(t) => CanLock(s, t)
    case AddName(_, name) => name != "" && !IsDigit(name[0])
  }

  /** Does a thread clear the log in the middle of one of its own logged calls? */
  predicate ClearsOwnCall(s: State, a: Action) {
    a.Clear? && Open(s, a.t) != []
  }

  function Push(s: State, t: Tid, entry: Option<nat>): State {
    s.(stacks := s.stacks[t := Stack(s, t) + [entry]])
  }

  function DoStart(s: State, t: Tid, f: Address): State {
    if |s.rows| >= s.maxSize then Push(s, t, None)
    else Push(s, t, Some(|s.origins|)).(
      rows := s.rows + [Entry(|s.origins|, FuncName(s.names, f))],
      origins := s.origins + [Origin(t, f)],
      owner := Some(t),
      depth := s.depth + 1)
  }

  function DoFinish(s: State, t: Tid): State
    requires Stack(s, t) != []
  {
    var st := Stack(s, t);
    var popped := s.(stacks := s.stacks[t := st[..|st| - 1]]);
    match st[|st| - 1]
    case None => popped
    case Some(id) =>
      popped.(rows := Without(s.rows, id, s.filters),
              depth := if s.depth > 0 then s.depth - 1 else 0,
              owner := if s.depth > 1 then s.owner else None)
  }

  function Apply(s: State, a: Action): State
    requires Enabled(s, a)
  {
    match a
    case Start(t, f) => DoStart(s, t, f)
    case Finish(t) => DoFinish(s, t)
    case SetMaxSize(size) => s.(maxSize := size)
    case SetFilters(_, filters) => s.(filters := filters)
    case Clear(_) => s.(rows := [])
    case AddName(f, name) => s.(names := Register(s.names, f, name))
  }

  // ------------------------------------------------------------------- invariant

  ghost predicate RowsOk(s: State) {
    Ordered(s.rows) && Below(s.rows, |s.origins|)
  }

  /** An entry carries its function's name, or the function's address if it was logged before it had one. */
  ghost predicate Named(r: Registry, name: string, f: Address) {
    name == ToDecimal(f) || (f in r && name == r[f])
  }

  ghost predicate NamesWritten(s: State)
    requires RowsOk(s)
  {
    NamesOk(s.names) && forall i :: 0 <= i < |s.rows| ==> Named(s.names, s.rows[i].name, s.origins[s.rows[i].id].func)
  }

  /** The open entries belong to the one thread that holds the mutex, once per entry. */
  ghost predicate MutexOk(s: State) {
    && (forall t: Tid :: Open(s, t) != [] ==> s.owner == Some(t))
    && (s.owner.None? ==> s.depth == 0)
    && (s.owner.Some? ==> s.depth == |Open(s, s.owner.value)| && s.depth > 0)
  }

  /** Every entry opened from lo up to, not including, hi was opened by t. */
  ghost predicate MadeBy(origins: seq<Origin>, lo: nat, hi: nat, t: Tid) {
    hi <= |origins| && forall j :: lo <= j < hi ==> origins[j].maker == t
  }

  /** id is in the log, and it and everything opened since was opened by t. */
  ghost predicate Held(s: State, id: nat, t: Tid) {
    Find(s.rows, id).Some? && id < |s.origins| && MadeBy(s.origins, id, |s.origins|, t)
  }

  ghost predicate Increasing(ids: seq<nat>) {
    forall i, j :: 0 <= i < j < |ids| ==> ids[i] < ids[j]
  }

  ghost predicate OpenOk(s: State, t: Tid) {
    && Increasing(Open(s, t))
    && forall i :: 0 <= i < |Open(s, t)| ==> Held(s, Open(s, t)[i], t)
  }

  ghost predicate Inv(s: State) {
    RowsOk(s) && NamesWritten(s) && MutexOk(s) && forall t: Tid :: OpenOk(s, t)
  }

  // ------------------------------------------------------------------ preservation

  lemma {:induction false} AcceptedSnoc(st: seq<Option<nat>>, e: Option<nat>)
    ensures Accepted(st + [e]) == Accepted(st) + (if e.Some? then [e.value] else [])
  {
    assert (st + [e])[..|st|] == st;
  }

  lemma {:induction false} OthersHaveNone(s: State, t: Tid, u: Tid)
    requires MutexOk(s) && CanLock(s, t) && u != t
    ensures Open(s, u) == []
  {
    assert Open(s, u) != [] ==> s.owner == Some(u);
  }

  /** Steps that leave the rows, the mutex and every thread's open entries alone. */
  lemma {:induction false} SameOpen(s: State, s': State)
    requires Inv(s) && s'.rows == s.rows && s'.origins == s.origins && s'.owner == s.owner && s'.depth == s.depth
    requires NamesOk(s'.names) && Extends(s.names, s'.names)
    requires forall u: Tid :: Open(s', u) == Open(s, u)
    ensures Inv(s')
  {
    assert NamesWritten(s') by { NamesStayWritten(s, s'); }
    forall u: Tid ensures OpenOk(s', u) {
      assert OpenOk(s, u);
    }
  }

  lemma {:induction false} NamesStayWritten(s: State, s': State)
    requires RowsOk(s) && NamesWritten(s) && NamesOk(s'.names) && Extends(s.names, s'.names)
    requires s'.rows == s.rows && s'.origins == s.origins
    ensures NamesWritten(s')
  {
  }

  lemma {:induction false} StartKeepsInv(s: State, t: Tid, f: Address)
    requires Inv(s) && Enabled(s, Start(t, f))
    ensures Inv(DoStart(s, t, f))
  {
    if |s.rows| >= s.maxSize {
      AcceptedSnoc(Stack(s, t), None);
      SameOpen(s, DoStart(s, t, f));
    } else {
      AcceptedKeepsInv(s, t, f);
    }
  }

  lemma {:induction false} OpenAfterStart(s: State, t: Tid, f: Address, u: Tid)
    ensures Open(DoStart(s, t, f), u) ==
      if u == t && |s.rows| < s.maxSize then Open(s, u) + [|s.origins|] else Open(s, u)
  {
    if u == t {
      AcceptedSnoc(Stack(s, t), if |s.rows| < s.maxSize then Some(|s.origins|) else None);
    } else {
      assert Stack(DoStart(s, t, f), u) == Stack(s, u);
    }
  }

  lemma {:induction false} AcceptedKeepsInv(s: State, t: Tid, f: Address)
    requires Inv(s) && CanLock(s, t) && |s.rows| < s.maxSize
    ensures Inv(DoStart(s, t, f))
  {
    var s' := DoStart(s, t, f);
    assert RowsOk(s') && NamesWritten(s') by { NextRowFits(s, t, f); }
    assert MutexOk(s') by { AcceptedKeepsMutex(s, t, f); }
    forall u: Tid ensures OpenOk(s', u) {
      AcceptedKeepsOpen(s, t, f, u);
    }
  }

  lemma {:induction false} AcceptedKeepsMutex(s: State, t: Tid, f: Address)
    requires MutexOk(s) && CanLock(s, t) && |s.rows| < s.maxSize
    ensures MutexOk(DoStart(s, t, f))
  {
    var s' := DoStart(s, t, f);
    forall u: Tid | Open(s', u) != [] ensures u == t {
      OpenAfterStart(s, t, f, u);
      if u != t {
        OthersHaveNone(s, t, u);
      }
    }
    OpenAfterStart(s, t, f, t);
    assert Open(s, t) != [] ==> s.owner == Some(t);
  }

  lemma {:induction false} AcceptedKeepsOpen(s: State, t: Tid, f: Address, u: Tid)
    requires Inv(s) && CanLock(s, t) && |s.rows| < s.maxSize
    ensures OpenOk(DoStart(s, t, f), u)
  {
    if u == t {
      assert OpenOk(s, t);
      StartKeepsOpen(s, t, f);
    } else {
      OpenAfterStart(s, t, f, u);
      OthersHaveNone(s, t, u);
    }
  }

  lemma {:induction false} NextRowFits(s: State, t: Tid, f: Address)
    requires RowsOk(s) && NamesWritten(s) && |s.rows| < s.maxSize
    ensures RowsOk(DoStart(s, t, f)) && NamesWritten(DoStart(s, t, f))
  {
    var s' := DoStart(s, t, f);
    forall i | 0 <= i < |s'.rows| ensures Named(s'.names, s'.rows[i].name, s'.origins[s'.rows[i].id].func) {
      if i < |s.rows| {
        assert Named(s.names, s.rows[i].name, s.origins[s.rows[i].id].func);
      }
    }
  }

  lemma {:induction false} HeldWhenRowAdded(s: State, id: nat, t: Tid, f: Address)
    requires |s.rows| < s.maxSize && Held(s, id, t)
    ensures Held(DoStart(s, t, f), id, t)
  {
    var k := Find(s.rows, id).value;
    assert DoStart(s, t, f).rows[k].id == id;
  }

  lemma {:induction false} StartKeepsOpen(s: State, t: Tid, f: Address)
    requires OpenOk(s, t) && |s.rows| < s.maxSize
    ensures OpenOk(DoStart(s, t, f), t)
  {
    var s' := DoStart(s, t, f);
    AcceptedSnoc(Stack(s, t), Some(|s.origins|));
    forall i | 0 <= i < |Open(s', t)|
      ensures Held(s', Open(s', t)[i], t) && (i < |Open(s, t)| ==> Open(s', t)[i] < |s.origins|)
    {
      if i < |Open(s, t)| {
        assert Held(s, Open(s, t)[i], t);
        HeldWhenRowAdded(s, Open(s, t)[i], t, f);
      } else {
        assert s'.rows[|s.rows|].id == |s.origins|;
      }
    }
  }

  lemma {:induction false} FinishKeepsRows(s: State, id: nat)
    requires RowsOk(s) && NamesWritten(s)
    ensures
      var s' := s.(rows := Without(s.rows, id, s.filters));
      RowsOk(s') && NamesWritten(s')
  {
    var s' := s.(rows := Without(s.rows, id, s.filters));
    WithoutKeepsOrder(s.rows, id, s.filters, |s.origins|);
    forall i | 0 <= i < |s'.rows| ensures Named(s.names, s'.rows[i].name, s.origins[s'.rows[i].id].func) {
      WithoutIsPart(s.rows, id, s.filters, s'.rows[i]);
      var j :| 0 <= j < |s.rows| && s.rows[j] == s'.rows[i];
    }
  }

  /** The innermost call ends: the calls around it keep their entries. */
  lemma {:induction false} FinishKeepsOpen(s: State, t: Tid, id: nat, ids: seq<nat>)
    requires Open(s, t) == ids + [id] && OpenOk(s, t)
    ensures Increasing(ids) && forall i :: 0 <= i < |ids| ==> ids[i] < id
    ensures forall i :: 0 <= i < |ids| ==> Held(s.(rows := Without(s.rows, id, s.filters)), ids[i], t)
  {
    assert Open(s, t)[|ids|] == id;
    forall i | 0 <= i < |ids|
      ensures ids[i] < id && Held(s.(rows := Without(s.rows, id, s.filters)), ids[i], t)
    {
      assert Open(s, t)[i] == ids[i];
      assert Held(s, ids[i], t);
      WithoutKeepsOthers(s.rows, id, s.filters, ids[i]);
    }
    forall i, j | 0 <= i < j < |ids| ensures ids[i] < ids[j] {
      assert Open(s, t)[i] == ids[i] && Open(s, t)[j] == ids[j];
    }
  }

  /** t's innermost call has the entry id. */
  ghost predicate Innermost(s: State, t: Tid, id: nat) {
    Stack(s, t) != [] && Stack(s, t)[|Stack(s, t)| - 1] == Some(id)
  }

  lemma {:induction false} FinishEntryKeepsInv(s: State, t: Tid, id: nat)
    requires Inv(s) && Innermost(s, t, id)
    ensures Inv(DoFinish(s, t)) && s.owner == Some(t)
    ensures Open(s, t) == Open(DoFinish(s, t), t) + [id]
  {
    var s' := DoFinish(s, t);
    var ids := Open(s', t);
    assert Open(s, t) == ids + [id];
    assert s.owner == Some(t);
    forall u: Tid | u != t ensures Open(s', u) == [] {
      OthersHaveNone(s, t, u);
      assert Stack(s', u) == Stack(s, u);
    }
    assert RowsOk(s') && NamesWritten(s') by { FinishKeepsRows(s, id); }
    assert OpenOk(s', t) by {
      assert OpenOk(s, t);
      FinishKeepsOpen(s, t, id, ids);
    }
    assert MutexOk(s');
    forall u: Tid ensures OpenOk(s', u) {
      if u != t {
        assert Open(s', u) == [];
      }
    }
  }

  lemma {:induction false} FinishKeepsInv(s: State, t: Tid)
    requires Inv(s) && Enabled(s, Finish(t))
    ensures Inv(DoFinish(s, t))
  {
    var st := Stack(s, t);
    if st[|st| - 1].Some? {
      FinishEntryKeepsInv(s, t, st[|st| - 1].value);
    } else {
      SameOpen(s, DoFinish(s, t));
    }
  }

  lemma {:induction false} ClearOutsideCalls(s: State, t: Tid)
    requires Inv(s) && Enabled(s, Clear(t)) && Open(s, t) == []
    ensures Inv(Apply(s, Clear(t)))
  {
    var s' := Apply(s, Clear(t));
    forall u: Tid ensures Open(s', u) == [] == Open(s, u) {
      assert Stack(s', u) == Stack(s, u);
      if u != t {
        OthersHaveNone(s, t, u);
      }
    }
    assert MutexOk(s');
    forall u: Tid ensures OpenOk(s', u) {
      assert Open(s', u) == [];
    }
  }

  lemma {:induction false} ClearInsideCall(s: State, t: Tid)
    requires Enabled(s, Clear(t)) && Open(s, t) != []
    ensures !Inv(Apply(s, Clear(t)))
  {
    var s' := Apply(s, Clear(t));
    assert Stack(s', t) == Stack(s, t);
    assert !Held(s', Open(s', t)[0], t);
    assert !OpenOk(s', t);
  }

  /** Clearing is harmless exactly when the clearing thread has no call in progress. */
  lemma {:induction false} ClearKeepsInvExactly(s: State, t: Tid)
    requires Inv(s) && Enabled(s, Clear(t))
    ensures Inv(Apply(s, Clear(t))) <==> !ClearsOwnCall(s, Clear(t))
    ensures forall i :: 0 <= i < |Open(s, t)| ==> Find(Apply(s, Clear(t)).rows, Open(s, t)[i]) == None
  {
    if Open(s, t) == [] {
      ClearOutsideCalls(s, t);
    } else {
      ClearInsideCall(s, t);
    }
  }

  lemma {:induction false} ApplyKeepsInv(s: State, a: Action)
    requires Inv(s) && Enabled(s, a)
    ensures Inv(Apply(s, a)) <==> !ClearsOwnCall(s, a)
  {
    match a
    case Start(t, f) => StartKeepsInv(s, t, f);
    case Finish(t) => FinishKeepsInv(s, t);
    case Clear(t) => ClearKeepsInvExactly(s, t);
    case AddName(f, name) => RegisterExtends(s.names, f, name); SameOpen(s, Apply(s, a));
    case _ => SameOpen(s, Apply(s, a));
  }

  // ------------------------------------------------------------------------ runs

  datatype Trace = Begin | Extend(prev: Trace, a: Action)

  /** Any interleaving in which no thread clears the log from inside its own logged call. */
  ghost predicate Run(tr: Trace)
    decreases tr, 0
  {
    tr.Begin? ||
    (Run(tr.prev) && Enabled(StateAfter(tr.prev), tr.a) && !ClearsOwnCall(StateAfter(tr.prev), tr.a))
  }

  ghost function StateAfter(tr: Trace): State
    requires Run(tr)
    decreases tr, 1
  {
    match tr
    case Begin => Init
    case Extend(prev, a) => Apply(StateAfter(prev), a)
  }

  lemma {:induction false} RunKeepsInv(tr: Trace)
    requires Run(tr)
    ensures Inv(StateAfter(tr))
  {
    match tr
    case Begin =>
    case Extend(prev, a) =>
      RunKeepsInv(prev);
      ApplyKeepsInv(StateAfter(prev), a);
  }

  lemma {:induction false} FirstCall(f: Address)
    ensures
      var s := DoStart(Init, 1, f);
      Inv(s) && Innermost(s, 1, 0) && Open(s, 1) == [0] && s.owner == Some(1)
  {
    StartKeepsInv(Init, 1, f);
    AcceptedSnoc(Stack(Init, 1), Some(0));
  }

  /** The mutex alone does not rule a clear inside a call out: a thread may clear the log right after it started one. */
  lemma {:induction false} MutexAllowsClearInsideCall(f: Address)
    ensures
      var tr := Extend(Begin, Start(1, f));
      && Run(tr) && Enabled(StateAfter(tr), Clear(1)) && ClearsOwnCall(StateAfter(tr), Clear(1))
      && Innermost(StateAfter(tr), 1, 0) && Find(Apply(StateAfter(tr), Clear(1)).rows, 0) == None
  {
    var tr := Extend(Begin, Start(1, f));
    assert Run(Begin) && StateAfter(Begin) == Init;
    assert Run(tr) && StateAfter(tr) == DoStart(Init, 1, f);
    FirstCall(f);
    ClearKeepsInvExactly(StateAfter(tr), 1);
    assert Open(StateAfter(tr), 1)[0] == 0;
  }

  /** Only the thread that holds the mutex has open entries, and the mutex counts them. */
  lemma {:induction false} OneThreadHasOpenEntries(tr: Trace, t: Tid)
    requires Run(tr)
    ensures
      var s := StateAfter(tr);
      && (Open(s, t) != [] <==> s.owner == Some(t))
      && (s.owner == Some(t) ==> s.depth == |Open(s, t)|)
      && Increasing(Open(s, t))
  {
    RunKeepsInv(tr);
    assert OpenOk(StateAfter(tr), t);
  }

  /** The entries from position k on are those from id on, and t opened all of them. */
  ghost predicate IsBlock(s: State, k: nat, id: nat, t: Tid) {
    && k < |s.rows| && s.rows[k].id == id
    && (forall j :: 0 <= j < |s.rows| ==> (j >= k <==> s.rows[j].id >= id))
    && MadeBy(s.origins, id, |s.origins|, t)
  }

  /**
   While an accepted call is open, the search for its entry succeeds, and its entry and all
   entries after it are one block made by this thread during the call.
   */
  lemma {:induction false} EntryIsFoundAtHeadOfItsBlock(tr: Trace, t: Tid, i: nat) returns (k: nat)
    requires Run(tr) && i < |Open(StateAfter(tr), t)|
    ensures IsBlock(StateAfter(tr), k, Open(StateAfter(tr), t)[i], t)
    ensures Find(StateAfter(tr).rows, Open(StateAfter(tr), t)[i]) == Some(k)
  {
    var s := StateAfter(tr);
    var id := Open(s, t)[i];
    assert RowsOk(s) && Held(s, id, t) by {
      RunKeepsInv(tr);
      assert OpenOk(s, t);
    }
    k := Find(s.rows, id).value;
  }

  // ------------------------------------------------------------ blocks of ended calls

  ghost predicate NoneIn(ids: seq<nat>, lo: nat, hi: nat) {
    forall i :: 0 <= i < |ids| ==> !(lo <= ids[i] < hi)
  }

  /** No call with an entry from lo up to hi is open any more. */
  ghost predicate Ended(s: State, lo: nat, hi: nat) {
    hi <= |s.origins| && forall u: Tid :: NoneIn(Open(s, u), lo, hi)
  }

  lemma {:induction false} OpenAfterFinish(s: State, t: Tid, u: Tid)
    requires Stack(s, t) != []
    ensures Open(DoFinish(s, t), u) <= Open(s, u)
  {
    if u != t {
      assert Stack(DoFinish(s, t), u) == Stack(s, u);
    }
  }

  lemma {:induction false} EndedStaysEnded(s: State, a: Action, lo: nat, hi: nat, u: Tid)
    requires Enabled(s, a) && Ended(s, lo, hi)
    ensures NoneIn(Open(Apply(s, a), u), lo, hi)
  {
    assert NoneIn(Open(s, u), lo, hi);
    match a
    case Start(t, f) => OpenAfterStart(s, t, f, u);
    case Finish(t) => OpenAfterFinish(s, t, u);
    case _ => assert Stack(Apply(s, a), u) == Stack(s, u);
  }

  /** A step of any thread leaves the entries of an ended call alone, unless it clears the whole log. */
  lemma {:induction false} StepKeepsSegment(s: State, a: Action, lo: nat, hi: nat)
    requires Enabled(s, a) && Ended(s, lo, hi)
    ensures Segment(Apply(s, a).rows, lo, hi) == if a.Clear? then [] else Segment(s.rows, lo, hi)
  {
    match a
    case Start(t, f) =>
      if |s.rows| < s.maxSize {
        SegmentAppend(s.rows, Entry(|s.origins|, FuncName(s.names, f)), lo, hi);
      }
    case Finish(t) =>
      var st := Stack(s, t);
      if st[|st| - 1].Some? {
        var id := st[|st| - 1].value;
        assert NoneIn(Open(s, t), lo, hi);
        assert Open(s, t)[|Open(s, t)| - 1] == id;
        SegmentWithout(s.rows, id, s.filters, lo, hi);
      }
    case _ =>
  }

  /** tr' continues tr. */
  ghost predicate Continues(tr: Trace, tr': Trace) {
    tr == tr' || (tr'.Extend? && Continues(tr, tr'.prev))
  }

  /** Was the log cleared between tr and tr'? */
  ghost predicate Cleared(tr: Trace, tr': Trace) {
    tr != tr' && tr'.Extend? && (tr'.a.Clear? || Cleared(tr, tr'.prev))
  }

  lemma {:induction false} SegmentStays(tr: Trace, tr': Trace, lo: nat, hi: nat)
    requires Run(tr') && Continues(tr, tr')
    ensures Run(tr)
    ensures Ended(StateAfter(tr), lo, hi) ==>
      && Ended(StateAfter(tr'), lo, hi)
      && StateAfter(tr).origins <= StateAfter(tr').origins
      && Segment(StateAfter(tr').rows, lo, hi) == if Cleared(tr, tr') then [] else Segment(StateAfter(tr).rows, lo, hi)
  {
    if tr != tr' {
      SegmentStays(tr, tr'.prev, lo, hi);
      if Ended(StateAfter(tr), lo, hi) {
        var s := StateAfter(tr'.prev);
        StepKeepsSegment(s, tr'.a, lo, hi);
        forall u: Tid ensures NoneIn(Open(StateAfter(tr'), u), lo, hi) {
          EndedStaysEnded(s, tr'.a, lo, hi, u);
        }
      }
    }
  }

  lemma {:induction false} EndOfCall(s: State, t: Tid, id: nat)
    requires Inv(s) && Innermost(s, t, id)
    ensures id < |s.origins| && MadeBy(s.origins, id, |s.origins|, t)
    ensures DoFinish(s, t).origins == s.origins && Ended(DoFinish(s, t), id, |s.origins|)
  {
    var s' := DoFinish(s, t);
    var ids := Open(s', t);
    FinishEntryKeepsInv(s, t, id);
    assert OpenOk(s, t);
    assert Open(s, t)[|ids|] == id;
    assert Held(s, id, t);
    FinishKeepsOpen(s, t, id, ids);
    forall u: Tid ensures NoneIn(Open(s', u), id, |s.origins|) {
      if u != t {
        OthersHaveNone(s, t, u);
        assert Stack(s', u) == Stack(s, u);
      }
    }
  }

  /**
   The entries logged during an accepted call, those opened from its own entry up to its end,
   were all opened by its thread; what is left of them when the call ends stays one
   contiguous block in every later state, whatever other threads do, until the log is cleared.
   */
  lemma {:induction false} EndedCallStaysOneBlock(tr: Trace, t: Tid, id: nat, tr': Trace) returns (k: nat)
    requires Run(tr) && Innermost(StateAfter(tr), t, id)
    requires Run(tr') && Continues(Extend(tr, Finish(t)), tr')
    ensures
      var ended, end := Extend(tr, Finish(t)), |StateAfter(tr).origins|;
      && id < end && MadeBy(StateAfter(tr').origins, id, end, t)
      && Run(ended)
      && var block := if Cleared(ended, tr') then [] else Segment(StateAfter(ended).rows, id, end);
         BlockAt(StateAfter(tr').rows, k, block, id, end)
  {
    var ended, end := Extend(tr, Finish(t)), |StateAfter(tr).origins|;
    RunKeepsInv(tr);
    EndOfCall(StateAfter(tr), t, id);
    SegmentStays(ended, tr', id, end);
    RunKeepsInv(tr');
    k := SegmentIsBlock(StateAfter(tr').rows, id, end);
  }

  // -------------------------------------------------------------- names and capacity

  /**
   In every reachable state, what `clear` would write for an entry is the name its function
   has by then, whether it was registered before or after the entry was logged.
   */
  lemma {:induction false} ClearWritesCurrentNames(tr: Trace, i: nat)
    requires Run(tr) && i < |StateAfter(tr).rows|
    ensures
      var s := StateAfter(tr);
      && s.rows[i].id < |s.origins|
      && Resolve(s.names, s.rows[i].name) == FuncName(s.names, s.origins[s.rows[i].id].func)
  {
    var s := StateAfter(tr);
    RunKeepsInv(tr);
    var f := s.origins[s.rows[i].id].func;
    assert Named(s.names, s.rows[i].name, f);
    if s.rows[i].name == ToDecimal(f) {
      DecimalIsDigits(f);
      assert ToDecimal(f)[0] in ToDecimal(f);
      ReadPrinted(f);
    }
  }

  lemma {:induction false} NamesGrow(tr: Trace, tr': Trace)
    requires Run(tr') && Continues(tr, tr')
    ensures Run(tr) && Extends(StateAfter(tr).names, StateAfter(tr').names)
  {
    if tr != tr' {
      NamesGrow(tr, tr'.prev);
      var names := StateAfter(tr'.prev).names;
      if tr'.a.AddName? {
        RegisterExtends(names, tr'.a.func, tr'.a.name);
      }
    }
  }

  /**
   Once a function has been given its first name, that is the name `clear` writes for all its
   entries, in every later state, whenever they were or will be logged.
   */
  lemma {:induction false} FirstNameIsWritten(tr: Trace, f: Address, name: string, tr': Trace, i: nat)
    requires Run(tr') && Continues(Extend(tr, AddName(f, name)), tr') && i < |StateAfter(tr').rows|
    ensures Run(tr)
    ensures
      var s := StateAfter(tr');
      && s.rows[i].id < |s.origins|
      && (f !in StateAfter(tr).names && s.origins[s.rows[i].id].func == f ==> Resolve(s.names, s.rows[i].name) == name)
  {
    NamesGrow(Extend(tr, AddName(f, name)), tr');
    RegisterExtends(StateAfter(tr).names, f, name);
    ClearWritesCurrentNames(tr', i);
  }

  /** The largest capacity the log has had. */
  function LargestCapacity(tr: Trace): int {
    match tr
    case Begin => 100
    case Extend(prev, a) =>
      if a.SetMaxSize? && a.size > LargestCapacity(prev) then a.size else LargestCapacity(prev)
  }

  lemma {:induction false} SizeIsBounded(tr: Trace)
    requires Run(tr)
    ensures StateAfter(tr).maxSize <= LargestCapacity(tr)
    ensures |StateAfter(tr).rows| <= LargestCapacity(tr)
  {
    match tr
    case Begin =>
    case Extend(prev, a) =>
      SizeIsBounded(prev);
      if a.Finish? {
        var s := StateAfter(prev);
        RunKeepsInv(prev);
        var last := Stack(s, a.t)[|Stack(s, a.t)| - 1];
        if last.Some? {
          WithoutKeepsOrder(s.rows, last.value, s.filters, |s.origins|);
        }
      }
  }
}
