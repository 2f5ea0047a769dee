/**
 The instance manager itself, with its lists updated in place. Each method is one
 critical section of the manager, run by one thread; what happens when the sections
 of several threads interleave is the subject of module ManagerThreads.
 */
module InstanceManager {
  import opened Options
  import opened InstanceSlots

  class Manager {
    var instances: seq<Option<Obj>>
    var lockCount: nat
    var freelist: seq<int>
    /** The pairs whose destructor has been called, in order. */
    var destroyed: seq<Obj>

    ghost function View(): Slots
      reads this
    {
      Slots(instances, freelist)
    }

    /** The class invariant: lists of equal size, and a freelist of distinct, emptied slots. */
    ghost predicate Valid()
      reads this
    {
      InstanceSlots.Valid(View()) && lockCount == |instances|
    }

    constructor ()
      ensures Valid() && View() == InstanceSlots.Empty && destroyed == []
    {
      instances, lockCount, freelist, destroyed := [], 0, [], [];
    }

    method CheckInstanceNumber(n: int, allowZero: bool) returns (verdict: Verdict)
      ensures verdict == Check(View(), n, allowZero)
      ensures verdict.Proceed? <==> 1 <= n <= |instances| && n !in freelist
    {
      if n < 0 {
        return Throw(OutOfRange);
      }
      if n == 0 {
        if !allowZero {
          return Throw(NullInstance);
        }
        return Ignore;
      }
      if n > |instances| {
        return Throw(InvalidInstance);
      }
      if n in freelist {
        return Throw(Collected);
      }
      return Proceed;
    }

    method Add(obj: Obj) returns (n: int)
      requires Valid()
      modifies this
      ensures Valid() && destroyed == old(destroyed)
      ensures (View(), Number(n)) == Exec(old(View()), InstanceSlots.Add(obj))
    {
      AddRefinesMap(View(), obj);
      if freelist != [] {
        n := freelist[|freelist| - 1];
        freelist := freelist[..|freelist| - 1];
        instances := instances[n - 1 := Some(obj)];
        return;
      }
      instances := instances + [Some(obj)];
      lockCount := lockCount + 1;
      n := |instances|;
    }

    method Kill(n: int) returns (out: Outcome)
      requires Valid()
      modifies this`instances, this`destroyed
      ensures Valid()
      ensures (View(), out) == Exec(old(View()), InstanceSlots.Kill(n))
      ensures destroyed == old(destroyed) +
        (match StatusAt(Abs(old(View())), n) case Live(obj) => [obj] case _ => [])
    {
      KillRefinesMap(View(), n);
      var verdict := CheckInstanceNumber(n, true);
      match verdict
      case Throw(e) => out := Illegal(e);
      case Ignore => out := Ignored;
      case Proceed =>
        var dying := instances[n - 1];
        instances := instances[n - 1 := None];
        if dying.Some? {
          destroyed := destroyed + [dying.value];
        }
        out := Ok;
    }

    method Finalize(n: int) returns (out: Outcome)
      requires Valid()
      modifies this`freelist
      ensures Valid()
      ensures (View(), out) == Exec(old(View()), InstanceSlots.Finalize(n))
    {
      FinalizeRefinesMap(View(), n);
      var verdict := CheckInstanceNumber(n, true);
      match verdict
      case Throw(e) => out := Illegal(e);
      case Ignore => out := Ignored;
      case Proceed =>
        if instances[n - 1].Some? {
          out := Illegal(Leaked);
        } else {
          freelist := freelist + [n];
          out := Ok;
        }
    }

    /** The lookup at the head of `with_instance`: the pair handed to func, if func is called at all. */
    method WithInstance(n: int) returns (out: Outcome)
      requires Valid()
      ensures (View(), out) == Exec(View(), With(n))
      ensures forall obj :: out == Ran(obj) <==> StatusAt(Abs(View()), n) == Live(obj)
    {
      WithRefinesMap(View(), n);
      var verdict := CheckInstanceNumber(n, false);
      match verdict
      case Throw(e) => out := Illegal(e);
      case Ignore => out := Ignored;
      case Proceed =>
        out := if instances[n - 1].Some? then Ran(instances[n - 1].value) else KilledInstance;
    }
  }
}
