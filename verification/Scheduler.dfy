/**
 The delayed-task scheduler of the test driver. New tasks go to the front of the list;
 a round runs, oldest first, the tasks whose delay has run out, and shortens the delay
 of the others. Tasks may add tasks.
 */
module Scheduler {

  /** A task on the list; `id` counts the tasks in the order they were added. */
  datatype Task = Task(delay: int, id: nat)

  /** The task list, the number of tasks ever added, and the tasks run so far with their round. */
  datatype Sched = Sched(tasks: seq<Task>, added: nat, ran: seq<(nat, nat)>)

  const Fresh := Sched([], 0, [])

  /** The delays of the tasks that running a task adds, in order, depending on all there is to know. */
  type Behaviour = (Sched, nat) -> seq<int>

  function AddTask(s: Sched, delay: int): Sched {
    s.(tasks := [Task(delay, s.added)] + s.tasks, added := s.added + 1)
  }

  function AddTasks(s: Sched, delays: seq<int>): Sched
    decreases |delays|
  {
    if delays == [] then s else AddTasks(AddTask(s, delays[0]), delays[1..])
  }

  /** The tasks of a list that must wait, or that are due, in list order. */
  function Select(tasks: seq<Task>, due: bool): seq<Task> {
    if tasks == [] then []
    else (if (tasks[0].delay < 0) == due then [tasks[0]] else []) + Select(tasks[1..], due)
  }

  function Shorten(tasks: seq<Task>, interval: int): seq<Task> {
    if tasks == [] then [] else [Task(tasks[0].delay - interval, tasks[0].id)] + Shorten(tasks[1..], interval)
  }

  /** Running one task: it is recorded, then it may add tasks. */
  function RunTask(b: Behaviour, s: Sched, id: nat, round: nat): Sched {
    AddTasks(s.(ran := s.ran + [(id, round)]), b(s, id))
  }

  /** `foldRight`: the last task of the list runs first. */
  function RunAll(b: Behaviour, runnable: seq<Task>, s: Sched, round: nat): Sched {
    if runnable == [] then s
    else RunTask(b, RunAll(b, runnable[1..], s, round), runnable[0].id, round)
  }

  function AtLeastOne(interval: int): int { if interval > 1 then interval else 1 }

  function PerformTasks(b: Behaviour, interval: int, s: Sched, round: nat): Sched {
    RunAll(b, Select(s.tasks, true), s.(tasks := Shorten(Select(s.tasks, false), AtLeastOne(interval))), round)
  }

  /** One turn of the main loop: event handlers may add tasks, then the tasks are performed. */
  datatype Turn = Turn(handlers: seq<int>, interval: int)

  function Turns(b: Behaviour, turns: seq<Turn>, s: Sched, round: nat): Sched
    decreases |turns|
  {
    if turns == [] then s
    else Turns(b, turns[1..], PerformTasks(b, turns[0].interval, AddTasks(s, turns[0].handlers), round), round + 1)
  }

  // ---------------------------------------------------------------- exactly once

  ghost predicate Newest(tasks: seq<Task>) {
    forall i, j :: 0 <= i < j < |tasks| ==> tasks[i].id > tasks[j].id
  }

  function Ids(tasks: seq<Task>): set<nat> {
    set i | 0 <= i < |tasks| :: tasks[i].id
  }

  function RanIds(ran: seq<(nat, nat)>): set<nat> {
    set i | 0 <= i < |ran| :: ran[i].0
  }

  ghost predicate NoRepeat(ran: seq<(nat, nat)>) {
    forall i, j :: 0 <= i < j < |ran| ==> ran[i].0 != ran[j].0
  }

  /** Every id is either waiting or has run, never both; `held` are the tasks taken off the list but not yet run. */
  ghost predicate Accounted(s: Sched, held: set<nat>) {
    && Newest(s.tasks) && NoRepeat(s.ran)
    && (forall id :: 0 <= id < s.added <==> id in Ids(s.tasks) || id in RanIds(s.ran) || id in held)
    && Ids(s.tasks) !! RanIds(s.ran) && Ids(s.tasks) !! held && RanIds(s.ran) !! held
  }

  lemma AddTaskAccounted(s: Sched, delay: int, held: set<nat>)
    requires Accounted(s, held)
    ensures Accounted(AddTask(s, delay), held)
  {
    var s' := AddTask(s, delay);
    assert s'.tasks[0].id == s.added;
    forall i | 1 <= i < |s'.tasks| ensures s'.tasks[i].id < s.added {
      assert s'.tasks[i].id == s.tasks[i - 1].id;
      assert s.tasks[i - 1].id in Ids(s.tasks);
    }
    assert Ids(s'.tasks) == Ids(s.tasks) + {s.added} by {
      forall i | 0 <= i < |s.tasks| ensures s.tasks[i].id in Ids(s'.tasks) {
        assert s'.tasks[i + 1].id == s.tasks[i].id;
      }
    }
  }

  lemma {:induction false} AddTasksAccounted(s: Sched, delays: seq<int>, held: set<nat>)
    requires Accounted(s, held)
    ensures Accounted(AddTasks(s, delays), held)
    decreases |delays|
  {
    if delays != [] {
      AddTaskAccounted(s, delays[0], held);
      AddTasksAccounted(AddTask(s, delays[0]), delays[1..], held);
    }
  }

  lemma RunTaskAccounted(b: Behaviour, s: Sched, id: nat, round: nat, held: set<nat>)
    requires Accounted(s, held) && id in held
    ensures Accounted(RunTask(b, s, id, round), held - {id})
  {
    var s' := s.(ran := s.ran + [(id, round)]);
    assert RanIds(s'.ran) == RanIds(s.ran) + {id} by {
      assert s'.ran[|s.ran|] == (id, round);
      forall i | 0 <= i < |s.ran| ensures s.ran[i].0 in RanIds(s'.ran) {
        assert s'.ran[i] == s.ran[i];
      }
    }
    forall i | 0 <= i < |s.ran| ensures s.ran[i].0 != id {
      assert s.ran[i].0 in RanIds(s.ran);
    }
    AddTasksAccounted(s', b(s, id), held - {id});
  }

  lemma IdsSplit(tasks: seq<Task>)
    requires tasks != [] && Newest(tasks)
    ensures Ids(tasks) == {tasks[0].id} + Ids(tasks[1..]) && tasks[0].id !in Ids(tasks[1..])
    ensures Newest(tasks[1..])
  {
    forall i | 0 <= i < |tasks[1..]| ensures tasks[1..][i].id in Ids(tasks) && tasks[1..][i].id < tasks[0].id {
      assert tasks[1..][i] == tasks[i + 1];
    }
    forall i | 0 <= i < |tasks| ensures i == 0 || tasks[i].id in Ids(tasks[1..]) {
      assert i > 0 ==> tasks[i] == tasks[1..][i - 1];
    }
  }

  lemma {:induction false} RunAllAccounted(b: Behaviour, runnable: seq<Task>, s: Sched, round: nat, held: set<nat>)
    requires Newest(runnable) && Ids(runnable) !! held && Accounted(s, Ids(runnable) + held)
    ensures Accounted(RunAll(b, runnable, s, round), held)
    decreases |runnable|
  {
    if runnable == [] {
      assert Ids(runnable) + held == held;
    } else {
      IdsSplit(runnable);
      var id := runnable[0].id;
      var more := held + {id};
      assert Ids(runnable) + held == Ids(runnable[1..]) + more;
      RunAllAccounted(b, runnable[1..], s, round, more);
      RunTaskAccounted(b, RunAll(b, runnable[1..], s, round), id, round, more);
      assert more - {id} == held;
    }
  }

  lemma {:induction false} SelectIn(tasks: seq<Task>, due: bool, t: Task)
    ensures t in Select(tasks, due) <==> t in tasks && (t.delay < 0) == due
  {
    if tasks != [] {
      SelectIn(tasks[1..], due, t);
      assert tasks == [tasks[0]] + tasks[1..];
    }
  }

  lemma {:induction false} SelectNewest(tasks: seq<Task>, due: bool)
    requires Newest(tasks)
    ensures Newest(Select(tasks, due))
  {
    if tasks != [] {
      IdsSplit(tasks);
      SelectNewest(tasks[1..], due);
      var rest := Select(tasks[1..], due);
      forall i | 0 <= i < |rest| ensures rest[i].id < tasks[0].id {
        SelectIn(tasks[1..], due, rest[i]);
        var j :| 0 <= j < |tasks[1..]| && tasks[1..][j] == rest[i];
        assert tasks[j + 1] == rest[i];
      }
    }
  }

  lemma {:induction false} ShortenAt(tasks: seq<Task>, interval: int, i: nat)
    ensures |Shorten(tasks, interval)| == |tasks|
    ensures i < |tasks| ==> Shorten(tasks, interval)[i] == Task(tasks[i].delay - interval, tasks[i].id)
  {
    if tasks != [] {
      ShortenAt(tasks[1..], interval, if i > 0 then i - 1 else 0);
    }
  }

  lemma ShortenIds(tasks: seq<Task>, interval: int)
    requires Newest(tasks)
    ensures Newest(Shorten(tasks, interval)) && Ids(Shorten(tasks, interval)) == Ids(tasks)
  {
    var short := Shorten(tasks, interval);
    ShortenAt(tasks, interval, 0);
    forall i | 0 <= i < |tasks| ensures short[i].id == tasks[i].id {
      ShortenAt(tasks, interval, i);
    }
  }

  /** Dividing a list into due and waiting tasks loses none and repeats none. */
  lemma {:induction false} SelectIds(tasks: seq<Task>)
    requires Newest(tasks)
    ensures Ids(Select(tasks, true)) + Ids(Select(tasks, false)) == Ids(tasks)
    ensures Ids(Select(tasks, true)) !! Ids(Select(tasks, false))
  {
    if tasks != [] {
      IdsSplit(tasks);
      SelectIds(tasks[1..]);
      var due := tasks[0].delay < 0;
      SelectNewest(tasks, due);
      IdsSplit(Select(tasks, due));
      assert Select(tasks, due)[1..] == Select(tasks[1..], due);
      assert Select(tasks, !due) == Select(tasks[1..], !due);
    }
  }

  lemma PerformTasksAccounted(b: Behaviour, interval: int, s: Sched, round: nat)
    requires Accounted(s, {})
    ensures Accounted(PerformTasks(b, interval, s, round), {})
  {
    var runnable, delayed := Select(s.tasks, true), Select(s.tasks, false);
    SelectNewest(s.tasks, true);
    SelectNewest(s.tasks, false);
    SelectIds(s.tasks);
    ShortenIds(delayed, AtLeastOne(interval));
    assert Ids(runnable) + {} == Ids(runnable);
    RunAllAccounted(b, runnable, s.(tasks := Shorten(delayed, AtLeastOne(interval))), round, {});
  }

  /** Over any number of rounds every task is waiting or has run, and none has run twice. */
  lemma {:induction false} TasksRunExactlyOnce(b: Behaviour, turns: seq<Turn>, s: Sched, round: nat)
    requires Accounted(s, {})
    ensures Accounted(Turns(b, turns, s, round), {})
    decreases |turns|
  {
    if turns != [] {
      AddTasksAccounted(s, turns[0].handlers, {});
      var s' := AddTasks(s, turns[0].handlers);
      PerformTasksAccounted(b, turns[0].interval, s', round);
      TasksRunExactlyOnce(b, turns[1..], PerformTasks(b, turns[0].interval, s', round), round + 1);
    }
  }

  // ---------------------------------------------------------------- order of runs

  /** The records that running a list leaves: last task first. */
  function Records(runnable: seq<Task>, round: nat): seq<(nat, nat)> {
    if runnable == [] then [] else Records(runnable[1..], round) + [(runnable[0].id, round)]
  }

  lemma {:induction false} AddTasksFrame(s: Sched, delays: seq<int>)
    ensures AddTasks(s, delays).ran == s.ran
    ensures forall t :: t in s.tasks ==> t in AddTasks(s, delays).tasks
    decreases |delays|
  {
    if delays != [] {
      AddTasksFrame(AddTask(s, delays[0]), delays[1..]);
      assert forall t :: t in s.tasks ==> t in AddTask(s, delays[0]).tasks;
    }
  }

  lemma {:induction false} RunAllRecords(b: Behaviour, runnable: seq<Task>, s: Sched, round: nat)
    ensures RunAll(b, runnable, s, round).ran == s.ran + Records(runnable, round)
    ensures forall t :: t in s.tasks ==> t in RunAll(b, runnable, s, round).tasks
    decreases |runnable|
  {
    if runnable != [] {
      RunAllRecords(b, runnable[1..], s, round);
      var s' := RunAll(b, runnable[1..], s, round);
      AddTasksFrame(s'.(ran := s'.ran + [(runnable[0].id, round)]), b(s', runnable[0].id));
    }
  }

  /** Earlier rounds first, and within a round the task that was added first. */
  ghost predicate InOrder(ran: seq<(nat, nat)>) {
    forall i, j :: 0 <= i < j < |ran| ==> ran[i].1 < ran[j].1 || (ran[i].1 == ran[j].1 && ran[i].0 < ran[j].0)
  }

  ghost predicate Before(ran: seq<(nat, nat)>, round: nat) {
    forall i :: 0 <= i < |ran| ==> ran[i].1 < round
  }

  lemma {:induction false} RecordsInOrder(runnable: seq<Task>, round: nat)
    requires Newest(runnable)
    ensures InOrder(Records(runnable, round))
    ensures forall i :: 0 <= i < |Records(runnable, round)| ==>
      Records(runnable, round)[i].1 == round && Records(runnable, round)[i].0 in Ids(runnable)
  {
    if runnable != [] {
      IdsSplit(runnable);
      RecordsInOrder(runnable[1..], round);
      var rest := Records(runnable[1..], round);
      forall i | 0 <= i < |rest| ensures rest[i].0 < runnable[0].id {
        var k :| 0 <= k < |runnable[1..]| && runnable[1..][k].id == rest[i].0;
        assert runnable[k + 1] == runnable[1..][k];
      }
    }
  }

  lemma PerformTasksInOrder(b: Behaviour, interval: int, s: Sched, round: nat)
    requires Newest(s.tasks) && InOrder(s.ran) && Before(s.ran, round)
    ensures InOrder(PerformTasks(b, interval, s, round).ran) && Before(PerformTasks(b, interval, s, round).ran, round + 1)
  {
    var runnable := Select(s.tasks, true);
    SelectNewest(s.tasks, true);
    RecordsInOrder(runnable, round);
    RunAllRecords(b, runnable, s.(tasks := Shorten(Select(s.tasks, false), AtLeastOne(interval))), round);
  }

  /** Over any number of rounds, tasks run in the order of rounds, and in the order they were added within one. */
  lemma {:induction false} TasksRunInOrder(b: Behaviour, turns: seq<Turn>, s: Sched, round: nat)
    requires Accounted(s, {}) && InOrder(s.ran) && Before(s.ran, round)
    ensures InOrder(Turns(b, turns, s, round).ran)
    decreases |turns|
  {
    if turns != [] {
      AddTasksAccounted(s, turns[0].handlers, {});
      AddTasksFrame(s, turns[0].handlers);
      var s' := AddTasks(s, turns[0].handlers);
      PerformTasksAccounted(b, turns[0].interval, s', round);
      PerformTasksInOrder(b, turns[0].interval, s', round);
      TasksRunInOrder(b, turns[1..], PerformTasks(b, turns[0].interval, s', round), round + 1);
    }
  }

  /** Started with an empty list, the scheduler never loses a task, never repeats one and never runs one out of order. */
  lemma RunsFromFresh(b: Behaviour, turns: seq<Turn>)
    ensures
      var s := Turns(b, turns, Fresh, 0);
      Accounted(s, {}) && InOrder(s.ran)
  {
    TasksRunExactlyOnce(b, turns, Fresh, 0);
    TasksRunInOrder(b, turns, Fresh, 0);
  }

  // ----------------------------------------------------------------------- timing

  datatype Fate = Runs(round: nat) | Waits(delay: int)

  /** The time that passes for waiting tasks in the first k of the turns. */
  function Elapsed(turns: seq<Turn>, k: nat): int
    requires k <= |turns|
  {
    if k == 0 then 0 else Elapsed(turns, k - 1) + AtLeastOne(turns[k - 1].interval)
  }

  /** A turn counts its interval, or 1 if that is more. */
  lemma ElapsedCountsIntervals(turns: seq<Turn>, k: nat)
    requires k < |turns|
    ensures Elapsed(turns, 0) == 0
    ensures turns[k].interval >= 1 ==> Elapsed(turns, k + 1) == Elapsed(turns, k) + turns[k].interval
    ensures turns[k].interval <= 1 ==> Elapsed(turns, k + 1) == Elapsed(turns, k) + 1
  {
  }

  /** The sum of the intervals of the first k turns. */
  function Sum(turns: seq<Turn>, k: nat): int
    requires k <= |turns|
  {
    if k == 0 then 0 else Sum(turns, k - 1) + turns[k - 1].interval
  }

  lemma {:induction false} ElapsedIsSum(turns: seq<Turn>, k: nat)
    requires k <= |turns| && forall i :: 0 <= i < k ==> turns[i].interval >= 1
    ensures Elapsed(turns, k) == Sum(turns, k)
  {
    if k > 0 {
      ElapsedIsSum(turns, k - 1);
      ElapsedCountsIntervals(turns, k - 1);
    }
  }

  /** k is the first of the turns by whose start more than d has passed. */
  ghost predicate FirstDue(turns: seq<Turn>, d: int, k: nat) {
    k < |turns| && Elapsed(turns, k) > d && forall j :: 0 <= j < k ==> Elapsed(turns, j) <= d
  }

  lemma {:induction false} ElapsedTail(turns: seq<Turn>, k: nat)
    requires turns != [] && k < |turns|
    ensures Elapsed(turns, k + 1) == AtLeastOne(turns[0].interval) + Elapsed(turns[1..], k)
  {
    if k > 0 {
      ElapsedTail(turns, k - 1);
    }
  }

  ghost predicate Has(s: Sched, id: nat, fate: Fate) {
    match fate
    case Runs(round) => (id, round) in s.ran
    case Waits(delay) => Task(delay, id) in s.tasks
  }

  lemma {:induction false} RecordsAll(runnable: seq<Task>, round: nat, t: Task)
    requires t in runnable
    ensures (t.id, round) in Records(runnable, round)
  {
    if t != runnable[0] {
      RecordsAll(runnable[1..], round, t);
    }
  }

  /** One round runs a task whose delay has run out and shortens the delay of any other by the interval, or by 1 if that is more. */
  lemma PerformTasksFate(b: Behaviour, interval: int, s: Sched, round: nat, t: Task)
    requires t in s.tasks
    ensures t.delay < 0 ==> Has(PerformTasks(b, interval, s, round), t.id, Runs(round))
    ensures t.delay >= 0 && interval >= 1 ==> Has(PerformTasks(b, interval, s, round), t.id, Waits(t.delay - interval))
    ensures t.delay >= 0 && interval <= 1 ==> Has(PerformTasks(b, interval, s, round), t.id, Waits(t.delay - 1))
  {
    var runnable, delayed := Select(s.tasks, true), Select(s.tasks, false);
    RunAllRecords(b, runnable, s.(tasks := Shorten(delayed, AtLeastOne(interval))), round);
    if t.delay < 0 {
      SelectIn(s.tasks, true, t);
      RecordsAll(runnable, round, t);
    } else {
      SelectIn(s.tasks, false, t);
      ShortenIn(delayed, AtLeastOne(interval), t);
    }
  }

  lemma {:induction false} ShortenIn(tasks: seq<Task>, interval: int, t: Task)
    requires t in tasks
    ensures Task(t.delay - interval, t.id) in Shorten(tasks, interval)
  {
    if t != tasks[0] {
      ShortenIn(tasks[1..], interval, t);
    }
  }

  lemma {:induction false} RanStays(b: Behaviour, turns: seq<Turn>, s: Sched, round: nat, x: (nat, nat))
    requires x in s.ran
    ensures x in Turns(b, turns, s, round).ran
    decreases |turns|
  {
    if turns != [] {
      AddTasksFrame(s, turns[0].handlers);
      var s' := AddTasks(s, turns[0].handlers);
      RunAllRecords(b, Select(s'.tasks, true), s'.(tasks := Shorten(Select(s'.tasks, false), AtLeastOne(turns[0].interval))), round);
      RanStays(b, turns[1..], PerformTasks(b, turns[0].interval, s', round), round + 1, x);
    }
  }

  /**
   A waiting task runs in the first round by whose start the elapsed intervals exceed its
   delay; if there is no such round yet, it waits with its delay shortened by all of them.
   */
  lemma {:induction false} TaskRunsWhenDue(b: Behaviour, turns: seq<Turn>, s: Sched, round: nat, t: Task)
    requires t in s.tasks
    ensures forall k: nat :: FirstDue(turns, t.delay, k) ==> Has(Turns(b, turns, s, round), t.id, Runs(round + k))
    ensures (forall k :: 0 <= k < |turns| ==> Elapsed(turns, k) <= t.delay) ==>
      Has(Turns(b, turns, s, round), t.id, Waits(t.delay - Elapsed(turns, |turns|)))
    decreases |turns|
  {
    if turns != [] {
      AddTasksFrame(s, turns[0].handlers);
      var s' := AddTasks(s, turns[0].handlers);
      var s'' := PerformTasks(b, turns[0].interval, s', round);
      PerformTasksFate(b, turns[0].interval, s', round, t);
      if t.delay < 0 {
        RanStays(b, turns[1..], s'', round + 1, (t.id, round));
        DueAtOnce(turns, t.delay);
      } else {
        var t' := Task(t.delay - AtLeastOne(turns[0].interval), t.id);
        TaskRunsWhenDue(b, turns[1..], s'', round + 1, t');
        DueInTail(turns, t.delay);
      }
    }
  }

  lemma {:induction false} DueAtOnce(turns: seq<Turn>, d: int)
    requires turns != [] && d < 0
    ensures forall k: nat :: FirstDue(turns, d, k) ==> k == 0
    ensures exists k :: 0 <= k < |turns| && Elapsed(turns, k) > d
  {
    assert Elapsed(turns, 0) == 0;
  }

  lemma {:induction false} DueInTail(turns: seq<Turn>, d: int)
    requires turns != [] && d >= 0
    ensures
      var d' := d - AtLeastOne(turns[0].interval);
      && (forall k: nat :: FirstDue(turns, d, k) ==> k > 0 && FirstDue(turns[1..], d', k - 1))
      && ((forall k :: 0 <= k < |turns| ==> Elapsed(turns, k) <= d) ==>
            forall k :: 0 <= k < |turns[1..]| ==> Elapsed(turns[1..], k) <= d')
      && Elapsed(turns, |turns|) == AtLeastOne(turns[0].interval) + Elapsed(turns[1..], |turns| - 1)
  {
    forall k: nat | k < |turns| ensures Elapsed(turns, k + 1) == AtLeastOne(turns[0].interval) + Elapsed(turns[1..], k) {
      ElapsedTail(turns, k);
    }
    forall k: nat | FirstDue(turns, d, k) ensures k > 0 && FirstDue(turns[1..], d - AtLeastOne(turns[0].interval), k - 1) {
      assert Elapsed(turns, 0) == 0;
      forall j | 0 <= j < k - 1 ensures Elapsed(turns[1..], j) <= d - AtLeastOne(turns[0].interval) {
        assert Elapsed(turns, j + 1) <= d;
      }
    }
  }

  lemma {:induction false} ElapsedGrows(turns: seq<Turn>, k: nat)
    requires k <= |turns|
    ensures Elapsed(turns, k) >= k
  {
    if k > 0 {
      ElapsedGrows(turns, k - 1);
    }
  }

  // ------------------------------------------------------------------ added tasks

  /** Adding puts every task on the list with the delay it was given, in front of what was there. */
  lemma {:induction false} AddTasksAdds(s: Sched, delays: seq<int>, k: nat)
    requires k < |delays|
    ensures AddTasks(s, delays).added == s.added + |delays|
    ensures Task(delays[k], s.added + k) in AddTasks(s, delays).tasks
    decreases |delays|
  {
    var s' := AddTask(s, delays[0]);
    if k > 0 {
      AddTasksAdds(s', delays[1..], k - 1);
      assert delays[1..][k - 1] == delays[k];
    } else {
      assert s'.tasks[0] == Task(delays[0], s.added);
      AddTasksFrame(s', delays[1..]);
      if |delays| > 1 {
        AddTasksAdds(s', delays[1..], 0);
      }
    }
  }

  /** A task that runs in a round leaves the tasks it adds on the list, with the delays it gives them. */
  lemma {:induction false} RunTasksAdd(b: Behaviour, runnable: seq<Task>, s: Sched, round: nat, i: nat, k: nat)
    requires i < |runnable|
    requires
      var s' := RunAll(b, runnable[i + 1..], s, round);
      k < |b(s', runnable[i].id)|
    ensures
      var s' := RunAll(b, runnable[i + 1..], s, round);
      Task(b(s', runnable[i].id)[k], s'.added + k) in RunAll(b, runnable, s, round).tasks
    decreases i
  {
    if i == 0 {
      var s' := RunAll(b, runnable[1..], s, round);
      AddTasksAdds(s'.(ran := s'.ran + [(runnable[0].id, round)]), b(s', runnable[0].id), k);
    } else {
      assert runnable[1..][i..] == runnable[i + 1..] && runnable[1..][i - 1] == runnable[i];
      RunTasksAdd(b, runnable[1..], s, round, i - 1, k);
      var s' := RunAll(b, runnable[1..], s, round);
      AddTasksFrame(s'.(ran := s'.ran + [(runnable[0].id, round)]), b(s', runnable[0].id));
    }
  }

  /** The turns that add nothing before the first round. */
  function Started(turns: seq<Turn>): seq<Turn>
    requires turns != []
  {
    turns[0 := Turn([], turns[0].interval)]
  }

  lemma {:induction false} ElapsedWhenStarted(turns: seq<Turn>, k: nat)
    requires turns != [] && k <= |turns|
    ensures Elapsed(Started(turns), k) == Elapsed(turns, k)
  {
    if k > 0 {
      ElapsedWhenStarted(turns, k - 1);
    }
  }

  /** A task that a handler adds with delay d runs in the first round by whose start the elapsed intervals exceed d. */
  lemma {:induction false} AddedTaskRunsWhenDue(b: Behaviour, turns: seq<Turn>, s: Sched, round: nat, k: nat, m: nat)
    requires turns != [] && k < |turns[0].handlers| && FirstDue(turns, turns[0].handlers[k], m)
    ensures Has(Turns(b, turns, s, round), s.added + k, Runs(round + m))
  {
    var d, s', turns' := turns[0].handlers[k], AddTasks(s, turns[0].handlers), Started(turns);
    AddTasksAdds(s, turns[0].handlers, k);
    forall i | 0 <= i < |turns| ensures Elapsed(turns', i) == Elapsed(turns, i) {
      ElapsedWhenStarted(turns, i);
    }
    assert FirstDue(turns', d, m);
    assert turns'[1..] == turns[1..];
    assert Turns(b, turns', s', round) == Turns(b, turns, s, round);
    TaskRunsWhenDue(b, turns', s', round, Task(d, s.added + k));
  }

  /** A task with a delay d of at least 0 runs within d + 2 rounds. */
  lemma {:induction false} TaskRunsSoon(b: Behaviour, turns: seq<Turn>, s: Sched, round: nat, t: Task) returns (k: nat)
    requires t in s.tasks && t.delay >= 0 && |turns| >= t.delay + 2
    ensures k <= t.delay + 1 && FirstDue(turns, t.delay, k)
    ensures Has(Turns(b, turns, s, round), t.id, Runs(round + k))
  {
    k := 0;
    while Elapsed(turns, k) <= t.delay
      invariant k <= t.delay + 1 && k < |turns|
      invariant forall j :: 0 <= j < k ==> Elapsed(turns, j) <= t.delay
      decreases t.delay + 2 - k
    {
      ElapsedGrows(turns, k);
      k := k + 1;
    }
    assert FirstDue(turns, t.delay, k);
    TaskRunsWhenDue(b, turns, s, round, t);
  }
}
