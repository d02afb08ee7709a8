/** `CTCTimer`: tasks in a multimap ordered by the time at which they are due. */
module Timers {

  /** One entry of the multimap: its key, and the `task_info_t` with the callback's identity. */
  datatype Task = Task(due: int, interval: int, func: int)

  ghost predicate Sorted(s: seq<Task>) {
    forall j, k :: 0 <= j < k < |s| ==> s[j].due <= s[k].due
  }

  /** Where `multimap::insert` puts a key: behind all that are not greater. */
  function Place(s: seq<Task>, due: int): (p: nat)
    ensures p <= |s|
    ensures forall k :: 0 <= k < p ==> s[k].due <= due
    ensures p < |s| ==> due < s[p].due
  {
    if s == [] || due < s[0].due then 0 else 1 + Place(s[1..], due)
  }

  function Insert(s: seq<Task>, t: Task): seq<Task> {
    s[..Place(s, t.due)] + [t] + s[Place(s, t.due)..]
  }

  function Next(t: Task, now: int): Task {
    Task(now + t.interval, t.interval, t.func)
  }

  /** Take out what is due and put it in again for later. */
  function Rearm(s: seq<Task>, due: seq<Task>, now: int): seq<Task>
    decreases |due|
  {
    if due == [] then s else Rearm(Insert(s, Next(due[0], now)), due[1..], now)
  }

  /** What one call of `Schedule` does to the tasks. */
  function Scheduled(s: seq<Task>, now: int): seq<Task> {
    Rearm(s[Place(s, now)..], s[..Place(s, now)], now)
  }

  ghost predicate Later(s: seq<Task>, now: int) {
    forall k :: 0 <= k < |s| ==> s[k].due > now
  }

  ghost predicate Positive(s: seq<Task>) {
    forall k :: 0 <= k < |s| ==> s[k].interval >= 1
  }

  lemma InsertSorted(s: seq<Task>, t: Task)
    requires Sorted(s)
    ensures Sorted(Insert(s, t))
  {
    var p, s' := Place(s, t.due), Insert(s, t);
    forall k | p <= k < |s| ensures t.due < s[k].due {
      assert s[p].due <= s[k].due;
    }
    forall j, k | 0 <= j < k < |s'| ensures s'[j].due <= s'[k].due {
      InsertedAt(s, t, j);
      InsertedAt(s, t, k);
    }
  }

  lemma InsertedAt(s: seq<Task>, t: Task, k: nat)
    requires k <= |s|
    ensures |Insert(s, t)| == |s| + 1
    ensures var p := Place(s, t.due);
      Insert(s, t)[k] == if k < p then s[k] else if k == p then t else s[k - 1]
  {
  }

  lemma InsertCounts(s: seq<Task>, t: Task)
    ensures multiset(Insert(s, t)) == multiset(s) + multiset{t}
  {
    var p := Place(s, t.due);
    assert s == s[..p] + s[p..];
  }

  lemma InsertKeeps(s: seq<Task>, t: Task, now: int)
    requires Sorted(s)
    ensures Sorted(Insert(s, t))
    ensures Later(s, now) && t.due > now ==> Later(Insert(s, t), now)
    ensures Positive(s) && t.interval >= 1 ==> Positive(Insert(s, t))
  {
    InsertSorted(s, t);
    forall k | 0 <= k <= |s|
      ensures Later(s, now) && t.due > now ==> Insert(s, t)[k].due > now
      ensures Positive(s) && t.interval >= 1 ==> Insert(s, t)[k].interval >= 1
    {
      InsertedAt(s, t, k);
    }
  }

  /** A task goes behind all that are due no later. */
  lemma InsertBehind(front: seq<Task>, s: seq<Task>, t: Task)
    requires forall k :: 0 <= k < |front| ==> front[k].due <= t.due
    ensures Place(front + s, t.due) == |front| + Place(s, t.due)
    ensures Insert(front + s, t) == front + Insert(s, t)
  {
    hide Place;
    PlaceBehind(front, s, t.due);
    var p := Place(s, t.due);
    assert (front + s)[..|front| + p] == front + s[..p];
    assert (front + s)[|front| + p..] == s[p..];
  }

  lemma {:induction false} PlaceBehind(front: seq<Task>, s: seq<Task>, due: int)
    requires forall k :: 0 <= k < |front| ==> front[k].due <= due
    ensures Place(front + s, due) == |front| + Place(s, due)
  {
    if front == [] {
      assert front + s == s;
    } else {
      assert (front + s)[1..] == front[1..] + s && (front + s)[0] == front[0];
      PlaceBehind(front[1..], s, due);
    }
  }

  /** One turn of the loop in `Schedule`: the first task moves from what is due to the rest. */
  lemma RearmTurn(rest: seq<Task>, due: seq<Task>, now: int)
    requires Sorted(rest) && Positive(rest) && Later(rest, now) && Positive(due)
    requires forall k :: 0 <= k < |due| ==> due[k].due <= now
    requires due != []
    ensures
      var t := Next(due[0], now);
      var front := (due + rest)[1..];
      && front == due[1..] + rest
      && Sorted(Insert(rest, t)) && Positive(Insert(rest, t)) && Later(Insert(rest, t), now)
      && Positive(due[1..])
      && Rearm(Insert(rest, t), due[1..], now) == Rearm(rest, due, now)
      && Place(front, t.due) == |due| - 1 + Place(rest, t.due)
      && Insert(front, t) == due[1..] + Insert(rest, t)
  {
    hide Insert, Place, Sorted, Later;
    var t := Next(due[0], now);
    assert due[0].interval >= 1;
    InsertKeeps(rest, t, now);
    InsertBehind(due[1..], rest, t);
    assert (due + rest)[1..] == due[1..] + rest;
  }

  /**
   The loop of `Schedule` on the way: `done` has run, `due` is still to run, `rest` is for later; the
   iterator, at position `it`, is at the first task until all that were due have run.
   */
  ghost predicate Midway(start: seq<Task>, now: int, done: seq<Task>, s: seq<Task>, it: nat,
                         due: seq<Task>, rest: seq<Task>) {
    && it <= |s| && s == due + rest
    && Sorted(rest) && Positive(rest) && Later(rest, now)
    && Positive(due) && (forall k :: 0 <= k < |due| ==> due[k].due <= now)
    && (due != [] ==> it == 0)
    && done + due == start[..Place(start, now)]
    && Rearm(rest, due, now) == Scheduled(start, now)
  }

  lemma MidwayStart(s: seq<Task>, now: int)
    requires Sorted(s) && Positive(s)
    ensures Midway(s, now, [], s, 0, s[..Place(s, now)], s[Place(s, now)..])
  {
    hide Rearm;
    Split(s, now);
  }

  lemma MidwayFront(start: seq<Task>, now: int, done: seq<Task>, s: seq<Task>, it: nat, due: seq<Task>,
                    rest: seq<Task>)
    requires Midway(start, now, done, s, it, due, rest) && it < |s| && s[it].due <= now
    ensures due != [] && it == 0 && s[it] == due[0] && s[..it] + s[it + 1..] == (due + rest)[1..]
    ensures done + [s[it]] + due[1..] == done + due
  {
    hide Insert, Place, Rearm, Sorted, Positive, Scheduled;
    assert due == [] ==> s == rest;
  }

  lemma MidwayTurn(start: seq<Task>, now: int, done: seq<Task>, s: seq<Task>, it: nat, due: seq<Task>,
                   rest: seq<Task>)
    requires Midway(start, now, done, s, it, due, rest) && it < |s| && s[it].due <= now
    ensures due != []
    ensures var t := Next(s[it], now);
      var s' := s[..it] + s[it + 1..];
      Midway(start, now, done + [s[it]], Insert(s', t), if Place(s', t.due) <= it then it + 1 else it,
             due[1..], Insert(rest, t))
  {
    hide Insert, Place, Rearm, Sorted, Positive, Later, Scheduled, Next;
    MidwayFront(start, now, done, s, it, due, rest);
    RearmTurn(rest, due, now);
    InsertLonger(rest, Next(s[it], now));
  }

  lemma InsertLonger(s: seq<Task>, t: Task)
    ensures |Insert(s, t)| == |s| + 1
  {
  }

  lemma MidwayEnd(start: seq<Task>, now: int, done: seq<Task>, s: seq<Task>, it: nat, due: seq<Task>, rest: seq<Task>)
    requires Midway(start, now, done, s, it, due, rest) && (it == |s| || s[it].due > now)
    ensures done == start[..Place(start, now)] && s == Scheduled(start, now)
    ensures Sorted(s) && Positive(s) && Later(s, now)
  {
    hide Insert, Place, Sorted, Positive, Scheduled;
    assert due == [];
    assert s == rest && done + due == done;
  }

  // ---------- the timer ----------

  class Timer {
    var tasks: seq<Task>

    /** The callbacks made so far, as the tasks that were due. */
    ghost var ran: seq<Task>

    ghost predicate Valid()
      reads this
    {
      Sorted(tasks) && Positive(tasks)
    }

    constructor ()
      ensures Valid() && tasks == [] && ran == []
    {
      tasks, ran := [], [];
    }

    /** `SetTimerTask` at time `now`; an interval that is not positive counts as 1. */
    method SetTimerTask(now: int, interval: int, func: int)
      requires Valid()
      modifies `tasks
      ensures Valid()
      ensures tasks == Insert(old(tasks),
        if interval >= 1 then Task(now + interval, interval, func) else Task(now + 1, 1, func))
    {
      hide Insert, Sorted, Positive, Later;
      var v := if interval <= 0 then 1 else interval;
      var t := Task(now + v, v, func);
      InsertKeeps(tasks, t, now);
      tasks := Insert(tasks, t);
    }

    /**
     `Schedule` at time `now`: every task due by now runs once, in the order in which they were due, and
     is put in again for `now` plus its interval.
     */
    method Schedule(now: int)
      requires Valid()
      modifies this
      ensures Valid() && Later(tasks, now)
      ensures ran == old(ran) + old(tasks)[..Place(old(tasks), now)]
      ensures tasks == Scheduled(old(tasks), now)
    {
      hide Insert, Place, Rearm, Sorted, Positive, Later, Scheduled, Midway;
      ghost var start, done := tasks, [];
      ghost var due, rest := tasks[..Place(tasks, now)], tasks[Place(tasks, now)..];
      MidwayStart(tasks, now);
      var it := 0;
      while it < |tasks|
        invariant 0 <= it <= |tasks| && Midway(start, now, done, tasks, it, due, rest)
        invariant ran == old(ran) + done
        decreases |due|
      {
        if tasks[it].due <= now {
          MidwayTurn(start, now, done, tasks, it, due, rest);
          var task := tasks[it];
          ran := ran + [task];
          tasks := tasks[..it] + tasks[it + 1..];
          var t := Next(task, now);
          var p := Place(tasks, t.due);
          InsertLonger(tasks, t);
          tasks := Insert(tasks, t);
          if p <= it {
            it := it + 1;
          }
          done := done + [task];
          due, rest := due[1..], Insert(rest, t);
        } else {
          break;
        }
      }
      MidwayEnd(start, now, done, tasks, it, due, rest);
    }
  }

  lemma Split(s: seq<Task>, now: int)
    requires Sorted(s) && Positive(s)
    ensures var p := Place(s, now);
      && s[..p] + s[p..] == s
      && Sorted(s[p..]) && Positive(s[p..]) && Later(s[p..], now) && Positive(s[..p])
      && Rearm(s[p..], s[..p], now) == Scheduled(s, now)
  {
    hide Rearm, Place;
    var p := Place(s, now);
    var rest := s[p..];
    forall k | 0 <= k < |rest| ensures rest[k].due > now && rest[k].interval >= 1 {
      assert rest[k] == s[p + k];
      assert 0 < k ==> s[p].due <= s[p + k].due;
    }
    forall j, k | 0 <= j < k < |rest| ensures rest[j].due <= rest[k].due {
      assert s[p + j].due <= s[p + k].due;
    }
  }

  // ---------- what a schedule means for each task ----------

  /** A task after a schedule at time `now`: put off by its interval if it was due, otherwise as it was. */
  function Step(t: Task, now: int): Task {
    if t.due <= now then Next(t, now) else t
  }

  /** All tasks of the list, each after its step. */
  function Steps(s: seq<Task>, now: int): multiset<Task> {
    if s == [] then multiset{} else Steps(s[..|s| - 1], now) + multiset{Step(s[|s| - 1], now)}
  }

  lemma {:induction false} RearmCounts(s: seq<Task>, due: seq<Task>, now: int)
    requires forall k :: 0 <= k < |due| ==> due[k].due <= now
    ensures multiset(Rearm(s, due, now)) == multiset(s) + Steps(due, now)
    decreases |due|
  {
    if due != [] {
      RearmCounts(Insert(s, Next(due[0], now)), due[1..], now);
      InsertCounts(s, Next(due[0], now));
      StepsCons(due, now);
    }
  }

  lemma StepsLast(s: seq<Task>, now: int)
    requires s != []
    ensures Steps(s, now) == Steps(s[..|s| - 1], now) + multiset{Step(s[|s| - 1], now)}
  {
  }

  lemma {:induction false} StepsCons(s: seq<Task>, now: int)
    requires s != []
    ensures Steps(s, now) == multiset{Step(s[0], now)} + Steps(s[1..], now)
  {
    hide Step, Steps;
    var n := |s| - 1;
    StepsLast(s, now);
    NoSteps(now);
    if n > 0 {
      var tail := s[1..];
      StepsCons(s[..n], now);
      StepsLast(tail, now);
      assert s[..n][1..] == tail[..n - 1] && tail[n - 1] == s[n];
      Assoc(multiset{Step(s[0], now)}, Steps(tail[..n - 1], now), multiset{Step(s[n], now)});
    } else {
      assert s[..n] == [] == s[1..];
    }
  }

  lemma Assoc(a: multiset<Task>, b: multiset<Task>, c: multiset<Task>)
    ensures a + b + c == a + (b + c)
  {
  }

  lemma {:induction false} StepsAppend(s: seq<Task>, t: seq<Task>, now: int)
    ensures Steps(s + t, now) == Steps(s, now) + Steps(t, now)
  {
    hide Step, Steps;
    if s == [] {
      assert s + t == t;
      NoSteps(now);
    } else {
      StepsAppend(s[1..], t, now);
      StepsCons(s, now);
      StepsCons(s + t, now);
      assert (s + t)[1..] == s[1..] + t;
      Assoc(multiset{Step(s[0], now)}, Steps(s[1..], now), Steps(t, now));
    }
  }

  lemma NoSteps(now: int)
    ensures Steps([], now) == multiset{}
  {
  }

  lemma {:induction false} StepsLater(s: seq<Task>, now: int)
    requires Later(s, now)
    ensures Steps(s, now) == multiset(s)
  {
    if s != [] {
      StepsLater(s[..|s| - 1], now);
      assert s == s[..|s| - 1] + [s[|s| - 1]];
    }
  }

  /** No task gets lost or doubled: the tasks after a schedule are, one for one, the tasks before after their step. */
  lemma ScheduleCounts(s: seq<Task>, now: int)
    requires Sorted(s) && Positive(s)
    ensures multiset(Scheduled(s, now)) == Steps(s, now)
  {
    hide Rearm, Insert;
    var p := Place(s, now);
    Split(s, now);
    RearmCounts(s[p..], s[..p], now);
    StepsAppend(s[..p], s[p..], now);
    StepsLater(s[p..], now);
  }

  lemma {:induction false} InSteps(s: seq<Task>, now: int, x: Task)
    ensures x in Steps(s, now) <==> exists t :: t in s && x == Step(t, now)
  {
    if s != [] {
      var init, last := s[..|s| - 1], s[|s| - 1];
      InSteps(init, now, x);
      assert s == init + [last];
      assert last in s;
    }
  }

  // ---------- whole runs ----------

  /** What happens to a timer: a schedule, or a task set. */
  datatype Event = Sched(time: int) | Set(time: int, interval: int, func: int)

  /** The task that `SetTimerTask` puts in. */
  function TaskOf(e: Event): Task
    requires e.Set?
  {
    if e.interval >= 1 then Task(e.time + e.interval, e.interval, e.func) else Task(e.time + 1, 1, e.func)
  }

  /** The tasks of a new timer after the first `n` events. */
  function Tasks(es: seq<Event>, n: nat): seq<Task>
    requires n <= |es|
  {
    if n == 0 then [] else
    match es[n - 1]
    case Sched(now) => Scheduled(Tasks(es, n - 1), now)
    case Set(_, _, _) => Insert(Tasks(es, n - 1), TaskOf(es[n - 1]))
  }

  /** The tasks that run in the event at `k`. */
  function RunBy(es: seq<Event>, k: nat): seq<Task>
    requires k < |es|
  {
    match es[k]
    case Sched(now) => Tasks(es, k)[..Place(Tasks(es, k), now)]
    case _ => []
  }

  /** All tasks that have run in the first `n` events. */
  function AllRun(es: seq<Event>, n: nat): seq<Task>
    requires n <= |es|
  {
    if n == 0 then [] else AllRun(es, n - 1) + RunBy(es, n - 1)
  }

  /** A timer that goes through the events has these tasks and has run these. */
  method Play(es: seq<Event>) returns (timer: Timer)
    ensures fresh(timer) && timer.Valid()
    ensures timer.tasks == Tasks(es, |es|) && timer.ran == AllRun(es, |es|)
  {
    hide Insert, Place, Scheduled;
    timer := new Timer();
    var n := 0;
    while n < |es|
      invariant 0 <= n <= |es| && fresh(timer) && timer.Valid()
      invariant timer.tasks == Tasks(es, n) && timer.ran == AllRun(es, n)
    {
      match es[n] {
        case Sched(now) =>
          timer.Schedule(now);
        case Set(now, interval, func) =>
          timer.SetTimerTask(now, interval, func);
          assert RunBy(es, n) == [];
      }
      n := n + 1;
    }
  }

  // ---------- each task by itself ----------

  /** `t` is in the list, once, and no other entry is of its callback. */
  ghost predicate Only(s: seq<Task>, t: Task) {
    multiset(s)[t] == 1 && forall u :: u in s && u.func == t.func ==> u == t
  }

  /** No entry is of the callback. */
  ghost predicate Absent(s: seq<Task>, func: int) {
    forall u :: u in s ==> u.func != func
  }

  lemma StepSame(t: Task, u: Task, now: int)
    requires u.func == t.func ==> u == t
    ensures Step(u, now) == Step(t, now) <==> u == t
  {
  }

  /** Tasks of different callbacks stay different. */
  lemma {:induction false} StepsOnly(s: seq<Task>, t: Task, now: int)
    requires forall u :: u in s && u.func == t.func ==> u == t
    ensures Steps(s, now)[Step(t, now)] == multiset(s)[t]
  {
    hide Step, Steps;
    NoSteps(now);
    if s != [] {
      var init, last := s[..|s| - 1], s[|s| - 1];
      StepsOnly(init, t, now);
      assert s == init + [last];
      assert multiset(s) == multiset(init) + multiset{last};
      StepsLast(s, now);
      StepSame(t, last, now);
    }
  }

  /** The tasks after a schedule are exactly those before after their step. */
  lemma ScheduleMembers(s: seq<Task>, now: int, x: Task)
    requires Sorted(s) && Positive(s)
    ensures x in Scheduled(s, now) <==> exists t :: t in s && x == Step(t, now)
  {
    hide Scheduled, Steps, Step, Sorted, Positive;
    ScheduleCounts(s, now);
    InSteps(s, now, x);
    assert x in Scheduled(s, now) <==> x in multiset(Scheduled(s, now));
  }

  lemma ScheduleOnly(s: seq<Task>, t: Task, now: int)
    requires Sorted(s) && Positive(s) && Only(s, t)
    ensures Only(Scheduled(s, now), Step(t, now))
  {
    hide Scheduled, Sorted, Positive;
    ScheduleCounts(s, now);
    StepsOnly(s, t, now);
    forall x | x in Scheduled(s, now) && x.func == t.func ensures x == Step(t, now) {
      ScheduleMembers(s, now, x);
      var u :| u in s && x == Step(u, now);
      assert u == t;
    }
  }

  lemma ScheduleAbsent(s: seq<Task>, func: int, now: int)
    requires Sorted(s) && Positive(s) && Absent(s, func)
    ensures Absent(Scheduled(s, now), func)
  {
    hide Scheduled, Sorted, Positive;
    forall x | x in Scheduled(s, now) ensures x.func != func {
      ScheduleMembers(s, now, x);
    }
  }

  lemma InsertMembers(s: seq<Task>, u: Task, x: Task)
    ensures x in Insert(s, u) <==> x in s || x == u
    ensures multiset(Insert(s, u))[x] == multiset(s)[x] + if x == u then 1 else 0
  {
    hide Insert;
    InsertCounts(s, u);
    assert x in Insert(s, u) <==> x in multiset(Insert(s, u));
  }

  lemma InsertOnly(s: seq<Task>, u: Task, t: Task)
    ensures u.func != t.func && Only(s, t) ==> Only(Insert(s, u), t)
    ensures u == t && Absent(s, t.func) ==> Only(Insert(s, u), t)
    ensures u.func != t.func && Absent(s, t.func) ==> Absent(Insert(s, u), t.func)
  {
    hide Insert;
    InsertMembers(s, u, t);
    forall x ensures x in Insert(s, u) <==> x in s || x == u {
      InsertMembers(s, u, x);
    }
  }

  lemma ScheduleKeeps(s: seq<Task>, now: int)
    requires Sorted(s) && Positive(s)
    ensures Sorted(Scheduled(s, now)) && Positive(Scheduled(s, now)) && Later(Scheduled(s, now), now)
  {
    hide Insert;
    Split(s, now);
    RearmKeeps(s[Place(s, now)..], s[..Place(s, now)], now);
  }

  lemma {:induction false} RearmKeeps(rest: seq<Task>, due: seq<Task>, now: int)
    requires Sorted(rest) && Positive(rest) && Later(rest, now) && Positive(due)
    ensures Sorted(Rearm(rest, due, now)) && Positive(Rearm(rest, due, now)) && Later(Rearm(rest, due, now), now)
    decreases |due|
  {
    hide Insert, Sorted, Later;
    if due != [] {
      assert due[0].interval >= 1;
      InsertKeeps(rest, Next(due[0], now), now);
      RearmKeeps(Insert(rest, Next(due[0], now)), due[1..], now);
    }
  }

  lemma {:induction false} TasksValid(es: seq<Event>, n: nat)
    requires n <= |es|
    ensures Sorted(Tasks(es, n)) && Positive(Tasks(es, n))
  {
    hide Insert, Scheduled, Sorted, Positive;
    if n > 0 {
      TasksValid(es, n - 1);
      match es[n - 1]
      case Sched(now) => ScheduleKeeps(Tasks(es, n - 1), now);
      case Set(_, _, _) => InsertKeeps(Tasks(es, n - 1), TaskOf(es[n - 1]), 0);
    } else {
      NoTasks();
    }
  }

  lemma NoTasks()
    ensures Sorted([]) && Positive([])
  {
  }

  /** The event at `m` sets a task, and no other event sets one with that callback. */
  ghost predicate SetOnce(es: seq<Event>, m: nat) {
    && m < |es| && es[m].Set?
    && forall k :: 0 <= k < |es| && k != m && es[k].Set? ==> es[k].func != es[m].func
  }

  /** The entry of the task set at `m` after the first `n` events, as those schedules make it by themselves. */
  function Entry(es: seq<Event>, m: nat, n: nat): Task
    requires m < n <= |es| && es[m].Set?
  {
    if n == m + 1 then TaskOf(es[m]) else
    match es[n - 1]
    case Sched(now) => Step(Entry(es, m, n - 1), now)
    case Set(_, _, _) => Entry(es, m, n - 1)
  }

  lemma {:induction false} EntryKeeps(es: seq<Event>, m: nat, n: nat)
    requires m < n <= |es| && es[m].Set?
    ensures Entry(es, m, n).interval == TaskOf(es[m]).interval && Entry(es, m, n).func == es[m].func
  {
    if n > m + 1 {
      EntryKeeps(es, m, n - 1);
    }
  }

  lemma {:induction false} NotYetSet(es: seq<Event>, m: nat, n: nat)
    requires SetOnce(es, m) && n <= m
    ensures Absent(Tasks(es, n), es[m].func)
  {
    hide Insert, Scheduled, Absent;
    if n > 0 {
      NotYetSet(es, m, n - 1);
      TasksValid(es, n - 1);
      match es[n - 1]
      case Sched(now) => ScheduleAbsent(Tasks(es, n - 1), es[m].func, now);
      case Set(_, _, _) => InsertOnly(Tasks(es, n - 1), TaskOf(es[n - 1]), TaskOf(es[m]));
    } else {
      NoneAbsent(es[m].func);
    }
  }

  lemma NoneAbsent(func: int)
    ensures Absent([], func)
  {
  }

  /** Every task goes its own way: no other task, whenever it is set, delays, hurries or doubles it. */
  lemma {:induction false} TaskOnItsOwn(es: seq<Event>, m: nat, n: nat)
    requires SetOnce(es, m) && m < n <= |es|
    ensures Only(Tasks(es, n), Entry(es, m, n))
  {
    hide Insert, Scheduled, Step, Only, Absent;
    var s := Tasks(es, n - 1);
    TasksValid(es, n - 1);
    if n == m + 1 {
      NotYetSet(es, m, m);
      InsertOnly(s, TaskOf(es[m]), TaskOf(es[m]));
    } else {
      TaskOnItsOwn(es, m, n - 1);
      EntryKeeps(es, m, n - 1);
      match es[n - 1]
      case Sched(now) => ScheduleOnly(s, Entry(es, m, n - 1), now);
      case Set(_, _, _) => InsertOnly(s, TaskOf(es[n - 1]), Entry(es, m, n - 1));
    }
  }

  // ---------- punctuality ----------

  /** A callback is made in the event at `k`. */
  ghost predicate Runs(es: seq<Event>, func: int, k: nat)
    requires k < |es|
  {
    exists u :: u in RunBy(es, k) && u.func == func
  }

  /** It is made in a schedule exactly when its own entry is due, and then (`RunsOnce`) once. */
  lemma RunsWhenDue(es: seq<Event>, m: nat, k: nat)
    requires SetOnce(es, m) && m < k < |es|
    ensures Runs(es, es[m].func, k) <==> es[k].Sched? && Entry(es, m, k).due <= es[k].time
  {
    RunsOnce(es, m, k);
  }

  lemma RunsOnce(es: seq<Event>, m: nat, k: nat)
    requires SetOnce(es, m) && m < k < |es|
    ensures Runs(es, es[m].func, k) <==> es[k].Sched? && Entry(es, m, k).due <= es[k].time
    ensures Runs(es, es[m].func, k) ==> Only(RunBy(es, k), Entry(es, m, k))
  {
    if es[k].Sched? {
      var s, t, now := Tasks(es, k), Entry(es, m, k), es[k].time;
      TaskOnItsOwn(es, m, k);
      EntryKeeps(es, m, k);
      TasksValid(es, k);
      hide Tasks, Entry, Scheduled;
      Split(s, now);
      var p := Place(s, now);
      assert s == s[..p] + s[p..];
      assert forall u :: u in s[..p] ==> u in s;
      assert t in s[p..] ==> t.due > now;
      assert t in s[..p] ==> t.due <= now;
    }
  }

  /** A callback waiting to be made keeps its due time. */
  lemma {:induction false} EntryWaits(es: seq<Event>, m: nat, i: nat, j: nat)
    requires SetOnce(es, m) && m < i <= j < |es|
    requires forall k :: i <= k < j ==> !Runs(es, es[m].func, k)
    ensures Entry(es, m, j) == Entry(es, m, i)
    decreases j
  {
    hide Runs;
    if i < j {
      EntryWaits(es, m, i, j - 1);
      RunsWhenDue(es, m, j - 1);
    }
  }

  /** Time does not run backwards. */
  ghost predicate Chronological(es: seq<Event>) {
    forall j, k :: 0 <= j < k < |es| ==> es[j].time <= es[k].time
  }

  /** Of two schedules with none between them, the second comes at most `gap` after the first. */
  ghost predicate Regular(es: seq<Event>, gap: int) {
    forall j, k :: 0 <= j < k < |es| && Adjacent(es, j, k) ==> es[k].time <= es[j].time + gap
  }

  ghost predicate Adjacent(es: seq<Event>, j: nat, k: nat)
    requires j < k < |es|
  {
    es[j].Sched? && es[k].Sched? && forall i :: j < i < k ==> !es[i].Sched?
  }

  /** Some schedule before the one at `j` is adjacent to it, if there is any. */
  lemma ScheduleBefore(es: seq<Event>, i: nat, j: nat) returns (k: nat)
    requires i < j < |es| && es[i].Sched? && es[j].Sched?
    ensures i <= k < j && Adjacent(es, k, j)
  {
    k := j - 1;
    while !es[k].Sched?
      invariant i <= k < j && forall l :: k < l < j ==> !es[l].Sched?
      decreases k
    {
      k := k - 1;
    }
  }

  /** After its callback has been made an entry is due its interval later. */
  lemma EntryNext(es: seq<Event>, m: nat, i: nat)
    requires SetOnce(es, m) && m < i < |es| && Runs(es, es[m].func, i)
    ensures es[i].Sched? && Entry(es, m, i + 1).due == es[i].time + TaskOf(es[m]).interval
  {
    hide Runs;
    RunsWhenDue(es, m, i);
    EntryKeeps(es, m, i);
  }

  /**
   A callback waiting from `i` on and made at `j` is made less than the gap after it was due, unless no
   schedule went before.
   */
  lemma NotLate(es: seq<Event>, m: nat, gap: int, i: nat, j: nat, first: nat)
    requires SetOnce(es, m) && Chronological(es) && Regular(es, gap) && m < i <= j < |es|
    requires Runs(es, es[m].func, j) && forall k :: i <= k < j ==> !Runs(es, es[m].func, k)
    requires first < j && es[first].Sched? && es[i - 1].time < Entry(es, m, i).due
    ensures Entry(es, m, i).due <= es[j].time < Entry(es, m, i).due + gap
  {
    hide Runs, SetOnce, Entry, Adjacent, Chronological, Regular;
    EntryWaits(es, m, i, j);
    RunsWhenDue(es, m, j);
    var k := ScheduleBefore(es, first, j);
    InGap(es, gap, k, j);
    if k >= i {
      RunsWhenDue(es, m, k);
      EntryWaits(es, m, i, k);
    } else {
      InOrder(es, k, i - 1);
    }
  }

  lemma InOrder(es: seq<Event>, j: nat, k: nat)
    requires Chronological(es) && j <= k < |es|
    ensures es[j].time <= es[k].time
  {
  }

  lemma InGap(es: seq<Event>, gap: int, j: nat, k: nat)
    requires Regular(es, gap) && j < k < |es| && Adjacent(es, j, k)
    ensures es[j].Sched? && es[k].time <= es[j].time + gap
  {
  }

  /**
   Over any run of a timer, two consecutive calls of a task's callback are at least its interval apart,
   and less than its interval plus the largest gap between two schedules.
   */
  lemma Punctual(es: seq<Event>, m: nat, gap: int, i: nat, j: nat)
    requires SetOnce(es, m) && Chronological(es) && Regular(es, gap) && m < i < j < |es|
    requires Runs(es, es[m].func, i) && Runs(es, es[m].func, j)
    requires forall k :: i < k < j ==> !Runs(es, es[m].func, k)
    ensures var interval := if es[m].interval >= 1 then es[m].interval else 1;
      interval <= es[j].time - es[i].time < interval + gap
  {
    hide Runs, Entry, Regular, Chronological;
    EntryNext(es, m, i);
    NotLate(es, m, gap, i + 1, j, i);
  }

  /**
   The first call comes no earlier than its interval after the task was set, and, if there was a
   schedule before it at all, less than its interval plus the gap after.
   */
  lemma FirstRun(es: seq<Event>, m: nat, gap: int, j: nat)
    requires SetOnce(es, m) && Chronological(es) && Regular(es, gap) && m < j < |es|
    requires Runs(es, es[m].func, j) && forall k :: m < k < j ==> !Runs(es, es[m].func, k)
    ensures var interval := if es[m].interval >= 1 then es[m].interval else 1;
      && interval <= es[j].time - es[m].time
      && ((exists k :: 0 <= k < j && es[k].Sched?) ==> es[j].time - es[m].time < interval + gap)
  {
    hide Runs, Regular, Chronological;
    EntryWaits(es, m, m + 1, j);
    RunsWhenDue(es, m, j);
    if k :| 0 <= k < j && es[k].Sched? {
      NotLate(es, m, gap, m + 1, j, k);
    }
  }
}
