/** The task schedule: a list of tasks kept sorted by the time they are due, with every task
    knowing whether it is on the list. Each API call is one step. */
module TaskSchedule {

  type Id(==, !new)

  const MIN_REPEAT: int := 60  // seconds
  const DEFAULT_MAX_DELAY: int := 60

  /** executeAt zero is the zero time: not due at all. scheduled stands for the pointer to the
      task's list element; onlineSoon for whether its module is, or is about to be, online. */
  datatype Task = Task(
    executeAt: int, overtime: bool, scheduled: bool, executing: bool,
    canceled: bool, onlineSoon: bool, repeat: int, maxDelay: int)
  {
    predicate IsActive() {
      !canceled && onlineSoon
    }
  }

  /** Being taken off the schedule clears the overtime mark. */
  function OffSchedule(task: Task): Task {
    task.(scheduled := false, overtime := !task.scheduled && task.overtime)
  }

  /** A task created while its module is neither online nor starting is canceled from the start. */
  function NewTaskOf(onlineSoon: bool): Task {
    Task(0, false, false, false, !onlineSoon, onlineSoon, 0, if onlineSoon then DEFAULT_MAX_DELAY else 0)
  }

  /** A task once its run has been tried: off the schedule, and executing if it can be. */
  function Tried(task: Task, contextDone: bool): (r: Task)
    ensures !task.executing ==> (r.executing <==> !task.canceled && task.onlineSoon && !contextDone)
    ensures r == if r.executing && !task.executing then OffSchedule(task).(executing := true, executeAt := 0) else OffSchedule(task)
  {
    if !task.executing && task.IsActive() && !contextDone
    then OffSchedule(task).(executing := true, executeAt := 0)
    else OffSchedule(task)
  }

  // ----- lists

  function Without(l: seq<Id>, t: Id): seq<Id> {
    if l == [] then [] else (if l[0] == t then [] else [l[0]]) + Without(l[1..], t)
  }

  lemma {:induction false} WithoutAppend(a: seq<Id>, b: seq<Id>, t: Id)
    ensures Without(a + b, t) == Without(a, t) + Without(b, t)
  {
    if a == [] {
      assert a + b == b;
    } else {
      assert (a + b)[1..] == a[1..] + b;
      WithoutAppend(a[1..], b, t);
    }
  }

  lemma {:induction false} WithoutElements(l: seq<Id>, t: Id)
    ensures forall x :: x in Without(l, t) <==> x in l && x != t
    ensures t !in l ==> Without(l, t) == l
  {
    if l != [] {
      assert l == [l[0]] + l[1..];
      WithoutElements(l[1..], t);
    }
  }

  ghost predicate Distinct(l: seq<Id>) {
    forall i, j | 0 <= i < j < |l| :: l[i] != l[j]
  }

  lemma {:induction false} WithoutDistinct(l: seq<Id>, t: Id)
    requires Distinct(l)
    ensures Distinct(Without(l, t))
  {
    if l != [] {
      WithoutDistinct(l[1..], t);
      WithoutElements(l[1..], t);
      assert l[0] !in l[1..];
      if l[0] != t { InsertDistinct([], l[0], Without(l[1..], t)); }
      assert [] + [l[0]] + Without(l[1..], t) == [l[0]] + Without(l[1..], t);
    }
  }

  lemma InsertDistinct(a: seq<Id>, t: Id, b: seq<Id>)
    requires Distinct(a + b) && t !in a && t !in b
    ensures Distinct(a + [t] + b)
  {
    var l, w := a + [t] + b, a + b;
    assert forall i | 0 <= i < |a| :: l[i] == a[i] == w[i];
    assert forall i | |a| < i < |l| :: l[i] == b[i - |a| - 1] == w[i - 1];
  }

  ghost predicate Known(l: seq<Id>, tasks: map<Id, Task>) {
    forall x | x in l :: x in tasks
  }

  ghost predicate Sorted(l: seq<Id>, tasks: map<Id, Task>)
    requires Known(l, tasks)
  {
    forall i, j | 0 <= i < j < |l| :: tasks[l[i]].executeAt <= tasks[l[j]].executeAt
  }

  lemma SortedCons(x: Id, w: seq<Id>, tasks: map<Id, Task>)
    requires x in tasks && Known(w, tasks) && Sorted(w, tasks)
    requires forall y | y in w :: tasks[x].executeAt <= tasks[y].executeAt
    ensures Known([x] + w, tasks) && Sorted([x] + w, tasks)
  {
    var l := [x] + w;
    assert forall i | 1 <= i < |l| :: l[i] == w[i - 1] && l[i] in w;
  }

  lemma {:induction false} WithoutSorted(l: seq<Id>, t: Id, tasks: map<Id, Task>)
    requires Known(l, tasks) && Sorted(l, tasks)
    ensures Known(Without(l, t), tasks) && Sorted(Without(l, t), tasks)
  {
    if l != [] {
      var rest := l[1..];
      assert forall i | 0 <= i < |rest| :: rest[i] == l[i + 1];
      WithoutSorted(rest, t, tasks);
      WithoutElements(rest, t);
      if l[0] != t { SortedCons(l[0], Without(rest, t), tasks); }
    }
  }

  /** The list with t moved, or inserted, to just before what is now at index i. */
  function PlacedBefore(l: seq<Id>, t: Id, i: nat): seq<Id>
    requires i <= |l|
  {
    Without(l[..i], t) + [t] + Without(l[i..], t)
  }

  /** t comes after everything due no later and before everything due strictly later. */
  ghost predicate InItsPlace(l: seq<Id>, t: Id, tasks: map<Id, Task>)
    requires Known(l, tasks) && t in tasks
  {
    forall i, j | 0 <= i < j < |l| ::
      (l[j] == t ==> tasks[l[i]].executeAt <= tasks[t].executeAt)
      && (l[i] == t ==> tasks[t].executeAt < tasks[l[j]].executeAt)
  }

  lemma PlacedElements(l: seq<Id>, t: Id, i: nat)
    requires i <= |l| && Distinct(l)
    ensures forall x :: x in PlacedBefore(l, t, i) <==> x in l || x == t
    ensures Distinct(PlacedBefore(l, t, i))
  {
    assert l == l[..i] + l[i..];
    WithoutAppend(l[..i], l[i..], t);
    WithoutElements(l[..i], t);
    WithoutElements(l[i..], t);
    WithoutDistinct(l, t);
    InsertDistinct(Without(l[..i], t), t, Without(l[i..], t));
  }

  lemma {:induction false} WithoutInserted(a: seq<Id>, t: Id, b: seq<Id>)
    requires t !in a && t !in b
    ensures Without(a + [t] + b, t) == a + b
  {
    var l := a + [t] + b;
    if a == [] {
      assert l[1..] == b;
      WithoutElements(b, t);
    } else {
      assert l[1..] == a[1..] + [t] + b;
      WithoutInserted(a[1..], t, b);
    }
  }

  /** The others keep their order. */
  lemma PlacedKeepsOthers(l: seq<Id>, t: Id, i: nat)
    requires i <= |l|
    ensures Without(PlacedBefore(l, t, i), t) == Without(l, t)
  {
    assert l == l[..i] + l[i..];
    WithoutAppend(l[..i], l[i..], t);
    WithoutElements(l[..i], t);
    WithoutElements(l[i..], t);
    WithoutInserted(Without(l[..i], t), t, Without(l[i..], t));
  }

  lemma PlacedSorted(l: seq<Id>, t: Id, i: nat, tasks: map<Id, Task>)
    requires i <= |l| && Known(l, tasks) && t in tasks && Distinct(l)
    requires Known(Without(l, t), tasks) && Sorted(Without(l, t), tasks)
    requires forall x | x in l[..i] && x != t :: tasks[x].executeAt <= tasks[t].executeAt
    requires i < |l| ==> l[i] != t && tasks[t].executeAt < tasks[l[i]].executeAt
    ensures Known(PlacedBefore(l, t, i), tasks) && Sorted(PlacedBefore(l, t, i), tasks)
    ensures InItsPlace(PlacedBefore(l, t, i), t, tasks)
  {
    var a, b := Without(l[..i], t), Without(l[i..], t);
    WithoutParts(l, t, i);
    LaterOnes(a, b, t, tasks);
    PlacedBetween(a, t, b, tasks);
  }

  lemma WithoutParts(l: seq<Id>, t: Id, i: nat)
    requires i <= |l| && (i < |l| ==> l[i] != t)
    ensures var a, b := Without(l[..i], t), Without(l[i..], t);
      && Without(l, t) == a + b && t !in a && t !in b
      && (forall x | x in a :: x in l[..i] && x != t)
      && (if i < |l| then b != [] && b[0] == l[i] else b == [])
  {
    assert l == l[..i] + l[i..];
    WithoutAppend(l[..i], l[i..], t);
    WithoutElements(l[..i], t);
    WithoutElements(l[i..], t);
    if i < |l| { WithoutHead(l[i..], t); }
  }

  lemma WithoutHead(l: seq<Id>, t: Id)
    requires l != [] && l[0] != t
    ensures Without(l, t) != [] && Without(l, t)[0] == l[0]
  {
  }

  lemma LaterOnes(a: seq<Id>, b: seq<Id>, t: Id, tasks: map<Id, Task>)
    requires Known(a + b, tasks) && Sorted(a + b, tasks) && t in tasks
    requires b != [] ==> b[0] in tasks && tasks[t].executeAt < tasks[b[0]].executeAt
    ensures forall k | 0 <= k < |b| :: b[k] in tasks && tasks[t].executeAt < tasks[b[k]].executeAt
  {
    var w := a + b;
    assert forall k | 0 <= k < |b| :: b[k] == w[|a| + k] && w[|a| + k] in w;
  }

  lemma PlacedBetween(a: seq<Id>, t: Id, b: seq<Id>, tasks: map<Id, Task>)
    requires Known(a + b, tasks) && Sorted(a + b, tasks) && t in tasks && t !in a && t !in b
    requires forall k | 0 <= k < |b| :: tasks[t].executeAt < tasks[b[k]].executeAt
    requires forall x | x in a :: tasks[x].executeAt <= tasks[t].executeAt
    ensures Known(a + [t] + b, tasks) && Sorted(a + [t] + b, tasks) && InItsPlace(a + [t] + b, t, tasks)
  {
    var l, w := a + [t] + b, a + b;
    assert forall i | 0 <= i < |a| :: l[i] == a[i] == w[i];
    assert forall i | |a| < i < |l| :: l[i] == b[i - |a| - 1] == w[i - 1];
  }

  /** Every task is on the list at most once, and knows whether it is. */
  ghost predicate Consistent(l: seq<Id>, tasks: map<Id, Task>) {
    && Known(l, tasks)
    && Distinct(l)
    && forall x | x in tasks :: tasks[x].scheduled <==> x in l
  }

  lemma AddedProperties(l: seq<Id>, t: Id, i: nat, tasks: map<Id, Task>, task: Task)
    requires Consistent(l, tasks) && t in tasks && i <= |l|
    requires task.executeAt == tasks[t].executeAt && task.scheduled
    requires Known(Without(l, t), tasks) && Sorted(Without(l, t), tasks)
    requires forall x | x in l[..i] && x != t :: tasks[x].executeAt <= tasks[t].executeAt
    requires i < |l| ==> l[i] != t && tasks[t].executeAt < tasks[l[i]].executeAt
    ensures var l', tasks' := PlacedBefore(l, t, i), tasks[t := task];
      && Consistent(l', tasks') && Sorted(l', tasks') && t in l' && InItsPlace(l', t, tasks')
      && Without(l', t) == Without(l, t)
  {
    PlacedElements(l, t, i);
    PlacedKeepsOthers(l, t, i);
    PlacedSorted(l, t, i, tasks);
    SortedByKeys(PlacedBefore(l, t, i), t, tasks, tasks[t := task]);
  }

  lemma SortedByKeys(l: seq<Id>, t: Id, tasks: map<Id, Task>, tasks': map<Id, Task>)
    requires Known(l, tasks) && Sorted(l, tasks) && t in tasks && InItsPlace(l, t, tasks)
    requires tasks'.Keys == tasks.Keys && forall x | x in tasks :: tasks'[x].executeAt == tasks[x].executeAt
    ensures Known(l, tasks') && Sorted(l, tasks') && InItsPlace(l, t, tasks')
  {
  }

  /** Changing one key, or nothing but one key, leaves the others sorted. */
  lemma OthersStaySorted(l: seq<Id>, t: Id, tasks: map<Id, Task>, task: Task)
    requires Known(l, tasks) && Sorted(l, tasks) && t in tasks
    ensures Known(Without(l, t), tasks[t := task]) && Sorted(Without(l, t), tasks[t := task])
  {
    WithoutSorted(l, t, tasks);
    WithoutElements(l, t);
    var w := Without(l, t);
    assert forall i | 0 <= i < |w| :: w[i] in w && w[i] != t;
  }

  /** The two neighbours of t, as far as it has any, are due no later and no earlier than at. */
  ghost predicate Tolerates(l: seq<Id>, t: Id, tasks: map<Id, Task>, at: int)
    requires Known(l, tasks)
  {
    forall i | 0 <= i < |l| && l[i] == t ::
      (i > 0 ==> tasks[l[i - 1]].executeAt <= at) && (i + 1 < |l| ==> at <= tasks[l[i + 1]].executeAt)
  }

  lemma RekeyedInPlace(l: seq<Id>, t: Id, tasks: map<Id, Task>, task: Task)
    requires Known(l, tasks) && Distinct(l) && Sorted(l, tasks) && t in tasks
    ensures Known(l, tasks[t := task])
    ensures Sorted(l, tasks[t := task]) <==> Tolerates(l, t, tasks, task.executeAt)
  {
    var tasks' := tasks[t := task];
    if Sorted(l, tasks') {
      forall i | 0 <= i < |l| && l[i] == t
        ensures i > 0 ==> tasks[l[i - 1]].executeAt <= task.executeAt
        ensures i + 1 < |l| ==> task.executeAt <= tasks[l[i + 1]].executeAt
      {
        if i > 0 { assert tasks'[l[i - 1]].executeAt <= tasks'[l[i]].executeAt && l[i - 1] != l[i]; }
        if i + 1 < |l| { assert tasks'[l[i]].executeAt <= tasks'[l[i + 1]].executeAt && l[i] != l[i + 1]; }
      }
    }
    if Tolerates(l, t, tasks, task.executeAt) {
      forall i, j | 0 <= i < j < |l| ensures tasks'[l[i]].executeAt <= tasks'[l[j]].executeAt {
        assert l[i] != l[j];
        if l[i] == t {
          assert tasks[l[i + 1]].executeAt <= tasks[l[j]].executeAt;
        } else if l[j] == t {
          assert tasks[l[i]].executeAt <= tasks[l[j - 1]].executeAt;
        }
      }
    }
  }

  // ----- the run queues

  /** Tasks waiting to be run: the prioritized ones come first. */
  datatype Queues = Queues(normal: seq<Id>, prioritized: seq<Id>)

  datatype Urgency = Normally | Prioritized | Next

  /** Where Queue, QueuePrioritized and StartASAP put a task; only the last one moves it. */
  function Enqueued(q: Queues, t: Id, urgency: Urgency): Queues {
    match urgency
    case Normally => if t in q.normal then q else q.(normal := q.normal + [t])
    case Prioritized => if t in q.prioritized then q else q.(prioritized := q.prioritized + [t])
    case Next => q.(prioritized := [t] + Without(q.prioritized, t))
  }

  function Dequeued(q: Queues, t: Id): Queues {
    Queues(Without(q.normal, t), Without(q.prioritized, t))
  }

  /** Every task is at most once in each queue. */
  ghost predicate QueuesOk(q: Queues, tasks: map<Id, Task>) {
    Distinct(q.normal) && Distinct(q.prioritized) && Known(q.normal, tasks) && Known(q.prioritized, tasks)
  }

  lemma EnqueuedOk(q: Queues, t: Id, urgency: Urgency, tasks: map<Id, Task>)
    requires QueuesOk(q, tasks) && t in tasks
    ensures QueuesOk(Enqueued(q, t, urgency), tasks)
  {
    WithoutElements(q.prioritized, t);
    WithoutDistinct(q.prioritized, t);
    InsertDistinct([], t, Without(q.prioritized, t));
    assert [] + [t] + Without(q.prioritized, t) == [t] + Without(q.prioritized, t);
    assert [] + Without(q.prioritized, t) == Without(q.prioritized, t);
  }

  /** t is on the queue, and the others are as they were. */
  ghost predicate Gains(l: seq<Id>, l': seq<Id>, t: Id) {
    t in l' && Without(l', t) == Without(l, t)
  }

  /** t has been put at the end, unless it was on the queue already. */
  ghost predicate LinedUp(l: seq<Id>, l': seq<Id>, t: Id) {
    Gains(l, l', t) && if t in l then l' == l else l'[|l'| - 1] == t
  }

  /** t is on the queue its urgency calls for, in its place, and the other queue is untouched. */
  ghost predicate QueuedAs(q: Queues, q': Queues, t: Id, urgency: Urgency) {
    match urgency
    case Normally => q'.prioritized == q.prioritized && LinedUp(q.normal, q'.normal, t)
    case Prioritized => q'.normal == q.normal && LinedUp(q.prioritized, q'.prioritized, t)
    case Next => q'.normal == q.normal && Gains(q.prioritized, q'.prioritized, t) && q'.prioritized[0] == t
  }

  lemma EnqueuedPlace(q: Queues, t: Id, urgency: Urgency)
    ensures QueuedAs(q, Enqueued(q, t, urgency), t, urgency)
  {
    match urgency
    case Normally => Appended(q.normal, t);
    case Prioritized => Appended(q.prioritized, t);
    case Next =>
      WithoutElements(q.prioritized, t);
      WithoutTwice(q.prioritized, t);
      assert ([t] + Without(q.prioritized, t))[1..] == Without(q.prioritized, t);
  }

  lemma Appended(l: seq<Id>, t: Id)
    ensures Gains(l, l + [t], t)
  {
    WithoutAppend(l, [t], t);
    assert t in l + [t];
    assert Without(l, t) + Without([t], t) == Without(l, t);
  }

  /** Queueing one after the other. */
  ghost function EnqueuedAll(q: Queues, ts: seq<Id>, urgency: Urgency): Queues
    decreases |ts|
  {
    if ts == [] then q else EnqueuedAll(Enqueued(q, ts[0], urgency), ts[1..], urgency)
  }

  /** Tasks that are queued one after the other are run in that order. */
  lemma {:induction false} FirstInFirstOut(q: Queues, ts: seq<Id>)
    requires Distinct(q.normal + ts)
    ensures EnqueuedAll(q, ts, Normally) == Queues(q.normal + ts, q.prioritized)
    decreases |ts|
  {
    if ts == [] {
      assert q.normal + ts == q.normal;
    } else {
      var l := q.normal + ts;
      assert forall i | 0 <= i < |q.normal| :: l[i] == q.normal[i] && l[i] != l[|q.normal|];
      assert ts[0] !in q.normal;
      assert q.normal + [ts[0]] + ts[1..] == l;
      FirstInFirstOut(q.(normal := q.normal + [ts[0]]), ts[1..]);
    }
  }

  lemma DequeuedOk(q: Queues, t: Id, tasks: map<Id, Task>)
    requires QueuesOk(q, tasks)
    ensures QueuesOk(Dequeued(q, t), tasks) && t !in Dequeued(q, t).normal && t !in Dequeued(q, t).prioritized
    ensures forall x | x in q.normal && x != t :: x in Dequeued(q, t).normal
    ensures forall x | x in q.prioritized && x != t :: x in Dequeued(q, t).prioritized
  {
    WithoutElements(q.prioritized, t);
    WithoutDistinct(q.prioritized, t);
    WithoutElements(q.normal, t);
    WithoutDistinct(q.normal, t);
  }

  lemma BothQueued(t: Id, u: Id)
    requires t != u
    ensures Enqueued(Queues([], []), t, Normally) == Queues([t], [])
    ensures Enqueued(Queues([t], []), u, Normally) == Queues([t, u], [])
    ensures Dequeued(Queues([t, u], []), t) == Queues([u], [])
  {
    assert [t] + [u] == [t, u] && [t, u][1..] == [u];
    WithoutElements([u], t);
  }

  /** Nothing about a task but its place on the schedule differs. */
  predicate SameFlags(a: Task, b: Task) {
    b == a.(executeAt := b.executeAt, overtime := b.overtime, scheduled := b.scheduled)
  }

  lemma QueuesStay(q: Queues, tasks: map<Id, Task>, tasks': map<Id, Task>)
    requires QueuesOk(q, tasks) && tasks.Keys <= tasks'.Keys
    ensures QueuesOk(q, tasks')
  {
    assert forall x | x in tasks :: x in tasks'.Keys;
  }

  lemma SetTwice(tasks: map<Id, Task>, t: Id, a: Task, b: Task)
    ensures tasks[t := a][t := b] == tasks[t := b]
  {
  }

  /** Replacing a task by one with the same key and mark changes nothing about the list. */
  lemma SameKeyStays(l: seq<Id>, t: Id, tasks: map<Id, Task>, task: Task)
    requires Consistent(l, tasks) && Sorted(l, tasks) && t in tasks
    requires task.executeAt == tasks[t].executeAt && task.scheduled == tasks[t].scheduled
    ensures Consistent(l, tasks[t := task]) && Sorted(l, tasks[t := task])
  {
  }

  // ----- the schedule

  class Schedule {
    var list: seq<Id>
    var tasks: map<Id, Task>
    var queues: Queues

    ghost predicate Linked()
      reads this
    {
      Consistent(list, tasks) && QueuesOk(queues, tasks)
    }

    ghost predicate Valid()
      reads this
    {
      Linked() && Sorted(list, tasks)
    }

    constructor ()
      ensures Valid() && list == [] && tasks == map[] && queues == Queues([], [])
    {
      list, tasks, queues := [], map[], Queues([], []);
    }

    method NewTask(t: Id, onlineSoon: bool)
      requires Valid() && t !in tasks
      modifies `tasks
      ensures Valid() && tasks == old(tasks)[t := NewTaskOf(onlineSoon)]
      ensures tasks[t].IsActive() == onlineSoon == !tasks[t].canceled && !tasks[t].scheduled && !tasks[t].executing
    {
      QueuesStay(queues, tasks, tasks[t := NewTaskOf(onlineSoon)]);
      tasks := tasks[t := NewTaskOf(onlineSoon)];
    }

    /** Changes what has nothing to do with the place of a task. */
    method Set(t: Id, task: Task)
      requires Valid() && t in tasks && task.executeAt == tasks[t].executeAt && task.scheduled == tasks[t].scheduled
      modifies `tasks
      ensures Valid() && tasks == old(tasks)[t := task]
    {
      SameKeyStays(list, t, tasks, task);
      QueuesStay(queues, tasks, tasks[t := task]);
      tasks := tasks[t := task];
    }

    method MaxDelay(t: Id, maxDelay: int)
      requires Valid() && t in tasks
      modifies `tasks
      ensures Valid() && tasks == old(tasks)[t := old(tasks)[t].(maxDelay := maxDelay)]
    {
      Set(t, tasks[t].(maxDelay := maxDelay));
    }

    /** The module of a task starts or stops. */
    method ModuleChange(t: Id, onlineSoon: bool)
      requires Valid() && t in tasks
      modifies `tasks
      ensures Valid() && tasks == old(tasks)[t := old(tasks)[t].(onlineSoon := onlineSoon)]
      ensures tasks[t].IsActive() <==> onlineSoon && !old(tasks)[t].canceled
    {
      Set(t, tasks[t].(onlineSoon := onlineSoon));
    }

    /** addToSchedule: only the key of t may have changed since the list was sorted. */
    method AddToSchedule(t: Id, overtime: bool)
      requires Linked() && t in tasks && Known(Without(list, t), tasks) && Sorted(Without(list, t), tasks)
      modifies `list, `tasks
      ensures Linked()
      ensures !old(tasks)[t].IsActive() ==> list == old(list) && tasks == old(tasks)
      ensures old(tasks)[t].IsActive() ==>
        && Sorted(list, tasks) && t in list && InItsPlace(list, t, tasks)
        && Without(list, t) == Without(old(list), t)
        && tasks == old(tasks)[t := old(tasks)[t].(overtime := overtime || old(tasks)[t].overtime, scheduled := true)]
    {
      if !tasks[t].IsActive() { return; }
      var task := tasks[t];
      if overtime { task := task.(overtime := true); }
      var i := 0;
      while i < |list| && (list[i] == t || task.executeAt >= tasks[list[i]].executeAt)
        invariant 0 <= i <= |list|
        invariant forall x | x in list[..i] && x != t :: tasks[x].executeAt <= task.executeAt
      {
        assert list[..i + 1] == list[..i] + [list[i]];
        i := i + 1;
      }
      AddedProperties(list, t, i, tasks, task.(scheduled := true));
      QueuesStay(queues, tasks, tasks[t := task.(scheduled := true)]);
      list := PlacedBefore(list, t, i);
      tasks := tasks[t := task.(scheduled := true)];
    }

    /** What Schedule, Repeat and queueing do: the task gets a new time, and then its place unless it
        is inactive. An inactive task is left where it is, which keeps the list sorted exactly if its
        neighbours tolerate the time. */
    method Rekey(t: Id, task: Task, overtime: bool)
      requires Valid() && t in tasks && task.scheduled == tasks[t].scheduled
      modifies `list, `tasks
      ensures Linked() && Without(list, t) == Without(old(list), t)
      ensures !task.IsActive() ==> list == old(list) && tasks == old(tasks)[t := task]
      ensures !task.IsActive() ==> (Sorted(list, tasks) <==> Tolerates(old(list), t, old(tasks), task.executeAt))
      ensures task.IsActive() ==> Sorted(list, tasks) && t in list && t in tasks && InItsPlace(list, t, tasks)
      ensures task.IsActive() ==> tasks == old(tasks)[t := task.(overtime := overtime || task.overtime, scheduled := true)]
    {
      OthersStaySorted(list, t, tasks, task);
      RekeyedInPlace(list, t, tasks, task);
      QueuesStay(queues, tasks, tasks[t := task]);
      tasks := tasks[t := task];
      AddToSchedule(t, overtime);
    }

    /** removeFromQueues: the task is taken off the run queues and the schedule. */
    method Remove(t: Id)
      requires Linked() && t in tasks
      modifies this
      ensures Linked() && list == Without(old(list), t) && t !in list && queues == Dequeued(old(queues), t)
      ensures tasks == old(tasks)[t := OffSchedule(old(tasks)[t])]
      ensures Known(Without(old(list), t), old(tasks)) && Sorted(Without(old(list), t), old(tasks)) ==> Sorted(list, tasks)
    {
      WithoutElements(list, t);
      WithoutDistinct(list, t);
      DequeuedOk(queues, t, tasks);
      queues := Dequeued(queues, t);
      if tasks[t].scheduled {
        QueuesStay(queues, tasks, tasks[t := tasks[t].(scheduled := false, overtime := false)]);
        list := Without(list, t);
        tasks := tasks[t := tasks[t].(scheduled := false, overtime := false)];
      }
    }

    /** Queue, QueuePrioritized and StartASAP: an active task is put on its run queue and, with a
        maximum delay, also on the schedule, to be run at the latest after that delay. */
    method Enqueue(t: Id, now: int, urgency: Urgency)
      requires Valid() && t in tasks
      modifies this
      ensures Valid()
      ensures queues == if old(tasks)[t].IsActive() then Enqueued(old(queues), t, urgency) else old(queues)
      ensures old(tasks)[t].IsActive() ==> QueuedAs(old(queues), queues, t, urgency)
      ensures !old(tasks)[t].IsActive() || old(tasks)[t].maxDelay == 0 ==> list == old(list) && tasks == old(tasks)
      ensures old(tasks)[t].IsActive() && old(tasks)[t].maxDelay != 0 ==>
        && t in list && InItsPlace(list, t, tasks) && Without(list, t) == Without(old(list), t)
        && tasks == old(tasks)[t := old(tasks)[t].(
             executeAt := now + old(tasks)[t].maxDelay, overtime := true, scheduled := true)]
      ensures t in tasks && SameFlags(old(tasks)[t], tasks[t]) && forall x | x != t && x in old(tasks) :: x in tasks && tasks[x] == old(tasks)[x]
    {
      if !tasks[t].IsActive() { return; }
      EnqueuedOk(queues, t, urgency, tasks);
      EnqueuedPlace(queues, t, urgency);
      queues := Enqueued(queues, t, urgency);
      if tasks[t].maxDelay == 0 { return; }
      Rekey(t, tasks[t].(executeAt := now + tasks[t].maxDelay), true);
    }

    /** Schedule: an active task is moved to its place, and a zero time takes any task off the
        list. An inactive task is left where it is with its new key, which keeps the list sorted
        only if its neighbours tolerate the key. */
    method ScheduleAt(t: Id, at: int)
      requires Valid() && t in tasks
      modifies this
      ensures Linked()
      ensures tasks == old(tasks)[t := if at == 0 then OffSchedule(old(tasks)[t]).(executeAt := 0)
                                       else old(tasks)[t].(executeAt := at, scheduled := t in list)]
      ensures Without(list, t) == Without(old(list), t)
      ensures Valid() <==>
        at == 0 || old(tasks)[t].IsActive() || Tolerates(old(list), t, old(tasks), at)
      ensures at == 0 ==> t !in list
      ensures queues == if at == 0 then Dequeued(old(queues), t) else old(queues)
      ensures at != 0 ==> if old(tasks)[t].IsActive() then t in list && InItsPlace(list, t, tasks) else list == old(list)
    {
      if at == 0 {
        Unschedule(t);
      } else {
        Rekey(t, tasks[t].(executeAt := at), false);
      }
    }

    method Unschedule(t: Id)
      requires Valid() && t in tasks
      modifies this
      ensures Valid() && list == Without(old(list), t) && t !in list && queues == Dequeued(old(queues), t)
      ensures tasks == old(tasks)[t := OffSchedule(old(tasks)[t]).(executeAt := 0)] && Without(list, t) == Without(old(list), t)
    {
      OthersStaySorted(list, t, tasks, tasks[t].(executeAt := 0));
      WithoutTwice(list, t);
      QueuesStay(queues, tasks, tasks[t := tasks[t].(executeAt := 0)]);
      SetTwice(tasks, t, tasks[t].(executeAt := 0), OffSchedule(tasks[t]).(executeAt := 0));
      tasks := tasks[t := tasks[t].(executeAt := 0)];
      Remove(t);
    }

    /** Repeat: intervals below the minimum are raised to it; zero only switches repeating off.
        An inactive task is not moved, as in ScheduleAt. */
    method Repeat(t: Id, interval: int, now: int)
      requires Valid() && t in tasks
      modifies `list, `tasks
      ensures Linked() && t in tasks && Without(list, t) == Without(old(list), t)
      ensures interval == 0 ==>
        Valid() && list == old(list) && tasks == old(tasks)[t := old(tasks)[t].(repeat := 0)]
      ensures interval != 0 ==>
        tasks == old(tasks)[t := old(tasks)[t].(
          repeat := AtLeastMinimum(interval), executeAt := now + AtLeastMinimum(interval), scheduled := t in list)]
      ensures interval != 0 ==>
        (Valid() <==>
           old(tasks)[t].IsActive() || Tolerates(old(list), t, old(tasks), now + AtLeastMinimum(interval)))
      ensures interval != 0 && old(tasks)[t].IsActive() ==> t in list && InItsPlace(list, t, tasks)
    {
      if interval == 0 {
        Set(t, tasks[t].(repeat := 0));
      } else {
        var every := AtLeastMinimum(interval);
        Rekey(t, tasks[t].(repeat := every, executeAt := now + every), false);
      }
    }

    method Cancel(t: Id)
      requires Valid() && t in tasks
      modifies `tasks
      ensures Valid() && tasks == old(tasks)[t := old(tasks)[t].(canceled := true)] && !tasks[t].IsActive()
    {
      Set(t, tasks[t].(canceled := true));
    }

    /** runWithLocking up to the start of the task function: whatever becomes of the attempt, the
        task is off the schedule. */
    method Run(t: Id, contextDone: bool) returns (started: bool)
      requires Valid() && t in tasks
      modifies this
      ensures Valid() && list == Without(old(list), t) && t !in list
      ensures queues == Dequeued(old(queues), t) && tasks == old(tasks)[t := Tried(old(tasks)[t], contextDone)]
      ensures started <==> !old(tasks)[t].executing && old(tasks)[t].IsActive() && !contextDone
    {
      WithoutSorted(list, t, tasks);
      Remove(t);
      started := !tasks[t].executing && tasks[t].IsActive() && !contextDone;
      if started {
        RekeyedInPlace(list, t, tasks, tasks[t].(executing := true, executeAt := 0));
        QueuesStay(queues, tasks, tasks[t := tasks[t].(executing := true, executeAt := 0)]);
        tasks := tasks[t := tasks[t].(executing := true, executeAt := 0)];
      }
    }

    /** The end of an execution: a repeating task that did not reschedule itself is put back. */
    method Finish(t: Id, now: int)
      requires Valid() && t in tasks
      modifies `list, `tasks
      ensures Valid() && Without(list, t) == Without(old(list), t)
      ensures if old(tasks)[t].IsActive() && old(tasks)[t].repeat != 0 && old(tasks)[t].executeAt == 0 then
          && tasks == old(tasks)[t := old(tasks)[t].(
               executing := false, executeAt := now + old(tasks)[t].repeat, scheduled := true)]
          && t in list && InItsPlace(list, t, tasks)
        else
          tasks == old(tasks)[t := old(tasks)[t].(executing := false)] && list == old(list)
    {
      var task := tasks[t].(executing := false);
      if task.IsActive() && task.repeat != 0 && task.executeAt == 0 {
        Rekey(t, task.(executeAt := now + task.repeat), false);
      } else {
        Set(t, task);
      }
    }

    /** One turn of taskScheduleHandler: the head is run if its maximum delay is up, and
        otherwise put in front of the queue, with its maximum delay as the new deadline. */
    method HandlerTurn(now: int, contextDone: bool)
      requires Valid()
      modifies this
      ensures Valid() && tasks.Keys == old(tasks).Keys
      ensures old(list) == [] ==> list == [] && tasks == old(tasks) && queues == old(queues)
      ensures old(list) != [] ==>
        var t := old(list)[0];
        && Without(list, t) == Without(old(list), t)
        && (forall x | x in tasks && x != t :: tasks[x] == old(tasks)[x])
        && (old(tasks)[t].overtime ==>
              && t !in list && queues == Dequeued(old(queues), t)
              && tasks[t] == Tried(old(tasks)[t].(overtime := false), contextDone))
        && (!old(tasks)[t].overtime ==> queues == if old(tasks)[t].IsActive() then Enqueued(old(queues), t, Next) else old(queues))
        && (!old(tasks)[t].overtime ==> t in list && tasks[t].overtime)
        && (!old(tasks)[t].overtime ==>
              if old(tasks)[t].IsActive() && old(tasks)[t].maxDelay != 0
              then tasks[t].executeAt == now + old(tasks)[t].maxDelay && InItsPlace(list, t, tasks)
              else list == old(list) && tasks[t].executeAt == old(tasks)[t].executeAt)
    {
      if list == [] { return; }
      var t := list[0];
      WithoutTwice(list, t);
      if tasks[t].overtime {
        Set(t, tasks[t].(overtime := false));
        var _ := Run(t, contextDone);
      } else {
        Set(t, tasks[t].(overtime := true));
        Enqueue(t, now, Next);
      }
    }

    /** One turn of taskQueueHandler: the first prioritized task, or else the first other one, is run
        and is then off both queues and the schedule. */
    method QueueTurn(contextDone: bool) returns (ran: bool)
      requires Valid()
      modifies this
      ensures Valid()
      ensures ran <==> old(queues) != Queues([], [])
      ensures !ran ==> list == old(list) && tasks == old(tasks) && queues == old(queues)
      ensures ran ==>
        var t := if old(queues).prioritized != [] then old(queues).prioritized[0] else old(queues).normal[0];
        && list == Without(old(list), t) && queues == Dequeued(old(queues), t)
        && t in old(tasks) && tasks == old(tasks)[t := Tried(old(tasks)[t], contextDone)]
    {
      var t: Id;
      if queues.prioritized != [] {
        t := queues.prioritized[0];
      } else if queues.normal != [] {
        t := queues.normal[0];
      } else {
        return false;
      }
      var _ := Run(t, contextDone);
      return true;
    }

    /** Of two tasks queued into empty queues the first one is run first, and the second one is next. */
    method QueueTwo(t: Id, u: Id, now: int, contextDone: bool)
      requires Valid() && t in tasks && u in tasks && t != u && queues == Queues([], [])
      requires tasks[t].IsActive() && tasks[u].IsActive()
      modifies this
      ensures Valid() && queues == Queues([u], []) && t !in list && t in tasks
      ensures !old(tasks)[t].executing && !contextDone ==> tasks[t].executing
    {
      BothQueued(t, u);
      ghost var s0 := tasks;
      Enqueue(t, now, Normally);
      ghost var s1 := tasks;
      Enqueue(u, now, Normally);
      assert SameFlags(s0[t], s1[t]) && tasks[t] == s1[t];
      WithoutElements(list, t);
      var _ := QueueTurn(contextDone);
    }

    /** Whatever is at the head of the schedule is gone from it after two handler turns, or has
        been moved to a new deadline: no head can stay due forever. */
    method TwoHandlerTurns(now: int, later: int, contextDone: bool)
      requires Valid() && list != []
      modifies this
      ensures Valid()
      ensures var t := old(list)[0];
        t !in list || (t in tasks && old(tasks)[t].maxDelay != 0 && tasks[t].executeAt == now + old(tasks)[t].maxDelay)
    {
      ghost var t := list[0];
      HandlerTurn(now, contextDone);
      ghost var between := list;
      HandlerTurn(later, contextDone);
      WithoutElements(between, t);
      if between != [] {
        WithoutElements(between, between[0]);
        WithoutElements(list, between[0]);
      }
    }
  }

  function AtLeastMinimum(interval: int): (r: int)
    ensures r >= MIN_REPEAT && r >= interval && (r == MIN_REPEAT || r == interval)
  {
    if interval < MIN_REPEAT then MIN_REPEAT else interval
  }

  /** Giving a new key to an inactive task can leave the schedule unsorted. */
  lemma InactiveTaskBreaksOrder(x: Id, y: Id)
    requires x != y
    ensures var tasks := map[x := Task(10, false, true, false, true, true, 0, DEFAULT_MAX_DELAY),
                             y := Task(20, false, true, false, false, true, 0, DEFAULT_MAX_DELAY)];
      Consistent([x, y], tasks) && Sorted([x, y], tasks) && !tasks[x].IsActive()
      && !Tolerates([x, y], x, tasks, 30)
  {
    var tasks := map[x := Task(10, false, true, false, true, true, 0, DEFAULT_MAX_DELAY),
                     y := Task(20, false, true, false, false, true, 0, DEFAULT_MAX_DELAY)];
    assert [x, y][0] == x && tasks[[x, y][1]].executeAt == 20;
  }

  lemma WithoutTwice(l: seq<Id>, t: Id)
    ensures Without(Without(l, t), t) == Without(l, t)
  {
    WithoutElements(l, t);
    WithoutElements(Without(l, t), t);
  }
}
