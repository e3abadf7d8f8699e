/** The microtask scheduler as a transition system: any number of tasks that queue a signal and
    wait for it, give up waiting, run and conclude, and one scheduler that closes signals and
    counts, in two steps, while the global counter is below the threshold. */
module Microtasks {
  import opened Basics

  type Task(==, !new)

  datatype Progress =
    | Blocked(low: bool)  // the clearance queue was full; waiting to submit
    | Queued              // the signal is submitted; waiting for it to be closed
    | Running
    | Concluded

  /** What the scheduler goroutine is about to do. Shutdown clearances are given without
      looking at the counter. */
  datatype Scheduler =
    | Looking
    | Clearing(triedMedium: bool)
    | Holding(t: Task)
    | Counting(t: Task)

  datatype State = State(
    counter: int,
    medium: seq<Task>,
    low: seq<Task>,
    progress: map<Task, Progress>,
    scheduler: Scheduler,
    shutdownFlag: bool,
    shutdownMode: bool,
    // history
    counted: set<Task>,
    granted: set<Task>,
    gaveUp: set<Task>)
  {
    function Done(): set<Task> {
      set t | t in progress && progress[t] == Concluded
    }

    /** Tasks that run, or are about to, on a clearance of the scheduler. */
    function ActiveGranted(): set<Task> {
      granted - Done()
    }

    function Held(): set<Task> {
      match scheduler
      case Holding(t) => {t}
      case Counting(t) => {t}
      case _ => {}
    }
  }

  datatype Event =
    | StartHigh(t: Task)
    | Submit(t: Task, low: bool)
    | Unblock(t: Task)
    | StartUncleared(t: Task)
    | Proceed(t: Task)
    | GiveUp(t: Task)
    | Conclude(t: Task)
    | Look
    | TryMedium
    | Take(low: bool)
    | OtherClearance
    | Close
    | Count
    | Shutdown

  datatype Config = Config(threshold: nat, capacity: nat)

  predicate HasRoom(c: Config, s: State, low: bool) {
    |if low then s.low else s.medium| < c.capacity
  }

  function Enqueue(s: State, t: Task, low: bool): State {
    if low then s.(low := s.low + [t], progress := s.progress[t := Queued])
    else s.(medium := s.medium + [t], progress := s.progress[t := Queued])
  }

  function CountIn(s: State, t: Task): State {
    s.(counter := s.counter + 1, counted := s.counted + {t})
  }

  ghost predicate Happens(c: Config, s: State, e: Event, u: State) {
    match e
    case StartHigh(t) =>
      t !in s.progress && u == CountIn(s, t).(progress := s.progress[t := Running])
    case Submit(t, low) =>
      t !in s.progress
      && u == if HasRoom(c, s, low) then Enqueue(s, t, low) else s.(progress := s.progress[t := Blocked(low)])
    case Unblock(t) =>
      t in s.progress && s.progress[t].Blocked? && HasRoom(c, s, s.progress[t].low)
      && u == Enqueue(s, t, s.progress[t].low)
    case StartUncleared(t) =>
      t in s.progress && s.progress[t].Blocked? && u == CountIn(s, t).(progress := s.progress[t := Running])
    case Proceed(t) =>
      t in s.progress && s.progress[t] == Queued && t in s.granted && u == s.(progress := s.progress[t := Running])
    case GiveUp(t) =>
      t in s.progress && s.progress[t] == Queued && t !in s.granted
      && u == s.(progress := s.progress[t := Running], gaveUp := s.gaveUp + {t})
    case Conclude(t) =>
      t in s.progress && s.progress[t] == Running
      && u == s.(progress := s.progress[t := Concluded], counter := s.counter - 1)
    case Look =>
      s.scheduler == Looking
      && u == if s.shutdownMode || s.shutdownFlag then s.(shutdownMode := true, scheduler := Clearing(true))
              else if s.counter < c.threshold then s.(scheduler := Clearing(false))
              else s
    case TryMedium =>
      s.scheduler == Clearing(false)
      && u == if s.medium != [] then s.(medium := s.medium[1..], scheduler := Holding(s.medium[0]))
              else s.(scheduler := Clearing(true))
    case Take(low) =>
      s.scheduler == Clearing(true)
      && (if low
          then s.low != [] && u == s.(low := s.low[1..], scheduler := Holding(s.low[0]))
          else s.medium != [] && u == s.(medium := s.medium[1..], scheduler := Holding(s.medium[0])))
    case OtherClearance =>
      s.scheduler == Clearing(true) && u == s.(scheduler := Looking)
    case Close =>
      s.scheduler.Holding?
      && u == s.(scheduler := Counting(s.scheduler.t), granted := s.granted + {s.scheduler.t})
    case Count =>
      s.scheduler.Counting? && u == CountIn(s, s.scheduler.t).(scheduler := Looking)
    case Shutdown =>
      u == s.(shutdownFlag := true)
  }

  ghost predicate Init(s: State) {
    s == State(0, [], [], map[], Looking, false, false, {}, {}, {})
  }

  ghost predicate Step(c: Config, s: State, u: State) {
    exists e :: Happens(c, s, e, u)
  }

  /** Every interleaving of any number of tasks with the scheduler. */
  ghost predicate Run(c: Config, h: seq<State>) {
    |h| > 0 && (if |h| == 1 then Init(h[0]) else Run(c, h[..|h| - 1]) && Step(c, h[|h| - 2], h[|h| - 1]))
  }

  // ----- the invariant

  ghost predicate Distinct(q: seq<Task>) {
    forall i, j | 0 <= i < j < |q| :: q[i] != q[j]
  }

  /** Where a task that is not counted yet can be. */
  predicate Pending(s: State, t: Task) {
    t in s.medium || t in s.low || t in s.Held()
  }

  /** No signal is in two places, and a signal in a queue or with the scheduler stands for a
      task that is not counted yet. */
  ghost predicate Places(s: State) {
    && Distinct(s.medium) && Distinct(s.low)
    && (forall t | t in s.medium :: t !in s.low && t !in s.Held())
    && (forall t | t in s.low :: t !in s.Held())
    && (forall t | Pending(s, t) :: t in s.progress && !s.progress[t].Blocked? && t !in s.counted)
  }

  /** Every task that got past submitting is counted or still pending. */
  ghost predicate Located(s: State) {
    && s.counted <= s.progress.Keys
    && forall t | t in s.progress ::
         if s.progress[t].Blocked? then t !in s.counted else t in s.counted || Pending(s, t)
  }

  /** Whoever runs is counted, cleared or has given up, and whoever is cleared is counted or
      about to be. */
  ghost predicate Justified(s: State) {
    && (forall t | t in s.progress && (s.progress[t] == Running || s.progress[t] == Concluded) ::
          t in s.counted || t in s.granted || t in s.gaveUp)
    && (forall t | t in s.granted :: t in s.counted || s.scheduler == Counting(t))
    && (s.scheduler.Counting? ==> s.scheduler.t in s.granted)
  }

  ghost predicate Accounted(s: State) {
    Located(s) && Justified(s)
  }

  ghost predicate Counts(s: State) {
    s.counter == |s.counted| - |s.Done()|
  }

  /** A clearance that is about to be given, or that is being counted for a task already done. */
  predicate Reserved(s: State) {
    s.scheduler.Clearing? || s.scheduler.Holding? || (s.scheduler.Counting? && s.scheduler.t in s.Done())
  }

  /** Before shutdown, clearances in force exceed the threshold at most by the tasks that concluded
      before they were counted; while one is reserved there is one less. */
  ghost predicate Bounded(c: Config, s: State) {
    !s.shutdownMode ==> |s.ActiveGranted()| + (if Reserved(s) then 1 else 0) <= c.threshold + |s.Done() - s.counted|
  }

  /** How far the queues let the threshold be exceeded: a task that is granted was queued itself. */
  function Slack(c: Config): nat {
    if c.capacity == 0 then 0 else 2 * c.capacity - 1
  }

  /** There is still room for a clearance, or the next one goes to a task already done. */
  ghost predicate Capped(c: Config, s: State) {
    !s.shutdownMode ==>
      && |s.ActiveGranted()| <= c.threshold + Slack(c)
      && (s.scheduler.Clearing? ==>
            |s.ActiveGranted()| < c.threshold + Slack(c)
            || (s.scheduler == Clearing(false) && s.medium != [] && s.medium[0] in s.Done()))
      && (s.scheduler.Holding? ==> |s.ActiveGranted()| < c.threshold + Slack(c) || s.scheduler.t in s.Done())
  }

  predicate Fits(c: Config, s: State) {
    |s.medium| <= c.capacity && |s.low| <= c.capacity
  }

  ghost predicate Inv(c: Config, s: State) {
    Places(s) && Accounted(s) && Counts(s) && Bounded(c, s) && Capped(c, s) && Fits(c, s)
  }

  lemma EnqueueKeepsPlaces(s: State, t: Task, low: bool)
    requires Places(s) && !Pending(s, t) && t !in s.counted
    ensures Places(Enqueue(s, t, low))
  {
  }

  lemma DequeueKeepsPlaces(s: State, low: bool)
    requires Places(s) && s.scheduler.Clearing? && (if low then s.low else s.medium) != []
    ensures Places(if low then s.(low := s.low[1..], scheduler := Holding(s.low[0]))
                   else s.(medium := s.medium[1..], scheduler := Holding(s.medium[0])))
  {
  }

  lemma PlacesStep(c: Config, s: State, e: Event, u: State)
    requires Places(s) && Accounted(s) && Happens(c, s, e, u)
    ensures Places(u)
  {
    match e
    case Submit(t, low) => if HasRoom(c, s, low) { EnqueueKeepsPlaces(s, t, low); }
    case Unblock(t) => EnqueueKeepsPlaces(s, t, s.progress[t].low);
    case TryMedium => if s.medium != [] { DequeueKeepsPlaces(s, false); }
    case Take(low) => DequeueKeepsPlaces(s, low);
    case StartHigh(t) => StartKeepsPlaces(s, t, u);
    case StartUncleared(t) => StartKeepsPlaces(s, t, u);
    case Count => CountKeepsPlaces(s, u);
    case _ =>
  }

  lemma CountKeepsPlaces(s: State, u: State)
    requires Places(s) && s.scheduler.Counting? && u == CountIn(s, s.scheduler.t).(scheduler := Looking)
    ensures Places(u)
  {
  }

  lemma StartKeepsPlaces(s: State, t: Task, u: State)
    requires Places(s) && !Pending(s, t) && u == CountIn(s, t).(progress := s.progress[t := Running])
    ensures Places(u)
  {
  }

  lemma LocatedStep(c: Config, s: State, e: Event, u: State)
    requires Places(s) && Located(s) && Happens(c, s, e, u)
    ensures Located(u)
  {
  }

  lemma JustifiedStep(c: Config, s: State, e: Event, u: State)
    requires Justified(s) && Happens(c, s, e, u)
    ensures Justified(u)
  {
  }

  lemma DoneStep(c: Config, s: State, e: Event, u: State)
    requires Happens(c, s, e, u)
    ensures u.Done() == if e.Conclude? then s.Done() + {e.t} else s.Done()
    ensures e.Conclude? ==> e.t !in s.Done()
  {
  }

  lemma CountsStep(c: Config, s: State, e: Event, u: State)
    requires Places(s) && Accounted(s) && Counts(s) && Happens(c, s, e, u)
    ensures Counts(u)
  {
    DoneStep(c, s, e, u);
    CountedStep(c, s, e, u);
  }

  lemma CountedStep(c: Config, s: State, e: Event, u: State)
    requires Places(s) && Located(s) && Happens(c, s, e, u)
    ensures |u.counted| - |s.counted| == if e.StartHigh? || e.StartUncleared? || e.Count? then 1 else 0
    ensures u.counter - s.counter == |u.counted| - |s.counted| - (if e.Conclude? then 1 else 0)
  {
  }

  /** The counter falls short of the clearances in force by at most the tasks that concluded before
      they were counted. */
  lemma CounterCoversGranted(s: State)
    requires Accounted(s) && Counts(s) && !s.scheduler.Counting?
    ensures |s.ActiveGranted()| <= s.counter + |s.Done() - s.counted|
  {
    CountedAndDone(s.ActiveGranted(), s.counted, s.Done());
  }

  lemma CountedAndDone(active: set<Task>, counted: set<Task>, done: set<Task>)
    requires active <= counted - done
    ensures |active| <= |counted| - |done| + |done - counted|
  {
    CardinalityMonotone(active, counted - done);
    assert counted == (counted - done) + (counted * done);
    assert done == (done - counted) + (counted * done);
  }

  lemma BoundedStep(c: Config, s: State, e: Event, u: State)
    requires Places(s) && Accounted(s) && Counts(s) && Bounded(c, s) && Happens(c, s, e, u)
    ensures Bounded(c, u)
  {
    DoneStep(c, s, e, u);
    match e
    case Look => CounterCoversGranted(s);
    case Close => CloseBounded(c, s, u);
    case Count => CountBounded(c, s, u);
    case Conclude(t) => ConcludeBounded(c, s, t, u);
    case StartHigh(t) => StartBounded(c, s, t, u);
    case StartUncleared(t) => StartBounded(c, s, t, u);
    case _ => SameBounded(c, s, u);
  }

  lemma SameBounded(c: Config, s: State, u: State)
    requires Bounded(c, s) && u.Done() == s.Done() && u.granted == s.granted && u.counted == s.counted
    requires (Reserved(u) ==> Reserved(s)) && u.shutdownMode == s.shutdownMode
    ensures Bounded(c, u)
  {
  }

  lemma StartBounded(c: Config, s: State, t: Task, u: State)
    requires Bounded(c, s) && u.Done() == s.Done() && u.granted == s.granted && u.counted == s.counted + {t}
    requires t !in s.Done() && u.scheduler == s.scheduler && u.shutdownMode == s.shutdownMode
    ensures Bounded(c, u)
  {
    assert u.Done() - u.counted == s.Done() - s.counted;
  }

  lemma CloseBounded(c: Config, s: State, u: State)
    requires Bounded(c, s) && Happens(c, s, Close, u) && u.Done() == s.Done()
    ensures Bounded(c, u)
  {
    OneMoreGranted(s.granted, s.Done(), s.scheduler.t);
  }

  lemma OneMoreGranted(granted: set<Task>, done: set<Task>, t: Task)
    ensures |granted + {t} - done| <= |granted - done| + (if t in done then 0 else 1)
  {
    CardinalityMonotone(granted + {t} - done, if t in done then granted - done else granted - done + {t});
  }

  lemma CountBounded(c: Config, s: State, u: State)
    requires Bounded(c, s) && Happens(c, s, Count, u) && u.Done() == s.Done()
    ensures Bounded(c, u)
  {
    OneMoreCounted(s.counted, s.Done(), s.scheduler.t);
  }

  lemma OneMoreCounted(counted: set<Task>, done: set<Task>, t: Task)
    ensures |done - counted| <= |done - (counted + {t})| + (if t in done then 1 else 0)
  {
    var rest := done - (counted + {t});
    CardinalityMonotone(done - counted, if t in done then rest + {t} else rest);
  }

  /** A task that concludes frees its clearance, or gives up one more count. */
  lemma ConcludeBounded(c: Config, s: State, t: Task, u: State)
    requires Accounted(s) && Bounded(c, s) && Happens(c, s, Conclude(t), u) && u.Done() == s.Done() + {t}
    ensures Bounded(c, u)
  {
    CardinalityMonotone(u.ActiveGranted(), s.ActiveGranted());
    CardinalityMonotone(s.Done() - s.counted, u.Done() - u.counted);
    if s.scheduler == Counting(t) {
      assert s.ActiveGranted() == u.ActiveGranted() + {t};
    }
  }

  lemma {:induction false} RunKeepsInv(c: Config, h: seq<State>, i: nat)
    requires Run(c, h) && i < |h|
    ensures Inv(c, h[i])
    decreases |h|
  {
    var n := |h| - 1;
    if n > 0 {
      RunKeepsInv(c, h[..n], if i < n then i else n - 1);
      if i == n {
        var e :| Happens(c, h[n - 1], e, h[n]);
        StepKeepsInv(c, h[n - 1], e, h[n]);
      }
    }
  }

  lemma StepKeepsInv(c: Config, s: State, e: Event, u: State)
    requires Inv(c, s) && Happens(c, s, e, u)
    ensures Inv(c, u)
  {
    PlacesStep(c, s, e, u);
    LocatedStep(c, s, e, u);
    JustifiedStep(c, s, e, u);
    CountsStep(c, s, e, u);
    BoundedStep(c, s, e, u);
    CappedStep(c, s, e, u);
    FitsStep(c, s, e, u);
  }

  lemma CappedStep(c: Config, s: State, e: Event, u: State)
    requires Accounted(s) && Counts(s) && Capped(c, s) && Fits(c, s) && Happens(c, s, e, u)
    ensures Capped(c, u)
  {
    DoneStep(c, s, e, u);
    match e
    case Look => if s.counter < c.threshold { LookCapped(c, s); }
    case Close => CloseCapped(c, s, u);
    case Conclude(t) => ConcludeCapped(c, s, t, u);
    case _ =>
  }

  lemma CloseCapped(c: Config, s: State, u: State)
    requires Capped(c, s) && Happens(c, s, Close, u) && u.Done() == s.Done()
    ensures Capped(c, u)
  {
    OneMoreGranted(s.granted, s.Done(), s.scheduler.t);
  }

  lemma ConcludeCapped(c: Config, s: State, t: Task, u: State)
    requires Capped(c, s) && Happens(c, s, Conclude(t), u) && u.Done() == s.Done() + {t}
    ensures Capped(c, u)
  {
    CardinalityMonotone(u.ActiveGranted(), s.ActiveGranted());
  }

  /** If the queues are full of tasks already done, the next signal is one of theirs. */
  lemma LookCapped(c: Config, s: State)
    requires Accounted(s) && Counts(s) && Fits(c, s) && s.scheduler == Looking && s.counter < c.threshold
    ensures |s.ActiveGranted()| < c.threshold + Slack(c) || (s.medium != [] && s.medium[0] in s.Done())
  {
    CounterCoversGranted(s);
    UncountedIsQueued(s);
    if s.medium != [] && s.medium[0] !in s.Done() {
      var medium, low := Members(s.medium[1..]), Members(s.low);
      assert s.Done() - s.counted <= medium + low;
      CardinalityMonotone(s.Done() - s.counted, medium + low);
      MembersFit(s.medium[1..]);
      MembersFit(s.low);
    }
  }

  lemma FitsStep(c: Config, s: State, e: Event, u: State)
    requires Fits(c, s) && Happens(c, s, e, u)
    ensures Fits(c, u)
  {
  }

  // ----- what holds in every run

  /** In every state of every run the counter is the number of counted tasks minus the number
      of concluded ones. */
  lemma CounterIsExact(c: Config, h: seq<State>, i: nat)
    requires Run(c, h) && i < |h|
    ensures h[i].counter == |h[i].counted| - |h[i].Done()|
  {
    RunKeepsInv(c, h, i);
  }

  /** Once every task has concluded and no signal is left over, the counter is back at zero,
      however many tasks gave up waiting. */
  lemma QuiescentCounterIsZero(c: Config, h: seq<State>, i: nat)
    requires Run(c, h) && i < |h|
    requires forall t | t in h[i].progress :: h[i].progress[t] == Concluded
    requires h[i].medium == [] && h[i].low == [] && h[i].Held() == {}
    ensures h[i].counter == 0
  {
    RunKeepsInv(c, h, i);
    assert h[i].counted == h[i].Done();
  }

  /** Before shutdown, the tasks that run on a clearance never exceed the threshold by more than
      the number of tasks that gave up after queueing their signal, nor by more than the number of
      signals queued, nor ever by as many as the two queues hold. */
  lemma GrantedBoundedByThreshold(c: Config, h: seq<State>, i: nat)
    requires Run(c, h) && i < |h| && !h[i].shutdownMode
    ensures |h[i].ActiveGranted()| <= c.threshold + |h[i].gaveUp|
    ensures |h[i].ActiveGranted()| <= c.threshold + |h[i].medium| + |h[i].low|
    ensures |h[i].ActiveGranted()| <= c.threshold + Slack(c)
    ensures h[i].gaveUp == {} ==> |h[i].ActiveGranted()| <= c.threshold
  {
    RunKeepsInv(c, h, i);
    UncountedGaveUp(h[i]);
    UncountedIsQueued(h[i]);
  }

  lemma UncountedGaveUp(s: State)
    requires Accounted(s)
    ensures |s.Done() - s.counted| <= |s.gaveUp| + (if Reserved(s) then 1 else 0)
  {
    var extra := if s.scheduler.Counting? && s.scheduler.t in s.Done() then {s.scheduler.t} else {};
    assert s.Done() - s.counted <= s.gaveUp + extra;
    CardinalityMonotone(s.Done() - s.counted, s.gaveUp + extra);
  }

  lemma UncountedIsQueued(s: State)
    requires Accounted(s)
    ensures |s.Done() - s.counted| <= |s.medium| + |s.low| + (if Reserved(s) then 1 else 0)
  {
    var medium, low := Members(s.medium), Members(s.low);
    var extra := if Reserved(s) then s.Held() else {};
    assert s.Done() - s.counted <= medium + low + extra;
    CardinalityMonotone(s.Done() - s.counted, medium + low + extra);
    MembersFit(s.medium);
    MembersFit(s.low);
  }

  function Members(q: seq<Task>): set<Task> {
    set t | t in q
  }

  lemma {:induction false} MembersFit(q: seq<Task>)
    ensures |Members(q)| <= |q|
    ensures Distinct(q) ==> |Members(q)| == |q|
  {
    if q != [] {
      var n := |q| - 1;
      MembersFit(q[..n]);
      assert Members(q) == Members(q[..n]) + {q[n]};
    }
  }
}
