/** No microtask is left waiting: every run can be brought to rest, with all tasks done, no signal
    left and the counter at zero; and low priority signals are only taken when there was no other. */
module MicrotaskDrain {
  import opened Basics
  import opened Microtasks
  import opened MicrotaskRuns

  function Last(h: seq<State>): State
    requires |h| > 0
  {
    h[|h| - 1]
  }

  /** h' is a run that goes on from h. */
  ghost predicate Continues(c: Config, h: seq<State>, h': seq<State>) {
    Run(c, h) && Run(c, h') && h <= h'
  }

  lemma ContinuesFrom(c: Config, h: seq<State>, h1: seq<State>, h2: seq<State>)
    requires Continues(c, h, h1) && Continues(c, h1, h2)
    ensures Continues(c, h, h2)
  {
  }

  lemma ContinuesOn(c: Config, h: seq<State>, h': seq<State>, e: Event, u: State) returns (h'': seq<State>)
    requires Continues(c, h, h') && Happens(c, Last(h'), e, u)
    ensures Continues(c, h, h'') && Last(h'') == u
  {
    h'' := Extend(c, h', e, u);
  }

  /** Whatever a task waits for, it can go on by itself, at the latest when its delay is up. */
  lemma StartTask(c: Config, h: seq<State>, t: Task) returns (h': seq<State>)
    requires Run(c, h) && t in Last(h).progress && !Last(h).progress[t].Concluded?
    ensures Continues(c, h, h') && OthersStay(Last(h), Last(h'), t) && Last(h').progress[t] == Running
  {
    h' := h;
    var s := Last(h);
    if s.progress[t].Blocked? {
      h' := ContinuesOn(c, h, h, StartUncleared(t), CountIn(s, t).(progress := s.progress[t := Running]));
    } else if s.progress[t].Queued? {
      if t in s.granted {
        h' := ContinuesOn(c, h, h, Proceed(t), s.(progress := s.progress[t := Running]));
      } else {
        h' := ContinuesOn(c, h, h, GiveUp(t), s.(progress := s.progress[t := Running], gaveUp := s.gaveUp + {t}));
      }
    }
  }

  lemma FinishTask(c: Config, h: seq<State>, t: Task) returns (h': seq<State>)
    requires Run(c, h) && t in Last(h).progress
    ensures Continues(c, h, h') && OthersStay(Last(h), Last(h'), t) && Last(h').progress[t] == Concluded
  {
    h' := h;
    if !Last(h).progress[t].Concluded? {
      h' := StartTask(c, h, t);
      var s := Last(h');
      h' := ContinuesOn(c, h, h', Conclude(t), s.(progress := s.progress[t := Concluded], counter := s.counter - 1));
    }
  }

  /** Nobody but t has moved. */
  ghost predicate OthersStay(s: State, u: State, t: Task) {
    && u.medium == s.medium && u.low == s.low && u.scheduler == s.scheduler
    && u.progress.Keys == s.progress.Keys && t in s.progress
    && forall x | x in s.progress && x != t :: u.progress[x] == s.progress[x]
  }

  ghost predicate AllDone(s: State) {
    DoneExcept(s, {})
  }

  ghost predicate DoneExcept(s: State, todo: set<Task>) {
    forall t | t in s.progress && t !in todo :: s.progress[t] == Concluded
  }

  lemma {:induction false} FinishTasks(c: Config, h: seq<State>, todo: set<Task>) returns (h': seq<State>)
    requires Run(c, h) && todo <= Last(h).progress.Keys && DoneExcept(Last(h), todo)
    ensures Continues(c, h, h') && AllDone(Last(h'))
    decreases |todo|
  {
    h' := h;
    if todo != {} {
      var t :| t in todo;
      h' := FinishTask(c, h', t);
      h' := FinishTasks(c, h', todo - {t});
    }
  }

  function Signals(s: State): nat {
    |s.medium| + |s.low|
  }

  /** The clearance at hand is given and counted. */
  lemma GiveClearance(c: Config, h: seq<State>) returns (h': seq<State>)
    requires Run(c, h) && AllDone(Last(h)) && (Last(h).scheduler.Holding? || Last(h).scheduler.Counting?)
    ensures Continues(c, h, h') && AllDone(Last(h')) && Last(h').scheduler == Looking && Signals(Last(h')) == Signals(Last(h))
  {
    h' := h;
    var s := Last(h);
    if s.scheduler.Holding? {
      s := s.(scheduler := Counting(s.scheduler.t), granted := s.granted + {s.scheduler.t});
      h' := ContinuesOn(c, h, h', Close, s);
    }
    h' := ContinuesOn(c, h, h', Count, CountIn(s, s.scheduler.t).(scheduler := Looking));
  }

  /** A scheduler that is clearing takes a medium signal if there is one, ... */
  lemma ClearMedium(c: Config, h: seq<State>) returns (h': seq<State>)
    requires Run(c, h) && AllDone(Last(h)) && Last(h).scheduler.Clearing? && Last(h).medium != []
    ensures Continues(c, h, h') && AllDone(Last(h')) && Last(h').scheduler == Looking && Signals(Last(h')) == Signals(Last(h)) - 1
  {
    var s := Last(h);
    var e := if s.scheduler.triedMedium then Take(false) else TryMedium;
    h' := ContinuesOn(c, h, h, e, s.(medium := s.medium[1..], scheduler := Holding(s.medium[0])));
    h' := GiveClearance(c, h');
  }

  /** ... or else a low one if there is one, or looks again. */
  lemma ClearLow(c: Config, h: seq<State>) returns (h': seq<State>)
    requires Run(c, h) && AllDone(Last(h)) && Last(h).scheduler == Clearing(true)
    ensures Continues(c, h, h') && AllDone(Last(h')) && Last(h').scheduler == Looking
    ensures Last(h).low != [] ==> Signals(Last(h')) == Signals(Last(h)) - 1
    ensures Last(h).low == [] ==> Signals(Last(h')) == Signals(Last(h))
  {
    var s := Last(h);
    if s.low != [] {
      h' := ContinuesOn(c, h, h, Take(true), s.(low := s.low[1..], scheduler := Holding(s.low[0])));
      h' := GiveClearance(c, h');
    } else {
      h' := ContinuesOn(c, h, h, OtherClearance, s.(scheduler := Looking));
    }
  }

  lemma ClearOne(c: Config, h: seq<State>) returns (h': seq<State>)
    requires Run(c, h) && AllDone(Last(h)) && Last(h).scheduler.Clearing?
    ensures Continues(c, h, h') && AllDone(Last(h')) && Last(h').scheduler == Looking
    ensures Signals(Last(h)) > 0 ==> Signals(Last(h')) < Signals(Last(h))
  {
    h' := h;
    var s := Last(h);
    if s.medium != [] {
      h' := ClearMedium(c, h);
    } else {
      if !s.scheduler.triedMedium { h' := ContinuesOn(c, h, h, TryMedium, s.(scheduler := Clearing(true))); }
      h' := ClearLow(c, h');
    }
  }

  /** With all tasks done the counter is not above zero, so there is room for a clearance. */
  lemma RoomWhenDone(c: Config, h: seq<State>)
    requires Run(c, h) && AllDone(Last(h))
    ensures Last(h).counter <= 0
  {
    RunKeepsInv(c, h, |h| - 1);
    CardinalityMonotone(Last(h).counted, Last(h).Done());
  }

  lemma BeginClearing(c: Config, h: seq<State>) returns (h': seq<State>)
    requires Run(c, h) && AllDone(Last(h)) && Last(h).scheduler == Looking && c.threshold > 0
    ensures Continues(c, h, h') && AllDone(Last(h')) && Last(h').scheduler.Clearing? && Signals(Last(h')) == Signals(Last(h))
  {
    var s := Last(h);
    RoomWhenDone(c, h);
    h' := ContinuesOn(c, h, h, Look,
                      if s.shutdownMode || s.shutdownFlag then s.(shutdownMode := true, scheduler := Clearing(true))
                      else s.(scheduler := Clearing(false)));
  }

  lemma {:induction false} DrainSignals(c: Config, h: seq<State>) returns (h': seq<State>)
    requires Run(c, h) && AllDone(Last(h)) && Last(h).scheduler == Looking && c.threshold > 0
    ensures Continues(c, h, h') && AllDone(Last(h')) && Last(h').scheduler == Looking && Signals(Last(h')) == 0
    decreases Signals(Last(h))
  {
    h' := h;
    if Signals(Last(h)) > 0 {
      h' := BeginClearing(c, h');
      h' := ClearOne(c, h');
      h' := DrainSignals(c, h');
    }
  }

  lemma FinishTurn(c: Config, h: seq<State>) returns (h': seq<State>)
    requires Run(c, h) && AllDone(Last(h))
    ensures Continues(c, h, h') && AllDone(Last(h')) && Last(h').scheduler == Looking
  {
    h' := h;
    if Last(h).scheduler.Clearing? {
      h' := ClearOne(c, h);
    } else if !Last(h).scheduler.Looking? {
      h' := GiveClearance(c, h);
    }
  }

  lemma AtRest(c: Config, h: seq<State>)
    requires Run(c, h) && AllDone(Last(h)) && Last(h).scheduler == Looking && Signals(Last(h)) == 0
    ensures Last(h).medium == [] && Last(h).low == [] && Last(h).counter == 0
  {
    QuiescentCounterIsZero(c, h, |h| - 1);
  }

  /** From every state of every run, shutting down or not, the system can come to rest: all tasks
      done, no signal left, and the counter at zero. */
  lemma CanComeToRest(c: Config, h: seq<State>) returns (h': seq<State>)
    requires Run(c, h) && c.threshold > 0
    ensures Continues(c, h, h') && AllDone(Last(h')) && Last(h').scheduler == Looking
    ensures Last(h').medium == [] && Last(h').low == [] && Last(h').counter == 0
  {
    var h1 := FinishTasks(c, h, Last(h).progress.Keys);
    var h2 := FinishTurn(c, h1);
    h' := DrainSignals(c, h2);
    ContinuesFrom(c, h, h1, h2);
    ContinuesFrom(c, h, h2, h');
    AtRest(c, h');
  }

  // ----- priorities

  /** The scheduler has looked for medium signals and found none, and has not looked at the counter
      since. */
  ghost predicate FoundNoMedium(h: seq<State>, j: nat, i: nat) {
    && j < i < |h| && h[j].scheduler == Clearing(false) && h[j].medium == []
    && forall k | j < k <= i :: h[k].scheduler == Clearing(true)
  }

  lemma {:induction false} ClearingWithoutMedium(c: Config, h: seq<State>, i: nat) returns (j: nat)
    requires Run(c, h) && i < |h| && h[i].scheduler == Clearing(true) && !h[i].shutdownMode
    ensures FoundNoMedium(h, j, i)
    decreases i
  {
    StepAt(c, h, i);
    ClearingStep(c, h[i - 1], h[i]);
    if h[i - 1].scheduler == Clearing(false) {
      j := i - 1;
    } else {
      j := ClearingWithoutMedium(c, h, i - 1);
    }
  }

  lemma ClearingStep(c: Config, s: State, u: State)
    requires Step(c, s, u) && u.scheduler == Clearing(true) && !u.shutdownMode
    ensures (s.scheduler == Clearing(false) && s.medium == []) || (s.scheduler == Clearing(true) && !s.shutdownMode)
  {
  }

  lemma LowTaken(c: Config, s: State, u: State)
    requires Step(c, s, u) && |u.low| < |s.low|
    ensures s.scheduler == Clearing(true)
  {
    var e :| Happens(c, s, e, u);
  }

  lemma {:induction false} StepAt(c: Config, h: seq<State>, i: nat)
    requires Run(c, h) && i < |h|
    ensures i == 0 ==> Init(h[0])
    ensures i > 0 ==> Step(c, h[i - 1], h[i])
    decreases |h|
  {
    if |h| > 1 && i < |h| - 1 { StepAt(c, h[..|h| - 1], i); }
  }

  /** Before shutdown, a low priority signal is taken only after the scheduler, since it last looked
      at the counter, has found no medium one. */
  lemma MediumComesFirst(c: Config, h: seq<State>, i: nat) returns (j: nat)
    requires Run(c, h) && i + 1 < |h| && !h[i].shutdownMode && |h[i + 1].low| < |h[i].low|
    ensures FoundNoMedium(h, j, i)
  {
    StepAt(c, h, i + 1);
    LowTaken(c, h[i], h[i + 1]);
    j := ClearingWithoutMedium(c, h, i);
  }
}
