/** The call limiter's two-lock protocol with any number of concurrent calls: the first call of a
    batch leads and executes, the others join it and wait, and the last one to leave lets the
    next batch in. */
module CallLimiter {

  type Call(==, !new)

  /** Where a call of Do is. */
  datatype Point =
    | WantIn
    | Entered
    | LeadWantOut
    | LeadHasBoth
    | Executing
    | LeadWantIn(panicked: bool)
    | LeadClosing(panicked: bool)
    | JoinLeaving
    | WantOut
    | HasOut
    | Leaving
    | LastOut
    | Returned

  /** Who has a mutex locked. Go does not record it; Batch stands for the leader that went
      before, whose lock the last of its batch is to unlock. */
  datatype Owner = Free | By(c: Call) | Batch

  /** The two mutexes, and as history the call that leads. Unlocking a mutex that is not locked
      is a fatal error. */
  datatype Mutexes = Mutexes(inner: Owner, outer: Owner, lead: Owner, fault: bool)

  /** As history: number of lead phases begun, whether the last one is still open, and the phase
      each call belongs to. */
  datatype Phases = Phases(count: nat, open: bool, joined: map<Call, nat>)

  datatype State = State(waiters: int, at: map<Call, Point>, m: Mutexes, ph: Phases)

  datatype Event =
    | Arrive(c: Call)
    | LockIn(c: Call)
    | Join(c: Call)
    | LeadLockOut(c: Call)
    | LeadUnlockIn(c: Call)
    | Finish(c: Call, panicked: bool)
    | LeadLockIn(c: Call)
    | LeadUnlockOut(c: Call)
    | JoinUnlockIn(c: Call)
    | LockOut(c: Call)
    | UnlockOut(c: Call)
    | Leave(c: Call)
    | UnlockIn(c: Call)

  predicate Is(s: State, c: Call, p: Point) {
    c in s.at && s.at[c] == p
  }

  function Move(s: State, c: Call, p: Point): State {
    s.(at := s.at[c := p])
  }

  function UnlockInner(m: Mutexes): Mutexes {
    m.(inner := Free, fault := m.fault || m.inner == Free)
  }

  function UnlockOuter(m: Mutexes): Mutexes {
    m.(outer := Free, fault := m.fault || m.outer == Free)
  }

  /** The locked inner mutex passes from its holder to another; finding it held by anyone else, or
      free, is a fault as well. */
  function HandInner(m: Mutexes, from: Owner, to: Owner): Mutexes {
    m.(inner := to, fault := m.fault || m.inner != from)
  }

  ghost predicate Happens(s: State, e: Event, u: State) {
    match e
    case Arrive(c) => c !in s.at && u == Move(s, c, WantIn)
    case LockIn(c) => Is(s, c, WantIn) && s.m.inner == Free
      && u == Move(s, c, Entered).(m := s.m.(inner := By(c)))
    case Join(c) => Is(s, c, Entered)
      && u == if s.waiters + 1 == 1
              then Move(s, c, LeadWantOut).(waiters := s.waiters + 1, m := s.m.(lead := By(c)))
              else Move(s, c, JoinLeaving).(waiters := s.waiters + 1, ph := s.ph.(joined := s.ph.joined[c := s.ph.count]))
    case LeadLockOut(c) => Is(s, c, LeadWantOut) && s.m.outer == Free
      && u == Move(s, c, LeadHasBoth).(m := s.m.(outer := By(c)),
                ph := Phases(s.ph.count + 1, true, s.ph.joined[c := s.ph.count + 1]))
    case LeadUnlockIn(c) => Is(s, c, LeadHasBoth) && u == Move(s, c, Executing).(m := UnlockInner(s.m))
    case Finish(c, panicked) => Is(s, c, Executing) && u == Move(s, c, LeadWantIn(panicked))
    case LeadLockIn(c) => c in s.at && s.at[c].LeadWantIn? && s.m.inner == Free
      && u == Move(s, c, LeadClosing(s.at[c].panicked)).(m := s.m.(inner := By(c)))
    case LeadUnlockOut(c) => c in s.at && s.at[c].LeadClosing?
      && u == Move(s, c, if s.at[c].panicked then Leaving else WantOut)
              .(m := HandInner(UnlockOuter(s.m), By(c), Batch).(lead := Free), ph := s.ph.(open := false))
    case JoinUnlockIn(c) => Is(s, c, JoinLeaving) && u == Move(s, c, WantOut).(m := UnlockInner(s.m))
    case LockOut(c) => Is(s, c, WantOut) && s.m.outer == Free
      && u == Move(s, c, HasOut).(m := s.m.(outer := By(c)))
    case UnlockOut(c) => Is(s, c, HasOut) && u == Move(s, c, Leaving).(m := UnlockOuter(s.m))
    case Leave(c) => Is(s, c, Leaving)
      && u == if s.waiters - 1 == 0
              then Move(s, c, LastOut).(waiters := s.waiters - 1, m := HandInner(s.m, Batch, By(c)))
              else Move(s, c, Returned).(waiters := s.waiters - 1)
    case UnlockIn(c) => Is(s, c, LastOut) && u == Move(s, c, Returned).(m := UnlockInner(s.m))
  }

  ghost predicate Init(s: State) {
    s == State(0, map[], Mutexes(Free, Free, Free, false), Phases(0, false, map[]))
  }

  ghost predicate Step(s: State, u: State) {
    exists e :: Happens(s, e, u)
  }

  ghost predicate Run(h: seq<State>) {
    |h| > 0 && (if |h| == 1 then Init(h[0]) else Run(h[..|h| - 1]) && Step(h[|h| - 2], h[|h| - 1]))
  }

  // ----- the invariant

  predicate HoldsIn(p: Point) {
    p == Entered || p == LeadWantOut || p == LeadHasBoth || p.LeadClosing? || p == JoinLeaving || p == LastOut
  }

  predicate HoldsOut(p: Point) {
    p == LeadHasBoth || p == Executing || p.LeadWantIn? || p.LeadClosing? || p == HasOut
  }

  predicate Leads(p: Point) {
    p == LeadWantOut || p == LeadHasBoth || p == Executing || p.LeadWantIn? || p.LeadClosing?
  }

  predicate Waits(p: Point) {
    Leads(p) || p == JoinLeaving || p == WantOut || p == HasOut || p == Leaving
  }

  function Waiting(s: State): set<Call> {
    set c | c in s.at && Waits(s.at[c])
  }

  /** Each mutex is locked by exactly the call that is at a point where it should be. */
  ghost predicate InLock(s: State) {
    forall c :: c in s.at && HoldsIn(s.at[c]) <==> s.m.inner == By(c)
  }

  ghost predicate OutLock(s: State) {
    s.m.outer != Batch && forall c :: c in s.at && HoldsOut(s.at[c]) <==> s.m.outer == By(c)
  }

  ghost predicate OneLeader(s: State) {
    s.m.lead != Batch && forall c :: c in s.at && Leads(s.at[c]) <==> s.m.lead == By(c)
  }

  ghost predicate Locks(s: State) {
    InLock(s) && OutLock(s) && OneLeader(s) && !s.m.fault
  }

  /** What the others of a batch can be doing: nothing before its phase is open, joining while it
      is, and leaving afterwards. */
  predicate Fits(s: State, c: Call, p: Point) {
    if s.m.lead.By? then c == s.m.lead.c || (s.ph.open && (p == JoinLeaving || p == WantOut))
    else s.m.inner == Batch && (p == WantOut || p == HasOut || p == Leaving)
  }

  ghost predicate Stages(s: State) {
    && (s.m.inner == Batch ==> s.m.lead == Free && s.waiters > 0)
    && (s.ph.open <==> s.m.lead.By? && !Is(s, s.m.lead.c, LeadWantOut))
  }

  ghost predicate Batches(s: State) {
    Stages(s) && forall c | c in s.at && Waits(s.at[c]) :: Fits(s, c, s.at[c])
  }

  ghost predicate Counts(s: State) {
    s.waiters == |Waiting(s)|
  }

  /** Calls in a batch belong to the phase it is led in, and calls that returned to one that has
      ended. */
  ghost predicate WaitersBelong(s: State) {
    forall c | c in s.at && Waits(s.at[c]) && s.at[c] != LeadWantOut ::
      c in s.ph.joined && s.ph.joined[c] == s.ph.count
  }

  ghost predicate ReturnedEnded(s: State) {
    forall c | c in s.at && (s.at[c] == LastOut || s.at[c] == Returned) :: Ended(s, c)
  }

  ghost predicate Belongs(s: State) {
    WaitersBelong(s) && ReturnedEnded(s)
  }

  /** The phase that c joined is over. */
  predicate Ended(s: State, c: Call) {
    c in s.ph.joined && s.ph.joined[c] <= s.ph.count && (s.ph.joined[c] < s.ph.count || !s.ph.open)
  }

  ghost predicate Inv(s: State) {
    Locks(s) && Batches(s) && Counts(s) && Belongs(s)
  }

  lemma WaitingStep(s: State, e: Event, u: State)
    requires Happens(s, e, u)
    ensures Waiting(u) ==
      if e.Join? then Waiting(s) + {e.c} else if e.Leave? then Waiting(s) - {e.c} else Waiting(s)
    ensures e.Join? ==> e.c !in Waiting(s)
    ensures e.Leave? ==> e.c in Waiting(s)
  {
    OneMoves(s, e, u);
    assert forall c | c != e.c :: c in Waiting(u) <==> c in Waiting(s);
  }

  /** A step moves one call, and only joining and leaving change whether it waits. */
  lemma OneMoves(s: State, e: Event, u: State)
    requires Happens(s, e, u)
    ensures e.c in u.at && forall c | c != e.c :: (c in u.at <==> c in s.at) && (c in u.at ==> u.at[c] == s.at[c])
    ensures e.Join? ==> Waits(u.at[e.c]) && !(e.c in s.at && Waits(s.at[e.c]))
    ensures e.Leave? ==> !Waits(u.at[e.c]) && e.c in s.at && Waits(s.at[e.c])
    ensures !e.Join? && !e.Leave? ==> (Waits(u.at[e.c]) <==> e.c in s.at && Waits(s.at[e.c]))
  {
  }

  lemma CountsStep(s: State, e: Event, u: State)
    requires Counts(s) && Happens(s, e, u)
    ensures Counts(u)
  {
    WaitingStep(s, e, u);
  }

  lemma NobodyWaits(s: State)
    requires Counts(s) && s.waiters == 0
    ensures forall c | c in s.at :: !Waits(s.at[c])
  {
    assert Waiting(s) == {};
    assert forall c | c in s.at && Waits(s.at[c]) :: c in Waiting(s);
  }

  lemma SomebodyWaits(s: State, c: Call)
    requires Counts(s) && c in s.at && Waits(s.at[c])
    ensures s.waiters > 0
  {
    assert c in Waiting(s);
  }

  lemma InLockStep(s: State, e: Event, u: State)
    requires InLock(s) && Happens(s, e, u)
    requires e.Leave? ==> s.m.inner == Batch
    ensures InLock(u) && (e.LeadUnlockIn? || e.JoinUnlockIn? || e.UnlockIn? ==> s.m.inner != Free)
  {
  }

  lemma OutLockStep(s: State, e: Event, u: State)
    requires OutLock(s) && Happens(s, e, u)
    ensures OutLock(u) && (e.LeadUnlockOut? || e.UnlockOut? ==> s.m.outer != Free)
  {
  }

  lemma OneLeaderStep(s: State, e: Event, u: State)
    requires OneLeader(s) && Counts(s) && Happens(s, e, u)
    ensures OneLeader(u)
  {
    if s.waiters == 0 { NobodyWaits(s); }
  }

  lemma LocksStep(s: State, e: Event, u: State)
    requires Inv(s) && Happens(s, e, u)
    ensures Locks(u)
  {
    assert e.Leave? ==> s.m.inner == Batch;
    InLockStep(s, e, u);
    OutLockStep(s, e, u);
    OneLeaderStep(s, e, u);
  }

  lemma StagesStep(s: State, e: Event, u: State)
    requires Inv(s) && Happens(s, e, u) && Counts(u)
    ensures Stages(u)
  {
    if s.waiters == 0 { NobodyWaits(s); }
    if Waits(u.at[e.c]) { SomebodyWaits(u, e.c); }
  }

  lemma BatchesStep(s: State, e: Event, u: State)
    requires Inv(s) && Happens(s, e, u) && Counts(u)
    ensures Batches(u)
  {
    StagesStep(s, e, u);
    if s.waiters == 0 { NobodyWaits(s); }
    if u.waiters == 0 { NobodyWaits(u); }
  }

  lemma WaitersBelongStep(s: State, e: Event, u: State)
    requires Batches(s) && OneLeader(s) && WaitersBelong(s) && Happens(s, e, u)
    ensures WaitersBelong(u)
  {
  }

  lemma ReturnedEndedStep(s: State, e: Event, u: State)
    requires Batches(s) && OneLeader(s) && Belongs(s) && Happens(s, e, u)
    ensures ReturnedEnded(u)
  {
  }

  lemma StepKeepsInv(s: State, e: Event, u: State)
    requires Inv(s) && Happens(s, e, u)
    ensures Inv(u)
  {
    CountsStep(s, e, u);
    LocksStep(s, e, u);
    BatchesStep(s, e, u);
    WaitersBelongStep(s, e, u);
    ReturnedEndedStep(s, e, u);
  }

  lemma {:induction false} RunKeepsInv(h: seq<State>, i: nat)
    requires Run(h) && i < |h|
    ensures Inv(h[i])
    decreases |h|
  {
    var n := |h| - 1;
    if n > 0 {
      RunKeepsInv(h[..n], if i < n then i else n - 1);
      if i == n {
        var e :| Happens(h[n - 1], e, h[n]);
        StepKeepsInv(h[n - 1], e, h[n]);
      }
    }
  }

  // ----- what holds in every run

  /** At most one function executes at a time. */
  lemma OneExecution(h: seq<State>, i: nat, c: Call, d: Call)
    requires Run(h) && i < |h| && Is(h[i], c, Executing) && Is(h[i], d, Executing)
    ensures c == d
  {
    RunKeepsInv(h, i);
  }

  /** Neither mutex is ever unlocked while it is free. */
  lemma NoFault(h: seq<State>, i: nat)
    requires Run(h) && i < |h|
    ensures !h[i].m.fault
  {
    RunKeepsInv(h, i);
  }

  /** A call that does not lead joins a phase that is open at that moment. */
  lemma JoinsAnOpenPhase(h: seq<State>, i: nat, c: Call, u: State)
    requires Run(h) && i < |h| && Happens(h[i], Join(c), u) && Is(u, c, JoinLeaving)
    ensures h[i].ph.open && c in u.ph.joined && u.ph.joined[c] == h[i].ph.count
  {
    RunKeepsInv(h, i);
    assert |Waiting(h[i])| > 0;
    assert exists d :: d in Waiting(h[i]);
  }

  /** A call that has returned, or is about to, joined a phase that has ended. */
  lemma ReturnsAfterItsPhase(h: seq<State>, i: nat, c: Call)
    requires Run(h) && i < |h| && (Is(h[i], c, LastOut) || Is(h[i], c, Returned))
    ensures c in h[i].ph.joined
    ensures h[i].ph.joined[c] < h[i].ph.count || (h[i].ph.joined[c] == h[i].ph.count && !h[i].ph.open)
  {
    RunKeepsInv(h, i);
  }

  // ----- every phase executes once

  /** The leader has got to the function. */
  predicate Began(s: State) {
    s.m.lead.By? && s.m.lead.c in s.at && var p := s.at[s.m.lead.c]; p == Executing || p.LeadWantIn? || p.LeadClosing?
  }

  /** Phase p has got to the function. */
  predicate Past(s: State, p: nat) {
    1 <= p && (p < s.ph.count || (p == s.ph.count && (!s.ph.open || Began(s))))
  }

  /** Some call begins to execute its function. */
  ghost predicate Starts(s: State, u: State) {
    exists c :: Is(u, c, Executing) && !Is(s, c, Executing)
  }

  /** How often a function is executed in phase p in the course of h. */
  ghost function Executions(h: seq<State>, p: nat): nat {
    var n := |h| - 1;
    if n < 1 then 0
    else Executions(h[..n], p) + (if Starts(h[n - 1], h[n]) && h[n].ph.count == p then 1 else 0)
  }

  lemma StartsExactly(s: State, e: Event, u: State)
    requires Happens(s, e, u)
    ensures Starts(s, u) <==> e.LeadUnlockIn?
  {
    OneMoves(s, e, u);
    if e.LeadUnlockIn? {
      assert Is(u, e.c, Executing) && !Is(s, e.c, Executing);
    }
  }

  lemma BeganStep(s: State, e: Event, u: State)
    requires Inv(s) && Inv(u) && Happens(s, e, u)
    ensures e.LeadLockOut? ==> !s.ph.open && !Began(u)
    ensures e.LeadUnlockIn? ==> s.ph.open && !Began(s) && Began(u)
    ensures e.LeadUnlockOut? ==> Began(s)
    ensures !e.LeadLockOut? && !e.LeadUnlockIn? && !e.LeadUnlockOut? && s.ph.open ==> (Began(u) <==> Began(s))
  {
    OneMoves(s, e, u);
  }

  lemma PhaseStep(s: State, e: Event, u: State)
    requires Happens(s, e, u)
    ensures u.ph.count == if e.LeadLockOut? then s.ph.count + 1 else s.ph.count
    ensures u.ph.open == if e.LeadLockOut? then true else if e.LeadUnlockOut? then false else s.ph.open
  {
  }

  /** A phase gets past its function in the step that executes it, and in no other. */
  lemma PastStep(s: State, e: Event, u: State, p: nat)
    requires Inv(s) && Inv(u) && Happens(s, e, u) && Numbered(s)
    ensures Past(u, p) <==> Past(s, p) || (e.LeadUnlockIn? && u.ph.count == p)
    ensures e.LeadUnlockIn? && u.ph.count == p ==> !Past(s, p)
  {
    BeganStep(s, e, u);
    PhaseStep(s, e, u);
  }

  /** Phases are numbered from one. */
  ghost predicate Numbered(s: State) {
    (s.ph.open ==> s.ph.count >= 1) && forall c | c in s.ph.joined :: s.ph.joined[c] >= 1
  }

  lemma {:induction false} PhasesNumbered(h: seq<State>)
    requires Run(h)
    ensures Numbered(h[|h| - 1])
    decreases |h|
  {
    var n := |h| - 1;
    if n > 0 {
      PhasesNumbered(h[..n]);
      var e :| Happens(h[n - 1], e, h[n]);
      if e.Join? && Is(h[n], e.c, JoinLeaving) { JoinsAnOpenPhase(h[..n], n - 1, e.c, h[n]); }
      PhaseStep(h[n - 1], e, h[n]);
    }
  }

  lemma ExecutionStep(s: State, u: State, p: nat)
    requires Ordered(s) && Ordered(u) && Step(s, u)
    ensures (if Past(u, p) then 1 else 0) == (if Past(s, p) then 1 else 0) + (if Starts(s, u) && u.ph.count == p then 1 else 0)
  {
    var e :| Happens(s, e, u);
    StartsExactly(s, e, u);
    PastStep(s, e, u, p);
  }

  ghost predicate Ordered(s: State) {
    Inv(s) && Numbered(s)
  }

  lemma LastOrdered(h: seq<State>)
    requires Run(h)
    ensures Ordered(h[|h| - 1])
  {
    RunKeepsInv(h, |h| - 1);
    PhasesNumbered(h);
  }

  lemma ExecutionBetween(g: seq<State>, h: seq<State>, s: State, u: State, p: nat)
    requires Run(g) && Run(h) && g[|g| - 1] == s && h[|h| - 1] == u && Step(s, u)
    ensures (if Past(u, p) then 1 else 0) == (if Past(s, p) then 1 else 0) + (if Starts(s, u) && u.ph.count == p then 1 else 0)
  {
    LastOrdered(g);
    LastOrdered(h);
    ExecutionStep(s, u, p);
  }

  /** In every run a phase has executed once if it has got to the function, and otherwise never. */
  lemma {:induction false} ExecutedAtMostOnce(h: seq<State>, p: nat)
    requires Run(h)
    ensures Executions(h, p) == if Past(h[|h| - 1], p) then 1 else 0
    decreases |h|
  {
    var n := |h| - 1;
    if n > 0 {
      ExecutedAtMostOnce(h[..n], p);
      ExecutionBetween(h[..n], h, h[n - 1], h[n], p);
    }
  }

  lemma {:induction false} ExecutionHappened(h: seq<State>, p: nat) returns (j: nat, d: Call)
    requires Executions(h, p) > 0
    ensures j < |h| && Is(h[j], d, Executing) && h[j].ph.count == p
    decreases |h|
  {
    var n := |h| - 1;
    if Starts(h[n - 1], h[n]) && h[n].ph.count == p {
      j := n;
      d :| Is(h[n], d, Executing) && !Is(h[n - 1], d, Executing);
    } else {
      j, d := ExecutionHappened(h[..n], p);
    }
  }

  lemma {:induction false} RunPrefix(h: seq<State>, n: nat)
    requires Run(h) && 1 <= n <= |h|
    ensures Run(h[..n])
    decreases |h|
  {
    if n == |h| {
      assert h[..n] == h;
    } else {
      RunPrefix(h[..|h| - 1], n);
      assert h[..|h| - 1][..n] == h[..n];
    }
  }

  /** When a call has returned, or is about to, the phase it joined has executed, exactly once. */
  lemma ReturnsAfterExecution(h: seq<State>, i: nat, c: Call) returns (j: nat, d: Call)
    requires Run(h) && i < |h| && (Is(h[i], c, LastOut) || Is(h[i], c, Returned))
    ensures c in h[i].ph.joined && Executions(h[..i + 1], h[i].ph.joined[c]) == 1
    ensures j <= i && Is(h[j], d, Executing) && h[j].ph.count == h[i].ph.joined[c]
  {
    var g := h[..i + 1];
    RunPrefix(h, i + 1);
    ReturnsAfterItsPhase(h, i, c);
    PhasesNumbered(g);
    assert g[|g| - 1] == h[i];
    ExecutedAtMostOnce(g, h[i].ph.joined[c]);
    j, d := ExecutionHappened(g, h[i].ph.joined[c]);
  }

  // ----- progress

  /** Points from which a call can always go on. */
  predicate Unhindered(p: Point) {
    p == Entered || p == LeadHasBoth || p == Executing || p.LeadClosing? || p == JoinLeaving
    || p == HasOut || p == Leaving || p == LastOut
  }

  /** Some call that is already there can go on. */
  ghost predicate CanStep(s: State) {
    exists e: Event, u: State :: !e.Arrive? && Happens(s, e, u)
  }

  lemma UnhinderedSteps(s: State, c: Call)
    requires c in s.at && Unhindered(s.at[c])
    ensures CanStep(s)
  {
    match s.at[c]
    case Entered =>
      var u := if s.waiters + 1 == 1
               then Move(s, c, LeadWantOut).(waiters := s.waiters + 1, m := s.m.(lead := By(c)))
               else Move(s, c, JoinLeaving).(waiters := s.waiters + 1, ph := s.ph.(joined := s.ph.joined[c := s.ph.count]));
      assert Happens(s, Join(c), u);
    case LeadHasBoth => assert Happens(s, LeadUnlockIn(c), Move(s, c, Executing).(m := UnlockInner(s.m)));
    case Executing => assert Happens(s, Finish(c, false), Move(s, c, LeadWantIn(false)));
    case LeadClosing(panicked) =>
      var u := Move(s, c, if panicked then Leaving else WantOut)
               .(m := HandInner(UnlockOuter(s.m), By(c), Batch).(lead := Free), ph := s.ph.(open := false));
      assert Happens(s, LeadUnlockOut(c), u);
    case JoinLeaving => assert Happens(s, JoinUnlockIn(c), Move(s, c, WantOut).(m := UnlockInner(s.m)));
    case HasOut => assert Happens(s, UnlockOut(c), Move(s, c, Leaving).(m := UnlockOuter(s.m)));
    case Leaving =>
      var u := if s.waiters - 1 == 0
               then Move(s, c, LastOut).(waiters := s.waiters - 1, m := HandInner(s.m, Batch, By(c)))
               else Move(s, c, Returned).(waiters := s.waiters - 1);
      assert Happens(s, Leave(c), u);
    case LastOut => assert Happens(s, UnlockIn(c), Move(s, c, Returned).(m := UnlockInner(s.m)));
  }

  lemma LeaderSteps(s: State, c: Call)
    requires Inv(s) && c in s.at && Leads(s.at[c])
    ensures CanStep(s)
  {
    if Unhindered(s.at[c]) {
      UnhinderedSteps(s, c);
    } else if s.at[c] == LeadWantOut {
      if s.m.outer == Free {
        assert Happens(s, LeadLockOut(c), Move(s, c, LeadHasBoth).(m := s.m.(outer := By(c)),
                ph := Phases(s.ph.count + 1, true, s.ph.joined[c := s.ph.count + 1])));
      } else {
        UnhinderedSteps(s, s.m.outer.c);
      }
    } else {
      assert s.at[c].LeadWantIn?;
      if s.m.inner == Free {
        assert Happens(s, LeadLockIn(c), Move(s, c, LeadClosing(s.at[c].panicked)).(m := s.m.(inner := By(c))));
      } else {
        UnhinderedSteps(s, s.m.inner.c);
      }
    }
  }

  lemma WaiterSteps(s: State, c: Call)
    requires Inv(s) && c in s.at && Waits(s.at[c])
    ensures CanStep(s)
  {
    if s.m.lead.By? {
      LeaderSteps(s, s.m.lead.c);
    } else if Unhindered(s.at[c]) {
      UnhinderedSteps(s, c);
    } else if s.m.outer == Free {
      assert Happens(s, LockOut(c), Move(s, c, HasOut).(m := s.m.(outer := By(c))));
    } else {
      UnhinderedSteps(s, s.m.outer.c);
    }
  }

  /** While a call has not returned, one of those present can go on: no run gets stuck, even if no
      further call arrives. */
  lemma NoDeadlock(h: seq<State>, i: nat, c: Call)
    requires Run(h) && i < |h| && c in h[i].at && h[i].at[c] != Returned
    ensures CanStep(h[i])
  {
    var s := h[i];
    RunKeepsInv(h, i);
    if Unhindered(s.at[c]) {
      UnhinderedSteps(s, c);
    } else if Waits(s.at[c]) {
      WaiterSteps(s, c);
    } else {
      assert s.at[c] == WantIn;
      match s.m.inner
      case Free => assert Happens(s, LockIn(c), Move(s, c, Entered).(m := s.m.(inner := By(c))));
      case By(d) => if Waits(s.at[d]) { WaiterSteps(s, d); } else { UnhinderedSteps(s, d); }
      case Batch =>
        var d := PickWaiting(s);
        WaiterSteps(s, d);
    }
  }

  lemma PickWaiting(s: State) returns (d: Call)
    requires Counts(s) && s.waiters > 0
    ensures d in s.at && Waits(s.at[d])
  {
    assert Waiting(s) != {};
    d :| d in Waiting(s);
  }
}
