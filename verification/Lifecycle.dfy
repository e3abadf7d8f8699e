/** The module lifecycle engine as a transition system: one manager that reads statuses one at
    a time, fires control functions in goroutines of their own and consumes their reports, with
    goroutines ending at any moment in between. */
module Lifecycle {
  import opened ModuleGraph

  // ----- states of one module, and the three report-driven phases

  type Status = s: nat | s <= 5
  const DEAD: Status := 0
  const PREPARING: Status := 1
  const OFFLINE: Status := 2
  const STOPPING: Status := 3
  const STARTING: Status := 4
  const ONLINE: Status := 5

  type Statuses = map<Name, Status>

  datatype Phase = Prep | Start | Stop

  /** The status a phase takes modules from, through, and to. */
  function From(ph: Phase): Status {
    match ph case Prep => DEAD case Start => OFFLINE case Stop => ONLINE
  }

  function Via(ph: Phase): Status {
    match ph case Prep => PREPARING case Start => STARTING case Stop => STOPPING
  }

  function To(ph: Phase): Status {
    match ph case Prep => OFFLINE case Start => ONLINE case Stop => OFFLINE
  }

  predicate Transitional(s: Status) {
    s == PREPARING || s == STARTING || s == STOPPING
  }

  function PhaseOf(s: Status): (ph: Phase)
    requires Transitional(s)
    ensures Via(ph) == s
  {
    if s == PREPARING then Prep else if s == STARTING then Start else Stop
  }

  /** Whether a module in status x lets those that wait for it proceed in phase ph. */
  predicate Clear(ph: Phase, x: Status) {
    match ph case Prep => x >= OFFLINE case Start => x >= ONLINE case Stop => x <= OFFLINE
  }

  // ----- the system

  /** The graph with its converse, and what the surroundings may do. */
  datatype Config = Config(
    deps: Graph, reverse: Graph,
    prepMayFail: bool, startMayFail: bool, stopMayFail: bool, flagsMayChange: bool)
  {
    predicate MayFail(ph: Phase) {
      match ph case Prep => prepMayFail case Start => startMayFail case Stop => stopMayFail
    }

    /** The modules that m waits for in phase ph. */
    function Awaited(ph: Phase, m: Name): set<Name>
      requires m in deps && m in reverse
    {
      if ph == Stop then reverse[m] else deps[m]
    }
  }

  /** The reverse lists are exactly the converse of the dependency lists. */
  ghost predicate Converse(deps: Graph, reverse: Graph) {
    && Closed(deps)
    && reverse.Keys == deps.Keys
    && (forall a, b | a in deps && b in reverse[a] :: b in deps && a in deps[b])
    && (forall a, b | b in deps && a in deps[b] :: b in reverse[a])
  }

  ghost predicate Linked(c: Config) {
    Converse(c.deps, c.reverse)
  }

  datatype Report = Report(name: Name, failed: bool)

  /** What the manager has read so far of the modules that m waits for. */
  datatype Check = Idle | Checking(ph: Phase, m: Name, seen: set<Name>)

  /** running: modules whose control function is in flight; current: those of them that report
      to the current phase; finished: reports of the current phase that wait to be received;
      failed: modules whose last control function to end has failed. */
  datatype Sys = Sys(
    status: Statuses, enabled: set<Name>,
    running: set<Name>, current: set<Name>, finished: seq<Report>,
    check: Check, failed: set<Name>)

  datatype Event =
    | Look(ph: Phase, m: Name)
    | See(d: Name)
    | Drop
    | Begin
    | End(m: Name, failed: bool)
    | SetFlags(enabled: set<Name>)
    | Receive(k: nat)
    | NewChannel

  ghost predicate Happens(c: Config, s: Sys, e: Event, t: Sys) {
    match e
    case Look(ph, m) =>
      m in s.status && s.status[m] == From(ph) && t == s.(check := Checking(ph, m, {}))
    case See(d) =>
      && s.check.Checking? && s.check.m in c.deps && s.check.m in c.reverse
      && d in c.Awaited(s.check.ph, s.check.m) && d in s.status && Clear(s.check.ph, s.status[d])
      && t == s.(check := s.check.(seen := s.check.seen + {d}))
    case Drop =>
      t == s.(check := Idle)
    case Begin =>
      && s.check.Checking? && s.check.m in c.deps && s.check.m in c.reverse
      && s.check.seen == c.Awaited(s.check.ph, s.check.m)
      && t == Begun(s, s.check.ph, s.check.m)
    case End(m, failed) =>
      && m in s.running && m in s.status && Transitional(s.status[m])
      && (failed ==> c.MayFail(PhaseOf(s.status[m])))
      && t == Ended(s, m, failed)
    case SetFlags(enabled) =>
      c.flagsMayChange && t == s.(enabled := enabled)
    case Receive(k) =>
      k < |s.finished| && t == s.(finished := s.finished[..k] + s.finished[k + 1..])
    case NewChannel =>
      t == s.(current := {}, finished := [])
  }

  /** The manager sets the intermediate status and fires the control function. */
  function Begun(s: Sys, ph: Phase, m: Name): Sys {
    s.(status := s.status[m := Via(ph)],
       running := s.running + {m},
       current := s.current + {m},
       check := Idle)
  }

  /** A control function comes to its end: its goroutine sets the status, then offers its
      report. A failed prep or start leaves the status; a stop always ends Offline. */
  function Ended(s: Sys, m: Name, failed: bool): Sys
    requires m in s.status && Transitional(s.status[m])
  {
    var ph := PhaseOf(s.status[m]);
    s.(status := if failed && ph != Stop then s.status else s.status[m := To(ph)],
       running := s.running - {m},
       current := s.current - {m},
       failed := if failed then s.failed + {m} else s.failed - {m},
       finished := if m in s.current then s.finished + [Report(m, failed)] else s.finished)
  }

  /** Events that are not the manager's deeds: goroutines, flags, and the manager's looking. */
  predicate Passive(e: Event) {
    !e.Begin? && !e.Receive? && !e.NewChannel?
  }

  ghost predicate Step(c: Config, passive: bool, s: Sys, t: Sys) {
    exists e :: Happens(c, s, e, t) && (passive ==> Passive(e))
  }

  ghost predicate Path(c: Config, passive: bool, h: seq<Sys>) {
    |h| > 0 && (|h| > 1 ==> Path(c, passive, h[..|h| - 1]) && Step(c, passive, h[|h| - 2], h[|h| - 1]))
  }

  ghost predicate Init(c: Config, s: Sys) {
    && Linked(c)
    && s.status == (map m | m in c.deps :: DEAD)
    && s.running == s.current == {}
    && s.finished == []
    && s.check == Idle
    && s.failed == {}
  }

  /** Every interleaving of the manager with its goroutines, from registration on. */
  ghost predicate Run(c: Config, h: seq<Sys>) {
    Path(c, false, h) && Init(c, h[0])
  }

  ghost predicate Reachable(c: Config, s: Sys) {
    exists h :: Run(c, h) && h[|h| - 1] == s
  }

  ghost predicate Leads(c: Config, passive: bool, s: Sys, t: Sys) {
    exists h :: Path(c, passive, h) && h[0] == s && h[|h| - 1] == t
  }

  // ----- composing runs

  lemma LeadsSelf(c: Config, passive: bool, s: Sys)
    ensures Leads(c, passive, s, s)
  {
    assert Path(c, passive, [s]);
  }

  lemma LeadsStep(c: Config, passive: bool, s: Sys, t: Sys, e: Event, u: Sys)
    requires Leads(c, passive, s, t) && Happens(c, t, e, u) && (passive ==> Passive(e))
    ensures Leads(c, passive, s, u)
  {
    var h :| Path(c, passive, h) && h[0] == s && h[|h| - 1] == t;
    assert (h + [u])[..|h|] == h;
    assert Path(c, passive, h + [u]);
  }

  lemma {:induction false} PathsJoin(c: Config, passive: bool, h: seq<Sys>, k: seq<Sys>)
    requires Path(c, passive, h) && Path(c, passive, k) && h[|h| - 1] == k[0]
    ensures Path(c, passive, h + k[1..])
    decreases |k|
  {
    if |k| == 1 {
      assert h + k[1..] == h;
    } else {
      PathsJoin(c, passive, h, k[..|k| - 1]);
      JoinedParts(h, k);
    }
  }

  lemma JoinedParts<T>(h: seq<T>, k: seq<T>)
    requires |h| > 0 && |k| > 1 && h[|h| - 1] == k[0]
    ensures var j := h + k[1..];
      && |j| == |h| + |k| - 1 && j[..|j| - 1] == h + k[..|k| - 1][1..]
      && j[|j| - 2] == k[|k| - 2] && j[|j| - 1] == k[|k| - 1] && j[0] == h[0]
  {
  }

  lemma JoinedEnds<T>(h: seq<T>, k: seq<T>)
    requires |h| > 0 && |k| > 0 && h[|h| - 1] == k[0]
    ensures var j := h + k[1..]; |j| > 0 && j[0] == h[0] && j[|j| - 1] == k[|k| - 1]
  {
  }

  lemma LeadsJoin(c: Config, passive: bool, s: Sys, t: Sys, u: Sys)
    requires Leads(c, passive, s, t) && Leads(c, passive, t, u)
    ensures Leads(c, passive, s, u)
  {
    var h :| Path(c, passive, h) && h[0] == s && h[|h| - 1] == t;
    var k :| Path(c, passive, k) && k[0] == t && k[|k| - 1] == u;
    PathsJoin(c, passive, h, k);
    JoinedEnds(h, k);
  }

  lemma {:induction false} PathWeakens(c: Config, h: seq<Sys>)
    requires Path(c, true, h)
    ensures Path(c, false, h)
  {
    if |h| > 1 { PathWeakens(c, h[..|h| - 1]); }
  }

  lemma LeadsWeakens(c: Config, s: Sys, t: Sys)
    requires Leads(c, true, s, t)
    ensures Leads(c, false, s, t)
  {
    var h :| Path(c, true, h) && h[0] == s && h[|h| - 1] == t;
    PathWeakens(c, h);
  }

  lemma ReachableLeads(c: Config, passive: bool, s: Sys, t: Sys)
    requires Reachable(c, s) && Leads(c, passive, s, t)
    ensures Reachable(c, t)
  {
    if passive { LeadsWeakens(c, s, t); }
    var h :| Run(c, h) && h[|h| - 1] == s;
    var k :| Path(c, false, k) && k[0] == s && k[|k| - 1] == t;
    PathsJoin(c, false, h, k);
    JoinedEnds(h, k);
    assert Run(c, h + k[1..]);
  }

  // ----- the invariant

  ghost predicate Ok(c: Config, s: Sys) {
    && s.status.Keys == c.deps.Keys
    && s.current <= s.running <= c.deps.Keys
    && (forall m | m in s.running :: Transitional(s.status[m]))
    && (forall m | m in s.status :: Transitional(s.status[m]) ==> m in s.running || MayStick(c, s.status[m]))
  }

  /** A failed prep or start leaves the module where it was; a stop never does. */
  predicate MayStick(c: Config, x: Status) {
    (x == PREPARING && c.prepMayFail) || (x == STARTING && c.startMayFail)
  }

  /** Nothing is prepared before its dependencies are, and whatever is starting, online or
      stopping has all of its dependencies online. */
  ghost predicate Safe(g: Graph, s: Statuses) {
    forall m, d | m in s && m in g && d in g[m] && d in s ::
      (s[m] > DEAD ==> s[d] >= OFFLINE) && (s[m] > OFFLINE ==> s[d] == ONLINE)
  }

  /** What the manager has read is still true: no goroutine can undo it. */
  ghost predicate ReadsHold(c: Config, s: Sys) {
    s.check.Checking? ==>
      && s.check.m in s.status
      && s.status[s.check.m] == From(s.check.ph)
      && forall d | d in s.check.seen :: d in s.status && Clear(s.check.ph, s.status[d])
  }

  ghost predicate CyclesDead(g: Graph, s: Statuses) {
    forall m | m in g && ReachesCycle(g, m) :: m in s && s[m] == DEAD
  }

  ghost predicate Inv(c: Config, s: Sys) {
    Ok(c, s) && Safe(c.deps, s.status) && ReadsHold(c, s) && CyclesDead(c.deps, s.status)
  }

  /** A module on or before a cycle always has a dependency that keeps it from being prepared. */
  lemma CyclesBlock(g: Graph, s: Statuses, m: Name, x: Status)
    requires CyclesDead(g, s) && m in s && (s[m] == DEAD ==> forall d | Edge(g, m, d) :: d in s && s[d] >= OFFLINE)
    ensures CyclesDead(g, s[m := x])
  {
    if m in g && ReachesCycle(g, m) {
      CycleStep(g, m);
    }
  }

  lemma EndKeepsInv(c: Config, s: Sys, m: Name, failed: bool, t: Sys)
    requires Inv(c, s) && Happens(c, s, End(m, failed), t)
    ensures Inv(c, t)
  {
    CyclesBlock(c.deps, s.status, m, To(PhaseOf(s.status[m])));
  }

  lemma BeginKeepsInv(c: Config, s: Sys, t: Sys)
    requires Linked(c) && Inv(c, s) && Happens(c, s, Begin, t)
    ensures Inv(c, t)
  {
    var m, ph := s.check.m, s.check.ph;
    assert forall d | d in c.Awaited(ph, m) :: Clear(ph, s.status[d]);
    assert Safe(c.deps, t.status);
    CyclesBlock(c.deps, s.status, m, Via(ph));
  }

  lemma StepKeepsInv(c: Config, s: Sys, e: Event, t: Sys)
    requires Linked(c) && Inv(c, s) && Happens(c, s, e, t)
    ensures Inv(c, t)
  {
    match e
    case End(m, failed) => EndKeepsInv(c, s, m, failed, t);
    case Begin => BeginKeepsInv(c, s, t);
    case _ =>
  }

  lemma {:induction false} RunKeepsInv(c: Config, h: seq<Sys>, i: nat)
    requires Run(c, h) && i < |h|
    ensures Linked(c) && Inv(c, h[i])
    decreases |h|
  {
    if |h| > 1 {
      var n := |h| - 1;
      RunKeepsInv(c, h[..n], if i < n then i else n - 1);
      if i == n {
        var e :| Happens(c, h[n - 1], e, h[n]);
        StepKeepsInv(c, h[n - 1], e, h[n]);
      }
    }
  }

  lemma ReachableInv(c: Config, s: Sys)
    requires Reachable(c, s)
    ensures Linked(c) && Inv(c, s)
  {
    var h :| Run(c, h) && h[|h| - 1] == s;
    RunKeepsInv(c, h, |h| - 1);
  }

  // ----- what holds in every run

  /** In every state of every run, whatever is starting, online or stopping has each of its
      dependencies online, and whatever left Dead has each of them prepared. */
  lemma NothingOutlivesItsDependencies(c: Config, h: seq<Sys>, i: nat, m: Name, d: Name)
    requires Run(c, h) && i < |h| && Edge(c.deps, m, d)
    ensures m in h[i].status && d in h[i].status
    ensures h[i].status[m] > OFFLINE ==> h[i].status[d] == ONLINE
    ensures h[i].status[m] > DEAD ==> h[i].status[d] >= OFFLINE
  {
    RunKeepsInv(c, h, i);
  }

  predicate Lives(s: Statuses, m: Name) {
    m in s && s[m] != DEAD
  }

  /** How often m left Dead in the course of h. */
  ghost function Preparations(h: seq<Sys>, m: Name): nat {
    var n := |h| - 1;
    if n < 1 then 0
    else Preparations(h[..n], m) + (if !Lives(h[n - 1].status, m) && Lives(h[n].status, m) then 1 else 0)
  }

  lemma StepStaysAlive(c: Config, s: Sys, t: Sys, m: Name)
    requires Ok(c, s) && Step(c, false, s, t) && Lives(s.status, m)
    ensures Lives(t.status, m)
  {
    var e :| Happens(c, s, e, t);
  }

  /** In every run, a module has been prepared once if it left Dead, and otherwise never. */
  lemma {:induction false} PreparedAtMostOnce(c: Config, h: seq<Sys>, m: Name)
    requires Run(c, h)
    ensures Preparations(h, m) == if Lives(h[|h| - 1].status, m) then 1 else 0
    decreases |h|
  {
    var n := |h| - 1;
    if n > 0 {
      assert Run(c, h[..n]) && Step(c, false, h[n - 1], h[n]);
      PreparedAtMostOnce(c, h[..n], m);
      RunKeepsInv(c, h[..n], n - 1);
      if Lives(h[n - 1].status, m) { StepStaysAlive(c, h[n - 1], h[n], m); }
    }
  }

  /** No run ever prepares a module that leads into a dependency cycle. */
  lemma CyclesStayDead(c: Config, h: seq<Sys>, i: nat, m: Name)
    requires Run(c, h) && i < |h| && m in c.deps && ReachesCycle(c.deps, m)
    ensures m in h[i].status && h[i].status[m] == DEAD
  {
    RunKeepsInv(c, h, i);
  }
}
