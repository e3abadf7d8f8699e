/** The manager's code, run against goroutines that may end between any two of its reads: the
    report-driven loops, the dependency marking, and what they achieve. */
module ModuleManager {
  import opened Basics
  import opened ModuleGraph
  import opened Lifecycle
  import opened PhaseReports

  datatype Readiness = Waiting | GoAhead | NothingToDo

  datatype Outcome = Done | LoopDetected | Failed(name: Name) | Refused | Aborted

  // ----- what goroutines can do while the manager only looks

  predicate Advanced(x: Status, y: Status) {
    Transitional(x) && y == To(PhaseOf(x))
  }

  ghost predicate Completions(c: Config, s: Sys, t: Sys) {
    && t.running <= s.running
    && t.current == s.current * t.running
    && t.status.Keys == s.status.Keys
    && (forall m | m in s.status ::
          t.status[m] == s.status[m]
          || (m in s.running && m !in t.running && Advanced(s.status[m], t.status[m])))
    && |t.current| + |t.finished| == |s.current| + |s.finished|
    && (c.flagsMayChange || t.enabled == s.enabled)
  }

  /** The reports of this phase stem from control functions of this phase. */
  ghost predicate InPhase(c: Config, s: Sys, ph: Phase) {
    && (forall m | m in s.current :: m in s.status && s.status[m] == Via(ph))
    && (forall r | r in s.finished :: r.failed ==> c.MayFail(ph))
  }

  ghost function InStatus(s: Statuses, x: Status): set<Name> {
    set m | m in s && s[m] == x
  }

  /** How much is left to do at most in phase ph, leftovers of earlier phases included. */
  ghost function Remaining(ph: Phase, s: Sys): nat {
    2 * |InStatus(s.status, From(ph))| + 3 * |s.running - s.current| + |s.current| + |s.finished|
  }

  /** Reports of the current phase that are still to come. */
  function Outstanding(s: Sys): nat {
    |s.current| + |s.finished|
  }

  /** What a passive step cannot break. */
  ghost predicate Kept(c: Config, ph: Phase, s: Sys, t: Sys) {
    Completions(c, s, t) && (InPhase(c, s, ph) ==> InPhase(c, t, ph) && Remaining(ph, t) <= Remaining(ph, s))
  }

  lemma EndLessensWork(s: Sys, m: Name, failed: bool, ph: Phase)
    requires m in s.status && m in s.running && Transitional(s.status[m]) && s.current <= s.running
    requires m in s.current ==> s.status[m] == Via(ph)
    ensures Remaining(ph, Ended(s, m, failed)) <= Remaining(ph, s)
  {
    var t := Ended(s, m, failed);
    var before, after := InStatus(s.status, From(ph)), InStatus(t.status, From(ph));
    if m in s.current {
      assert after == before;
      EndedRest(s.running, s.current, m);
    } else {
      assert after <= before + {m};
      CardinalityMonotone(after, before + {m});
      EndedRest(s.running, s.current, m);
    }
  }

  lemma EndedRest(running: set<Name>, current: set<Name>, m: Name)
    requires m in running && current <= running
    ensures |(running - {m}) - (current - {m})| == |running - current| - (if m in current then 0 else 1)
    ensures |current - {m}| == |current| - (if m in current then 1 else 0)
  {
    if m in current {
      assert (running - {m}) - (current - {m}) == running - current;
    } else {
      assert (running - {m}) - (current - {m}) == (running - current) - {m};
      assert current - {m} == current;
    }
  }

  lemma EndKeeps(c: Config, ph: Phase, s: Sys, m: Name, failed: bool)
    requires Ok(c, s) && m in s.running && (failed ==> c.MayFail(PhaseOf(s.status[m])))
    ensures Kept(c, ph, s, Ended(s, m, failed))
  {
    if InPhase(c, s, ph) { EndLessensWork(s, m, failed, ph); }
  }

  lemma KeptJoin(c: Config, ph: Phase, s: Sys, t: Sys, u: Sys)
    requires Ok(c, s) && Ok(c, t) && Kept(c, ph, s, t) && Kept(c, ph, t, u)
    ensures Kept(c, ph, s, u)
  {
  }

  lemma PassiveStepKeeps(c: Config, ph: Phase, s: Sys, e: Event, t: Sys)
    requires Ok(c, s) && Happens(c, s, e, t) && Passive(e)
    ensures Kept(c, ph, s, t)
  {
    if e.End? { EndKeeps(c, ph, s, e.m, e.failed); }
  }

  lemma {:induction false} PassivePathKeeps(c: Config, ph: Phase, h: seq<Sys>)
    requires Linked(c) && Path(c, true, h) && Inv(c, h[0])
    ensures Kept(c, ph, h[0], h[|h| - 1]) && Inv(c, h[|h| - 1])
  {
    var n := |h| - 1;
    if n > 0 {
      PassivePathKeeps(c, ph, h[..n]);
      var e :| Happens(c, h[n - 1], e, h[n]) && Passive(e);
      PassiveStepKeeps(c, ph, h[n - 1], e, h[n]);
      StepKeepsInv(c, h[n - 1], e, h[n]);
      KeptJoin(c, ph, h[0], h[n - 1], h[n]);
    }
  }

  lemma PassiveKeeps(c: Config, ph: Phase, s: Sys, t: Sys)
    requires Reachable(c, s) && Leads(c, true, s, t)
    ensures Kept(c, ph, s, t) && Inv(c, t)
  {
    ReachableInv(c, s);
    var h :| Path(c, true, h) && h[0] == s && h[|h| - 1] == t;
    PassivePathKeeps(c, ph, h);
  }

  lemma Extend(c: Config, passive: bool, s: Sys, t: Sys, e: Event, u: Sys)
    requires Reachable(c, t) && Leads(c, passive, s, t) && Happens(c, t, e, u) && (passive ==> Passive(e))
    ensures Leads(c, passive, s, u) && Reachable(c, u)
  {
    LeadsStep(c, passive, s, t, e, u);
    LeadsSelf(c, passive, t);
    LeadsStep(c, passive, t, t, e, u);
    ReachableLeads(c, passive, t, u);
  }

  lemma Reach(c: Config, s: Sys, e: Event, t: Sys)
    requires Reachable(c, s) && Happens(c, s, e, t)
    ensures Reachable(c, t)
  {
    LeadsSelf(c, false, s);
    LeadsStep(c, false, s, s, e, t);
    ReachableLeads(c, false, s, t);
  }

  // ----- what a phase makes of a calm system

  ghost predicate SameFlags(c: Config, s: Sys, t: Sys) {
    c.flagsMayChange || t.enabled == s.enabled
  }

  /** Which modules a phase concerns does not change on the way: nobody touches the flags, or the
      phase does not read them. */
  predicate Steady(c: Config, ph: Phase, managed: bool, shutdown: bool) {
    !c.flagsMayChange || ConcernsAll(ph, managed, shutdown)
  }

  predicate ConcernsAll(ph: Phase, managed: bool, shutdown: bool) {
    ph == Prep || !managed || (ph == Stop && shutdown)
  }

  /** s results from s0 by moving concerned modules along phase ph, everything in flight
      belonging to that phase. */
  ghost predicate Conforms(ph: Phase, concerned: set<Name>, s0: Statuses, s: Sys) {
    && s.running == s.current
    && s.status.Keys == s0.Keys
    && (forall m | m in s.running :: m in concerned && m in s0 && s0[m] == From(ph))
    && forall m | m in s0 ::
         s.status[m] == s0[m]
         || (m in concerned && s0[m] == From(ph) && (s.status[m] == Via(ph) || s.status[m] == To(ph)))
  }

  /** A phase is underway: what it moved conforms, and nothing about its reports is lost. */
  ghost predicate OnTrack(ph: Phase, concerned: set<Name>, o: Origin, s: Sys) {
    Conforms(ph, concerned, o.status, s) && Tracks(ph, o, s)
  }

  /** A prep or start phase has given up on a module whose control function failed. */
  ghost predicate GaveUp(c: Config, ph: Phase, concerned: set<Name>, s0: Sys, s: Sys, m: Name) {
    && ph != Stop && c.MayFail(ph)
    && Conforms(ph, concerned, s0.status, s) && s.status.Keys == c.deps.Keys
    && m in concerned && Moved(s0.status, s, m) && s.status[m] == Via(ph) && m in s.failed
  }

  /** The outcome tells of the failures: done if nothing that was moved has failed, and a failure
      reported is one of them. Nobody else's mark has changed. */
  ghost predicate TellsFailures(s0: Sys, s: Sys, out: Outcome) {
    && (out == Done ==> forall m | Moved(s0.status, s, m) :: m !in s.failed)
    && (out.Failed? ==> Moved(s0.status, s, out.name) && out.name in s.failed)
    && (forall m | m in s0.status && m in s.status && s.status[m] == s0.status[m] :: m in s.failed <==> m in s0.failed)
  }

  /** What a phase leaves of a quiet system: it gave up on a failing module, or it ran to its end. */
  ghost predicate PhaseResult(c: Config, ph: Phase, concerned: set<Name>, s0: Sys, s: Sys, out: Outcome) {
    if ph != Stop && out.Failed? then
      GaveUp(c, ph, concerned, s0, s, out.name)
    else
      PhaseDone(c, ph, concerned, s0.status, s, out) && TellsFailures(s0, s, out)
  }

  ghost predicate Unblocked(c: Config, s: Statuses, ph: Phase, m: Name)
    requires m in c.deps && m in c.reverse
  {
    forall d | d in c.Awaited(ph, m) :: d in s && Clear(ph, s[d])
  }

  ghost function Verdict(c: Config, s: Statuses, concerned: set<Name>, ph: Phase, m: Name): Readiness
    requires m in c.deps && m in c.reverse && m in s
  {
    if m !in concerned || s[m] != From(ph) then NothingToDo
    else if Unblocked(c, s, ph, m) then GoAhead
    else Waiting
  }

  lemma ConformsThroughCompletions(c: Config, ph: Phase, concerned: set<Name>, s0: Statuses, s: Sys, t: Sys)
    requires Conforms(ph, concerned, s0, s) && Completions(c, s, t) && InPhase(c, s, ph)
    ensures Conforms(ph, concerned, s0, t)
  {
  }

  lemma BeginLessensWork(c: Config, s: Sys, ph: Phase, m: Name)
    requires Ok(c, s) && InPhase(c, s, ph) && m in s.status && s.status[m] == From(ph)
    ensures InPhase(c, Begun(s, ph, m), ph)
    ensures Remaining(ph, Begun(s, ph, m)) < Remaining(ph, s)
    ensures |Begun(s, ph, m).current| == |s.current| + 1
  {
    var t := Begun(s, ph, m);
    assert InStatus(t.status, From(ph)) == InStatus(s.status, From(ph)) - {m};
    assert m in InStatus(s.status, From(ph));
    assert t.running - t.current == s.running - s.current;
  }

  /** With nothing in flight looking changes no status. */
  lemma CalmStays(c: Config, s: Sys, t: Sys)
    requires Reachable(c, s) && Leads(c, true, s, t) && s.running == {}
    ensures t.status == s.status && SameFlags(c, s, t) && t.running == {}
  {
    PassiveKeeps(c, Prep, s, t);
    CompletionsOfNothing(c, s, t);
  }

  lemma CompletionsOfNothing(c: Config, s: Sys, t: Sys)
    requires Completions(c, s, t) && s.running == {}
    ensures t.status == s.status && SameFlags(c, s, t) && t.running == {}
  {
    assert forall m | m in s.status :: t.status[m] == s.status[m];
  }

  lemma AfterLooking(c: Config, ph: Phase, s: Sys, t: Sys)
    requires Reachable(c, s) && Leads(c, true, s, t) && InPhase(c, s, ph)
    ensures InPhase(c, t, ph) && Remaining(ph, t) <= Remaining(ph, s) && SameFlags(c, s, t)
    ensures |t.current| + |t.finished| == |s.current| + |s.finished|
  {
    PassiveKeeps(c, ph, s, t);
  }

  lemma FixedAfterLooking(c: Config, ph: Phase, concerned: set<Name>, o: Origin, s: Sys, t: Sys)
    requires Reachable(c, s) && Leads(c, true, s, t) && InPhase(c, s, ph)
    requires OnTrack(ph, concerned, o, s)
    ensures OnTrack(ph, concerned, o, t) && SameFlags(c, s, t)
    ensures |s.current| == 0 ==> t.status == s.status
  {
    PassiveKeeps(c, ph, s, t);
    ConformsThroughCompletions(c, ph, concerned, o.status, s, t);
    LookingTracks(c, ph, o, s, t);
    if |s.current| == 0 { CalmStays(c, s, t); }
  }

  lemma ConformsBegun(ph: Phase, concerned: set<Name>, s0: Statuses, s: Sys, m: Name)
    requires Conforms(ph, concerned, s0, s) && m in concerned && m in s.status && s.status[m] == From(ph)
    ensures Conforms(ph, concerned, s0, Begun(s, ph, m))
  {
  }

  lemma OnTrackBegun(ph: Phase, concerned: set<Name>, o: Origin, s: Sys, m: Name)
    requires OnTrack(ph, concerned, o, s) && m in concerned && m in s.status && s.status[m] == From(ph)
    ensures OnTrack(ph, concerned, o, Begun(s, ph, m))
  {
    ConformsBegun(ph, concerned, o.status, s, m);
    BegunTracks(ph, o, s, m);
  }

  lemma SeenAll(c: Config, s: Sys)
    requires Reachable(c, s) && s.check.Checking? && s.check.m in c.deps && s.check.m in c.reverse
    requires s.check.seen == c.Awaited(s.check.ph, s.check.m)
    ensures Unblocked(c, s.status, s.check.ph, s.check.m)
    ensures s.check.m in s.status && s.status[s.check.m] == From(s.check.ph)
  {
    ReachableInv(c, s);
  }

  lemma AwaitedKnown(c: Config, s: Sys, dep: Name)
    requires Reachable(c, s) && s.check.Checking? && s.check.m in c.deps && s.check.m in c.reverse
    requires dep in c.Awaited(s.check.ph, s.check.m)
    ensures dep in s.status
  {
    KeysFit(c, s);
    AwaitedRegistered(c, s.check.ph, s.check.m, dep);
  }

  lemma AwaitedRegistered(c: Config, ph: Phase, m: Name, dep: Name)
    requires Linked(c) && m in c.deps && dep in c.Awaited(ph, m)
    ensures dep in c.deps
  {
  }

  function AfterReading(s: Sys, dep: Name, clear: bool): Sys
    requires s.check.Checking?
  {
    s.(check := if clear then s.check.(seen := s.check.seen + {dep}) else Idle)
  }

  lemma StatusRead(c: Config, s: Sys, t: Sys, dep: Name, clear: bool)
    requires Reachable(c, t) && Leads(c, true, s, t) && t.check.Checking? && t.check.m in c.deps && t.check.m in c.reverse
    requires dep in c.Awaited(t.check.ph, t.check.m) && dep in t.status && (clear ==> Clear(t.check.ph, t.status[dep]))
    ensures Leads(c, true, s, AfterReading(t, dep, clear)) && Reachable(c, AfterReading(t, dep, clear))
  {
    var u := AfterReading(t, dep, clear);
    if clear {
      Extend(c, true, s, t, See(dep), u);
    } else {
      Extend(c, true, s, t, Drop, u);
    }
  }

  lemma Removed(all: set<Name>, todo: set<Name>, m: Name)
    requires todo <= all && m in todo
    ensures all - (todo - {m}) == all - todo + {m}
  {
  }

  predicate IsConcerned(ph: Phase, managed: bool, shutdown: bool, needed: bool) {
    match ph
    case Prep => true
    case Start => !managed || needed
    case Stop => !managed || shutdown || !needed
  }

  ghost function ConcernedBy(
    modules: set<Name>, ph: Phase, managed: bool, shutdown: bool, enabled: set<Name>, asDependency: set<Name>): set<Name>
  {
    set m | m in modules && IsConcerned(ph, managed, shutdown, m in enabled || m in asDependency)
  }

  lemma StaysConcerned(
    c: Config, ph: Phase, managed: bool, shutdown: bool, s: Sys, t: Sys, asDependency: set<Name>)
    requires Steady(c, ph, managed, shutdown) && SameFlags(c, s, t)
    ensures ConcernedBy(c.deps.Keys, ph, managed, shutdown, s.enabled, asDependency)
         == ConcernedBy(c.deps.Keys, ph, managed, shutdown, t.enabled, asDependency)
  {
    if ConcernsAll(ph, managed, shutdown) {
      AllConcerned(c.deps.Keys, ph, managed, shutdown, s.enabled, asDependency);
      AllConcerned(c.deps.Keys, ph, managed, shutdown, t.enabled, asDependency);
    }
  }

  lemma AllConcerned(
    modules: set<Name>, ph: Phase, managed: bool, shutdown: bool, enabled: set<Name>, asDependency: set<Name>)
    requires ConcernsAll(ph, managed, shutdown)
    ensures ConcernedBy(modules, ph, managed, shutdown, enabled, asDependency) == modules
  {
    var concerned := ConcernedBy(modules, ph, managed, shutdown, enabled, asDependency);
    assert forall m | m in modules :: IsConcerned(ph, managed, shutdown, m in enabled || m in asDependency);
    assert forall m :: m in concerned <==> m in modules;
  }

  class ModuleSystem {
    const c: Config
    var sys: Sys
    var asDependency: set<Name>
    var managed: bool
    var shutdown: bool
    var started: bool

    ghost predicate Valid()
      reads this
    {
      Reachable(c, sys)
    }

    /** Nothing in flight, and nobody touches the enabled flags. */
    ghost predicate Calm()
      reads this
    {
      sys.running == {} && !c.flagsMayChange
    }

    /** Nothing in flight, and nobody touches the flags that the phase reads. */
    ghost predicate Quiet(ph: Phase)
      reads this
    {
      sys.running == {} && Steady(c, ph, managed, shutdown)
    }

    /** Whether phase ph is to act on m: everything is prepared; under module management only
        what is enabled, also as a dependency, is started and only what is not is stopped,
        except on shutdown. */
    predicate Concerns(ph: Phase, m: Name)
      reads this
    {
      IsConcerned(ph, managed, shutdown, m in sys.enabled || m in asDependency)
    }

    ghost function Concerned(ph: Phase): set<Name>
      reads this
    {
      ConcernedBy(c.deps.Keys, ph, managed, shutdown, sys.enabled, asDependency)
    }

    /** Any number of control functions end, in any order, before the manager's next read. */
    method Interfere()
      requires Valid()
      modifies `sys
      ensures Valid() && Leads(c, true, old(sys), sys) && sys.check == old(sys).check
    {
      LeadsSelf(c, true, sys);
      while *
        invariant Valid() && Leads(c, true, old(sys), sys) && sys.check == old(sys).check
        decreases sys.running
      {
        if sys.running == {} { break; }
        var m := Pick(sys.running);
        ReachableInv(c, sys);
        var failed: bool := *;
        failed := failed && c.MayFail(PhaseOf(sys.status[m]));
        Extend(c, true, old(sys), sys, End(m, failed), Ended(sys, m, failed));
        sys := Ended(sys, m, failed);
      }
      if c.flagsMayChange {
        var flags: set<Name> := *;
        Extend(c, true, old(sys), sys, SetFlags(flags), sys.(enabled := flags));
        sys := sys.(enabled := flags);
      }
    }

    /** Reads the status of one module that the checked one waits for. */
    method ReadStatus(dep: Name) returns (clear: bool)
      requires Valid() && sys.check.Checking? && sys.check.m in c.deps && sys.check.m in c.reverse
      requires dep in c.Awaited(sys.check.ph, sys.check.m)
      modifies `sys
      ensures Valid() && Leads(c, true, old(sys), sys)
      ensures sys.check == if clear then old(sys).check.(seen := old(sys).check.seen + {dep}) else Idle
      ensures dep in sys.status && (clear <==> Clear(old(sys).check.ph, sys.status[dep]))
    {
      Interfere();
      AwaitedKnown(c, sys, dep);
      clear := Clear(sys.check.ph, sys.status[dep]);
      StatusRead(c, old(sys), sys, dep, clear);
      sys := AfterReading(sys, dep, clear);
    }

    /** Reads the own status of a module and, if it fits the phase, begins to check it. */
    method ReadOwnStatus(ph: Phase, m: Name) returns (fits: bool)
      requires Valid() && sys.check == Idle && m in c.deps
      modifies `sys
      ensures Valid() && Leads(c, true, old(sys), sys)
      ensures sys.check == if fits then Checking(ph, m, {}) else Idle
      ensures m in sys.status && (fits <==> sys.status[m] == From(ph))
    {
      Interfere();
      ReachableInv(c, sys);
      fits := sys.status[m] == From(ph);
      if fits {
        Extend(c, true, old(sys), sys, Look(ph, m), sys.(check := Checking(ph, m, {})));
        sys := sys.(check := Checking(ph, m, {}));
      }
    }

    /** Reads the statuses of the modules waited for, one at a time, until one is not clear. */
    method ReadAwaited(ph: Phase, m: Name) returns (clear: bool)
      requires Valid() && m in c.deps && m in c.reverse && sys.check == Checking(ph, m, {})
      modifies `sys
      ensures Valid() && Leads(c, true, old(sys), sys)
      ensures m in sys.status && sys.status[m] == From(ph)
      ensures sys.check == if clear then Checking(ph, m, c.Awaited(ph, m)) else Idle
      ensures !clear ==> exists d | d in c.Awaited(ph, m) :: d in sys.status && !Clear(ph, sys.status[d])
    {
      var awaited := c.Awaited(ph, m);
      var todo := awaited;
      assert m in sys.status && sys.status[m] == From(ph) by { ReachableInv(c, sys); }
      LeadsSelf(c, true, sys);
      while todo != {}
        invariant Valid() && Leads(c, true, old(sys), sys)
        invariant todo <= awaited && sys.check == Checking(ph, m, awaited - todo)
        invariant m in sys.status && sys.status[m] == From(ph)
      {
        ghost var before := sys;
        var dep := Pick(todo);
        clear := ReadStatus(dep);
        LeadsJoin(c, true, old(sys), before, sys);
        assert m in sys.status && sys.status[m] == From(ph) by { OwnStatusStays(c, before, sys); }
        if !clear { return; }
        todo := todo - {dep};
        assert awaited - todo == sys.check.seen;
      }
      assert awaited - todo == awaited;
      clear := true;
    }

    /** readyToPrep, readyToStart and readyToStop: read the own status, then those of the modules
        waited for, one at a time. */
    method ReadyTo(ph: Phase, m: Name) returns (r: Readiness)
      requires Valid() && sys.check == Idle && m in c.deps
      modifies `sys
      ensures Valid() && Leads(c, true, old(sys), sys) && m in c.reverse && m in sys.status
      ensures sys.check == if r == GoAhead then Checking(ph, m, c.Awaited(ph, m)) else Idle
      ensures r == GoAhead ==> old(Concerns(ph, m))
      ensures old(Quiet(ph)) ==> r == Verdict(c, sys.status, old(Concerned(ph)), ph, m)
    {
      assert m in c.reverse && m in sys.status by { ReachableInv(c, sys); }
      LeadsSelf(c, true, sys);
      if !Concerns(ph, m) { return NothingToDo; }
      var fits := ReadOwnStatus(ph, m);
      if !fits { return NothingToDo; }
      ghost var before := sys;
      var clear := ReadAwaited(ph, m);
      LeadsJoin(c, true, old(sys), before, sys);
      if !clear { return Waiting; }
      SeenAll(c, sys);
      return GoAhead;
    }

    /** prep, start and stop: set the intermediate status and fire the control function. The
        status they find is always the right one, since the reads still hold. */
    method Fire(ph: Phase, m: Name)
      requires Valid() && InPhase(c, sys, ph) && m in c.deps && m in c.reverse
      requires sys.check == Checking(ph, m, c.Awaited(ph, m))
      modifies `sys
      ensures Valid() && InPhase(c, sys, ph)
      ensures m in old(sys).status && old(sys).status[m] == From(ph) && sys == Begun(old(sys), ph, m)
      ensures Remaining(ph, sys) < old(Remaining(ph, sys)) && |sys.current| == |old(sys).current| + 1
    {
      ReachableInv(c, sys);
      BeginLessensWork(c, sys, ph, m);
      Reach(c, sys, Begin, Begun(sys, ph, m));
      sys := Begun(sys, ph, m);
    }

    /** One module's turn in a scan: check it and, if it is ready, fire its control function. */
    method Consider(ph: Phase, m: Name, ghost o: Origin, ghost fixed: bool) returns (r: Readiness)
      requires Valid() && sys.check == Idle && m in c.deps && InPhase(c, sys, ph)
      requires fixed ==> Steady(c, ph, managed, shutdown) && OnTrack(ph, Concerned(ph), o, sys)
      modifies `sys
      ensures Valid() && sys.check == Idle && InPhase(c, sys, ph)
      ensures Remaining(ph, sys) <= old(Remaining(ph, sys))
      ensures Outstanding(sys) == old(Outstanding(sys)) + (if r == GoAhead then 1 else 0)
      ensures SameFlags(c, old(sys), sys)
      ensures fixed ==> Concerned(ph) == old(Concerned(ph)) && OnTrack(ph, Concerned(ph), o, sys)
      ensures fixed && |old(sys).current| == 0 && r != GoAhead ==>
        && sys.status == old(sys).status && m in c.reverse && m in sys.status
        && r == Verdict(c, sys.status, old(Concerned(ph)), ph, m)
    {
      ghost var concerned := Concerned(ph);
      r := ReadyTo(ph, m);
      AfterLooking(c, ph, old(sys), sys);
      if fixed {
        FixedAfterLooking(c, ph, concerned, o, old(sys), sys);
        StaysConcerned(c, ph, managed, shutdown, old(sys), sys, asDependency);
      }
      if r == GoAhead {
        if fixed { SeenAll(c, sys); OnTrackBegun(ph, concerned, o, sys, m); }
        Fire(ph, m);
      }
    }

    /** The loop that looks for modules to act upon, in no particular order. */
    method Scan(ph: Phase, ghost o: Origin, ghost fixed: bool) returns (waiting: nat, execs: nat)
      requires Valid() && sys.check == Idle && InPhase(c, sys, ph)
      requires fixed ==> Steady(c, ph, managed, shutdown) && OnTrack(ph, Concerned(ph), o, sys)
      modifies `sys
      ensures Valid() && sys.check == Idle && InPhase(c, sys, ph)
      ensures Remaining(ph, sys) <= old(Remaining(ph, sys))
      ensures Outstanding(sys) == old(Outstanding(sys)) + execs
      ensures SameFlags(c, old(sys), sys)
      ensures fixed ==> Concerned(ph) == old(Concerned(ph)) && OnTrack(ph, Concerned(ph), o, sys)
      ensures Linked(c) && sys.status.Keys == c.deps.Keys
      ensures fixed && Outstanding(sys) == 0 ==> Scanned(c, sys.status, old(Concerned(ph)), ph, c.deps.Keys, waiting)
    {
      ghost var concerned := Concerned(ph);
      var todo := c.deps.Keys;
      waiting, execs := 0, 0;
      KeysFit(c, sys);
      while todo != {}
        invariant Valid() && sys.check == Idle && InPhase(c, sys, ph)
        invariant Remaining(ph, sys) <= old(Remaining(ph, sys))
        invariant Outstanding(sys) == old(Outstanding(sys)) + execs
        invariant SameFlags(c, old(sys), sys)
        invariant fixed ==> Concerned(ph) == concerned && OnTrack(ph, concerned, o, sys)
        invariant todo <= c.deps.Keys && sys.status.Keys == c.deps.Keys
        invariant fixed && Outstanding(sys) == 0 ==> Scanned(c, sys.status, concerned, ph, c.deps.Keys - todo, waiting)
      {
        var m := Pick(todo);
        var r := Tally(ph, m, o, fixed, c.deps.Keys - todo, waiting);
        Removed(c.deps.Keys, todo, m);
        todo := todo - {m};
        match r
        case NothingToDo =>
        case Waiting => waiting := waiting + 1;
        case GoAhead => execs := execs + 1;
      }
      assert c.deps.Keys - todo == c.deps.Keys;
    }

    /** Considers one more module after those in done. */
    method Tally(ph: Phase, m: Name, ghost o: Origin, ghost fixed: bool, ghost done: set<Name>, ghost waiting: nat)
      returns (r: Readiness)
      requires Valid() && sys.check == Idle && m in c.deps && InPhase(c, sys, ph)
      requires fixed ==> Steady(c, ph, managed, shutdown) && OnTrack(ph, Concerned(ph), o, sys)
      requires Linked(c) && sys.status.Keys == c.deps.Keys && done <= c.deps.Keys
      requires fixed && Outstanding(sys) == 0 ==> Scanned(c, sys.status, Concerned(ph), ph, done, waiting)
      modifies `sys
      ensures Valid() && sys.check == Idle && InPhase(c, sys, ph)
      ensures Remaining(ph, sys) <= old(Remaining(ph, sys)) && sys.status.Keys == c.deps.Keys
      ensures Outstanding(sys) == old(Outstanding(sys)) + (if r == GoAhead then 1 else 0)
      ensures SameFlags(c, old(sys), sys)
      ensures fixed ==> Concerned(ph) == old(Concerned(ph)) && OnTrack(ph, Concerned(ph), o, sys)
      ensures fixed && Outstanding(sys) == 0 ==>
        Scanned(c, sys.status, old(Concerned(ph)), ph, done + {m}, if r == Waiting then waiting + 1 else waiting)
    {
      ghost var concerned := Concerned(ph);
      r := Consider(ph, m, o, fixed);
      KeysFit(c, sys);
      if fixed && Outstanding(sys) == 0 {
        ScannedGrows(c, sys.status, concerned, ph, done, waiting, m, r);
      }
    }

    /** Blocks until some control function of this phase has offered its report. */
    method AwaitReport()
      requires Valid() && Outstanding(sys) > 0
      modifies `sys
      ensures Valid() && Leads(c, true, old(sys), sys) && sys.check == old(sys).check
      ensures |sys.finished| > 0
    {
      Interfere();
      assert Outstanding(sys) > 0 by { PassiveKeeps(c, Prep, old(sys), sys); }
      if sys.finished == [] {
        ReachableInv(c, sys);
        var m := Pick(sys.current);
        var failed: bool := *;
        failed := failed && c.MayFail(PhaseOf(sys.status[m]));
        Extend(c, true, old(sys), sys, End(m, failed), Ended(sys, m, failed));
        sys := Ended(sys, m, failed);
      }
    }

    /** Waits for a report, with the phase on track. */
    method AwaitOnTrack(ph: Phase, ghost o: Origin, ghost fixed: bool)
      requires Valid() && sys.check == Idle && InPhase(c, sys, ph) && Outstanding(sys) > 0
      requires fixed ==> Steady(c, ph, managed, shutdown) && OnTrack(ph, Concerned(ph), o, sys)
      modifies `sys
      ensures Valid() && sys.check == Idle && InPhase(c, sys, ph) && |sys.finished| > 0
      ensures Remaining(ph, sys) <= old(Remaining(ph, sys))
      ensures Outstanding(sys) == old(Outstanding(sys)) && SameFlags(c, old(sys), sys)
      ensures fixed ==> Concerned(ph) == old(Concerned(ph)) && OnTrack(ph, Concerned(ph), o, sys)
    {
      ghost var concerned := Concerned(ph);
      AwaitReport();
      AfterLooking(c, ph, old(sys), sys);
      if fixed {
        FixedAfterLooking(c, ph, concerned, o, old(sys), sys);
        StaysConcerned(c, ph, managed, shutdown, old(sys), sys, asDependency);
      }
    }

    /** Takes any one of the reports on offer. */
    method ReceiveReport(ph: Phase, ghost o: Origin, ghost fixed: bool) returns (rep: Report)
      requires Valid() && sys.check == Idle && InPhase(c, sys, ph) && Outstanding(sys) > 0
      requires fixed ==> Steady(c, ph, managed, shutdown) && OnTrack(ph, Concerned(ph), o, sys)
      modifies `sys
      ensures Valid() && sys.check == Idle && InPhase(c, sys, ph)
      ensures Remaining(ph, sys) < old(Remaining(ph, sys))
      ensures Outstanding(sys) == old(Outstanding(sys)) - 1
      ensures SameFlags(c, old(sys), sys)
      ensures fixed ==> Concerned(ph) == old(Concerned(ph)) && OnTrack(ph, Concerned(ph), Told(o, rep), sys)
      ensures rep.failed ==> c.MayFail(ph)
    {
      AwaitOnTrack(ph, o, fixed);
      var k: int := *;
      if k < 0 || k >= |sys.finished| { k := 0; }
      rep := sys.finished[k];
      ReportTaken(c, ph, sys, k);
      if fixed { OnTrackTaken(ph, Concerned(ph), o, sys, k); }
      sys := Taken(sys, k);
    }

    /** prepareModules, startModules and stopModules: scan, then wait for one report, until no
        report is outstanding. A failing prep or start function ends the phase at once, a failing
        stop function is reported at its end. */
    method RunPhase(ph: Phase) returns (out: Outcome)
      requires Valid() && sys.check == Idle
      modifies `sys
      ensures Valid() && sys.check == Idle
      ensures old(Quiet(ph)) ==>
        SameFlags(c, old(sys), sys) && PhaseResult(c, ph, old(Concerned(ph)), old(sys), sys, out)
    {
      ghost var o, concerned := Origin(sys.status, sys.failed, {}), Concerned(ph);
      ghost var fixed := Quiet(ph);
      KeysFit(c, sys);
      Reach(c, sys, NewChannel, sys.(current := {}, finished := []));
      sys := sys.(current := {}, finished := []);
      if fixed { StartTracks(ph, sys); }
      var execCnt: int, reportCnt: int := 0, 0;
      out := Done;
      while true
        invariant Valid() && sys.check == Idle && InPhase(c, sys, ph)
        invariant execCnt - reportCnt == Outstanding(sys)
        invariant SameFlags(c, old(sys), sys)
        invariant o == Origin(old(sys).status, old(sys).failed, o.known)
        invariant fixed ==> Concerned(ph) == concerned && OnTrack(ph, concerned, o, sys)
        invariant SoFar(c, ph, o, out)
        decreases Remaining(ph, sys)
      {
        var waiting, execs := Scan(ph, o, fixed);
        execCnt := execCnt + execs;
        if reportCnt >= execCnt {
          if waiting > 0 { out := LoopDetected; }
          if fixed { PhaseEnds(c, ph, concerned, o, old(sys), sys, waiting, out); }
          return;
        }
        var rep := ReceiveReport(ph, o, fixed);
        reportCnt := reportCnt + 1;
        o := Told(o, rep);
        if rep.failed {
          out := Failed(rep.name);
          if ph != Stop {
            if fixed { PhaseGivenUp(c, ph, concerned, o, old(sys), sys, rep.name); }
            return;
          }
        }
      }
    }

    constructor (config: Config, enabledModules: set<Name>, management: bool)
      requires Linked(config)
      ensures Valid() && c == config && sys.check == Idle && sys.running == {}
      ensures sys.enabled == enabledModules && managed == management && !shutdown && !started
      ensures sys.status == map m | m in c.deps :: DEAD
    {
      c := config;
      sys := Sys(map m | m in config.deps :: DEAD, enabledModules, {}, {}, [], Idle, {});
      asDependency := {};
      managed, shutdown, started := management, false, false;
      new;
      assert Run(c, [sys]);
    }

    /** Marks everything below m that is not marked yet. */
    method MarkDependencies(m: Name)
      requires Closed(c.deps) && m in c.deps && asDependency <= c.deps.Keys
      modifies `asDependency
      ensures old(asDependency) <= asDependency <= c.deps.Keys
      ensures c.deps[m] <= asDependency
      ensures forall x | x in asDependency && x !in old(asDependency) :: DependsOn(c.deps, m, x)
      ensures forall x | x in asDependency && x !in old(asDependency) :: c.deps[x] <= asDependency
      decreases c.deps.Keys - asDependency
    {
      var todo := c.deps[m];
      while todo != {}
        invariant todo <= c.deps[m] <= todo + asDependency
        invariant old(asDependency) <= asDependency <= c.deps.Keys
        invariant forall x | x in asDependency && x !in old(asDependency) :: DependsOn(c.deps, m, x)
        invariant forall x | x in asDependency && x !in old(asDependency) :: c.deps[x] <= asDependency
      {
        var dep := Pick(todo);
        if dep !in asDependency {
          asDependency := asDependency + {dep};
          MarkDependencies(dep);
          BelowDependency(c.deps, m, dep);
        }
        todo := todo - {dep};
      }
    }

    /** buildEnabledTree: afterwards the marks are exactly the dependencies, direct and
        indirect, of the enabled modules, whether or not the graph has cycles. */
    method BuildEnabledTree()
      requires Closed(c.deps)
      modifies `asDependency
      ensures forall x :: x in asDependency <==> NeededByEnabled(c.deps, sys.enabled, x)
      ensures asDependency <= c.deps.Keys
    {
      asDependency := {};
      var todo := c.deps.Keys;
      while todo != {}
        invariant todo <= c.deps.Keys && asDependency <= c.deps.Keys
        invariant forall x | x in asDependency :: NeededByEnabled(c.deps, sys.enabled, x)
        invariant forall x | x in asDependency :: c.deps[x] <= asDependency
        invariant forall e | e in c.deps && e !in todo && e in sys.enabled :: c.deps[e] <= asDependency
      {
        var m := Pick(todo);
        if m in sys.enabled {
          MarkDependencies(m);
        }
        todo := todo - {m};
      }
      forall x | NeededByEnabled(c.deps, sys.enabled, x) ensures x in asDependency {
        var e :| e in sys.enabled && DependsOn(c.deps, e, x);
        ClosureContains(c.deps, asDependency, e, x);
      }
    }

    /** Every module is in its initial status. */
    ghost predicate AllDead()
      reads this
    {
      forall m | m in c.deps :: m in sys.status && sys.status[m] == DEAD
    }

    /** The control function of m has failed, and m is stuck on its way through phase ph. */
    ghost predicate StuckIn(ph: Phase, m: Name)
      reads this
    {
      c.MayFail(ph) && m in sys.status && sys.status[m] == Via(ph) && m !in sys.running && m in sys.failed
    }

    /** Unless a prep function fails, done exactly on acyclic graphs, and with a detected loop
        exactly the modules that lead into a cycle are left Dead. If one fails, it is reported. */
    method PrepareModules() returns (out: Outcome)
      requires Valid() && sys.check == Idle
      modifies `sys
      ensures Valid() && sys.check == Idle
      ensures old(AllDead()) ==>
        && SameFlags(c, old(sys), sys)
        && if out.Failed? then
             StuckIn(Prep, out.name) && forall m | m in c.deps :: m in sys.status && sys.status[m] <= OFFLINE
           else
             && sys.running == {} && out == (if Acyclic(c.deps) then Done else LoopDetected)
             && (forall m | m in c.deps :: m in sys.status && sys.status[m] == (if ReachesCycle(c.deps, m) then DEAD else OFFLINE))
    {
      AllDeadIsQuiet(c, sys);
      ghost var s0 := sys;
      out := RunPhase(Prep);
      if old(AllDead()) {
        ReachableInv(c, sys);
        AllConcerned(c.deps.Keys, Prep, managed, shutdown, s0.enabled, asDependency);
        if !out.Failed? { PrepResult(c, old(Concerned(Prep)), s0.status, sys, out); }
      }
    }

    /** Nothing is on its way up or down. */
    ghost predicate Settled()
      reads this
    {
      forall m | m in sys.status :: sys.status[m] == OFFLINE || sys.status[m] == ONLINE
    }

    /** The marks are up to date. */
    ghost predicate TreeBuilt()
      reads this
    {
      forall x :: x in asDependency <==> NeededByEnabled(c.deps, sys.enabled, x)
    }

    /** stopModules under module management: everything that is not needed goes offline, and during
        a shutdown everything does, whatever the stop functions return. */
    method StopModules() returns (out: Outcome)
      requires Valid() && sys.check == Idle
      modifies `sys
      ensures Valid() && sys.check == Idle
      ensures managed && old(TreeBuilt() && Calm() && Settled()) ==>
        && Calm() && sys.enabled == old(sys).enabled && sys.status.Keys == c.deps.Keys
        && sys.status == StoppedFrom(c.deps, sys.enabled, shutdown, old(sys).status)
        && (out == Done || (out.Failed? && c.stopMayFail)) && TellsFailures(old(sys), sys, out)
    {
      out := RunPhase(Stop);
      if managed && old(TreeBuilt() && Calm() && Settled()) {
        ReachableInv(c, sys);
        StopResult(c, sys.enabled, shutdown, old(Concerned(Stop)), old(sys).status, sys, out);
      }
    }

    /** Without module management every module is to run, with it only the needed ones. */
    ghost predicate ToRun(m: Name)
      reads this
    {
      !managed || Needed(c.deps, sys.enabled, m)
    }

    /** Every module is offline, or online and to run. */
    ghost predicate ReadyForStart()
      reads this
    {
      forall m | m in c.deps ::
        m in sys.status && (sys.status[m] == OFFLINE || (sys.status[m] == ONLINE && ToRun(m)))
    }

    /** Exactly what is to run is online. */
    ghost predicate AllUp()
      reads this
    {
      sys.running == {}
      && forall m | m in c.deps :: m in sys.status && sys.status[m] == (if ToRun(m) then ONLINE else OFFLINE)
    }

    /** The start of a module that is to run has failed, and nothing that is not to run has been started. */
    ghost predicate StartFailed(m: Name)
      reads this
    {
      ToRun(m) && StuckIn(Phase.Start, m)
      && forall x | x in c.deps && !ToRun(x) :: x in sys.status && sys.status[x] == OFFLINE
    }

    /** startModules: everything that is to run comes online, or a failed start is reported. */
    method StartModules() returns (out: Outcome)
      requires Valid() && sys.check == Idle
      modifies `sys
      ensures Valid() && sys.check == Idle
      ensures old(Quiet(Phase.Start) && (managed ==> TreeBuilt()) && ReadyForStart()) ==>
        && SameFlags(c, old(sys), sys)
        && (if out.Failed? then StartFailed(out.name) else out == Done && AllUp() && TellsFailures(old(sys), sys, out))
    {
      ghost var s0 := sys;
      out := RunPhase(Phase.Start);
      if old(Quiet(Phase.Start) && (managed ==> TreeBuilt()) && ReadyForStart()) {
        ReachableInv(c, sys);
        if !out.Failed? {
          StartResult(c, sys.enabled, !managed, old(Concerned(Phase.Start)), s0.status, sys, out);
        }
      }
    }

    /** Start: from registration, on an acyclic graph and if no function fails, exactly the
        modules that are to run end up online; a cycle is reported before anything is started, and
        so is a failing prep function.
        Nothing is prepared if parsing the flags or the global prep function fails, and nothing is
        started if there is a command line operation or logging fails. */
    method Start(flagsAndPrepOk: bool, nothingElseToDo: bool) returns (out: Outcome)
      requires Valid() && sys.check == Idle
      modifies `sys, `asDependency, `started
      ensures Valid() && sys.check == Idle && started
      ensures old(started) ==> out == Refused && sys == old(sys)
      ensures !old(started) && !flagsAndPrepOk ==> out == Aborted && sys == old(sys)
      ensures !old(started) && flagsAndPrepOk && (managed ==> !c.flagsMayChange) && old(AllDead()) ==>
        && SameFlags(c, old(sys), sys)
        && (out.Failed? ==>
              || (StuckIn(Prep, out.name) && forall m | m in c.deps :: m in sys.status && sys.status[m] <= OFFLINE)
              || (Acyclic(c.deps) && nothingElseToDo && StartFailed(out.name)))
        && (!out.Failed? ==> out == if !Acyclic(c.deps) then LoopDetected else if nothingElseToDo then Done else Aborted)
        && (out == Done ==> AllUp())
        && (out == LoopDetected || out == Aborted ==>
              forall m | m in c.deps :: m in sys.status && sys.status[m] == (if ReachesCycle(c.deps, m) then DEAD else OFFLINE))
    {
      if started { return Refused; }
      started := true;
      if !flagsAndPrepOk { return Aborted; }
      KeysFit(c, sys);
      out := PrepareModules();
      if out != Done { return; }
      if !nothingElseToDo { return Aborted; }
      BuildEnabledTree();
      AcyclicMeansNoCycleReached(c.deps);
      out := StartModules();
    }

    /** ManageModules: on a settled system, exactly the enabled modules and all their dependencies end
        up online, whatever the stop functions return; or the start of one of them failed. A shutdown
        changes nothing about that: everything is stopped first, and then the needed modules are
        started again. */
    method ManageModules() returns (out: Outcome)
      requires Valid() && sys.check == Idle
      modifies `sys, `asDependency
      ensures Valid() && sys.check == Idle
      ensures !managed ==> out == Done && sys == old(sys)
      ensures managed && old(Calm() && Settled()) ==>
        sys.enabled == old(sys).enabled && ManagedFrom(old(sys).status, out)
    {
      if !managed { return Done; }
      KeysFit(c, sys);
      BuildEnabledTree();
      var lastErr := StopModules();
      ghost var s1 := sys;
      var err := StartModules();
      KeysFit(c, sys);
      out := if err != Done then err else lastErr;
      if old(Calm() && Settled()) {
        assert err == Done ==> Settled();
        if !shutdown && err == Done { ManageResult(c.deps, sys.enabled, old(sys), s1, sys, lastErr); }
      }
    }

    /** What managing leaves of a settled system: exactly what is needed is online and, except on
        shutdown, a failure is reported exactly if one of the others failed to stop; or a needed
        module failed to start, and that is reported. */
    ghost predicate ManagedFrom(s0: Statuses, out: Outcome)
      reads this
    {
      if out.Failed? && out.name in sys.status && sys.status[out.name] == STARTING then
        StartFailed(out.name)
      else
        && Settled() && AllUp() && (out == Done || (out.Failed? && c.stopMayFail))
        && (!shutdown ==>
              && (out == Done ==> NoneFailed(c.deps, sys.enabled, s0, sys))
              && (out.Failed? ==> FailedToStop(c.deps, sys.enabled, s0, sys, out.name)))
    }

    /** Enable and Disable, for any number of modules at a time. */
    method SetEnabled(flags: set<Name>)
      requires Valid()
      modifies `sys
      ensures Valid() && sys == old(sys).(enabled := flags)
    {
      FlagsAreFree(c, sys, flags);
      sys := sys.(enabled := flags);
    }

    /** Reacting to a change of the flags: whatever was online, afterwards exactly the modules enabled
        now and all their dependencies are. */
    method ChangeEnabled(flags: set<Name>) returns (out: Outcome)
      requires Valid() && sys.check == Idle
      modifies `sys, `asDependency
      ensures Valid() && sys.check == Idle
      ensures managed && old(Calm() && Settled()) ==>
        sys.enabled == flags && ManagedFrom(old(sys).status, out)
    {
      SetEnabled(flags);
      out := ManageModules();
    }

    /** Shutdown: with nothing in flight, everything online goes offline, even if stop functions
        fail, except what a module that failed to start depends on. A loop is reported exactly if
        there is such a module with dependencies. */
    method Shutdown() returns (out: Outcome)
      requires Valid() && sys.check == Idle
      modifies `sys, `shutdown
      ensures Valid() && sys.check == Idle && shutdown
      ensures old(shutdown) ==> out == Refused && sys == old(sys)
      ensures !old(shutdown) && old(sys).running == {} ==>
        && sys.running == {} && sys.status.Keys == c.deps.Keys == old(sys).status.Keys
        && (forall m | m in c.deps :: sys.status[m] == Down(c.deps, old(sys).status, m))
        && (out == LoopDetected <==> exists m :: HeldUp(c.deps, old(sys).status, m))
        && (out == LoopDetected || out == Done || (out.Failed? && c.stopMayFail)) && TellsFailures(old(sys), sys, out)
    {
      if shutdown { return Refused; }
      shutdown := true;
      ghost var s0 := sys;
      out := RunPhase(Stop);
      if old(sys).running == {} {
        AllConcerned(c.deps.Keys, Stop, managed, shutdown, s0.enabled, asDependency);
        ShutdownResult(c, s0, sys, out);
      }
    }
  }

  // ----- the flags do not decide what can happen

  function Flagged(h: seq<Sys>, flags: set<Name>): seq<Sys> {
    seq(|h|, i requires 0 <= i < |h| => h[i].(enabled := flags))
  }

  lemma FlaggedStep(c: Config, s: Sys, t: Sys, flags: set<Name>)
    requires Step(c, false, s, t)
    ensures Step(c, false, s.(enabled := flags), t.(enabled := flags))
  {
    var e :| Happens(c, s, e, t);
    var e' := if e.SetFlags? then SetFlags(flags) else e;
    assert Happens(c, s.(enabled := flags), e', t.(enabled := flags));
  }

  lemma {:induction false} FlaggedPath(c: Config, h: seq<Sys>, flags: set<Name>)
    requires Path(c, false, h)
    ensures Path(c, false, Flagged(h, flags))
  {
    if |h| > 1 {
      var n := |h| - 1;
      FlaggedPath(c, h[..n], flags);
      FlaggedStep(c, h[n - 1], h[n], flags);
      assert Flagged(h, flags)[..n] == Flagged(h[..n], flags);
    }
  }

  /** A state that can be reached can be reached with any flags. */
  lemma FlagsAreFree(c: Config, s: Sys, flags: set<Name>)
    requires Reachable(c, s)
    ensures Reachable(c, s.(enabled := flags))
  {
    var h :| Run(c, h) && h[|h| - 1] == s;
    FlaggedPath(c, h, flags);
    assert Run(c, Flagged(h, flags));
  }

  // ----- shutting down

  /** A module that is stuck while starting depends on m, directly or indirectly. */
  ghost predicate HeldUp(g: Graph, s: Statuses, m: Name) {
    exists x :: x in s && s[x] == STARTING && DependsOn(g, x, m)
  }

  /** Where a shutdown leaves a module. */
  ghost function Down(g: Graph, s: Statuses, m: Name): Status
    requires m in s
  {
    if s[m] == ONLINE && !HeldUp(g, s, m) then OFFLINE else s[m]
  }

  /** Everything a module above Offline depends on is online. */
  lemma DependenciesOnline(g: Graph, s: Statuses, x: Name, m: Name)
    requires Closed(g) && s.Keys == g.Keys && Safe(g, s) && x in s && s[x] > OFFLINE && DependsOn(g, x, m)
    ensures m in s && s[m] == ONLINE
  {
    var online := set y | y in s && s[y] == ONLINE;
    ClosureContains(g, online, x, m);
  }

  lemma AllDeadIsQuiet(c: Config, s: Sys)
    requires Reachable(c, s)
    ensures (forall m | m in c.deps :: m in s.status && s.status[m] == DEAD) ==> s.running == {}
  {
    ReachableInv(c, s);
    if forall m | m in c.deps :: m in s.status && s.status[m] == DEAD {
      assert forall m :: m !in s.running;
    }
  }

  /** A control function is fired and ends, for a module that waits for one other at most. */
  lemma FireAndEnd(c: Config, s: Sys, ph: Phase, m: Name, failed: bool) returns (t: Sys)
    requires Reachable(c, s) && s.running == {} && s.check == Idle && m in s.status && s.status[m] == From(ph)
    requires m in c.deps && m in c.reverse && Unblocked(c, s.status, ph, m) && (failed ==> c.MayFail(ph))
    requires c.Awaited(ph, m) == {} || exists d :: c.Awaited(ph, m) == {d}
    ensures Reachable(c, t) && t.running == {} && t.check == Idle
    ensures t.status == if failed && ph != Stop then s.status[m := Via(ph)] else s.status[m := To(ph)]
  {
    var s1 := s.(check := Checking(ph, m, {}));
    Reach(c, s, Look(ph, m), s1);
    if c.Awaited(ph, m) != {} {
      var d :| c.Awaited(ph, m) == {d};
      assert d in c.Awaited(ph, m);
      s1 := s1.(check := Checking(ph, m, {} + {d}));
      Reach(c, s.(check := Checking(ph, m, {})), See(d), s1);
    }
    var s2 := Begun(s1, ph, m);
    Reach(c, s1, Begin, s2);
    t := Ended(s2, m, failed);
    Reach(c, s2, End(m, failed), t);
  }

  /** Two modules, of which the second depends on the first. */
  ghost predicate IsPair(c: Config) {
    c.deps == map[0 := {}, 1 := {0}] && c.reverse == map[0 := {1}, 1 := {}]
  }

  lemma PairPrepared(c: Config) returns (s: Sys)
    requires IsPair(c)
    ensures Reachable(c, s) && s.running == {} && s.check == Idle && s.status == map[0 := OFFLINE, 1 := OFFLINE]
  {
    s := Sys(map m | m in c.deps :: DEAD, {}, {}, {}, [], Idle, {});
    assert Run(c, [s]);
    assert s.status == map[0 := DEAD, 1 := DEAD];
    s := FireAndEnd(c, s, Prep, 0, false);
    s := FireAndEnd(c, s, Prep, 1, false);
  }

  /** If the second fails to start, the first is held up. */
  lemma StuckStart(c: Config) returns (s: Sys)
    requires IsPair(c) && c.startMayFail
    ensures Reachable(c, s) && s.running == {} && s.check == Idle
    ensures s.status == map[0 := ONLINE, 1 := STARTING] && HeldUp(c.deps, s.status, 0)
  {
    s := PairPrepared(c);
    s := FireAndEnd(c, s, Phase.Start, 0, false);
    s := FireAndEnd(c, s, Phase.Start, 1, true);
    BelowDependency(c.deps, 1, 0);
  }

  lemma HeldUpGrows(g: Graph, s: Statuses, r: Name, m: Name)
    requires Edge(g, r, m) && (HeldUp(g, s, r) || (r in s && s[r] == STARTING))
    ensures HeldUp(g, s, m)
  {
    if r in s && s[r] == STARTING {
      BelowDependency(g, r, m);
    } else {
      var x :| x in s && s[x] == STARTING && DependsOn(g, x, r);
      DependsOnGrows(g, x, r, m);
    }
  }

  /** Whoever is left online and not held up is needed by another one. */
  lemma NeededByOther(c: Config, s0: Statuses, s: Sys, out: Outcome, m: Name) returns (r: Name)
    requires PhaseDone(c, Stop, c.deps.Keys, s0, s, out) && Ok(c, s)
    requires m in c.deps && s.status[m] == ONLINE && !HeldUp(c.deps, s0, m)
    ensures Edge(c.deps, r, m) && s.status[r] == ONLINE && !HeldUp(c.deps, s0, r)
  {
    r := Blocker(c, s.status, m);
    if HeldUp(c.deps, s0, r) || s0[r] == STARTING { HeldUpGrows(c.deps, s0, r, m); }
    assert s.status[r] != STOPPING && s.status[r] != STARTING;
  }

  lemma Blocker(c: Config, s: Statuses, m: Name) returns (r: Name)
    requires Linked(c) && s.Keys == c.deps.Keys && m in c.deps && !Unblocked(c, s, Stop, m)
    ensures Edge(c.deps, r, m) && s[r] > OFFLINE
  {
    r :| r in c.reverse[m] && !(r in s && Clear(Stop, s[r]));
  }

  ghost function OnlineUnheld(g: Graph, s0: Statuses, s: Statuses): set<Name> {
    set m | m in g && m in s && s[m] == ONLINE && !HeldUp(g, s0, m)
  }

  lemma UnheldNeedEachOther(c: Config, s0: Statuses, s: Sys, out: Outcome)
    requires PhaseDone(c, Stop, c.deps.Keys, s0, s, out) && Ok(c, s)
    ensures EachNeededWithin(c.deps, OnlineUnheld(c.deps, s0, s.status))
  {
    var rest := OnlineUnheld(c.deps, s0, s.status);
    forall y | y in rest ensures HasDependentIn(c.deps, rest, y) {
      var r := NeededByOther(c, s0, s, out, y);
      assert r in rest && Edge(c.deps, r, y);
    }
  }

  /** What is left online and not held up would be needed by others of the same kind, in a cycle. */
  lemma OnlineIsHeldUp(c: Config, s0: Statuses, s: Sys, out: Outcome, m: Name)
    requires PhaseDone(c, Stop, c.deps.Keys, s0, s, out) && Ok(c, s) && CyclesDead(c.deps, s.status)
    requires m in c.deps && s.status[m] == ONLINE
    ensures HeldUp(c.deps, s0, m)
  {
    if !HeldUp(c.deps, s0, m) {
      UnheldNeedEachOther(c, s0, s, out);
      var x := NoRootsMeanCycle(c.deps, OnlineUnheld(c.deps, s0, s.status), m);
    }
  }

  lemma ShutdownResult(c: Config, s0: Sys, s: Sys, out: Outcome)
    requires Reachable(c, s) && PhaseDone(c, Stop, c.deps.Keys, s0.status, s, out)
    ensures forall m | m in c.deps :: s.status[m] == Down(c.deps, s0.status, m)
    ensures out == LoopDetected <==> exists m :: HeldUp(c.deps, s0.status, m)
    ensures out == LoopDetected || out == Done || (out.Failed? && c.stopMayFail)
  {
    ReachableInv(c, s);
    forall m ensures HeldUp(c.deps, s0.status, m) <==> m in c.deps && s.status[m] == ONLINE {
      if HeldUp(c.deps, s0.status, m) {
        HeldUpStaysOnline(c, s0.status, s, out, m);
      } else if m in c.deps && s.status[m] == ONLINE {
        OnlineIsHeldUp(c, s0.status, s, out, m);
      }
    }
    OnlyHeldUpLeft(c, s0.status, s, out);
  }

  lemma OnlyHeldUpLeft(c: Config, s0: Statuses, s: Sys, out: Outcome)
    requires PhaseDone(c, Stop, c.deps.Keys, s0, s, out)
    requires forall m :: HeldUp(c.deps, s0, m) <==> m in c.deps && s.status[m] == ONLINE
    ensures forall m | m in c.deps :: s.status[m] == Down(c.deps, s0, m)
    ensures out == LoopDetected <==> exists m :: HeldUp(c.deps, s0, m)
  {
    forall m | m in c.deps ensures s.status[m] == Down(c.deps, s0, m) {
      assert HeldUp(c.deps, s0, m) <==> s.status[m] == ONLINE;
    }
  }

  lemma HeldUpStaysOnline(c: Config, s0: Statuses, s: Sys, out: Outcome, m: Name)
    requires PhaseDone(c, Stop, c.deps.Keys, s0, s, out) && Safe(c.deps, s.status) && HeldUp(c.deps, s0, m)
    ensures m in c.deps && s.status[m] == ONLINE
  {
    var x :| x in s0 && s0[x] == STARTING && DependsOn(c.deps, x, m);
    DependenciesOnline(c.deps, s.status, x, m);
  }

  /** m is enabled or a direct or indirect dependency of an enabled module. */
  ghost predicate Needed(g: Graph, enabled: set<Name>, m: Name) {
    m in enabled || NeededByEnabled(g, enabled, m)
  }

  lemma NeededDownward(g: Graph, enabled: set<Name>, m: Name, d: Name)
    requires Needed(g, enabled, m) && Edge(g, m, d)
    ensures Needed(g, enabled, d)
  {
    BelowDependency(g, m, d);
    if m !in enabled {
      var e :| e in enabled && DependsOn(g, e, m);
      DependsOnGrows(g, e, m, d);
    }
  }

  lemma DependsOnGrows(g: Graph, e: Name, m: Name, d: Name)
    requires DependsOn(g, e, m) && Edge(g, m, d)
    ensures DependsOn(g, e, d)
  {
    var x :| Edge(g, e, x) && Reaches(g, x, m);
    var p :| WalkFromTo(g, p, x, m);
    WalkSnoc(g, p, d);
    assert WalkFromTo(g, p + [d], x, d);
  }

  /** If whoever depends on a concerned module is concerned too and nothing online is free to
      stop, then nothing concerned is online. */
  lemma NobodyStuckOnline(c: Config, concerned: set<Name>, s: Statuses)
    requires Linked(c) && s.Keys == c.deps.Keys && CyclesDead(c.deps, s)
    requires forall m | m in s :: !Transitional(s[m])
    requires forall m | m in c.deps && m in concerned && s[m] == ONLINE :: !Unblocked(c, s, Stop, m)
    requires forall r, m | m in concerned && Edge(c.deps, r, m) :: r in concerned
    ensures forall m | m in c.deps && m in concerned :: s[m] != ONLINE
  {
    var online := set m | m in c.deps && m in concerned && s[m] == ONLINE;
    forall x | x in online ensures HasDependentIn(c.deps, online, x) {
      assert !Unblocked(c, s, Stop, x);
      var r :| r in c.reverse[x] && !(r in s && Clear(Stop, s[r]));
      assert Edge(c.deps, r, x) && r in online;
    }
    forall m | m in c.deps && m in concerned ensures s[m] != ONLINE {
      if m in online { var x := NoRootsMeanCycle(c.deps, online, m); }
    }
  }

  lemma NobodyLeftOnline(c: Config, concerned: set<Name>, s0: Statuses, s: Sys, out: Outcome)
    requires PhaseDone(c, Stop, concerned, s0, s, out) && CyclesDead(c.deps, s.status)
    requires forall m | m in s0 :: !Transitional(s0[m])
    requires forall r, m | m in concerned && Edge(c.deps, r, m) :: r in concerned
    ensures forall m | m in c.deps && m in concerned :: s.status[m] <= OFFLINE
    ensures out == Done || (out.Failed? && c.stopMayFail)
  {
    NobodyStuckOnline(c, concerned, s.status);
  }

  /** Where stopping leaves a settled system: only what is needed stays online, and on shutdown nothing. */
  ghost function StoppedFrom(g: Graph, enabled: set<Name>, all: bool, s: Statuses): Statuses {
    map m | m in s :: if s[m] == ONLINE && !all && Needed(g, enabled, m) then ONLINE else OFFLINE
  }

  lemma ManageResult(g: Graph, enabled: set<Name>, s0: Sys, s1: Sys, s: Sys, lastErr: Outcome)
    requires (forall m | m in s0.status :: s0.status[m] == OFFLINE || s0.status[m] == ONLINE)
    requires s1.status == StoppedFrom(g, enabled, false, s0.status) && s1.running == {}
    requires TellsFailures(s0, s1, lastErr) && TellsFailures(s1, s, Done)
    requires forall m | m in s1.status :: m in s.status && (!Needed(g, enabled, m) ==> s.status[m] == OFFLINE)
    ensures lastErr == Done ==> NoneFailed(g, enabled, s0.status, s)
    ensures lastErr.Failed? ==> FailedToStop(g, enabled, s0.status, s, lastErr.name)
  {
    forall m | m in s0.status && s0.status[m] == ONLINE && !Needed(g, enabled, m)
      ensures Moved(s0.status, s1, m) && (m in s.failed <==> m in s1.failed)
    {
    }
  }

  /** m was online, is not needed, and its stop function failed. */
  ghost predicate FailedToStop(g: Graph, enabled: set<Name>, s0: Statuses, s: Sys, m: Name) {
    m in s0 && s0[m] == ONLINE && !Needed(g, enabled, m) && m in s.failed
  }

  ghost predicate NoneFailed(g: Graph, enabled: set<Name>, s0: Statuses, s: Sys) {
    forall m :: !FailedToStop(g, enabled, s0, s, m)
  }

  lemma StopResult(c: Config, enabled: set<Name>, all: bool, unwanted: set<Name>, s0: Statuses, s: Sys, out: Outcome)
    requires PhaseDone(c, Stop, unwanted, s0, s, out) && CyclesDead(c.deps, s.status)
    requires forall m | m in s0 :: s0[m] == OFFLINE || s0[m] == ONLINE
    requires forall m | m in c.deps :: m in unwanted <==> all || !Needed(c.deps, enabled, m)
    ensures s.status == StoppedFrom(c.deps, enabled, all, s0)
    ensures out == Done || (out.Failed? && c.stopMayFail)
  {
    forall r, m | m in unwanted && Edge(c.deps, r, m) ensures r in unwanted {
      if !all && Needed(c.deps, enabled, r) { NeededDownward(c.deps, enabled, r, m); }
    }
    NobodyLeftOnline(c, unwanted, s0, s, out);
    var stopped := StoppedFrom(c.deps, enabled, all, s0);
    assert s.status.Keys == stopped.Keys;
    assert forall m | m in stopped :: s.status[m] == stopped[m];
  }

  /** If the dependencies of wanted modules are wanted too and nothing offline is free to start,
      then everything wanted is online. */
  lemma NobodyStuckOffline(c: Config, wanted: set<Name>, s: Statuses)
    requires Linked(c) && s.Keys == c.deps.Keys && CyclesDead(c.deps, s)
    requires forall m | m in s :: s[m] == OFFLINE || s[m] == ONLINE
    requires forall m | m in c.deps && m in wanted && s[m] == OFFLINE :: !Unblocked(c, s, Start, m)
    requires forall m, d | m in wanted && Edge(c.deps, m, d) :: d in wanted
    ensures forall m | m in c.deps && m in wanted :: s[m] == ONLINE
  {
    var offline := set m | m in c.deps && m in wanted && s[m] == OFFLINE;
    forall x | x in offline ensures HasDependencyIn(c.deps, offline, x) {
      assert !Unblocked(c, s, Start, x);
      var d :| d in c.deps[x] && !(d in s && Clear(Start, s[d]));
      assert Edge(c.deps, x, d) && d in offline;
    }
    forall m | m in c.deps && m in wanted ensures s[m] == ONLINE {
      if m in offline { NoLeavesReachCycle(c.deps, offline, m); }
    }
  }

  lemma StartResult(c: Config, enabled: set<Name>, all: bool, wanted: set<Name>, s0: Statuses, s: Sys, out: Outcome)
    requires PhaseDone(c, Start, wanted, s0, s, out) && CyclesDead(c.deps, s.status)
    requires forall m | m in c.deps :: m in wanted <==> all || Needed(c.deps, enabled, m)
    requires forall m | m in c.deps :: m in s0 && (s0[m] == OFFLINE || (s0[m] == ONLINE && m in wanted))
    ensures (forall m | m in c.deps :: m in s.status && s.status[m] == (if all || Needed(c.deps, enabled, m) then ONLINE else OFFLINE))
    ensures out == Done
  {
    forall m, d | m in c.deps && m in wanted && Edge(c.deps, m, d) ensures d in wanted {
      if !all { NeededDownward(c.deps, enabled, m, d); }
    }
    NobodyStuckOffline(c, wanted, s.status);
    assert forall m | m in c.deps && m in wanted :: s.status[m] != OFFLINE;
  }

  /** x is a direct or indirect dependency of an enabled module. */
  ghost predicate NeededByEnabled(g: Graph, enabled: set<Name>, x: Name) {
    exists e :: e in enabled && DependsOn(g, e, x)
  }

  ghost predicate SameElements(s: set<Name>, names: seq<Name>) {
    forall d :: d in s <==> d in names
  }

  /** initDependencies: links the registered modules, or fails on an unknown dependency. */
  method InitDependencies(depNames: map<Name, seq<Name>>) returns (ok: bool, deps: Graph, reverse: Graph)
    ensures ok <==> forall m, d | m in depNames && d in depNames[m] :: d in depNames
    ensures ok ==> Converse(deps, reverse) && deps.Keys == depNames.Keys
    ensures ok ==> forall m | m in depNames :: SameElements(deps[m], depNames[m])
  {
    deps := map m | m in depNames :: {};
    reverse := map m | m in depNames :: {};
    var todo := depNames.Keys;
    while todo != {}
      invariant todo <= depNames.Keys == deps.Keys
      invariant Converse(deps, reverse)
      invariant forall m | m in todo :: deps[m] == {}
      invariant forall m | m in depNames && m !in todo :: SameElements(deps[m], depNames[m])
    {
      var m := Pick(todo);
      todo := todo - {m};
      ok, deps, reverse := LinkModule(depNames[m], m, deps, reverse);
      if !ok { return; }
    }
    forall m, d | m in depNames && d in depNames[m] ensures d in depNames {
      assert SameElements(deps[m], depNames[m]);
    }
    ok := true;
  }

  method LinkModule(names: seq<Name>, m: Name, deps: Graph, reverse: Graph)
    returns (ok: bool, deps': Graph, reverse': Graph)
    requires Converse(deps, reverse) && m in deps && deps[m] == {}
    ensures ok <==> forall d | d in names :: d in deps
    ensures Converse(deps', reverse')
    ensures deps'.Keys == deps.Keys && forall x | x in deps && x != m :: deps'[x] == deps[x]
    ensures ok ==> SameElements(deps'[m], names)
  {
    deps', reverse' := deps, reverse;
    for i := 0 to |names|
      invariant Converse(deps', reverse')
      invariant deps'.Keys == deps.Keys && forall x | x in deps && x != m :: deps'[x] == deps[x]
      invariant SameElements(deps'[m], names[..i])
      invariant forall d | d in names[..i] :: d in deps
    {
      var dep := names[i];
      assert names[..i + 1] == names[..i] + [dep];
      if dep !in deps { return false, deps', reverse'; }
      deps' := deps'[m := deps'[m] + {dep}];
      reverse' := reverse'[dep := reverse'[dep] + {m}];
    }
    assert names[..|names|] == names;
    ok := true;
  }

  lemma BelowDependency(g: Graph, m: Name, dep: Name)
    requires Edge(g, m, dep)
    ensures DependsOn(g, m, dep)
    ensures forall x | DependsOn(g, dep, x) :: DependsOn(g, m, x)
  {
    ReachesSelf(g, dep);
    forall x | DependsOn(g, dep, x) ensures DependsOn(g, m, x) {
      var d :| Edge(g, dep, d) && Reaches(g, d, x);
      EdgeThenReaches(g, dep, d, x);
    }
  }

  lemma DeadWaitForDead(c: Config, s: Statuses)
    requires Linked(c) && s.Keys == c.deps.Keys && forall m | m in s :: s[m] == DEAD || s[m] == OFFLINE
    requires forall m | m in c.deps && s[m] == DEAD :: !Unblocked(c, s, Prep, m)
    ensures EachDependsWithin(c.deps, InStatus(s, DEAD))
  {
    var dead := InStatus(s, DEAD);
    forall x | x in dead ensures HasDependencyIn(c.deps, dead, x) {
      assert !Unblocked(c, s, Prep, x);
      var d :| d in c.deps[x] && !(d in s && Clear(Prep, s[d]));
      assert d in dead && Edge(c.deps, x, d);
    }
  }

  lemma DeadReachCycles(c: Config, s: Statuses)
    requires Linked(c) && s.Keys == c.deps.Keys && forall m | m in s :: s[m] == DEAD || s[m] == OFFLINE
    requires forall m | m in c.deps && s[m] == DEAD :: !Unblocked(c, s, Prep, m)
    requires CyclesDead(c.deps, s)
    ensures forall m | m in c.deps :: s[m] == DEAD <==> ReachesCycle(c.deps, m)
    ensures Acyclic(c.deps) <==> forall m | m in c.deps :: s[m] != DEAD
  {
    DeadWaitForDead(c, s);
    forall m | m in c.deps && s[m] == DEAD ensures ReachesCycle(c.deps, m) {
      NoLeavesReachCycle(c.deps, InStatus(s, DEAD), m);
    }
    AcyclicMeansNoCycleReached(c.deps);
  }

  lemma PrepResult(c: Config, concerned: set<Name>, s0: Statuses, s: Sys, out: Outcome)
    requires PhaseDone(c, Prep, concerned, s0, s, out) && CyclesDead(c.deps, s.status)
    requires concerned == c.deps.Keys && forall m | m in s0 :: s0[m] == DEAD
    ensures out == if Acyclic(c.deps) then Done else LoopDetected
    ensures (forall m | m in c.deps :: m in s.status && s.status[m] == (if ReachesCycle(c.deps, m) then DEAD else OFFLINE))
  {
    assert forall m | m in c.deps && s.status[m] == DEAD :: !Unblocked(c, s.status, Prep, m);
    DeadReachCycles(c, s.status);
    assert (out != LoopDetected) == Acyclic(c.deps);
  }

  /** What a phase that ran to its end leaves behind: every concerned module it found at its
      beginning has been moved, or is held back by a module it waits for; nothing else moved. */
  ghost predicate PhaseDone(c: Config, ph: Phase, concerned: set<Name>, s0: Statuses, s: Sys, out: Outcome) {
    && Linked(c)
    && s.running == {}
    && s.status.Keys == s0.Keys == c.deps.Keys
    && (forall m | m in s0 ::
          s.status[m] == s0[m] || (m in concerned && s0[m] == From(ph) && s.status[m] == To(ph)))
    && (forall m | m in c.deps && m in concerned && s.status[m] == From(ph) :: !Unblocked(c, s.status, ph, m))
    && (out != LoopDetected <==> forall m | m in c.deps && m in concerned :: s.status[m] != From(ph))
    && (out.Failed? ==> ph == Stop && c.stopMayFail)
    && out != Refused && out != Aborted
  }

  /** What is left once the k-th report has been received. */
  function Taken(s: Sys, k: nat): Sys
    requires k < |s.finished|
  {
    s.(finished := s.finished[..k] + s.finished[k + 1..])
  }

  lemma ReportTaken(c: Config, ph: Phase, s: Sys, k: nat)
    requires Reachable(c, s) && InPhase(c, s, ph) && k < |s.finished|
    ensures Reachable(c, Taken(s, k)) && InPhase(c, Taken(s, k), ph) && Remaining(ph, Taken(s, k)) == Remaining(ph, s) - 1
    ensures |Taken(s, k).finished| == |s.finished| - 1
    ensures s.finished[k].failed ==> c.MayFail(ph)
  {
    var t := Taken(s, k);
    Reach(c, s, Receive(k), t);
    assert s.finished[k] in s.finished;
    assert forall r | r in t.finished :: r in s.finished;
  }

  lemma OnTrackTaken(ph: Phase, concerned: set<Name>, o: Origin, s: Sys, k: nat)
    requires OnTrack(ph, concerned, o, s) && k < |s.finished|
    ensures OnTrack(ph, concerned, Told(o, s.finished[k]), Taken(s, k))
  {
    TakenTracks(ph, o, s, k);
  }

  /** Up to here the phase has seen no failure, or it is a stop phase that will report one. */
  ghost predicate SoFar(c: Config, ph: Phase, o: Origin, out: Outcome) {
    if o.known == {} then out == Done else out.Failed? && out.name in o.known && ph == Stop && c.stopMayFail
  }

  lemma PhaseGivenUp(c: Config, ph: Phase, concerned: set<Name>, o: Origin, s0: Sys, s: Sys, m: Name)
    requires Reachable(c, s) && ph != Stop && c.MayFail(ph) && OnTrack(ph, concerned, o, s) && o.status == s0.status
    requires m in o.known
    ensures GaveUp(c, ph, concerned, s0, s, m)
  {
    KeysFit(c, s);
  }

  /** With no control function in flight and no failure known, none has failed. */
  lemma NothingInVia(c: Config, ph: Phase, concerned: set<Name>, o: Origin, s: Sys)
    requires Reachable(c, s) && OnTrack(ph, concerned, o, s) && |s.current| + |s.finished| == 0
    requires ph == Stop || o.known == {}
    ensures s.running == {} && forall m | Moved(o.status, s, m) :: s.status[m] == To(ph) && (m in s.failed <==> m in o.known)
  {
    forall m | Moved(o.status, s, m)
      ensures s.status[m] == To(ph) && (m in s.failed <==> m in o.known)
    {
      assert !Reported(s.finished, m);
    }
  }

  lemma PhaseEnds(
    c: Config, ph: Phase, concerned: set<Name>, o: Origin, s0: Sys, s: Sys, waiting: nat, out: Outcome)
    requires Reachable(c, s) && Linked(c) && s.status.Keys == c.deps.Keys
    requires o.status == s0.status && o.failed == s0.failed
    requires OnTrack(ph, concerned, o, s) && |s.current| + |s.finished| == 0
    requires Scanned(c, s.status, concerned, ph, c.deps.Keys, waiting)
    requires ph == Stop || o.known == {}
    requires if waiting > 0 then out == LoopDetected else SoFar(c, ph, o, out)
    ensures PhaseResult(c, ph, concerned, s0, s, out)
  {
    NothingInVia(c, ph, concerned, o, s);
    forall m | m in s0.status
      ensures s.status[m] == s0.status[m] || (m in concerned && s0.status[m] == From(ph) && s.status[m] == To(ph))
    {
      if s.status[m] != s0.status[m] { assert Moved(o.status, s, m); }
    }
    forall m | m in c.deps && m in concerned && s.status[m] == From(ph)
      ensures Verdict(c, s.status, concerned, ph, m) == Waiting
    {
      assert Verdict(c, s.status, concerned, ph, m) != GoAhead;
    }
    assert PhaseDone(c, ph, concerned, s0.status, s, out);
  }

  lemma KeysFit(c: Config, s: Sys)
    requires Reachable(c, s)
    ensures Linked(c) && s.status.Keys == c.deps.Keys && s.current <= s.running
  {
    ReachableInv(c, s);
  }

  /** Of the modules in done none is ready, and some wait exactly if waiting > 0. */
  ghost predicate Scanned(c: Config, s: Statuses, concerned: set<Name>, ph: Phase, done: set<Name>, waiting: nat)
    requires Linked(c) && s.Keys == c.deps.Keys && done <= c.deps.Keys
  {
    && (forall m | m in done :: Verdict(c, s, concerned, ph, m) != GoAhead)
    && (waiting == 0 <==> forall m | m in done :: Verdict(c, s, concerned, ph, m) != Waiting)
  }

  lemma ScannedGrows(
    c: Config, s: Statuses, concerned: set<Name>, ph: Phase, done: set<Name>, waiting: nat, m: Name, r: Readiness)
    requires Linked(c) && s.Keys == c.deps.Keys && done <= c.deps.Keys && m in c.deps
    requires Scanned(c, s, concerned, ph, done, waiting)
    requires r == Verdict(c, s, concerned, ph, m) && r != GoAhead
    ensures Scanned(c, s, concerned, ph, done + {m}, if r == Waiting then waiting + 1 else waiting)
  {
  }

  lemma OwnStatusStays(c: Config, s: Sys, t: Sys)
    requires Reachable(c, s) && Leads(c, true, s, t) && s.check.Checking?
    ensures s.check.m in t.status && t.status[s.check.m] == From(s.check.ph)
  {
    ReachableInv(c, s);
    PassiveKeeps(c, Prep, s, t);
  }
}
