/** What the reports of one phase tell: which of the modules it moved have failed, and which of those
    failures have been received. */
module PhaseReports {
  import opened Lifecycle
  import opened ModuleGraph

  /** Where a phase began: the statuses and failures it found; and the failures it has been told. */
  datatype Origin = Origin(status: Statuses, failed: set<Name>, known: set<Name>)

  /** The status a control function of phase ph leaves behind. */
  function ResultOf(ph: Phase, failed: bool): Status {
    if failed && ph != Stop then Via(ph) else To(ph)
  }

  /** The phase has moved m, and its control function has ended. */
  ghost predicate Moved(o: Statuses, s: Sys, m: Name) {
    m in o && m in s.status && s.status[m] != o[m] && m !in s.running
  }

  ghost predicate Reported(finished: seq<Report>, m: Name) {
    exists r | r in finished :: r.name == m
  }

  /** Whatever runs was fired by this phase and reports to it. */
  ghost predicate RunsTracked(ph: Phase, o: Origin, s: Sys) {
    forall m | m in s.running ::
      m in s.current && m in o.status && o.status[m] == From(ph) && m in s.status && s.status[m] == Via(ph)
  }

  /** Whatever has ended shows how, and a failure is on offer or known. */
  ghost predicate EndsTracked(ph: Phase, o: Origin, s: Sys) {
    forall m | Moved(o.status, s, m) ::
      s.status[m] == ResultOf(ph, m in s.failed) && (m in s.failed ==> m in o.known || Reported(s.finished, m))
  }

  /** Reports tell the truth, and so does what is known. */
  ghost predicate ReportsTracked(o: Origin, s: Sys) {
    && (forall r | r in s.finished :: Moved(o.status, s, r.name) && (r.failed <==> r.name in s.failed))
    && (forall m | m in o.known :: Moved(o.status, s, m) && m in s.failed)
  }

  ghost predicate OthersTracked(o: Origin, s: Sys) {
    forall m | m in o.status && m in s.status && s.status[m] == o.status[m] :: m in s.failed <==> m in o.failed
  }

  ghost predicate Tracks(ph: Phase, o: Origin, s: Sys) {
    RunsTracked(ph, o, s) && EndsTracked(ph, o, s) && ReportsTracked(o, s) && OthersTracked(o, s)
  }

  lemma PhaseOfVia(ph: Phase)
    ensures Transitional(Via(ph)) && PhaseOf(Via(ph)) == ph && From(ph) != Via(ph) && From(ph) != To(ph)
  {
  }

  lemma EndTracks(ph: Phase, o: Origin, s: Sys, m: Name, failed: bool)
    requires Tracks(ph, o, s) && m in s.running && m in s.status && Transitional(s.status[m])
    ensures Tracks(ph, o, Ended(s, m, failed))
  {
    PhaseOfVia(ph);
    var t := Ended(s, m, failed);
    assert t.finished == s.finished + [Report(m, failed)];
    assert Report(m, failed) in t.finished;
    assert forall r | r in s.finished :: r in t.finished;
    assert forall r | r in t.finished :: r in s.finished || r == Report(m, failed);
    forall x | Moved(o.status, t, x)
      ensures t.status[x] == ResultOf(ph, x in t.failed) && (x in t.failed ==> x in o.known || Reported(t.finished, x))
    {
      if x != m { assert Moved(o.status, s, x); }
    }
  }

  lemma StepTracks(c: Config, ph: Phase, o: Origin, s: Sys, e: Event, t: Sys)
    requires Tracks(ph, o, s) && Happens(c, s, e, t) && Passive(e)
    ensures Tracks(ph, o, t)
  {
    if e.End? {
      EndTracks(ph, o, s, e.m, e.failed);
    } else {
      SameTracks(ph, o, s, t);
    }
  }

  lemma SameTracks(ph: Phase, o: Origin, s: Sys, t: Sys)
    requires Tracks(ph, o, s) && t.status == s.status && t.running == s.running && t.current == s.current
    requires t.finished == s.finished && t.failed == s.failed
    ensures Tracks(ph, o, t)
  {
    assert forall m :: Moved(o.status, t, m) <==> Moved(o.status, s, m);
  }

  lemma {:induction false} PathTracks(c: Config, ph: Phase, o: Origin, h: seq<Sys>)
    requires Path(c, true, h) && Tracks(ph, o, h[0])
    ensures Tracks(ph, o, h[|h| - 1])
  {
    var n := |h| - 1;
    if n > 0 {
      PathTracks(c, ph, o, h[..n]);
      var e :| Happens(c, h[n - 1], e, h[n]) && Passive(e);
      StepTracks(c, ph, o, h[n - 1], e, h[n]);
    }
  }

  /** Looking, with control functions ending in between, loses track of nothing. */
  lemma LookingTracks(c: Config, ph: Phase, o: Origin, s: Sys, t: Sys)
    requires Leads(c, true, s, t) && Tracks(ph, o, s)
    ensures Tracks(ph, o, t)
  {
    var h :| Path(c, true, h) && h[0] == s && h[|h| - 1] == t;
    PathTracks(c, ph, o, h);
  }

  lemma BegunTracks(ph: Phase, o: Origin, s: Sys, m: Name)
    requires Tracks(ph, o, s) && m in s.status && s.status[m] == From(ph) && m in o.status
    ensures Tracks(ph, o, Begun(s, ph, m))
  {
    PhaseOfVia(ph);
    var t := Begun(s, ph, m);
    assert m !in s.running;
    assert !Moved(o.status, s, m);
    assert o.status[m] == From(ph);
    forall x ensures Moved(o.status, t, x) <==> Moved(o.status, s, x) {
    }
  }

  /** Receiving a report makes a failure known. */
  function Told(o: Origin, r: Report): Origin {
    if r.failed then o.(known := o.known + {r.name}) else o
  }

  lemma TakenTracks(ph: Phase, o: Origin, s: Sys, k: nat)
    requires Tracks(ph, o, s) && k < |s.finished|
    ensures Tracks(ph, Told(o, s.finished[k]), s.(finished := s.finished[..k] + s.finished[k + 1..]))
  {
    var t, r := s.(finished := s.finished[..k] + s.finished[k + 1..]), s.finished[k];
    assert r in s.finished;
    assert forall x | x in t.finished :: x in s.finished;
    assert s.finished == s.finished[..k] + [r] + s.finished[k + 1..];
    assert forall x | x in s.finished && x != r :: x in t.finished;
    forall m | Moved(o.status, t, m)
      ensures t.status[m] == ResultOf(ph, m in t.failed) && (m in t.failed ==> m in Told(o, r).known || Reported(t.finished, m))
    {
      assert Moved(o.status, s, m);
      if m in s.failed && m !in o.known && m != r.name {
        var x :| x in s.finished && x.name == m;
        assert x in t.finished;
      }
    }
  }

  lemma StartTracks(ph: Phase, s: Sys)
    requires s.running == {} && s.finished == []
    ensures Tracks(ph, Origin(s.status, s.failed, {}), s)
  {
  }
}
