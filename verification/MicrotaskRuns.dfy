/** How far microtasks that give up waiting let the threshold be exceeded: runs that reach the
    bounds. */
module MicrotaskRuns {
  import opened Microtasks

  /** After the tasks ts and gs gave up and concluded with their signals left in the low and in the
      medium queue, there behind those of the tasks os, and the tasks us were granted and run. */
  function Stage(ts: seq<Task>, us: seq<Task>, os: seq<Task>, gs: seq<Task>): State {
    State(|us| - |ts| - |gs|, os + gs, ts, Progresses(Members(ts) + Members(gs), Members(us), Members(os)),
          Looking, false, false, Members(us), Members(us), Members(ts) + Members(gs))
  }

  function Progresses(gone: set<Task>, running: set<Task>, queued: set<Task>): map<Task, Progress> {
    map t | t in gone + running + queued :: if t in running then Running else if t in queued then Queued else Concluded
  }

  predicate Unknown(s: State, t: Task) {
    t !in s.progress && t !in s.granted
  }

  lemma Extend(c: Config, h: seq<State>, e: Event, u: State) returns (h': seq<State>)
    requires Run(c, h) && Happens(c, h[|h| - 1], e, u)
    ensures Run(c, h') && h'[|h'| - 1] == u && h <= h'
  {
    h' := h + [u];
    assert h'[..|h|] == h;
  }

  // a task submits its signal, gives up waiting and concludes

  function Abandoned(s: State, t: Task, low: bool): State {
    Enqueue(s, t, low).(counter := s.counter - 1, progress := s.progress[t := Concluded], gaveUp := s.gaveUp + {t})
  }

  lemma GiveUpOne(c: Config, h: seq<State>, t: Task, low: bool) returns (h': seq<State>)
    requires Run(c, h) && Unknown(h[|h| - 1], t) && HasRoom(c, h[|h| - 1], low)
    ensures Run(c, h') && h'[|h'| - 1] == Abandoned(h[|h| - 1], t, low)
  {
    var s1 := Enqueue(h[|h| - 1], t, low);
    h' := Extend(c, h, Submit(t, low), s1);
    var s2 := s1.(progress := s1.progress[t := Running], gaveUp := s1.gaveUp + {t});
    h' := Extend(c, h', GiveUp(t), s2);
    h' := Extend(c, h', Conclude(t), s2.(progress := s2.progress[t := Concluded], counter := s2.counter - 1));
  }

  // the scheduler grants the task whose signal comes first

  predicate Grantable(c: Config, s: State) {
    && s.scheduler == Looking && s.counter < c.threshold && !s.shutdownMode && !s.shutdownFlag
    && s.medium != [] && s.medium[0] in s.progress && s.progress[s.medium[0]] == Queued
  }

  function Granted(s: State): State
    requires s.medium != []
  {
    var t := s.medium[0];
    CountIn(s, t).(medium := s.medium[1..], progress := s.progress[t := Running], granted := s.granted + {t})
  }

  lemma GrantFirst(c: Config, h: seq<State>) returns (h': seq<State>)
    requires Run(c, h) && Grantable(c, h[|h| - 1])
    ensures Run(c, h') && h'[|h'| - 1] == Granted(h[|h| - 1])
  {
    var s := h[|h| - 1];
    h' := Extend(c, h, Look, s.(scheduler := Clearing(false)));
    h' := Clear(c, h');
    h' := Extend(c, h', Proceed(s.medium[0]), Granted(s));
  }

  function Cleared(s: State): State
    requires s.medium != []
  {
    CountIn(s, s.medium[0]).(medium := s.medium[1..], granted := s.granted + {s.medium[0]}, scheduler := Looking)
  }

  lemma Clear(c: Config, h: seq<State>) returns (h': seq<State>)
    requires Run(c, h) && h[|h| - 1].scheduler == Clearing(false) && h[|h| - 1].medium != []
    ensures Run(c, h') && h'[|h'| - 1] == Cleared(h[|h| - 1])
  {
    var s := h[|h| - 1];
    var t := s.medium[0];
    var s3 := s.(medium := s.medium[1..], scheduler := Holding(t));
    h' := Extend(c, h, TryMedium, s3);
    var s4 := s3.(scheduler := Counting(t), granted := s3.granted + {t});
    h' := Extend(c, h', Close, s4);
    h' := Extend(c, h', Count, CountIn(s4, t).(scheduler := Looking));
  }

  // the stages

  lemma MembersSnoc(q: seq<Task>, t: Task)
    ensures Members(q + [t]) == Members(q) + {t}
  {
  }

  lemma StageGivesUp(ts: seq<Task>, us: seq<Task>, os: seq<Task>, gs: seq<Task>, t: Task)
    requires Unknown(Stage(ts, us, os, gs), t)
    ensures Abandoned(Stage(ts, us, os, gs), t, true) == Stage(ts + [t], us, os, gs)
    ensures Abandoned(Stage(ts, us, os, gs), t, false) == Stage(ts, us, os, gs + [t])
  {
    MembersSnoc(ts, t);
    MembersSnoc(gs, t);
    assert os + gs + [t] == os + (gs + [t]);
  }

  lemma StageQueues(ts: seq<Task>, us: seq<Task>, os: seq<Task>, t: Task)
    requires Unknown(Stage(ts, us, os, []), t)
    ensures Enqueue(Stage(ts, us, os, []), t, false) == Stage(ts, us, os + [t], [])
  {
    MembersSnoc(os, t);
    assert os + [] + [t] == os + [t] + [];
  }

  lemma StageGrants(ts: seq<Task>, us: seq<Task>, t: Task, os: seq<Task>, gs: seq<Task>)
    requires t !in ts && t !in us && t !in os && t !in gs
    ensures Granted(Stage(ts, us, [t] + os, gs)) == Stage(ts, us + [t], os, gs)
  {
    MembersSnoc(us, t);
    assert Members([t] + os) == Members(os) + {t};
    assert ([t] + os + gs)[1..] == os + gs;
  }

  /** All tasks are different. */
  ghost predicate Apart(ts: seq<Task>, us: seq<Task>, os: seq<Task>, gs: seq<Task>) {
    Distinct(ts) && Distinct(us) && Distinct(os) && Distinct(gs)
    && Members(ts) !! Members(us) !! Members(os) !! Members(gs)
  }

  lemma StartIsStage()
    ensures State(0, [], [], map[], Looking, false, false, {}, {}, {}) == Stage([], [], [], [])
  {
    assert Members([]) == {};
    assert Progresses({}, {}, {}) == map[];
  }

  lemma GiveUpMore(c: Config, h: seq<State>, ts: seq<Task>, t: Task) returns (h': seq<State>)
    requires Run(c, h) && h[|h| - 1] == Stage(ts, [], [], []) && t !in ts && |ts| < c.capacity
    ensures Run(c, h') && h'[|h'| - 1] == Stage(ts + [t], [], [], [])
  {
    h' := GiveUpOne(c, h, t, true);
    StageGivesUp(ts, [], [], [], t);
  }

  lemma {:induction false} GiveUpAll(c: Config, ts: seq<Task>) returns (h: seq<State>)
    requires Distinct(ts) && |ts| <= c.capacity
    ensures Run(c, h) && h[|h| - 1] == Stage(ts, [], [], [])
  {
    if ts == [] {
      h := RunFromStart(c);
    } else {
      var n := |ts| - 1;
      LastApart(ts);
      h := GiveUpAll(c, ts[..n]);
      h := GiveUpMore(c, h, ts[..n], ts[n]);
    }
  }

  lemma RunFromStart(c: Config) returns (h: seq<State>)
    ensures Run(c, h) && h[|h| - 1] == Stage([], [], [], [])
  {
    h := [State(0, [], [], map[], Looking, false, false, {}, {}, {})];
    StartIsStage();
  }

  lemma LastApart(ts: seq<Task>)
    requires Distinct(ts) && ts != []
    ensures var n := |ts| - 1; Distinct(ts[..n]) && ts[n] !in ts[..n] && ts == ts[..n] + [ts[n]]
  {
  }

  lemma {:induction false} GrantAll(c: Config, ts: seq<Task>, us: seq<Task>) returns (h: seq<State>)
    requires Apart(ts, us, [], []) && |ts| <= c.capacity && 0 < c.capacity && |us| <= c.threshold + |ts|
    ensures Run(c, h) && h[|h| - 1] == Stage(ts, us, [], [])
    decreases us
  {
    if us == [] {
      h := GiveUpAll(c, ts);
    } else {
      var n := |us| - 1;
      var t := us[n];
      assert us == us[..n] + [t];
      MembersSnoc(us[..n], t);
      assert t !in us[..n];
      h := GrantAll(c, ts, us[..n]);
      StageQueues(ts, us[..n], [], t);
      h := Extend(c, h, Submit(t, false), Stage(ts, us[..n], [] + [t], []));
      assert [] + [t] == [t] + [];
      h := GrantFirst(c, h);
      StageGrants(ts, us[..n], t, [], []);
    }
  }

  lemma {:induction false} QueueAll(c: Config, ts: seq<Task>, us: seq<Task>, os: seq<Task>) returns (h: seq<State>)
    requires Apart(ts, us, os, []) && |ts| <= c.capacity && |os| < c.capacity && |us| <= c.threshold + |ts|
    ensures Run(c, h) && h[|h| - 1] == Stage(ts, us, os, [])
    decreases os
  {
    if os == [] {
      h := GrantAll(c, ts, us);
    } else {
      var n := |os| - 1;
      assert os == os[..n] + [os[n]];
      MembersSnoc(os[..n], os[n]);
      assert os[n] !in os[..n];
      h := QueueAll(c, ts, us, os[..n]);
      StageQueues(ts, us, os[..n], os[n]);
      h := Extend(c, h, Submit(os[n], false), Stage(ts, us, os, []));
    }
  }

  /** A task behind the queue gives up and concludes, and the task in front is granted. */
  lemma SwapOne(c: Config, h: seq<State>, ts: seq<Task>, us: seq<Task>, o: Task, os: seq<Task>, gone: seq<Task>, g: Task)
    returns (h': seq<State>)
    requires Run(c, h) && h[|h| - 1] == Stage(ts, us, [o] + os, gone) && Unknown(h[|h| - 1], g)
    requires o !in ts && o !in us && o !in os && o !in gone && o != g
    requires |os| + 1 + |gone| < c.capacity && |us| == c.threshold + |ts| + |gone|
    ensures Run(c, h') && h'[|h'| - 1] == Stage(ts, us + [o], os, gone + [g])
  {
    h' := GiveUpOne(c, h, g, false);
    StageGivesUp(ts, us, [o] + os, gone, g);
    assert o in Members([o] + os) by { assert ([o] + os)[0] == o; }
    h' := GrantFirst(c, h');
    StageGrants(ts, us, o, os, gone + [g]);
  }

  lemma {:induction false} SwapAll(c: Config, h: seq<State>, ts: seq<Task>, us: seq<Task>, os: seq<Task>, gone: seq<Task>, gs: seq<Task>)
    returns (h': seq<State>)
    requires Run(c, h) && h[|h| - 1] == Stage(ts, us, os, gone) && Apart(ts, us, os, gone + gs)
    requires |gs| == |os| && |os| + |gone| < c.capacity && |us| == c.threshold + |ts| + |gone|
    ensures Run(c, h') && h'[|h'| - 1] == Stage(ts, us + os, [], gone + gs)
    decreases os
  {
    if os == [] {
      h' := h;
      NothingMoved(us, os);
      NothingMoved(gone, gs);
    } else {
      h' := SwapStep(c, h, ts, us, os, gone, gs);
      h' := SwapAll(c, h', ts, us + [os[0]], os[1..], gone + [gs[0]], gs[1..]);
      Moved(us, os);
      Moved(gone, gs);
    }
  }

  lemma NothingMoved(a: seq<Task>, b: seq<Task>)
    requires b == []
    ensures a + b == a
  {
  }

  lemma Moved(a: seq<Task>, b: seq<Task>)
    requires b != []
    ensures a + [b[0]] + b[1..] == a + b
  {
  }

  lemma SwapStep(c: Config, h: seq<State>, ts: seq<Task>, us: seq<Task>, os: seq<Task>, gone: seq<Task>, gs: seq<Task>)
    returns (h': seq<State>)
    requires Run(c, h) && h[|h| - 1] == Stage(ts, us, os, gone) && Apart(ts, us, os, gone + gs)
    requires |gs| == |os| > 0 && |os| + |gone| < c.capacity && |us| == c.threshold + |ts| + |gone|
    ensures Run(c, h') && h'[|h'| - 1] == Stage(ts, us + [os[0]], os[1..], gone + [gs[0]])
    ensures Apart(ts, us + [os[0]], os[1..], gone + [gs[0]] + gs[1..])
  {
    SwapApart(ts, us, os, gone, gs);
    Moved([], os);
    assert [] + [os[0]] == [os[0]] && [] + os == os;
    h' := SwapOne(c, h, ts, us, os[0], os[1..], gone, gs[0]);
  }

  lemma DistinctParts(a: seq<Task>, b: seq<Task>)
    ensures Distinct(a + b) <==> Distinct(a) && Distinct(b) && Members(a) !! Members(b)
    ensures Members(a + b) == Members(a) + Members(b)
  {
    if Distinct(a + b) {
      assert forall i | 0 <= i < |a| :: a[i] == (a + b)[i];
      assert forall i | 0 <= i < |b| :: b[i] == (a + b)[|a| + i];
      forall t | t in a ensures t !in b {
        var i :| 0 <= i < |a| && a[i] == t;
        assert (a + b)[i] == t;
      }
    }
    if Distinct(a) && Distinct(b) && Members(a) !! Members(b) {
      forall i, j | 0 <= i < j < |a + b| ensures (a + b)[i] != (a + b)[j] {
        if i < |a| <= j { assert a[i] in Members(a) && b[j - |a|] in Members(b); }
      }
    }
  }

  lemma SwapApart(ts: seq<Task>, us: seq<Task>, os: seq<Task>, gone: seq<Task>, gs: seq<Task>)
    requires Apart(ts, us, os, gone + gs) && os != [] && gs != []
    ensures Apart(ts, us + [os[0]], os[1..], gone + [gs[0]] + gs[1..])
    ensures Unknown(Stage(ts, us, os, gone), gs[0])
    ensures var o := os[0]; o !in ts && o !in us && o !in os[1..] && o !in gone && o != gs[0]
  {
    var o, g := os[0], gs[0];
    DistinctParts([o], os[1..]);
    assert [o] + os[1..] == os;
    DistinctParts(us, [o]);
    assert gone + [g] + gs[1..] == gone + gs;
    DistinctParts(gone, gs);
    assert g in Members(gs) && o in Members(os) && o in Members([o]);
  }

  lemma StageCounts(ts: seq<Task>, us: seq<Task>, gs: seq<Task>)
    requires Distinct(ts) && Distinct(us) && Distinct(gs) && Members(ts) !! Members(us) !! Members(gs)
    ensures var s := Stage(ts, us, [], gs); |s.ActiveGranted()| == |us| && |s.gaveUp| == |ts| + |gs|
  {
    MembersFit(ts);
    MembersFit(us);
    MembersFit(gs);
    assert Stage(ts, us, [], gs).ActiveGranted() == Members(us);
  }

  /** Both bounds are reached together: whatever the threshold and the number of tasks that give up,
      up to what the queues allow, as many more run than the threshold says. */
  lemma ThresholdIsExceeded(c: Config, ts: seq<Task>, us: seq<Task>, os: seq<Task>, gs: seq<Task>) returns (h: seq<State>)
    requires Apart(ts, us, os, gs) && |ts| <= c.capacity && |os| == |gs| < c.capacity && |us| == c.threshold + |ts|
    ensures Run(c, h) && !h[|h| - 1].shutdownMode && |h[|h| - 1].gaveUp| == |ts| + |gs|
    ensures |h[|h| - 1].ActiveGranted()| == c.threshold + |h[|h| - 1].gaveUp|
  {
    assert [] + gs == gs;
    h := QueueAll(c, ts, us, os);
    h := SwapAll(c, h, ts, us, os, [], gs);
    DistinctParts(us, os);
    StageCounts(ts, us + os, gs);
  }
}
