/** Dependency graphs of modules: walks, reachability, cycles, and the counting arguments
    that turn "everybody left is waiting for somebody left" into "there is a cycle". */
module ModuleGraph {

  /** A registered module, known by its number in the order of registration. */
  type Name = int

  /** Every registered module with the modules it depends on. */
  type Graph = map<Name, set<Name>>

  ghost predicate Closed(g: Graph) {
    forall m, d | m in g && d in g[m] :: d in g
  }

  ghost predicate Edge(g: Graph, a: Name, b: Name) {
    a in g && b in g && b in g[a]
  }

  /** A non-empty sequence of modules in which each one depends on the next. */
  ghost predicate Walk(g: Graph, p: seq<Name>) {
    |p| > 0 && p[0] in g && (|p| > 1 ==> Edge(g, p[0], p[1]) && Walk(g, p[1..]))
  }

  ghost predicate WalkFromTo(g: Graph, p: seq<Name>, a: Name, b: Name) {
    Walk(g, p) && p[0] == a && p[|p| - 1] == b
  }

  /** b is a itself or one of a's direct or indirect dependencies. */
  ghost predicate Reaches(g: Graph, a: Name, b: Name) {
    exists p :: WalkFromTo(g, p, a, b)
  }

  /** b is a direct or indirect dependency of a: at least one edge is followed. */
  ghost predicate DependsOn(g: Graph, a: Name, b: Name) {
    exists d :: Edge(g, a, d) && Reaches(g, d, b)
  }

  ghost predicate Acyclic(g: Graph) {
    forall m | m in g :: !DependsOn(g, m, m)
  }

  ghost predicate ReachesCycle(g: Graph, m: Name) {
    exists c :: Reaches(g, m, c) && DependsOn(g, c, c)
  }

  // ----- walks

  lemma ReachesSelf(g: Graph, a: Name)
    requires a in g
    ensures Reaches(g, a, a)
  {
    assert WalkFromTo(g, [a], a, a);
  }

  lemma EdgeThenReaches(g: Graph, a: Name, d: Name, b: Name)
    requires Edge(g, a, d) && Reaches(g, d, b)
    ensures Reaches(g, a, b)
  {
    var p :| WalkFromTo(g, p, d, b);
    assert ([a] + p)[1..] == p;
    assert WalkFromTo(g, [a] + p, a, b);
  }

  lemma ReachesSplit(g: Graph, a: Name, b: Name)
    requires Reaches(g, a, b)
    ensures a == b || DependsOn(g, a, b)
  {
    var p :| WalkFromTo(g, p, a, b);
    if |p| > 1 {
      assert WalkFromTo(g, p[1..], p[1], b);
      assert Edge(g, a, p[1]) && Reaches(g, p[1], b);
    }
  }

  lemma {:induction false} WalkPart(g: Graph, p: seq<Name>, i: nat, j: nat)
    requires Walk(g, p) && i <= j < |p|
    ensures p[i] in g && p[j] in g
    ensures Reaches(g, p[i], p[j])
    ensures i < j ==> DependsOn(g, p[i], p[j])
    decreases |p|
  {
    if i > 0 {
      WalkPart(g, p[1..], i - 1, j - 1);
    } else if j == 0 {
      ReachesSelf(g, p[0]);
    } else {
      WalkPart(g, p[1..], 0, j - 1);
      assert Edge(g, p[0], p[1]) && Reaches(g, p[1], p[j]);
      EdgeThenReaches(g, p[0], p[1], p[j]);
    }
  }

  lemma {:induction false} WalkSnoc(g: Graph, p: seq<Name>, m: Name)
    requires Walk(g, p) && Edge(g, p[|p| - 1], m)
    ensures Walk(g, p + [m])
  {
    if |p| > 1 {
      WalkSnoc(g, p[1..], m);
      assert (p + [m])[1..] == p[1..] + [m];
    } else {
      assert (p + [m])[1..] == [m];
    }
  }

  // ----- cycles

  ghost predicate HasDependencyIn(g: Graph, s: set<Name>, x: Name) {
    exists d :: d in s && Edge(g, x, d)
  }

  ghost predicate HasDependentIn(g: Graph, s: set<Name>, x: Name) {
    exists r :: r in s && Edge(g, r, x)
  }

  ghost predicate EachDependsWithin(g: Graph, s: set<Name>) {
    forall x {:trigger HasDependencyIn(g, s, x)} | x in s :: HasDependencyIn(g, s, x)
  }

  ghost predicate EachNeededWithin(g: Graph, s: set<Name>) {
    forall x {:trigger HasDependentIn(g, s, x)} | x in s :: HasDependentIn(g, s, x)
  }

  ghost predicate Distinct(p: seq<Name>) {
    forall i, j | 0 <= i < j < |p| :: p[i] != p[j]
  }

  lemma {:induction false} DistinctFits(p: seq<Name>, s: set<Name>)
    requires Distinct(p) && forall i | 0 <= i < |p| :: p[i] in s
    ensures |p| <= |s|
  {
    if p != [] {
      var n := |p| - 1;
      assert forall i | 0 <= i < n :: p[..n][i] == p[i];
      DistinctFits(p[..n], s - {p[n]});
    }
  }

  /** A walk longer than the set it stays in revisits a module. */
  lemma LongWalkHasCycle(g: Graph, p: seq<Name>, s: set<Name>) returns (c: Name)
    requires Walk(g, p) && |p| > |s|
    requires forall i | 0 <= i < |p| :: p[i] in s
    ensures Reaches(g, p[0], c) && DependsOn(g, c, c) && c in g && c in s
  {
    if Distinct(p) { DistinctFits(p, s); }
    var i, j :| 0 <= i < j < |p| && p[i] == p[j];
    c := p[i];
    WalkPart(g, p, 0, i);
    WalkPart(g, p, i, j);
  }

  lemma {:induction false} ForwardWalk(g: Graph, s: set<Name>, m: Name, n: nat) returns (p: seq<Name>)
    requires m in s && EachDependsWithin(g, s)
    ensures Walk(g, p) && |p| == n + 1 && p[0] == m && forall i | 0 <= i < |p| :: p[i] in s
    decreases n
  {
    assert HasDependencyIn(g, s, m);
    var d :| d in s && Edge(g, m, d);
    if n == 0 {
      p := [m];
    } else {
      var q := ForwardWalk(g, s, d, n - 1);
      p := [m] + q;
      assert p[1..] == q;
    }
  }

  /** If every module of s has a dependency in s, then each of them leads into a cycle. */
  lemma NoLeavesReachCycle(g: Graph, s: set<Name>, m: Name)
    requires m in s && EachDependsWithin(g, s)
    ensures ReachesCycle(g, m) && !Acyclic(g)
  {
    var p := ForwardWalk(g, s, m, |s|);
    var c := LongWalkHasCycle(g, p, s);
  }

  lemma {:induction false} BackwardWalk(g: Graph, s: set<Name>, m: Name, n: nat) returns (p: seq<Name>)
    requires m in s && EachNeededWithin(g, s)
    ensures Walk(g, p) && |p| == n + 1 && p[n] == m && forall i | 0 <= i < |p| :: p[i] in s
    decreases n
  {
    assert HasDependentIn(g, s, m);
    var r :| r in s && Edge(g, r, m);
    if n == 0 {
      p := [m];
    } else {
      var q := BackwardWalk(g, s, r, n - 1);
      p := q + [m];
      WalkSnoc(g, q, m);
    }
  }

  /** If every module of s is a dependency of another one in s, then one of them is on a cycle. */
  lemma NoRootsMeanCycle(g: Graph, s: set<Name>, m: Name) returns (c: Name)
    requires m in s && EachNeededWithin(g, s)
    ensures c in s && c in g && DependsOn(g, c, c) && ReachesCycle(g, c)
  {
    var p := BackwardWalk(g, s, m, |s|);
    c := LongWalkHasCycle(g, p, s);
    ReachesSelf(g, c);
  }

  /** A module that leads into a cycle has a dependency that does. */
  lemma CycleStep(g: Graph, m: Name)
    requires ReachesCycle(g, m)
    ensures exists d :: Edge(g, m, d) && ReachesCycle(g, d)
  {
    var c :| Reaches(g, m, c) && DependsOn(g, c, c);
    ReachesSplit(g, m, c);
    assert DependsOn(g, m, c);
  }

  lemma AcyclicMeansNoCycleReached(g: Graph)
    requires Closed(g)
    ensures Acyclic(g) <==> forall m | m in g :: !ReachesCycle(g, m)
  {
    if m :| m in g && ReachesCycle(g, m) {
      var c :| Reaches(g, m, c) && DependsOn(g, c, c);
      assert c in g;
    }
    if m :| m in g && DependsOn(g, m, m) {
      ReachesSelf(g, m);
      assert ReachesCycle(g, m);
    }
  }

  /** A set that contains the dependencies of m and of each of its own elements contains
      everything m depends on. */
  lemma ClosureContains(g: Graph, s: set<Name>, m: Name, x: Name)
    requires DependsOn(g, m, x)
    requires forall d | Edge(g, m, d) :: d in s
    requires forall y, d | y in s && Edge(g, y, d) :: d in s
    ensures x in s
  {
    var d :| Edge(g, m, d) && Reaches(g, d, x);
    var p :| WalkFromTo(g, p, d, x);
    ClosureContainsWalk(g, s, p);
  }

  lemma {:induction false} ClosureContainsWalk(g: Graph, s: set<Name>, p: seq<Name>)
    requires Walk(g, p) && p[0] in s
    requires forall y, d | y in s && Edge(g, y, d) :: d in s
    ensures p[|p| - 1] in s
  {
    if |p| > 1 {
      assert Edge(g, p[0], p[1]);
      ClosureContainsWalk(g, s, p[1..]);
    }
  }
}
