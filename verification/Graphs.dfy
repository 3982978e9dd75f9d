/** Reachability over finite directed graphs, given as successor maps. */
module Graphs {

  type Graph<N> = map<N, set<N>>

  ghost predicate Edge<N(!new)>(g: Graph<N>, a: N, b: N) {
    a in g && b in g[a]
  }

  ghost predicate IsPath<N(!new)>(g: Graph<N>, p: seq<N>) {
    p != [] && forall i :: 0 <= i < |p| - 1 ==> Edge(g, p[i], p[i + 1])
  }

  ghost predicate PathBetween<N(!new)>(g: Graph<N>, p: seq<N>, a: N, b: N) {
    IsPath(g, p) && p[0] == a && p[|p| - 1] == b
  }

  // b follows from a along zero or more edges.
  ghost predicate Reaches<N(!new)>(g: Graph<N>, a: N, b: N) {
    exists p :: PathBetween(g, p, a, b)
  }

  // b follows from a along one or more edges.
  ghost predicate Precedes<N(!new)>(g: Graph<N>, a: N, b: N) {
    exists m :: Edge(g, a, m) && Reaches(g, m, b)
  }

  ghost predicate Mutual<N(!new)>(g: Graph<N>, a: N, b: N) {
    Reaches(g, a, b) && Reaches(g, b, a)
  }

  ghost predicate OnCycle<N(!new)>(g: Graph<N>, a: N) {
    Precedes(g, a, a)
  }

  // The mutual-reachability class of a node.
  ghost function Class<N(!new)>(g: Graph<N>, a: N): set<N> {
    set b | b in g && Mutual(g, a, b)
  }

  // Every edge ends at a node of the graph.
  ghost predicate Closed<N(!new)>(g: Graph<N>) {
    forall a, b :: Edge(g, a, b) ==> b in g
  }

  lemma ReachesSelf<N(!new)>(g: Graph<N>, a: N)
    ensures Reaches(g, a, a)
  {
    assert PathBetween(g, [a], a, a);
  }

  lemma ReachesEdge<N(!new)>(g: Graph<N>, a: N, b: N)
    requires Edge(g, a, b)
    ensures Reaches(g, a, b)
  {
    assert PathBetween(g, [a, b], a, b);
  }

  lemma ReachesTransitive<N(!new)>(g: Graph<N>, a: N, b: N, c: N)
    requires Reaches(g, a, b) && Reaches(g, b, c)
    ensures Reaches(g, a, c)
  {
    var p :| PathBetween(g, p, a, b);
    var q :| PathBetween(g, q, b, c);
    var r := p + q[1..];
    forall i | 0 <= i < |r| - 1 ensures Edge(g, r[i], r[i + 1]) {
      if i < |p| - 1 {
        assert Edge(g, p[i], p[i + 1]);
      } else {
        var k := i - |p| + 1;
        assert Edge(g, q[k], q[k + 1]);
      }
    }
    assert PathBetween(g, r, a, c);
  }

  // A path with at least one edge splits off its first edge.
  lemma ReachesSplit<N(!new)>(g: Graph<N>, a: N, b: N)
    requires Reaches(g, a, b)
    ensures a == b || Precedes(g, a, b)
  {
    var p :| PathBetween(g, p, a, b);
    if |p| > 1 {
      assert Edge(g, p[0], p[1]);
      assert IsPath(g, p[1..]) by {
        forall i | 0 <= i < |p[1..]| - 1 ensures Edge(g, p[1..][i], p[1..][i + 1]) {
          assert Edge(g, p[i + 1], p[i + 2]);
        }
      }
      assert PathBetween(g, p[1..], p[1], b);
    }
  }

  lemma PrecedesReaches<N(!new)>(g: Graph<N>, a: N, b: N)
    requires Precedes(g, a, b)
    ensures Reaches(g, a, b)
  {
    var m :| Edge(g, a, m) && Reaches(g, m, b);
    ReachesEdge(g, a, m);
    ReachesTransitive(g, a, m, b);
  }

  lemma PrecedesThen<N(!new)>(g: Graph<N>, a: N, b: N, c: N)
    requires Precedes(g, a, b) && Reaches(g, b, c)
    ensures Precedes(g, a, c)
  {
    var m :| Edge(g, a, m) && Reaches(g, m, b);
    ReachesTransitive(g, m, b, c);
  }

  lemma ThenPrecedes<N(!new)>(g: Graph<N>, a: N, b: N, c: N)
    requires Reaches(g, a, b) && Precedes(g, b, c)
    ensures Precedes(g, a, c)
  {
    ReachesSplit(g, a, b);
    if a != b {
      PrecedesReaches(g, b, c);
      PrecedesThen(g, a, b, c);
    }
  }

  // A set closed under edges keeps whatever its members reach.
  lemma {:induction false} PathStays<N(!new)>(g: Graph<N>, s: iset<N>, p: seq<N>, k: nat)
    requires IsPath(g, p) && p[0] in s && k < |p|
    requires forall x, y :: x in s && Edge(g, x, y) ==> y in s
    ensures p[k] in s
  {
    if k > 0 {
      PathStays(g, s, p, k - 1);
      assert Edge(g, p[k - 1], p[k]);
    }
  }

  lemma ReachesStays<N(!new)>(g: Graph<N>, s: iset<N>, a: N, b: N)
    requires Reaches(g, a, b) && a in s
    requires forall x, y :: x in s && Edge(g, x, y) ==> y in s
    ensures b in s
  {
    var p :| PathBetween(g, p, a, b);
    PathStays(g, s, p, |p| - 1);
  }

  // The same, against the edges: a set closed under predecessors.
  lemma {:induction false} PathCameFrom<N(!new)>(g: Graph<N>, s: iset<N>, p: seq<N>, k: nat)
    requires IsPath(g, p) && p[|p| - 1] in s && k < |p|
    requires forall x, y :: y in s && Edge(g, x, y) ==> x in s
    ensures p[k] in s
    decreases |p| - k
  {
    if k < |p| - 1 {
      PathCameFrom(g, s, p, k + 1);
      assert Edge(g, p[k], p[k + 1]);
    }
  }

  lemma ReachesCameFrom<N(!new)>(g: Graph<N>, s: iset<N>, a: N, b: N)
    requires Reaches(g, a, b) && b in s
    requires forall x, y :: y in s && Edge(g, x, y) ==> x in s
    ensures a in s
  {
    var p :| PathBetween(g, p, a, b);
    PathCameFrom(g, s, p, 0);
  }

  ghost predicate StepsWithin<N(!new)>(g: Graph<N>, d: set<N>, x: N) {
    exists y :: y in d && Edge(g, x, y)
  }

  // A finite set in which every member has an edge back into the set holds a
  // cycle.
  lemma {:induction false} EveryStepStaysMakesCycle<N(!new)>(g: Graph<N>, d: set<N>) returns (a: N)
    requires d != {}
    requires forall x {:trigger StepsWithin(g, d, x)} :: x in d ==> StepsWithin(g, d, x)
    ensures a in d && OnCycle(g, a)
    decreases |d|
  {
    var x :| x in d;
    if OnCycle(g, x) {
      return x;
    }
    var later := set y | y in d && Precedes(g, x, y);
    assert StepsWithin(g, d, x);
    var first :| first in d && Edge(g, x, first);
    ReachesSelf(g, first);
    assert first in later;
    SubsetIsSmaller(later, d - {x});
    forall y | y in later ensures StepsWithin(g, later, y) {
      assert StepsWithin(g, d, y);
      var z :| z in d && Edge(g, y, z);
      PrecedesStep(g, x, y, z);
      assert z in later;
    }
    a := EveryStepStaysMakesCycle(g, later);
  }

  lemma PrecedesStep<N(!new)>(g: Graph<N>, a: N, b: N, c: N)
    requires Precedes(g, a, b) && Edge(g, b, c)
    ensures Precedes(g, a, c)
  {
    ReachesEdge(g, b, c);
    PrecedesThen(g, a, b, c);
  }

  lemma {:induction false} SubsetIsSmaller<N>(a: set<N>, b: set<N>)
    requires a <= b
    ensures |a| <= |b|
  {
    if a != {} {
      var x :| x in a;
      SubsetIsSmaller(a - {x}, b - {x});
    }
  }

  // ---- Parts of a graph that keep reachability ----

  // Two graphs with the same edges out of a part closed under edges agree on
  // what its members reach.
  ghost predicate SameFrom<N(!new)>(g: Graph<N>, h: Graph<N>, part: iset<N>) {
    forall x, y :: x in part ==> (Edge(g, x, y) <==> Edge(h, x, y)) && (Edge(g, x, y) ==> y in part)
  }

  lemma SamePartReaches<N(!new)>(g: Graph<N>, h: Graph<N>, part: iset<N>, a: N, b: N)
    requires SameFrom(g, h, part) && a in part && Reaches(g, a, b)
    ensures Reaches(h, a, b) && b in part
  {
    ReachesStays(g, part, a, b);
    ReachesSelf(h, a);
    var s := iset x | x in part && Reaches(h, a, x);
    forall x, y | x in s && Edge(g, x, y) ensures y in s {
      ReachesEdge(h, x, y);
      ReachesTransitive(h, a, x, y);
    }
    ReachesStays(g, s, a, b);
  }

  lemma SamePartCycle<N(!new)>(g: Graph<N>, h: Graph<N>, part: iset<N>, a: N)
    requires SameFrom(g, h, part) && a in part && OnCycle(g, a)
    ensures OnCycle(h, a)
  {
    var m :| Edge(g, a, m) && Reaches(g, m, a);
    SamePartReaches(g, h, part, m, a);
  }

  lemma SamePartMutual<N(!new)>(g: Graph<N>, h: Graph<N>, part: iset<N>, a: N, b: N)
    requires SameFrom(g, h, part) && a in part && Mutual(g, a, b)
    ensures Mutual(h, a, b) && b in part
  {
    SamePartReaches(g, h, part, a, b);
    SamePartReaches(g, h, part, b, a);
  }

  // Seen from such a part the classes are the same too.
  lemma SamePartClass<N(!new)>(g: Graph<N>, h: Graph<N>, part: iset<N>, a: N)
    requires SameFrom(g, h, part) && a in part && forall b :: b in part ==> (b in g <==> b in h)
    ensures OnCycle(g, a) <==> OnCycle(h, a)
    ensures Class(g, a) == Class(h, a)
  {
    assert SameFrom(h, g, part);
    if OnCycle(g, a) { SamePartCycle(g, h, part, a); }
    if OnCycle(h, a) { SamePartCycle(h, g, part, a); }
    forall b ensures b in Class(g, a) <==> b in Class(h, a) {
      if b in Class(g, a) { SamePartMutual(g, h, part, a, b); }
      if b in Class(h, a) { SamePartMutual(h, g, part, a, b); }
    }
  }

  // A graph cut down to a part closed under predecessors keeps what reaches its
  // members.
  ghost predicate CutsTo<N(!new)>(g: Graph<N>, h: Graph<N>, part: iset<N>) {
    && (forall x, y :: Edge(h, x, y) ==> Edge(g, x, y) && y in part)
    && (forall x, y :: y in part && Edge(g, x, y) ==> x in part && Edge(h, x, y))
  }

  lemma CutReaches<N(!new)>(g: Graph<N>, h: Graph<N>, part: iset<N>, a: N, b: N)
    requires CutsTo(g, h, part) && b in part && Reaches(g, a, b)
    ensures Reaches(h, a, b) && a in part
  {
    ReachesCameFrom(g, part, a, b);
    ReachesSelf(h, b);
    var s := iset x | x in part && Reaches(h, x, b);
    forall x, y | y in s && Edge(g, x, y) ensures x in s {
      ReachesEdge(h, x, y);
      ReachesTransitive(h, x, y, b);
    }
    ReachesCameFrom(g, s, a, b);
  }

  lemma UncutReaches<N(!new)>(g: Graph<N>, h: Graph<N>, part: iset<N>, a: N, b: N)
    requires CutsTo(g, h, part) && Reaches(h, a, b)
    ensures Reaches(g, a, b)
  {
    var p :| PathBetween(h, p, a, b);
    forall i | 0 <= i < |p| - 1 ensures Edge(g, p[i], p[i + 1]) {
      assert Edge(h, p[i], p[i + 1]);
    }
    assert PathBetween(g, p, a, b);
  }

  lemma CutCycle<N(!new)>(g: Graph<N>, h: Graph<N>, part: iset<N>, a: N)
    requires CutsTo(g, h, part) && a in part
    ensures OnCycle(g, a) <==> OnCycle(h, a)
  {
    if OnCycle(g, a) {
      var m :| Edge(g, a, m) && Reaches(g, m, a);
      CutReaches(g, h, part, m, a);
    }
    if OnCycle(h, a) {
      var m :| Edge(h, a, m) && Reaches(h, m, a);
      UncutReaches(g, h, part, m, a);
    }
  }

  lemma CutMutual<N(!new)>(g: Graph<N>, h: Graph<N>, part: iset<N>, a: N, b: N)
    requires CutsTo(g, h, part) && a in part
    ensures Mutual(g, a, b) <==> Mutual(h, a, b)
    ensures Mutual(g, a, b) ==> b in part
  {
    if Mutual(g, a, b) {
      CutReaches(g, h, part, b, a);
      CutReaches(g, h, part, a, b);
    }
    if Mutual(h, a, b) {
      UncutReaches(g, h, part, a, b);
      UncutReaches(g, h, part, b, a);
    }
  }
}
